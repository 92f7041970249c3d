/** The widget's presentation logic, testWidget/test.swift: the per-account
    view model (account type, masked balance and monthly change) and which
    accounts each widget family shows, with the dividers between them.
    Fonts, colours' exact shades, padding and the header buttons' drawing are
    not modelled; `String(format:)` rendering of numbers is a parameter. */
module WidgetView {
  import opened Strings
  import opened Configuration

  /** `AccountViewModel`. Swift's `Double` is modelled as `real`. */
  datatype AccountViewModel = AccountViewModel(
    account: AccountDetail,
    isHidden: bool,
    monthlyChange: real,
    month: string,
    currency: string)

  /** `AccountViewModel.init` with its default arguments, as `AccountRowView`
      calls it: a change of 1200 in March, in USD. */
  function RowViewModel(account: AccountDetail, isHidden: bool): AccountViewModel
  {
    AccountViewModel(account, isHidden, 1200.0, "March", "USD")
  }

  const InvestmentType := "Investment"
  const ChequingType := "Chequing"

  /** `accountType`: "Investment" exactly when the account name contains
      "Investment", and "Chequing" otherwise. */
  function AccountType(vm: AccountViewModel): (r: string)
    ensures r == InvestmentType || r == ChequingType
    ensures r == InvestmentType <==> exists i :: OccursAt(vm.account.accountName, "Investment", i)
  {
    if Contains(vm.account.accountName, "Investment") then InvestmentType else ChequingType
  }

  /** Among the mock accounts only "Investment Portfolio" is an investment
      account. */
  lemma MockAccountTypes(isHidden: bool)
    ensures AccountType(RowViewModel(AllAccounts[2], isHidden)) == InvestmentType
    ensures forall i :: 0 <= i < |AllAccounts| && i != 2 ==>
              AccountType(RowViewModel(AllAccounts[i], isHidden)) == ChequingType
  {
    assert OccursAt(AllAccounts[2].accountName, "Investment", 0);
    forall i | 0 <= i < |AllAccounts| && i != 2
      ensures !Contains(AllAccounts[i].accountName, "Investment")
    {
      var name := AllAccounts[i].accountName;
      assert forall k :: 0 <= k < |name| ==> name[k] != 'I';
      AbsentFirstCharacter(name, "Investment");
    }
  }

  /** `displayBalance` of the view model: the same text the account entity
      shows with the same flag. */
  function ModelDisplayBalance(vm: AccountViewModel): (r: string)
    ensures vm.isHidden ==> r == MaskedBalance
    ensures !vm.isHidden ==> r == vm.account.balance
  {
    DisplayBalance(vm.account, vm.isHidden)
  }

  const MaskedAmount := "$****"

  /** `displayMonthlyChange`. `formatWhole` stands for
      `String(format: "%.0f", _)`. Hidden, only the sign shows; visible, a
      non-negative change gets a "+" and a negative one no prefix (its sign
      comes from the formatted number). */
  function DisplayMonthlyChange(vm: AccountViewModel, formatWhole: real -> string): (r: string)
    ensures vm.isHidden ==> |r| == 1 + |MaskedAmount| && r[1..] == MaskedAmount
    ensures vm.isHidden ==> (r[0] == '+' <==> vm.monthlyChange >= 0.0)
    ensures vm.isHidden ==> (r[0] == '-' <==> vm.monthlyChange < 0.0)
    ensures !vm.isHidden && vm.monthlyChange >= 0.0 ==> r == "+$" + formatWhole(vm.monthlyChange)
    ensures !vm.isHidden && vm.monthlyChange < 0.0 ==> r == "$" + formatWhole(vm.monthlyChange)
  {
    if vm.isHidden then
      (if vm.monthlyChange >= 0.0 then "+" else "-") + MaskedAmount
    else
      var prefix := if vm.monthlyChange >= 0.0 then "+" else "";
      prefix + "$" + formatWhole(vm.monthlyChange)
  }

  /** Two hidden changes of the same sign read the same, whatever the
      amounts and however they would be formatted. */
  lemma MaskedChangeRevealsOnlySign(
    vm1: AccountViewModel, vm2: AccountViewModel, format1: real -> string, format2: real -> string)
    requires vm1.isHidden && vm2.isHidden
    ensures DisplayMonthlyChange(vm1, format1) == DisplayMonthlyChange(vm2, format2)
        <==> (vm1.monthlyChange >= 0.0 <==> vm2.monthlyChange >= 0.0)
  {
    var r1, r2 := DisplayMonthlyChange(vm1, format1), DisplayMonthlyChange(vm2, format2);
    if r1 == r2 {
      assert r1[0] == r2[0];
    }
  }

  datatype Color = Green | Red

  /** `monthlyChangeColor`: green for a change that is not negative. */
  function MonthlyChangeColor(vm: AccountViewModel): (c: Color)
    ensures c == Green <==> vm.monthlyChange >= 0.0
  {
    if vm.monthlyChange >= 0.0 then Green else Red
  }

  /** The masked sign and the colour always agree. */
  lemma MaskedSignMatchesColor(vm: AccountViewModel, formatWhole: real -> string)
    requires vm.isHidden
    ensures DisplayMonthlyChange(vm, formatWhole)[0] == '+' <==> MonthlyChangeColor(vm) == Green
  {
  }

  /** Every row the widget draws uses the default change of +1200, so its
      masked change always reads "+$****". */
  lemma RowsShowPositiveChange(account: AccountDetail, formatWhole: real -> string)
    ensures DisplayMonthlyChange(RowViewModel(account, true), formatWhole) == "+$****"
    ensures MonthlyChangeColor(RowViewModel(account, false)) == Green
  {
  }

  // ------------------------------------------------------------- family views

  /** The three layouts `body` switches between. */
  datatype Layout = SmallLayout | MediumLayout | LargeLayout

  /** `body`'s switch on the widget family. */
  function LayoutFor(family: WidgetFamily): (l: Layout)
    ensures l == SmallLayout <==> family == SystemSmall
    ensures l == LargeLayout <==> family == SystemLarge || family == SystemExtraLarge
    ensures l == MediumLayout <==> family == SystemMedium || family == Other
  {
    match family
    case SystemSmall => SmallLayout
    case SystemMedium => MediumLayout
    case SystemLarge => LargeLayout
    case SystemExtraLarge => LargeLayout
    case Other => MediumLayout
  }

  /** One line of an account list: a divider or an account row. */
  datatype Item = Divider | Row(vm: AccountViewModel)

  /** `ForEach(0..<count)` over the accounts: a row per index, preceded by a
      divider for every index after the first. */
  function Rows(accounts: seq<AccountDetail>, count: nat, isHidden: bool): (r: seq<Item>)
    requires count <= |accounts|
    ensures |r| == if count == 0 then 0 else 2 * count - 1
    ensures forall i :: 0 <= i < count ==> r[2 * i] == Row(RowViewModel(accounts[i], isHidden))
    ensures forall i :: 0 < i < count ==> r[2 * i - 1] == Divider
    decreases count
  {
    if count == 0 then []
    else if count == 1 then [Row(RowViewModel(accounts[0], isHidden))]
    else Rows(accounts, count - 1, isHidden) + [Divider, Row(RowViewModel(accounts[count - 1], isHidden))]
  }

  /** A widget's header; both kinds carry the toggle showing the flag. */
  datatype Header = SmallHeader(isHidden: bool) | BankingHeader(isHidden: bool)

  /** What sits under the header. */
  datatype Content =
    | EmptyAccounts
    | SmallCard(account: AccountDetail, balanceText: string)
    | RowList(items: seq<Item>)

  datatype Screen = Screen(header: Header, content: Content)

  /** Most rows the medium and the large layout show. */
  const MediumRowCap: nat := 2
  const LargeRowCap: nat := 5

  function Min(a: nat, b: nat): nat { if a <= b then a else b }

  /** `smallWidgetView`. */
  function SmallWidgetView(entry: AccountPreviewEntry): Screen
  {
    Screen(SmallHeader(entry.isBalancesHidden),
           if |entry.accounts| == 0 then EmptyAccounts
           else SmallCard(entry.accounts[0], DisplayBalance(entry.accounts[0], entry.isBalancesHidden)))
  }

  /** `mediumWidgetView` and `largeWidgetView`, which differ only in `cap`. */
  function ListWidgetView(entry: AccountPreviewEntry, cap: nat): Screen
  {
    Screen(BankingHeader(entry.isBalancesHidden),
           if |entry.accounts| == 0 then EmptyAccounts
           else RowList(Rows(entry.accounts, Min(cap, |entry.accounts|), entry.isBalancesHidden)))
  }

  /** `AccountPreviewWidgetView.body`. */
  function WidgetBody(entry: AccountPreviewEntry, family: WidgetFamily): (s: Screen)
    ensures s.header.isHidden == entry.isBalancesHidden
    ensures |entry.accounts| == 0 <==> s.content == EmptyAccounts
    ensures family == SystemSmall && |entry.accounts| > 0 ==>
              s.content == SmallCard(entry.accounts[0], DisplayBalance(entry.accounts[0], entry.isBalancesHidden))
    ensures family != SystemSmall && |entry.accounts| > 0 ==> s.content.RowList?
  {
    match LayoutFor(family)
    case SmallLayout => SmallWidgetView(entry)
    case MediumLayout => ListWidgetView(entry, MediumRowCap)
    case LargeLayout => ListWidgetView(entry, LargeRowCap)
  }

  /** How many accounts a layout can show. */
  function Capacity(l: Layout): nat
  {
    match l
    case SmallLayout => 1
    case MediumLayout => MediumRowCap
    case LargeLayout => LargeRowCap
  }

  /** The accounts of the rows in a list, in order. */
  function RowAccounts(items: seq<Item>): seq<AccountDetail>
  {
    if |items| == 0 then []
    else (if items[0].Row? then [items[0].vm.account] else []) + RowAccounts(items[1..])
  }

  /** The accounts a screen shows, top to bottom. */
  function AccountsShown(c: Content): seq<AccountDetail>
  {
    match c
    case EmptyAccounts => []
    case SmallCard(a, _) => [a]
    case RowList(items) => RowAccounts(items)
  }

  lemma {:induction false} RowAccountsAppend(xs: seq<Item>, ys: seq<Item>)
    ensures RowAccounts(xs + ys) == RowAccounts(xs) + RowAccounts(ys)
    decreases |xs|
  {
    if |xs| == 0 {
      assert xs + ys == ys;
    } else {
      RowAccountsAppend(xs[1..], ys);
      assert (xs + ys)[1..] == xs[1..] + ys;
    }
  }

  /** The rows built for `count` indices show exactly the first `count`
      accounts, in order. */
  lemma {:induction false} RowsShowPrefix(accounts: seq<AccountDetail>, count: nat, isHidden: bool)
    requires count <= |accounts|
    ensures RowAccounts(Rows(accounts, count, isHidden)) == accounts[..count]
    decreases count
  {
    if count == 1 {
      assert RowAccounts(Rows(accounts, 1, isHidden)) == [accounts[0]] + RowAccounts([]);
    } else if count > 1 {
      var tail := [Divider, Row(RowViewModel(accounts[count - 1], isHidden))];
      RowsShowPrefix(accounts, count - 1, isHidden);
      RowAccountsAppend(Rows(accounts, count - 1, isHidden), tail);
      assert RowAccounts(tail) == [accounts[count - 1]] by {
        assert tail[1..] == [Row(RowViewModel(accounts[count - 1], isHidden))];
        assert RowAccounts(tail[1..]) == [accounts[count - 1]] + RowAccounts([]);
      }
      assert accounts[..count] == accounts[..count - 1] + [accounts[count - 1]];
    }
  }

  /** Each family shows the first `min(capacity, n)` accounts of the entry:
      one for small, two for medium and unknown families, five for large and
      extra large. */
  lemma AccountsShownByFamily(entry: AccountPreviewEntry, family: WidgetFamily)
    ensures AccountsShown(WidgetBody(entry, family).content)
         == entry.accounts[..Min(Capacity(LayoutFor(family)), |entry.accounts|)]
  {
    var n := |entry.accounts|;
    if n > 0 && LayoutFor(family) != SmallLayout {
      RowsShowPrefix(entry.accounts, Min(Capacity(LayoutFor(family)), n), entry.isBalancesHidden);
    }
  }

  /** With `k` accounts on screen there are exactly `k - 1` dividers, one
      between each pair of neighbouring rows. */
  lemma {:induction false} DividersBetweenRows(accounts: seq<AccountDetail>, count: nat, isHidden: bool)
    requires 0 < count <= |accounts|
    ensures |Rows(accounts, count, isHidden)| == count + (count - 1)
    ensures forall k :: 0 <= k < |Rows(accounts, count, isHidden)| ==>
              (Rows(accounts, count, isHidden)[k] == Divider <==> k % 2 == 1)
  {
    var r := Rows(accounts, count, isHidden);
    forall k | 0 <= k < |r|
      ensures r[k] == Divider <==> k % 2 == 1
    {
      if k % 2 == 0 {
        assert r[2 * (k / 2)] == Row(RowViewModel(accounts[k / 2], isHidden));
      } else {
        assert r[2 * (k / 2 + 1) - 1] == Divider;
      }
    }
  }

  /** The medium list is the beginning of the large list for the same entry. */
  lemma {:induction false} MediumRowsPrefixOfLarge(entry: AccountPreviewEntry)
    requires |entry.accounts| > 0
    ensures WidgetBody(entry, SystemMedium).content.items
         <= WidgetBody(entry, SystemLarge).content.items
  {
  }

  /** A widget just added, before any account is picked, previews two mock
      accounts in the gallery but its timeline shows "No accounts selected"
      in every family. */
  lemma FreshWidgetShowsNoAccounts(suite: Suite, family: WidgetFamily)
    ensures WidgetBody(TimelineFor(DefaultIntent(), suite).entries[0], family).content == EmptyAccounts
    ensures WidgetBody(Snapshot(DefaultIntent(), suite), family).content != EmptyAccounts
  {
  }
}
