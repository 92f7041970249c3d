/** The widget's data side, testWidget/Configuration.swift: the account
    records, the fixed list of mock accounts, the entity query and options
    provider the configuration screen uses, the balance-visibility toggle,
    and how the timeline provider chooses the accounts of an entry.

    The shared `UserDefaults` suite is an in-memory map from keys to flags,
    wrapped in `Option` because opening the suite can fail; dates, refresh
    scheduling and `UUID` ids are not modelled. */
module Configuration {
  import opened Wrappers
  import opened Strings

  // ---------------------------------------------------------------- accounts

  /** `AccountModel`. Its `UUID` id is not modelled. */
  datatype AccountModel = AccountModel(
    accountName: Option<string>,
    accountNumber: string,
    accessibleAccountNumber: Option<string>,
    balance: string)

  /** `AccountModel.init`: the accessible account number is always set to "". */
  function NewAccountModel(accountName: Option<string>, accountNumber: string, balance: string): (r: AccountModel)
    ensures r.accountName == accountName
    ensures r.accountNumber == accountNumber
    ensures r.balance == balance
    ensures r.accessibleAccountNumber == Some("")
  {
    AccountModel(accountName, accountNumber, Some(""), balance)
  }

  const AccountPrefix := "Account "

  /** `displayName`: the account's name, or "Account " followed by its number
      when it has none. */
  function DisplayName(a: AccountModel): (r: string)
    ensures a.accountName.Some? ==> r == a.accountName.value
    ensures a.accountName.None? ==>
              && |r| == |AccountPrefix| + |a.accountNumber|
              && r[..|AccountPrefix|] == AccountPrefix
              && r[|AccountPrefix|..] == a.accountNumber
  {
    a.accountName.GetOr(AccountPrefix + a.accountNumber)
  }

  /** Accounts without a name are told apart by their display names exactly
      when their numbers differ. */
  lemma UnnamedDisplayNamesDistinct(a: AccountModel, b: AccountModel)
    requires a.accountName.None? && b.accountName.None?
    ensures DisplayName(a) == DisplayName(b) <==> a.accountNumber == b.accountNumber
  {
  }

  /** `AccountDetail`, the entity the configuration screen lets users pick. */
  datatype AccountDetail = AccountDetail(id: string, accountName: string, accountNumber: string, balance: string)
  {
    /** `isAvailable` is a constant `true` in every account. */
    predicate IsAvailable() { true }
  }

  const MaskedBalance := "$****.**"

  /** `displayBalance(isHidden:)`: a fixed mask when hidden, the stored
      balance text otherwise. */
  function DisplayBalance(a: AccountDetail, isHidden: bool): (r: string)
    ensures isHidden ==> r == MaskedBalance
    ensures !isHidden ==> r == a.balance
  {
    if isHidden then MaskedBalance else a.balance
  }

  /** A hidden balance is the same text whatever the account holds. */
  lemma HiddenBalanceRevealsNothing(a: AccountDetail, b: AccountDetail)
    ensures DisplayBalance(a, true) == DisplayBalance(b, true)
    ensures a.balance != b.balance ==> DisplayBalance(a, false) != DisplayBalance(b, false)
  {
  }

  /** `allAccounts`, the mock data every query draws from. */
  const AllAccounts: seq<AccountDetail> := [
    AccountDetail("Checking", "My Checking Account", "1234", "$5,432.10"),
    AccountDetail("Savings", "Savings Account", "5678", "$12,345.67"),
    AccountDetail("Investment", "Investment Portfolio", "9012", "$87,654.32"),
    AccountDetail("Emergency", "Emergency Fund", "2468", "$7,500.00"),
    AccountDetail("Vacation", "Vacation Savings", "1357", "$2,750.88"),
    AccountDetail("Account9999", "Account 9999", "9999", "$1,000.00")
  ]

  ghost predicate Distinct<T>(s: seq<T>)
  {
    forall i, j :: 0 <= i < j < |s| ==> s[i] != s[j]
  }

  /** `r` is `s` with some elements dropped and the rest kept in order. */
  ghost predicate IsSubsequence<T>(r: seq<T>, s: seq<T>)
    decreases |s|
  {
    if |r| == 0 then true
    else if |s| == 0 then false
    else (r[0] == s[0] && IsSubsequence(r[1..], s[1..])) || IsSubsequence(r, s[1..])
  }

  /** No two mock accounts share an id, so none occurs twice. */
  lemma AllAccountIdsDistinct()
    ensures forall i, j :: 0 <= i < j < |AllAccounts| ==> AllAccounts[i].id != AllAccounts[j].id
    ensures Distinct(AllAccounts)
  {
  }

  // ---------------------------------------------------------- entity queries

  /** `accounts.filter { identifiers.contains($0.id) }`: the accounts whose id
      is listed, in their own order, each as often as it occurs in
      `accounts` (repeating an id in `ids` adds nothing). */
  function FilterByIds(accounts: seq<AccountDetail>, ids: seq<string>): (r: seq<AccountDetail>)
    ensures IsSubsequence(r, accounts)
    ensures forall a :: multiset(r)[a] == if a.id in ids then multiset(accounts)[a] else 0
    ensures forall a :: a in r <==> a in accounts && a.id in ids
    decreases |accounts|
  {
    if |accounts| == 0 then []
    else
      var rest := FilterByIds(accounts[1..], ids);
      assert accounts == [accounts[0]] + accounts[1..];
      if accounts[0].id in ids then [accounts[0]] + rest else rest
  }

  /** Dropping the head keeps a list free of repeats, and the head is not in
      what remains. */
  lemma DistinctTail<T>(s: seq<T>)
    requires |s| > 0 && Distinct(s)
    ensures Distinct(s[1..]) && s[0] !in s[1..]
  {
  }

  /** A new head absent from a repeat-free list keeps it repeat-free. */
  lemma DistinctCons<T>(h: T, t: seq<T>)
    requires Distinct(t) && h !in t
    ensures Distinct([h] + t)
  {
  }

  /** Filtering a list without repeats gives a list without repeats. */
  lemma {:induction false} FilterByIdsKeepsDistinct(accounts: seq<AccountDetail>, ids: seq<string>)
    requires Distinct(accounts)
    ensures Distinct(FilterByIds(accounts, ids))
    decreases |accounts|
  {
    if |accounts| > 0 {
      DistinctTail(accounts);
      FilterByIdsKeepsDistinct(accounts[1..], ids);
      if accounts[0].id in ids {
        DistinctCons(accounts[0], FilterByIds(accounts[1..], ids));
      }
    }
  }

  /** Only the set of requested ids matters, not their order or repetition. */
  lemma {:induction false} FilterByIdsIgnoresRepeats(accounts: seq<AccountDetail>, ids: seq<string>, ids': seq<string>)
    requires forall x :: x in ids <==> x in ids'
    ensures FilterByIds(accounts, ids) == FilterByIds(accounts, ids')
    decreases |accounts|
  {
    if |accounts| > 0 {
      FilterByIdsIgnoresRepeats(accounts[1..], ids, ids');
    }
  }

  /** `AccountQuery.entities(for:)`: the mock accounts with a requested id,
      in mock-data order and never twice. */
  function Entities(ids: seq<string>): (r: seq<AccountDetail>)
    ensures IsSubsequence(r, AllAccounts)
    ensures Distinct(r)
    ensures forall a :: a in r <==> a in AllAccounts && a.id in ids
  {
    AllAccountIdsDistinct();
    FilterByIdsKeepsDistinct(AllAccounts, ids);
    FilterByIds(AllAccounts, ids)
  }

  /** `accounts.filter { $0.isAvailable }`. */
  function FilterAvailable(accounts: seq<AccountDetail>): seq<AccountDetail>
  {
    if |accounts| == 0 then []
    else (if accounts[0].IsAvailable() then [accounts[0]] else []) + FilterAvailable(accounts[1..])
  }

  /** Since every account is available, the availability filter keeps all. */
  lemma {:induction false} FilterAvailableKeepsAll(accounts: seq<AccountDetail>)
    ensures FilterAvailable(accounts) == accounts
    decreases |accounts|
  {
    if |accounts| > 0 {
      FilterAvailableKeepsAll(accounts[1..]);
      assert accounts == [accounts[0]] + accounts[1..];
    }
  }

  /** `AccountQuery.suggestedEntities()`. */
  function SuggestedEntities(): (r: seq<AccountDetail>)
    ensures r == AllAccounts
  {
    FilterAvailableKeepsAll(AllAccounts);
    FilterAvailable(AllAccounts)
  }

  /** `AccountQuery.defaultResult()`: the first suggested entity, if any. */
  function DefaultResult(): (r: Option<AccountDetail>)
    ensures r == Some(AllAccounts[0])
  {
    var suggested := SuggestedEntities();
    if |suggested| == 0 then None else Some(suggested[0])
  }

  // ---------------------------------------------------------------- sorting

  /** No account is followed by one whose name sorts strictly before it. */
  ghost predicate SortedByName(s: seq<AccountDetail>)
  {
    forall i, j :: 0 <= i < j < |s| ==> !Less(s[j].accountName, s[i].accountName)
  }

  /** Puts `x` into a list, ahead of the first account whose name does not
      sort before its own. */
  function InsertByName(x: AccountDetail, s: seq<AccountDetail>): (r: seq<AccountDetail>)
    ensures multiset(r) == multiset(s) + multiset{x}
    decreases |s|
  {
    if |s| == 0 then [x]
    else if !Less(s[0].accountName, x.accountName) then
      assert s == [s[0]] + s[1..];
      [x] + s
    else
      assert s == [s[0]] + s[1..];
      [s[0]] + InsertByName(x, s[1..])
  }

  /** A sorted list stays sorted under a new head that sorts no later than
      any of its elements. */
  lemma SortedCons(h: AccountDetail, t: seq<AccountDetail>)
    requires SortedByName(t)
    requires forall j :: 0 <= j < |t| ==> !Less(t[j].accountName, h.accountName)
    ensures SortedByName([h] + t)
  {
  }

  /** Inserting into a sorted list keeps it sorted. */
  lemma {:induction false} InsertByNameKeepsSorted(x: AccountDetail, s: seq<AccountDetail>)
    requires SortedByName(s)
    ensures SortedByName(InsertByName(x, s))
    decreases |s|
  {
    if |s| == 0 {
    } else if !Less(s[0].accountName, x.accountName) {
      forall j | 0 <= j < |s|
        ensures !Less(s[j].accountName, x.accountName)
      {
        if j > 0 {
          NotLessTransitive(x.accountName, s[0].accountName, s[j].accountName);
        }
      }
      SortedCons(x, s);
    } else {
      var t := s[1..];
      InsertByNameKeepsSorted(x, t);
      var tail := InsertByName(x, t);
      LessAsymmetric(s[0].accountName, x.accountName);
      forall j | 0 <= j < |tail|
        ensures !Less(tail[j].accountName, s[0].accountName)
      {
        var e := tail[j];
        assert e in multiset(tail);
        if e != x {
          assert e in multiset(t);
          var k :| 0 <= k < |t| && t[k] == e;
          assert s[k + 1] == e;
        }
      }
      SortedCons(s[0], tail);
    }
  }

  /** `sorted { $0.accountName < $1.accountName }`, as a stable insertion sort:
      a permutation of `s` in which no name sorts before an earlier one. */
  function SortByName(s: seq<AccountDetail>): (r: seq<AccountDetail>)
    ensures SortedByName(r)
    ensures multiset(r) == multiset(s)
    decreases |s|
  {
    if |s| == 0 then []
    else
      assert s == [s[0]] + s[1..];
      var sortedTail := SortByName(s[1..]);
      InsertByNameKeepsSorted(s[0], sortedTail);
      InsertByName(s[0], sortedTail)
  }

  /** `AccountOptionsProvider.results()`: every mock account once, sorted
      ascending by name. */
  function Results(): (r: seq<AccountDetail>)
    ensures SortedByName(r)
    ensures multiset(r) == multiset(AllAccounts)
  {
    SortByName(AllAccounts)
  }

  /** Every name sorts strictly before each later one. */
  ghost predicate StrictlySortedByName(s: seq<AccountDetail>)
  {
    forall i, j :: 0 <= i < j < |s| ==> Less(s[i].accountName, s[j].accountName)
  }

  /** Nothing in a sorted list sorts before its head. */
  lemma SortedHeadFirst(s: seq<AccountDetail>, e: AccountDetail)
    requires SortedByName(s) && e in s
    ensures !Less(e.accountName, s[0].accountName)
  {
    var k :| 0 <= k < |s| && s[k] == e;
    if k == 0 {
      LessIrreflexive(e.accountName);
    }
  }

  /** In a strictly sorted list everything else sorts after the head. */
  lemma StrictlySortedHeadFirst(s: seq<AccountDetail>, e: AccountDetail)
    requires StrictlySortedByName(s) && e in s
    ensures e != s[0] ==> Less(s[0].accountName, e.accountName)
  {
  }

  /** Both kinds of sortedness survive dropping the head. */
  lemma SortedTails(r1: seq<AccountDetail>, r2: seq<AccountDetail>)
    requires |r1| > 0 && |r2| > 0
    requires StrictlySortedByName(r1) && SortedByName(r2)
    ensures StrictlySortedByName(r1[1..]) && SortedByName(r2[1..])
  {
  }

  /** Permutations have the same length. */
  lemma SameElementsSameLength<T>(r1: seq<T>, r2: seq<T>)
    requires multiset(r1) == multiset(r2)
    ensures |r1| == |r2|
  {
    assert |r1| == |multiset(r1)| && |r2| == |multiset(r2)|;
  }

  /** Permutations with the same head have permuted tails. */
  lemma SameHeadSameTails<T>(r1: seq<T>, r2: seq<T>)
    requires |r1| > 0 && |r2| > 0 && r1[0] == r2[0]
    requires multiset(r1) == multiset(r2)
    ensures multiset(r1[1..]) == multiset(r2[1..])
  {
    assert r1 == [r1[0]] + r1[1..] && r2 == [r2[0]] + r2[1..];
    assert multiset(r1[1..]) == multiset(r1) - multiset{r1[0]};
    assert multiset(r2[1..]) == multiset(r2) - multiset{r2[0]};
  }

  /** A strictly sorted list is the only sorted arrangement of its elements,
      so where names are unique the order of the options does not depend on
      how the sort treats equal names. */
  lemma {:induction false} SortedPermutationUnique(r1: seq<AccountDetail>, r2: seq<AccountDetail>)
    requires StrictlySortedByName(r1) && SortedByName(r2)
    requires multiset(r1) == multiset(r2)
    ensures r1 == r2
    decreases |r1|
  {
    SameElementsSameLength(r1, r2);
    if |r1| > 0 {
      assert r1[0] in multiset(r2) && r2[0] in multiset(r1);
      SortedHeadFirst(r2, r1[0]);
      StrictlySortedHeadFirst(r1, r2[0]);
      SameHeadSameTails(r1, r2);
      SortedTails(r1, r2);
      SortedPermutationUnique(r1[1..], r2[1..]);
      assert r1 == [r1[0]] + r1[1..] && r2 == [r2[0]] + r2[1..];
    }
  }

  /** The mock accounts in alphabetical order of name. */
  const OptionsOrder: seq<AccountDetail> :=
    [AllAccounts[5], AllAccounts[3], AllAccounts[2], AllAccounts[0], AllAccounts[1], AllAccounts[4]]

  /** The options appear as "Account 9999", "Emergency Fund", "Investment
      Portfolio", "My Checking Account", "Savings Account", "Vacation
      Savings". */
  lemma ResultsOrder()
    ensures Results() == OptionsOrder
  {
    OptionsOrderStrictlySorted();
    OptionsOrderIsPermutation();
    SortedPermutationUnique(OptionsOrder, Results());
  }

  /** The expected order really is alphabetical, with no two names equal. */
  lemma OptionsOrderStrictlySorted()
    ensures StrictlySortedByName(OptionsOrder)
  {
  }

  /** The expected order lists every mock account once. */
  lemma OptionsOrderIsPermutation()
    ensures multiset(OptionsOrder) == multiset(AllAccounts)
  {
  }

  // ------------------------------------------------------ visibility toggle

  /** The shared `UserDefaults` suite: `None` when it cannot be opened. */
  type Suite = Option<map<string, bool>>

  /** The key of the hidden-balances flag. */
  const BalancesHiddenKey := "balancesHidden"

  /** `userDefaults?.bool(forKey:) ?? false`: a missing suite or key reads as
      `false`. */
  function ReadFlag(suite: Suite, key: string): (r: bool)
    ensures r <==> suite.Some? && key in suite.value && suite.value[key]
  {
    match suite
    case None => false
    case Some(m) => if key in m then m[key] else false
  }

  /** `ToggleBalanceVisibilityIntent.perform()`: stores the negation of the
      flag it reads; with no suite nothing happens. */
  function ToggleBalanceVisibility(suite: Suite): (suite': Suite)
    ensures suite.None? ==> suite' == None
    ensures suite.Some? ==> suite'.Some?
    ensures suite.Some? ==> ReadFlag(suite', BalancesHiddenKey) == !ReadFlag(suite, BalancesHiddenKey)
    ensures suite.Some? ==> suite'.value.Keys == suite.value.Keys + {BalancesHiddenKey}
    ensures suite.Some? ==> forall k :: k in suite.value && k != BalancesHiddenKey ==> suite'.value[k] == suite.value[k]
  {
    match suite
    case None => None
    case Some(m) => Some(m[BalancesHiddenKey := !ReadFlag(suite, BalancesHiddenKey)])
  }

  /** Two toggles restore the flag; if the key was already stored, they
      restore the whole suite. */
  lemma ToggleTwice(suite: Suite)
    ensures ReadFlag(ToggleBalanceVisibility(ToggleBalanceVisibility(suite)), BalancesHiddenKey)
         == ReadFlag(suite, BalancesHiddenKey)
    ensures suite.Some? && BalancesHiddenKey in suite.value ==>
              ToggleBalanceVisibility(ToggleBalanceVisibility(suite)) == suite
  {
    if suite.Some? && BalancesHiddenKey in suite.value {
      var m := suite.value;
      var once := m[BalancesHiddenKey := !m[BalancesHiddenKey]];
      assert once[BalancesHiddenKey := m[BalancesHiddenKey]] == m;
    }
  }

  // ---------------------------------------------------------- timeline provider

  /** The widget sizes WidgetKit can ask for; `Other` stands for any family
      the `@unknown default` branches receive. */
  datatype WidgetFamily = SystemSmall | SystemMedium | SystemLarge | SystemExtraLarge | Other

  /** `AccountPreviewEntry`, without its date. */
  datatype AccountPreviewEntry = AccountPreviewEntry(accounts: seq<AccountDetail>, isBalancesHidden: bool)

  /** `SelectAccountsIntent`: the accounts the user picked. */
  datatype SelectAccountsIntent = SelectAccountsIntent(accounts: seq<AccountDetail>)

  /** `SelectAccountsIntent.init()`: nothing picked yet. */
  function DefaultIntent(): (config: SelectAccountsIntent)
    ensures |config.accounts| == 0
  {
    SelectAccountsIntent([])
  }

  /** `placeholder(in:)`: the first two mock accounts, balances shown. */
  function Placeholder(): (e: AccountPreviewEntry)
    ensures e.accounts == AllAccounts[..2]
    ensures !e.isBalancesHidden
  {
    AccountPreviewEntry([AllAccounts[0], AllAccounts[1]], false)
  }

  /** `snapshot(for:in:)`: the picked accounts, or the first two mock
      accounts when none are picked. */
  function Snapshot(config: SelectAccountsIntent, suite: Suite): (e: AccountPreviewEntry)
    ensures |config.accounts| == 0 ==> e.accounts == AllAccounts[..2]
    ensures |config.accounts| > 0 ==> e.accounts == config.accounts
    ensures |e.accounts| > 0
    ensures e.isBalancesHidden == ReadFlag(suite, BalancesHiddenKey)
  {
    var accounts := if |config.accounts| == 0 then [AllAccounts[0], AllAccounts[1]] else config.accounts;
    AccountPreviewEntry(accounts, ReadFlag(suite, BalancesHiddenKey))
  }

  /** A timeline; its hourly refresh policy is not modelled. */
  datatype Timeline = Timeline(entries: seq<AccountPreviewEntry>)

  /** `timeline(for:in:)`: one entry with exactly the picked accounts, with no
      fallback when none are picked. */
  function TimelineFor(config: SelectAccountsIntent, suite: Suite): (t: Timeline)
    ensures |t.entries| == 1
    ensures t.entries[0].accounts == config.accounts
    ensures t.entries[0].isBalancesHidden == ReadFlag(suite, BalancesHiddenKey)
  {
    Timeline([AccountPreviewEntry(config.accounts, ReadFlag(suite, BalancesHiddenKey))])
  }

  /** Snapshot and timeline agree exactly when some account is picked. */
  lemma SnapshotMatchesTimelineIffConfigured(config: SelectAccountsIntent, suite: Suite)
    ensures Snapshot(config, suite) == TimelineFor(config, suite).entries[0] <==> |config.accounts| > 0
  {
  }
}
