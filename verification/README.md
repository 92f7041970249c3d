# Transaction categorisation app and account widget: a Dafny model

The repository is an iOS app with a home-screen widget. Almost all of it is SwiftUI and WidgetKit layout. Two small pieces of decision logic remain, and this project models and proves properties of both:

1. **The transaction classifier.** `TransactionClassifier` wraps an optional NaturalLanguage model. The model is loaded once in `init` from a CoreML artifact. Two prediction methods answer with fixed fallbacks: `"unknown"` or `nil` when nothing is loaded, and `"n/a"` when the model gives no label. `TransactionClassifierView` turns the answer into what the screen shows: the label, or `"Prediction failed"`, and a list of category/probability pairs for a pie chart.
2. **The account widget.** It works over a fixed list of six mock accounts. It covers entity lookup by id, the alphabetically sorted options list, and the balance-visibility toggle on a shared key/value store. It also covers the accounts chosen for snapshots and timelines, the masked balance and monthly-change texts, and which accounts each widget family shows.

The model is functional throughout:

- The CoreML/NaturalLanguage model is an `NLModel` value holding two total functions. This makes it a deterministic oracle: `predictedLabel(text)` and `predictedLabelHypotheses(text, maximumCount)`.
- The classifier is a value with an optional model, so it is either Unloaded or Loaded. Its state is fixed by `Init`. The predictions are functions of that value, so no call can change the load state.
- The `UserDefaults` app-group suite is an `Option<map<string, bool>>`. `None` stands for a suite that could not be opened.
- Swift's `Double` is `real` and `String` is `seq<char>`.

Modules follow the source files:

| file | module | source |
|---|---|---|
| `wrappers.dfy` | `Wrappers` | Swift `Optional` and `??` |
| `strings.dfy` | `Strings` | `String <` and `String.contains` |
| `transaction_classifier.dfy` | `Classifier` | Transactions-Search-Page/TransactionClassifier.swift |
| `transaction_classifier_view.dfy` | `ClassifierView` | Transactions-Search-Page/TransactionClassifierView.swift |
| `configuration.dfy` | `Configuration` | testWidget/Configuration.swift |
| `widget_view.dfy` | `WidgetView` | testWidget/test.swift |

The code, and so the model, has:

- no ranking or normalisation layer: nothing deduplicates, clamps, sorts by probability or truncates to a top k;
- no terminal "Unavailable" classifier state and no load-once gate: there are only Unloaded and Loaded;
- no `"unknown"` for a missing label: the code returns `"n/a"` in that case and uses `"unknown"` only when no model is loaded.

The hypotheses come back from the model as an unordered dictionary and are passed on untouched.

## Model

| member | source | states |
|---|---|---|
| `Classifier.LoadCategoryModel` | Transactions-Search-Page/TransactionClassifier.swift:25-36 | If building the CoreML model fails, or converting it to an NL model fails, the classifier is left exactly as it was. Otherwise it holds the converted model. |
| `Classifier.Init` | Transactions-Search-Page/TransactionClassifier.swift:18-36 | A new classifier is Loaded exactly when both load steps succeed. It then holds the converted model; otherwise `nlModel` is nil. |
| `Classifier.PredictCategory` | Transactions-Search-Page/TransactionClassifier.swift:39-51 | Never nil despite the optional type. Gives `"unknown"` when Unloaded, `"n/a"` when the model gives no label, and otherwise the model's label. |
| `Classifier.PredictCategoryWithProbabilities` | Transactions-Search-Page/TransactionClassifier.swift:52-63 | Nil if and only if Unloaded. Otherwise gives the same label rule (`"n/a"` fallback) and exactly the model's hypotheses for `maximumCount` 13. |
| `Classifier.FailedLoadDegrades` | Transactions-Search-Page/TransactionClassifier.swift:25-56 | After a failed load at either step, every description gets `"unknown"` from `predictCategory` and nil from the probabilities variant. |
| `Classifier.LabelsAgree` | Transactions-Search-Page/TransactionClassifier.swift:45-58 | On a Loaded classifier both methods return the same label for the same description. |
| `Classifier.HypothesesBounded` | Transactions-Search-Page/TransactionClassifier.swift:59-62 | If the oracle honours `maximumCount`, the returned map has at most 13 keys. |
| `ClassifierView.InitialState` | Transactions-Search-Page/TransactionClassifierView.swift:18-22 | A fresh view shows `"No prediction yet"` with an empty probability list and empty inputs. |
| `ClassifierView.ProbabilityList` | Transactions-Search-Page/TransactionClassifierView.swift:65 | Turning the dictionary into a list, in any key order, gives one entry per key with that key's probability. No category appears twice and the length equals the number of keys. |
| `ClassifierView.PredictTransactionCategory` | Transactions-Search-Page/TransactionClassifierView.swift:62-70 | An Unloaded classifier shows `"Prediction failed"` (never `"unknown"`) and an empty list. Otherwise the shown category is the classifier's label and the list matches its hypotheses exactly. The chart appears exactly when the classifier is Loaded and returned a hypothesis. The inputs are unchanged. |
| `ClassifierView.Body` | Transactions-Search-Page/TransactionClassifierView.swift:49-57 | The chart is present exactly when the list is non-empty, and it shows that list. The caption ends with the predicted category. |
| `Strings.LessIsLexicographic` | testWidget/Configuration.swift:81 | The name order used for sorting is lexicographic order: a proper prefix comes first, or else the first differing character decides. |
| `Strings.Contains` | testWidget/test.swift:22 | True exactly when the second string occurs as a run of consecutive characters in the first. |
| `Configuration.NewAccountModel` | testWidget/Configuration.swift:13-18 | A new account record keeps the given name, number and balance, and its accessible account number is always the empty string. |
| `Configuration.DisplayName` | testWidget/Configuration.swift:20-22 | The account's name when it has one. Otherwise `"Account "` followed by exactly the account number. |
| `Configuration.UnnamedDisplayNamesDistinct` | testWidget/Configuration.swift:20-22 | Two accounts without a name get the same display name exactly when their account numbers are equal. |
| `Configuration.DisplayBalance` | testWidget/Configuration.swift:41-47 | Hidden gives `"$****.**"` whatever the balance; shown gives the stored balance text unchanged. |
| `Configuration.HiddenBalanceRevealsNothing` | testWidget/Configuration.swift:41-47 | Any two accounts show the same hidden text. Shown balances that differ show different texts. |
| `Configuration.AllAccountIdsDistinct` | testWidget/Configuration.swift:50-57 | No two mock accounts share an id, so no account appears twice. |
| `Configuration.FilterByIds` | testWidget/Configuration.swift:61-63 | The result keeps exactly the accounts whose id is requested, in their original order, each as often as in the input. An account is in the result if and only if it is in the input and its id is requested. |
| `Configuration.FilterByIdsKeepsDistinct` | testWidget/Configuration.swift:61-63 | Filtering a list without repeats never introduces a repeat. |
| `Configuration.FilterByIdsIgnoresRepeats` | testWidget/Configuration.swift:61-63 | Only the set of requested ids matters. Repeating or reordering them does not change the answer. |
| `Configuration.Entities` | testWidget/Configuration.swift:61-63 | Gives exactly the mock accounts with a requested id, in mock-data order, with no duplicates even when ids repeat. |
| `Configuration.FilterAvailableKeepsAll` | testWidget/Configuration.swift:31 | Every account is available, so the availability filter returns its input unchanged. |
| `Configuration.SuggestedEntities` | testWidget/Configuration.swift:65-67 | The suggested entities are all mock accounts, in order. |
| `Configuration.DefaultResult` | testWidget/Configuration.swift:69-71 | The default entity is always the first mock account. |
| `Configuration.InsertByName` | testWidget/Configuration.swift:81 | Insertion adds exactly one copy of the new account. |
| `Configuration.InsertByNameKeepsSorted` | testWidget/Configuration.swift:81 | Inserting into a name-sorted list keeps it sorted. |
| `Configuration.SortByName` | testWidget/Configuration.swift:81 | The sort returns a permutation of its input in which no name comes before an earlier one. |
| `Configuration.Results` | testWidget/Configuration.swift:76-82 | The options list is a permutation of the mock accounts, sorted ascending by name. |
| `Configuration.SortedPermutationUnique` | testWidget/Configuration.swift:81 | A strictly name-sorted list is the only sorted arrangement of its elements. With unique names the options' order does not depend on how the sort treats ties. |
| `Configuration.ResultsOrder` | testWidget/Configuration.swift:76-82 | The options come out as Account 9999, Emergency Fund, Investment Portfolio, My Checking Account, Savings Account, Vacation Savings. |
| `Configuration.ReadFlag` | testWidget/Configuration.swift:114 | The flag reads true exactly when the suite opened, holds the key, and stores true there. A missing suite or key reads as false. |
| `Configuration.ToggleBalanceVisibility` | testWidget/Configuration.swift:112-118 | With an open suite the stored flag becomes the negation of what was read, and the key is then present. No other key changes. With no suite nothing happens. |
| `Configuration.ToggleTwice` | testWidget/Configuration.swift:112-118 | Two toggles restore the flag's reading. When the key was already stored, they restore the whole suite. |
| `Configuration.DefaultIntent` | testWidget/Configuration.swift:102-104 | A new widget configuration has no accounts picked. |
| `Configuration.Placeholder` | testWidget/Configuration.swift:142-148 | The placeholder shows the first two mock accounts with balances visible. |
| `Configuration.Snapshot` | testWidget/Configuration.swift:150-163 | With nothing picked, the snapshot falls back to the first two mock accounts. Otherwise it shows the picked accounts unchanged. It is never empty and carries the stored hidden flag. |
| `Configuration.TimelineFor` | testWidget/Configuration.swift:165-180 | The timeline has exactly one entry, with the picked accounts and no fallback, carrying the stored hidden flag. |
| `Configuration.SnapshotMatchesTimelineIffConfigured` | testWidget/Configuration.swift:150-174 | The snapshot entry equals the timeline entry if and only if at least one account is picked. |
| `WidgetView.AccountType` | testWidget/test.swift:21-23 | `"Investment"` exactly when the account name contains "Investment" as a substring; `"Chequing"` otherwise. |
| `WidgetView.MockAccountTypes` | testWidget/test.swift:21-23 | Among the mock accounts only "Investment Portfolio" is typed as an investment. |
| `WidgetView.ModelDisplayBalance` | testWidget/test.swift:25-27 | The view model shows the same balance text as the account entity with the same hidden flag: the mask, or the stored balance. |
| `WidgetView.DisplayMonthlyChange` | testWidget/test.swift:29-36 | Hidden text is a sign character followed by `"$****"`. The sign is `+` exactly when the change is at least 0 and `-` exactly when it is negative. Shown text has a `"+"` prefix only for a change of at least 0. |
| `WidgetView.MaskedChangeRevealsOnlySign` | testWidget/test.swift:29-31 | Two hidden changes read the same if and only if they have the same sign, whatever their amounts. |
| `WidgetView.MonthlyChangeColor` | testWidget/test.swift:38-40 | Green exactly when the change is at least 0. |
| `WidgetView.MaskedSignMatchesColor` | testWidget/test.swift:29-40 | The masked sign is `+` exactly when the colour is green. |
| `WidgetView.RowsShowPositiveChange` | testWidget/test.swift:112-114 | Rows use the default change of 1200. So a hidden row always reads `"+$****"` and a shown row is green. |
| `WidgetView.LayoutFor` | testWidget/test.swift:173-186 | Small gives the small view. Large and extra large give the large view. Medium and any unknown family give the medium view. |
| `WidgetView.Rows` | testWidget/test.swift:224-233 | For `count` accounts the list has `2·count − 1` items. Item `2i` is the row of account `i`, and each row after the first is preceded by a divider. |
| `WidgetView.WidgetBody` | testWidget/test.swift:173-267 | The content is the empty-accounts view in every family exactly when there are no accounts. Small shows only the first account with its display balance. Every other family shows a row list. The header carries the hidden flag. |
| `WidgetView.RowsShowPrefix` | testWidget/test.swift:224-233 | A list built for `count` indices shows exactly the first `count` accounts, in order. |
| `WidgetView.AccountsShownByFamily` | testWidget/test.swift:173-267 | Each family shows exactly the first `min(cap, n)` accounts, with cap 1 for small, 2 for medium and unknown, and 5 for large and extra large. |
| `WidgetView.DividersBetweenRows` | testWidget/test.swift:253-262 | With `k` rows there are exactly `k − 1` dividers, one at each odd position, between neighbouring rows. |
| `WidgetView.MediumRowsPrefixOfLarge` | testWidget/test.swift:224-262 | For the same entry, the medium list is a prefix of the large list. |
| `WidgetView.FreshWidgetShowsNoAccounts` | testWidget/Configuration.swift:150-174 | A widget with no accounts picked shows "No accounts selected" from its timeline in every family, while its gallery snapshot shows accounts. |

## Left out

- The CoreML model class, `NLModel(mlModel:)`, `predictedLabel` and `predictedLabelHypotheses` are foreign code. They appear only as the oracle functions in `NLModel` and the `compiled`/`convert` inputs of the load.
- The `print` logging, and the `maximumCount: 2` hypotheses that `predictCategory` requests only to log them, are left out.
- `Classifier.HypothesesBounded` assumes that the oracle honours `maximumCount`, because that promise belongs to the NaturalLanguage framework, not to this code.
- No ranking, deduplication, clamping or top-k layer is modelled, because the code has none.
- The view's `date` state, text fields, fonts, colours' shades, padding, the pie chart's drawing, `#available` checks, previews and the header buttons' drawing are SwiftUI presentation.
- `CategoryProbability.id` and `AccountModel.id` are `UUID`s, a source of randomness, and are left out.
- `UserDefaults` persistence, `synchronize` and app-group sharing are left out: the suite is an in-memory map. `BankWidgetConstants` is not part of this model. The key name `"balancesHidden"` is the one testWidget/testWidget.swift spells out.
- `RefreshWidgetIntent` only calls `WidgetCenter.reloadTimelines`, which is cross-process I/O.
- The timeline's hourly `.after` refresh policy and every `Date` are platform date arithmetic.
- `String(format: "%.0f")` is the parameter `formatWhole`. Balances are stored text, so no number formatting is modelled.
- `displayRepresentation`'s title and `getConfigurationDescription` are fixed UI strings.
- `async`/`throws` plumbing and `AppEntity`/`AppIntent` registration are left out. None of the modelled queries can throw.
- testWidget/testWidget.swift is an older duplicate of the widget. Transactions-Search-Page/ContentView.swift is only the app entry point.
- Swift's `String <` compares by Unicode canonical equivalence. Here it is plain lexicographic order on characters, which agrees on the ASCII mock names.
- `Strings.Contains` is plain substring search on characters (Unicode scalars). Swift's `String.contains` matches whole grapheme clusters under canonical equivalence, so a name ending in "Investment" followed by a combining accent contains "Investment" here but not in Swift. The mock names are ASCII, where the two agree.
- Swift does not document `sorted(by:)` as stable. The model's insertion sort is stable, and `SortedPermutationUnique` shows the choice cannot matter for the mock data.
- `Double` is modelled as `real`, so NaN and infinities are not modelled.
