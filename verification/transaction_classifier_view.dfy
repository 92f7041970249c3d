/** The presenter of Transactions-Search-Page/TransactionClassifierView.swift:
    its initial state, the `predictTransactionCategory` transition, and the
    one decision its body makes (whether to draw the chart). Layout, fonts and
    the pie chart's drawing are not modelled. */
module ClassifierView {
  import opened Wrappers
  import opened Classifier

  /** One slice of the chart. The `UUID` identity is not modelled. */
  datatype CategoryProbability = CategoryProbability(category: string, probability: real)

  /** The view's `@State`. The `date` field is left out. */
  datatype ViewState = ViewState(
    description: string,
    amount: string,
    predictedCategory: string,
    categoryProbabilities: seq<CategoryProbability>)

  const NoPredictionYet := "No prediction yet"
  const PredictionFailed := "Prediction failed"

  /** The state a fresh view starts in. */
  function InitialState(): (v: ViewState)
    ensures v.description == "" && v.amount == ""
    ensures v.predictedCategory == NoPredictionYet
    ensures |v.categoryProbabilities| == 0
  {
    ViewState("", "", NoPredictionYet, [])
  }

  /** `list` holds exactly one entry per key of `m`, each carrying that key's
      probability; hence no category appears twice. */
  ghost predicate ListsExactly(list: seq<CategoryProbability>, m: map<string, real>)
  {
    && |list| == |m|
    && (forall i :: 0 <= i < |list| ==> list[i].category in m && list[i].probability == m[list[i].category])
    && (forall k :: k in m ==> exists i :: 0 <= i < |list| && list[i].category == k)
    && (forall i, j :: 0 <= i < j < |list| ==> list[i].category != list[j].category)
  }

  /** `probabilities.map { CategoryProbability(category: $0.key, probability: $0.value) }`.
      A Swift dictionary yields its entries in an unspecified order, so each
      step picks any key not yet listed. */
  method ProbabilityList(m: map<string, real>) returns (list: seq<CategoryProbability>)
    ensures ListsExactly(list, m)
  {
    list := [];
    var rest := m.Keys;
    while rest != {}
      invariant rest <= m.Keys
      invariant |list| + |rest| == |m|
      invariant forall i :: 0 <= i < |list| ==>
                  list[i].category in m.Keys - rest && list[i].probability == m[list[i].category]
      invariant forall k :: k in m.Keys - rest ==> exists i :: 0 <= i < |list| && list[i].category == k
      invariant forall i, j :: 0 <= i < j < |list| ==> list[i].category != list[j].category
      decreases rest
    {
      var k :| k in rest;
      ghost var listed := list;
      list := list + [CategoryProbability(k, m[k])];
      forall k' | k' in m.Keys - (rest - {k})
        ensures exists i :: 0 <= i < |list| && list[i].category == k'
      {
        if k' == k {
          assert list[|listed|].category == k';
        } else {
          assert k' in m.Keys - rest;
          var i :| 0 <= i < |listed| && listed[i].category == k';
          assert list[i].category == k';
        }
      }
      rest := rest - {k};
    }
    assert m.Keys - rest == m.Keys;
  }

  /** `predictTransactionCategory()`: a `nil` answer shows "Prediction failed"
      and clears the list; otherwise the label is shown and the hypotheses
      become the list. The description and amount fields are untouched. */
  method PredictTransactionCategory(v: ViewState, c: TransactionClassifier) returns (v': ViewState)
    ensures v'.description == v.description && v'.amount == v.amount
    ensures !c.Loaded() ==> v'.predictedCategory == PredictionFailed && v'.categoryProbabilities == []
    ensures c.Loaded() ==>
              && v'.predictedCategory == LabelOf(c.nlModel.value, v.description)
              && ListsExactly(v'.categoryProbabilities,
                              c.nlModel.value.predictedLabelHypotheses(v.description, MaximumHypotheses))
    ensures Body(v').chart.Some? <==>
              c.Loaded() && |c.nlModel.value.predictedLabelHypotheses(v.description, MaximumHypotheses)| > 0
  {
    match PredictCategoryWithProbabilities(c, v.description)
    case Some((category, probabilities)) =>
      var list := ProbabilityList(probabilities);
      v' := v.(predictedCategory := category, categoryProbabilities := list);
    case None =>
      v' := v.(predictedCategory := PredictionFailed, categoryProbabilities := []);
  }

  /** What the body puts on screen, apart from fixed captions and inputs. */
  datatype Screen = Screen(categoryCaption: string, chart: Option<seq<CategoryProbability>>)

  /** `body`: the caption interpolates the predicted category, and the chart is
      drawn only when the list is not empty. */
  function Body(v: ViewState): (s: Screen)
    ensures s.chart.Some? <==> |v.categoryProbabilities| > 0
    ensures s.chart.Some? ==> s.chart.value == v.categoryProbabilities
    ensures |s.categoryCaption| >= |"Predicted Category: "|
    ensures s.categoryCaption[|"Predicted Category: "|..] == v.predictedCategory
  {
    Screen("Predicted Category: " + v.predictedCategory,
           if |v.categoryProbabilities| == 0 then None else Some(v.categoryProbabilities))
  }
}
