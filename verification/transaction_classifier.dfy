/** The classifier façade of Transactions-Search-Page/TransactionClassifier.swift.

    The CoreML artifact and its NaturalLanguage wrapper are foreign code. They
    appear here as an oracle: an `NLModel` value carries the two queries the
    façade makes of it, as total (hence deterministic) functions. The façade
    itself is a two-state machine, Unloaded (`nlModel == None`) and Loaded,
    whose state is fixed by `Init` and never changed afterwards: every
    prediction is a function of the classifier value and returns only its
    answer. */
module Classifier {
  import opened Wrappers

  /** The loaded text classifier, seen only through its two queries:
      `predictedLabel(for:)` and `predictedLabelHypotheses(for:maximumCount:)`. */
  datatype NLModel = NLModel(
    predictedLabel: string -> Option<string>,
    predictedLabelHypotheses: (string, nat) -> map<string, real>)

  /** The oracle keeps its documented promise: at most `maximumCount`
      hypotheses for any text. */
  ghost predicate RespectsMaximumCount(m: NLModel)
  {
    forall text, maximumCount :: |m.predictedLabelHypotheses(text, maximumCount)| <= maximumCount
  }

  datatype TransactionClassifier = TransactionClassifier(nlModel: Option<NLModel>)
  {
    predicate Loaded() { nlModel.Some? }
  }

  /** Label returned by `predictCategory` when no model is loaded. */
  const UnknownLabel := "unknown"
  /** Label substituted when the loaded model yields no label. */
  const NoLabel := "n/a"
  /** `maximumCount` passed by `predictCategoryWithProbabilities`. */
  const MaximumHypotheses: nat := 13

  /** `loadCategoryModel`. `compiled` is the outcome of constructing the CoreML
      model (`try?` turns a throw into `None`); `convert` is the throwing
      conversion to an `NLModel`, `None` standing for a throw. Either failure
      returns early and leaves the classifier as it was. */
  function LoadCategoryModel<M>(
    c: TransactionClassifier, compiled: Option<M>, convert: M -> Option<NLModel>
  ): (c': TransactionClassifier)
    ensures compiled.None? ==> c' == c
    ensures compiled.Some? && convert(compiled.value).None? ==> c' == c
    ensures compiled.Some? && convert(compiled.value).Some? ==>
              c'.nlModel == convert(compiled.value)
  {
    match compiled
    case None => c
    case Some(model) =>
      match convert(model)
      case None => c
      case Some(nl) => TransactionClassifier(Some(nl))
  }

  /** `init()`: the stored model starts out `nil` and one load is attempted. */
  function Init<M>(compiled: Option<M>, convert: M -> Option<NLModel>): (c: TransactionClassifier)
    ensures c.Loaded() <==> compiled.Some? && convert(compiled.value).Some?
    ensures c.Loaded() ==> c.nlModel == convert(compiled.value)
  {
    LoadCategoryModel(TransactionClassifier(None), compiled, convert)
  }

  /** The label both prediction methods compute from a loaded model:
      `predictedLabel(for:) ?? "n/a"`. */
  function LabelOf(m: NLModel, description: string): string
  {
    m.predictedLabel(description).GetOr(NoLabel)
  }

  /** `predictCategory(for:)`. Declared as returning `String?`, but every path
      returns a string. The two hypotheses it also requests are only logged,
      so they do not appear here. */
  function PredictCategory(c: TransactionClassifier, description: string): (r: Option<string>)
    ensures r.Some?
    ensures !c.Loaded() ==> r.value == UnknownLabel
    ensures c.Loaded() && c.nlModel.value.predictedLabel(description).None? ==> r.value == NoLabel
    ensures c.Loaded() && c.nlModel.value.predictedLabel(description).Some? ==>
              r.value == c.nlModel.value.predictedLabel(description).value
  {
    match c.nlModel
    case None => Some(UnknownLabel)
    case Some(m) =>
      Some(LabelOf(m, description))
  }

  /** `predictCategoryWithProbabilities(for:)`: `nil` exactly when no model
      is loaded; otherwise the label and the hypotheses asked for with
      `maximumCount: 13`, passed through untouched. */
  function PredictCategoryWithProbabilities(c: TransactionClassifier, description: string)
    : (r: Option<(string, map<string, real>)>)
    ensures r.None? <==> !c.Loaded()
    ensures r.Some? ==> r.value.1 == c.nlModel.value.predictedLabelHypotheses(description, MaximumHypotheses)
    ensures r.Some? && c.nlModel.value.predictedLabel(description).None? ==> r.value.0 == NoLabel
    ensures r.Some? && c.nlModel.value.predictedLabel(description).Some? ==>
              r.value.0 == c.nlModel.value.predictedLabel(description).value
  {
    match c.nlModel
    case None => None
    case Some(m) =>
      Some((LabelOf(m, description), m.predictedLabelHypotheses(description, MaximumHypotheses)))
  }

  /** A classifier whose load failed at either step never serves a
      prediction: the primary label is the sentinel and the probabilities
      variant reports failure. */
  lemma FailedLoadDegrades<M>(compiled: Option<M>, convert: M -> Option<NLModel>, description: string)
    requires compiled.None? || convert(compiled.value).None?
    ensures PredictCategory(Init(compiled, convert), description) == Some(UnknownLabel)
    ensures PredictCategoryWithProbabilities(Init(compiled, convert), description).None?
  {
  }

  /** On a loaded classifier both methods agree on the label. */
  lemma LabelsAgree(c: TransactionClassifier, description: string)
    requires c.Loaded()
    ensures PredictCategoryWithProbabilities(c, description).Some?
    ensures PredictCategoryWithProbabilities(c, description).value.0
         == PredictCategory(c, description).value
  {
  }

  /** With an oracle that honours `maximumCount`, at most 13 hypotheses come
      back. */
  lemma HypothesesBounded(c: TransactionClassifier, description: string)
    requires c.Loaded() && RespectsMaximumCount(c.nlModel.value)
    ensures PredictCategoryWithProbabilities(c, description).Some?
    ensures |PredictCategoryWithProbabilities(c, description).value.1| <= 13
  {
  }
}
