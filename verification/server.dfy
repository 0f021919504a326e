/**
 The `/predict` endpoint: select the model's columns from the request
 body, run the model and the explainer, and answer with the rounded
 prediction and the attribution summary, or with status 400 when any step
 raises.

 The preprocessor, the model and the explainer are one parameter, the
 engine: given the selected row it either yields the raw prediction and
 the explainer's named attributions, or fails (raises).
 */
module Server {
  import opened Json
  import opened Features
  import opened Attribution

  /** What the engine computes for one row: the prediction and the
      explainer's output column names with their attribution values. */
  datatype EngineOutput = EngineOutput(prediction: real, names: seq<string>, values: seq<real>)

  /** The preprocessor, model and explainer; `None` when one of them raises. */
  type Engine = seq<Value> -> Option<EngineOutput>

  /** Why a request was refused. */
  datatype Failure =
    | KeyError(missing: seq<string>)  // the body lacks some model features
    | EngineError                     // the preprocessor, model or explainer raised

  /** The endpoint's answer before it is written as JSON. */
  datatype Response = Prediction(whatIfValue: int, summary: seq<ShapEntry>) | BadRequest(failure: Failure)

  /** The HTTP status of a response. */
  function Status(r: Response): (code: nat)
    ensures code == 200 || code == 400
    ensures code == 200 <==> r.Prediction?
  {
    if r.Prediction? then 200 else 400
  }

  /** `predict()`: a body lacking a model feature is refused with the
      missing features named; otherwise the engine decides. A success
      carries the prediction rounded to hundredths and the attribution
      summary of the same row. */
  function Predict(data: Object, engine: Engine, round: Rounding): (r: Response)
    ensures (r.BadRequest? && r.failure.KeyError?) <==> exists f :: f in AllFeatures && f !in data
    ensures r.BadRequest? && r.failure.KeyError? ==>
              forall f :: f in r.failure.missing <==> f in AllFeatures && f !in data
    ensures (r.BadRequest? && r.failure.EngineError?) <==>
              SelectColumns(data).Row? && engine(SelectColumns(data).values).None?
    ensures r.Prediction? ==>
              var out := engine(SelectColumns(data).values).value;
              && r.whatIfValue == round(out.prediction)
              && r.summary == ShapSummary(out.names, out.values, round)
  {
    match SelectColumns(data)
    case MissingColumns(missing) => BadRequest(KeyError(missing))
    case Row(values) =>
      match engine(values)
      case None => BadRequest(EngineError)
      case Some(out) => Prediction(round(out.prediction), ShapSummary(out.names, out.values, round))
  }

  /** The endpoint answers 400 exactly when the body lacks a model
      feature or the engine raises, and 200 otherwise. */
  lemma StatusOfPredict(data: Object, engine: Engine, round: Rounding)
    ensures var code := Status(Predict(data, engine, round));
            && (code == 200 || code == 400)
            && (code == 400 <==>
                  || (exists f :: f in AllFeatures && f !in data)
                  || (SelectColumns(data).Row? && engine(SelectColumns(data).values).None?))
  {
  }

  /** A successful answer holds at most ten attributions, one per feature
      name, in non-increasing magnitude. */
  lemma PredictionSummaryShape(data: Object, engine: Engine, round: Rounding)
    requires Predict(data, engine, round).Prediction?
    ensures var s := Predict(data, engine, round).summary;
            |s| <= TopCount && DistinctFeatures(s) && SortedByMagnitude(s)
  {
  }

  /** Two bodies that agree on the model features select the same
      columns, whatever else they carry. */
  lemma {:induction false} MissingAgrees(a: Object, b: Object, cols: seq<string>)
    requires forall f :: f in cols ==> (f in a <==> f in b) && (f in a ==> a[f] == b[f])
    ensures Missing(a, cols) == Missing(b, cols)
    decreases |cols|
  {
    if |cols| > 0 {
      MissingAgrees(a, b, cols[1..]);
    }
  }

  /** Properties of the body that are not model features never change
      the answer. */
  lemma ExtraPropertiesIgnored(a: Object, b: Object, engine: Engine, round: Rounding)
    requires forall f :: f in AllFeatures ==> (f in a <==> f in b) && (f in a ==> a[f] == b[f])
    ensures Predict(a, engine, round) == Predict(b, engine, round)
  {
    MissingAgrees(a, b, AllFeatures);
    var sa := SelectColumns(a);
    var sb := SelectColumns(b);
    if sa.Row? {
      assert sa.values == sb.values;
    }
  }

  /** The JSON body of a response as the client reads it: a success
      carries `what_if_value` and `shap_summary`; a refusal carries only
      `error`, so both read as absent. */
  datatype Body = Body(whatIfValue: Option<int>, shapSummary: Option<seq<ShapEntry>>)

  function Encode(r: Response): (b: Body)
    ensures b.whatIfValue.Some? <==> r.Prediction?
    ensures b.shapSummary.Some? <==> r.Prediction?
    ensures r.Prediction? ==> b.whatIfValue.value == r.whatIfValue && b.shapSummary.value == r.summary
  {
    match r
    case Prediction(v, s) => Body(Some(v), Some(s))
    case BadRequest(_) => Body(None, None)
  }
}
