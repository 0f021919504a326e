/**
 The client and the server together: the what-if body the client sends
 against the columns the server selects, and what the client shows for
 the server's answer.
 */
module EndToEnd {
  import opened Json
  import opened JsNumber
  import opened Locator
  import opened Scenario
  import opened Features
  import opened Attribution
  import opened Server
  import opened Render

  /** The client writes exactly the model's features, and each once. */
  lemma {:induction false} RequestKeysAreFeatures()
    ensures |RequestFields| == |AllFeatures|
    ensures forall k :: (exists i :: 0 <= i < |RequestFields| && RequestFields[i].0 == k) <==> k in AllFeatures
  {
    forall k | k in AllFeatures ensures exists i :: 0 <= i < |RequestFields| && RequestFields[i].0 == k {
      var j :| 0 <= j < |AllFeatures| && AllFeatures[j] == k;
      var i := FeatureIndex(j);
      assert RequestFields[i].0 == k;
    }
    forall k | exists i :: 0 <= i < |RequestFields| && RequestFields[i].0 == k ensures k in AllFeatures {
      var i :| 0 <= i < |RequestFields| && RequestFields[i].0 == k;
      assert AllFeatures[RequestIndex(i)] == k;
    }
  }

  /** Where a feature sits in the client's request. */
  function FeatureIndex(j: nat): (i: nat)
    requires j < |AllFeatures|
    ensures i < |RequestFields| && RequestFields[i].0 == AllFeatures[j]
  {
    [0, 1, 2, 10, 4, 5, 3, 6, 7, 8, 9, 11, 12, 13, 14, 15, 16][j]
  }

  /** Where a request property sits in the server's schema. */
  function RequestIndex(i: nat): (j: nat)
    requires i < |RequestFields|
    ensures j < |AllFeatures| && AllFeatures[j] == RequestFields[i].0
  {
    [0, 1, 2, 6, 4, 5, 7, 8, 9, 10, 3, 11, 12, 13, 14, 15, 16][i]
  }

  /** The house fields a request needs: the copied property of that name,
      or the fallback of an editable one. */
  predicate HasSourceFields(h: House) {
    forall i :: 0 <= i < |RequestFields| ==>
      match RequestFields[i].1
      case Copied(k) => k in h.fields
      case Edited(e) => HouseKey(e) in h.fields
  }

  /** A house carrying every source field gives a body the server
      accepts, whatever was typed. */
  lemma CompleteHouseAccepted(h: House, inputs: Inputs)
    requires HasSourceFields(h)
    ensures SelectColumns(Serialize(BuildRequest(h, inputs))).Row?
  {
    var d := BuildRequest(h, inputs);
    var body := Serialize(d);
    forall f | f in AllFeatures ensures f in body {
      var j :| 0 <= j < |AllFeatures| && AllFeatures[j] == f;
      var i := FeatureIndex(j);
      SourcePresent(h, inputs, i);
      assert d[f] == Resolve(h, inputs, RequestFields[i].1);
    }
  }

  lemma SourcePresent(h: House, inputs: Inputs, i: nat)
    requires HasSourceFields(h) && i < |RequestFields|
    ensures Resolve(h, inputs, RequestFields[i].1).Some?
  {
    match RequestFields[i].1
    case Copied(k) =>
    case Edited(e) =>
  }

  /** A house lacking a copied field gives a body the server refuses
      with that field named, whatever was typed. */
  lemma MissingCopiedFieldRefused(h: House, inputs: Inputs, k: string, engine: Engine, round: Rounding)
    requires (k, Copied(k)) in RequestFields && k !in h.fields
    ensures var r := Predict(Serialize(BuildRequest(h, inputs)), engine, round);
            r.BadRequest? && r.failure.KeyError? && k in r.failure.missing
  {
    CopiedFieldsIgnoreInputs(h, inputs, k);
    RequestKeysAreFeatures();
  }

  /** An editable field whose house value is absent is refused unless its
      input is a non-zero integer, which fills the gap. */
  lemma EditedFieldFillsGap(h: House, inputs: Inputs, e: Editable, engine: Engine, round: Rounding)
    requires HouseKey(e) !in h.fields
    ensures var body := Serialize(BuildRequest(h, inputs));
            RequestKey(e) in body <==> Truthy(ParseInt(InputOf(inputs, e)))
    ensures !Truthy(ParseInt(InputOf(inputs, e))) ==>
              var r := Predict(Serialize(BuildRequest(h, inputs)), engine, round);
              r.BadRequest? && r.failure.KeyError? && RequestKey(e) in r.failure.missing
  {
    EditedField(h, inputs, e);
    RequestKeysAreFeatures();
  }

  /** For a house with every source field and an engine that succeeds,
      the page shows the prediction rounded to a whole number and, unless
      the summary is empty, at most ten lines, one per feature in
      non-increasing magnitude, each reading back as its attribution. */
  lemma ShownPrediction(h: House, inputs: Inputs, engine: Engine, round: Rounding)
    requires HasSourceFields(h)
    requires var sel := SelectColumns(Serialize(BuildRequest(h, inputs)));
             sel.Row? && engine(sel.values).Some?
    ensures var r := Predict(Serialize(BuildRequest(h, inputs)), engine, round);
            var o := ShowReply(Received(Encode(r)));
            && r.Prediction? && o.Shown?
            && o.display.whatIf == Rounded(RoundHundredths(r.whatIfValue))
            && |r.summary| <= TopCount && DistinctFeatures(r.summary) && SortedByMagnitude(r.summary)
            && (o.display.panel.Rows? ==>
                  && |o.display.panel.rows| == |r.summary|
                  && forall i :: 0 <= i < |r.summary| ==>
                       ReadAmount(o.display.panel.rows[i].amount) == Some(r.summary[i].value))
  {
    var body := Serialize(BuildRequest(h, inputs));
    CompleteHouseAccepted(h, inputs);
    PredictionSummaryShape(body, engine, round);
  }

  /** A refused body leaves the figure at `NaN` and the panel at its
      placeholder instead of alerting. */
  lemma RefusedRequestShowsNaN(h: House, inputs: Inputs, k: string, engine: Engine, round: Rounding)
    requires (k, Copied(k)) in RequestFields && k !in h.fields
    ensures var r := Predict(Serialize(BuildRequest(h, inputs)), engine, round);
            ShowReply(Received(Encode(r))) == Shown(Display(NotANumber, Placeholder(NoValues)))
  {
    MissingCopiedFieldRefused(h, inputs, k, engine, round);
  }
}
