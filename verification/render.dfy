/**
 What the client shows once the what-if request returns: the rounded
 prediction and one line per attribution, or the placeholder, or an
 alert when the request or its JSON decoding fails.

 Numbers arrive as integer hundredths, which is what the server's
 rounding to two places produces.
 */
module Render {
  import opened Json
  import opened JsText
  import opened JsNumber
  import opened Attribution
  import opened Server

  /** The CSS class of an attribution line. */
  datatype Tone = Positive | Negative

  /** One attribution line: its text is `caption: amount`. */
  datatype Row = Row(caption: string, amount: string, tone: Tone)

  function Text(r: Row): string {
    r.caption + ": " + r.amount
  }

  /** `${sign}${v.toFixed(2)}` with the sign `+` only for a positive
      amount; a negative amount carries the `-` of `toFixed`. */
  function SignedAmount(v: int): (t: string)
    ensures |t| > 0
    ensures t[0] == '+' <==> v > 0
    ensures t[0] == '-' <==> v < 0
  {
    if v > 0 then "+" + Fixed2(v)
    else if v < 0 then Fixed2(v)
    else
      FixedOfZero();
      Fixed2(v)
  }

  predicate AllDigits(s: string) {
    forall k :: 0 <= k < |s| ==> IsDigit(s[k], 10)
  }

  /** Reads an unsigned two-place amount into hundredths: at least one
      digit, a point and exactly two digits. */
  function ReadUnsigned(u: string): (r: Option<nat>)
    ensures r.Some? ==> |u| >= 4 && u[|u| - 3] == '.'
  {
    if |u| < 4 || u[|u| - 3] != '.' || !IsDigit(u[|u| - 2], 10) || !IsDigit(u[|u| - 1], 10) then None
    else
      var whole := u[..|u| - 3];
      if !AllDigits(whole) then None
      else Some(DigitsValue(whole, 10) * 100 + DigitValue(u[|u| - 2], 10) * 10 + DigitValue(u[|u| - 1], 10))
  }

  /** Reads a signed two-place amount back into hundredths: an optional
      sign, then an unsigned amount. */
  function ReadAmount(t: string): (r: Option<int>)
    ensures r.Some? ==> |t| >= 4
  {
    match ReadUnsigned(Unsigned(t))
    case None => None
    case Some(m) =>
      var n: int := m;
      Some(if |t| > 0 && t[0] == '-' then -n else n)
  }

  lemma {:induction false} ReadFixedAmount(m: nat)
    ensures ReadUnsigned(FixedDigits(m)) == Some(m)
  {
    var d := Decimal(m / 100);
    var u := FixedDigits(m);
    assert u[..|u| - 3] == d;
    assert DigitValue(u[|u| - 2], 10) == m % 100 / 10;
    assert DigitValue(u[|u| - 1], 10) == m % 10;
  }

  lemma SignedAmountParts(v: int)
    ensures var t := SignedAmount(v);
            && Unsigned(t) == FixedDigits(if v < 0 then -v else v)
            && (|t| > 0 && t[0] == '-' <==> v < 0)
  {
    FixedIsSignedDigits(v);
    if v == 0 {
      FixedOfZero();
    }
  }

  /** The amount text determines the amount: reading it back gives the
      hundredths that were written. */
  lemma {:induction false} ReadSignedAmount(v: int)
    ensures ReadAmount(SignedAmount(v)) == Some(v)
  {
    SignedAmountParts(v);
    ReadFixedAmount(if v < 0 then -v else v);
  }

  /** One attribution as a line: the label the client derives from the
      feature name, the signed amount, and the tone by sign. */
  function RenderRow(e: ShapEntry): (r: Row)
    ensures r.tone == Negative <==> e.value < 0
    ensures |r.amount| > 0 && (r.amount[0] == '+' <==> e.value > 0)
    ensures ReadAmount(r.amount) == Some(e.value)
    ensures r.caption == StripLabel(e.feature)
  {
    var caption := StripLabel(e.feature);
    var amount := SignedAmount(e.value);
    ReadSignedAmount(e.value);
    Row(caption, amount, if e.value >= 0 then Positive else Negative)
  }

  /** What the attribution panel holds. */
  datatype Panel = Rows(rows: seq<Row>) | Placeholder(text: string)

  const NoValues: string := "No SHAP values available."

  /** The attribution panel: the placeholder when the summary is absent
      or empty, and otherwise one line per entry in the order received,
      labelled with the entry's stripped feature name, reading back as
      its amount and classed by its sign. */
  function RenderSummary(s: Option<seq<ShapEntry>>): (p: Panel)
    ensures p.Placeholder? <==> s.None? || |s.value| == 0
    ensures p.Placeholder? ==> p.text == NoValues
    ensures p.Rows? ==>
              && |p.rows| == |s.value|
              && forall i :: 0 <= i < |s.value| ==>
                   && p.rows[i].caption == StripLabel(s.value[i].feature)
                   && ReadAmount(p.rows[i].amount) == Some(s.value[i].value)
                   && (p.rows[i].tone == Positive <==> s.value[i].value >= 0)
    ensures p.Rows? ==> forall i :: 0 <= i < |s.value| ==> p.rows[i] == RenderRow(s.value[i])
  {
    if s.Some? && |s.value| > 0 then Rows(seq(|s.value|, i requires 0 <= i < |s.value| => RenderRow(s.value[i])))
    else Placeholder(NoValues)
  }

  /** The what-if figure: `Math.round` of the value, or `NaN` when the
      answer has no `what_if_value`. */
  datatype Figure = Rounded(n: int) | NotANumber

  function ShowWhatIf(v: Option<int>): (f: Figure)
    ensures f.NotANumber? <==> v.None?
    ensures f.Rounded? ==> 100 * f.n - 50 <= v.value < 100 * f.n + 50
  {
    match v
    case Some(h) => Rounded(RoundHundredths(h))
    case None => NotANumber
  }

  datatype Display = Display(whatIf: Figure, panel: Panel)

  /** How the request ended as the client sees it: a decoded JSON body,
      whatever its status, or a failure to fetch or to decode. */
  datatype Reply = Received(body: Body) | Failed

  /** What the user sees: the updated figure and panel, or an alert. */
  datatype Outcome = Shown(display: Display) | Alerted(message: string)

  const PredictionFailed: string := "Prediction failed."

  /** The client's handling of a reply. The status is never inspected:
      a refused request updates the figure and the panel like any other
      decoded body. */
  function ShowReply(reply: Reply): (o: Outcome)
    ensures o.Alerted? <==> reply.Failed?
    ensures o.Alerted? ==> o.message == PredictionFailed
    ensures reply.Received? ==>
              o.display == Display(ShowWhatIf(reply.body.whatIfValue), RenderSummary(reply.body.shapSummary))
  {
    match reply
    case Received(b) => Shown(Display(ShowWhatIf(b.whatIfValue), RenderSummary(b.shapSummary)))
    case Failed => Alerted(PredictionFailed)
  }

  /** A refused request (status 400) shows `NaN` and the placeholder
      rather than the failure alert. */
  lemma RefusalShowsNaN(f: Failure)
    ensures ShowReply(Received(Encode(BadRequest(f)))) == Shown(Display(NotANumber, Placeholder(NoValues)))
  {
  }

  lemma PositiveExample()
    ensures SignedAmount(123450) == "+1234.50"
  {
    DigitsExample();
    FixedIsSignedDigits(123450);
    assert Fixed2(123450) == "1234.50";
    assert SignedAmount(123450) == "+" + Fixed2(123450);
    PositiveText();
  }

  // Literal facts the examples above need spelled out.

  lemma RowTexts()
    ensures Text(Row("sqft", "+1234.50", Positive)) == "sqft: +1234.50"
    ensures Text(Row("zip", "-98.70", Negative)) == "zip: -98.70"
  {
  }

  lemma PositiveText()
    ensures "+" + "1234.50" == "+1234.50"
  {
  }

  lemma DigitsExample()
    ensures FixedDigits(123450) == "1234.50"
  {
    Decimal1234();
    assert 123450 / 100 == 1234 && 123450 % 100 / 10 == 5 && 123450 % 10 == 0;
    assert DigitChar(5) == '5' && DigitChar(0) == '0';
  }

  lemma Decimal12()
    ensures Decimal(12) == "12"
  {
    assert Decimal(1) == "1";
  }

  lemma Decimal1234()
    ensures Decimal(1234) == "1234"
  {
    Decimal12();
    assert Decimal(123) == "123";
  }

  lemma NegativeExample()
    ensures SignedAmount(-9870) == "-98.70"
  {
    NegativeDigitsExample();
    FixedIsSignedDigits(-9870);
    assert Fixed2(-9870) == "-" + "98.70";
  }

  lemma NegativeDigitsExample()
    ensures FixedDigits(9870) == "98.70"
  {
    assert Decimal(98) == "98" by { assert Decimal(9) == "9"; }
    assert 9870 / 100 == 98 && 9870 % 100 / 10 == 7 && 9870 % 10 == 0;
    assert DigitChar(7) == '7' && DigitChar(0) == '0';
  }

  /** Two attributions as the preprocessor names them: `num__sqft` at
      1234.50 renders as the positive line `sqft: +1234.50` and
      `cat__zip` at -98.70 as the negative line `zip: -98.70`. */
  lemma RowExamples()
    ensures RenderRow(ShapEntry("num__sqft", 123450)) == Row("sqft", "+1234.50", Positive)
    ensures RenderRow(ShapEntry("cat__zip", -9870)) == Row("zip", "-98.70", Negative)
    ensures Text(RenderRow(ShapEntry("num__sqft", 123450))) == "sqft: +1234.50"
    ensures Text(RenderRow(ShapEntry("cat__zip", -9870))) == "zip: -98.70"
  {
    SqftRow();
    ZipRow();
    RowTexts();
  }

  lemma SqftRow()
    ensures RenderRow(ShapEntry("num__sqft", 123450)) == Row("sqft", "+1234.50", Positive)
  {
    StripLabelExamples();
    PositiveExample();
    RowOf(ShapEntry("num__sqft", 123450), "sqft", "+1234.50");
  }

  lemma ZipRow()
    ensures RenderRow(ShapEntry("cat__zip", -9870)) == Row("zip", "-98.70", Negative)
  {
    StripLabelExamples();
    NegativeExample();
    RowOf(ShapEntry("cat__zip", -9870), "zip", "-98.70");
  }

  /** The line of an entry whose label and amount are known. */
  lemma RowOf(e: ShapEntry, caption: string, amount: string)
    requires StripLabel(e.feature) == caption && SignedAmount(e.value) == amount
    ensures RenderRow(e) == Row(caption, amount, if e.value >= 0 then Positive else Negative)
  {
  }

  /** Two features whose names share what follows their last `__` render
      as the same line. */
  lemma SharedLabelExample()
    ensures RenderRow(ShapEntry("a__sqft", 100)) == RenderRow(ShapEntry("b__sqft", 100))
  {
    StripLabelSharedTail();
  }

  /** A reply with the value 0 and an empty summary shows 0 and the placeholder. */
  lemma EmptySummaryExample()
    ensures ShowReply(Received(Body(Some(0), Some([])))) == Shown(Display(Rounded(0), Placeholder(NoValues)))
  {
  }

  /** The what-if value 512345.60 is shown as 512346. */
  lemma WhatIfExample()
    ensures ShowWhatIf(Some(51234560)) == Rounded(512346)
  {
  }
}
