/**
 The what-if request the client builds from the selected house and the
 five editable inputs.
 */
module Scenario {
  import opened Json
  import opened JsNumber
  import opened Locator

  /** The five fields the user may edit. */
  datatype Editable = YearBuilt | SquareFootage | Bedrooms | Bathrooms | Units

  /** The raw text of the five what-if input boxes. */
  datatype Inputs = Inputs(yearBuilt: string, squareFootage: string, bedrooms: string, bathrooms: string, units: string)

  function InputOf(inputs: Inputs, e: Editable): string {
    match e
    case YearBuilt => inputs.yearBuilt
    case SquareFootage => inputs.squareFootage
    case Bedrooms => inputs.bedrooms
    case Bathrooms => inputs.bathrooms
    case Units => inputs.units
  }

  /** The house property an editable field falls back to. It is not the
      request key: `Year Built` falls back to `year`, and so on. */
  function HouseKey(e: Editable): string {
    match e
    case YearBuilt => "year"
    case SquareFootage => "square_footage"
    case Bedrooms => "bedrooms"
    case Bathrooms => "bathrooms"
    case Units => "units"
  }

  /** Where a request property takes its value from. */
  datatype Origin = Copied(houseKey: string) | Edited(field: Editable)

  /** The request's properties in the order the client writes them, each
      with its origin. Copied properties read the house property of the
      same name. */
  const RequestFields: seq<(string, Origin)> := [
    ("City Tax Rate Area", Copied("City Tax Rate Area")),
    ("Roll Year", Copied("Roll Year")),
    ("Property Use Type", Copied("Property Use Type")),
    ("Number of Buildings", Copied("Number of Buildings")),
    ("Year Built", Edited(YearBuilt)),
    ("Effective Year", Copied("Effective Year")),
    ("Square Footage", Edited(SquareFootage)),
    ("Number of Bedrooms", Edited(Bedrooms)),
    ("Number of Bathrooms", Edited(Bathrooms)),
    ("Number of Units", Edited(Units)),
    ("Zip Code.1", Copied("Zip Code.1")),
    ("num_nearby_arts_and_rec", Copied("num_nearby_arts_and_rec")),
    ("num_nearby_fire_stations", Copied("num_nearby_fire_stations")),
    ("num_nearby_hospitals", Copied("num_nearby_hospitals")),
    ("num_nearby_physical_features", Copied("num_nearby_physical_features")),
    ("num_nearby_transportation", Copied("num_nearby_transportation")),
    ("num_nearby_schools", Copied("num_nearby_schools"))
  ]

  /** Where an editable field sits in the request. */
  function EditedIndex(e: Editable): (i: nat)
    ensures i < |RequestFields| && RequestFields[i].1 == Edited(e)
  {
    match e
    case YearBuilt => 4
    case SquareFootage => 6
    case Bedrooms => 7
    case Bathrooms => 8
    case Units => 9
  }

  /** The request key of an editable field. */
  function RequestKey(e: Editable): string {
    RequestFields[EditedIndex(e)].0
  }

  /** `parseInt(input) || fallback`: the parsed integer when it is truthy
      (neither `NaN` nor zero), otherwise the fallback as it is. */
  function Override(input: string, fallback: Option<Value>): (r: Option<Value>)
    ensures Truthy(ParseInt(input)) ==> r == Some(Num(ParseInt(input).value as real))
    ensures !Truthy(ParseInt(input)) ==> r == fallback
  {
    var p := ParseInt(input);
    if p.Int? && p.value != 0 then Some(Num(p.value as real)) else fallback
  }

  /** An integer typed in decimal replaces the fallback, except `0`,
      which is falsy and leaves the fallback. */
  lemma OverrideOfWritten(n: int, fallback: Option<Value>)
    ensures Override(if n < 0 then "-" + Decimal(-n) else Decimal(n), fallback)
            == if n != 0 then Some(Num(n as real)) else fallback
  {
    ParseIntOfDecimal(n);
  }

  /** The value one request property takes. */
  function Resolve(h: House, inputs: Inputs, o: Origin): Option<Value> {
    match o
    case Copied(k) => Field(h, k)
    case Edited(e) => Override(InputOf(inputs, e), Field(h, HouseKey(e)))
  }

  /** The 17 request keys, which are pairwise different. */
  lemma RequestKeysDistinct()
    ensures forall i, j :: 0 <= i < j < |RequestFields| ==> RequestFields[i].0 != RequestFields[j].0
  {
  }

  /** The request's properties with their values, in the order written. */
  function RequestEntries(h: House, inputs: Inputs): (r: seq<(string, Option<Value>)>)
    ensures |r| == |RequestFields|
    ensures forall i :: 0 <= i < |r| ==> r[i] == (RequestFields[i].0, Resolve(h, inputs, RequestFields[i].1))
  {
    seq(|RequestFields|, i requires 0 <= i < |RequestFields| => (RequestFields[i].0, Resolve(h, inputs, RequestFields[i].1)))
  }

  /** The request object before serialisation, built from the selected
      house and the inputs. A property may still be `undefined` here. */
  function BuildRequest(h: House, inputs: Inputs): (r: Draft)
    ensures forall k :: k in r <==> exists i :: 0 <= i < |RequestFields| && RequestFields[i].0 == k
    ensures forall i :: 0 <= i < |RequestFields| ==> RequestFields[i].0 in r && r[RequestFields[i].0] == Resolve(h, inputs, RequestFields[i].1)
  {
    var entries := RequestEntries(h, inputs);
    RequestEntriesLastWrites(h, inputs);
    Literal(entries)
  }

  /** No request property is written twice. */
  lemma RequestEntriesLastWrites(h: House, inputs: Inputs)
    ensures var entries := RequestEntries(h, inputs);
            && (forall i :: 0 <= i < |entries| ==> IsLastWrite(entries, i))
            && (forall k :: k in Names(entries) <==> exists i :: 0 <= i < |RequestFields| && RequestFields[i].0 == k)
  {
    var entries := RequestEntries(h, inputs);
    RequestKeysDistinct();
    var names := Names(entries);
    forall k | k in names ensures exists i :: 0 <= i < |RequestFields| && RequestFields[i].0 == k {
      var i :| 0 <= i < |names| && names[i] == k;
      assert RequestFields[i].0 == k;
    }
  }

  /** The copied properties equal the house's own, whatever was typed. */
  lemma {:induction false} CopiedFieldsIgnoreInputs(h: House, inputs: Inputs, k: string)
    requires (k, Copied(k)) in RequestFields
    ensures k in BuildRequest(h, inputs) && BuildRequest(h, inputs)[k] == Field(h, k)
  {
    var i :| 0 <= i < |RequestFields| && RequestFields[i] == (k, Copied(k));
  }

  /** An editable property takes the parsed input when it is a non-zero
      integer, and otherwise the house's value, so blank, non-numeric and
      zero inputs all fall back. */
  lemma {:induction false} EditedField(h: House, inputs: Inputs, e: Editable)
    ensures RequestKey(e) in BuildRequest(h, inputs)
    ensures var p := ParseInt(InputOf(inputs, e));
            BuildRequest(h, inputs)[RequestKey(e)]
              == if p.Int? && p.value != 0 then Some(Num(p.value as real)) else Field(h, HouseKey(e))
  {
    var i := EditedIndex(e);
  }

  /** Bedrooms typed as "3" and square footage left blank: the request
      carries 3 bedrooms and the house's square footage. */
  lemma BedroomsExample(h: House, inputs: Inputs)
    requires inputs.bedrooms == "3" && inputs.squareFootage == ""
    ensures var r := BuildRequest(h, inputs);
            && "Number of Bedrooms" in r && r["Number of Bedrooms"] == Some(Num(3.0))
            && "Square Footage" in r && r["Square Footage"] == Field(h, "square_footage")
  {
    KeyNames();
    assert ParseInt(InputOf(inputs, Bedrooms)) == Int(3) by {
      assert InputOf(inputs, Bedrooms) == "3";
      ParseIntOfDigits();
    }
    assert ParseInt(InputOf(inputs, SquareFootage)) == NaN by {
      assert InputOf(inputs, SquareFootage) == "";
      ParseIntOfBlank();
    }
    TypedInput(h, inputs, Bedrooms, 3);
    BlankInput(h, inputs, SquareFootage);
  }

  /** The request keys and fallback properties of the editable fields. */
  lemma KeyNames()
    ensures RequestKey(YearBuilt) == "Year Built" && HouseKey(YearBuilt) == "year"
    ensures RequestKey(SquareFootage) == "Square Footage" && HouseKey(SquareFootage) == "square_footage"
    ensures RequestKey(Bedrooms) == "Number of Bedrooms" && HouseKey(Bedrooms) == "bedrooms"
  {
  }

  /** An input whose `parseInt` is a non-zero integer sets its property. */
  lemma TypedInput(h: House, inputs: Inputs, e: Editable, n: int)
    requires n != 0 && ParseInt(InputOf(inputs, e)) == Int(n)
    ensures var r := BuildRequest(h, inputs);
            RequestKey(e) in r && r[RequestKey(e)] == Some(Num(n as real))
  {
    EditedField(h, inputs, e);
  }

  /** An input whose `parseInt` is falsy leaves the house's value. */
  lemma BlankInput(h: House, inputs: Inputs, e: Editable)
    requires !Truthy(ParseInt(InputOf(inputs, e)))
    ensures var r := BuildRequest(h, inputs);
            RequestKey(e) in r && r[RequestKey(e)] == Field(h, HouseKey(e))
  {
    EditedField(h, inputs, e);
  }

  /** Year built typed as "abc" or as "0" falls back to the house's year. */
  lemma YearBuiltFallbackExample(h: House, inputs: Inputs)
    requires inputs.yearBuilt == "abc" || inputs.yearBuilt == "0"
    ensures var r := BuildRequest(h, inputs);
            "Year Built" in r && r["Year Built"] == Field(h, "year")
  {
    KeyNames();
    assert !Truthy(ParseInt(InputOf(inputs, YearBuilt))) by {
      ParseIntOfWord();
      ParseIntOfDigits();
    }
    BlankInput(h, inputs, YearBuilt);
  }
}
