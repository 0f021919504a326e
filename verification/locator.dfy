/**
 The house records loaded from the property data file, and the address
 search that selects one of them.
 */
module Locator {
  import opened Json
  import opened JsText

  /** A property as loaded from the data file. The address and the
      coordinates are always present; every other property of the JSON
      record (`year`, `bedrooms`, `Roll Year`, ...) is in `fields`, and a
      key missing there reads as `undefined`. */
  datatype House = House(address: string, latitude: real, longitude: real, fields: map<string, Value>)

  /** `house[key]`: the field's value, or `undefined`. */
  function Field(h: House, key: string): (r: Option<Value>)
    ensures r.Some? <==> key in h.fields
    ensures r.Some? ==> r.value == h.fields[key]
  {
    if key in h.fields then Some(h.fields[key]) else None
  }

  /** The search box text is trimmed and lower-cased before comparing. */
  function NormalizeQuery(query: string): string {
    Lower(Trim(query))
  }

  /** A candidate address is only lower-cased, never trimmed. */
  predicate AddressMatches(h: House, key: string) {
    Lower(h.address) == key
  }

  /** The first index at or after `from` whose house matches `key`. */
  function FirstMatchFrom(houses: seq<House>, key: string, from: nat): (r: Option<nat>)
    requires from <= |houses|
    ensures r.Some? ==> from <= r.value < |houses| && AddressMatches(houses[r.value], key)
    ensures r.Some? ==> forall j :: from <= j < r.value ==> !AddressMatches(houses[j], key)
    ensures r.None? ==> forall j :: from <= j < |houses| ==> !AddressMatches(houses[j], key)
    decreases |houses| - from
  {
    if from == |houses| then None
    else if AddressMatches(houses[from], key) then Some(from)
    else FirstMatchFrom(houses, key, from + 1)
  }

  /** `houseData.find(h => h.address.toLowerCase() === input)` with the
      normalised query as `input`: the first house whose lower-cased
      address equals it, or nothing. */
  function Lookup(houses: seq<House>, query: string): (r: Option<House>)
    ensures r.None? <==> forall j :: 0 <= j < |houses| ==> !AddressMatches(houses[j], NormalizeQuery(query))
    ensures r.Some? ==> exists i :: 0 <= i < |houses| && houses[i] == r.value
                          && AddressMatches(houses[i], NormalizeQuery(query))
                          && forall j :: 0 <= j < i ==> !AddressMatches(houses[j], NormalizeQuery(query))
  {
    match FirstMatchFrom(houses, NormalizeQuery(query), 0)
    case Some(i) => Some(houses[i])
    case None => None
  }

  /** A query and its normalised form find the same house: surrounding
      whitespace and letter case in the query never matter. */
  lemma LookupIgnoresPaddingAndCase(houses: seq<House>, query: string)
    ensures Lookup(houses, query) == Lookup(houses, NormalizeQuery(query))
  {
    NormalizeIdempotent(query);
  }

  /** Three spellings of one address all resolve to the same record. */
  lemma LookupExample(houses: seq<House>)
    ensures Lookup(houses, " 123 main st ") == Lookup(houses, "123 MAIN ST") == Lookup(houses, "123 Main St")
  {
    NormalizePadded();
    NormalizeUpper();
    NormalizeMixed();
  }

  lemma NormalizePadded()
    ensures NormalizeQuery(" 123 main st ") == "123 main st"
  {
    var key := "123 main st";
    assert " 123 main st "[1..] == key + " ";
    TrimStartUnpadded(key + " ");
    assert (key + " ")[..|key|] == key;
    TrimEndUnpadded(key);
    assert Trim(" 123 main st ") == key;
    LowerOfLowerCase(key);
  }

  lemma NormalizeUpper()
    ensures NormalizeQuery("123 MAIN ST") == "123 main st"
  {
    TrimStartUnpadded("123 MAIN ST");
    TrimEndUnpadded("123 MAIN ST");
    assert LowerChar('M') == 'm' && LowerChar('A') == 'a' && LowerChar('I') == 'i';
    assert LowerChar('N') == 'n' && LowerChar('S') == 's' && LowerChar('T') == 't';
    var r := Lower("123 MAIN ST");
    assert r == "123 main st";
  }

  lemma NormalizeMixed()
    ensures NormalizeQuery("123 Main St") == "123 main st"
  {
    TrimStartUnpadded("123 Main St");
    TrimEndUnpadded("123 Main St");
    var r := Lower("123 Main St");
    assert r[4] == 'm' && r[9] == 's';
    assert r == "123 main st";
  }

  lemma LowerOfLowerCase(s: string)
    requires forall k :: 0 <= k < |s| ==> !('A' <= s[k] <= 'Z')
    ensures Lower(s) == s
  {
  }

  /** A house whose stored address begins or ends with whitespace can
      never be selected: the query is trimmed but the address is not. */
  lemma PaddedAddressIsUnreachable(houses: seq<House>, i: nat, query: string)
    requires i < |houses| && |houses[i].address| > 0
    requires IsWhitespace(houses[i].address[0]) || IsWhitespace(houses[i].address[|houses[i].address| - 1])
    ensures Lookup(houses, query) != Some(houses[i])
  {
    PaddedNeverEqualsTrimmed(houses[i].address, Trim(query));
    assert !AddressMatches(houses[i], NormalizeQuery(query));
  }

  /** A lower-cased padded text never equals a lower-cased trimmed one. */
  lemma PaddedNeverEqualsTrimmed(a: string, t: string)
    requires |a| > 0 && (IsWhitespace(a[0]) || IsWhitespace(a[|a| - 1]))
    requires |t| > 0 ==> !IsWhitespace(t[0]) && !IsWhitespace(t[|t| - 1])
    ensures Lower(a) != Lower(t)
  {
    LowerKeepsWhitespace(a);
    LowerKeepsWhitespace(t);
  }

}
