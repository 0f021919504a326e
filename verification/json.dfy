/**
 The values that travel between the browser client and the prediction
 server: a JSON scalar, and `Option` for a property that may be absent
 (JavaScript's `undefined`).
 */
module Json {

  /** `None` stands for an absent value: `undefined` in JavaScript. */
  datatype Option<+T> = None | Some(value: T)

  /** A JSON scalar as read from the data files or a request body. */
  datatype Value = Num(n: real) | Str(s: string) | Bool(b: bool) | Null

  /** A JSON object whose properties may be `undefined` before it is serialised. */
  type Draft = map<string, Option<Value>>

  /** A JSON object as it appears on the wire. */
  type Object = map<string, Value>

  /** `JSON.stringify` drops every property whose value is `undefined`
      and keeps every other property with its value. */
  function Serialize(d: Draft): (o: Object)
    ensures forall k :: k in o <==> k in d && d[k].Some?
    ensures forall k :: k in o ==> o[k] == d[k].value
  {
    map k | k in d && d[k].Some? :: d[k].value
  }

  /** An object whose properties are all defined serialises to itself. */
  lemma SerializeOfDefined(o: Object)
    ensures Serialize(map k | k in o :: Some(o[k])) == o
  {
  }

  /** Setting a property to `undefined` is the same as leaving it out. */
  lemma SerializeOfUndefined(d: Draft, k: string)
    ensures Serialize(d[k := None]) == Serialize(d) - {k}
  {
  }

  /** The property names of `entries`, in order. */
  function Names<V>(entries: seq<(string, V)>): (r: seq<string>)
    ensures |r| == |entries| && forall i :: 0 <= i < |entries| ==> r[i] == entries[i].0
  {
    if |entries| == 0 then [] else Names(entries[..|entries| - 1]) + [entries[|entries| - 1].0]
  }

  /** No later entry writes the same property as entry `i`. */
  predicate IsLastWrite<V>(entries: seq<(string, V)>, i: nat)
    requires i < |entries|
  {
    forall j :: i < j < |entries| ==> entries[j].0 != entries[i].0
  }

  /** An object literal whose properties are written in order: every
      name gets a property, and a later property of the same name
      overwrites an earlier one. */
  function Literal<V>(entries: seq<(string, V)>): (r: map<string, V>)
    ensures forall k :: k in r <==> k in Names(entries)
    ensures forall i :: 0 <= i < |entries| && IsLastWrite(entries, i) ==> entries[i].0 in r && r[entries[i].0] == entries[i].1
  {
    if |entries| == 0 then map[]
    else
      var n := |entries| - 1;
      var prev := Literal(entries[..n]);
      LiteralStep(entries, prev);
      prev[entries[n].0 := entries[n].1]
  }

  lemma LiteralStep<V>(entries: seq<(string, V)>, prev: map<string, V>)
    requires |entries| > 0
    requires var init := entries[..|entries| - 1];
             && (forall k :: k in prev <==> k in Names(init))
             && forall i :: 0 <= i < |init| && IsLastWrite(init, i) ==> init[i].0 in prev && prev[init[i].0] == init[i].1
    ensures var r := prev[entries[|entries| - 1].0 := entries[|entries| - 1].1];
            && (forall k :: k in r <==> k in Names(entries))
            && forall i :: 0 <= i < |entries| && IsLastWrite(entries, i) ==> entries[i].0 in r && r[entries[i].0] == entries[i].1
  {
    var n := |entries| - 1;
    var init := entries[..n];
    var r := prev[entries[n].0 := entries[n].1];
    assert Names(entries) == Names(init) + [entries[n].0];
    forall i | 0 <= i < |entries| && IsLastWrite(entries, i)
      ensures entries[i].0 in r && r[entries[i].0] == entries[i].1
    {
      if i < n {
        EarlierLastWrite(entries, i);
      }
    }
  }

  /** An entry not overwritten in `entries` is not overwritten in its
      prefix without the last entry either, and differs from that entry. */
  lemma EarlierLastWrite<V>(entries: seq<(string, V)>, i: nat)
    requires i + 1 < |entries| && IsLastWrite(entries, i)
    ensures var init := entries[..|entries| - 1];
            IsLastWrite(init, i) && init[i] == entries[i] && entries[|entries| - 1].0 != entries[i].0
  {
    var init := entries[..|entries| - 1];
    forall j | i < j < |init| ensures init[j].0 != init[i].0 {
      assert init[j] == entries[j];
    }
  }
}
