/**
 The JavaScript string operations the client relies on: `trim`,
 `toLowerCase`, and `replace(/^.*__/, '')`, which turns a feature name
 into its display label.
 */
module JsText {
  import opened Json

  /** ECMAScript WhiteSpace and LineTerminator code points: what `trim`
      and `parseInt` skip. Space_Separator (Zs) is listed as of Unicode 15. */
  predicate IsWhitespace(c: char) {
    var n := c as int;
    || n == 0x09 || n == 0x0A || n == 0x0B || n == 0x0C || n == 0x0D
    || n == 0x20 || n == 0xA0 || n == 0x1680
    || (0x2000 <= n <= 0x200A)
    || n == 0x2028 || n == 0x2029 || n == 0x202F || n == 0x205F
    || n == 0x3000 || n == 0xFEFF
  }

  /** ECMAScript LineTerminator: the code points a regular-expression `.` does not match. */
  predicate IsLineTerminator(c: char) {
    var n := c as int;
    n == 0x0A || n == 0x0D || n == 0x2028 || n == 0x2029
  }

  /** `s` with its leading whitespace removed: the longest suffix of `s`
      that does not start with whitespace. */
  function TrimStart(s: string): (r: string)
    ensures |r| <= |s| && r == s[|s| - |r|..]
    ensures forall k :: 0 <= k < |s| - |r| ==> IsWhitespace(s[k])
    ensures |r| > 0 ==> !IsWhitespace(r[0])
  {
    if |s| > 0 && IsWhitespace(s[0]) then
      var r := TrimStart(s[1..]);
      assert s[1..][|s| - 1 - |r|..] == s[|s| - |r|..];
      assert forall k :: 1 <= k < |s| - |r| ==> s[k] == s[1..][k - 1];
      r
    else s
  }

  /** `s` with its trailing whitespace removed. */
  function TrimEnd(s: string): (r: string)
    ensures |r| <= |s| && r == s[..|r|]
    ensures forall k :: |r| <= k < |s| ==> IsWhitespace(s[k])
    ensures |r| > 0 ==> !IsWhitespace(r[|r| - 1])
  {
    if |s| > 0 && IsWhitespace(s[|s| - 1]) then TrimEnd(s[..|s| - 1]) else s
  }

  /** How many whitespace characters `trim` drops from the front of `s`. */
  function LeadingWhitespace(s: string): (n: nat)
    ensures n <= |s|
  {
    |s| - |TrimStart(s)|
  }

  /** `String.prototype.trim`: drops the whitespace at both ends and keeps
      the middle of `s` as it is. */
  function Trim(s: string): (r: string)
    ensures var i := LeadingWhitespace(s);
            && i + |r| <= |s| && r == s[i..i + |r|]
            && (forall k :: 0 <= k < i ==> IsWhitespace(s[k]))
            && (forall k :: i + |r| <= k < |s| ==> IsWhitespace(s[k]))
    ensures |r| > 0 ==> !IsWhitespace(r[0]) && !IsWhitespace(r[|r| - 1])
  {
    var t := TrimStart(s);
    var r := TrimEnd(t);
    TrimEndOfSuffix(s, t, r);
    r
  }

  /** Where the trailing whitespace of a suffix `t` of `s` lies in `s`. */
  lemma TrimEndOfSuffix(s: string, t: string, r: string)
    requires |t| <= |s| && t == s[|s| - |t|..]
    requires |r| <= |t| && r == t[..|r|]
    requires forall k :: |r| <= k < |t| ==> IsWhitespace(t[k])
    ensures var i := |s| - |t|;
            && r == s[i..i + |r|]
            && forall k :: i + |r| <= k < |s| ==> IsWhitespace(s[k])
  {
    var i := |s| - |t|;
    forall k | i + |r| <= k < |s| ensures IsWhitespace(s[k]) {
      assert s[k] == t[k - i];
    }
  }

  /** `toLowerCase` on one character; only ASCII capitals change. */
  function LowerChar(c: char): char {
    if 'A' <= c <= 'Z' then (c as int + 32) as char else c
  }

  /** `String.prototype.toLowerCase`, character by character. */
  function Lower(s: string): (r: string)
    ensures |r| == |s|
    ensures forall k :: 0 <= k < |s| ==> !('A' <= r[k] <= 'Z')
    ensures forall k :: 0 <= k < |s| && 'A' <= s[k] <= 'Z' ==> r[k] as int == s[k] as int + ('a' as int - 'A' as int)
    ensures forall k :: 0 <= k < |s| && !('A' <= s[k] <= 'Z') ==> r[k] == s[k]
  {
    seq(|s|, k requires 0 <= k < |s| => LowerChar(s[k]))
  }

  /** The capitals map onto the small letters, in alphabetical order. */
  lemma LowerOfAlphabet()
    ensures Lower("ABCDEFGHIJKLMNOPQRSTUVWXYZ") == "abcdefghijklmnopqrstuvwxyz"
  {
  }

  /** Lower-casing keeps every character's whitespace status, so it
      cannot turn a padded string into an unpadded one, nor the reverse. */
  lemma LowerKeepsWhitespace(s: string)
    ensures forall k :: 0 <= k < |s| ==> (IsWhitespace(Lower(s)[k]) <==> IsWhitespace(s[k]))
  {
  }

  /** Lower-casing twice is lower-casing once. */
  lemma LowerIdempotent(s: string)
    ensures Lower(Lower(s)) == Lower(s)
  {
  }

  /** Trimming twice is trimming once. */
  lemma {:induction false} TrimIdempotent(s: string)
    ensures Trim(Trim(s)) == Trim(s)
  {
    var r := Trim(s);
    TrimStartUnpadded(r);
    TrimEndUnpadded(r);
  }

  lemma TrimStartUnpadded(s: string)
    requires |s| > 0 ==> !IsWhitespace(s[0])
    ensures TrimStart(s) == s
  {
  }

  lemma TrimEndUnpadded(s: string)
    requires |s| > 0 ==> !IsWhitespace(s[|s| - 1])
    ensures TrimEnd(s) == s
  {
  }

  /** Normalising a query (trim, then lower-case) a second time changes nothing. */
  lemma {:induction false} NormalizeIdempotent(s: string)
    ensures Lower(Trim(Lower(Trim(s)))) == Lower(Trim(s))
  {
    var t := Trim(s);
    var l := Lower(t);
    LowerKeepsWhitespace(t);
    TrimStartUnpadded(l);
    TrimEndUnpadded(l);
    LowerIdempotent(t);
  }

  /** An occurrence of the separator `__` starting at index `i`. */
  predicate SeparatorAt(s: string, i: int) {
    0 <= i && i + 2 <= |s| && s[i] == '_' && s[i + 1] == '_'
  }

  /** The length of the first line of `s`: how far `.` can reach from the start. */
  function FirstLineLength(s: string): (n: nat)
    ensures n <= |s|
    ensures forall k :: 0 <= k < n ==> !IsLineTerminator(s[k])
    ensures n < |s| ==> IsLineTerminator(s[n])
  {
    if |s| == 0 || IsLineTerminator(s[0]) then 0 else 1 + FirstLineLength(s[1..])
  }

  /** The start of the last separator that ends within the first `limit`
      characters, if any. */
  function LastSeparatorBefore(s: string, limit: nat): (r: Option<nat>)
    requires limit <= |s|
    ensures r.Some? ==> r.value + 2 <= limit && SeparatorAt(s, r.value)
    ensures r.Some? ==> forall j :: r.value < j && j + 2 <= limit ==> !SeparatorAt(s, j)
    ensures r.None? ==> forall j :: 0 <= j && j + 2 <= limit ==> !SeparatorAt(s, j)
  {
    if limit < 2 then None
    else if SeparatorAt(s, limit - 2) then Some(limit - 2)
    else LastSeparatorBefore(s, limit - 1)
  }

  /** `name.replace(/^.*__/, '')`: the greedy `.*` reaches the last `__`
      on the first line, and everything up to and including it is removed. */
  function StripLabel(name: string): (r: string)
    ensures |r| <= |name| && r == name[|name| - |r|..]
    ensures var n := FirstLineLength(name);
            var p := |name| - |r|;
            || (p == 0 && forall j :: 0 <= j && j + 2 <= n ==> !SeparatorAt(name, j))
            || (2 <= p <= n && SeparatorAt(name, p - 2) && forall j :: p - 2 < j && j + 2 <= n ==> !SeparatorAt(name, j))
  {
    match LastSeparatorBefore(name, FirstLineLength(name))
    case Some(i) => name[i + 2..]
    case None => name
  }

  /** The label is the name with everything up to and including the last
      `__` removed; a name without `__` is left as it is. */
  lemma StripLabelRemovesThroughLastSeparator(name: string)
    requires forall k :: 0 <= k < |name| ==> !IsLineTerminator(name[k])
    ensures (forall j :: !SeparatorAt(name, j)) ==> StripLabel(name) == name
    ensures (exists j :: SeparatorAt(name, j)) ==>
              var r := StripLabel(name);
              var p := |name| - |r|;
              && p >= 2 && SeparatorAt(name, p - 2)
              && (forall j :: p - 2 < j ==> !SeparatorAt(name, j))
              && forall j :: !SeparatorAt(r, j)
  {
    var n := FirstLineLength(name);
    assert n == |name|;
    var r := StripLabel(name);
    match LastSeparatorBefore(name, n)
    case None =>
    case Some(i) =>
      assert r == name[i + 2..];
      forall j ensures !SeparatorAt(r, j) {
        if SeparatorAt(r, j) {
          assert SeparatorAt(name, i + 2 + j);
        }
      }
  }

  /** A name made of a head, the separator and a tail without any `__`
      (and not starting with `_`) is labelled by its tail. */
  lemma {:induction false} StripLabelOfQualified(head: string, tail: string)
    requires forall k :: 0 <= k < |head| ==> !IsLineTerminator(head[k])
    requires forall k :: 0 <= k < |tail| ==> !IsLineTerminator(tail[k])
    requires forall j :: !SeparatorAt(tail, j)
    requires |tail| > 0 ==> tail[0] != '_'
    ensures StripLabel(head + "__" + tail) == tail
  {
    var name := head + "__" + tail;
    var h := |head|;
    assert forall k :: 0 <= k < |name| ==> !IsLineTerminator(name[k]) by {
      forall k | 0 <= k < |name| ensures !IsLineTerminator(name[k]) {
        if k >= h + 2 {
          assert name[k] == tail[k - h - 2];
        } else if k < h {
          assert name[k] == head[k];
        }
      }
    }
    var n := FirstLineLength(name);
    assert n == |name|;
    assert SeparatorAt(name, h);
    forall j | h < j ensures !SeparatorAt(name, j) {
      if j == h + 1 {
        assert |tail| > 0 ==> name[h + 2] == tail[0];
      } else {
        assert SeparatorAt(name, j) ==> SeparatorAt(tail, j - h - 2);
      }
    }
    match LastSeparatorBefore(name, n)
    case None =>
    case Some(i) =>
      assert i == h;
      assert name[h + 2..] == tail;
  }

  /** In a run of three underscores the last two are the separator, so
      the third survives in no label: `a___b` is labelled `b`. */
  lemma StripLabelOfUnderscoreRun()
    ensures StripLabel("a___b") == "b"
  {
    var name := "a___b";
    assert FirstLineLength(name) == 5 by {
      assert forall k :: 0 <= k < |name| ==> !IsLineTerminator(name[k]);
    }
    assert SeparatorAt(name, 2) && !SeparatorAt(name, 3);
  }

  /** The labels of two column names the preprocessor produces. */
  lemma StripLabelExamples()
    ensures StripLabel("num__sqft") == "sqft"
    ensures StripLabel("cat__zip") == "zip"
  {
    QualifiedSqft();
    StripLabelOfQualified("num", "sqft");
    QualifiedZip();
    StripLabelOfQualified("cat", "zip");
  }

  /** The label drops everything before the last `__`, so two names
      that differ only there share a label. */
  lemma StripLabelSharedTail()
    ensures StripLabel("a__sqft") == "sqft" && StripLabel("b__sqft") == "sqft"
  {
    QualifiedTails();
    StripLabelOfQualified("a", "sqft");
    StripLabelOfQualified("b", "sqft");
  }

  // Literal facts the examples above need spelled out.

  lemma QualifiedTails()
    ensures "a" + "__" + "sqft" == "a__sqft" && "b" + "__" + "sqft" == "b__sqft"
    ensures forall j :: !SeparatorAt("sqft", j)
    ensures !IsLineTerminator('a') && !IsLineTerminator('b')
    ensures forall k :: 0 <= k < |"sqft"| ==> !IsLineTerminator("sqft"[k])
  {
  }

  lemma QualifiedSqft()
    ensures "num" + "__" + "sqft" == "num__sqft"
    ensures forall j :: !SeparatorAt("sqft", j)
    ensures forall k :: 0 <= k < |"num"| ==> !IsLineTerminator("num"[k])
    ensures forall k :: 0 <= k < |"sqft"| ==> !IsLineTerminator("sqft"[k])
  {
  }

  lemma QualifiedZip()
    ensures "cat" + "__" + "zip" == "cat__zip"
    ensures forall j :: !SeparatorAt("zip", j)
    ensures forall k :: 0 <= k < |"cat"| ==> !IsLineTerminator("cat"[k])
    ensures forall k :: 0 <= k < |"zip"| ==> !IsLineTerminator("zip"[k])
  {
  }
}
