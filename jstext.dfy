/** The JavaScript string behaviour the client code depends on. A JS string is a
    sequence of UTF-16 code units: `.length`, `.slice` and indexing count code units.
    `\s` in a regular expression and `String.prototype.trim` share one set of
    whitespace code units (WhiteSpace and LineTerminator of ECMAScript). */
module JsText {

  newtype CodeUnit = x: int | 0 <= x < 0x1_0000

  type JsString = seq<CodeUnit>

  /** A string literal of the source, all of whose characters are ASCII. */
  function Ascii(s: string): (r: JsString)
    requires forall i | 0 <= i < |s| :: s[i] < 128 as char
    ensures |r| == |s| && forall i | 0 <= i < |s| :: r[i] as int == s[i] as int
  {
    seq(|s|, i requires 0 <= i < |s| => s[i] as int as CodeUnit)
  }

  const Space: CodeUnit := 0x20
  const Quote: CodeUnit := 0x22

  /** `\s`: tab, line feed, vertical tab, form feed, carriage return, space, no-break
      space, ogham space mark, the spaces U+2000 to U+200A, line and paragraph
      separator, narrow no-break space, medium mathematical space, ideographic space
      and the byte-order mark. */
  predicate IsWs(c: CodeUnit) {
    || (0x09 <= c <= 0x0D) || c == 0x20 || c == 0xA0 || c == 0x1680
    || (0x2000 <= c <= 0x200A) || c == 0x2028 || c == 0x2029 || c == 0x202F
    || c == 0x205F || c == 0x3000 || c == 0xFEFF
  }

  predicate NoWs(s: JsString) {
    forall k | 0 <= k < |s| :: !IsWs(s[k])
  }

  predicate AllWs(s: JsString) {
    forall k | 0 <= k < |s| :: IsWs(s[k])
  }

  /** First whitespace position at or after `i`, or the end. */
  function WordEnd(s: JsString, i: nat): (r: nat)
    requires i <= |s|
    ensures i <= r <= |s|
    ensures forall k | i <= k < r :: !IsWs(s[k])
    ensures r < |s| ==> IsWs(s[r])
    decreases |s| - i
  {
    if i < |s| && !IsWs(s[i]) then WordEnd(s, i + 1) else i
  }

  /** First non-whitespace position at or after `i`, or the end: where a greedy `\s+`
      started at `i` stops. */
  function RunEnd(s: JsString, i: nat): (r: nat)
    requires i <= |s|
    ensures i <= r <= |s|
    ensures forall k | i <= k < r :: IsWs(s[k])
    ensures r < |s| ==> !IsWs(s[r])
    decreases |s| - i
  {
    if i < |s| && IsWs(s[i]) then RunEnd(s, i + 1) else i
  }

  /** `s.split(/\s+/)`: the text between maximal runs of whitespace. Leading or
      trailing whitespace gives an empty first or last piece, and the empty string
      gives one empty piece. */
  function SplitWs(s: JsString): (pieces: seq<JsString>)
    ensures |pieces| >= 1
    ensures forall k | 0 <= k < |pieces| :: NoWs(pieces[k])
    decreases |s|
  {
    var e := WordEnd(s, 0);
    if e == |s| then [s]
    else [s[..e]] + SplitWs(s[RunEnd(s, e)..])
  }

  /** The characters of `s` that are not whitespace, in order. */
  function RemoveWs(s: JsString): JsString {
    if s == [] then [] else (if IsWs(s[0]) then [] else [s[0]]) + RemoveWs(s[1..])
  }

  function Concat(pieces: seq<JsString>): JsString {
    if pieces == [] then [] else pieces[0] + Concat(pieces[1..])
  }

  lemma {:induction false} RemoveWsAppend(a: JsString, b: JsString)
    ensures RemoveWs(a + b) == RemoveWs(a) + RemoveWs(b)
    decreases |a|
  {
    if a != [] {
      var head := if IsWs(a[0]) then [] else [a[0]];
      assert (a + b)[0] == a[0] && (a + b)[1..] == a[1..] + b;
      assert RemoveWs(a + b) == head + RemoveWs(a[1..] + b);
      RemoveWsAppend(a[1..], b);
      assert RemoveWs(a) == head + RemoveWs(a[1..]);
      assert head + (RemoveWs(a[1..]) + RemoveWs(b)) == (head + RemoveWs(a[1..])) + RemoveWs(b);
    } else {
      assert a + b == b;
    }
  }

  lemma {:induction false} RemoveWsNone(a: JsString)
    requires NoWs(a)
    ensures RemoveWs(a) == a
    decreases |a|
  {
    if a != [] {
      RemoveWsNone(a[1..]);
    }
  }

  lemma {:induction false} RemoveWsAll(a: JsString)
    requires AllWs(a)
    ensures RemoveWs(a) == []
    decreases |a|
  {
    if a != [] {
      RemoveWsAll(a[1..]);
    }
  }

  /** Splitting loses exactly the whitespace: the pieces, put back together, are the
      input without its whitespace. */
  lemma {:induction false} SplitWsKeepsText(s: JsString)
    ensures Concat(SplitWs(s)) == RemoveWs(s)
    decreases |s|
  {
    var e := WordEnd(s, 0);
    if e == |s| {
      assert s[..e] == s;
      RemoveWsNone(s);
    } else {
      var r := RunEnd(s, e);
      ConcatCons(s[..e], SplitWs(s[r..]));
      SplitWsKeepsText(s[r..]);
      RemoveWsWordRun(s, e, r);
    }
  }

  /** Dropping the whitespace of a word followed by a run of whitespace and more text
      leaves the word and what is left of the text. */
  lemma RemoveWsWordRun(s: JsString, e: nat, r: nat)
    requires e <= r <= |s| && NoWs(s[..e]) && AllWs(s[e..r])
    ensures RemoveWs(s) == s[..e] + RemoveWs(s[r..])
  {
    var word, run, tail := s[..e], s[e..r], s[r..];
    assert s == word + (run + tail);
    calc {
      RemoveWs(s);
      RemoveWs(word + (run + tail));
      { RemoveWsAppend(word, run + tail); }
      RemoveWs(word) + RemoveWs(run + tail);
      { RemoveWsNone(word); RemoveWsAppend(run, tail); }
      word + (RemoveWs(run) + RemoveWs(tail));
      { RemoveWsAll(run); }
      word + ([] + RemoveWs(tail));
      { assert [] + RemoveWs(tail) == RemoveWs(tail); }
      word + RemoveWs(tail);
    }
  }

  lemma ConcatCons(p: JsString, ps: seq<JsString>)
    ensures Concat([p] + ps) == p + Concat(ps)
  {
    assert ([p] + ps)[1..] == ps;
  }

  /** Only the first and the last piece can be empty: the separators are maximal. */
  lemma {:induction false} SplitWsInnerNonEmpty(s: JsString)
    ensures forall k | 0 < k < |SplitWs(s)| - 1 :: SplitWs(s)[k] != []
    decreases |s|
  {
    var e := WordEnd(s, 0);
    if e < |s| {
      var r := RunEnd(s, e);
      var tail := s[r..];
      SplitWsInnerNonEmpty(tail);
      var q := SplitWs(tail);
      var p := SplitWs(s);
      assert p == [s[..e]] + q;
      forall k | 0 < k < |p| - 1
        ensures p[k] != []
      {
        assert p[k] == q[k - 1];
        if k == 1 {
          assert |q| > 1;
          assert WordEnd(tail, 0) < |tail|;
          assert tail != [] && !IsWs(tail[0]);
          assert WordEnd(tail, 0) > 0;
          assert q[0] == tail[..WordEnd(tail, 0)];
          assert |q[0]| > 0;
        } else {
          assert 0 < k - 1 < |q| - 1;
          assert q[k - 1] != [];
        }
      }
    }
  }

  /** A word with no whitespace splits to itself. */
  lemma SplitWsWord(a: JsString)
    requires NoWs(a)
    ensures SplitWs(a) == [a]
  {
    assert WordEnd(a, 0) == |a|;
  }

  /** Where the cuts fall: a word, a run of whitespace of any length and kind, and text
      that does not start with whitespace split into the word followed by the pieces
      of that text. With an empty word this is a leading run, which gives an empty
      first piece; with an empty text, a trailing run, which gives an empty last one. */
  lemma SplitWsRun(a: JsString, run: JsString, rest: JsString)
    requires NoWs(a) && run != [] && AllWs(run) && (rest == [] || !IsWs(rest[0]))
    ensures SplitWs(a + run + rest) == [a] + SplitWs(rest)
  {
    var s := a + run + rest;
    var r := |a| + |run|;
    assert forall k | 0 <= k < |a| :: s[k] == a[k];
    assert forall k | |a| <= k < r :: s[k] == run[k - |a|];
    assert r < |s| ==> s[r] == rest[0];
    WordEndStops(s, 0, |a|);
    RunEndStops(s, |a|, r);
    assert s[..|a|] == a && s[r..] == rest;
  }

  /** Leading whitespace gives an empty first piece and is otherwise dropped. */
  lemma SplitWsLeadingRun(run: JsString, rest: JsString)
    requires run != [] && AllWs(run) && (rest == [] || !IsWs(rest[0]))
    ensures SplitWs(run + rest) == [[]] + SplitWs(rest)
  {
    var s := run + rest;
    assert forall k | 0 <= k < |run| :: s[k] == run[k];
    assert |run| < |s| ==> s[|run|] == rest[0];
    WordEndStops(s, 0, 0);
    RunEndStops(s, 0, |run|);
    assert s[..0] == [] && s[|run|..] == rest;
  }

  /** The single-space case of `SplitWsRun`. */
  lemma SplitWsSpace(a: JsString, rest: JsString)
    requires NoWs(a) && rest != [] && !IsWs(rest[0])
    ensures SplitWs(a + [Space] + rest) == [a] + SplitWs(rest)
  {
    SplitWsRun(a, [Space], rest);
  }

  lemma {:induction false} RunEndStops(s: JsString, i: nat, e: nat)
    requires i <= e <= |s| && (e < |s| ==> !IsWs(s[e])) && forall k | i <= k < e :: IsWs(s[k])
    ensures RunEnd(s, i) == e
    decreases e - i
  {
    if i < e {
      RunEndStops(s, i + 1, e);
    }
  }

  lemma {:induction false} WordEndStops(s: JsString, i: nat, e: nat)
    requires i <= e < |s| && IsWs(s[e]) && forall k | i <= k < e :: !IsWs(s[k])
    ensures WordEnd(s, i) == e
    decreases e - i
  {
    if i < e {
      WordEndStops(s, i + 1, e);
    }
  }

  /** First position that is not whitespace. */
  function TrimStart(s: JsString): (a: nat)
    ensures a <= |s| && AllWs(s[..a]) && (a < |s| ==> !IsWs(s[a]))
  {
    RunEnd(s, 0)
  }

  /** Walking left from `j`, no further than `lo`: start of the trailing whitespace. */
  function TrimEnd(s: JsString, lo: nat, j: nat): (b: nat)
    requires lo <= j <= |s|
    ensures lo <= b <= j
    ensures forall k | b <= k < j :: IsWs(s[k])
    ensures b > lo ==> !IsWs(s[b - 1])
    decreases j
  {
    if j > lo && IsWs(s[j - 1]) then TrimEnd(s, lo, j - 1) else j
  }

  /** `s.trim()`: `s` without its leading and trailing whitespace. */
  function Trim(s: JsString): (r: JsString)
    ensures r == [] || (!IsWs(r[0]) && !IsWs(r[|r| - 1]))
    ensures r == [] <==> AllWs(s)
    ensures |r| <= |s|
    ensures exists a | 0 <= a <= |s| - |r| :: s[a..a + |r|] == r && AllWs(s[..a]) && AllWs(s[a + |r|..])
  {
    var a := TrimStart(s);
    var b := TrimEnd(s, a, |s|);
    assert AllWs(s[b..]);
    assert a == b ==> a == |s| && s[..a] == s;
    assert s[a..a + |s[a..b]|] == s[a..b];
    s[a..b]
  }
}
