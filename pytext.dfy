/** The Python `str` and `re` behaviour the chunker depends on, written out:
    `str.isspace` (also what `\s` matches in a `str` pattern), `str.strip`,
    `str.endswith`, the `in` operator on strings, `sorted` on strings, and the
    backtracking outcome of the line-anchored patterns the chunker uses. */
module PyText {
  import opened Wrappers

  /** `str.isspace()` for one character: the characters Python classes as
      whitespace (bidirectional class WS, B or S, or category Zs). */
  predicate IsSpace(c: char) {
    var n := c as int;
    || (0x09 <= n <= 0x0D) || (0x1C <= n <= 0x20) || n == 0x85 || n == 0xA0
    || n == 0x1680 || (0x2000 <= n <= 0x200A) || n == 0x2028 || n == 0x2029
    || n == 0x202F || n == 0x205F || n == 0x3000
  }

  predicate AllSpace(s: string) {
    forall k | 0 <= k < |s| :: IsSpace(s[k])
  }

  /** No leading and no trailing whitespace. */
  predicate IsStripped(s: string) {
    s == [] || (!IsSpace(s[0]) && !IsSpace(s[|s| - 1]))
  }

  /** First position at or after `i` that does not hold whitespace. */
  function LeadEnd(s: string, i: nat): (r: nat)
    requires i <= |s|
    ensures i <= r <= |s|
    ensures forall k | i <= k < r :: IsSpace(s[k])
    ensures r < |s| ==> !IsSpace(s[r])
    decreases |s| - i
  {
    if i < |s| && IsSpace(s[i]) then LeadEnd(s, i + 1) else i
  }

  /** Walking left from `j`, no further than `lo`: the start of the whitespace run ending at `j`. */
  function TrailStart(s: string, lo: nat, j: nat): (r: nat)
    requires lo <= j <= |s|
    ensures lo <= r <= j
    ensures forall k | r <= k < j :: IsSpace(s[k])
    ensures r > lo ==> !IsSpace(s[r - 1])
    decreases j
  {
    if j > lo && IsSpace(s[j - 1]) then TrailStart(s, lo, j - 1) else j
  }

  /** `s.strip()`: the text between the leading and the trailing whitespace. */
  function Strip(s: string): (r: string)
    ensures IsStripped(r)
    ensures r == [] <==> AllSpace(s)
    ensures IsStripped(s) ==> r == s
    ensures |r| <= |s|
  {
    var a := LeadEnd(s, 0);
    var b := TrailStart(s, a, |s|);
    assert AllSpace(s[..a]) && AllSpace(s[b..]);
    assert a == b ==> a == |s| && s[..a] == s;
    assert IsStripped(s) && |s| > 0 ==> a == 0 && b == |s|;
    s[a..b]
  }

  /** What `strip` keeps is the slice of `s` from its first non-whitespace character
      on, and only whitespace surrounds it. */
  lemma StripSlice(s: string)
    ensures var a := LeadEnd(s, 0);
      && a + |Strip(s)| <= |s|
      && Strip(s) == s[a..a + |Strip(s)|]
      && AllSpace(s[..a]) && AllSpace(s[a + |Strip(s)|..])
  {
    var a := LeadEnd(s, 0);
    var b := TrailStart(s, a, |s|);
    assert AllSpace(s[..a]) && AllSpace(s[b..]);
  }

  predicate EndsWith(s: string, suffix: string) {
    |suffix| <= |s| && s[|s| - |suffix|..] == suffix
  }

  /** Python's `sub in s`. */
  predicate Contains(s: string, sub: string) {
    exists k | 0 <= k <= |s| - |sub| :: OccursAt(s, sub, k)
  }

  predicate OccursAt(s: string, sub: string, k: nat) {
    k + |sub| <= |s| && s[k..k + |sub|] == sub
  }

  /** The end of the line that contains position `i`: the next '\n' or the end of `t`.
      This is where a greedy `.+` stops and where `$` matches under MULTILINE. */
  function LineEnd(t: string, i: nat): (r: nat)
    requires i <= |t|
    ensures i <= r <= |t|
    ensures forall k | i <= k < r :: t[k] != '\n'
    ensures r < |t| ==> t[r] == '\n'
    decreases |t| - i
  {
    if i < |t| && t[i] != '\n' then LineEnd(t, i + 1) else i
  }

  /** First position at or after `i` that is not a '\n' (where a greedy `\n*` stops). */
  function SkipNewlines(t: string, i: nat): (r: nat)
    requires i <= |t|
    ensures i <= r <= |t|
    ensures forall k | i <= k < r :: t[k] == '\n'
    ensures r < |t| ==> t[r] != '\n'
    decreases |t| - i
  {
    if i < |t| && t[i] == '\n' then SkipNewlines(t, i + 1) else i
  }

  /** `t[lo..hi]` is nothing but whitespace. */
  predicate SpaceBetween(t: string, lo: nat, hi: nat)
    requires lo <= hi <= |t|
  {
    forall k | lo <= k < hi :: IsSpace(t[k])
  }

  /** The candidate group starts `e`, `e - 1`, ..., `start + 1` that the regex engine
      tries, in that order, when `\s+` backtracks before `.+`. */
  function Backtrack(t: string, start: nat, e: nat): (g: Option<nat>)
    requires start <= e <= |t| && SpaceBetween(t, start, e)
    ensures g.Some? ==> start < g.value <= e && g.value < |t| && t[g.value] != '\n'
    ensures g.Some? ==> forall j | g.value < j <= e && j < |t| :: t[j] == '\n'
    ensures g.None? ==> forall j | start < j <= e && j < |t| :: t[j] == '\n'
    decreases e
  {
    if e <= start then None
    else if e < |t| && t[e] != '\n' then Some(e)
    else Backtrack(t, start, e - 1)
  }

  /** The outcome of matching `\s+(.+)` (optionally followed by `$` under MULTILINE, which
      always holds where a greedy `.+` stops) at position `start` of `t`: the start of
      the captured group. It is the LARGEST `g > start` such that `t[start..g]` is all
      whitespace and `t[g]` is a character other than '\n'; there is no match when no
      such `g` exists. Since `\s` matches '\n', the group may begin on a later line. */
  function SpacesThenLine(t: string, start: nat): (g: Option<nat>)
    requires start <= |t|
    ensures g.Some? ==> start < g.value < |t| && SpaceBetween(t, start, g.value) && t[g.value] != '\n'
    ensures g.Some? ==> forall j | g.value < j < |t| && SpaceBetween(t, start, j) :: t[j] == '\n'
    ensures g.None? ==> forall j | start < j < |t| && SpaceBetween(t, start, j) :: t[j] == '\n'
  {
    var e := LeadEnd(t, start);
    assert forall j | e < j <= |t| :: !SpaceBetween(t, start, j) by {
      forall j | e < j <= |t| ensures !SpaceBetween(t, start, j) {
        assert !IsSpace(t[e]);
      }
    }
    Backtrack(t, start, e)
  }

  /** Python's ordering of strings: lexicographic by code point, a proper prefix first. */
  predicate LexLe(a: string, b: string)
    decreases |a|
  {
    a == [] || (b != [] && (a[0] < b[0] || (a[0] == b[0] && LexLe(a[1..], b[1..]))))
  }

  lemma {:induction false} LexLeTotal(a: string, b: string)
    ensures LexLe(a, b) || LexLe(b, a)
    decreases |a|
  {
    if a != [] && b != [] && a[0] == b[0] {
      LexLeTotal(a[1..], b[1..]);
    }
  }
}
