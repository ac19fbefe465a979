/** Model of the markdown chunker (cli/sift_search/chunker.py): one document's text
    becomes an ordered list of titled passages, and a walked directory becomes the
    concatenation of its markdown files' passages. Reading files and walking the
    directory are inputs: a document is its text and its path relative to the
    content directory, a directory walk is the sequence of listings os.walk yields. */
module Chunker {
  import opened Wrappers
  import opened PyText

  datatype Chunk = Chunk(url: string, title: string, content: string)

  /** Bodies shorter than this are dropped; packed buffers shorter than this are discarded. */
  const MinContent: nat := 30
  /** Bodies longer than this are re-packed paragraph by paragraph. */
  const MaxSection: nat := 1000
  /** Soft ceiling of a packed buffer: `len(buf) + len(para)` may not exceed it. */
  const PackCeiling: nat := 800

  // ---------------------------------------------------------------------------
  // URL and document title

  /** `s.replace(from, to)` for single characters. */
  function ReplaceChar(s: string, from: char, to: char): (r: string)
    ensures |r| == |s|
    ensures forall k | 0 <= k < |s| :: r[k] == (if s[k] == from then to else s[k])
  {
    if s == [] then [] else [if s[0] == from then to else s[0]] + ReplaceChar(s[1..], from, to)
  }

  /** The url of a document: separators normalised to '/', one trailing ".md" removed. */
  function Url(relPath: string, sep: char): string {
    var u := ReplaceChar(relPath, sep, '/');
    if EndsWith(u, ".md") then u[..|u| - 3] else u
  }

  /** The url keeps every character of the relative path, with `sep` turned into '/',
      except exactly three trailing characters when the normalised path ends in ".md". */
  lemma UrlShape(relPath: string, sep: char)
    ensures var n := if EndsWith(ReplaceChar(relPath, sep, '/'), ".md") then 3 else 0;
      && |Url(relPath, sep)| == |relPath| - n
      && forall k | 0 <= k < |relPath| - n ::
           Url(relPath, sep)[k] == (if relPath[k] == sep then '/' else relPath[k])
  {
  }

  /** ".md" is removed once only: the url still ends in ".md" exactly when the
      normalised path ended in ".md.md". */
  lemma UrlStripsExtensionOnce(relPath: string, sep: char)
    ensures EndsWith(Url(relPath, sep), ".md") <==> EndsWith(ReplaceChar(relPath, sep, '/'), ".md.md")
  {
    StripExtensionOnce(ReplaceChar(relPath, sep, '/'));
  }

  lemma StripExtensionOnce(u: string)
    ensures EndsWith(if EndsWith(u, ".md") then u[..|u| - 3] else u, ".md") <==> EndsWith(u, ".md.md")
  {
    if EndsWith(u, ".md") {
      var v := u[..|u| - 3];
      if EndsWith(v, ".md") {
        assert u[|u| - 6..] == v[|v| - 3..] + u[|u| - 3..];
      }
      if EndsWith(u, ".md.md") {
        assert v[|v| - 3..] == u[|u| - 6..|u| - 3];
      }
    } else {
      assert |u| >= 6 ==> u[|u| - 6..][3..] == u[|u| - 3..];
    }
  }

  /** Index of the last occurrence of `c` in `s`. */
  function LastIndex(s: string, c: char): (r: Option<nat>)
    ensures r.Some? ==> r.value < |s| && s[r.value] == c && forall k | r.value < k < |s| :: s[k] != c
    ensures r.None? ==> forall k | 0 <= k < |s| :: s[k] != c
  {
    if s == [] then None
    else if s[|s| - 1] == c then Some(|s| - 1)
    else LastIndex(s[..|s| - 1], c)
  }

  /** The file name: what follows the last separator of the path. */
  function BaseName(path: string, sep: char): string {
    match LastIndex(path, sep)
    case Some(i) => path[i + 1..]
    case None => path
  }

  predicate AllDots(s: string) {
    forall k | 0 <= k < |s| :: s[k] == '.'
  }

  /** `os.path.splitext(name)[0]`: the name without its last extension; leading dots do
      not start an extension, so ".md" keeps its name. */
  function Stem(name: string): string {
    match LastIndex(name, '.')
    case Some(d) => if AllDots(name[..d]) then name else name[..d]
    case None => name
  }

  /** `re.match(r"^#\s+(.+)$", text, re.MULTILINE)`: the captured group, if any.
      `re.match` anchors at position 0, so only a '#' at the very start of the text counts. */
  function H1Group(text: string): Option<string> {
    if |text| > 0 && text[0] == '#' then
      match SpacesThenLine(text, 1)
      case Some(g) => Some(text[g..LineEnd(text, g)])
      case None => None
    else None
  }

  /** The document title: the stripped H1 group, otherwise the file name's stem. */
  function DocTitle(text: string, fileName: string): string {
    match H1Group(text)
    case Some(h) => Strip(h)
    case None => Stem(fileName)
  }

  /** When the text starts with '#' and whitespace and then some text, the title is that
      text up to the end of its line, stripped. The whitespace may include newlines, in
      which case the title comes from the first non-blank line after the '#'. */
  lemma DocTitleFromHeading(text: string, fileName: string)
    requires |text| >= 2 && text[0] == '#' && IsSpace(text[1])
    requires LeadEnd(text, 1) < |text|
    ensures var e := LeadEnd(text, 1);
      DocTitle(text, fileName) == Strip(text[e..LineEnd(text, e)])
  {
    var e := LeadEnd(text, 1);
    assert SpacesThenLine(text, 1) == Backtrack(text, 1, e);
  }

  /** Without a leading '#' followed by whitespace, the title is the file name's stem.
      A '#' followed by nothing but whitespace gives an empty title when a character
      other than '\n' comes after the first whitespace character (`.+` then matches
      whitespace), and the stem when only newlines do. */
  lemma DocTitleOtherwise(text: string, fileName: string)
    ensures (|text| < 2 || text[0] != '#' || !IsSpace(text[1])) ==> DocTitle(text, fileName) == Stem(fileName)
    ensures |text| >= 1 && text[0] == '#' && AllSpace(text[1..]) ==>
      && ((exists j | 2 <= j < |text| :: text[j] != '\n') ==> DocTitle(text, fileName) == "")
      && ((forall j | 2 <= j < |text| :: text[j] == '\n') ==> DocTitle(text, fileName) == Stem(fileName))
  {
    if |text| >= 1 && text[0] == '#' && AllSpace(text[1..]) {
      if exists j | 2 <= j < |text| :: text[j] != '\n' {
        var j :| 2 <= j < |text| && text[j] != '\n';
        assert SpaceBetween(text, 1, j) by {
          forall k | 1 <= k < j ensures IsSpace(text[k]) {
            assert text[k] == text[1..][k - 1];
          }
        }
        assert SpacesThenLine(text, 1).Some?;
      }
    }
    DocTitleCases(text, fileName);
  }

  lemma DocTitleCases(text: string, fileName: string)
    ensures (|text| < 2 || text[0] != '#' || !IsSpace(text[1])) ==> DocTitle(text, fileName) == Stem(fileName)
    ensures |text| >= 1 && text[0] == '#' && AllSpace(text[1..]) ==>
      DocTitle(text, fileName) == (if SpacesThenLine(text, 1).Some? then "" else Stem(fileName))
  {
    if |text| >= 1 && text[0] == '#' && AllSpace(text[1..]) {
      match SpacesThenLine(text, 1)
      case Some(g) =>
        var h := text[g..LineEnd(text, g)];
        assert forall k | 0 <= k < |h| :: h[k] == text[1..][g - 1 + k];
        assert AllSpace(h);
      case None =>
    }
  }

  // ---------------------------------------------------------------------------
  // Splitting a document into sections

  /** A level-2 or level-3 heading starts at `p`: the lookahead `(?=^#{2,3}\s+)`
      under MULTILINE — a line start, two or three '#', then whitespace. */
  predicate HeadingAt(t: string, p: nat) {
    && p + 2 < |t|
    && (p == 0 || t[p - 1] == '\n')
    && t[p] == '#' && t[p + 1] == '#'
    && (IsSpace(t[p + 2]) || (t[p + 2] == '#' && p + 3 < |t| && IsSpace(t[p + 3])))
  }

  /** All heading positions at or after `from`, in increasing order. */
  function HeadingsFrom(t: string, from: nat): (ps: seq<nat>)
    requires from <= |t|
    ensures forall p :: p in ps <==> from <= p < |t| && HeadingAt(t, p)
    ensures forall i | 0 <= i < |ps| :: from <= ps[i] < |t|
    ensures forall i, j | 0 <= i < j < |ps| :: ps[i] < ps[j]
    decreases |t| - from
  {
    if from == |t| then []
    else if HeadingAt(t, from) then [from] + HeadingsFrom(t, from + 1)
    else HeadingsFrom(t, from + 1)
  }

  /** The first heading position at or after `from`, or `|t|`. */
  function NextHeading(t: string, from: nat): (q: nat)
    requires from <= |t|
    ensures from <= q <= |t|
    ensures q < |t| ==> HeadingAt(t, q)
    ensures forall p | from <= p < q :: !HeadingAt(t, p)
    decreases |t| - from
  {
    if from == |t| || HeadingAt(t, from) then from else NextHeading(t, from + 1)
  }

  /** The pieces `re.split` produces from position `start` on: each runs up to the next
      heading position strictly after its own start. */
  function PiecesFrom(t: string, start: nat): seq<string>
    requires start <= |t|
    decreases |t| - start
  {
    var q := if start < |t| then NextHeading(t, start + 1) else |t|;
    if q == |t| then [t[start..]] else [t[start..q]] + PiecesFrom(t, q)
  }

  /** `re.split(r"(?=^#{2,3}\s+)", text, flags=re.MULTILINE)`: the zero-width match at a
      heading on the first line yields an empty leading piece. */
  function Sections(t: string): seq<string> {
    if HeadingAt(t, 0) then [""] + PiecesFrom(t, 0) else PiecesFrom(t, 0)
  }

  /** The cut points of the split: 0, every heading position, and the end. */
  function Bounds(t: string): seq<nat> {
    [0] + HeadingsFrom(t, 0) + [|t|]
  }

  lemma {:induction false} HeadingsFromSkip(t: string, from: nat, q: nat)
    requires from <= q <= |t|
    requires forall p | from <= p < q :: !HeadingAt(t, p)
    ensures HeadingsFrom(t, from) == HeadingsFrom(t, q)
    decreases q - from
  {
    if from < q {
      HeadingsFromSkip(t, from + 1, q);
    }
  }

  /** The cut points from `start` on: `start`, each heading after it, the end. */
  function CutsFrom(t: string, start: nat): seq<nat>
    requires start <= |t|
  {
    [start] + (if start < |t| then HeadingsFrom(t, start + 1) else []) + [|t|]
  }

  /** Past `start`, the first cut after it is the next heading; the rest are those of
      that heading. */
  lemma CutsFromStep(t: string, start: nat)
    requires start < |t|
    ensures var q := NextHeading(t, start + 1);
      && (q < |t| ==> CutsFrom(t, start) == [start] + CutsFrom(t, q))
      && (q < |t| ==> PiecesFrom(t, start) == [t[start..q]] + PiecesFrom(t, q))
      && (q == |t| ==> CutsFrom(t, start) == [start, |t|] && PiecesFrom(t, start) == [t[start..]])
  {
    var q := NextHeading(t, start + 1);
    HeadingsFromSkip(t, start + 1, q);
    if q < |t| {
      CutsCons(t, start, q);
    } else {
      assert HeadingsFrom(t, q) == [];
    }
  }

  lemma CutsCons(t: string, start: nat, q: nat)
    requires start < q < |t| && HeadingsFrom(t, start + 1) == HeadingsFrom(t, q) && HeadingAt(t, q)
    ensures CutsFrom(t, start) == [start] + CutsFrom(t, q)
  {
    var rest := HeadingsFrom(t, q + 1);
    assert HeadingsFrom(t, q) == [q] + rest;
    calc {
      CutsFrom(t, start);
      [start] + ([q] + rest) + [|t|];
      [start] + ([q] + rest + [|t|]);
      [start] + CutsFrom(t, q);
    }
  }

  lemma {:induction false} PiecesFromCount(t: string, start: nat)
    requires start <= |t|
    ensures |PiecesFrom(t, start)| == |CutsFrom(t, start)| - 1
    ensures forall i | 0 <= i < |CutsFrom(t, start)| :: start <= CutsFrom(t, start)[i] <= |t|
    decreases |t| - start
  {
    if start < |t| {
      var q := NextHeading(t, start + 1);
      CutsFromStep(t, start);
      if q < |t| {
        PiecesFromCount(t, q);
      }
    }
  }

  lemma {:induction false} PieceAt(t: string, start: nat, i: nat)
    requires start <= |t| && i < |PiecesFrom(t, start)|
    ensures i + 1 < |CutsFrom(t, start)| && CutsFrom(t, start)[i + 1] <= |t|
    ensures CutsFrom(t, start)[i] <= CutsFrom(t, start)[i + 1]
      && PiecesFrom(t, start)[i] == t[CutsFrom(t, start)[i]..CutsFrom(t, start)[i + 1]]
    decreases i
  {
    PiecesFromCount(t, start);
    if start < |t| {
      var q := NextHeading(t, start + 1);
      CutsFromStep(t, start);
      if q < |t| && i > 0 {
        PieceAt(t, q, i - 1);
      }
    }
  }

  lemma PiecesFromBounds(t: string, start: nat)
    requires start <= |t|
    ensures |PiecesFrom(t, start)| == |CutsFrom(t, start)| - 1
    ensures forall i | 0 <= i < |CutsFrom(t, start)| :: start <= CutsFrom(t, start)[i] <= |t|
    ensures forall i | 0 <= i < |PiecesFrom(t, start)| ::
      CutsFrom(t, start)[i] <= CutsFrom(t, start)[i + 1]
      && PiecesFrom(t, start)[i] == t[CutsFrom(t, start)[i]..CutsFrom(t, start)[i + 1]]
  {
    PiecesFromCount(t, start);
    forall i | 0 <= i < |PiecesFrom(t, start)|
      ensures CutsFrom(t, start)[i] <= CutsFrom(t, start)[i + 1]
        && PiecesFrom(t, start)[i] == t[CutsFrom(t, start)[i]..CutsFrom(t, start)[i + 1]]
    {
      PieceAt(t, start, i);
    }
  }

  /** The cut points of the whole text are those from 0, with 0 listed twice when a
      heading opens the text (the empty leading piece). */
  lemma BoundsAsCuts(t: string)
    ensures HeadingAt(t, 0) ==> Bounds(t) == [0] + CutsFrom(t, 0)
    ensures !HeadingAt(t, 0) ==> Bounds(t) == CutsFrom(t, 0)
  {
    if HeadingAt(t, 0) {
      assert HeadingsFrom(t, 0) == [0] + HeadingsFrom(t, 1);
    } else if |t| > 0 {
      assert HeadingsFrom(t, 0) == HeadingsFrom(t, 1);
    }
  }

  lemma SectionsAreSlices(t: string)
    ensures |Sections(t)| == |Bounds(t)| - 1
    ensures forall i | 0 <= i < |Bounds(t)| :: Bounds(t)[i] <= |t|
    ensures forall i | 0 <= i < |Sections(t)| ::
      Bounds(t)[i] <= Bounds(t)[i + 1] && Sections(t)[i] == t[Bounds(t)[i]..Bounds(t)[i + 1]]
  {
    var b := Bounds(t);
    var c := CutsFrom(t, 0);
    var ps := PiecesFrom(t, 0);
    var ss := Sections(t);
    PiecesFromBounds(t, 0);
    BoundsAsCuts(t);
    if HeadingAt(t, 0) {
      forall i | 0 <= i < |b| ensures b[i] <= |t| {
        if i > 0 { assert b[i] == c[i - 1]; }
      }
      forall i | 0 <= i < |ss| ensures b[i] <= b[i + 1] && ss[i] == t[b[i]..b[i + 1]] {
        if i > 0 {
          assert ss[i] == ps[i - 1] && b[i] == c[i - 1] && b[i + 1] == c[i];
        }
      }
    }
  }

  lemma BoundsOrdered(t: string)
    ensures forall x, y | 0 <= x < y < |Bounds(t)| :: Bounds(t)[x] <= Bounds(t)[y]
  {
    var b := Bounds(t);
    var hs := HeadingsFrom(t, 0);
    forall x, y | 0 <= x < y < |b| ensures b[x] <= b[y] {
      if 0 < x && y < |b| - 1 {
        assert b[x] == hs[x - 1] && b[y] == hs[y - 1];
      } else if 0 < x {
        assert b[x] == hs[x - 1];
      }
    }
  }

  lemma BoundsAtHeadings(t: string)
    ensures forall i | 0 < i < |Bounds(t)| - 1 :: HeadingAt(t, Bounds(t)[i])
  {
    var b := Bounds(t);
    var hs := HeadingsFrom(t, 0);
    forall i | 0 < i < |b| - 1 ensures HeadingAt(t, b[i]) {
      assert b[i] == hs[i - 1] && hs[i - 1] in hs;
    }
  }

  lemma NoHeadingInsideBounds(t: string)
    ensures forall i, p | 0 <= i < |Bounds(t)| - 1 && Bounds(t)[i] < p < Bounds(t)[i + 1] :: !HeadingAt(t, p)
  {
    var b := Bounds(t);
    var hs := HeadingsFrom(t, 0);
    BoundsOrdered(t);
    forall i, p | 0 <= i < |b| - 1 && 0 <= p < |t| && HeadingAt(t, p) ensures p <= b[i] || b[i + 1] <= p {
      assert p in hs;
      var j :| 0 <= j < |hs| && hs[j] == p;
      assert b[j + 1] == p;
    }
  }

  /** The split cuts the text exactly before every heading and nowhere else: piece `i`
      is the text between consecutive cut points, every piece but the first begins at
      a heading, and no heading begins strictly inside a piece. */
  lemma SectionsCutAtHeadings(t: string)
    ensures |Sections(t)| == |Bounds(t)| - 1
    ensures forall i | 0 <= i < |Bounds(t)| :: Bounds(t)[i] <= |t|
    ensures forall i | 0 <= i < |Sections(t)| ::
      Bounds(t)[i] <= Bounds(t)[i + 1] && Sections(t)[i] == t[Bounds(t)[i]..Bounds(t)[i + 1]]
    ensures forall i | 0 < i < |Sections(t)| :: HeadingAt(t, Bounds(t)[i])
    ensures forall i, p | 0 <= i < |Sections(t)| && Bounds(t)[i] < p < Bounds(t)[i + 1] :: !HeadingAt(t, p)
    ensures forall x, y | 0 <= x < y < |Bounds(t)| :: Bounds(t)[x] <= Bounds(t)[y]
  {
    SectionsAreSlices(t);
    BoundsOrdered(t);
    BoundsAtHeadings(t);
    NoHeadingInsideBounds(t);
  }

  /** Nothing is lost by the split: the pieces concatenate back to the text. */
  function Concat(ps: seq<string>): string {
    if ps == [] then [] else ps[0] + Concat(ps[1..])
  }

  lemma {:induction false} PiecesFromConcat(t: string, start: nat)
    requires start <= |t|
    ensures Concat(PiecesFrom(t, start)) == t[start..]
    decreases |t| - start
  {
    var q := if start < |t| then NextHeading(t, start + 1) else |t|;
    if q < |t| {
      PiecesFromConcat(t, q);
      assert t[start..q] + t[q..] == t[start..];
    }
  }

  lemma SectionsConcat(t: string)
    ensures Concat(Sections(t)) == t
  {
    PiecesFromConcat(t, 0);
    if HeadingAt(t, 0) {
      assert Concat(Sections(t)) == "" + Concat(PiecesFrom(t, 0));
    }
  }

  // ---------------------------------------------------------------------------
  // Title and body of one section

  datatype Header = Header(level: nat, textStart: nat, lineEnd: nat)

  /** `re.match(r"^(#{2,3})\s+(.+)$", section, re.MULTILINE)`: `#{2,3}` tries three
      '#' before two; the title group runs from `textStart` to the end of its line. */
  function HeaderMatch(s: string): (h: Option<Header>)
    ensures h.Some? ==> var v := h.value;
      && (v.level == 2 || v.level == 3)
      && v.level < v.textStart < v.lineEnd <= |s|
      && (forall k | 0 <= k < v.level :: s[k] == '#')
      && SpaceBetween(s, v.level, v.textStart)
      && (forall k | v.textStart <= k < v.lineEnd :: s[k] != '\n')
      && (v.lineEnd < |s| ==> s[v.lineEnd] == '\n')
    ensures h.None? && |s| >= 3 && s[0] == '#' && s[1] == '#' && IsSpace(s[2]) ==>
      forall j | 2 < j < |s| && SpaceBetween(s, 2, j) :: s[j] == '\n'
  {
    var three := if |s| >= 3 && s[0] == '#' && s[1] == '#' && s[2] == '#' then SpacesThenLine(s, 3) else None;
    if three.Some? then Some(Header(3, three.value, LineEnd(s, three.value)))
    else if |s| >= 2 && s[0] == '#' && s[1] == '#' then
      match SpacesThenLine(s, 2)
      case Some(g) => Some(Header(2, g, LineEnd(s, g)))
      case None => None
    else None
  }

  datatype Parsed = Parsed(title: string, body: string)

  /** Title and raw body of a stripped section: the heading text and what follows its
      line when the section opens with a heading, else the document title and all of it. */
  function ParseSection(section: string, docTitle: string): Parsed {
    match HeaderMatch(section)
    case Some(h) => Parsed(Strip(section[h.textStart..h.lineEnd]), Strip(section[h.lineEnd..]))
    case None => Parsed(docTitle, section)
  }

  /** `re.sub(r"^#\s+.+\n*", "", body)`: without MULTILINE, `^` is the start of the body
      only, so at most one leading H1 line (and the newlines after it) goes. */
  function StripH1(b: string): (r: string)
    ensures |r| <= |b| && r == b[|b| - |r|..]
    ensures (|b| < 2 || b[0] != '#' || !IsSpace(b[1])) ==> r == b
  {
    if |b| > 0 && b[0] == '#' then
      match SpacesThenLine(b, 1)
      case Some(g) => b[SkipNewlines(b, LineEnd(b, g))..]
      case None => b
    else b
  }

  /** What `re.sub(r"^#\s+.+\n*", "", b)` removes. Nothing, unless the body starts with
      '#' and some character other than '\n' comes after a run of whitespace. Otherwise
      the removed prefix is '#', the whitespace before the latest such character `g`
      (the backtracking of `\s+`), the rest of `g`'s line (`.+`), and every newline
      after it (`\n*`); what is left does not start with a newline. */
  lemma StripH1Spec(b: string)
    ensures var n := |b| - |StripH1(b)|;
      && StripH1(b) == b[n..]
      && (n == 0 <==> !(|b| > 0 && b[0] == '#' && exists g | 1 < g < |b| :: SpaceBetween(b, 1, g) && b[g] != '\n'))
      && (n > 0 ==> b[0] == '#')
      && (0 < n < |b| ==> b[n] != '\n')
      && (n > 0 ==> exists g | 1 < g < |b| ::
            && SpaceBetween(b, 1, g) && b[g] != '\n'
            && (forall j | g < j < |b| && SpaceBetween(b, 1, j) :: b[j] == '\n')
            && n == SkipNewlines(b, LineEnd(b, g)))
  {
    if |b| > 0 && b[0] == '#' {
      match SpacesThenLine(b, 1)
      case Some(g) =>
        var n := SkipNewlines(b, LineEnd(b, g));
        assert StripH1(b) == b[n..];
        assert |b| - |StripH1(b)| == n;
      case None =>
    }
  }

  /** A body that opens with "# ", then a line starting with a non-whitespace
      character, then one or more newlines (or nothing), loses exactly that line and those newlines; the rest is
      kept whatever it holds, a second "# " line included. */
  lemma StripH1OneLine(line: string, newlines: string, rest: string)
    requires line != [] && !IsSpace(line[0]) && forall k | 0 <= k < |line| :: line[k] != '\n'
    requires forall k | 0 <= k < |newlines| :: newlines[k] == '\n'
    requires newlines != [] || rest == []
    requires rest == [] || rest[0] != '\n'
    ensures StripH1("# " + line + newlines + rest) == rest
  {
    var b := "# " + line + newlines + rest;
    var e := 2 + |line|;
    var n := e + |newlines|;
    assert b[0] == '#' && b[1] == ' ' && b[2] == line[0];
    assert forall k | 2 <= k < e :: b[k] == line[k - 2];
    assert forall k | e <= k < n :: b[k] == newlines[k - e];
    assert n < |b| ==> b[n] == rest[0];
    assert e < |b| ==> b[e] == '\n';
    assert LeadEnd(b, 1) == 2;
    assert SpacesThenLine(b, 1) == Some(2);
    LineEndAt(b, 2, e);
    SkipNewlinesAt(b, e, n);
    assert b[n..] == rest;
  }

  /** The body "# A\n# B\nccc" keeps its second H1 line. */
  lemma StripH1KeepsSecondHeading()
    ensures StripH1("# A\n# B\nccc") == "# B\nccc"
  {
    StripH1OneLine("A", "\n", "# B\nccc");
    assert "# " + "A" + "\n" + "# B\nccc" == "# A\n# B\nccc";
  }

  lemma {:induction false} LineEndAt(t: string, i: nat, e: nat)
    requires i <= e <= |t| && (e < |t| ==> t[e] == '\n') && forall k | i <= k < e :: t[k] != '\n'
    ensures LineEnd(t, i) == e
    decreases e - i
  {
    if i < e {
      LineEndAt(t, i + 1, e);
    }
  }

  lemma {:induction false} SkipNewlinesAt(t: string, i: nat, e: nat)
    requires i <= e <= |t| && (e < |t| ==> t[e] != '\n') && forall k | i <= k < e :: t[k] == '\n'
    ensures SkipNewlines(t, i) == e
    decreases e - i
  {
    if i < e {
      SkipNewlinesAt(t, i + 1, e);
    }
  }

  // ---------------------------------------------------------------------------
  // Paragraph packing

  /** The first `k >= i` where a blank line `"\n\n"` begins, or `|b|`. */
  function FindBlankLine(b: string, i: nat): (r: nat)
    requires i <= |b|
    ensures i <= r <= |b|
    ensures r < |b| ==> BlankAt(b, r)
    ensures forall k | i <= k < r :: !BlankAt(b, k)
    decreases |b| - i
  {
    if i + 1 >= |b| then |b|
    else if BlankAt(b, i) then i
    else FindBlankLine(b, i + 1)
  }

  /** A blank line, `"\n\n"`, begins at `k`. */
  predicate BlankAt(s: string, k: nat) {
    k + 1 < |s| && s[k] == '\n' && s[k + 1] == '\n'
  }

  predicate HasBlankLine(s: string) {
    exists k | 0 <= k < |s| :: BlankAt(s, k)
  }

  /** `re.split(r"\n\n+", b)`: cut at every maximal run of two or more newlines. */
  function SplitParagraphs(b: string): (ps: seq<string>)
    ensures |ps| >= 1
    ensures forall i | 0 <= i < |ps| :: !HasBlankLine(ps[i])
    decreases |b|
  {
    var k := FindBlankLine(b, 0);
    if k == |b| then [b]
    else
      assert !HasBlankLine(b[..k]) by {
        forall j | 0 <= j < k ensures !BlankAt(b[..k], j) {
          assert !BlankAt(b, j);
        }
      }
      [b[..k]] + SplitParagraphs(b[SkipNewlines(b, k)..])
  }

  /** The newline runs the split cuts at, in order. */
  function ParagraphGaps(b: string): seq<string>
    decreases |b|
  {
    var k := FindBlankLine(b, 0);
    if k == |b| then [] else [b[k..SkipNewlines(b, k)]] + ParagraphGaps(b[SkipNewlines(b, k)..])
  }

  /** Two or more newlines: what `\n\n+` matches. */
  predicate NewlineRun(s: string) {
    |s| >= 2 && forall k | 0 <= k < |s| :: s[k] == '\n'
  }

  /** The pieces with the gaps between them: `ps[0] + gs[0] + ps[1] + ... + ps[|gs|]`. */
  function Weave(ps: seq<string>, gs: seq<string>): string
    requires |ps| == |gs| + 1
    decreases |gs|
  {
    if gs == [] then ps[0] else ps[0] + gs[0] + Weave(ps[1..], gs[1..])
  }

  /** Splitting loses only the separators: the paragraphs, put back together with the
      runs of two or more newlines between them, are the body. */
  lemma {:induction false} SplitParagraphsKeepsText(b: string)
    ensures |SplitParagraphs(b)| == |ParagraphGaps(b)| + 1
    ensures forall i | 0 <= i < |ParagraphGaps(b)| :: NewlineRun(ParagraphGaps(b)[i])
    ensures Weave(SplitParagraphs(b), ParagraphGaps(b)) == b
    decreases |b|
  {
    var k := FindBlankLine(b, 0);
    if k < |b| {
      var r := SkipNewlines(b, k);
      ParagraphStep(b);
      SplitParagraphsKeepsText(b[r..]);
      WeaveCons(b[..k], b[k..r], SplitParagraphs(b[r..]), ParagraphGaps(b[r..]));
      RunsCons(b[k..r], ParagraphGaps(b[r..]));
    }
  }

  /** One cut of the split: the text before the first blank line, the newline run
      there, and the split of what follows. */
  lemma ParagraphStep(b: string)
    requires FindBlankLine(b, 0) < |b|
    ensures var k := FindBlankLine(b, 0);
      var r := SkipNewlines(b, k);
      && SplitParagraphs(b) == [b[..k]] + SplitParagraphs(b[r..])
      && ParagraphGaps(b) == [b[k..r]] + ParagraphGaps(b[r..])
      && NewlineRun(b[k..r])
      && b == b[..k] + b[k..r] + b[r..]
  {
    var k := FindBlankLine(b, 0);
    ParagraphGapAt(b, k, SkipNewlines(b, k));
  }

  /** The newlines from a blank line to the next other character form a run, and the
      text is what comes before it, the run, and what comes after. */
  lemma ParagraphGapAt(b: string, k: nat, r: nat)
    requires BlankAt(b, k) && r == SkipNewlines(b, k)
    ensures NewlineRun(b[k..r]) && b == b[..k] + b[k..r] + b[r..]
  {
    assert r >= k + 2;
    var g := b[k..r];
    assert forall j | 0 <= j < |g| :: g[j] == b[k + j];
    assert b[..k] + g == b[..r];
    assert b[..r] + b[r..] == b;
  }

  lemma RunsCons(g: string, gs: seq<string>)
    requires NewlineRun(g) && forall i | 0 <= i < |gs| :: NewlineRun(gs[i])
    ensures forall i | 0 <= i < |[g] + gs| :: NewlineRun(([g] + gs)[i])
  {
  }

  lemma WeaveCons(p: string, g: string, ps: seq<string>, gs: seq<string>)
    requires |ps| == |gs| + 1
    ensures Weave([p] + ps, [g] + gs) == p + g + Weave(ps, gs)
  {
    assert ([p] + ps)[1..] == ps && ([g] + gs)[1..] == gs;
  }

  /** The separators are maximal: a paragraph other than the last does not end in a
      newline, one other than the first does not start with one, and only the first
      and the last paragraph can be empty. */
  lemma {:induction false} SplitParagraphsMaximal(b: string)
    ensures var ps := SplitParagraphs(b);
      && (forall i | 0 <= i < |ps| - 1 :: ps[i] == [] || ps[i][|ps[i]| - 1] != '\n')
      && (forall i | 0 < i < |ps| :: ps[i] == [] || ps[i][0] != '\n')
      && (forall i | 0 < i < |ps| - 1 :: ps[i] != [])
      && ((b == [] || b[0] != '\n') && |ps| > 1 ==> ps[0] != [])
    decreases |b|
  {
    var k := FindBlankLine(b, 0);
    if k < |b| {
      var r := SkipNewlines(b, k);
      var rest := b[r..];
      SplitParagraphsMaximal(rest);
      var ps, qs := SplitParagraphs(b), SplitParagraphs(rest);
      assert ps == [b[..k]] + qs;
      assert k > 0 ==> b[k - 1] != '\n' by {
        if k > 0 {
          assert !BlankAt(b, k - 1);
        }
      }
      assert (b == [] || b[0] != '\n') ==> k > 0 by {
        assert BlankAt(b, k);
      }
      assert rest == [] || rest[0] != '\n';
      assert qs[0] == [] || qs[0][0] == rest[0] by {
        var k' := FindBlankLine(rest, 0);
        assert qs[0] == rest[..k'] || qs[0] == rest;
      }
      forall i | 0 < i < |ps|
        ensures ps[i] == qs[i - 1]
      {
      }
    }
  }

  /** `"\n\n".join(ps)`. */
  function Join(ps: seq<string>): string
    decreases |ps|
  {
    if ps == [] then []
    else if |ps| == 1 then ps[0]
    else Join(ps[..|ps| - 1]) + "\n\n" + ps[|ps| - 1]
  }

  predicate Paragraph(x: string) {
    x != [] && IsStripped(x)
  }

  /** A group as the loop builds it: non-empty stripped paragraphs, each admitted
      because the buffer before it plus the paragraph stayed within the ceiling. */
  predicate WellPacked(g: seq<string>) {
    && g != []
    && Paragraph(g[|g| - 1])
    && (|g| > 1 ==> WellPacked(g[..|g| - 1]) && |Join(g[..|g| - 1])| + |g[|g| - 1]| <= PackCeiling)
  }

  /** Admitting `next`'s first paragraph into the buffer `g` would have exceeded the ceiling. */
  predicate Overflows(g: seq<string>, next: seq<string>) {
    next != [] && |Join(g)| + |next[0]| > PackCeiling
  }

  /** Each group ends where admitting the next group's first paragraph would have
      taken the buffer over the ceiling. */
  predicate CutWhereFull(gs: seq<seq<string>>) {
    forall i | 0 <= i < |gs| - 1 :: Overflows(gs[i], gs[i + 1])
  }

  /** The state of the packing loop: the groups already flushed and the paragraphs
      in the buffer. */
  datatype PackState = PackState(closed: seq<seq<string>>, open: seq<string>)

  /** One iteration of the packing loop: a paragraph that strips to nothing is skipped;
      otherwise it joins the buffer, unless the buffer is non-empty and
      `len(buf) + len(para)` exceeds the ceiling, when the buffer is flushed and the
      paragraph starts a new one. */
  function PackStep(st: PackState, para: string): PackState {
    var p := Strip(para);
    if p == [] then st
    else if st.open != [] && |Join(st.open)| + |p| > PackCeiling then PackState(st.closed + [st.open], [p])
    else PackState(st.closed, st.open + [p])
  }

  /** The loop state after the given paragraphs. */
  function PackPrefix(paras: seq<string>): PackState {
    if paras == [] then PackState([], [])
    else PackStep(PackPrefix(paras[..|paras| - 1]), paras[|paras| - 1])
  }

  /** Every group the loop forms, the final buffer included. */
  function Groups(paras: seq<string>): seq<seq<string>> {
    var st := PackPrefix(paras);
    if st.open == [] then st.closed else st.closed + [st.open]
  }

  /** The flushed buffers that reach the floor, in order. */
  function KeptJoins(gs: seq<seq<string>>): seq<string> {
    if gs == [] then []
    else KeptJoins(gs[..|gs| - 1]) + (if |Join(gs[|gs| - 1])| >= MinContent then [Join(gs[|gs| - 1])] else [])
  }

  /** The buffers the packing loop emits for the paragraphs of one long body. */
  function Packed(paras: seq<string>): seq<string> {
    KeptJoins(Groups(paras))
  }

  /** The paragraphs the loop does not skip: stripped, empty ones left out. */
  function NonEmptyStripped(paras: seq<string>): seq<string> {
    if paras == [] then []
    else
      var p := Strip(paras[|paras| - 1]);
      NonEmptyStripped(paras[..|paras| - 1]) + (if p == [] then [] else [p])
  }

  function Flatten(gs: seq<seq<string>>): seq<string> {
    if gs == [] then [] else Flatten(gs[..|gs| - 1]) + gs[|gs| - 1]
  }

  lemma {:induction false} JoinParagraphs(g: seq<string>)
    requires WellPacked(g)
    ensures Paragraph(Join(g))
    ensures forall k | 0 <= k < |g| :: Paragraph(g[k])
    decreases |g|
  {
    if |g| > 1 {
      var init := g[..|g| - 1];
      JoinParagraphs(init);
      var j := Join(init) + "\n\n" + g[|g| - 1];
      assert j[0] == Join(init)[0];
      assert j[|j| - 1] == g[|g| - 1][|g[|g| - 1]| - 1];
      forall k | 0 <= k < |g| ensures Paragraph(g[k]) {
        if k < |g| - 1 { assert g[k] == init[k]; }
      }
    }
  }

  /** A packed buffer of two or more paragraphs is at most two characters over the
      ceiling: the "\n\n" separator is left out of the test. */
  lemma WellPackedBound(g: seq<string>)
    requires WellPacked(g) && |g| >= 2
    ensures |Join(g)| <= PackCeiling + 2
  {
    assert Join(g) == Join(g[..|g| - 1]) + "\n\n" + g[|g| - 1];
  }

  lemma AppendAssoc<T>(a: seq<T>, b: seq<T>, c: seq<T>)
    ensures (a + b) + c == a + (b + c)
  {
  }

  /** Admitting a paragraph under the ceiling keeps a buffer well packed. */
  lemma WellPackedExtend(cur: seq<string>, p: string)
    requires cur == [] || WellPacked(cur)
    requires Paragraph(p)
    requires cur != [] ==> |Join(cur)| + |p| <= PackCeiling
    ensures WellPacked(cur + [p])
  {
    assert (cur + [p])[..|cur|] == cur;
  }

  lemma PackPrefixSnoc(paras: seq<string>, para: string)
    ensures PackPrefix(paras + [para]) == PackStep(PackPrefix(paras), para)
  {
    assert (paras + [para])[..|paras|] == paras;
  }

  lemma FlattenSnoc(gs: seq<seq<string>>, g: seq<string>)
    ensures Flatten(gs + [g]) == Flatten(gs) + g
  {
    assert (gs + [g])[..|gs|] == gs;
  }

  lemma KeptJoinsSnoc(gs: seq<seq<string>>, g: seq<string>)
    ensures KeptJoins(gs + [g]) == KeptJoins(gs) + (if |Join(g)| >= MinContent then [Join(g)] else [])
  {
    assert (gs + [g])[..|gs|] == gs;
  }

  /** The loop keeps every non-empty stripped paragraph, in order: the flushed groups
      followed by the buffer are exactly those paragraphs. */
  lemma {:induction false} PackPrefixFlatten(paras: seq<string>)
    ensures Flatten(PackPrefix(paras).closed) + PackPrefix(paras).open == NonEmptyStripped(paras)
    decreases |paras|
  {
    if paras != [] {
      var init := paras[..|paras| - 1];
      var st := PackPrefix(init);
      PackPrefixFlatten(init);
      var p := Strip(paras[|paras| - 1]);
      if p != [] {
        if st.open != [] && |Join(st.open)| + |p| > PackCeiling {
          FlattenSnoc(st.closed, st.open);
        }
        AppendAssoc(Flatten(st.closed), st.open, [p]);
      }
    }
  }

  /** Every group is well packed and each ends where the next one's first paragraph
      would have exceeded the ceiling. */
  predicate Chain(gs: seq<seq<string>>) {
    gs == [] ||
      (&& WellPacked(gs[|gs| - 1])
       && Chain(gs[..|gs| - 1])
       && (|gs| > 1 ==> Overflows(gs[|gs| - 2], gs[|gs| - 1])))
  }

  /** The loop state is well formed: the buffer is empty only before the first
      paragraph, and the flushed groups followed by the buffer form a chain. */
  predicate GoodState(st: PackState) {
    if st.open == [] then st.closed == [] else Chain(st.closed + [st.open])
  }

  /** Flushing the buffer and starting a new one keeps the chain. */
  lemma ChainFlush(gs: seq<seq<string>>, p: string)
    requires gs != [] && Chain(gs) && Paragraph(p)
    requires |Join(gs[|gs| - 1])| + |p| > PackCeiling
    ensures Chain(gs + [[p]])
  {
    WellPackedExtend([], p);
    assert (gs + [[p]])[..|gs|] == gs;
  }

  /** Adding a paragraph to the buffer within the ceiling keeps the chain. */
  lemma ChainAdmit(closed: seq<seq<string>>, open: seq<string>, p: string)
    requires open != [] && Chain(closed + [open]) && Paragraph(p)
    requires |Join(open)| + |p| <= PackCeiling
    ensures Chain(closed + [open + [p]])
  {
    var gs := closed + [open];
    assert gs[..|closed|] == closed;
    assert gs[|closed|] == open;
    WellPackedExtend(open, p);
    var gs' := closed + [open + [p]];
    assert gs'[..|closed|] == closed;
  }

  lemma PackStepGood(st: PackState, para: string)
    requires GoodState(st)
    ensures GoodState(PackStep(st, para))
  {
    var p := Strip(para);
    if p != [] {
      if st.open != [] && |Join(st.open)| + |p| > PackCeiling {
        ChainFlush(st.closed + [st.open], p);
      } else if st.open != [] {
        ChainAdmit(st.closed, st.open, p);
      } else {
        WellPackedExtend([], p);
      }
    }
  }

  lemma {:induction false} ChainWellPacked(gs: seq<seq<string>>)
    requires Chain(gs)
    ensures forall i | 0 <= i < |gs| :: WellPacked(gs[i])
    decreases |gs|
  {
    if gs != [] {
      var init := gs[..|gs| - 1];
      ChainWellPacked(init);
      forall i | 0 <= i < |gs| ensures WellPacked(gs[i]) {
        if i < |init| { assert gs[i] == init[i]; }
      }
    }
  }

  lemma {:induction false} ChainCuts(gs: seq<seq<string>>)
    requires Chain(gs)
    ensures CutWhereFull(gs)
    decreases |gs|
  {
    if gs != [] {
      var init := gs[..|gs| - 1];
      ChainCuts(init);
      forall i | 0 <= i < |gs| - 1 ensures Overflows(gs[i], gs[i + 1]) {
        if i + 1 < |init| { assert gs[i] == init[i] && gs[i + 1] == init[i + 1]; }
      }
    }
  }

  lemma {:induction false} PackPrefixGood(paras: seq<string>)
    ensures GoodState(PackPrefix(paras))
    decreases |paras|
  {
    if paras != [] {
      PackPrefixGood(paras[..|paras| - 1]);
      PackStepGood(PackPrefix(paras[..|paras| - 1]), paras[|paras| - 1]);
    }
  }

  lemma {:induction false} KeptJoinsShape(gs: seq<seq<string>>)
    requires forall i | 0 <= i < |gs| :: WellPacked(gs[i])
    ensures forall x | x in KeptJoins(gs) :: |x| >= MinContent && Paragraph(x)
    decreases |gs|
  {
    if gs != [] {
      JoinParagraphs(gs[|gs| - 1]);
      KeptJoinsShape(gs[..|gs| - 1]);
    }
  }

  /** Packing keeps every non-empty paragraph, whole and in document order, in groups
      that the greedy rule formed: each group's additions stayed within the ceiling (so
      a multi-paragraph buffer has at most 802 characters), each group boundary is where
      the next paragraph would have exceeded it, and every emitted buffer is a stripped
      text of at least 30 characters. */
  lemma PackingSpec(paras: seq<string>)
    ensures var gs := Groups(paras);
      && Flatten(gs) == NonEmptyStripped(paras)
      && (forall i | 0 <= i < |gs| :: WellPacked(gs[i]))
      && (forall i | 0 <= i < |gs| :: |gs[i]| >= 2 ==> |Join(gs[i])| <= PackCeiling + 2)
      && CutWhereFull(gs)
      && Packed(paras) == KeptJoins(gs)
      && (forall x | x in Packed(paras) :: |x| >= MinContent && Paragraph(x))
  {
    var st := PackPrefix(paras);
    var gs := Groups(paras);
    PackPrefixFlatten(paras);
    PackPrefixGood(paras);
    if st.open != [] {
      FlattenSnoc(st.closed, st.open);
    } else {
      assert Flatten(st.closed) + [] == Flatten(st.closed);
    }
    ChainWellPacked(gs);
    ChainCuts(gs);
    forall i | 0 <= i < |gs| && |gs[i]| >= 2 ensures |Join(gs[i])| <= PackCeiling + 2 {
      WellPackedBound(gs[i]);
    }
    KeptJoinsShape(gs);
  }

  // ---------------------------------------------------------------------------
  // Chunks of one section, one file

  /** One chunk per text, all with the same url and title. */
  function MakeChunks(url: string, title: string, contents: seq<string>): seq<Chunk>
  {
    seq(|contents|, i requires 0 <= i < |contents| => Chunk(url, title, contents[i]))
  }

  /** Title and cleaned body of a raw section: stripped, parsed, the leading H1 line
      removed, stripped again. */
  function CleanSection(raw: string, docTitle: string): Parsed {
    var p := ParseSection(Strip(raw), docTitle);
    Parsed(p.title, Strip(StripH1(p.body)))
  }

  /** The chunks the file loop emits for one section. */
  function SectionChunks(raw: string, url: string, docTitle: string): seq<Chunk> {
    if Strip(raw) == [] then []
    else
      var p := CleanSection(raw, docTitle);
      if p.body == [] || |p.body| < MinContent then []
      else if |p.body| > MaxSection then MakeChunks(url, p.title, Packed(SplitParagraphs(p.body)))
      else [Chunk(url, p.title, p.body)]
  }

  function SectionsChunks(sections: seq<string>, url: string, docTitle: string): seq<Chunk> {
    if sections == [] then []
    else SectionsChunks(sections[..|sections| - 1], url, docTitle)
         + SectionChunks(sections[|sections| - 1], url, docTitle)
  }

  /** `chunk_file` as a function of the file's text and its relative path. */
  function FileChunks(text: string, relPath: string, sep: char): seq<Chunk> {
    SectionsChunks(Sections(text), Url(relPath, sep), DocTitle(text, BaseName(relPath, sep)))
  }

  /** The three outcomes for a section body: under 30 characters nothing, 30 to 1000
      characters exactly one chunk holding the body unchanged, over 1000 the packed
      buffers; all of them carry the file's url and the section's title. */
  lemma SectionOutcomes(raw: string, url: string, docTitle: string)
    ensures var p := CleanSection(raw, docTitle);
      var cs := SectionChunks(raw, url, docTitle);
      && (|p.body| < MinContent ==> cs == [])
      && (MinContent <= |p.body| <= MaxSection ==> cs == [Chunk(url, p.title, p.body)])
      && (|p.body| > MaxSection ==> cs == MakeChunks(url, p.title, Packed(SplitParagraphs(p.body))))
      && (forall c | c in cs :: c.url == url && c.title == p.title)
  {
    var p := CleanSection(raw, docTitle);
    if Strip(raw) == [] {
      assert p.body == [] by {
        assert ParseSection(Strip(raw), docTitle).body == [];
      }
    }
  }

  lemma MakeChunksMembers(url: string, title: string, contents: seq<string>)
    ensures forall c | c in MakeChunks(url, title, contents) ::
      c.url == url && c.title == title && c.content in contents
  {
    forall c | c in MakeChunks(url, title, contents)
      ensures c.url == url && c.title == title && c.content in contents
    {
      var i :| 0 <= i < |contents| && MakeChunks(url, title, contents)[i] == c;
    }
  }

  lemma SectionChunksWellFormed(raw: string, url: string, docTitle: string)
    ensures forall c | c in SectionChunks(raw, url, docTitle) ::
      c.url == url && |c.content| >= MinContent && IsStripped(c.content)
  {
    var cs := SectionChunks(raw, url, docTitle);
    if Strip(raw) != [] {
      var p := CleanSection(raw, docTitle);
      if |p.body| > MaxSection {
        var xs := Packed(SplitParagraphs(p.body));
        PackingSpec(SplitParagraphs(p.body));
        MakeChunksMembers(url, p.title, xs);
        assert cs == MakeChunks(url, p.title, xs);
      } else if |p.body| >= MinContent {
        assert cs == [Chunk(url, p.title, p.body)];
      } else {
        assert cs == [];
      }
    }
  }

  lemma {:induction false} SectionsChunksWellFormed(sections: seq<string>, url: string, docTitle: string)
    ensures forall c | c in SectionsChunks(sections, url, docTitle) ::
      c.url == url && |c.content| >= MinContent && IsStripped(c.content)
    decreases |sections|
  {
    if sections != [] {
      SectionsChunksWellFormed(sections[..|sections| - 1], url, docTitle);
      SectionChunksWellFormed(sections[|sections| - 1], url, docTitle);
    }
  }

  /** Every chunk of a file carries the file's url and has stripped content of at least
      30 characters, so short sections never appear. */
  lemma FileChunksWellFormed(text: string, relPath: string, sep: char)
    ensures forall c | c in FileChunks(text, relPath, sep) ::
      c.url == Url(relPath, sep) && |c.content| >= MinContent && IsStripped(c.content)
  {
    SectionsChunksWellFormed(Sections(text), Url(relPath, sep), DocTitle(text, BaseName(relPath, sep)));
  }

  /** A section that begins with a level-2 or level-3 heading either matches the
      header pattern or is nothing but its hashes. */
  lemma HeadingSectionParses(raw: string)
    requires HeadingAt(raw, 0)
    ensures HeaderMatch(Strip(raw)).Some? || |Strip(raw)| <= 3
  {
    var s := Strip(raw);
    assert LeadEnd(raw, 0) == 0;
    StripSlice(raw);
    assert s == raw[..|s|];
    if |s| > 3 {
      assert !IsSpace(s[|s| - 1]);
      if IsSpace(s[2]) {
        var f := LeadEnd(s, 2);
        assert SpacesThenLine(s, 2) == Backtrack(s, 2, f) == Some(f);
      } else {
        var f := LeadEnd(s, 3);
        assert SpacesThenLine(s, 3) == Backtrack(s, 3, f) == Some(f);
      }
    }
  }

  /** The chunks of a section that begins with a heading carry the heading's text,
      stripped, as their title. */
  lemma HeadedSectionTitle(raw: string, url: string, docTitle: string)
    requires HeadingAt(raw, 0)
    ensures var s := Strip(raw);
      forall c | c in SectionChunks(raw, url, docTitle) ::
        HeaderMatch(s).Some? && c.title == Strip(s[HeaderMatch(s).value.textStart..HeaderMatch(s).value.lineEnd])
  {
    var s := Strip(raw);
    HeadingSectionParses(raw);
    var p := CleanSection(raw, docTitle);
    if HeaderMatch(s).None? {
      assert ParseSection(s, docTitle).body == s;
      assert |p.body| <= 3;
      assert SectionChunks(raw, url, docTitle) == [];
    } else {
      SectionOutcomes(raw, url, docTitle);
    }
  }

  // ---------------------------------------------------------------------------
  // The imperative chunk_file loop

  lemma MakeChunksSnoc(url: string, title: string, xs: seq<string>, x: string)
    ensures MakeChunks(url, title, xs + [x]) == MakeChunks(url, title, xs) + [Chunk(url, title, x)]
  {
  }

  lemma JoinSnoc(cur: seq<string>, p: string)
    ensures Join(cur + [p]) == if cur == [] then p else Join(cur) + "\n\n" + p
  {
    if cur != [] {
      assert (cur + [p])[..|cur|] == cur;
    }
  }

  /** The buffer text is empty exactly when no paragraph is buffered. */
  lemma OpenBufferEmpty(paras: seq<string>)
    ensures var st := PackPrefix(paras); (Join(st.open) == []) == (st.open == [])
  {
    var st := PackPrefix(paras);
    PackPrefixGood(paras);
    if st.open != [] {
      assert WellPacked(st.open) by {
        assert (st.closed + [st.open])[|st.closed|] == st.open;
      }
      JoinParagraphs(st.open);
    }
  }

  /** One more paragraph, in terms of the buffer text: a blank paragraph changes
      nothing, one that would overflow a non-empty buffer flushes it, any other one
      is appended after a "\n\n" separator (or starts the buffer). */
  lemma PackPrefixStep(paras: seq<string>, para: string)
    ensures var st := PackPrefix(paras);
      var st' := PackPrefix(paras + [para]);
      var p := Strip(para);
      var buf := Join(st.open);
      && (p == [] ==> st' == st)
      && (p != [] && buf != [] && |buf| + |p| > PackCeiling ==>
            && st' == PackState(st.closed + [st.open], [p])
            && KeptJoins(st'.closed) == KeptJoins(st.closed) + (if |buf| >= MinContent then [buf] else [])
            && Join(st'.open) == p)
      && (p != [] && !(buf != [] && |buf| + |p| > PackCeiling) ==>
            && st' == PackState(st.closed, st.open + [p])
            && Join(st'.open) == if buf != [] then buf + "\n\n" + p else p)
  {
    var st := PackPrefix(paras);
    PackPrefixSnoc(paras, para);
    OpenBufferEmpty(paras);
    KeptJoinsSnoc(st.closed, st.open);
    JoinSnoc(st.open, Strip(para));
  }

  /** One pass of the paragraph loop: strip the paragraph, skip it when blank, flush
      the buffer (keeping it as a chunk when long enough) when the paragraph would
      overflow it, then add the paragraph to the buffer. */
  method AdmitParagraph(url: string, title: string, ghost done: seq<string>, para: string,
                        buf: string, out: seq<Chunk>) returns (buf': string, out': seq<Chunk>)
    requires buf == Join(PackPrefix(done).open)
    requires out == MakeChunks(url, title, KeptJoins(PackPrefix(done).closed))
    ensures buf' == Join(PackPrefix(done + [para]).open)
    ensures out' == MakeChunks(url, title, KeptJoins(PackPrefix(done + [para]).closed))
  {
    PackPrefixStep(done, para);
    buf', out' := buf, out;
    var p := Strip(para);
    if p == [] {
    } else if buf != [] && |buf| + |p| > PackCeiling {
      if |buf| >= MinContent {
        MakeChunksSnoc(url, title, KeptJoins(PackPrefix(done).closed), buf);
        out' := out + [Chunk(url, title, buf)];
      }
      buf' := p;
    } else {
      buf' := if buf != [] then buf + "\n\n" + p else p;
    }
  }

  /** The paragraph loop of `chunk_file` for one long body: a string buffer grows by
      "\n\n" and the next paragraph and is flushed into a chunk when full; what is
      left in the buffer at the end is the last chunk, when long enough. */
  method PackSection(url: string, title: string, paras: seq<string>) returns (out: seq<Chunk>)
    ensures out == MakeChunks(url, title, Packed(paras))
  {
    out := [];
    var buf: string := "";
    var i := 0;
    while i < |paras|
      invariant 0 <= i <= |paras|
      invariant buf == Join(PackPrefix(paras[..i]).open)
      invariant out == MakeChunks(url, title, KeptJoins(PackPrefix(paras[..i]).closed))
    {
      assert paras[..i + 1] == paras[..i] + [paras[i]];
      buf, out := AdmitParagraph(url, title, paras[..i], paras[i], buf, out);
      i := i + 1;
    }
    assert paras[..i] == paras;
    ghost var st := PackPrefix(paras);
    OpenBufferEmpty(paras);
    KeptJoinsSnoc(st.closed, st.open);
    if buf != [] && |buf| >= MinContent {
      MakeChunksSnoc(url, title, KeptJoins(st.closed), buf);
      out := out + [Chunk(url, title, buf)];
    }
  }

  /** One pass of the section loop of `chunk_file`: strip, take title and body, drop
      a short body, pack a long one. */
  method ChunkSection(raw: string, url: string, docTitle: string) returns (add: seq<Chunk>)
    ensures add == SectionChunks(raw, url, docTitle)
  {
    add := [];
    var section := Strip(raw);
    if section != [] {
      var parsed := ParseSection(section, docTitle);
      var title, body := parsed.title, parsed.body;
      body := Strip(StripH1(body));
      if body != [] && |body| >= MinContent {
        if |body| > MaxSection {
          add := PackSection(url, title, SplitParagraphs(body));
        } else {
          add := [Chunk(url, title, body)];
        }
      }
    }
  }

  /** The section loop of `chunk_file`: the chunks of each section, in document order. */
  method ChunkSections(sections: seq<string>, url: string, docTitle: string) returns (chunks: seq<Chunk>)
    ensures chunks == SectionsChunks(sections, url, docTitle)
  {
    chunks := [];
    for k := 0 to |sections|
      invariant chunks == SectionsChunks(sections[..k], url, docTitle)
    {
      assert sections[..k + 1][..k] == sections[..k];
      var add := ChunkSection(sections[k], url, docTitle);
      chunks := chunks + add;
    }
    assert sections[..|sections|] == sections;
  }

  /** `chunk_file`: split into sections, derive each section's title and body, drop
      short bodies, pack long ones, and collect the chunks in document order. */
  method ChunkFile(text: string, relPath: string, sep: char) returns (chunks: seq<Chunk>)
    ensures chunks == FileChunks(text, relPath, sep)
  {
    var url := Url(relPath, sep);
    var docTitle := DocTitle(text, BaseName(relPath, sep));
    chunks := ChunkSections(Sections(text), url, docTitle);
  }

  // ---------------------------------------------------------------------------
  // chunk_directory

  datatype SourceFile = SourceFile(name: string, text: string)

  /** One directory of the walk: its path relative to the content directory ("" for the
      content directory itself) and the files os.walk lists in it, in listing order. */
  datatype WalkStep = WalkStep(relDir: string, files: seq<SourceFile>)

  predicate IsMarkdown(name: string) {
    EndsWith(name, ".md")
  }

  /** `os.path.relpath(os.path.join(root, fname), directory)`. */
  function RelPath(relDir: string, name: string, sep: char): string {
    if relDir == [] then name else relDir + [sep] + name
  }

  predicate SortedByName(fs: seq<SourceFile>) {
    forall i, j | 0 <= i < j < |fs| :: LexLe(fs[i].name, fs[j].name)
  }

  lemma {:induction false} LexLeTrans(a: string, b: string, c: string)
    requires LexLe(a, b) && LexLe(b, c)
    ensures LexLe(a, c)
    decreases |a|
  {
    if a != [] && a[0] == b[0] && b[0] == c[0] {
      LexLeTrans(a[1..], b[1..], c[1..]);
    }
  }

  function Insert(f: SourceFile, fs: seq<SourceFile>): (r: seq<SourceFile>)
    requires SortedByName(fs)
    ensures SortedByName(r)
    ensures multiset(r) == multiset(fs) + multiset{f}
    decreases |fs|
  {
    if fs == [] then [f]
    else if LexLe(f.name, fs[0].name) then
      assert forall j | 0 <= j < |fs| :: LexLe(f.name, fs[j].name) by {
        forall j | 0 <= j < |fs| ensures LexLe(f.name, fs[j].name) {
          if j > 0 { LexLeTrans(f.name, fs[0].name, fs[j].name); }
        }
      }
      [f] + fs
    else
      var tail := Insert(f, fs[1..]);
      LexLeTotal(f.name, fs[0].name);
      assert fs == [fs[0]] + fs[1..];
      assert forall j | 0 <= j < |tail| :: LexLe(fs[0].name, tail[j].name) by {
        forall j | 0 <= j < |tail| ensures LexLe(fs[0].name, tail[j].name) {
          assert tail[j] in multiset(tail);
          if tail[j] != f {
            assert tail[j] in multiset(fs[1..]);
            var k :| 0 <= k < |fs[1..]| && fs[1..][k] == tail[j];
            assert fs[k + 1] == tail[j];
          }
        }
      }
      [fs[0]] + tail
  }

  /** `sorted(files)`, by file name. */
  function SortByName(fs: seq<SourceFile>): (r: seq<SourceFile>)
    ensures SortedByName(r)
    ensures multiset(r) == multiset(fs)
  {
    if fs == [] then [] else
      assert fs == [fs[0]] + fs[1..];
      Insert(fs[0], SortByName(fs[1..]))
  }

  function MarkdownOnly(fs: seq<SourceFile>): seq<SourceFile> {
    if fs == [] then []
    else (if IsMarkdown(fs[0].name) then [fs[0]] else []) + MarkdownOnly(fs[1..])
  }

  /** A per-file chunker: the file's text and its relative path to its chunks. */
  type FileChunker = (string, string) -> seq<Chunk>

  /** `chunk_file` as the per-file chunker of `chunk_directory`. */
  function ChunkFileOf(sep: char): FileChunker {
    (text: string, relPath: string) => FileChunks(text, relPath, sep)
  }

  /** The chunks of the listed files, in listing order, markdown files only. */
  function FilesChunks(relDir: string, fs: seq<SourceFile>, sep: char, chunk: FileChunker): seq<Chunk> {
    if fs == [] then []
    else
      var f := fs[|fs| - 1];
      FilesChunks(relDir, fs[..|fs| - 1], sep, chunk)
      + (if IsMarkdown(f.name) then chunk(f.text, RelPath(relDir, f.name, sep)) else [])
  }

  function StepChunks(step: WalkStep, sep: char, chunk: FileChunker): seq<Chunk> {
    FilesChunks(step.relDir, SortByName(step.files), sep, chunk)
  }

  function WalkChunksWith(walk: seq<WalkStep>, sep: char, chunk: FileChunker): seq<Chunk> {
    if walk == [] then []
    else WalkChunksWith(walk[..|walk| - 1], sep, chunk) + StepChunks(walk[|walk| - 1], sep, chunk)
  }

  /** `chunk_directory` as a function of the walk. */
  function WalkChunks(walk: seq<WalkStep>, sep: char): seq<Chunk> {
    WalkChunksWith(walk, sep, ChunkFileOf(sep))
  }

  /** The documents a directory contributes, in the order it contributes them. */
  function DocsChunks(relDir: string, docs: seq<SourceFile>, sep: char, chunk: FileChunker): seq<Chunk> {
    if docs == [] then []
    else chunk(docs[0].text, RelPath(relDir, docs[0].name, sep)) + DocsChunks(relDir, docs[1..], sep, chunk)
  }

  lemma {:induction false} FilesChunksAppend(relDir: string, fs: seq<SourceFile>, extra: seq<SourceFile>, sep: char, chunk: FileChunker)
    ensures FilesChunks(relDir, fs + extra, sep, chunk) == FilesChunks(relDir, fs, sep, chunk) + FilesChunks(relDir, extra, sep, chunk)
    decreases |extra|
  {
    if extra == [] {
      assert fs + extra == fs;
    } else {
      var init := extra[..|extra| - 1];
      var last := extra[|extra| - 1];
      FilesChunksAppend(relDir, fs, init, sep, chunk);
      assert (fs + extra)[..|fs + extra| - 1] == fs + init;
      assert (fs + extra)[|fs + extra| - 1] == last;
      var x := if IsMarkdown(last.name) then chunk(last.text, RelPath(relDir, last.name, sep)) else [];
      AppendAssoc(FilesChunks(relDir, fs, sep, chunk), FilesChunks(relDir, init, sep, chunk), x);
    }
  }

  lemma {:induction false} FilesChunksAreDocsChunks(relDir: string, fs: seq<SourceFile>, sep: char, chunk: FileChunker)
    ensures FilesChunks(relDir, fs, sep, chunk) == DocsChunks(relDir, MarkdownOnly(fs), sep, chunk)
    decreases |fs|
  {
    if fs != [] {
      FilesChunksAreDocsChunks(relDir, fs[1..], sep, chunk);
      FilesChunksAppend(relDir, [fs[0]], fs[1..], sep, chunk);
      assert [fs[0]] + fs[1..] == fs;
      var x := if IsMarkdown(fs[0].name) then chunk(fs[0].text, RelPath(relDir, fs[0].name, sep)) else [];
      assert FilesChunks(relDir, [fs[0]], sep, chunk) == FilesChunks(relDir, [], sep, chunk) + x;
      var tail := MarkdownOnly(fs[1..]);
      if IsMarkdown(fs[0].name) {
        assert MarkdownOnly(fs) == [fs[0]] + tail;
        assert ([fs[0]] + tail)[1..] == tail;
      } else {
        assert MarkdownOnly(fs) == tail;
      }
    }
  }

  lemma {:induction false} MarkdownOnlyMembers(fs: seq<SourceFile>)
    ensures forall f :: multiset(MarkdownOnly(fs))[f] == if IsMarkdown(f.name) then multiset(fs)[f] else 0
    decreases |fs|
  {
    if fs != [] {
      MarkdownOnlyMembers(fs[1..]);
      assert fs == [fs[0]] + fs[1..];
    }
  }

  lemma {:induction false} MarkdownOnlyMarkdown(fs: seq<SourceFile>)
    ensures forall i | 0 <= i < |MarkdownOnly(fs)| :: IsMarkdown(MarkdownOnly(fs)[i].name)
    decreases |fs|
  {
    if fs != [] {
      MarkdownOnlyMarkdown(fs[1..]);
    }
  }

  lemma {:induction false} MarkdownOnlySorted(fs: seq<SourceFile>)
    requires SortedByName(fs)
    ensures SortedByName(MarkdownOnly(fs))
    decreases |fs|
  {
    if fs != [] {
      MarkdownOnlySorted(fs[1..]);
      MarkdownOnlyMembers(fs[1..]);
      var tail := MarkdownOnly(fs[1..]);
      if IsMarkdown(fs[0].name) {
        forall j | 0 <= j < |tail| ensures LexLe(fs[0].name, tail[j].name) {
          assert tail[j] in multiset(tail);
          assert tail[j] in multiset(fs[1..]);
          var k :| 0 <= k < |fs[1..]| && fs[1..][k] == tail[j];
          assert fs[k + 1] == tail[j];
        }
        assert MarkdownOnly(fs) == [fs[0]] + tail;
      }
    }
  }

  /** Within one directory only names ending in ".md" are processed, sorted by name:
      the directory's chunks are those of its markdown files, each file's chunks
      together, the files taken in name order and each exactly as often as listed. */
  lemma StepChunksSpec(step: WalkStep, sep: char, chunk: FileChunker)
    ensures var docs := MarkdownOnly(SortByName(step.files));
      && StepChunks(step, sep, chunk) == DocsChunks(step.relDir, docs, sep, chunk)
      && SortedByName(docs)
      && (forall i | 0 <= i < |docs| :: IsMarkdown(docs[i].name))
      && multiset(docs) == multiset(MarkdownOnly(step.files))
  {
    var sorted := SortByName(step.files);
    FilesChunksAreDocsChunks(step.relDir, sorted, sep, chunk);
    MarkdownOnlySorted(sorted);
    MarkdownOnlyMarkdown(sorted);
    MarkdownOnlyMembers(sorted);
    MarkdownOnlyMembers(step.files);
    assert multiset(MarkdownOnly(sorted)) == multiset(MarkdownOnly(step.files));
  }

  /** The file loop of `chunk_directory` for one directory's sorted listing. */
  method ChunkListing(relDir: string, files: seq<SourceFile>, sep: char) returns (cs: seq<Chunk>)
    ensures cs == FilesChunks(relDir, files, sep, ChunkFileOf(sep))
  {
    ghost var chunk := ChunkFileOf(sep);
    cs := [];
    for j := 0 to |files|
      invariant cs == FilesChunks(relDir, files[..j], sep, chunk)
    {
      assert files[..j + 1][..j] == files[..j];
      var f := files[j];
      if IsMarkdown(f.name) {
        var add := ChunkFile(f.text, RelPath(relDir, f.name, sep), sep);
        assert add == chunk(f.text, RelPath(relDir, f.name, sep));
        cs := cs + add;
      }
    }
    assert files[..|files|] == files;
  }

  /** `chunk_directory`: every listed directory in walk order, its files sorted by name,
      the chunks of each markdown file appended in turn. */
  method ChunkDirectory(walk: seq<WalkStep>, sep: char) returns (all: seq<Chunk>)
    ensures all == WalkChunks(walk, sep)
  {
    all := [];
    for d := 0 to |walk|
      invariant all == WalkChunksWith(walk[..d], sep, ChunkFileOf(sep))
    {
      assert walk[..d + 1][..d] == walk[..d];
      var step := walk[d];
      var cs := ChunkListing(step.relDir, SortByName(step.files), sep);
      all := all + cs;
    }
    assert walk[..|walk|] == walk;
  }
}
