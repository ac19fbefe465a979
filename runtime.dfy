/** Model of the client search engine (runtime/src/index.js): the FTS5 query it
    builds, the id lookup it issues, how it scores and orders semantic results, and
    the state it keeps while the embedding model loads in the worker. The database
    (sql.js over HTTP range requests) is a function from ids to rows; messages posted
    to the worker are recorded in order. */
module Runtime {
  import opened Wrappers
  import opened JsText

  // ---------------------------------------------------------------------------
  // Lexical query

  /** `.filter((w) => w.length > 1)`. */
  function LongWords(ws: seq<JsString>): (r: seq<JsString>)
    ensures |r| <= |ws|
  {
    if ws == [] then []
    else (if |ws[0]| > 1 then [ws[0]] else []) + LongWords(ws[1..])
  }

  /** A word is kept exactly when it is in the list and longer than one code unit. */
  lemma {:induction false} LongWordsMembers(ws: seq<JsString>)
    ensures forall w :: w in LongWords(ws) <==> w in ws && |w| > 1
  {
    if ws != [] {
      var head := if |ws[0]| > 1 then [ws[0]] else [];
      LongWordsMembers(ws[1..]);
      assert LongWords(ws) == head + LongWords(ws[1..]);
      assert ws == [ws[0]] + ws[1..];
    }
  }

  /** The words of a query the lexical search keeps, in order. */
  function KeptWords(query: JsString): (ws: seq<JsString>)
    ensures forall k | 0 <= k < |ws| :: NoWs(ws[k]) && |ws[k]| > 1
  {
    var ws := LongWords(SplitWs(query));
    LongWordsMembers(SplitWs(query));
    assert forall k | 0 <= k < |ws| :: ws[k] in SplitWs(query);
    ws
  }

  /** The filter works word by word: splitting the list anywhere and filtering the two
      halves gives the same words, in the same order and with the same repeats. */
  lemma {:induction false} LongWordsAppend(a: seq<JsString>, b: seq<JsString>)
    ensures LongWords(a + b) == LongWords(a) + LongWords(b)
    decreases |a|
  {
    if a == [] {
      assert a + b == b;
    } else {
      var head := if |a[0]| > 1 then [a[0]] else [];
      assert (a + b)[0] == a[0] && (a + b)[1..] == a[1..] + b;
      assert LongWords(a + b) == head + LongWords(a[1..] + b);
      LongWordsAppend(a[1..], b);
      assert LongWords(a) == head + LongWords(a[1..]);
      assert head + (LongWords(a[1..]) + LongWords(b)) == (head + LongWords(a[1..])) + LongWords(b);
    }
  }

  /** One word is kept exactly when it is longer than one code unit. */
  lemma LongWordsOne(w: JsString)
    ensures LongWords([w]) == if |w| > 1 then [w] else []
  {
    assert [w][1..] == [];
  }

  /** The query read word by word: a word, a run of whitespace of any length and kind,
      and the rest of the query keep that word when it is longer than one code unit,
      then the rest's words. */
  lemma KeptWordsRun(a: JsString, run: JsString, rest: JsString)
    requires NoWs(a) && run != [] && AllWs(run) && (rest == [] || !IsWs(rest[0]))
    ensures KeptWords(a + run + rest) == (if |a| > 1 then [a] else []) + KeptWords(rest)
  {
    SplitWsRun(a, run, rest);
    LongWordsAppend([a], SplitWs(rest));
    LongWordsOne(a);
  }

  /** Leading whitespace adds no word. */
  lemma KeptWordsLeadingRun(run: JsString, rest: JsString)
    requires run != [] && AllWs(run) && (rest == [] || !IsWs(rest[0]))
    ensures KeptWords(run + rest) == KeptWords(rest)
  {
    SplitWsLeadingRun(run, rest);
    LongWordsAppend([[]], SplitWs(rest));
    LongWordsOne([]);
  }

  /** A query of no whitespace is one word, kept when it is longer than one code unit. */
  lemma KeptWordsWord(a: JsString)
    requires NoWs(a)
    ensures KeptWords(a) == if |a| > 1 then [a] else []
  {
    SplitWsWord(a);
    LongWordsOne(a);
  }

  /** `` `"${w}"` ``: the word between double quotes, with no escaping. */
  function Quoted(w: JsString): JsString {
    [Quote] + w + [Quote]
  }

  /** `parts.join(sep)`. */
  function Join(parts: seq<JsString>, sep: JsString): JsString {
    if parts == [] then []
    else if |parts| == 1 then parts[0]
    else parts[0] + sep + Join(parts[1..], sep)
  }

  /** "OR" and " OR ". */
  const OrWord: JsString := [0x4F, 0x52]
  const Or: JsString := [Space] + OrWord + [Space]

  /** `.map((w) => `"${w}"`).join(" OR ")`. */
  function OrOfQuoted(ws: seq<JsString>): JsString {
    Join(seq(|ws|, i requires 0 <= i < |ws| => Quoted(ws[i])), Or)
  }

  /** The MATCH argument `_lexicalSearch` builds from a query. */
  function FtsQuery(query: JsString): JsString {
    OrOfQuoted(KeptWords(query))
  }

  /** The query given to the FTS table, or None when `_lexicalSearch` returns [] without
      querying. */
  datatype FtsRequest = FtsRequest(matchQuery: JsString, limit: int)

  function LexicalRequest(query: JsString, limit: int): Option<FtsRequest> {
    var q := FtsQuery(query);
    if q == [] then None else Some(FtsRequest(q, limit))
  }

  /** The lexical search queries the database exactly when some word of the query is
      longer than one code unit, and then with the caller's limit. */
  lemma LexicalRequestWhen(query: JsString, limit: int)
    ensures LexicalRequest(query, limit).None? <==> forall w | w in SplitWs(query) :: |w| <= 1
    ensures LexicalRequest(query, limit).Some? ==> LexicalRequest(query, limit).value.limit == limit
  {
    var ws := KeptWords(query);
    LongWordsMembers(SplitWs(query));
    if ws != [] {
      OrOfQuotedNonEmpty(ws);
      assert ws[0] in SplitWs(query);
    } else {
      assert forall w | w in SplitWs(query) :: |w| <= 1 by {
        forall w | w in SplitWs(query) ensures |w| <= 1 {
          assert w !in ws;
        }
      }
    }
  }

  lemma OrOfQuotedNonEmpty(ws: seq<JsString>)
    requires ws != []
    ensures |OrOfQuoted(ws)| >= 2
  {
    var qs := seq(|ws|, i requires 0 <= i < |ws| => Quoted(ws[i]));
    if |ws| > 1 {
      assert Join(qs, Or) == qs[0] + Or + Join(qs[1..], Or);
    }
  }

  /** How FTS5 reads such a query: the pieces between spaces alternate quoted phrase
      and `OR`; each phrase is the text between its quotes. */
  function ReadOrQuery(q: JsString): seq<JsString> {
    Phrases(SplitWs(q))
  }

  function Unquote(piece: JsString): JsString {
    if |piece| >= 2 then piece[1..|piece| - 1] else piece
  }

  /** The even-numbered pieces, unquoted. */
  function Phrases(pieces: seq<JsString>): seq<JsString>
    decreases |pieces|
  {
    if pieces == [] then []
    else [Unquote(pieces[0])] + (if |pieces| >= 2 then Phrases(pieces[2..]) else [])
  }

  lemma {:induction false} OrOfQuotedReadsBack(ws: seq<JsString>)
    requires ws != [] && forall k | 0 <= k < |ws| :: NoWs(ws[k])
    ensures ReadOrQuery(OrOfQuoted(ws)) == ws
    decreases |ws|
  {
    QuotedWord(ws[0]);
    if |ws| == 1 {
      SplitWsWord(Quoted(ws[0]));
      assert OrOfQuoted(ws) == Quoted(ws[0]);
    } else {
      var rest := ws[1..];
      OrOfQuotedSplit(ws);
      PhrasesStep(Quoted(ws[0]), OrWord, SplitWs(OrOfQuoted(rest)));
      OrOfQuotedReadsBack(rest);
      assert ws == [ws[0]] + rest;
    }
  }

  /** Splitting a query of several words gives the first quoted word, `OR`, and the
      pieces of the query of the other words. */
  lemma OrOfQuotedSplit(ws: seq<JsString>)
    requires |ws| > 1 && NoWs(ws[0])
    ensures SplitWs(OrOfQuoted(ws)) == [Quoted(ws[0]), OrWord] + SplitWs(OrOfQuoted(ws[1..]))
  {
    var tail := OrOfQuoted(ws[1..]);
    QuotedWord(ws[0]);
    OrOfQuotedCons(ws);
    OrOfQuotedStartsWithQuote(ws[1..]);
    SplitWsSpace(OrWord, tail);
    SplitWsSpace(Quoted(ws[0]), OrWord + [Space] + tail);
  }

  /** A quoted word has no whitespace and unquotes to the word. */
  lemma QuotedWord(w: JsString)
    requires NoWs(w)
    ensures NoWs(Quoted(w)) && Unquote(Quoted(w)) == w
  {
    var q := Quoted(w);
    assert forall k | 1 <= k < |q| - 1 :: q[k] == w[k - 1];
    assert q[1..|q| - 1] == w;
  }

  lemma PhrasesStep(phrase: JsString, or: JsString, rest: seq<JsString>)
    ensures Phrases([phrase, or] + rest) == [Unquote(phrase)] + Phrases(rest)
  {
    assert ([phrase, or] + rest)[2..] == rest;
  }

  lemma OrOfQuotedCons(ws: seq<JsString>)
    requires |ws| > 1
    ensures OrOfQuoted(ws) == Quoted(ws[0]) + [Space] + (OrWord + [Space] + OrOfQuoted(ws[1..]))
  {
    var qs := seq(|ws|, i requires 0 <= i < |ws| => Quoted(ws[i]));
    var rest := ws[1..];
    assert qs[1..] == seq(|rest|, i requires 0 <= i < |rest| => Quoted(rest[i]));
    assert OrOfQuoted(ws) == Quoted(ws[0]) + Or + OrOfQuoted(rest);
  }

  lemma OrOfQuotedStartsWithQuote(ws: seq<JsString>)
    requires ws != []
    ensures OrOfQuoted(ws) != [] && OrOfQuoted(ws)[0] == Quote
  {
    var qs := seq(|ws|, i requires 0 <= i < |ws| => Quoted(ws[i]));
    if |ws| > 1 {
      assert Join(qs, Or) == qs[0] + Or + Join(qs[1..], Or);
    }
  }

  /** The query is empty exactly when no word survives the filter; otherwise FTS5
      reads it back as exactly the kept words, in order. */
  lemma FtsQueryReadsBack(query: JsString)
    ensures FtsQuery(query) == [] <==> KeptWords(query) == []
    ensures KeptWords(query) != [] ==> ReadOrQuery(FtsQuery(query)) == KeptWords(query)
  {
    if KeptWords(query) != [] {
      OrOfQuotedNonEmpty(KeptWords(query));
      OrOfQuotedReadsBack(KeptWords(query));
    }
  }

  // ---------------------------------------------------------------------------
  // Chunk lookup by id

  const QMark: CodeUnit := 0x3F
  const Comma: CodeUnit := 0x2C

  /** `ids.map(() => "?").join(",")` for `n` ids. */
  function Placeholders(n: nat): JsString {
    Join(seq(n, _ => [QMark]), [Comma])
  }

  /** One `?` per id, separated by commas: `2n - 1` code units, `?` at the even
      positions and `,` at the odd ones. */
  lemma {:induction false} PlaceholdersShape(n: nat)
    requires n > 0
    ensures |Placeholders(n)| == 2 * n - 1
    ensures forall i | 0 <= i < 2 * n - 1 :: Placeholders(n)[i] == if i % 2 == 0 then QMark else Comma
  {
    if n > 1 {
      PlaceholdersShape(n - 1);
      var marks := seq(n, _ => [QMark]);
      assert marks[1..] == seq(n - 1, _ => [QMark]);
      var p := Placeholders(n);
      assert p == [QMark] + [Comma] + Placeholders(n - 1);
      forall i | 0 <= i < 2 * n - 1
        ensures p[i] == if i % 2 == 0 then QMark else Comma
      {
        if i >= 2 {
          assert p[i] == Placeholders(n - 1)[i - 2];
        }
      }
    }
  }

  /** The rows query of `_getChunksByIds`, or None when it returns [] at once. */
  datatype ChunkLookup = ChunkLookup(placeholders: JsString, params: seq<int>)

  function LookupRequest(ids: seq<int>): Option<ChunkLookup> {
    if ids == [] then None else Some(ChunkLookup(Placeholders(|ids|), ids))
  }

  /** No query for no ids; otherwise one bound parameter per placeholder. */
  lemma LookupRequestShape(ids: seq<int>)
    ensures LookupRequest(ids).None? <==> ids == []
    ensures LookupRequest(ids).Some? ==>
      var r := LookupRequest(ids).value;
      r.params == ids && |r.placeholders| == 2 * |ids| - 1
      && forall i | 0 <= i < |r.placeholders| :: (r.placeholders[i] == QMark <==> i % 2 == 0)
  {
    if ids != [] {
      PlaceholdersShape(|ids|);
    }
  }

  // ---------------------------------------------------------------------------
  // Semantic scores and ordering

  /** One entry of the worker's ranking. */
  datatype Ranked = Ranked(chunkId: int, score: real)

  /** A result row; `score` is absent until scores are attached. */
  datatype ResultChunk = ResultChunk(id: int, url: JsString, title: JsString, content: JsString,
                                     score: Option<real>)

  /** Rows as the database gives them (`SELECT id, url, title, content`): none has a
      score yet. */
  predicate Unscored(rows: seq<ResultChunk>) {
    forall k | 0 <= k < |rows| :: rows[k].score.None?
  }

  /** A database read: the rows for a list of ids, all of them still without a score. */
  type RowLookup = f: seq<int> -> seq<ResultChunk> | forall ids :: Unscored(f(ids))
    witness (ids: seq<int>) => []

  /** `new Map(ranked.map((r) => [r.chunkId, r.score])).get(id) || 0`: the score of the
      last entry for `id`, or 0 when there is none. */
  function ScoreOf(ranked: seq<Ranked>, id: int): real
    decreases |ranked|
  {
    if ranked == [] then 0.0
    else if ranked[|ranked| - 1].chunkId == id then ranked[|ranked| - 1].score
    else ScoreOf(ranked[..|ranked| - 1], id)
  }

  /** A chunk the worker did not rank scores 0. */
  lemma {:induction false} ScoreOfUnranked(ranked: seq<Ranked>, id: int)
    requires forall k | 0 <= k < |ranked| :: ranked[k].chunkId != id
    ensures ScoreOf(ranked, id) == 0.0
    decreases |ranked|
  {
    if ranked != [] {
      var init := ranked[..|ranked| - 1];
      assert forall k | 0 <= k < |init| :: init[k] == ranked[k];
      ScoreOfUnranked(init, id);
    }
  }

  /** A ranked chunk takes the score of the worker's last entry for it: a later entry
      replaces an earlier one in the Map. */
  lemma {:induction false} ScoreOfRanked(ranked: seq<Ranked>, id: int, k: nat)
    requires k < |ranked| && ranked[k].chunkId == id
    requires forall j | k < j < |ranked| :: ranked[j].chunkId != id
    ensures ScoreOf(ranked, id) == ranked[k].score
    decreases |ranked|
  {
    if k < |ranked| - 1 {
      var init := ranked[..|ranked| - 1];
      assert forall j | k < j < |init| :: init[j] == ranked[j];
      ScoreOfRanked(init, id, k);
    }
  }

  /** Each chunk with its score attached. */
  function WithScores(chunks: seq<ResultChunk>, ranked: seq<Ranked>): (r: seq<ResultChunk>)
    ensures |r| == |chunks|
    ensures forall i | 0 <= i < |r| :: r[i] == chunks[i].(score := Some(ScoreOf(ranked, chunks[i].id)))
  {
    seq(|chunks|, i requires 0 <= i < |chunks| => chunks[i].(score := Some(ScoreOf(ranked, chunks[i].id))))
  }

  /** `for (const chunk of chunks) chunk.score = scoreMap.get(chunk.id) || 0`. */
  method AttachScores(chunks: array<ResultChunk>, ranked: seq<Ranked>)
    modifies chunks
    ensures chunks[..] == WithScores(old(chunks[..]), ranked)
  {
    for i := 0 to chunks.Length
      invariant chunks[..i] == WithScores(old(chunks[..i]), ranked)
      invariant chunks[i..] == old(chunks[i..])
    {
      chunks[i] := chunks[i].(score := Some(ScoreOf(ranked, chunks[i].id)));
      assert chunks[..i + 1] == chunks[..i] + [chunks[i]];
      assert old(chunks[..i + 1]) == old(chunks[..i]) + [old(chunks[i])];
    }
  }

  /** The sort key `b.score - a.score` compares on. */
  function Key(c: ResultChunk): real {
    if c.score.Some? then c.score.value else 0.0
  }

  predicate SortedByScore(cs: seq<ResultChunk>) {
    forall i, j | 0 <= i < j < |cs| :: Key(cs[i]) >= Key(cs[j])
  }

  /** Inserting `c` in front of every element whose score is not higher. */
  function InsertByScore(c: ResultChunk, s: seq<ResultChunk>): (r: seq<ResultChunk>)
    ensures |r| == |s| + 1
  {
    if s == [] || Key(c) >= Key(s[0]) then [c] + s
    else [s[0]] + InsertByScore(c, s[1..])
  }

  /** Inserting adds `c` and loses nothing. */
  lemma {:induction false} InsertByScorePerm(c: ResultChunk, s: seq<ResultChunk>)
    ensures multiset(InsertByScore(c, s)) == multiset(s) + multiset{c}
    decreases |s|
  {
    if s != [] && Key(c) < Key(s[0]) {
      InsertByScorePerm(c, s[1..]);
      assert s == [s[0]] + s[1..];
    }
  }

  /** `chunks.sort((a, b) => b.score - a.score)`, a stable sort by descending score. */
  function SortByScore(cs: seq<ResultChunk>): (r: seq<ResultChunk>)
    ensures |r| == |cs|
    decreases |cs|
  {
    if cs == [] then []
    else InsertByScore(cs[0], SortByScore(cs[1..]))
  }

  lemma {:induction false} InsertKeepsSorted(c: ResultChunk, s: seq<ResultChunk>)
    requires SortedByScore(s)
    ensures SortedByScore(InsertByScore(c, s))
    decreases |s|
  {
    if s != [] && Key(c) < Key(s[0]) {
      var t := InsertByScore(c, s[1..]);
      InsertKeepsSorted(c, s[1..]);
      InsertBounded(c, s[1..], Key(s[0]));
      assert InsertByScore(c, s) == [s[0]] + t;
    }
  }

  /** Inserting under a bound every element respects keeps every element under it. */
  lemma {:induction false} InsertBounded(c: ResultChunk, s: seq<ResultChunk>, bound: real)
    requires Key(c) <= bound && forall i | 0 <= i < |s| :: Key(s[i]) <= bound
    ensures forall i | 0 <= i < |InsertByScore(c, s)| :: Key(InsertByScore(c, s)[i]) <= bound
    decreases |s|
  {
    if s != [] && Key(c) < Key(s[0]) {
      InsertBounded(c, s[1..], bound);
      assert InsertByScore(c, s) == [s[0]] + InsertByScore(c, s[1..]);
    }
  }

  /** The sorted results are ordered by descending score and are a permutation of
      the input. */
  lemma {:induction false} SortByScoreSorted(cs: seq<ResultChunk>)
    ensures SortedByScore(SortByScore(cs))
    ensures multiset(SortByScore(cs)) == multiset(cs)
    decreases |cs|
  {
    if cs != [] {
      SortByScoreSorted(cs[1..]);
      InsertKeepsSorted(cs[0], SortByScore(cs[1..]));
      InsertByScorePerm(cs[0], SortByScore(cs[1..]));
      assert cs == [cs[0]] + cs[1..];
    }
  }

  /** The elements whose score is `k`, in order. */
  function WithKey(cs: seq<ResultChunk>, k: real): seq<ResultChunk> {
    if cs == [] then [] else (if Key(cs[0]) == k then [cs[0]] else []) + WithKey(cs[1..], k)
  }

  lemma WithKeyCons(x: ResultChunk, s: seq<ResultChunk>, k: real)
    ensures WithKey([x] + s, k) == (if Key(x) == k then [x] else []) + WithKey(s, k)
  {
    assert ([x] + s)[0] == x && ([x] + s)[1..] == s;
  }

  lemma {:induction false} InsertStable(c: ResultChunk, s: seq<ResultChunk>, k: real)
    ensures WithKey(InsertByScore(c, s), k) == (if Key(c) == k then [c] else []) + WithKey(s, k)
    decreases |s|
  {
    if s == [] || Key(c) >= Key(s[0]) {
      assert InsertByScore(c, s) == [c] + s;
      WithKeyCons(c, s, k);
    } else {
      var t := InsertByScore(c, s[1..]);
      assert InsertByScore(c, s) == [s[0]] + t;
      assert s == [s[0]] + s[1..];
      WithKeyCons(s[0], t, k);
      WithKeyCons(s[0], s[1..], k);
      InsertStable(c, s[1..], k);
      if Key(c) == k {
        // then s[0], scored higher than c, has a different key
        assert WithKey(s, k) == WithKey(s[1..], k);
        assert WithKey([s[0]] + t, k) == WithKey(t, k);
      } else {
        assert WithKey(t, k) == WithKey(s[1..], k);
      }
    }
  }

  /** The sort is stable: chunks with equal scores keep their order. */
  lemma {:induction false} SortByScoreStable(cs: seq<ResultChunk>, k: real)
    ensures WithKey(SortByScore(cs), k) == WithKey(cs, k)
    decreases |cs|
  {
    if cs != [] {
      SortByScoreStable(cs[1..], k);
      InsertStable(cs[0], SortByScore(cs[1..]), k);
    }
  }

  /** What a semantic search delivers for the worker's ranking: the looked-up chunks,
      scored and ordered. */
  function Ranking(chunks: seq<ResultChunk>, ranked: seq<Ranked>): seq<ResultChunk> {
    SortByScore(WithScores(chunks, ranked))
  }

  function RankedIds(ranked: seq<Ranked>): (ids: seq<int>)
    ensures |ids| == |ranked| && forall i | 0 <= i < |ranked| :: ids[i] == ranked[i].chunkId
  {
    seq(|ranked|, i requires 0 <= i < |ranked| => ranked[i].chunkId)
  }

  // ---------------------------------------------------------------------------
  // Engine state

  /** `{ type: "search", query, limit }`. */
  datatype SearchMsg = SearchMsg(query: JsString, limit: int)

  /** The messages the embed worker sends back. */
  datatype WorkerEvent = Ready | VectorsCached | SemanticResults(results: seq<Ranked>) | WorkerError | Unknown

  /** Each message twice in a row, in order. */
  function Doubled(ms: seq<SearchMsg>): seq<SearchMsg> {
    if ms == [] then [] else [ms[0], ms[0]] + Doubled(ms[1..])
  }

  /** The worker receives each queued message twice, in queue order. */
  lemma {:induction false} DoubledSpec(ms: seq<SearchMsg>)
    ensures |Doubled(ms)| == 2 * |ms|
    ensures forall i | 0 <= i < |ms| :: Doubled(ms)[2 * i] == ms[i] && Doubled(ms)[2 * i + 1] == ms[i]
    decreases |ms|
  {
    if ms != [] {
      DoubledSpec(ms[1..]);
      var rest := Doubled(ms[1..]);
      forall i | 1 <= i < |ms|
        ensures Doubled(ms)[2 * i] == ms[i] && Doubled(ms)[2 * i + 1] == ms[i]
      {
        assert Doubled(ms)[2 * i] == rest[2 * (i - 1)];
        assert Doubled(ms)[2 * i + 1] == rest[2 * (i - 1) + 1];
      }
    }
  }

  class SiftSearch {
    /** The database, as the rows `_getChunksByIds` gets for a list of ids. */
    const lookup: RowLookup
    var modelReady: bool
    var vectorsCached: bool
    var pending: seq<SearchMsg>
    /** The search messages posted to the embed worker, in order. */
    var posted: seq<SearchMsg>
    /** The latest search's promise is still unsettled (its resolver is the one
        `_resolveSemantic` and `_rejectSemantic` hold). */
    var awaiting: bool
    /** What `onSemantic` callbacks have received, in order. */
    var delivered: seq<seq<ResultChunk>>
    /** `_semanticCallback`, which the "semantic-results" branch tests and which no
        code assigns. */
    const semanticCallback: bool

    /** Searches wait in the queue only while the model is loading. */
    predicate Valid()
      reads this
    {
      modelReady ==> pending == []
    }

    constructor (lookup: RowLookup)
      ensures this.lookup == lookup
      ensures !modelReady && !vectorsCached && pending == [] && posted == []
      ensures !awaiting && delivered == [] && !semanticCallback
      ensures Valid()
    {
      this.lookup := lookup;
      modelReady := false;
      vectorsCached := false;
      pending := [];
      posted := [];
      awaiting := false;
      delivered := [];
      semanticCallback := false;
    }

    /** `_getChunksByIds(ids)`: no rows for no ids, and no row carries a score. */
    function FetchChunks(ids: seq<int>): (r: seq<ResultChunk>)
      ensures ids == [] ==> r == []
      ensures Unscored(r)
    {
      if ids == [] then [] else lookup(ids)
    }

    /** `_semanticSearch(query, limit)`: the message goes to the worker at once when the
        model is ready and to the queue otherwise; the new promise replaces the
        previous one as the one the worker's answer settles. */
    method SemanticSearch(query: JsString, limit: int)
      requires Valid()
      modifies this
      ensures Valid()
      ensures modelReady == old(modelReady) && vectorsCached == old(vectorsCached)
      ensures old(modelReady) ==> posted == old(posted) + [SearchMsg(query, limit)] && pending == old(pending)
      ensures !old(modelReady) ==> pending == old(pending) + [SearchMsg(query, limit)] && posted == old(posted)
      ensures awaiting && delivered == old(delivered)
    {
      var msg := SearchMsg(query, limit);
      awaiting := true;
      if modelReady {
        posted := posted + [msg];
      } else {
        pending := pending + [msg];
      }
    }

    /** The "ready" branch: each queued message is posted directly and once more by
        its queue entry's `resolve`, in queue order; then the queue is emptied. */
    method FlushPending()
      modifies this
      ensures modelReady && pending == [] && posted == old(posted) + Doubled(old(pending))
      ensures vectorsCached == old(vectorsCached) && awaiting == old(awaiting) && delivered == old(delivered)
    {
      modelReady := true;
      var queue := pending;
      for i := 0 to |queue|
        invariant posted == old(posted) + Doubled(queue[..i])
        invariant modelReady && vectorsCached == old(vectorsCached)
        invariant awaiting == old(awaiting) && delivered == old(delivered)
      {
        posted := posted + [queue[i]];
        posted := posted + [queue[i]];
        DoubledSnoc(queue[..i], queue[i]);
        assert queue[..i + 1] == queue[..i] + [queue[i]];
      }
      assert queue[..|queue|] == queue;
      pending := [];
    }

    /** The worker's ranking settles the awaited promise with the looked-up chunks,
        scored and ordered. This is the branch as it is evidently meant to work; see
        `DeliverAsWritten` for the branch as the source has it. */
    method Deliver(results: seq<Ranked>)
      modifies this
      ensures modelReady == old(modelReady) && vectorsCached == old(vectorsCached)
      ensures pending == old(pending) && posted == old(posted) && !awaiting
      ensures delivered == old(delivered) + if old(awaiting) then [Ranking(FetchChunks(RankedIds(results)), results)] else []
    {
      if awaiting {
        var rows := FetchChunks(RankedIds(results));
        var chunks := new ResultChunk[|rows|](i requires 0 <= i < |rows| => rows[i]);
        assert chunks[..] == rows;
        AttachScores(chunks, results);
        delivered := delivered + [SortByScore(chunks[..])];
        awaiting := false;
      }
    }

    /** The "semantic-results" branch as written: the resolver runs only when
        `_semanticCallback` is set, which never happens, so nothing is delivered. */
    method DeliverAsWritten(results: seq<Ranked>)
      modifies this
      ensures !semanticCallback ==>
        modelReady == old(modelReady) && vectorsCached == old(vectorsCached)
        && pending == old(pending) && posted == old(posted)
        && awaiting == old(awaiting) && delivered == old(delivered)
    {
      if semanticCallback {
        Deliver(results);
      }
    }

    /** `_onWorkerMessage(e)`, with the "semantic-results" branch in its corrected
        form: the source tests `_semanticCallback`, which is never set, so as written
        that branch does nothing (see `DeliverAsWritten`). An "error" rejects the
        awaited promise, and `search` then hands [] to `onSemantic`. */
    method OnWorkerMessage(event: WorkerEvent)
      requires Valid()
      modifies this
      ensures Valid()
      ensures event.Ready? ==>
        modelReady && pending == [] && posted == old(posted) + Doubled(old(pending))
        && vectorsCached == old(vectorsCached) && awaiting == old(awaiting) && delivered == old(delivered)
      ensures event.VectorsCached? ==>
        vectorsCached && modelReady == old(modelReady) && pending == old(pending) && posted == old(posted)
        && awaiting == old(awaiting) && delivered == old(delivered)
      ensures event.SemanticResults? ==>
        modelReady == old(modelReady) && vectorsCached == old(vectorsCached)
        && pending == old(pending) && posted == old(posted) && !awaiting
        && delivered == old(delivered) + if old(awaiting) then [Ranking(FetchChunks(RankedIds(event.results)), event.results)] else []
      ensures event.WorkerError? ==>
        modelReady == old(modelReady) && vectorsCached == old(vectorsCached)
        && pending == old(pending) && posted == old(posted) && !awaiting
        && delivered == old(delivered) + if old(awaiting) then [[]] else []
      ensures event.Unknown? ==>
        modelReady == old(modelReady) && vectorsCached == old(vectorsCached)
        && pending == old(pending) && posted == old(posted)
        && awaiting == old(awaiting) && delivered == old(delivered)
    {
      match event {
        case Ready =>
          FlushPending();
        case VectorsCached =>
          vectorsCached := true;
        case SemanticResults(results) =>
          Deliver(results);
        case WorkerError =>
          if awaiting {
            delivered := delivered + [[]];
            awaiting := false;
          }
        case Unknown =>
      }
    }
  }

  lemma DoubledSnoc(ms: seq<SearchMsg>, m: SearchMsg)
    ensures Doubled(ms + [m]) == Doubled(ms) + [m, m]
    decreases |ms|
  {
    if ms == [] {
      assert [m][1..] == [];
    } else {
      DoubledSnoc(ms[1..], m);
      assert (ms + [m])[1..] == ms[1..] + [m];
    }
  }

  /** A search made before the model is ready reaches the worker twice once "ready"
      arrives, and the first semantic answer settles its promise; with the branch as
      written, that answer is dropped and the search never completes. */
  method SearchBeforeReady(lookup: RowLookup, query: JsString, results: seq<Ranked>)
    returns (posted: seq<SearchMsg>, delivered: seq<seq<ResultChunk>>, deliveredAsWritten: seq<seq<ResultChunk>>)
    ensures posted == [SearchMsg(query, 10), SearchMsg(query, 10)]
    ensures delivered == [Ranking(if results == [] then [] else lookup(RankedIds(results)), results)]
    ensures deliveredAsWritten == []
  {
    var engine := new SiftSearch(lookup);
    engine.SemanticSearch(query, 10);
    engine.OnWorkerMessage(Ready);
    posted := engine.posted;
    var asWritten := new SiftSearch(lookup);
    asWritten.SemanticSearch(query, 10);
    asWritten.OnWorkerMessage(Ready);
    asWritten.DeliverAsWritten(results);
    deliveredAsWritten := asWritten.delivered;
    engine.OnWorkerMessage(SemanticResults(results));
    delivered := engine.delivered;
    assert RankedIds(results) == [] <==> results == [];
  }
}
