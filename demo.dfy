/** Model of the demo page's script (demo/src/main.js): the page state it keeps in
    module globals and the result list, the lexical query it builds, when typing
    triggers a search, and how each result is rendered. The page reuses the
    runtime's query, lookup and ranking definitions where its code is the same
    expression. The database is two functions: the row ids an FTS request matches,
    and the rows for a list of ids. */
module Demo {
  import opened Wrappers
  import opened JsText
  import opened Runtime

  // ---------------------------------------------------------------------------
  // Lexical query

  /** The demo's `LIMIT 10` on the FTS query. */
  const LexicalLimit: int := 10
  /** The `limit` of the demo's semantic search messages. */
  const SemanticLimit: int := 10

  /** `lexicalSearch` decides on the word list before building the query: no word
      longer than one code unit means no query. */
  function DemoLexicalRequest(query: JsString): Option<FtsRequest> {
    var words := KeptWords(query);
    if |words| == 0 then None else Some(FtsRequest(OrOfQuoted(words), LexicalLimit))
  }

  /** Testing the word list first, as the demo does, and testing the joined string, as
      the runtime does, give the same request. */
  lemma DemoRequestIsRuntimeRequest(query: JsString)
    ensures DemoLexicalRequest(query) == LexicalRequest(query, LexicalLimit)
    ensures DemoLexicalRequest(query).Some? ==> ReadOrQuery(DemoLexicalRequest(query).value.matchQuery) == KeptWords(query)
  {
    FtsQueryReadsBack(query);
  }

  // ---------------------------------------------------------------------------
  // Rendering

  const SemanticTag: JsString := Ascii("semantic")
  const LexicalTag: JsString := Ascii("lexical")
  const KeywordLabel: JsString := Ascii("keyword")
  const SemanticClass: JsString := Ascii("tag-semantic")
  const LexicalClass: JsString := Ascii("tag-lexical")
  const Ellipsis: JsString := Ascii("...")

  const SnippetMax: nat := 200

  /** `r.content.length > 200 ? r.content.slice(0, 200) + "..." : r.content`, in code
      units. */
  function Snippet(content: JsString): JsString {
    if |content| > SnippetMax then content[..SnippetMax] + Ellipsis else content
  }

  /** A snippet is the content when it fits; otherwise its first 200 code units and
      an ellipsis. It never exceeds 203 code units, always starts like the content,
      and shortening a snippet again changes nothing. */
  lemma SnippetSpec(content: JsString)
    ensures |content| <= SnippetMax ==> Snippet(content) == content
    ensures |content| > SnippetMax ==>
      |Snippet(content)| == SnippetMax + 3 && Snippet(content)[..SnippetMax] == content[..SnippetMax]
      && Snippet(content)[SnippetMax..] == Ellipsis
    ensures |Snippet(content)| <= SnippetMax + 3
    ensures Snippet(Snippet(content)) == Snippet(content)
  {
    if |content| > SnippetMax {
      var s := Snippet(content);
      assert s[..SnippetMax] == content[..SnippetMax];
      assert s[..SnippetMax] + Ellipsis == s;
    }
  }

  function TagClass(tag: JsString): JsString {
    if tag == SemanticTag then SemanticClass else LexicalClass
  }

  function TagLabel(tag: JsString): JsString {
    if tag == SemanticTag then SemanticTag else KeywordLabel
  }

  /** The tag's label and class agree: "semantic" and "tag-semantic" for semantic
      results, "keyword" and "tag-lexical" for anything else. */
  lemma TagAgrees(tag: JsString)
    ensures TagLabel(tag) == SemanticTag <==> tag == SemanticTag
    ensures TagClass(tag) == SemanticClass <==> TagLabel(tag) == SemanticTag
    ensures tag != SemanticTag ==> TagLabel(tag) == KeywordLabel && TagClass(tag) == LexicalClass
  {
    assert SemanticTag != KeywordLabel by {
      assert SemanticTag[0] != KeywordLabel[0];
    }
    assert SemanticClass != LexicalClass by {
      assert SemanticClass[4] != LexicalClass[4];
    }
  }

  /** One list item: the "No results found." item, or a result with its title, tag,
      url, snippet and, for scored results, the score. */
  datatype ListItem =
    | NoResults
    | ResultItem(title: JsString, tagClass: JsString, tagLabel: JsString, url: JsString,
                 snippet: JsString, score: Option<real>)

  function Item(r: ResultChunk, tag: JsString): ListItem {
    ResultItem(r.title, TagClass(tag), TagLabel(tag), r.url, Snippet(r.content), r.score)
  }

  /** The list `renderResults(results, tag)` leaves in the page. */
  function Rendered(results: seq<ResultChunk>, tag: JsString): seq<ListItem> {
    if results == [] then [NoResults]
    else seq(|results|, i requires 0 <= i < |results| => Item(results[i], tag))
  }

  /** An empty result list renders the single "No results found." item; otherwise
      there is one item per result, in order, each showing that result's title, url
      and snippet, and that result's score, if any. */
  lemma RenderedSpec(results: seq<ResultChunk>, tag: JsString)
    ensures results == [] ==> Rendered(results, tag) == [NoResults]
    ensures results != [] ==>
      |Rendered(results, tag)| == |results|
      && forall i | 0 <= i < |results| ::
           var item := Rendered(results, tag)[i];
           && item.ResultItem? && item.title == results[i].title && item.url == results[i].url
           && item.snippet == Snippet(results[i].content)
           && item.score == results[i].score
  {
  }

  // ---------------------------------------------------------------------------
  // Page state

  datatype PageEvent = PageReady | PageResults(results: seq<Ranked>) | PageError | PageOther

  class DemoPage {
    /** The row ids the FTS table matches for a request. */
    const matches: FtsRequest -> seq<int>
    /** The rows of the chunks table for a list of ids. */
    const lookup: RowLookup
    var modelReady: bool
    /** The text in the search box. */
    var input: JsString
    /** The items of the results list. */
    var list: seq<ListItem>
    /** The search messages posted to the embed worker, in order. */
    var posted: seq<SearchMsg>

    constructor (matches: FtsRequest -> seq<int>, lookup: RowLookup)
      ensures this.matches == matches && this.lookup == lookup
      ensures !modelReady && input == [] && list == [] && posted == []
    {
      this.matches := matches;
      this.lookup := lookup;
      modelReady := false;
      input := [];
      list := [];
      posted := [];
    }

    /** `getChunksByIds(ids)`: no rows for no ids, and no row carries a score. */
    function FetchChunks(ids: seq<int>): (r: seq<ResultChunk>)
      ensures ids == [] ==> r == []
      ensures Unscored(r)
    {
      if ids == [] then [] else lookup(ids)
    }

    /** `lexicalSearch(query)`: no rows for a query with no kept word, and no keyword
        result carries a score. */
    function LexicalResults(query: JsString): (r: seq<ResultChunk>)
      ensures DemoLexicalRequest(query).None? ==> r == []
      ensures Unscored(r)
    {
      match DemoLexicalRequest(query)
      case None => []
      case Some(request) => FetchChunks(matches(request))
    }

    /** `renderResults(results, tag)`: the list is cleared, then gets the "No results
        found." item or one item per result. */
    method RenderResults(results: seq<ResultChunk>, tag: JsString)
      modifies this
      ensures list == Rendered(results, tag)
      ensures modelReady == old(modelReady) && input == old(input) && posted == old(posted)
    {
      list := [];
      if |results| == 0 {
        list := [NoResults];
        return;
      }
      for i := 0 to |results|
        invariant list == seq(i, j requires 0 <= j < i => Item(results[j], tag))
        invariant modelReady == old(modelReady) && input == old(input) && posted == old(posted)
      {
        list := list + [Item(results[i], tag)];
      }
    }

    /** `doSearch(query)`: the keyword results are rendered at once, and the query goes
        to the worker only when the model is ready. */
    method DoSearch(query: JsString)
      modifies this
      ensures list == Rendered(LexicalResults(query), LexicalTag)
      ensures forall i | 0 <= i < |list| :: list[i].ResultItem? ==> list[i].score == None
      ensures posted == old(posted) + if old(modelReady) then [SearchMsg(query, SemanticLimit)] else []
      ensures modelReady == old(modelReady) && input == old(input)
    {
      var lexical := LexicalResults(query);
      RenderResults(lexical, LexicalTag);
      RenderedSpec(lexical, LexicalTag);
      if modelReady {
        posted := posted + [SearchMsg(query, SemanticLimit)];
      }
    }

    /** The debounced input handler: the trimmed text is searched when it is longer
        than one code unit; otherwise the list is cleared and nothing is posted. */
    method OnInput()
      modifies this
      ensures var q := Trim(old(input));
        if |q| > 1 then
          list == Rendered(LexicalResults(q), LexicalTag)
          && posted == old(posted) + if old(modelReady) then [SearchMsg(q, SemanticLimit)] else []
        else list == [] && posted == old(posted)
      ensures forall i | 0 <= i < |list| :: list[i].ResultItem? ==> list[i].score == None
      ensures modelReady == old(modelReady) && input == old(input)
    {
      var query := Trim(input);
      if |query| > 1 {
        DoSearch(query);
      } else {
        list := [];
      }
    }

    /** `showSemanticResults(ranked)`: the ranked chunks, scored and ordered, rendered
        with the semantic tag. */
    method ShowSemanticResults(ranked: seq<Ranked>)
      modifies this
      ensures list == Rendered(Ranking(FetchChunks(RankedIds(ranked)), ranked), SemanticTag)
      ensures modelReady == old(modelReady) && input == old(input) && posted == old(posted)
    {
      var chunks := FetchChunks(RankedIds(ranked));
      var results := Ranking(chunks, ranked);
      RenderResults(results, SemanticTag);
    }

    /** The "ready" branch of `onWorkerMessage`: the model is marked ready and any
        non-blank text in the box is searched again (also a one-unit query, which the
        input handler would not search), so that it now reaches the worker. */
    method OnReady()
      modifies this
      ensures modelReady && input == old(input)
      ensures var q := Trim(old(input));
        if q != [] then
          list == Rendered(LexicalResults(q), LexicalTag) && posted == old(posted) + [SearchMsg(q, SemanticLimit)]
        else list == old(list) && posted == old(posted)
    {
      modelReady := true;
      var query := Trim(input);
      if query != [] {
        DoSearch(query);
      }
    }

    /** `onWorkerMessage(e)`: "ready" and "semantic-results" are handled; an error only
        changes the status line. */
    method OnWorkerMessage(event: PageEvent)
      modifies this
      ensures event.PageReady? ==> modelReady && input == old(input)
      ensures event.PageReady? ==> var q := Trim(old(input));
        if q != [] then
          list == Rendered(LexicalResults(q), LexicalTag) && posted == old(posted) + [SearchMsg(q, SemanticLimit)]
        else list == old(list) && posted == old(posted)
      ensures event.PageResults? ==>
        list == Rendered(Ranking(FetchChunks(RankedIds(event.results)), event.results), SemanticTag)
        && modelReady == old(modelReady) && input == old(input) && posted == old(posted)
      ensures (event.PageError? || event.PageOther?) ==>
        list == old(list) && modelReady == old(modelReady) && input == old(input) && posted == old(posted)
    {
      match event {
        case PageReady =>
          OnReady();
        case PageResults(results) =>
          ShowSemanticResults(results);
        case PageError =>
        case PageOther =>
      }
    }
  }

  /** Typing a query before the model is ready shows keyword results only; once the
      worker reports "ready", the same query is searched again and posted to the
      worker once. */
  method TypeThenReady(matches: FtsRequest -> seq<int>, lookup: RowLookup, text: JsString)
    returns (beforeReady: seq<SearchMsg>, afterReady: seq<SearchMsg>)
    requires |Trim(text)| > 1
    ensures beforeReady == []
    ensures afterReady == [SearchMsg(Trim(text), SemanticLimit)]
  {
    var page := new DemoPage(matches, lookup);
    page.input := text;
    page.OnInput();
    beforeReady := page.posted;
    page.OnWorkerMessage(PageReady);
    afterReady := page.posted;
  }
}
