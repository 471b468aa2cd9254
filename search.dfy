/**
 * `search_documents`: the blank-query guard, the snippet cut around the
 * first case-insensitive occurrence of the query, and the assembly of the
 * response from the hits the database ranks.
 */
module Search {
  import opened Wrappers
  import opened Text

  /**
   * A stored `DocumentFile` as the aggregation pipeline returns it. A `content`
   * of `None` stands for a document without a `content` field; a field stored
   * as null is not modelled.
   */
  datatype StoredDoc = StoredDoc(
    id: string,
    name: string,
    path: string,
    relativePath: string,
    fileType: string,
    size: int,
    content: Option<string>)

  /** One document matched by the text search, with the score the database gave it. */
  datatype Hit = Hit(doc: StoredDoc, score: real)

  /** A `SearchResult`. */
  datatype SearchResult = SearchResult(document: StoredDoc, relevanceScore: real, snippet: string)

  /**
   * What `search_documents` answers: `{"results": [], "total": 0}` for a
   * blank query, the results with their count and the query otherwise, or
   * an HTTP error when the pipeline raises.
   */
  datatype SearchResponse =
    | NoQuery
    | Found(results: seq<SearchResult>, total: int, query: string)
    | ServerError(status: int)

  /** Characters kept before the match. */
  const Before := 50
  /** Characters kept after the start of the match, beyond the query's length. */
  const After := 100
  /** Length of the prefix shown when the query does not occur. */
  const Fallback := 150
  const Ellipsis := "..."

  /** `doc.get('content', '')`: the stored content, or "" when the document has none. */
  function ContentOf(d: StoredDoc): (c: string)
    ensures d.content.Some? ==> c == d.content.value
    ensures d.content.None? ==> c == []
  {
    match d.content
    case None => ""
    case Some(c) => c
  }

  /** The window `content[start:end]` around a match of length `qlen` at `i`. */
  datatype Window = Window(start: nat, end: nat)

  /**
   * `start = max(0, i - 50)` and `end = min(len(content), i + len(query) + 100)`:
   * the window holds the whole match, stays inside the content, and is at
   * most 150 characters longer than the query.
   */
  function MatchWindow(len: nat, i: nat, qlen: nat): (w: Window)
    requires i + qlen <= len
    ensures 0 <= w.start <= i && i + qlen <= w.end <= len
    ensures w.end - w.start <= qlen + Before + After
    ensures i >= Before ==> w.start == i - Before
    ensures i < Before ==> w.start == 0
    ensures i + qlen + After <= len ==> w.end == i + qlen + After
    ensures len < i + qlen + After ==> w.end == len
  {
    var start := if i - Before > 0 then i - Before else 0;
    var end := if len < i + qlen + After then len else i + qlen + After;
    Window(start, end)
  }

  /** Lower-casing a slice is slicing the lower-cased text. */
  lemma LowerSlice(s: string, a: nat, b: nat)
    requires a <= b <= |s|
    ensures Lower(s[a..b]) == Lower(s)[a..b]
  {
  }

  /** The query occurs at `k` in the content, ignoring ASCII case. */
  predicate MatchesAt(content: string, query: string, k: nat) {
    k + |query| <= |content| && Lower(content[k..k + |query|]) == Lower(query)
  }

  /** A case-insensitive match is an occurrence in the lower-cased texts. */
  lemma MatchesAtLowered(content: string, query: string, k: nat)
    ensures MatchesAt(content, query, k) <==> OccursAt(Lower(content), Lower(query), k)
  {
    if k + |query| <= |content| {
      LowerSlice(content, k, k + |query|);
    }
  }

  /**
   * The position the snippet is cut around: the first case-insensitive
   * match, or -1 when there is none.
   */
  function FirstMatch(content: string, query: string): (i: int)
    ensures i == -1 || (0 <= i && MatchesAt(content, query, i))
    ensures i == -1 <==> forall k: nat :: !MatchesAt(content, query, k)
    ensures forall k: nat :: k < i ==> !MatchesAt(content, query, k)
  {
    var i := Find(Lower(content), Lower(query));
    forall k: nat ensures MatchesAt(content, query, k) <==> OccursAt(Lower(content), Lower(query), k) {
      MatchesAtLowered(content, query, k);
    }
    i
  }

  /** `"..." + s + "..."`. */
  function Framed(s: string): (r: string)
    ensures |r| == |s| + 6
    ensures r[..3] == Ellipsis && r[|r| - 3..] == Ellipsis && r[3..|r| - 3] == s
  {
    Ellipsis + s + Ellipsis
  }

  /** A stretch of the content inside the window `[a, b)` appears in the framed window at offset `3 + k - a`. */
  lemma WrappedSlice(content: string, a: nat, b: nat, k: nat, len: nat)
    requires a <= k && k + len <= b <= |content|
    ensures Framed(content[a..b])[3 + k - a .. 3 + k - a + len] == content[k..k + len]
  {
    var r := Framed(content[a..b]);
    var shown, matched := r[3 + k - a .. 3 + k - a + len], content[k..k + len];
    forall j | 0 <= j < len
      ensures shown[j] == matched[j]
    {
      assert shown[j] == r[3..|r| - 3][k - a + j];
    }
  }

  /**
   * The snippet of `search_documents` for `content` and `query`. When the
   * query occurs ignoring ASCII case, it is the window around the first
   * match between two ellipses, and shows the match, equal to the query
   * but for case, `i - start` characters after the first ellipsis. Otherwise it is the content, cut to 150
   * characters and an ellipsis when longer. Either way it is at most 156
   * characters longer than the query.
   */
  function Snippet(content: string, query: string): (r: string)
    ensures |r| <= |query| + 156
    ensures var i := FirstMatch(content, query);
      i >= 0 ==>
        var w := MatchWindow(|content|, i, |query|);
        6 <= |r| && r[..3] == Ellipsis && r[|r| - 3..] == Ellipsis
        && r[3..|r| - 3] == content[w.start..w.end]
        && r[3 + i - w.start .. 3 + i - w.start + |query|] == content[i..i + |query|]
        && Lower(r[3 + i - w.start .. 3 + i - w.start + |query|]) == Lower(query)
    ensures FirstMatch(content, query) == -1 ==> r == Truncate(content, Fallback)
  {
    var i := FirstMatch(content, query);
    if i != -1 then
      var w := MatchWindow(|content|, i, |query|);
      WrappedSlice(content, w.start, w.end, i, |query|);
      Framed(content[w.start..w.end])
    else
      Truncate(content, Fallback)
  }

  /** One entry of the response: the hit's document and score with its snippet. */
  function ResultFor(h: Hit, query: string): (r: SearchResult)
    ensures r.document == h.doc && r.relevanceScore == h.score
    ensures |r.snippet| <= |query| + 156
  {
    SearchResult(h.doc, h.score, Snippet(ContentOf(h.doc), query))
  }

  /** The loop of `search_documents` over the documents the pipeline yields: one result for each, in order. */
  method CollectResults(hits: seq<Hit>, query: string) returns (results: seq<SearchResult>)
    ensures |results| == |hits|
    ensures forall j :: 0 <= j < |hits| ==> results[j] == ResultFor(hits[j], query)
  {
    results := [];
    for j := 0 to |hits|
      invariant |results| == j
      invariant forall k :: 0 <= k < j ==> results[k] == ResultFor(hits[k], query)
    {
      results := results + [ResultFor(hits[j], query)];
    }
  }

  /**
   * `search_documents`. `ranked` stands for what the `$match`/`$sort`
   * pipeline yields before `$limit`; a limit that is not positive makes
   * the pipeline raise, which the handler turns into HTTP 500.
   */
  method SearchDocuments(query: string, limit: int, ranked: seq<Hit>) returns (resp: SearchResponse)
    ensures AllSpace(query) ==> resp == NoQuery
    ensures !AllSpace(query) && limit <= 0 ==> resp == ServerError(500)
    ensures !AllSpace(query) && limit > 0 ==>
      resp.Found? && resp.query == query && resp.total == |resp.results|
      && |resp.results| == (if limit < |ranked| then limit else |ranked|)
      && forall j :: 0 <= j < |resp.results| ==> resp.results[j] == ResultFor(ranked[j], query)
  {
    if Strip(query) == [] {
      return NoQuery;
    }
    if limit <= 0 {
      return ServerError(500);
    }
    var n := if limit < |ranked| then limit else |ranked|;
    var results := CollectResults(ranked[..n], query);
    return Found(results, |results|, query);
  }
}
