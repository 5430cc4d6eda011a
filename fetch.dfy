/**
 * Building a batch of headline rows from a headlines response: articles
 * without a usable title are dropped, and missing fields get their defaults.
 */
module Fetch {
  import opened Records

  /** The placeholder title the news service puts on withdrawn articles. */
  const Removed: string := "[Removed]"

  /** The source name used when an article names no source. */
  const UnknownSource: string := "Unknown"

  /**
   * What the HTTP exchange yields: a failure of any kind (connection,
   * timeout, non-2xx status, undecodable body), or a decoded body whose
   * `articles` key may be missing, null or present.
   */
  datatype Response = Failed | Received(articles: Field<seq<Article>>)

  /** An article is kept when its title is truthy and not the removal marker. */
  predicate Keep(a: Article)
  {
    a.title.Present? && a.title.value != "" && a.title.value != Removed
  }

  /** The row id: the url when the key is there (even if null), else a fresh token. */
  function IdOf(a: Article, token: string): Id
  {
    match a.url
    case Absent => Some(token)
    case Null => None
    case Present(u) => Some(u)
  }

  /** The source name; a missing, null or nameless source reads as "Unknown". */
  function SourceOf(a: Article): Option<string>
  {
    match a.source
    case Present(Source(name)) =>
      (match name
       case Absent => Some(UnknownSource)
       case Null => None
       case Present(n) => Some(n))
    case _ => Some(UnknownSource)
  }

  /** The publication time; a missing one is the fetch time, a null one parses to NaT. */
  function PublishedOf(a: Article, now: int): Stamp
  {
    match a.publishedAt
    case Absent => At(now)
    case Null => NaT
    case Present(t) => At(t)
  }

  /** The row built for a kept article. */
  function MakeHeadline(a: Article, token: string, now: int): (h: Headline)
    requires Keep(a)
    ensures h.title == a.title.value && h.title != "" && h.title != Removed
    ensures a.url.Absent? ==> h.id == Some(token)
    ensures a.url.Present? ==> h.id == Some(a.url.value)
    ensures a.url.Null? ==> h.id == None
    ensures (a.source.Absent? || a.source.Null? || a.source.value.name.Absent?) ==> h.source == Some(UnknownSource)
    ensures a.source.Present? && a.source.value.name.Null? ==> h.source == None
    ensures a.source.Present? && a.source.value.name.Present? ==> h.source == Some(a.source.value.name.value)
    ensures a.publishedAt.Absent? ==> h.publishedAt == At(now)
    ensures a.publishedAt.Null? ==> h.publishedAt == NaT
    ensures a.publishedAt.Present? ==> h.publishedAt == At(a.publishedAt.value)
  {
    Headline(IdOf(a, token), SourceOf(a), a.title.value, PublishedOf(a, now))
  }

  /**
   * The batch built from a list of articles, in order. Article i's fresh
   * token is `tokenAt(i)` and the clock reads `clock(i)` when its row is built.
   */
  function Rows(articles: seq<Article>, tokenAt: nat -> string, clock: nat -> int): seq<Headline>
    decreases |articles|
  {
    if articles == [] then []
    else
      var i := |articles| - 1;
      Rows(articles[..i], tokenAt, clock)
        + (if Keep(articles[i]) then [MakeHeadline(articles[i], tokenAt(i), clock(i))] else [])
  }

  /** The positions of the kept articles, in increasing order. */
  function KeptIndices(articles: seq<Article>): seq<nat>
    decreases |articles|
  {
    if articles == [] then []
    else
      var i := |articles| - 1;
      KeptIndices(articles[..i]) + (if Keep(articles[i]) then [i] else [])
  }

  /** The batch a response yields; every failure and every empty list yields no rows. */
  function Fetched(response: Response, tokenAt: nat -> string, clock: nat -> int): seq<Headline>
  {
    match response
    case Received(Present(articles)) => Rows(articles, tokenAt, clock)
    case _ => []
  }

  /**
   * The kept positions are exactly the positions of articles with a usable
   * title, each once and in increasing order.
   */
  lemma {:induction false} KeptIndicesExact(articles: seq<Article>)
    ensures forall k :: 0 <= k < |KeptIndices(articles)| ==>
              KeptIndices(articles)[k] < |articles| && Keep(articles[KeptIndices(articles)[k]])
    ensures forall k, l :: 0 <= k < l < |KeptIndices(articles)| ==>
              KeptIndices(articles)[k] < KeptIndices(articles)[l]
    ensures forall i :: 0 <= i < |articles| && Keep(articles[i]) ==> i in KeptIndices(articles)
    decreases |articles|
  {
    if articles != [] {
      var i := |articles| - 1;
      var pre := articles[..i];
      var ks, last := KeptIndices(pre), if Keep(articles[i]) then [i] else [];
      assert KeptIndices(articles) == ks + last;
      KeptIndicesExact(pre);
      forall k | 0 <= k < |ks| ensures ks[k] < i && Keep(articles[ks[k]]) {
        assert articles[ks[k]] == pre[ks[k]];
      }
      forall j | 0 <= j < i && Keep(articles[j])
        ensures j in ks
      {
        assert articles[j] == pre[j];
      }
    }
  }

  /**
   * The batch holds one row per kept article, in article order: row k is
   * built from the k-th kept article, so the batch is never longer than the
   * article list.
   */
  lemma {:induction false} RowsFollowKeptArticles(articles: seq<Article>, tokenAt: nat -> string, clock: nat -> int)
    ensures |Rows(articles, tokenAt, clock)| == |KeptIndices(articles)| <= |articles|
    ensures forall k :: 0 <= k < |Rows(articles, tokenAt, clock)| ==>
              var i := KeptIndices(articles)[k];
              i < |articles| && Keep(articles[i]) &&
              Rows(articles, tokenAt, clock)[k] == MakeHeadline(articles[i], tokenAt(i), clock(i))
    decreases |articles|
  {
    KeptIndicesExact(articles);
    if articles != [] {
      var i := |articles| - 1;
      var pre := articles[..i];
      RowsFollowKeptArticles(pre, tokenAt, clock);
      KeptIndicesExact(pre);
      forall k | 0 <= k < |Rows(pre, tokenAt, clock)|
        ensures Rows(articles, tokenAt, clock)[k] == MakeHeadline(articles[KeptIndices(articles)[k]], tokenAt(KeptIndices(articles)[k]), clock(KeptIndices(articles)[k]))
      {
        var j := KeptIndices(pre)[k];
        assert articles[j] == pre[j];
      }
    }
  }

  /** A response whose every article lacks a usable title yields an empty batch. */
  lemma {:induction false} NoUsableTitleNoRows(articles: seq<Article>, tokenAt: nat -> string, clock: nat -> int)
    requires forall i :: 0 <= i < |articles| ==> !Keep(articles[i])
    ensures Rows(articles, tokenAt, clock) == []
    decreases |articles|
  {
    if articles != [] {
      var i := |articles| - 1;
      NoUsableTitleNoRows(articles[..i], tokenAt, clock);
    }
  }

  /**
   * The fetch step: a failed exchange or a missing, null or empty article
   * list gives the empty batch; otherwise the articles are filtered and
   * turned into rows one at a time.
   */
  method FetchNews(response: Response, tokenAt: nat -> string, clock: nat -> int) returns (rows: seq<Headline>)
    ensures rows == Fetched(response, tokenAt, clock)
    ensures forall k :: 0 <= k < |rows| ==> rows[k].title != "" && rows[k].title != Removed
  {
    if !(response.Received? && response.articles.Present?) || response.articles.value == [] {
      return [];
    }
    var articles := response.articles.value;
    rows := [];
    for i := 0 to |articles|
      invariant rows == Rows(articles[..i], tokenAt, clock)
      invariant forall k :: 0 <= k < |rows| ==> rows[k].title != "" && rows[k].title != Removed
    {
      assert articles[..i + 1][..i] == articles[..i];
      var a := articles[i];
      if Keep(a) {
        rows := rows + [MakeHeadline(a, tokenAt(i), clock(i))];
      }
    }
    assert articles[..|articles|] == articles;
  }
}
