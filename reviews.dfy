/**
 * The review crawler: cursor pagination over a GraphQL `reviews(first, after)`
 * connection. Every request asks for 20 reviews after the current cursor; each edge of
 * a batch becomes one record, and the cursor moves to the batch's `endCursor` while
 * `hasNextPage` holds. A failed request, a missing key or an empty batch ends the crawl
 * with the records gathered so far.
 */
module Reviews {
  import opened Common

  /** A key of a decoded JSON object: absent (a lookup raises `KeyError`) or present. */
  datatype Key<+T> = Missing | Has(value: T)

  /** A GraphQL cursor: a string, or `null` (`None`), which asks for the first page. */
  type Cursor = Option<string>

  /** `edge['node']`: the four fields the crawler reads. */
  datatype ReviewNode = ReviewNode(rid: Key<string>, text: Key<string>, rating: Key<int>, date: Key<string>)

  datatype Edge = Edge(node: Key<ReviewNode>)

  datatype PageInfo = PageInfo(endCursor: Key<Cursor>, hasNextPage: Key<bool>)

  /**
   * The decoded answer: `edges` and `pageInfo` under `data.reviews`. A missing `data` or
   * `reviews` object raises at the same lookups, so it is a missing `edges` here.
   */
  datatype Reply = Reply(edges: Key<seq<Edge>>, pageInfo: Key<PageInfo>)

  /** The variables of one request. */
  datatype Query = Query(first: int, after: Cursor)

  /** A scraped review, its four fields copied from the node. */
  datatype Review = Review(rid: string, text: string, rating: int, date: string)

  /** The number of reviews asked for per request. */
  const PageSize := 20

  /**
   * The GraphQL endpoint: the decoded answer to a request, or `None` when the request
   * raises (a connection error, an HTTP error status or a body that is not JSON).
   */
  type Server = Query -> Option<Reply>

  /** What one batch contributes: its records, and the cursor to go on from, if the crawl goes on. */
  datatype Outcome = Outcome(records: seq<Review>, next: Option<Cursor>)

  // ---------------------------------------------------------------------------
  // One batch
  // ---------------------------------------------------------------------------

  /** The record for `edge`, or `None` when one of the keys the crawler reads is missing. */
  function ToReview(edge: Edge): (r: Option<Review>)
    ensures r.Some? <==>
      edge.node.Has? && edge.node.value.rid.Has? && edge.node.value.text.Has? &&
      edge.node.value.rating.Has? && edge.node.value.date.Has?
    ensures r.Some? ==>
      && r.value.rid == edge.node.value.rid.value && r.value.text == edge.node.value.text.value
      && r.value.rating == edge.node.value.rating.value && r.value.date == edge.node.value.date.value
  {
    match edge.node
    case Missing => None
    case Has(node) =>
      if node.rid.Missing? || node.text.Missing? || node.rating.Missing? || node.date.Missing? then None
      else Some(Review(node.rid.value, node.text.value, node.rating.value, node.date.value))
  }

  /**
   * The records the edge loop appends before it stops: one per edge, in order, up to
   * the first edge with a missing key.
   */
  function MappedPrefix(edges: seq<Edge>): (r: seq<Review>)
    ensures |r| <= |edges|
    ensures forall i :: 0 <= i < |r| ==> ToReview(edges[i]) == Some(r[i])
    ensures |r| < |edges| ==> ToReview(edges[|r|]).None?
  {
    if edges == [] then []
    else
      match ToReview(edges[0])
      case None => []
      case Some(review) => [review] + MappedPrefix(edges[1..])
  }

  /** The three properties of `MappedPrefix` determine it. */
  lemma {:induction false} MappedPrefixUnique(edges: seq<Edge>, r: seq<Review>)
    requires |r| <= |edges|
    requires forall i :: 0 <= i < |r| ==> ToReview(edges[i]) == Some(r[i])
    requires |r| < |edges| ==> ToReview(edges[|r|]).None?
    ensures r == MappedPrefix(edges)
  {
    if edges != [] && r != [] {
      forall i | 0 <= i < |r| - 1
        ensures ToReview(edges[1..][i]) == Some(r[1..][i])
      {
        assert ToReview(edges[i + 1]) == Some(r[i + 1]);
      }
      MappedPrefixUnique(edges[1..], r[1..]);
      assert ToReview(edges[0]) == Some(r[0]);
      assert r == [r[0]] + r[1..];
    }
  }

  /** The number of edges a reply holds (0 when it has none to offer). */
  function EdgeCount(answer: Option<Reply>): nat {
    match answer
    case Some(Reply(Has(edges), _)) => |edges|
    case _ => 0
  }

  /**
   * One pass of the loop body on the answer to a request: the order of the checks is
   * the order of the lookups in the source, so a failure after the edge loop keeps the
   * whole batch and one before it keeps nothing.
   */
  function Batch(answer: Option<Reply>): (o: Outcome)
    ensures |o.records| <= EdgeCount(answer)
    ensures o.next.Some? ==> 0 < |o.records| == EdgeCount(answer)
    ensures o.next.Some? ==>
      && answer.Some? && answer.value.pageInfo.Has?
      && answer.value.pageInfo.value.hasNextPage == Has(true)
      && answer.value.pageInfo.value.endCursor == Has(o.next.value)
    ensures answer.Some? && answer.value.edges.Has? && answer.value.edges.value != [] && answer.value.pageInfo.Has? ==>
      o.records == MappedPrefix(answer.value.edges.value)
    ensures
      && answer.Some? && answer.value.edges.Has? && answer.value.edges.value != []
      && |MappedPrefix(answer.value.edges.value)| == |answer.value.edges.value|
      && answer.value.pageInfo.Has? && answer.value.pageInfo.value.endCursor.Has?
      && answer.value.pageInfo.value.hasNextPage == Has(true)
      ==> o.next == Some(answer.value.pageInfo.value.endCursor.value)
  {
    match answer
    case None => Outcome([], None)
    case Some(reply) =>
      if reply.edges.Missing? || reply.pageInfo.Missing? || reply.edges.value == [] then Outcome([], None)
      else
        var records := MappedPrefix(reply.edges.value);
        var info := reply.pageInfo.value;
        if |records| < |reply.edges.value| || info.endCursor.Missing? || info.hasNextPage.Missing? then
          Outcome(records, None)
        else if info.hasNextPage.value then Outcome(records, Some(info.endCursor.value))
        else Outcome(records, None)
  }

  /** The edge loop of one batch. */
  method MapBatch(edges: seq<Edge>) returns (records: seq<Review>)
    ensures records == MappedPrefix(edges)
  {
    records := [];
    var i := 0;
    while i < |edges|
      invariant i == |records| <= |edges|
      invariant forall j :: 0 <= j < i ==> ToReview(edges[j]) == Some(records[j])
    {
      match ToReview(edges[i]) {
        case None =>
          break;
        case Some(review) =>
          records := records + [review];
      }
      i := i + 1;
    }
    MappedPrefixUnique(edges, records);
  }

  // ---------------------------------------------------------------------------
  // The crawl
  // ---------------------------------------------------------------------------

  /**
   * `queries` starts like a crawl: the first asks for the first page, every one asks
   * for `PageSize` reviews, and each one after the first continues from the cursor the
   * answer to the one before handed over.
   */
  ghost predicate IsChain(server: Server, queries: seq<Query>) {
    && (queries != [] ==> queries[0].after == None)
    && (forall i :: 0 <= i < |queries| ==> queries[i].first == PageSize)
    && (forall i :: 0 < i < |queries| ==> Batch(server(queries[i - 1])).next == Some(queries[i].after))
  }

  /**
   * `queries` is the sequence of requests one crawl issues when at most `maxPages`
   * requests are allowed: a chain that stops only where a batch ends the crawl or the
   * allowance is used up.
   */
  ghost predicate IsRun(server: Server, maxPages: nat, queries: seq<Query>) {
    && |queries| <= maxPages
    && (0 < maxPages ==> queries != [])
    && IsChain(server, queries)
    && (queries != [] && |queries| < maxPages ==> Batch(server(queries[|queries| - 1])).next.None?)
  }

  /** The records the requests `queries` bring in, batch after batch. */
  function Gathered(server: Server, queries: seq<Query>): seq<Review> {
    if queries == [] then []
    else Gathered(server, queries[..|queries| - 1]) + Batch(server(queries[|queries| - 1])).records
  }

  /** A chain goes on with a request for the next page from the cursor its last answer handed over. */
  lemma ChainExtend(server: Server, queries: seq<Query>, query: Query)
    requires IsChain(server, queries) && query.first == PageSize
    requires queries == [] ==> query.after == None
    requires queries != [] ==> Batch(server(queries[|queries| - 1])).next == Some(query.after)
    ensures IsChain(server, queries + [query])
  {
    var q := queries + [query];
    forall i | 0 < i < |q|
      ensures Batch(server(q[i - 1])).next == Some(q[i].after)
    {
      if i < |queries| {
        ChainStep(server, queries, i);
      }
    }
  }

  /** One more request adds its batch after everything gathered before. */
  lemma GatheredSnoc(server: Server, queries: seq<Query>, query: Query)
    ensures Gathered(server, queries + [query]) == Gathered(server, queries) + Batch(server(query)).records
  {
    assert (queries + [query])[..|queries|] == queries;
  }

  /**
   * `scrape_all_reviews_graphql`, allowed at most `maxPages` requests: it returns the
   * reviews and the requests it issued.
   */
  method ScrapeAllReviews(server: Server, maxPages: nat) returns (reviews: seq<Review>, queries: seq<Query>)
    ensures IsRun(server, maxPages, queries)
    ensures reviews == Gathered(server, queries)
  {
    reviews, queries := [], [];
    var cursor: Cursor := None;
    var hasNextPage := true;
    var pageCount := 0;
    while hasNextPage && pageCount < maxPages
      invariant pageCount == |queries| <= maxPages
      invariant IsChain(server, queries)
      invariant hasNextPage && queries == [] ==> cursor == None
      invariant hasNextPage && queries != [] ==> Batch(server(queries[|queries| - 1])).next == Some(cursor)
      invariant !hasNextPage ==> queries != [] && Batch(server(queries[|queries| - 1])).next.None?
      invariant reviews == Gathered(server, queries)
      decreases maxPages - pageCount
    {
      pageCount := pageCount + 1;
      var query := Query(PageSize, cursor);
      ghost var before := queries;
      queries := queries + [query];
      ChainExtend(server, before, query);
      GatheredSnoc(server, before, query);
      hide IsChain, Gathered;
      var answer := server(query);
      if answer.None? {
        break;
      }
      var reply := answer.value;
      if reply.edges.Missing? || reply.pageInfo.Missing? {
        break;
      }
      var edges := reply.edges.value;
      var pageInfo := reply.pageInfo.value;
      if edges == [] {
        break;
      }
      var records := MapBatch(edges);
      reviews := reviews + records;
      if |records| < |edges| {
        break;
      }
      if pageInfo.endCursor.Missing? {
        break;
      }
      cursor := pageInfo.endCursor.value;
      if pageInfo.hasNextPage.Missing? {
        break;
      }
      hasNextPage := pageInfo.hasNextPage.value;
    }
  }

  // ---------------------------------------------------------------------------
  // Properties of a crawl
  // ---------------------------------------------------------------------------

  /** Two crawls against the same server and with the same allowance issue the same requests. */
  lemma RunIsUnique(server: Server, maxPages: nat, q1: seq<Query>, q2: seq<Query>)
    requires IsRun(server, maxPages, q1) && IsRun(server, maxPages, q2)
    ensures q1 == q2
  {
    if |q1| <= |q2| {
      ChainsAgree(server, q1, q2, |q1|);
    } else {
      ChainsAgree(server, q2, q1, |q2|);
    }
    if |q1| < |q2| {
      ChainStep(server, q2, |q1|);
      assert false;
    } else if |q2| < |q1| {
      ChainStep(server, q1, |q2|);
      assert false;
    }
  }

  /** Two chains against the same server agree on their first `n` requests. */
  lemma {:induction false} ChainsAgree(server: Server, q1: seq<Query>, q2: seq<Query>, n: nat)
    requires IsChain(server, q1) && IsChain(server, q2)
    requires n <= |q1| && n <= |q2|
    ensures q1[..n] == q2[..n]
  {
    if n > 0 {
      ChainsAgree(server, q1, q2, n - 1);
      if n == 1 {
        assert q1[0] == Query(PageSize, None) == q2[0];
      } else {
        assert q1[n - 2] == q2[n - 2] by {
          assert q1[..n - 1][n - 2] == q2[..n - 1][n - 2];
        }
        assert q1[n - 1].after == q2[n - 1].after;
      }
      assert q1[..n] == q1[..n - 1] + [q1[n - 1]];
      assert q2[..n] == q2[..n - 1] + [q2[n - 1]];
    }
  }

  /** Each request of a chain after the first goes on from the answer to the one before. */
  lemma ChainStep(server: Server, queries: seq<Query>, i: nat)
    requires IsChain(server, queries) && 0 < i < |queries|
    ensures Batch(server(queries[i - 1])).next == Some(queries[i].after)
  {
  }

  /** A crawl that stopped before using up its allowance stops there under any larger one. */
  lemma AllowanceIrrelevant(server: Server, maxPages: nat, more: nat, queries: seq<Query>)
    requires IsRun(server, maxPages, queries) && |queries| < maxPages <= more
    ensures IsRun(server, more, queries)
  {
  }

  /**
   * A crawl does not stop early: after a batch that goes on, and while the allowance
   * lasts, the next request asks for the next 20 reviews after that batch's `endCursor`.
   */
  lemma NextQuery(server: Server, maxPages: nat, queries: seq<Query>, i: nat, c: Cursor)
    requires IsRun(server, maxPages, queries) && i + 1 < maxPages && i < |queries|
    requires Batch(server(queries[i])).next == Some(c)
    ensures i + 1 < |queries| && queries[i + 1] == Query(PageSize, c)
  {
    if i + 1 == |queries| {
      assert false;
    }
    ChainStep(server, queries, i + 1);
  }

  /** A batch that ends the crawl is the last one requested. */
  lemma {:induction false} StopIsLast(server: Server, maxPages: nat, queries: seq<Query>, i: nat)
    requires IsRun(server, maxPages, queries) && i < |queries|
    requires Batch(server(queries[i])).next.None?
    ensures i == |queries| - 1
  {
    if i < |queries| - 1 {
      ChainStep(server, queries, i + 1);
      assert false;
    }
  }

  /**
   * A failed request, a reply without `edges` or `pageInfo`, or an empty batch ends the
   * crawl and adds nothing: the result is what the earlier requests gathered.
   */
  lemma EmptyAnswerEndsCrawl(server: Server, maxPages: nat, queries: seq<Query>, i: nat)
    requires IsRun(server, maxPages, queries) && i < |queries|
    requires var answer := server(queries[i]);
      || answer.None?
      || answer.value.edges.Missing? || answer.value.pageInfo.Missing?
      || answer.value.edges == Has([])
    ensures i == |queries| - 1
    ensures Gathered(server, queries) == Gathered(server, queries[..i])
  {
    StopIsLast(server, maxPages, queries, i);
  }

  /**
   * An edge with a missing key ends the crawl; the records of the edges before it in the
   * same batch are kept, after everything earlier batches gathered.
   */
  lemma MissingKeyEndsCrawl(server: Server, maxPages: nat, queries: seq<Query>, i: nat, edges: seq<Edge>, k: nat)
    requires IsRun(server, maxPages, queries) && i < |queries|
    requires server(queries[i]).Some? && server(queries[i]).value.pageInfo.Has?
    requires server(queries[i]).value.edges == Has(edges)
    requires k < |edges| && ToReview(edges[k]).None?
    requires forall j :: 0 <= j < k ==> ToReview(edges[j]).Some?
    ensures i == |queries| - 1
    ensures |Gathered(server, queries)| == |Gathered(server, queries[..i])| + k
    ensures forall j :: 0 <= j < k ==>
      Gathered(server, queries)[|Gathered(server, queries[..i])| + j] == ToReview(edges[j]).value
  {
    var r := MappedPrefix(edges);
    assert |r| == k;
    StopIsLast(server, maxPages, queries, i);
  }

  /** The number of edges the replies to `queries` hold. */
  function EdgeTotal(server: Server, queries: seq<Query>): nat {
    if queries == [] then 0
    else EdgeTotal(server, queries[..|queries| - 1]) + EdgeCount(server(queries[|queries| - 1]))
  }

  /**
   * No edge is dropped and none is merged: every batch the crawl went on from
   * contributed one record per edge, so the records before the last batch are exactly
   * as many as the edges of the batches before it.
   */
  lemma {:induction false} OneRecordPerEdge(server: Server, queries: seq<Query>, n: nat)
    requires IsChain(server, queries) && n < |queries|
    ensures |Gathered(server, queries[..n])| == EdgeTotal(server, queries[..n])
  {
    if n > 0 {
      var p := queries[..n];
      assert p[..n - 1] == queries[..n - 1];
      assert Batch(server(queries[n - 1])).next == Some(queries[n].after);
      OneRecordPerEdge(server, queries, n - 1);
    }
  }

  /** At most one record per edge overall. */
  lemma {:induction false} AtMostOneRecordPerEdge(server: Server, queries: seq<Query>)
    ensures |Gathered(server, queries)| <= EdgeTotal(server, queries)
    decreases |queries|
  {
    if queries != [] {
      AtMostOneRecordPerEdge(server, queries[..|queries| - 1]);
    }
  }

  /** Records gathered by earlier requests are never removed or changed by later ones. */
  lemma {:induction false} GatheredGrows(server: Server, queries: seq<Query>, n: nat)
    requires n <= |queries|
    ensures Gathered(server, queries[..n]) <= Gathered(server, queries)
    decreases |queries|
  {
    if n < |queries| {
      var p := queries[..|queries| - 1];
      assert p[..n] == queries[..n];
      GatheredGrows(server, p, n);
    } else {
      assert queries[..n] == queries;
    }
  }
}
