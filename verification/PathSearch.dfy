/** Search by path: the entries whose relative path contains the query. The comparison itself,
    with or without case folding, is the parameter `hit`. */
module PathSearch {

  import opened Collections
  import opened Outcomes
  import opened SearchPages
  import opened TreeSearch

  datatype Progress = Progress(scanned: nat, found: Found<Visit>, limitHit: bool)

  function Step(p: Progress, v: Visit, b: Bounds, hit: string -> bool): Progress {
    if p.scanned >= b.maxEntries then p.(limitHit := true)
    else if !hit(v.path) then p.(scanned := p.scanned + 1)
    else p.(scanned := p.scanned + 1, found := Offered(p.found, v, b.offset, b.maxResults))
  }

  function Job(b: Bounds, hit: string -> bool): Search<Progress> {
    Search((p: Progress, v: Visit) => Step(p, v, b, hit), (p: Progress) => p.limitHit || p.found.more)
  }

  // ---- What the search means ----

  function Hits(visits: seq<Visit>, hit: string -> bool): seq<Visit> {
    if visits == [] then []
    else (if hit(visits[0].path) then [visits[0]] else []) + Hits(visits[1..], hit)
  }

  /** The hits are the visits whose path contains the query, in the order of the walk. */
  lemma {:induction false} HitsInOrder(first: seq<Visit>, second: seq<Visit>, hit: string -> bool)
    ensures Hits(first + second, hit) == Hits(first, hit) + Hits(second, hit)
  {
    if first == [] {
      assert first + second == second;
    } else {
      HitsInOrder(first[1..], second, hit);
      assert (first + second)[1..] == first[1..] + second;
      Joined(if hit(first[0].path) then [first[0]] else [], Hits(first[1..], hit), Hits(second, hit));
    }
  }

  lemma Joined<T>(a: seq<T>, b: seq<T>, c: seq<T>)
    ensures a + b + c == a + (b + c)
  {
  }

  lemma {:induction false} HitsAreExact(visits: seq<Visit>, hit: string -> bool, v: Visit)
    ensures v in Hits(visits, hit) <==> v in visits && hit(v.path)
  {
    if visits != [] {
      HitsAreExact(visits[1..], hit, v);
      assert visits == [visits[0]] + visits[1..];
    }
  }

  /** A scan offers the matches within the entry limit one after the other. It reports the limit
      exactly if there are more entries and no match is left over. */
  lemma {:induction false} ScanOffersHits(visits: seq<Visit>, p: Progress, b: Bounds, hit: string -> bool)
    requires p.scanned <= b.maxEntries && !p.limitHit
    ensures var e, room := Scan(Job(b, hit), visits, p), b.maxEntries - p.scanned;
            && e.found == OfferAll(p.found, Hits(Prefix(visits, room), hit), b.offset, b.maxResults)
            && (e.limitHit <==> !e.found.more && |visits| > room)
            && e.scanned <= p.scanned + Min(|visits|, room)
            && (!e.found.more ==> e.scanned == p.scanned + Min(|visits|, room))
    decreases |visits|
  {
    var room := b.maxEntries - p.scanned;
    if visits != [] && !p.found.more {
      ScanOne(Job(b, hit), visits, p);
      if room > 0 {
        PrefixTail(visits, room);
        HitsStep(Prefix(visits, room), hit);
        ScanOffersHits(visits[1..], Step(p, visits[0], b, hit), b, hit);
      }
    }
  }

  lemma HitsStep(visits: seq<Visit>, hit: string -> bool)
    requires visits != []
    ensures var tail := Hits(visits[1..], hit);
            if hit(visits[0].path) then Hits(visits, hit) == [visits[0]] + tail && Hits(visits, hit)[1..] == tail
            else Hits(visits, hit) == tail
  {
  }

  datatype PathReply = PathReply(page: Reply<Visit>, scanned: nat, limitHit: bool)

  /** The page is the slice [offset, offset + maxResults) of the matches among the first
      `maxEntries` entries of the recursive walk, and the entry limit is reported exactly if the
      walk goes on and no match within the limit was left over. */
  predicate Answers(r: PathReply, walk: seq<Visit>, b: Bounds, hit: string -> bool) {
    var matches := Hits(Prefix(walk, b.maxEntries), hit);
    && r.page == PageAt(matches, |walk| > b.maxEntries, b.offset, b.maxResults)
    && (r.limitHit <==> |matches| <= b.offset + b.maxResults && |walk| > b.maxEntries)
    && r.scanned <= Min(|walk|, b.maxEntries)
    && (|matches| <= b.offset + b.maxResults ==> r.scanned == Min(|walk|, b.maxEntries))
  }

  function Start(): Progress {
    Progress(0, Nothing(), false)
  }

  function ReplyAt(p: Progress, offset: nat): PathReply {
    PathReply(ReplyOf(p.found, p.limitHit, offset), p.scanned, p.limitHit)
  }

  /** A scan of the walk, cut short or not, answers the query. */
  lemma ScanAnswers(walk: seq<Visit>, b: Bounds, hit: string -> bool)
    ensures Answers(ReplyAt(Scan(Job(b, hit), walk, Start()), b.offset), walk, b, hit)
  {
    var matches := Hits(Prefix(walk, b.maxEntries), hit);
    ScanOffersHits(walk, Start(), b, hit);
    OfferAllIsWindow([], matches, b.offset, b.maxResults);
    assert [] + matches == matches;
  }

  /** The path search: an explicit stack, counters and early exits. */
  method SearchPaths(root: Tree, offset: int, maxResults: int, maxEntries: int, maxDepth: int, hit: string -> bool)
    returns (r: Result<PathReply, SearchError>)
    ensures r.Ok? <==> offset >= 0 && 1 <= maxResults <= 500 && 1 <= maxEntries <= 50_000 && 0 <= maxDepth <= 32
    ensures r.Ok? ==> Answers(r.value, Walk(root, "", 0, maxDepth), Bounds(offset, maxResults, maxEntries), hit)
  {
    if !Acceptable(offset, maxResults, maxEntries, maxDepth) {
      return Err(InvalidArgument);
    }
    var b := Bounds(offset, maxResults, maxEntries);
    var p := Traverse(Job(b, hit), root, Start(), maxDepth);
    ScanAnswers(Walk(root, "", 0, maxDepth), b, hit);
    r := Ok(ReplyAt(p, offset));
  }

  /** A client that searches again and again from the offset it was given gets every match within
      the entry limit, once and in order. */
  method SearchAllPages(root: Tree, maxResults: int, maxEntries: int, maxDepth: int, hit: string -> bool)
    returns (r: Result<seq<Visit>, SearchError>)
    ensures r.Err? <==> !Acceptable(0, maxResults, maxEntries, maxDepth)
    ensures r.Ok? ==> r.value == Hits(Prefix(Walk(root, "", 0, maxDepth), maxEntries), hit)
  {
    if !Acceptable(0, maxResults, maxEntries, maxDepth) {
      return Err(InvalidArgument);
    }
    ghost var walk := Walk(root, "", 0, maxDepth);
    ghost var matches := Hits(Prefix(walk, maxEntries), hit);
    var all: seq<Visit> := [];
    var more := true;
    while more
      invariant |all| <= |matches| && all == matches[..|all|] && (!more ==> all == matches)
      decreases more, |matches| - |all|
    {
      var reply := SearchPaths(root, |all|, maxResults, maxEntries, maxDepth, hit);
      ghost var end := PageEnd(matches, |walk| > maxEntries, |all|, maxResults);
      var page := reply.value.page;
      assert all + page.matches == matches[..end];
      all := all + page.matches;
      more := page.nextOffset.Some?;
    }
    r := Ok(all);
  }
}
