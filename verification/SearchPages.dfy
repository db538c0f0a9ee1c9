/** The result window of a bounded search, and paging through it by offsets. */
module SearchPages {

  import opened Collections
  import opened Outcomes

  /** Matches counted so far, those kept for the caller, and whether one more was seen. */
  datatype Found<T> = Found(matched: nat, results: seq<T>, more: bool)

  function Nothing<T>(): Found<T> {
    Found(0, [], false)
  }

  /** One more match, as the search loops treat it. */
  function Offered<T>(f: Found<T>, x: T, offset: nat, limit: nat): Found<T> {
    if f.matched < offset then f.(matched := f.matched + 1)
    else if |f.results| < limit then Found(f.matched + 1, f.results + [x], false)
    else f.(more := true)
  }

  /** The window on a list of matches: the slice the caller asked for. */
  function Window<T>(all: seq<T>, offset: nat, limit: nat): Found<T> {
    Found(Min(|all|, offset + limit), all[Min(offset, |all|)..Min(offset + limit, |all|)], |all| > offset + limit)
  }

  /** Offering matches one by one computes the window. */
  lemma OfferedIsWindow<T>(all: seq<T>, x: T, offset: nat, limit: nat)
    requires !Window(all, offset, limit).more
    ensures Offered(Window(all, offset, limit), x, offset, limit) == Window(all + [x], offset, limit)
  {
    var all' := all + [x];
    if |all| < offset {
      assert all'[Min(offset, |all'|)..Min(offset + limit, |all'|)] == [];
    } else if |all| < offset + limit {
      assert all'[offset..|all'|] == all[offset..] + [x];
    } else {
      assert all'[offset..offset + limit] == all[offset..offset + limit];
    }
  }

  /** Once one more was seen, further matches do not change the window: stopping early is safe. */
  lemma WindowIsStable<T>(all: seq<T>, longer: seq<T>, offset: nat, limit: nat)
    requires Window(all, offset, limit).more && all <= longer
    ensures Window(longer, offset, limit) == Window(all, offset, limit)
  {
    assert longer[offset..offset + limit] == all[offset..offset + limit];
  }

  /** Offering matches one after the other until one too many was seen. */
  function OfferAll<T>(f: Found<T>, xs: seq<T>, offset: nat, limit: nat): Found<T>
    decreases |xs|
  {
    if xs == [] || f.more then f else OfferAll(Offered(f, xs[0], offset, limit), xs[1..], offset, limit)
  }

  /** Early exit or not, the outcome is the window on all matches. */
  lemma {:induction false} OfferAllIsWindow<T>(prior: seq<T>, xs: seq<T>, offset: nat, limit: nat)
    ensures OfferAll(Window(prior, offset, limit), xs, offset, limit) == Window(prior + xs, offset, limit)
    decreases |xs|
  {
    if xs == [] {
      assert prior + xs == prior;
    } else if Window(prior, offset, limit).more {
      WindowIsStable(prior, prior + xs, offset, limit);
    } else {
      OfferedIsWindow(prior, xs[0], offset, limit);
      OfferAllIsWindow(prior + [xs[0]], xs[1..], offset, limit);
      assert prior + [xs[0]] + xs[1..] == prior + xs;
    }
  }

  /** What a search replies: the page and, if the scan may have left something out and the page
      is not empty, where to go on. `cut` says that a scan limit ended the search. */
  datatype Reply<T> = Reply(matches: seq<T>, nextOffset: Option<nat>, truncated: bool)

  function ReplyOf<T>(f: Found<T>, cut: bool, offset: nat): Reply<T> {
    var truncated := f.more || cut;
    Reply(f.results, if truncated && f.results != [] then Some(offset + |f.results|) else None, truncated)
  }

  function PageAt<T>(all: seq<T>, cut: bool, offset: nat, limit: nat): Reply<T> {
    ReplyOf(Window(all, offset, limit), cut, offset)
  }

  /** The page in plain terms: the matches from `offset` on, at most `limit` of them; it is marked
      as truncated exactly if matches are left over or the search was cut; and it says where to go
      on exactly if it is truncated and not empty. */
  lemma PageIsSlice<T>(all: seq<T>, cut: bool, offset: nat, limit: nat)
    ensures var page := PageAt(all, cut, offset, limit);
            && |page.matches| == (if offset >= |all| then 0 else Min(limit, |all| - offset))
            && (forall i :: 0 <= i < |page.matches| ==> page.matches[i] == all[offset + i])
            && (page.truncated <==> |all| > offset + limit || cut)
            && page.nextOffset == if page.truncated && page.matches != [] then Some(offset + |page.matches|) else None
  {
  }

  /** A client that follows the offsets it is given. */
  function Follow<T>(all: seq<T>, cut: bool, offset: nat, limit: nat): seq<seq<T>>
    decreases if offset < |all| then |all| - offset else 0
  {
    var page := PageAt(all, cut, offset, limit);
    if page.nextOffset.None? then [page.matches] else [page.matches] + Follow(all, cut, page.nextOffset.value, limit)
  }

  /** Following the offsets ends, and yields every match exactly once, in order. */
  lemma {:induction false} FollowingYieldsEachMatchOnce<T>(all: seq<T>, cut: bool, offset: nat, limit: nat)
    requires limit >= 1 && offset <= |all|
    ensures Flat(Follow(all, cut, offset, limit)) == all[offset..]
    decreases |all| - offset
  {
    var end := PageEnd(all, cut, offset, limit);
    if PageAt(all, cut, offset, limit).nextOffset.Some? {
      FollowingYieldsEachMatchOnce(all, cut, end, limit);
      FlatFirst(all[offset..end], Follow(all, cut, end, limit));
      assert all[offset..] == all[offset..end] + all[end..];
    } else {
      FlatFirst(all[offset..], []);
    }
  }

  /** A page ends where the next one begins, or at the end of the matches. */
  lemma PageEnd<T>(all: seq<T>, cut: bool, offset: nat, limit: nat) returns (end: nat)
    requires limit >= 1 && offset <= |all|
    ensures offset <= end <= |all| && PageAt(all, cut, offset, limit).matches == all[offset..end]
    ensures match PageAt(all, cut, offset, limit).nextOffset
            case Some(next) => next == end > offset
            case None => end == |all|
  {
    end := Min(offset + limit, |all|);
  }

  lemma FlatFirst<T>(page: seq<T>, pages: seq<seq<T>>)
    ensures Flat([page] + pages) == page + Flat(pages)
  {
    assert ([page] + pages)[1..] == pages;
  }
}
