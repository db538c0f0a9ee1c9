/** Choosing the most synchronous current path: mode first, then round-trip time, then id. */
module PathSelection {

  import opened Outcomes
  import Ordering

  datatype PathMode = DirectStream | EdgeStream | DurableRelay {
    function Rank(): nat {
      match this case DirectStream => 0 case EdgeStream => 1 case DurableRelay => 2
    }
  }

  /** Times are milliseconds. An unknown round trip counts as infinite. */
  datatype Path = Path(id: string, mode: PathMode, authenticated: bool, healthy: bool, observedAt: int, rtt: Option<real>)

  datatype Reason = ClockFuture | Stale | Unauthenticated | Unhealthy

  function Rejection(p: Path, now: int, maxAge: int): Option<Reason> {
    if p.observedAt > now then Some(ClockFuture)
    else if now - p.observedAt > maxAge then Some(Stale)
    else if !p.authenticated then Some(Unauthenticated)
    else if !p.healthy then Some(Unhealthy)
    else None
  }

  predicate Eligible(p: Path, now: int, maxAge: int) {
    Rejection(p, now, maxAge).None?
  }

  predicate Faster(a: Option<real>, b: Option<real>) {
    a.Some? && (b.None? || a.value < b.value)
  }

  /** The sort key's strict order. */
  predicate Before(a: Path, b: Path) {
    || a.mode.Rank() < b.mode.Rank()
    || (a.mode == b.mode && (Faster(a.rtt, b.rtt) || (a.rtt == b.rtt && Ordering.LessText(a.id, b.id))))
  }

  lemma BeforeIsTotal(a: Path, b: Path)
    requires a.id != b.id
    ensures Before(a, b) || Before(b, a)
  {
    Ordering.LessIsTotal(Ordering.Codes(a.id), Ordering.Codes(b.id));
    if Ordering.Codes(a.id) == Ordering.Codes(b.id) {
      Ordering.CodesAreInjective(a.id, b.id);
    }
  }

  lemma BeforeIsStrict(a: Path, b: Path)
    requires Before(a, b)
    ensures !Before(b, a) && a != b
  {
    if Ordering.LessText(a.id, b.id) {
      Ordering.LessIsStrict(Ordering.Codes(a.id), Ordering.Codes(b.id));
    }
    if Ordering.LessText(b.id, a.id) {
      Ordering.LessIsStrict(Ordering.Codes(b.id), Ordering.Codes(a.id));
    }
  }

  lemma BeforeIsTransitive(a: Path, b: Path, c: Path)
    requires Before(a, b) && Before(b, c)
    ensures Before(a, c)
  {
    if Ordering.LessText(a.id, b.id) && Ordering.LessText(b.id, c.id) {
      Ordering.LessIsTransitive(Ordering.Codes(a.id), Ordering.Codes(b.id), Ordering.Codes(c.id));
    }
  }

  /** The rejected paths with their reasons, in the order they were observed. */
  function Rejected(paths: seq<Path>, now: int, maxAge: int): seq<(string, Reason)> {
    if paths == [] then [] else
      var last := paths[|paths| - 1];
      var r := Rejection(last, now, maxAge);
      Rejected(paths[..|paths| - 1], now, maxAge) + if r.Some? then [(last.id, r.value)] else []
  }

  datatype Decision = Decision(selected: Option<Path>, rejected: seq<(string, Reason)>)

  /** What the order means for a path that none precedes: a direct stream is preferred to an edge
      stream and that to a relay; among equal modes the shorter known round trip; among equal
      round trips the smaller id. */
  ghost predicate Best(best: Path, p: Path) {
    && (p.mode.DirectStream? ==> best.mode.DirectStream?)
    && (p.mode.EdgeStream? ==> !best.mode.DurableRelay?)
    && (p.mode == best.mode ==>
          && (p.rtt.Some? ==> best.rtt.Some? && best.rtt.value <= p.rtt.value)
          && (p.rtt == best.rtt ==> !Ordering.LessText(p.id, best.id)))
  }

  lemma UnprecededIsBest(best: Path, p: Path)
    ensures !Before(p, best) <==> Best(best, p)
  {
  }

  /** Why a path is turned down, the first reason that applies. */
  lemma RejectionIsExact(p: Path, now: int, maxAge: int)
    ensures Rejection(p, now, maxAge) == Some(ClockFuture) <==> p.observedAt > now
    ensures Rejection(p, now, maxAge) == Some(Stale) <==> p.observedAt <= now && now - p.observedAt > maxAge
    ensures Rejection(p, now, maxAge) == Some(Unauthenticated) <==>
            p.observedAt <= now && now - p.observedAt <= maxAge && !p.authenticated
    ensures Rejection(p, now, maxAge) == Some(Unhealthy) <==>
            p.observedAt <= now && now - p.observedAt <= maxAge && p.authenticated && !p.healthy
    ensures Eligible(p, now, maxAge) <==> p.observedAt <= now && now - p.observedAt <= maxAge && p.authenticated && p.healthy
  {
  }

  /** The list of rejections names every rejected path, with its reason, and no other. */
  lemma {:induction false} RejectedAreListed(paths: seq<Path>, now: int, maxAge: int, x: (string, Reason))
    ensures x in Rejected(paths, now, maxAge) <==> exists p <- paths :: p.id == x.0 && Rejection(p, now, maxAge) == Some(x.1)
  {
    if paths != [] {
      var n := |paths| - 1;
      RejectedAreListed(paths[..n], now, maxAge, x);
      assert paths == paths[..n] + [paths[n]];
    }
  }

  /** The selection is an eligible path that no eligible path precedes, and there is one
      whenever some path is eligible; the rest is accounted for, with reasons. */
  method SelectPath(paths: seq<Path>, now: int, maxAge: int) returns (r: Result<Decision, ()>)
    ensures r.Err? <==> now < 0 || maxAge < 0
    ensures r.Ok? ==> r.value.rejected == Rejected(paths, now, maxAge)
    ensures r.Ok? ==> (r.value.selected.None? <==> forall p <- paths :: !Eligible(p, now, maxAge))
    ensures r.Ok? && r.value.selected.Some? ==>
              && r.value.selected.value in paths && Eligible(r.value.selected.value, now, maxAge)
              && forall p <- paths :: Eligible(p, now, maxAge) ==> !Before(p, r.value.selected.value)
    ensures r.Ok? && r.value.selected.Some? ==>
              var best := r.value.selected.value;
              && best.observedAt <= now && now - best.observedAt <= maxAge && best.authenticated && best.healthy
              && forall p <- paths :: p.observedAt <= now && now - p.observedAt <= maxAge && p.authenticated && p.healthy ==> Best(best, p)
  {
    if now < 0 || maxAge < 0 {
      return Err(());
    }
    var eligible: seq<Path> := [];
    var rejected: seq<(string, Reason)> := [];
    for i := 0 to |paths|
      invariant rejected == Rejected(paths[..i], now, maxAge)
      invariant forall p <- eligible :: p in paths && Eligible(p, now, maxAge)
      invariant forall j :: 0 <= j < i && Eligible(paths[j], now, maxAge) ==> paths[j] in eligible
    {
      assert paths[..i + 1][..i] == paths[..i];
      match Rejection(paths[i], now, maxAge)
      case Some(reason) => rejected := rejected + [(paths[i].id, reason)];
      case None => eligible := eligible + [paths[i]];
    }
    assert paths[..|paths|] == paths;
    if eligible == [] {
      return Ok(Decision(None, rejected));
    }
    var best := Minimum(eligible);
    forall p | p in paths
      ensures !Before(p, best) <==> Best(best, p)
    {
      UnprecededIsBest(best, p);
    }
    r := Ok(Decision(Some(best), rejected));
  }

  method Minimum(paths: seq<Path>) returns (best: Path)
    requires paths != []
    ensures best in paths
    ensures forall p <- paths :: !Before(p, best)
  {
    best := paths[0];
    BeforeIsStrictSelf(best);
    for i := 1 to |paths|
      invariant best in paths
      invariant forall j :: 0 <= j < i ==> !Before(paths[j], best)
    {
      if Before(paths[i], best) {
        forall j | 0 <= j < i
          ensures !Before(paths[j], paths[i])
        {
          if Before(paths[j], paths[i]) {
            BeforeIsTransitive(paths[j], paths[i], best);
          }
        }
        BeforeIsStrictSelf(paths[i]);
        best := paths[i];
      }
    }
  }

  lemma BeforeIsStrictSelf(p: Path)
    ensures !Before(p, p)
  {
    if Before(p, p) {
      BeforeIsStrict(p, p);
    }
  }
}
