/** Resource keys, claims and the two path-prefix tests of the lane registry.

    A key is "namespace:path". On Windows both paths are case-folded before they are
    compared, so every test takes the folding as a function: the identity elsewhere. */
module Resources {

  import opened Outcomes

  type LaneId = string

  datatype ClaimMode = Read | Write

  datatype Claim = Claim(key: string, mode: ClaimMode)

  /** A claim the source can construct: its key names a namespace. */
  type ResourceClaim = c: Claim | ':' in c.key witness Claim(":", Read)

  type Fold = string -> string

  /** Position of the first colon, where the source splits a key. */
  function ColonAt(key: string): (i: nat)
    requires ':' in key
    ensures i < |key| && key[i] == ':' && ':' !in key[..i]
  {
    if key[0] == ':' then 0 else 1 + ColonAt(key[1..])
  }

  function Namespace(key: string): string
    requires ':' in key
  {
    key[..ColonAt(key)]
  }

  /** The path without trailing slashes. */
  function TrimSlashes(path: string): (r: string)
    ensures r <= path
    ensures r != [] ==> r[|r| - 1] != '/'
    ensures forall i :: |r| <= i < |path| ==> path[i] == '/'
  {
    if path != [] && path[|path| - 1] == '/' then TrimSlashes(path[..|path| - 1]) else path
  }

  function PathOf(key: string, fold: Fold): string
    requires ':' in key
  {
    fold(TrimSlashes(key[ColonAt(key) + 1..]))
  }

  /** `inner` is `outer` or lies below it. */
  predicate Within(inner: string, outer: string) {
    inner == outer || outer + "/" <= inner
  }

  predicate Overlap(left: string, right: string, fold: Fold)
    requires ':' in left && ':' in right
  {
    && Namespace(left) == Namespace(right)
    && var l, r := PathOf(left, fold), PathOf(right, fold);
       l == r || r + "/" <= l || l + "/" <= r
  }

  /** Whether a claim covers a requested key; a key without a colon makes the source
      raise, but only after the mode test has passed. */
  function Covers(claim: ResourceClaim, key: string, mode: ClaimMode, fold: Fold): Result<bool, ()> {
    if mode == Write && claim.mode != Write then Ok(false)
    else if ':' !in key then Err(())
    else Ok(Namespace(claim.key) == Namespace(key) && Within(PathOf(key, fold), PathOf(claim.key, fold)))
  }

  predicate Conflict(a: ResourceClaim, b: ResourceClaim, fold: Fold) {
    Overlap(a.key, b.key, fold) && (a.mode == Write || b.mode == Write)
  }

  predicate Compatible(left: set<ResourceClaim>, right: set<ResourceClaim>, fold: Fold) {
    forall a, b :: a in left && b in right ==> !Conflict(a, b, fold)
  }

  /** A key as an access target: some path `p` of the namespace lies within it. */
  ghost predicate Reaches(key: string, ns: string, p: string, fold: Fold)
    requires ':' in key
  {
    Namespace(key) == ns && Within(p, PathOf(key, fold))
  }

  lemma WithinIsTransitive(a: string, b: string, c: string)
    requires Within(a, b) && Within(b, c)
    ensures Within(a, c)
  {
    if a != b && b != c {
      assert c + "/" <= b <= a;
    }
  }

  /** Paths above a common path are comparable. */
  lemma AncestorsAreComparable(p: string, a: string, b: string)
    requires Within(p, a) && Within(p, b)
    ensures Within(a, b) || Within(b, a)
  {
    if |a| == |b| {
      assert a == p[..|a|] && b == p[..|b|];
    } else if |a| < |b| {
      assert a + "/" == p[..|a| + 1] && b == p[..|b|];
      assert a + "/" <= b;
    } else {
      assert b + "/" == p[..|b| + 1] && a == p[..|a|];
      assert b + "/" <= a;
    }
  }

  /** The prefix test means what a reader expects of it: two keys overlap exactly when
      some resource lies within both. */
  lemma OverlapIffCommonResource(left: string, right: string, fold: Fold)
    requires ':' in left && ':' in right
    ensures Overlap(left, right, fold) <==>
            exists ns, p :: Reaches(left, ns, p, fold) && Reaches(right, ns, p, fold)
  {
    var l, r := PathOf(left, fold), PathOf(right, fold);
    if Overlap(left, right, fold) {
      var p := if r + "/" <= l then l else r;
      assert Reaches(left, Namespace(left), p, fold) && Reaches(right, Namespace(left), p, fold);
    }
    if ns, p :| Reaches(left, ns, p, fold) && Reaches(right, ns, p, fold) {
      AncestorsAreComparable(p, l, r);
    }
  }

  /** Coverage lifts overlap of the accessed keys to overlap of the covering claims, and
      a write access can only be covered by a write claim. */
  lemma CoverageLiftsOverlap(a: ResourceClaim, b: ResourceClaim, x: string, y: string,
                             xMode: ClaimMode, yMode: ClaimMode, fold: Fold)
    requires Covers(a, x, xMode, fold) == Ok(true) && Covers(b, y, yMode, fold) == Ok(true)
    requires Overlap(x, y, fold)
    ensures Overlap(a.key, b.key, fold)
    ensures (xMode == Write ==> a.mode == Write) && (yMode == Write ==> b.mode == Write)
  {
    OverlapIffCommonResource(x, y, fold);
    var ns, p :| Reaches(x, ns, p, fold) && Reaches(y, ns, p, fold);
    WithinIsTransitive(p, PathOf(x, fold), PathOf(a.key, fold));
    WithinIsTransitive(p, PathOf(y, fold), PathOf(b.key, fold));
    assert Reaches(a.key, ns, p, fold) && Reaches(b.key, ns, p, fold);
    OverlapIffCommonResource(a.key, b.key, fold);
  }
}
