/** Bounded search over a directory tree.

    A directory holds its entries in the order the search sorts them (case-folded name, then
    name); one that cannot be read has `readable` false. Both searches keep an explicit stack and
    leave early; their meaning is a fold over a recursive walk that ends at the first state that
    stops the search. */
module TreeSearch {

  import opened Collections

  datatype Tree = Dir(readable: bool, entries: seq<Entry>)

  /** Links are never followed. A file that cannot be opened is skipped by content search. */
  datatype Kind = Folder(tree: Tree) | File(content: Bytes, openable: bool) | Link | Other

  datatype Entry = Entry(name: string, kind: Kind)

  /** An entry together with its path below the root. */
  datatype Visit = Visit(path: string, entry: Entry)

  function Join(dir: string, name: string): string {
    if dir == "" then name else dir + "/" + name
  }

  // ---- The recursive walk ----

  function VisitOf(e: Entry, dir: string): Visit {
    Visit(Join(dir, e.name), e)
  }

  /** A directory's own entries, in order. */
  function Listed(entries: seq<Entry>, dir: string): seq<Visit> {
    if entries == [] then [] else [VisitOf(entries[0], dir)] + Listed(entries[1..], dir)
  }

  predicate Descends(e: Entry, depth: nat, maxDepth: nat) {
    e.kind.Folder? && depth < maxDepth
  }

  /** First a directory's entries in order, then what lies below its subdirectories, the last one
      first, down to the depth limit. */
  function Walk(tree: Tree, dir: string, depth: nat, maxDepth: nat): seq<Visit>
    requires depth <= maxDepth
    decreases maxDepth - depth, |tree.entries| + 1
  {
    if !tree.readable then [] else Listed(tree.entries, dir) + Below(tree.entries, dir, depth, maxDepth)
  }

  function Below(entries: seq<Entry>, dir: string, depth: nat, maxDepth: nat): seq<Visit>
    requires depth <= maxDepth
    decreases maxDepth - depth, |entries|
  {
    if entries == [] then []
    else if Descends(entries[0], depth, maxDepth) then
      Below(entries[1..], dir, depth, maxDepth)
      + Walk(entries[0].kind.tree, Join(dir, entries[0].name), depth + 1, maxDepth)
    else
      Below(entries[1..], dir, depth, maxDepth)
  }

  /** An entry is in reach if a chain of readable directories, no longer than the depth limit
      allows, leads to it. */
  ghost predicate Reaches(tree: Tree, dir: string, depth: nat, maxDepth: nat, v: Visit)
    requires depth <= maxDepth
    decreases maxDepth - depth
  {
    tree.readable && exists e <- tree.entries :: ReachesVia(e, dir, depth, maxDepth, v)
  }

  ghost predicate ReachesVia(e: Entry, dir: string, depth: nat, maxDepth: nat, v: Visit)
    requires depth <= maxDepth
    decreases maxDepth - depth, 0
  {
    v == VisitOf(e, dir) || (e.kind.Folder? && depth < maxDepth && Reaches(e.kind.tree, Join(dir, e.name), depth + 1, maxDepth, v))
  }

  /** The walk visits exactly the entries in reach. */
  lemma {:induction false} WalkVisitsReachable(tree: Tree, dir: string, depth: nat, maxDepth: nat, v: Visit)
    requires depth <= maxDepth
    ensures v in Walk(tree, dir, depth, maxDepth) <==> Reaches(tree, dir, depth, maxDepth, v)
    decreases maxDepth - depth, |tree.entries| + 1
  {
    EntriesVisitReachable(tree.entries, dir, depth, maxDepth, v);
  }

  lemma {:induction false} EntriesVisitReachable(entries: seq<Entry>, dir: string, depth: nat, maxDepth: nat, v: Visit)
    requires depth <= maxDepth
    ensures v in Listed(entries, dir) || v in Below(entries, dir, depth, maxDepth)
       <==> exists e <- entries :: ReachesVia(e, dir, depth, maxDepth, v)
    decreases maxDepth - depth, |entries|
  {
    if entries != [] {
      var e, rest := entries[0], entries[1..];
      EntriesVisitReachable(rest, dir, depth, maxDepth, v);
      if Descends(e, depth, maxDepth) {
        WalkVisitsReachable(e.kind.tree, Join(dir, e.name), depth + 1, maxDepth, v);
      }
      assert entries == [e] + rest;
      assert (exists x <- entries :: ReachesVia(x, dir, depth, maxDepth, v))
        <==> ReachesVia(e, dir, depth, maxDepth, v) || (exists x <- rest :: ReachesVia(x, dir, depth, maxDepth, v));
    }
  }

  /** A directory's own entries come in order, before everything below it. */
  lemma {:induction false} EntriesComeFirst(tree: Tree, dir: string, depth: nat, maxDepth: nat, i: nat)
    requires depth <= maxDepth && tree.readable && i < |tree.entries|
    ensures |Listed(tree.entries, dir)| == |tree.entries|
    ensures |Walk(tree, dir, depth, maxDepth)| >= |tree.entries|
    ensures var name := tree.entries[i].name;
            Walk(tree, dir, depth, maxDepth)[i] == Visit(if dir == "" then name else dir + "/" + name, tree.entries[i])
  {
    ListedAt(tree.entries, dir, i);
  }

  lemma {:induction false} ListedAt(entries: seq<Entry>, dir: string, i: nat)
    requires i < |entries|
    ensures |Listed(entries, dir)| == |entries| && Listed(entries, dir)[i] == VisitOf(entries[i], dir)
  {
    if |entries| > 1 {
      ListedAt(entries[1..], dir, if i > 0 then i - 1 else 0);
    } else {
      assert Listed(entries[1..], dir) == [];
    }
  }

  /** What lies below later entries comes before what lies below earlier ones. */
  lemma {:induction false} LaterEntriesFirst(entries: seq<Entry>, dir: string, depth: nat, maxDepth: nat, k: nat)
    requires depth <= maxDepth && k <= |entries|
    ensures Below(entries, dir, depth, maxDepth) == Below(entries[k..], dir, depth, maxDepth) + Below(entries[..k], dir, depth, maxDepth)
  {
    if k == 0 {
      assert entries[0..] == entries;
    } else {
      LaterEntriesFirst(entries[1..], dir, depth, maxDepth, k - 1);
      assert entries[1..][k - 1..] == entries[k..] && entries[1..][..k - 1] == entries[..k][1..];
    }
  }

  // ---- Scanning, cut short ----

  /** What a search does per entry, and the states in which it has stopped. */
  datatype Search<!S> = Search(step: (S, Visit) -> S, stopped: S -> bool)

  function Scan<S>(search: Search<S>, visits: seq<Visit>, s: S): S {
    if visits == [] || search.stopped(s) then s else Scan(search, visits[1..], search.step(s, visits[0]))
  }

  // ---- The explicit stack ----

  datatype Frame = Frame(tree: Tree, dir: string, depth: nat)

  ghost predicate Shallow(stack: seq<Frame>, maxDepth: nat) {
    forall f <- stack :: f.depth <= maxDepth
  }

  /** What the directories on the stack still stand for, the top one first. */
  ghost function Pending(stack: seq<Frame>, maxDepth: nat): seq<Visit>
    requires Shallow(stack, maxDepth)
  {
    if stack == [] then [] else
      var n := |stack| - 1;
      Walk(stack[n].tree, stack[n].dir, stack[n].depth, maxDepth) + Pending(stack[..n], maxDepth)
  }

  lemma PendingPush(stack: seq<Frame>, f: Frame, maxDepth: nat)
    requires Shallow(stack, maxDepth) && f.depth <= maxDepth
    ensures Shallow(stack + [f], maxDepth)
    ensures Pending(stack + [f], maxDepth) == Walk(f.tree, f.dir, f.depth, maxDepth) + Pending(stack, maxDepth)
  {
    assert (stack + [f])[..|stack|] == stack;
  }

  /** What is left of the walk in the middle of a directory. */
  ghost function Left(entries: seq<Entry>, dir: string, depth: nat, stack: seq<Frame>, maxDepth: nat): seq<Visit>
    requires depth <= maxDepth && Shallow(stack, maxDepth)
  {
    Listed(entries, dir) + (Below(entries, dir, depth, maxDepth) + Pending(stack, maxDepth))
  }

  /** The stack after one entry of a directory. */
  function Pushed(stack: seq<Frame>, e: Entry, dir: string, depth: nat, maxDepth: nat): seq<Frame> {
    if Descends(e, depth, maxDepth) then stack + [Frame(e.kind.tree, Join(dir, e.name), depth + 1)] else stack
  }

  /** Pushing a subdirectory now is visiting it after the entries that are still to come. */
  lemma LeftStep(entries: seq<Entry>, dir: string, depth: nat, stack: seq<Frame>, maxDepth: nat)
    requires depth <= maxDepth && Shallow(stack, maxDepth) && entries != []
    ensures Shallow(Pushed(stack, entries[0], dir, depth, maxDepth), maxDepth)
    ensures Left(entries, dir, depth, stack, maxDepth) ==
            [VisitOf(entries[0], dir)]
            + Left(entries[1..], dir, depth, Pushed(stack, entries[0], dir, depth, maxDepth), maxDepth)
  {
    BelowPushed(entries, dir, depth, stack, maxDepth);
    Reassociate(VisitOf(entries[0], dir), Listed(entries[1..], dir),
                Below(entries, dir, depth, maxDepth) + Pending(stack, maxDepth));
  }

  lemma BelowPushed(entries: seq<Entry>, dir: string, depth: nat, stack: seq<Frame>, maxDepth: nat)
    requires depth <= maxDepth && Shallow(stack, maxDepth) && entries != []
    ensures var stack' := Pushed(stack, entries[0], dir, depth, maxDepth);
            && Shallow(stack', maxDepth)
            && Below(entries, dir, depth, maxDepth) + Pending(stack, maxDepth)
            == Below(entries[1..], dir, depth, maxDepth) + Pending(stack', maxDepth)
  {
    if Descends(entries[0], depth, maxDepth) {
      PendingPush(stack, Frame(entries[0].kind.tree, Join(dir, entries[0].name), depth + 1), maxDepth);
    }
  }

  lemma Reassociate(v: Visit, middle: seq<Visit>, tail: seq<Visit>)
    ensures [v] + middle + tail == [v] + (middle + tail)
  {
  }

  lemma ScanOne<S>(search: Search<S>, visits: seq<Visit>, s: S)
    requires visits != [] && !search.stopped(s)
    ensures var s' := search.step(s, visits[0]);
            Scan(search, visits, s) == if search.stopped(s') then s' else Scan(search, visits[1..], s')
  {
  }

  lemma ScanStep<S>(search: Search<S>, v: Visit, rest: seq<Visit>, s: S)
    requires !search.stopped(s)
    ensures Scan(search, [v] + rest, s) == Scan(search, rest, search.step(s, v))
  {
    assert ([v] + rest)[1..] == rest;
  }

  /** Scans one directory's entries and pushes its subdirectories. */
  method ScanDirectory<S>(search: Search<S>, f: Frame, rest: seq<Frame>, start: S, maxDepth: nat)
    returns (s: S, stack: seq<Frame>)
    requires f.depth <= maxDepth && Shallow(rest, maxDepth) && !search.stopped(start)
    ensures Shallow(stack, maxDepth)
    ensures Scan(search, Pending(stack, maxDepth), s)
         == Scan(search, Left(f.tree.entries, f.dir, f.depth, rest, maxDepth), start)
    ensures search.stopped(s)
         || |Pending(stack, maxDepth)| + |stack| <= |Left(f.tree.entries, f.dir, f.depth, rest, maxDepth)| + |rest|
  {
    var entries := f.tree.entries;
    ghost var all := Left(entries, f.dir, f.depth, rest, maxDepth);
    s, stack := start, rest;
    while entries != [] && !search.stopped(s)
      invariant Shallow(stack, maxDepth)
      invariant Scan(search, Left(entries, f.dir, f.depth, stack, maxDepth), s) == Scan(search, all, start)
      invariant |Left(entries, f.dir, f.depth, stack, maxDepth)| + |stack| <= |all| + |rest|
      decreases |entries|
    {
      LeftStep(entries, f.dir, f.depth, stack, maxDepth);
      stack := Pushed(stack, entries[0], f.dir, f.depth, maxDepth);
      ScanStep(search, VisitOf(entries[0], f.dir), Left(entries[1..], f.dir, f.depth, stack, maxDepth), s);
      s := search.step(s, VisitOf(entries[0], f.dir));
      entries := entries[1..];
    }
    assert entries == [] ==> Left(entries, f.dir, f.depth, stack, maxDepth) == Pending(stack, maxDepth);
  }

  /** The top of the stack comes first: its entries, then its subdirectories, then the rest. */
  lemma Popped(stack: seq<Frame>, maxDepth: nat)
    requires Shallow(stack, maxDepth) && stack != []
    ensures var f, rest := stack[|stack| - 1], stack[..|stack| - 1];
            Pending(stack, maxDepth) ==
            if f.tree.readable then Left(f.tree.entries, f.dir, f.depth, rest, maxDepth) else Pending(rest, maxDepth)
  {
  }

  lemma SinglePending(f: Frame, maxDepth: nat)
    requires f.depth <= maxDepth
    ensures Pending([f], maxDepth) == Walk(f.tree, f.dir, f.depth, maxDepth)
  {
    assert [f][..0] == [];
  }

  /** The stack-based traversal does what a scan of the recursive walk does. */
  method Traverse<S>(search: Search<S>, root: Tree, start: S, maxDepth: nat) returns (s: S)
    ensures s == Scan(search, Walk(root, "", 0, maxDepth), start)
  {
    s := start;
    var stack := [Frame(root, "", 0)];
    SinglePending(stack[0], maxDepth);
    ghost var all := Pending(stack, maxDepth);
    while stack != [] && !search.stopped(s)
      invariant Shallow(stack, maxDepth)
      invariant Scan(search, Pending(stack, maxDepth), s) == Scan(search, all, start)
      decreases !search.stopped(s), |Pending(stack, maxDepth)| + |stack|
    {
      var f, rest := stack[|stack| - 1], stack[..|stack| - 1];
      Popped(stack, maxDepth);
      if f.tree.readable {
        s, stack := ScanDirectory(search, f, rest, s, maxDepth);
      } else {
        stack := rest;
      }
    }
  }

  // ---- Limits ----

  datatype SearchError = InvalidArgument

  datatype Bounds = Bounds(offset: nat, maxResults: nat, maxEntries: nat)

  predicate Acceptable(offset: int, maxResults: int, maxEntries: int, maxDepth: int) {
    offset >= 0 && 1 <= maxResults <= 500 && 1 <= maxEntries <= 50_000 && 0 <= maxDepth <= 32
  }

  /** At most the first `n` elements. */
  function Prefix<T>(s: seq<T>, n: nat): seq<T> {
    if |s| <= n then s else s[..n]
  }

  lemma PrefixTail<T>(s: seq<T>, n: nat)
    requires s != [] && n > 0
    ensures Prefix(s, n) != [] && Prefix(s, n)[0] == s[0] && Prefix(s, n)[1..] == Prefix(s[1..], n - 1)
  {
  }
}
