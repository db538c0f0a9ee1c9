/** A managed process's retained output: a capped prefix of everything the pipe delivered, and
    reads that page through it while it grows. */
module PipeBuffer {

  import opened Collections
  import opened Outcomes

  const MAX_READ: int := 65_536

  /** What has been recorded of a pipe: retained bytes, bytes seen in all, and whether some were
      dropped. */
  datatype Output = Output(retained: Bytes, total: nat, truncated: bool)

  /** The one right record of a stream. */
  function Recorded(stream: Bytes, cap: nat): Output {
    Output(stream[..Min(|stream|, cap)], |stream|, |stream| > cap)
  }

  /** One chunk off the pipe. */
  function Drained(o: Output, chunk: Bytes, cap: nat): Output {
    var remaining := cap - |o.retained|;
    Output(if remaining > 0 then o.retained + chunk[..Min(|chunk|, remaining)] else o.retained,
           o.total + |chunk|,
           o.truncated || |chunk| > (if remaining > 0 then remaining else 0))
  }

  /** However the stream is cut, recording it piece by piece gives its record. */
  lemma DrainExtendsRecord(stream: Bytes, chunk: Bytes, cap: nat)
    ensures Drained(Recorded(stream, cap), chunk, cap) == Recorded(stream + chunk, cap)
  {
    var whole := stream + chunk;
    if |stream| < cap {
      assert stream[..Min(|stream|, cap)] == stream;
      assert whole[..Min(|whole|, cap)] == stream + chunk[..Min(|chunk|, cap - |stream|)];
    } else {
      assert whole[..cap] == stream[..cap];
    }
  }

  /** The read side: an error for an offset that was dropped, else a slice and the offset after
      it. An offset past the end of an untruncated buffer gives nothing and stays. */
  function Page(o: Output, offset: nat, maxBytes: nat): Result<(Bytes, nat), ()> {
    if offset > |o.retained| && o.truncated then Err(())
    else
      var lo := Min(offset, |o.retained|);
      var hi := Min(offset + maxBytes, |o.retained|);
      var chunk := o.retained[lo..hi];
      Ok((chunk, offset + |chunk|))
  }

  class PipeDrain {
    const cap: nat
    var retained: Bytes
    var total: nat
    var truncated: bool
    ghost var stream: Bytes

    ghost predicate Valid()
      reads this
    {
      Output(retained, total, truncated) == Recorded(stream, cap)
    }

    constructor (cap: nat)
      ensures Valid() && stream == [] && this.cap == cap
    {
      this.cap := cap;
      retained, total, truncated, stream := [], 0, false, [];
    }

    /** Drains the pipe: for every way the stream is cut into chunks, what is retained is its
        prefix up to the cap, the total is exact, and the flag says whether bytes were dropped. */
    method Drain(chunks: seq<Bytes>)
      requires Valid()
      modifies this
      ensures Valid() && stream == old(stream) + Flat(chunks)
      ensures retained == stream[..Min(|stream|, cap)] && total == |stream| && (truncated <==> total > cap)
    {
      assert chunks[..0] == [];
      for i := 0 to |chunks|
        invariant Valid() && stream == old(stream) + Flat(chunks[..i])
      {
        var chunk := chunks[i];
        DrainExtendsRecord(stream, chunk, cap);
        FlatNext(old(stream), chunks, i);
        total := total + |chunk|;
        var remaining := cap - |retained|;
        if remaining > 0 {
          retained := retained + chunk[..Min(|chunk|, remaining)];
        }
        if |chunk| > (if remaining > 0 then remaining else 0) {
          truncated := true;
        }
        stream := stream + chunk;
      }
      assert chunks[..|chunks|] == chunks;
    }

    method Read(offset: int, maxBytes: int) returns (r: Result<(Bytes, nat), ()>)
      requires Valid()
      ensures r.Err? <==> offset < 0 || !(1 <= maxBytes <= MAX_READ) || (offset > |retained| && truncated)
      ensures r.Ok? ==> r == Page(Output(retained, total, truncated), offset, maxBytes)
      ensures r.Ok? && offset <= |retained| ==>
                && r.value.0 == retained[offset..Min(offset + maxBytes, |retained|)] && r.value.1 == offset + |r.value.0|
      ensures r.Ok? && offset > |retained| ==> r.value == ([], offset)
    {
      if offset < 0 || !(1 <= maxBytes <= MAX_READ) {
        return Err(());
      }
      if offset > |retained| && truncated {
        return Err(());
      }
      var lo, hi := Min(offset, |retained|), Min(offset + maxBytes, |retained|);
      r := Ok((retained[lo..hi], offset + |retained[lo..hi]|));
    }
  }

  lemma {:induction false} FlatAppend(chunks: seq<Bytes>, c: Bytes)
    ensures Flat(chunks + [c]) == Flat(chunks) + c
  {
    if chunks == [] {
      assert Flat([c]) == c + Flat([]);
    } else {
      FlatAppend(chunks[1..], c);
      assert (chunks + [c])[1..] == chunks[1..] + [c];
    }
  }

  lemma FlatNext(before: Bytes, chunks: seq<Bytes>, i: nat)
    requires i < |chunks|
    ensures before + Flat(chunks[..i + 1]) == before + Flat(chunks[..i]) + chunks[i]
  {
    FlatAppend(chunks[..i], chunks[i]);
    assert chunks[..i + 1] == chunks[..i] + [chunks[i]];
  }

  // ---- Reading while the process writes ----

  datatype Event = Arrives(chunk: Bytes) | Reads(maxBytes: nat)

  /** A pipe and a client that follows the offsets it is given: what it collected so far. */
  datatype Session = Session(stream: Bytes, offset: nat, collected: Bytes)

  function Next(s: Session, e: Event, cap: nat): Session {
    match e
    case Arrives(chunk) => s.(stream := s.stream + chunk)
    case Reads(maxBytes) =>
      match Page(Recorded(s.stream, cap), s.offset, maxBytes)
      case Err(_) => s
      case Ok((chunk, next)) => s.(offset := next, collected := s.collected + chunk)
  }

  function Run(s: Session, events: seq<Event>, cap: nat): Session
    decreases |events|
  {
    if events == [] then s else Run(Next(s, events[0], cap), events[1..], cap)
  }

  /** The client has read a prefix of the retained bytes and stands right after it. */
  ghost predicate InStep(s: Session, cap: nat) {
    && s.offset == |s.collected| <= |Recorded(s.stream, cap).retained|
    && s.collected == Recorded(s.stream, cap).retained[..s.offset]
  }

  lemma NextKeepsInStep(s: Session, e: Event, cap: nat)
    requires InStep(s, cap)
    ensures InStep(Next(s, e, cap), cap)
  {
    var kept := Recorded(s.stream, cap).retained;
    if e.Arrives? {
      var kept' := Recorded(s.stream + e.chunk, cap).retained;
      assert kept <= kept';
      assert kept'[..s.offset] == kept[..s.offset];
    } else {
      var hi := Min(s.offset + e.maxBytes, |kept|);
      assert kept[..s.offset] + kept[s.offset..hi] == kept[..hi];
    }
  }

  lemma {:induction false} RunKeepsInStep(s: Session, events: seq<Event>, cap: nat)
    requires InStep(s, cap)
    ensures InStep(Run(s, events, cap), cap)
    decreases |events|
  {
    if events != [] {
      NextKeepsInStep(s, events[0], cap);
      RunKeepsInStep(Next(s, events[0], cap), events[1..], cap);
    }
  }

  /** Over any interleaving of output and reads, what the client collected is the start of the
      stream, without gap or repetition, and within the cap; once a read comes back empty, it
      holds everything retained. */
  lemma ReadsReassembleOutput(events: seq<Event>, cap: nat, maxBytes: nat)
    requires maxBytes > 0
    ensures var s := Run(Session([], 0, []), events, cap);
            && s.collected <= s.stream && |s.collected| == s.offset <= cap
            && (Page(Recorded(s.stream, cap), s.offset, maxBytes) == Ok(([], s.offset)) <==>
                  s.collected == s.stream[..Min(|s.stream|, cap)])
  {
    RunKeepsInStep(Session([], 0, []), events, cap);
    var s := Run(Session([], 0, []), events, cap);
    var kept := Recorded(s.stream, cap).retained;
    assert s.collected == kept[..s.offset];
    if s.offset < |kept| {
      assert kept[s.offset..Min(s.offset + maxBytes, |kept|)] != [];
    }
  }
}
