/** Search by content: the lines of regular files that contain the query.

    Parameters stand for what the model does not look into: the file pattern, the decoding of
    bytes into lines, and the position of the query in a line. */
module ContentSearch {

  import opened Collections
  import opened Outcomes
  import opened SearchPages
  import opened TreeSearch

  const MAX_LINE_CHARS: nat := 2_000
  const MAX_CONTENT_BYTES: nat := 16 * 1024 * 1024

  datatype Query = Query(pattern: string -> bool, lines: Bytes -> seq<string>, column: string -> Option<nat>)

  /** The two byte limits: per file and in all. */
  datatype Budget = Budget(perFile: nat, total: nat)

  datatype Match = Match(path: string, line: nat, column: nat, snippet: string, snippetTruncated: bool)

  /** What has been read so far, and what was found in it. */
  datatype Reading = Reading(files: nat, bytes: nat, found: Found<Match>, byteLimit: bool)

  datatype Progress = Progress(entries: nat, reading: Reading, scanLimit: bool)

  predicate Finished(r: Reading) {
    r.byteLimit || r.found.more
  }

  /** Regular files whose name matches the pattern and that can be opened; the search passes
      over everything else. */
  predicate Searchable(v: Visit, q: Query) {
    v.entry.kind.File? && q.pattern(v.entry.name) && v.entry.kind.openable
  }

  function Clip(content: Bytes, limit: nat): (payload: Bytes)
    ensures |payload| == Min(|content|, limit) && payload <= content
  {
    if |content| > limit then content[..limit] else content
  }

  function MatchOf(path: string, n: nat, line: string, column: nat): Match {
    Match(path, n, column + 1, if |line| > MAX_LINE_CHARS then line[..MAX_LINE_CHARS] else line, |line| > MAX_LINE_CHARS)
  }

  /** The loop over the lines of one file. */
  function OfferLines(f: Found<Match>, path: string, lines: seq<string>, n: nat, q: Query, b: Bounds): Found<Match>
    decreases |lines|
  {
    if lines == [] || f.more then f else
      var column := q.column(lines[0]);
      var f' := if column.None? then f else Offered(f, MatchOf(path, n, lines[0], column.value), b.offset, b.maxResults);
      OfferLines(f', path, lines[1..], n + 1, q, b)
  }

  /** One file, of which `remaining` bytes fit into the budget. */
  function ReadFile(r: Reading, path: string, content: Bytes, q: Query, b: Bounds, limits: Budget): Reading
    requires r.bytes <= limits.total
  {
    var payload := Clip(content, Min(limits.perFile, limits.total - r.bytes));
    var found := OfferLines(r.found, path, q.lines(payload), 1, q, b);
    var bytes := r.bytes + |payload|;
    Reading(r.files + 1, bytes, found, !found.more && bytes >= limits.total)
  }

  /** One entry. The byte limit is tested before a file is opened, and again after it is read. */
  function Step(p: Progress, v: Visit, q: Query, b: Bounds, limits: Budget): Progress {
    if p.entries >= b.maxEntries then p.(scanLimit := true)
    else
      var p := p.(entries := p.entries + 1);
      if !(v.entry.kind.File? && q.pattern(v.entry.name)) then p
      else if p.reading.bytes >= limits.total then p.(reading := p.reading.(byteLimit := true))
      else if !v.entry.kind.openable then p
      else p.(reading := ReadFile(p.reading, v.path, v.entry.kind.content, q, b, limits))
  }

  function Job(q: Query, b: Bounds, limits: Budget): Search<Progress> {
    Search((p: Progress, v: Visit) => Step(p, v, q, b, limits),
           (p: Progress) => p.scanLimit || Finished(p.reading))
  }

  // ---- What the search means ----

  /** Part of a file that is searched, or the whole of it. */
  datatype Piece = Piece(path: string, content: Bytes)

  /** The files that can be searched, in the order of the walk. */
  function Files(visits: seq<Visit>, q: Query): seq<Piece> {
    if visits == [] then []
    else (if Searchable(visits[0], q) then [Piece(visits[0].path, visits[0].entry.kind.content)] else [])
         + Files(visits[1..], q)
  }

  /** As much of those files as the limits allow: of each one at most `perFile` bytes, and of all
      together the first `budget` bytes. */
  function Within(files: seq<Piece>, perFile: nat, budget: nat): seq<Piece> {
    if files == [] || budget == 0 then []
    else
      var payload := Clip(files[0].content, Min(perFile, budget));
      [Piece(files[0].path, payload)] + Within(files[1..], perFile, budget - |payload|)
  }

  function TotalBytes(pieces: seq<Piece>): nat {
    if pieces == [] then 0 else |pieces[0].content| + TotalBytes(pieces[1..])
  }

  function CappedBytes(files: seq<Piece>, perFile: nat): nat {
    if files == [] then 0 else Min(|files[0].content|, perFile) + CappedBytes(files[1..], perFile)
  }

  /** The matching lines of one payload, numbered from `n`. */
  function LineMatches(path: string, lines: seq<string>, n: nat, q: Query): seq<Match> {
    if lines == [] then [] else
      var column := q.column(lines[0]);
      (if column.Some? then [MatchOf(path, n, lines[0], column.value)] else [])
      + LineMatches(path, lines[1..], n + 1, q)
  }

  /** A line of a file gives one match if it holds the query and none if not. The match names the
      file, the line's number and the query's column, counted from 1, and starts with the line's
      first 2000 characters. */
  lemma LineMatchIsExact(path: string, line: string, n: nat, q: Query)
    ensures var ms := LineMatches(path, [line], n, q);
            match q.column(line)
            case None => ms == []
            case Some(column) =>
              && |ms| == 1 && ms[0].path == path && ms[0].line == n && ms[0].column == column + 1
              && ms[0].snippet == line[..Min(|line|, 2_000)] && (ms[0].snippetTruncated <==> |line| > 2_000)
  {
    assert [line][1..] == [];
  }

  /** The lines of a file are searched in order, each under its own number. */
  lemma {:induction false} LinesInOrder(path: string, first: seq<string>, second: seq<string>, n: nat, q: Query)
    ensures LineMatches(path, first + second, n, q) == LineMatches(path, first, n, q) + LineMatches(path, second, n + |first|, q)
    decreases |first|
  {
    if first == [] {
      assert first + second == second;
    } else {
      LinesInOrder(path, first[1..], second, n + 1, q);
      assert (first + second)[1..] == first[1..] + second;
    }
  }

  /** The searchable files are the regular files with a matching name that can be opened. */
  lemma {:induction false} FilesAreExact(visits: seq<Visit>, q: Query, f: Piece)
    ensures f in Files(visits, q) <==>
            exists v <- visits :: v.path == f.path && v.entry.kind == File(f.content, true) && q.pattern(v.entry.name)
  {
    if visits != [] {
      FilesAreExact(visits[1..], q, f);
      assert visits == [visits[0]] + visits[1..];
    }
  }

  function Matches(pieces: seq<Piece>, q: Query): seq<Match> {
    if pieces == [] then []
    else LineMatches(pieces[0].path, q.lines(pieces[0].content), 1, q) + Matches(pieces[1..], q)
  }

  /** What is read of a file is a prefix of it within the per-file limit, and files are read in order,
      none left out before the budget is used up. */
  lemma {:induction false} PiecesArePrefixes(files: seq<Piece>, perFile: nat, budget: nat, i: nat)
    requires i < |Within(files, perFile, budget)|
    ensures i < |files|
    ensures var piece := Within(files, perFile, budget)[i];
            piece.path == files[i].path && piece.content <= files[i].content && |piece.content| <= perFile
    decreases |files|
  {
    if i > 0 {
      var payload := Clip(files[0].content, Min(perFile, budget));
      PiecesArePrefixes(files[1..], perFile, budget - |payload|, i - 1);
    }
  }

  /** The budget is used up to the last byte, or there was nothing more to read. */
  lemma {:induction false} BudgetIsSharp(files: seq<Piece>, perFile: nat, budget: nat)
    ensures TotalBytes(Within(files, perFile, budget)) == Min(CappedBytes(files, perFile), budget)
    decreases |files|
  {
    if files != [] && budget != 0 {
      BudgetIsSharp(files[1..], perFile, budget - |Clip(files[0].content, Min(perFile, budget))|);
    }
  }

  // ---- The lines of one file ----

  lemma {:induction false} LinesAreOffered(f: Found<Match>, path: string, lines: seq<string>, n: nat, q: Query, b: Bounds)
    ensures OfferLines(f, path, lines, n, q, b) == OfferAll(f, LineMatches(path, lines, n, q), b.offset, b.maxResults)
    decreases |lines|
  {
    if lines != [] && !f.more {
      var column, tail := q.column(lines[0]), LineMatches(path, lines[1..], n + 1, q);
      if column.Some? {
        var m := MatchOf(path, n, lines[0], column.value);
        assert ([m] + tail)[1..] == tail;
        LinesAreOffered(Offered(f, m, b.offset, b.maxResults), path, lines[1..], n + 1, q, b);
      } else {
        assert [] + tail == tail;
        LinesAreOffered(f, path, lines[1..], n + 1, q, b);
      }
    }
  }

  // ---- The files, one after the other ----

  function ReadAll(r: Reading, files: seq<Piece>, q: Query, b: Bounds, limits: Budget): Reading
    requires r.bytes <= limits.total
    decreases |files|
  {
    if files == [] || Finished(r) then r
    else ReadAll(ReadFile(r, files[0].path, files[0].content, q, b, limits), files[1..], q, b, limits)
  }

  /** A search that has found the matches `prior` and goes on. */
  predicate OnTrack(r: Reading, prior: seq<Match>, b: Bounds, limits: Budget) {
    r.bytes < limits.total && !Finished(r) && r.found == Window(prior, b.offset, b.maxResults)
  }

  /** Where a search ends that stood at `r`, given all the matches and the pieces it may yet read. */
  predicate EndsRight(e: Reading, r: Reading, matches: seq<Match>, bytes: nat, files: nat, b: Bounds, limits: Budget) {
    && e.found == Window(matches, b.offset, b.maxResults)
    && (e.byteLimit <==> !e.found.more && r.bytes + bytes >= limits.total)
    && e.bytes <= r.bytes + bytes && e.files <= r.files + files
    && (!e.found.more ==> e.bytes == r.bytes + bytes && e.files == r.files + files)
  }

  /** The same, given the pieces themselves. */
  predicate EndsAs(e: Reading, r: Reading, prior: seq<Match>, read: seq<Piece>, q: Query, b: Bounds, limits: Budget) {
    EndsRight(e, r, prior + Matches(read, q), TotalBytes(read), |read|, b, limits)
  }

  lemma {:induction false} ReadAllEndsRight(r: Reading, files: seq<Piece>, prior: seq<Match>, q: Query, b: Bounds, limits: Budget)
    requires OnTrack(r, prior, b, limits)
    ensures EndsAs(ReadAll(r, files, q, b, limits), r, prior, Within(files, limits.perFile, limits.total - r.bytes), q, b, limits)
    decreases |files|
  {
    if files == [] {
      assert prior + Matches([], q) == prior;
    } else {
      var first, r' := FirstFile(r, files, prior, q, b, limits);
      if !Finished(r') {
        ReadAllEndsRight(r', files[1..], prior + LineMatches(first.path, q.lines(first.content), 1, q), q, b, limits);
      }
      WithinStep(files, limits.perFile, limits.total - r.bytes);
      AfterFile(r, r', ReadAll(r, files, q, b, limits), first, prior,
                Within(files[1..], limits.perFile, limits.total - r'.bytes), q, b, limits);
    }
  }

  /** What reading the first file does, and how reading goes on. */
  lemma {:induction false} FirstFile(r: Reading, files: seq<Piece>, prior: seq<Match>, q: Query, b: Bounds, limits: Budget) returns (first: Piece, r': Reading)
    requires OnTrack(r, prior, b, limits) && files != []
    ensures first == Piece(files[0].path, Clip(files[0].content, Min(limits.perFile, limits.total - r.bytes)))
    ensures r'.files == r.files + 1 && r'.bytes == r.bytes + |first.content| <= limits.total
    ensures r'.found == Window(prior + LineMatches(first.path, q.lines(first.content), 1, q), b.offset, b.maxResults)
    ensures r'.byteLimit <==> !r'.found.more && r'.bytes == limits.total
    ensures ReadAll(r, files, q, b, limits) == if Finished(r') then r' else ReadAll(r', files[1..], q, b, limits)
  {
    first := Piece(files[0].path, Clip(files[0].content, Min(limits.perFile, limits.total - r.bytes)));
    r' := ReadFile(r, files[0].path, files[0].content, q, b, limits);
    FileMatches(r, first, prior, q, b);
  }

  lemma FileMatches(r: Reading, first: Piece, prior: seq<Match>, q: Query, b: Bounds)
    requires r.found == Window(prior, b.offset, b.maxResults)
    ensures OfferLines(r.found, first.path, q.lines(first.content), 1, q, b)
         == Window(prior + LineMatches(first.path, q.lines(first.content), 1, q), b.offset, b.maxResults)
  {
    var matches := LineMatches(first.path, q.lines(first.content), 1, q);
    LinesAreOffered(r.found, first.path, q.lines(first.content), 1, q, b);
    OfferAllIsWindow(prior, matches, b.offset, b.maxResults);
  }

  /** What the first file adds to the pieces that are read. */
  lemma WithinStep(files: seq<Piece>, perFile: nat, budget: nat)
    requires files != [] && budget > 0
    ensures var first := Piece(files[0].path, Clip(files[0].content, Min(perFile, budget)));
            var rest := Within(files[1..], perFile, budget - |first.content|);
            Within(files, perFile, budget) == [first] + rest && (|first.content| == budget ==> rest == [])
  {
  }

  lemma PiecesStep(first: Piece, rest: seq<Piece>, prior: seq<Match>, q: Query)
    ensures TotalBytes([first] + rest) == |first.content| + TotalBytes(rest)
    ensures prior + Matches([first] + rest, q) == prior + LineMatches(first.path, q.lines(first.content), 1, q) + Matches(rest, q)
  {
    assert ([first] + rest)[1..] == rest;
  }

  /** How a search ends that goes on after a file, or stops there. */
  lemma AfterFile(r: Reading, r': Reading, e: Reading, first: Piece, prior: seq<Match>, rest: seq<Piece>, q: Query, b: Bounds, limits: Budget)
    requires r'.files == r.files + 1 && r'.bytes == r.bytes + |first.content| <= limits.total
    requires r'.found == Window(prior + LineMatches(first.path, q.lines(first.content), 1, q), b.offset, b.maxResults)
    requires r'.byteLimit <==> !r'.found.more && r'.bytes == limits.total
    requires r'.bytes == limits.total ==> rest == []
    requires if Finished(r') then e == r'
             else EndsAs(e, r', prior + LineMatches(first.path, q.lines(first.content), 1, q), rest, q, b, limits)
    ensures EndsAs(e, r, prior, [first] + rest, q, b, limits)
  {
    PiecesStep(first, rest, prior, q);
    EndsAfterFile(r, r', e, |first.content|, prior + LineMatches(first.path, q.lines(first.content), 1, q),
                  Matches(rest, q), TotalBytes(rest), |rest|, b, limits);
  }

  lemma EndsAfterFile(r: Reading, r': Reading, e: Reading, size: nat, prior: seq<Match>, tail: seq<Match>, bytes: nat, files: nat, b: Bounds, limits: Budget)
    requires r'.files == r.files + 1 && r'.bytes == r.bytes + size <= limits.total
    requires r'.found == Window(prior, b.offset, b.maxResults) && (r'.byteLimit <==> !r'.found.more && r'.bytes == limits.total)
    requires r'.bytes == limits.total ==> tail == [] && bytes == files == 0
    requires if Finished(r') then e == r' else EndsRight(e, r', prior + tail, bytes, files, b, limits)
    ensures EndsRight(e, r, prior + tail, size + bytes, files + 1, b, limits)
  {
    if r'.found.more {
      WindowIsStable(prior, prior + tail, b.offset, b.maxResults);
    } else if r'.byteLimit {
      assert prior + tail == prior;
    }
  }

  // ---- The entries, one after the other ----

  /** A scan reads the files within the entry limit one after the other. It reports the entry
      limit exactly if nothing else stopped it and there are more entries. */
  lemma {:induction false} ScanReadsFiles(visits: seq<Visit>, p: Progress, q: Query, b: Bounds, limits: Budget)
    requires p.entries <= b.maxEntries && !p.scanLimit
    requires p.reading.bytes <= limits.total && (p.reading.bytes == limits.total ==> Finished(p.reading))
    ensures var e, room := Scan(Job(q, b, limits), visits, p), b.maxEntries - p.entries;
            && e.reading == ReadAll(p.reading, Files(Prefix(visits, room), q), q, b, limits)
            && (e.scanLimit <==> !Finished(e.reading) && |visits| > room) && e.entries <= b.maxEntries
    decreases |visits|
  {
    var room := b.maxEntries - p.entries;
    if visits != [] && !Finished(p.reading) {
      ScanOne(Job(q, b, limits), visits, p);
      if room > 0 {
        PrefixTail(visits, room);
        FilesStep(Prefix(visits, room), q);
        StepReads(p, visits[0], q, b, limits);
        ScanReadsFiles(visits[1..], Step(p, visits[0], q, b, limits), q, b, limits);
      }
    }
  }

  /** An entry within the limit is read if it can be searched, and only counted otherwise. */
  lemma StepReads(p: Progress, v: Visit, q: Query, b: Bounds, limits: Budget)
    requires p.entries < b.maxEntries && !p.scanLimit && p.reading.bytes < limits.total && !Finished(p.reading)
    ensures var r := if Searchable(v, q) then ReadFile(p.reading, v.path, v.entry.kind.content, q, b, limits) else p.reading;
            && Step(p, v, q, b, limits) == Progress(p.entries + 1, r, false)
            && r.bytes <= limits.total && (r.bytes == limits.total ==> Finished(r))
  {
  }

  lemma FilesStep(visits: seq<Visit>, q: Query)
    requires visits != []
    ensures var files, tail := Files(visits, q), Files(visits[1..], q);
            if Searchable(visits[0], q)
            then files == [Piece(visits[0].path, visits[0].entry.kind.content)] + tail && files[1..] == tail
            else files == tail
  {
  }

  // ---- The search ----

  datatype ContentReply = ContentReply(page: Reply<Match>, entries: nat, files: nat, bytes: nat, scanLimit: bool, byteLimit: bool)

  /** The page is the slice [offset, offset + maxResults) of the matching lines in the files among
      the first `maxEntries` entries of the walk, each file cut at the per-file limit and all of
      them together at the byte budget. Fewer bytes are read only if the page is full and one
      more match was seen. */
  predicate Answers(r: ContentReply, walk: seq<Visit>, q: Query, b: Bounds, limits: Budget) {
    AnswersFrom(r, Files(Prefix(walk, b.maxEntries), q), |walk| > b.maxEntries, q, b, limits)
  }

  predicate AnswersFrom(r: ContentReply, files: seq<Piece>, beyond: bool, q: Query, b: Bounds, limits: Budget) {
    var read := Within(files, limits.perFile, limits.total);
    var matches := Matches(read, q);
    var left := |matches| > b.offset + b.maxResults;
    var bytes := CappedBytes(files, limits.perFile);
    && r.page == PageAt(matches, bytes >= limits.total || beyond, b.offset, b.maxResults)
    && (r.byteLimit <==> !left && bytes >= limits.total)
    && (r.scanLimit <==> !left && bytes < limits.total && beyond)
    && r.bytes <= Min(bytes, limits.total) && r.files <= |read| && r.entries <= b.maxEntries
    && (!left ==> r.bytes == Min(bytes, limits.total) && r.files == |read|)
  }

  function Start(): Progress {
    Progress(0, Reading(0, 0, Nothing(), false), false)
  }

  function ReplyAt(p: Progress, offset: nat): ContentReply {
    ContentReply(ReplyOf(p.reading.found, p.scanLimit || p.reading.byteLimit, offset),
                 p.entries, p.reading.files, p.reading.bytes, p.scanLimit, p.reading.byteLimit)
  }

  lemma EndAnswers(e: Progress, files: seq<Piece>, beyond: bool, q: Query, b: Bounds, limits: Budget)
    requires limits.total >= 1 && e.entries <= b.maxEntries
    requires e.reading == ReadAll(Start().reading, files, q, b, limits)
    requires e.scanLimit <==> !Finished(e.reading) && beyond
    ensures AnswersFrom(ReplyAt(e, b.offset), files, beyond, q, b, limits)
  {
    BudgetIsSharp(files, limits.perFile, limits.total);
    ReadAllEndsRight(Start().reading, files, [], q, b, limits);
    var matches := Matches(Within(files, limits.perFile, limits.total), q);
    assert [] + matches == matches;
  }

  /** A scan of the walk, cut short or not, answers the query. */
  lemma ScanAnswers(walk: seq<Visit>, q: Query, b: Bounds, limits: Budget)
    requires limits.total >= 1
    ensures Answers(ReplyAt(Scan(Job(q, b, limits), walk, Start()), b.offset), walk, q, b, limits)
  {
    ScanReadsFiles(walk, Start(), q, b, limits);
    EndAnswers(Scan(Job(q, b, limits), walk, Start()), Files(Prefix(walk, b.maxEntries), q), |walk| > b.maxEntries, q, b, limits);
  }

  /** The content search. `perFile` is the executor's read limit. */
  method SearchContent(root: Tree, offset: int, maxResults: int, maxEntries: int, maxDepth: int,
                       perFile: nat, total: int, q: Query)
    returns (r: Result<ContentReply, SearchError>)
    ensures r.Ok? <==> offset >= 0 && 1 <= maxResults <= 500 && 1 <= maxEntries <= 50_000 && 0 <= maxDepth <= 32 && 1 <= total <= 16_777_216
    ensures r.Ok? ==> Answers(r.value, Walk(root, "", 0, maxDepth), q, Bounds(offset, maxResults, maxEntries), Budget(perFile, total))
  {
    if !Acceptable(offset, maxResults, maxEntries, maxDepth) || !(1 <= total <= MAX_CONTENT_BYTES) {
      return Err(InvalidArgument);
    }
    var b, limits := Bounds(offset, maxResults, maxEntries), Budget(perFile, total);
    var p := Traverse(Job(q, b, limits), root, Start(), maxDepth);
    ScanAnswers(Walk(root, "", 0, maxDepth), q, b, limits);
    r := Ok(ReplyAt(p, offset));
  }

  /** The matches of a content search within its limits. */
  ghost function AllMatches(root: Tree, maxEntries: nat, maxDepth: nat, limits: Budget, q: Query): seq<Match> {
    Matches(Within(Files(Prefix(Walk(root, "", 0, maxDepth), maxEntries), q), limits.perFile, limits.total), q)
  }

  /** A client that searches again and again from the offset it was given gets each of them, once
      and in order. */
  method SearchAllPages(root: Tree, maxResults: int, maxEntries: int, maxDepth: int, perFile: nat, total: int, q: Query)
    returns (r: Result<seq<Match>, SearchError>)
    ensures r.Err? <==> !(Acceptable(0, maxResults, maxEntries, maxDepth) && 1 <= total <= MAX_CONTENT_BYTES)
    ensures r.Ok? ==> r.value == AllMatches(root, maxEntries, maxDepth, Budget(perFile, total), q)
  {
    if !Acceptable(0, maxResults, maxEntries, maxDepth) || !(1 <= total <= MAX_CONTENT_BYTES) {
      return Err(InvalidArgument);
    }
    ghost var matches := AllMatches(root, maxEntries, maxDepth, Budget(perFile, total), q);
    var all: seq<Match> := [];
    var more := true;
    while more
      invariant |all| <= |matches| && all == matches[..|all|] && (!more ==> all == matches)
      decreases more, |matches| - |all|
    {
      var reply := SearchContent(root, |all|, maxResults, maxEntries, maxDepth, perFile, total, q);
      var page := reply.value.page;
      ghost var cut := PageOf(reply.value, Walk(root, "", 0, maxDepth), q, Bounds(|all|, maxResults, maxEntries), Budget(perFile, total));
      ghost var end := PageEnd(matches, cut, |all|, maxResults);
      assert all + page.matches == matches[..end];
      all := all + page.matches;
      more := page.nextOffset.Some?;
    }
    r := Ok(all);
  }

  lemma PageOf(r: ContentReply, walk: seq<Visit>, q: Query, b: Bounds, limits: Budget) returns (cut: bool)
    requires Answers(r, walk, q, b, limits)
    ensures r.page == PageAt(Matches(Within(Files(Prefix(walk, b.maxEntries), q), limits.perFile, limits.total), q), cut, b.offset, b.maxResults)
  {
    cut := CappedBytes(Files(Prefix(walk, b.maxEntries), q), limits.perFile) >= limits.total || |walk| > b.maxEntries;
  }
}
