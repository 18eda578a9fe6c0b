/** The serial line assembler and its pollers. */
module Serial {
  import opened Counting
  import opened Text
  import opened Words

  type Bytes = seq<Byte>

  const NEW_LINE: Byte := 10

  datatype ExpectedOutput = SubString(text: string) | Pattern(isMatch: string -> bool) {
    predicate Matches(line: string)
    {
      match this
      case SubString(text) => Contains(line, text)
      case Pattern(isMatch) => isMatch(line)
    }
  }

  /**
   * What one `read_until` call does: hands over bytes (none at the end of the log), reports `WouldBlock` or
   * `TimedOut` without having consumed any byte, or fails.
   */
  datatype Read = Data(bytes: Bytes) | NotReady | Failed

  /** `read_until` stops at a newline, so only the last byte of what it hands over can be one. */
  ghost predicate IsRead(read: Read)
  {
    read.Data? ==> forall k :: 0 <= k < |read.bytes| - 1 ==> read.bytes[k] != NEW_LINE
  }

  datatype Chunk = Line(bytes: Bytes) | Progress | NoProgress | ReadError

  /** The chunk a read gives when `partial` is already held, and what is held afterwards. */
  function ChunkOf(partial: Bytes, read: Read): (Chunk, Bytes)
  {
    match read
    case Data(bytes) =>
      if bytes == [] then (NoProgress, partial)
      else
        var held := partial + bytes;
        if held[|held| - 1] == NEW_LINE then (Line(held), []) else (Progress, held)
    case NotReady => (NoProgress, partial)
    case Failed => (ReadError, partial)
  }

  /** What a poller sees before each read: the shutdown flag and the clock. */
  datatype Check = Check(shutdown: bool, now: nat)

  datatype Ending = Matched(bytes: Bytes) | Interrupted | TimedOut | Broken | Waiting

  /** How a poll ended, the reads it left, and the bytes it held when it ended. */
  datatype Poll = Poll(outcome: Ending, input: seq<Read>, held: Bytes)

  /** The poll loop; `Waiting` says that what is known of the environment ends before the poll does. */
  function PollOf(isMatch: Bytes -> bool, partial: Bytes, input: seq<Read>, checks: seq<Check>, deadline: nat): Poll
    decreases |checks|
  {
    if checks == [] then Poll(Waiting, input, partial)
    else if checks[0].shutdown then Poll(Interrupted, input, partial)
    else if checks[0].now > deadline then Poll(TimedOut, input, partial)
    else if input == [] then Poll(Waiting, input, partial)
    else
      match ChunkOf(partial, input[0])
      case (Line(bytes), held) =>
        if isMatch(bytes) then Poll(Matched(bytes), input[1..], held)
        else PollOf(isMatch, held, input[1..], checks[1..], deadline)
      case (ReadError, held) => Poll(Broken, input[1..], held)
      case (_, held) => PollOf(isMatch, held, input[1..], checks[1..], deadline)
  }

  /** A text is expected anywhere in the line; a pattern decides by itself. */
  lemma SubStringMatches(expected: ExpectedOutput, line: string)
    ensures expected.SubString? ==> (expected.Matches(line) <==> exists u, w :: u + expected.text + w == line)
    ensures expected.Pattern? ==> (expected.Matches(line) <==> expected.isMatch(line))
  {
    if expected.SubString? {
      if Contains(line, expected.text) {
        var u, w := SplitAround(line, expected.text);
      }
      if u, w :| u + expected.text + w == line {
        ContainsMiddle(u, expected.text, w);
      }
    }
  }

  predicate IsEmptyRead(read: Read) { read.NotReady? || read == Data([]) }

  /** Which chunk a read gives. */
  lemma ChunkKinds(partial: Bytes, read: Read)
    ensures var (chunk, held) := ChunkOf(partial, read);
      && (chunk.ReadError? <==> read.Failed?)
      && (chunk.NoProgress? <==> IsEmptyRead(read))
      && (chunk.Line? <==> read.Data? && read.bytes != [] && read.bytes[|read.bytes| - 1] == 10)
      && (chunk.Line? ==> chunk.bytes == partial + read.bytes && held == [])
      && (chunk.Progress? ==> held == partial + read.bytes)
      && (chunk.ReadError? || chunk.NoProgress? ==> held == partial)
  {
    if read.Data? && read.bytes != [] {
      assert (partial + read.bytes)[|partial + read.bytes| - 1] == read.bytes[|read.bytes| - 1];
    }
  }

  class SerialReader {
    /** What the following `read_until` calls will do. */
    var input: seq<Read>
    const decode: Bytes -> string

    constructor (input: seq<Read>, decode: Bytes -> string)
      ensures this.input == input && this.decode == decode
    {
      this.input := input;
      this.decode := decode;
    }

    method ReadChunk(partial: Bytes) returns (chunk: Chunk, held: Bytes)
      requires input != []
      modifies this
      ensures input == old(input)[1..]
      ensures (chunk, held) == ChunkOf(partial, old(input)[0])
    {
      var read := input[0];
      input := input[1..];
      held := partial;
      match read {
        case Data(bytes) =>
          if bytes == [] {
            return NoProgress, held;
          }
          held := held + bytes;
          if held[|held| - 1] != NEW_LINE {
            return Progress, held;
          }
          chunk := Line(held);
          held := [];
        case NotReady => chunk := NoProgress;
        case Failed => chunk := ReadError;
      }
    }

    /** `poll_line_match_timeout`, started at time `start`. */
    method PollLineMatch(expected: ExpectedOutput, start: nat, timeout: nat, checks: seq<Check>)
      returns (outcome: Ending, line: string)
      modifies this
      ensures var isMatch := (bytes: Bytes) => expected.Matches(decode(bytes));
        exists held :: Poll(outcome, input, held) == PollOf(isMatch, [], old(input), checks, start + timeout)
      ensures outcome.Matched? ==> line == decode(outcome.bytes) && expected.Matches(line)
      ensures outcome.Matched? && expected.SubString? ==> exists u, w :: u + expected.text + w == line
      ensures outcome.Matched? && expected.Pattern? ==> expected.isMatch(line)
    {
      var partial: Bytes := [];
      line := "";
      ghost var isMatch := (bytes: Bytes) => expected.Matches(decode(bytes));
      ghost var all := PollOf(isMatch, [], input, checks, start + timeout);
      for i := 0 to |checks|
        invariant PollOf(isMatch, partial, input, checks[i..], start + timeout) == all
      {
        assert checks[i..][0] == checks[i] && checks[i..][1..] == checks[i + 1..];
        if checks[i].shutdown {
          assert Poll(Interrupted, input, partial) == all;
          return Interrupted, line;
        }
        if checks[i].now > start + timeout {
          assert Poll(TimedOut, input, partial) == all;
          return TimedOut, line;
        }
        if input == [] {
          assert Poll(Waiting, input, partial) == all;
          return Waiting, line;
        }
        var chunk;
        chunk, partial := ReadChunk(partial);
        match chunk {
          case Line(bytes) =>
            var text := decode(bytes);
            if expected.Matches(text) {
              assert Poll(Matched(bytes), input, partial) == all;
              SubStringMatches(expected, text);
              return Matched(bytes), text;
            }
          case ReadError =>
            assert Poll(Broken, input, partial) == all;
            return Broken, line;
          case _ =>
        }
      }
      assert Poll(Waiting, input, partial) == all;
      outcome := Waiting;
    }
  }

  // Lines of a byte stream, without reference to reads

  function LineEnd(bytes: Bytes): (n: nat)
    ensures n <= |bytes|
  {
    if bytes == [] || bytes[0] == NEW_LINE then 0 else 1 + LineEnd(bytes[1..])
  }

  lemma {:induction false} LineEndIsFirst(bytes: Bytes)
    ensures forall k :: 0 <= k < LineEnd(bytes) ==> bytes[k] != NEW_LINE
    ensures LineEnd(bytes) < |bytes| ==> bytes[LineEnd(bytes)] == NEW_LINE
  {
    if bytes != [] && bytes[0] != NEW_LINE {
      LineEndIsFirst(bytes[1..]);
    }
  }

  /** The newline-terminated segments, in order. */
  function Lines(bytes: Bytes): seq<Bytes>
    decreases |bytes|
  {
    var n := LineEnd(bytes);
    if n == |bytes| then [] else [bytes[..n + 1]] + Lines(bytes[n + 1..])
  }

  /** What follows the last newline. */
  function Tail(bytes: Bytes): Bytes
    decreases |bytes|
  {
    var n := LineEnd(bytes);
    if n == |bytes| then bytes else Tail(bytes[n + 1..])
  }

  function Flatten(parts: seq<Bytes>): Bytes
  {
    if parts == [] then [] else parts[0] + Flatten(parts[1..])
  }

  ghost predicate IsLine(line: Bytes)
  {
    line != [] && line[|line| - 1] == NEW_LINE && NEW_LINE !in line[..|line| - 1]
  }

  lemma {:induction false} NoLines(bytes: Bytes)
    requires NEW_LINE !in bytes
    ensures LineEnd(bytes) == |bytes| && Lines(bytes) == [] && Tail(bytes) == bytes
  {
    if bytes != [] {
      NoLines(bytes[1..]);
    }
  }

  lemma {:induction false} LineEndOf(line: Bytes, rest: Bytes)
    requires IsLine(line)
    ensures LineEnd(line + rest) == |line| - 1
  {
    if |line| > 1 {
      assert (line + rest)[1..] == line[1..] + rest;
      assert line[1..][..|line[1..]| - 1] == line[..|line| - 1][1..];
      LineEndOf(line[1..], rest);
      assert line[0] == line[..|line| - 1][0];
    }
  }

  lemma LinesAfterLine(line: Bytes, rest: Bytes)
    requires IsLine(line)
    ensures Lines(line + rest) == [line] + Lines(rest) && Tail(line + rest) == Tail(rest)
  {
    LineEndOf(line, rest);
    assert (line + rest)[..|line|] == line && (line + rest)[|line|..] == rest;
  }

  /** The lines and the tail are the only way to cut the bytes at their newlines. */
  lemma {:induction false} LinesAreUnique(lines: seq<Bytes>, tail: Bytes)
    requires NEW_LINE !in tail && forall k :: 0 <= k < |lines| ==> IsLine(lines[k])
    ensures Lines(Flatten(lines) + tail) == lines && Tail(Flatten(lines) + tail) == tail
  {
    if lines == [] {
      assert Flatten(lines) + tail == tail;
      NoLines(tail);
    } else {
      var rest := Flatten(lines[1..]) + tail;
      assert Flatten(lines) + tail == lines[0] + rest;
      LinesAfterLine(lines[0], rest);
      LinesAreUnique(lines[1..], tail);
    }
  }

  lemma {:induction false} LinesRebuild(bytes: Bytes)
    ensures Flatten(Lines(bytes)) + Tail(bytes) == bytes
    ensures NEW_LINE !in Tail(bytes) && forall k :: 0 <= k < |Lines(bytes)| ==> IsLine(Lines(bytes)[k])
    decreases |bytes|
  {
    var n := LineEnd(bytes);
    LineEndIsFirst(bytes);
    if n < |bytes| {
      var line, rest := bytes[..n + 1], bytes[n + 1..];
      LinesRebuild(rest);
      FirstLine(bytes, n);
      Regroup(line, Flatten(Lines(rest)), Tail(rest));
      assert Lines(bytes)[0] == line && Lines(bytes)[1..] == Lines(rest);
    } else {
      assert [] + bytes == bytes;
    }
  }

  lemma FirstLine(bytes: Bytes, n: nat)
    requires n < |bytes| && bytes[n] == NEW_LINE && forall k :: 0 <= k < n ==> bytes[k] != NEW_LINE
    ensures IsLine(bytes[..n + 1]) && bytes[..n + 1] + bytes[n + 1..] == bytes
  {
    assert bytes[..n + 1][..n] == bytes[..n];
  }

  lemma Regroup(a: Bytes, b: Bytes, c: Bytes)
    ensures a + (b + c) == (a + b) + c
  {
  }

  // Reads without errors

  ghost predicate AreGoodReads(input: seq<Read>)
  {
    forall k :: 0 <= k < |input| ==> IsRead(input[k]) && !input[k].Failed?
  }

  function ReadBytes(read: Read): Bytes
  {
    if read.Data? then read.bytes else []
  }

  function BytesOf(input: seq<Read>): Bytes
  {
    if input == [] then [] else ReadBytes(input[0]) + BytesOf(input[1..])
  }

  /** All lines that successive chunks produce, and what is held at the end. */
  function Assemble(partial: Bytes, input: seq<Read>): (seq<Bytes>, Bytes)
    decreases |input|
  {
    if input == [] then ([], partial)
    else
      var (chunk, held) := ChunkOf(partial, input[0]);
      var (lines, tail) := Assemble(held, input[1..]);
      (if chunk.Line? then [chunk.bytes] + lines else lines, tail)
  }

  /** One good read either completes the held line or leaves it open. */
  lemma ChunkIsLine(partial: Bytes, read: Read)
    requires NEW_LINE !in partial && IsRead(read) && !read.Failed?
    ensures var (chunk, held) := ChunkOf(partial, read);
      && NEW_LINE !in held && !chunk.ReadError?
      && (if chunk.Line? then IsLine(chunk.bytes) && chunk.bytes == partial + ReadBytes(read) && held == []
          else held == partial + ReadBytes(read))
  {
    if read.Data? && read.bytes != [] {
      var held := partial + read.bytes;
      assert held[..|held| - 1] == partial + read.bytes[..|read.bytes| - 1];
      if held[|held| - 1] != NEW_LINE {
        assert held == held[..|held| - 1] + [held[|held| - 1]];
      }
    }
  }

  /**
   * One read, seen in the stream: the line it completes comes first, then the lines of what is held and what follows.
   */
  lemma ReadIsInvisible(partial: Bytes, read: Read, rest: Bytes)
    requires NEW_LINE !in partial && IsRead(read) && !read.Failed?
    ensures var (chunk, held) := ChunkOf(partial, read);
      var bytes := partial + (ReadBytes(read) + rest);
      && NEW_LINE !in held && !chunk.ReadError?
      && Lines(bytes) == (if chunk.Line? then [chunk.bytes] + Lines(held + rest) else Lines(held + rest))
      && Tail(bytes) == Tail(held + rest)
  {
    var (chunk, held) := ChunkOf(partial, read);
    ChunkIsLine(partial, read);
    assert partial + (ReadBytes(read) + rest) == (partial + ReadBytes(read)) + rest;
    if chunk.Line? {
      assert held + rest == rest;
      LinesAfterLine(chunk.bytes, rest);
    }
  }

  /**
   * However the serial bytes are split into reads, the lines are the newline-terminated segments of the bytes, and
   * what is held is the unterminated, newline-free tail.
   */
  lemma {:induction false} ChunkingIsInvisible(partial: Bytes, input: seq<Read>)
    requires NEW_LINE !in partial && AreGoodReads(input)
    ensures Assemble(partial, input) == (Lines(partial + BytesOf(input)), Tail(partial + BytesOf(input)))
    ensures NEW_LINE !in Assemble(partial, input).1
    decreases |input|
  {
    if input == [] {
      assert partial + BytesOf(input) == partial;
      NoLines(partial);
    } else {
      ReadIsInvisible(partial, input[0], BytesOf(input[1..]));
      ChunkingIsInvisible(ChunkOf(partial, input[0]).1, input[1..]);
    }
  }

  /** Two splits of the same bytes give the same lines and the same tail. */
  lemma SplitsAgree(input: seq<Read>, others: seq<Read>)
    requires AreGoodReads(input) && AreGoodReads(others) && BytesOf(input) == BytesOf(others)
    ensures Assemble([], input) == Assemble([], others)
  {
    ChunkingIsInvisible([], input);
    ChunkingIsInvisible([], others);
  }

  // What a poll does with what it sees

  /** The poll goes on: no shutdown is requested and the time is not up. */
  predicate GoesOn(check: Check, deadline: nat) { !check.shutdown && check.now <= deadline }

  /** The poll ended after `n` reads, each preceded by a look at the flag and the clock. */
  ghost predicate EndsAfter(poll: Poll, n: nat, isMatch: Bytes -> bool, partial: Bytes, input: seq<Read>,
                            checks: seq<Check>, deadline: nat)
  {
    && n <= |input| && n <= |checks| && poll.input == input[n..]
    && (forall k :: 0 <= k < n ==> GoesOn(checks[k], deadline))
    && (forall k :: 0 <= k < n && input[k].Failed? ==> poll.outcome.Broken? && k == n - 1)
    && match poll.outcome
       case Interrupted => n < |checks| && checks[n].shutdown
       case TimedOut => n < |checks| && !checks[n].shutdown && checks[n].now > deadline
       case Waiting => n == |checks| || (n == |input| && GoesOn(checks[n], deadline))
       case Broken => n > 0 && input[n - 1].Failed?
       case Matched(bytes) => n > 0 && isMatch(bytes)
  }

  /** The lines completed by the reads made: none matches, except the last one when the poll returns it. */
  ghost predicate ReadsUntilMatch(poll: Poll, n: nat, isMatch: Bytes -> bool, partial: Bytes, input: seq<Read>)
    requires n <= |input|
  {
    var (lines, held) := Assemble(partial, input[..n]);
    && held == poll.held
    && match poll.outcome
       case Matched(bytes) =>
         lines != [] && lines[|lines| - 1] == bytes && forall k :: 0 <= k < |lines| - 1 ==> !isMatch(lines[k])
       case _ => forall k :: 0 <= k < |lines| ==> !isMatch(lines[k])
  }

  lemma MoreReads(read: Read, partial: Bytes, input: seq<Read>)
    ensures var (chunk, held) := ChunkOf(partial, read);
      var (lines, tail) := Assemble(held, input);
      Assemble(partial, [read] + input) == (if chunk.Line? then [chunk.bytes] + lines else lines, tail)
  {
    assert ([read] + input)[1..] == input;
  }

  /** The read that ends a poll, by an error or by completing a matching line. */
  lemma LastRead(poll: Poll, isMatch: Bytes -> bool, partial: Bytes, input: seq<Read>)
    requires input != []
    requires var (chunk, held) := ChunkOf(partial, input[0]);
      (chunk.ReadError? && poll == Poll(Broken, input[1..], held))
      || (chunk.Line? && isMatch(chunk.bytes) && poll == Poll(Matched(chunk.bytes), input[1..], held))
    ensures ReadsUntilMatch(poll, 1, isMatch, partial, input)
  {
    var (chunk, held) := ChunkOf(partial, input[0]);
    assert input[..1] == [input[0]] + [];
    MoreReads(input[0], partial, []);
    assert Assemble(held, []) == ([], held);
  }

  lemma OneMoreLine(poll: Poll, m: nat, isMatch: Bytes -> bool, partial: Bytes, input: seq<Read>)
    requires input != [] && m < |input|
    requires var (chunk, held) := ChunkOf(partial, input[0]);
      (chunk.Line? ==> !isMatch(chunk.bytes)) && ReadsUntilMatch(poll, m, isMatch, held, input[1..])
    ensures ReadsUntilMatch(poll, m + 1, isMatch, partial, input)
  {
    var (chunk, held) := ChunkOf(partial, input[0]);
    assert input[..m + 1] == [input[0]] + input[1..][..m];
    MoreReads(input[0], partial, input[1..][..m]);
    var lines := Assemble(held, input[1..][..m]).0;
    if chunk.Line? {
      assert forall k :: 0 < k <= |lines| ==> ([chunk.bytes] + lines)[k] == lines[k - 1];
    }
  }

  /** For every sequence of reads, clock values and shutdown flags: when a poll ends, why, and with what. */
  lemma {:induction false} PollIsExplained(isMatch: Bytes -> bool, partial: Bytes, input: seq<Read>, checks: seq<Check>,
                                           deadline: nat) returns (n: nat)
    ensures var poll := PollOf(isMatch, partial, input, checks, deadline);
      EndsAfter(poll, n, isMatch, partial, input, checks, deadline) && ReadsUntilMatch(poll, n, isMatch, partial, input)
    decreases |checks|
  {
    var poll := PollOf(isMatch, partial, input, checks, deadline);
    if checks == [] || !GoesOn(checks[0], deadline) || input == [] {
      n := 0;
      assert input[..0] == [];
    } else {
      var (chunk, held) := ChunkOf(partial, input[0]);
      ChunkKinds(partial, input[0]);
      if chunk.ReadError? || (chunk.Line? && isMatch(chunk.bytes)) {
        n := 1;
        LastRead(poll, isMatch, partial, input);
      } else {
        var m := PollIsExplained(isMatch, held, input[1..], checks[1..], deadline);
        n := m + 1;
        OneMoreLine(poll, m, isMatch, partial, input);
        OneMoreRead(poll, m, isMatch, partial, held, input, checks, deadline);
      }
    }
  }

  lemma OneMoreRead(poll: Poll, m: nat, isMatch: Bytes -> bool, partial: Bytes, held: Bytes, input: seq<Read>,
                    checks: seq<Check>, deadline: nat)
    requires input != [] && checks != [] && GoesOn(checks[0], deadline) && !input[0].Failed?
    requires EndsAfter(poll, m, isMatch, held, input[1..], checks[1..], deadline)
    ensures EndsAfter(poll, m + 1, isMatch, partial, input, checks, deadline)
  {
    assert forall k :: 0 < k <= m ==> input[k] == input[1..][k - 1] && checks[k] == checks[1..][k - 1];
    assert input[1..][m..] == input[m + 1..];
  }

  /**
   * A shutdown request is obeyed at the next look at the flag: at most as many reads are made as looks came before it,
   * and unless the poll had ended by then it is interrupted. Nothing else interrupts a poll.
   */
  lemma ShutdownStopsPoll(isMatch: Bytes -> bool, partial: Bytes, input: seq<Read>, checks: seq<Check>, deadline: nat)
    ensures var poll := PollOf(isMatch, partial, input, checks, deadline);
      var n := |input| - |poll.input|;
      && (forall k :: 0 <= k < |checks| && checks[k].shutdown ==>
            n <= k && (n == k ==> !poll.outcome.TimedOut? && !poll.outcome.Waiting?))
      && (poll.outcome.Interrupted? ==> exists k :: 0 <= k < |checks| && checks[k].shutdown)
      && ((exists k :: 0 <= k < |checks| && checks[k].shutdown) && poll.outcome.Waiting? ==> poll.input == [])
  {
    var n := PollIsExplained(isMatch, partial, input, checks, deadline);
  }

  // Polling in calm: no shutdown, no timeout, no read error

  ghost predicate AreCalm(checks: seq<Check>, deadline: nat)
  {
    forall k :: 0 <= k < |checks| ==> !checks[k].shutdown && checks[k].now <= deadline
  }

  datatype Search = NotFound | Found(line: Bytes, after: seq<Bytes>)

  /** The first matching line and the lines after it. */
  function SearchIn(isMatch: Bytes -> bool, lines: seq<Bytes>): Search
  {
    if lines == [] then NotFound
    else if isMatch(lines[0]) then Found(lines[0], lines[1..])
    else SearchIn(isMatch, lines[1..])
  }

  /** The poll returns what the search finds, holds nothing, and leaves exactly the later lines to be read. */
  ghost predicate IsPollOf(poll: Poll, search: Search, tail: Bytes, bound: nat)
  {
    match search
    case NotFound => poll.outcome == Waiting
    case Found(line, after) =>
      && poll.outcome == Matched(line) && poll.held == [] && AreGoodReads(poll.input) && |poll.input| <= bound
      && Lines(BytesOf(poll.input)) == after && Tail(BytesOf(poll.input)) == tail
  }

  /** A calm poll returns the first matching line. */
  lemma {:induction false} PollReturnsFirstMatch(isMatch: Bytes -> bool, partial: Bytes, input: seq<Read>,
                                                 checks: seq<Check>, deadline: nat)
    requires NEW_LINE !in partial && AreGoodReads(input) && AreCalm(checks, deadline) && |checks| > |input|
    ensures var bytes := partial + BytesOf(input);
      IsPollOf(PollOf(isMatch, partial, input, checks, deadline), SearchIn(isMatch, Lines(bytes)), Tail(bytes), |input|)
    decreases |input|
  {
    if input == [] {
      assert partial + BytesOf(input) == partial;
      NoLines(partial);
    } else {
      var rest := BytesOf(input[1..]);
      var (chunk, held) := ChunkOf(partial, input[0]);
      ReadIsInvisible(partial, input[0], rest);
      if chunk.Line? && isMatch(chunk.bytes) {
        assert held + rest == rest;
      } else {
        PollReturnsFirstMatch(isMatch, held, input[1..], checks[1..], deadline);
        SearchSkips(isMatch, chunk, Lines(held + rest));
      }
    }
  }

  lemma SearchSkips(isMatch: Bytes -> bool, chunk: Chunk, lines: seq<Bytes>)
    requires chunk.Line? ==> !isMatch(chunk.bytes)
    ensures chunk.Line? ==> SearchIn(isMatch, [chunk.bytes] + lines) == SearchIn(isMatch, lines)
  {
  }

  /** One poll: the pattern it waits for, and what it sees of the shutdown flag and the clock. */
  datatype Request = Request(isMatch: Bytes -> bool, checks: seq<Check>, deadline: nat)

  /** No poll is interrupted or late, and each may look often enough to see all reads. */
  ghost predicate AllCalm(requests: seq<Request>, bound: nat)
  {
    forall k :: 0 <= k < |requests| ==>
      AreCalm(requests[k].checks, requests[k].deadline) && |requests[k].checks| > bound
  }

  /** Consecutive polls of one process: whether all succeed, and the lines they return. */
  ghost function PollAll(requests: seq<Request>, input: seq<Read>): (bool, seq<Bytes>)
  {
    if requests == [] then (true, [])
    else
      var poll := PollOf(requests[0].isMatch, [], input, requests[0].checks, requests[0].deadline);
      if !poll.outcome.Matched? then (false, [])
      else
        var (ok, lines) := PollAll(requests[1..], poll.input);
        (ok, [poll.outcome.bytes] + lines)
  }

  function Patterns(requests: seq<Request>): seq<Bytes -> bool>
  {
    seq(|requests|, k requires 0 <= k < |requests| => requests[k].isMatch)
  }

  /** The same greedy search on the lines of the stream. */
  ghost function SearchAll(patterns: seq<Bytes -> bool>, lines: seq<Bytes>): (bool, seq<Bytes>)
  {
    if patterns == [] then (true, [])
    else
      match SearchIn(patterns[0], lines)
      case NotFound => (false, [])
      case Found(line, after) =>
        var (ok, others) := SearchAll(patterns[1..], after);
        (ok, [line] + others)
  }

  lemma {:induction false} PollAllIsSearchAll(requests: seq<Request>, input: seq<Read>)
    requires AreGoodReads(input) && AllCalm(requests, |input|)
    ensures PollAll(requests, input) == SearchAll(Patterns(requests), Lines(BytesOf(input)))
    decreases |requests|
  {
    if requests != [] {
      var (isMatch, checks, deadline) := (requests[0].isMatch, requests[0].checks, requests[0].deadline);
      assert [] + BytesOf(input) == BytesOf(input);
      PollReturnsFirstMatch(isMatch, [], input, checks, deadline);
      var poll := PollOf(isMatch, [], input, checks, deadline);
      assert Patterns(requests)[1..] == Patterns(requests[1..]);
      if poll.outcome.Matched? {
        PollAllIsSearchAll(requests[1..], poll.input);
      }
    }
  }

  /** Line numbers, strictly increasing from `from`, with the j-th line matching the j-th pattern. */
  ghost predicate IsChoice(patterns: seq<Bytes -> bool>, lines: seq<Bytes>, from: nat, choice: seq<nat>)
  {
    |choice| == |patterns|
    && (forall j :: 0 <= j < |choice| ==> from <= choice[j] < |lines| && patterns[j](lines[choice[j]]))
    && forall i, j :: 0 <= i < j < |choice| ==> choice[i] < choice[j]
  }

  ghost predicate IsLeftOf(best: seq<nat>, other: seq<nat>)
  {
    |best| == |other| && forall j :: 0 <= j < |best| ==> best[j] <= other[j]
  }

  function Picked(lines: seq<Bytes>, choice: seq<nat>): seq<Bytes>
    requires forall j :: 0 <= j < |choice| ==> choice[j] < |lines|
  {
    seq(|choice|, j requires 0 <= j < |choice| => lines[choice[j]])
  }

  /** Where the search stops, in the numbering of all lines. */
  lemma {:induction false} SearchStops(isMatch: Bytes -> bool, lines: seq<Bytes>, from: nat) returns (n: nat)
    requires from <= |lines|
    ensures from <= n <= |lines| && forall k :: from <= k < n ==> !isMatch(lines[k])
    ensures SearchIn(isMatch, lines[from..]) == if n < |lines| then Found(lines[n], lines[n + 1..]) else NotFound
    ensures n < |lines| ==> isMatch(lines[n])
    decreases |lines| - from
  {
    if from == |lines| || isMatch(lines[from]) {
      n := from;
      assert from < |lines| ==> lines[from..][1..] == lines[from + 1..];
    } else {
      n := SearchStops(isMatch, lines, from + 1);
      assert lines[from..][1..] == lines[from + 1..];
    }
  }

  lemma ChoiceContinues(patterns: seq<Bytes -> bool>, lines: seq<Bytes>, from: nat, choice: seq<nat>, first: nat)
    requires patterns != [] && IsChoice(patterns, lines, from, choice) && first <= choice[0]
    ensures IsChoice(patterns[1..], lines, first + 1, choice[1..])
  {
  }

  lemma ChoiceExtends(patterns: seq<Bytes -> bool>, lines: seq<Bytes>, from: nat, first: nat, rest: seq<nat>)
    requires patterns != [] && from <= first < |lines| && patterns[0](lines[first])
    requires IsChoice(patterns[1..], lines, first + 1, rest)
    ensures IsChoice(patterns, lines, from, [first] + rest)
    ensures Picked(lines, [first] + rest) == [lines[first]] + Picked(lines, rest)
  {
  }

  /** If the search succeeds, it returns the lines of the leftmost choice. */
  lemma {:induction false} SearchIsLeftmost(patterns: seq<Bytes -> bool>, lines: seq<Bytes>, from: nat)
    returns (best: seq<nat>)
    requires from <= |lines| && SearchAll(patterns, lines[from..]).0
    ensures IsChoice(patterns, lines, from, best) && SearchAll(patterns, lines[from..]).1 == Picked(lines, best)
    ensures forall other :: IsChoice(patterns, lines, from, other) ==> IsLeftOf(best, other)
    decreases |patterns|
  {
    if patterns == [] {
      best := [];
    } else {
      var first := SearchStops(patterns[0], lines, from);
      var rest := SearchIsLeftmost(patterns[1..], lines, first + 1);
      best := [first] + rest;
      ChoiceExtends(patterns, lines, from, first, rest);
      forall other | IsChoice(patterns, lines, from, other) ensures IsLeftOf(best, other) {
        ChoiceContinues(patterns, lines, from, other, first);
        assert IsLeftOf(rest, other[1..]);
      }
    }
  }

  /** If there is a choice, the search succeeds. */
  lemma {:induction false} SearchIsComplete(patterns: seq<Bytes -> bool>, lines: seq<Bytes>, from: nat,
                                            choice: seq<nat>)
    requires from <= |lines| && IsChoice(patterns, lines, from, choice)
    ensures SearchAll(patterns, lines[from..]).0
    decreases |patterns|
  {
    if patterns != [] {
      var first := SearchStops(patterns[0], lines, from);
      ChoiceContinues(patterns, lines, from, choice, first);
      SearchIsComplete(patterns[1..], lines, first + 1, choice[1..]);
    }
  }

  /**
   * Consecutive polls succeed exactly when the stream has matching lines in order, and then return the leftmost ones.
   */
  lemma GreedyPollingIsComplete(requests: seq<Request>, input: seq<Read>)
    requires AreGoodReads(input) && AllCalm(requests, |input|)
    ensures var lines := Lines(BytesOf(input));
      var (ok, returned) := PollAll(requests, input);
      && (ok <==> exists choice :: IsChoice(Patterns(requests), lines, 0, choice))
      && (ok ==> exists best :: IsChoice(Patterns(requests), lines, 0, best) && returned == Picked(lines, best)
                   && forall other :: IsChoice(Patterns(requests), lines, 0, other) ==> IsLeftOf(best, other))
  {
    var lines, patterns := Lines(BytesOf(input)), Patterns(requests);
    assert lines[0..] == lines;
    PollAllIsSearchAll(requests, input);
    if choice :| IsChoice(patterns, lines, 0, choice) {
      SearchIsComplete(patterns, lines, 0, choice);
    }
    if PollAll(requests, input).0 {
      var best := SearchIsLeftmost(patterns, lines, 0);
    }
  }

  /** Waiting twice for the login prompt, as the reboot test does, needs two matching lines. */
  lemma RebootNeedsTwoPrompts(first: Request, second: Request, input: seq<Read>)
    requires AreGoodReads(input) && AllCalm([first, second], |input|) && first.isMatch == second.isMatch
    ensures var lines := Lines(BytesOf(input));
      PollAll([first, second], input).0
      <==> exists i, j :: 0 <= i < j < |lines| && first.isMatch(lines[i]) && first.isMatch(lines[j])
  {
    var lines, requests := Lines(BytesOf(input)), [first, second];
    GreedyPollingIsComplete(requests, input);
    if choice :| IsChoice(Patterns(requests), lines, 0, choice) {
      assert choice[0] < choice[1];
      assert Patterns(requests)[0](lines[choice[0]]) && Patterns(requests)[1](lines[choice[1]]);
    }
    if i, j :| 0 <= i < j < |lines| && first.isMatch(lines[i]) && first.isMatch(lines[j]) {
      assert IsChoice(Patterns(requests), lines, 0, [i, j]);
    }
  }

  // What a poll that gives up loses

  lemma HeldBytesLengthenLine(held: Bytes, line: Bytes, rest: Bytes)
    requires NEW_LINE !in held && IsLine(line)
    ensures Lines(line + rest) == Lines(held + (line + rest)) <==> held == []
  {
    LinesAfterLine(line, rest);
    assert (held + line)[..|held + line| - 1] == held + line[..|line| - 1];
    LinesAfterLine(held + line, rest);
    assert held + (line + rest) == (held + line) + rest;
    assert Lines(line + rest)[0] == line && Lines(held + (line + rest))[0] == held + line;
    assert |held + line| == |held| + |line|;
    assert held == [] ==> held + line == line;
  }

  /** Without the bytes that were held, later bytes give other lines exactly when they complete the held line. */
  lemma GivingUpLosesHeldBytes(held: Bytes, later: Bytes)
    requires NEW_LINE !in held
    ensures Lines(later) == Lines(held + later) <==> held == [] || NEW_LINE !in later
  {
    var n := LineEnd(later);
    LineEndIsFirst(later);
    if n == |later| {
      NoLines(later);
      NoLines(held + later);
    } else {
      FirstLine(later, n);
      HeldBytesLengthenLine(held, later[..n + 1], later[n + 1..]);
    }
  }

  ghost predicate AreReads(input: seq<Read>) { forall k :: 0 <= k < |input| ==> IsRead(input[k]) }

  lemma {:induction false} PollHoldsTail(isMatch: Bytes -> bool, partial: Bytes, input: seq<Read>,
                                         checks: seq<Check>, deadline: nat)
    requires NEW_LINE !in partial && AreReads(input)
    ensures NEW_LINE !in PollOf(isMatch, partial, input, checks, deadline).held
    decreases |checks|
  {
    if checks != [] && !checks[0].shutdown && checks[0].now <= deadline && input != [] && !input[0].Failed? {
      var (chunk, held) := ChunkOf(partial, input[0]);
      ChunkIsLine(partial, input[0]);
      if !(chunk.Line? && isMatch(chunk.bytes)) {
        PollHoldsTail(isMatch, held, input[1..], checks[1..], deadline);
      }
    }
  }

  /**
   * However a poll ends - by a timeout, a shutdown request, a read error or a match - the next one sees other lines
   * than if the held bytes had been kept exactly when bytes were held and the line they begin is completed.
   */
  lemma GivenUpPollLosesLine(isMatch: Bytes -> bool, input: seq<Read>, checks: seq<Check>, deadline: nat)
    requires AreReads(input)
    ensures var poll := PollOf(isMatch, [], input, checks, deadline);
      AreGoodReads(poll.input) ==>
        (Assemble([], poll.input).0 == Assemble(poll.held, poll.input).0
         <==> poll.held == [] || NEW_LINE !in BytesOf(poll.input))
  {
    var poll := PollOf(isMatch, [], input, checks, deadline);
    var later := BytesOf(poll.input);
    PollHoldsTail(isMatch, [], input, checks, deadline);
    if AreGoodReads(poll.input) {
      ChunkingIsInvisible([], poll.input);
      ChunkingIsInvisible(poll.held, poll.input);
      assert [] + later == later;
      GivingUpLosesHeldBytes(poll.held, later);
    }
  }

  /**
   * Every line that matches only as a whole can be missed: when its first part arrives before the deadline and the rest
   * after it, the first poll times out and the next one does not match, while a longer poll would have.
   */
  lemma SplitLineIsMissed(isMatch: Bytes -> bool, start: Bytes, end: Bytes, deadline: nat)
    requires start != [] && NEW_LINE !in start && IsLine(end)
    requires isMatch(start + end) && !isMatch(end)
    ensures var input := [Data(start), Data(end)];
      var first := PollOf(isMatch, [], input, [Check(false, 0), Check(false, deadline + 1)], deadline);
      && first == Poll(TimedOut, [Data(end)], start)
      && PollOf(isMatch, [], first.input, [Check(false, 0), Check(false, 0)], deadline).outcome == Waiting
      && PollOf(isMatch, [], input, [Check(false, 0), Check(false, 0)], deadline).outcome == Matched(start + end)
  {
    var early, late := Check(false, 0), Check(false, deadline + 1);
    FirstPart(isMatch, start, end, early, deadline);
    FirstPart(isMatch, start, end, late, deadline);
    assert [late][1..] == [] && [early][1..] == [] && [Data(end)][1..] == [];
    assert [early, early][1..] == [early];
    assert ChunkOf([], Data(end)) == (Line(end), []) by { assert [] + end == end; }
    assert (start + end)[|start + end| - 1] == NEW_LINE;
    assert ChunkOf(start, Data(end)) == (Line(start + end), []);
  }

  /** The first part of a line leaves a poll with that part held. */
  lemma FirstPart(isMatch: Bytes -> bool, start: Bytes, end: Bytes, next: Check, deadline: nat)
    requires start != [] && NEW_LINE !in start
    ensures PollOf(isMatch, [], [Data(start), Data(end)], [Check(false, 0), next], deadline)
         == PollOf(isMatch, start, [Data(end)], [next], deadline)
  {
    assert [] + start == start;
    assert [Data(start), Data(end)][1..] == [Data(end)] && [Check(false, 0), next][1..] == [next];
  }

  /** A read error inside such a line has the same effect. */
  lemma BrokenLineIsMissed(isMatch: Bytes -> bool, start: Bytes, end: Bytes, deadline: nat)
    requires start != [] && NEW_LINE !in start && IsLine(end) && !isMatch(end)
    ensures var now := Check(false, 0);
      var first := PollOf(isMatch, [], [Data(start), Failed, Data(end)], [now, now], deadline);
      && first == Poll(Broken, [Data(end)], start)
      && PollOf(isMatch, [], first.input, [now, now], deadline).outcome == Waiting
  {
    var now := Check(false, 0);
    assert [] + start == start && [] + end == end;
    assert [Data(start), Failed, Data(end)][1..] == [Failed, Data(end)];
    assert [Failed, Data(end)][1..] == [Data(end)] && [Data(end)][1..] == [];
    assert [now, now][1..] == [now];
    assert ChunkOf([], Data(end)) == (Line(end), []);
  }

  // How long a poll lasts

  function EmptyReads(input: seq<Read>): nat
  {
    if input == [] then 0 else (if IsEmptyRead(input[0]) then 1 else 0) + EmptyReads(input[1..])
  }

  lemma {:induction false} EmptyReadsAreCounted(input: seq<Read>)
    ensures EmptyReads(input) == |Positions(input, (r: Read) => IsEmptyRead(r))|
  {
    if input != [] {
      PositionsStep(input, (r: Read) => IsEmptyRead(r));
      EmptyReadsAreCounted(input[1..]);
    }
  }

  /** The clock never goes back, and each empty read is followed by a sleep of 100 ms. */
  ghost predicate Advances(input: seq<Read>, checks: seq<Check>)
  {
    forall k :: 0 <= k < |input| && k + 1 < |checks| ==>
      checks[k].now + (if IsEmptyRead(input[k]) then 100 else 0) <= checks[k + 1].now
  }

  /** The reads a poll has made. */
  function Consumed(input: seq<Read>, poll: Poll): seq<Read>
    requires |poll.input| <= |input|
  {
    input[..|input| - |poll.input|]
  }

  lemma {:induction false} EmptyReadsTakeTime(isMatch: Bytes -> bool, partial: Bytes, input: seq<Read>,
                                              checks: seq<Check>, deadline: nat)
    requires Advances(input, checks)
    ensures var poll := PollOf(isMatch, partial, input, checks, deadline);
      |poll.input| <= |input|
      && var n := EmptyReads(Consumed(input, poll));
         n == 0 || (checks != [] && checks[0].now + 100 * (n - 1) <= deadline)
    decreases |checks|
  {
    var poll := PollOf(isMatch, partial, input, checks, deadline);
    if checks != [] && !checks[0].shutdown && checks[0].now <= deadline && input != [] {
      var (chunk, held) := ChunkOf(partial, input[0]);
      if chunk.ReadError? || (chunk.Line? && isMatch(chunk.bytes)) {
        assert Consumed(input, poll) == [input[0]] && [input[0]][1..] == [];
      } else {
        AdvancesAfterRead(input, checks);
        EmptyReadsTakeTime(isMatch, held, input[1..], checks[1..], deadline);
        assert Consumed(input, poll)[1..] == Consumed(input[1..], poll);
      }
    }
  }

  lemma AdvancesAfterRead(input: seq<Read>, checks: seq<Check>)
    requires Advances(input, checks) && input != [] && checks != []
    ensures Advances(input[1..], checks[1..])
  {
    forall k | 0 <= k < |input[1..]| && k + 1 < |checks[1..]|
      ensures checks[1..][k].now + (if IsEmptyRead(input[1..][k]) then 100 else 0) <= checks[1..][k + 1].now
    {
      assert input[1..][k] == input[k + 1] && checks[1..][k] == checks[k + 1] && checks[1..][k + 1] == checks[k + 2];
    }
  }

  /** A poll begun at `start` makes at most `timeout / 100 + 1` empty reads. */
  lemma PollIsBounded(isMatch: Bytes -> bool, input: seq<Read>, checks: seq<Check>, start: nat, timeout: nat)
    requires Advances(input, checks) && (checks != [] ==> start <= checks[0].now)
    ensures var poll := PollOf(isMatch, [], input, checks, start + timeout);
      |poll.input| <= |input| && EmptyReads(Consumed(input, poll)) <= timeout / 100 + 1
  {
    EmptyReadsTakeTime(isMatch, [], input, checks, start + timeout);
  }
}
