/** Bounded line framing between the router and a native worker (worker/native.rs), and the
    size preflight that runs before it (worker/validate.rs).

    A pipe delivers its bytes in pieces that nobody controls. What a frame reader returns is
    stated here over the bytes alone, so that no choice of pieces can change an answer. */
module Framing {
  import opened Wrappers

  type byte = x: int | 0 <= x < 256
  type Bytes = seq<byte>

  const NEWLINE: byte := 10
  const MAX_LINE: nat := 256 * 1024
  const MAX_OPERATION_BYTES: nat := 1024 * 1024

  /** How a pipe ends once its bytes are used up: end of file, or a failed read. */
  datatype End = Closed | Broken

  datatype Failure = ReadFailed | WorkerClosed | FrameLimit | OutputLimit | RequestLimit

  /** A frame is one line: its newline is its last byte and its only one. */
  ghost predicate IsFrame(f: Bytes) {
    0 < |f| <= MAX_LINE && f[|f| - 1] == NEWLINE && forall i | 0 <= i < |f| - 1 :: f[i] != NEWLINE
  }

  /** The position of the first newline, or the length when there is none. */
  function NewlineAt(s: Bytes): (n: nat)
    ensures n <= |s|
    ensures n < |s| ==> s[n] == NEWLINE
    ensures forall i | 0 <= i < n :: s[i] != NEWLINE
  {
    if s == [] || s[0] == NEWLINE then 0 else 1 + NewlineAt(s[1..])
  }

  function Exhausted(end: End): Failure {
    if end.Closed? then WorkerClosed else ReadFailed
  }

  /** What one call of the frame reader returns on a pipe holding `s`. */
  function FirstLine(s: Bytes, end: End): Result<Bytes, Failure> {
    var n := NewlineAt(s);
    if n < |s| && n < MAX_LINE then Ok(s[..n + 1])
    else if |s| >= MAX_LINE then Err(FrameLimit)
    else Err(Exhausted(end))
  }

  /** The reader's three answers, each told apart by the bytes themselves: a frame exactly when
      the pipe starts with one, the limit exactly when the first 256 KiB are there without a
      newline, and the pipe's end in every other case. */
  lemma FirstLineIff(s: Bytes, end: End, f: Bytes)
    ensures FirstLine(s, end) == Ok(f) <==> IsFrame(f) && f <= s
    ensures FirstLine(s, end) == Err(FrameLimit) <==>
            |s| >= MAX_LINE && forall i | 0 <= i < MAX_LINE :: s[i] != NEWLINE
    ensures FirstLine(s, end) == Err(Exhausted(end)) <==>
            |s| < MAX_LINE && forall i | 0 <= i < |s| :: s[i] != NEWLINE
  {
    var n := NewlineAt(s);
    if IsFrame(f) && f <= s {
      assert forall i | 0 <= i < |f| :: s[i] == f[i];
      assert s[|f| - 1] == NEWLINE;
      assert n <= |f| - 1;
      assert s[n] == f[n];
      assert s[..n + 1] == f;
    }
  }

  /** The child's end of a pipe. Every call may hand over any nonempty part of what is left. */
  class Pipe {
    var pending: Bytes
    const end: End

    constructor (bytes: Bytes, end: End)
      ensures pending == bytes && this.end == end
    {
      pending := bytes;
      this.end := end;
    }

    method FillBuf() returns (r: Result<Bytes, Failure>)
      ensures pending != [] ==> r.Ok? && r.value != [] && r.value <= pending
      ensures pending == [] ==> r == if end.Closed? then Ok([]) else Err(ReadFailed)
    {
      if pending == [] {
        return if end.Closed? then Ok([]) else Err(ReadFailed);
      }
      var n: nat :| 0 < n <= |pending|;
      return Ok(pending[..n]);
    }

    method Consume(n: nat)
      requires n <= |pending|
      modifies this
      ensures pending == old(pending)[n..]
    {
      pending := pending[n..];
    }
  }

  /** Bytes already read without meeting a newline. */
  ghost predicate Unfinished(bytes: Bytes, start: Bytes) {
    bytes <= start && forall i | 0 <= i < |bytes| :: bytes[i] != NEWLINE
  }

  lemma UnfinishedEnds(bytes: Bytes, start: Bytes, end: End)
    requires Unfinished(bytes, start)
    ensures |bytes| >= MAX_LINE ==> FirstLine(start, end) == Err(FrameLimit)
    ensures |bytes| < MAX_LINE && bytes == start ==> FirstLine(start, end) == Err(Exhausted(end))
  {
    FirstLineIff(start, end, []);
  }

  /** A piece in front of its first newline lengthens the unfinished line. */
  lemma UnfinishedGrows(bytes: Bytes, chunk: Bytes, rest: Bytes, start: Bytes, n: nat)
    requires Unfinished(bytes, start) && start == bytes + rest
    requires n <= NewlineAt(chunk) && chunk <= rest
    ensures Unfinished(bytes + chunk[..n], start)
    ensures start == (bytes + chunk[..n]) + rest[n..]
  {
    var piece, left := chunk[..n], rest[n..];
    assert rest == piece + left;
    Rejoin(bytes, piece, left);
    forall i | 0 <= i < |bytes + piece| ensures (bytes + piece)[i] != NEWLINE {
      assert (bytes + piece)[i] == if i < |bytes| then bytes[i] else chunk[i - |bytes|];
    }
  }

  lemma Rejoin(a: Bytes, b: Bytes, c: Bytes)
    ensures a + (b + c) == (a + b) + c && a + b <= a + (b + c)
  {
    assert (a + (b + c))[..|a + b|] == a + b;
  }

  /** A piece that ends at its first newline completes the line, if that is short enough. */
  lemma Completed(bytes: Bytes, piece: Bytes, left: Bytes, end: End)
    requires forall i | 0 <= i < |bytes| :: bytes[i] != NEWLINE
    requires IsFrame(piece) && |bytes| + |piece| <= MAX_LINE
    ensures FirstLine(bytes + (piece + left), end) == Ok(bytes + piece)
  {
    FrameFirst(bytes + piece, left, end);
    assert bytes + (piece + left) == (bytes + piece) + left;
  }

  lemma FrameFirst(f: Bytes, rest: Bytes, end: End)
    requires IsFrame(f)
    ensures FirstLine(f + rest, end) == Ok(f)
  {
    assert f <= f + rest;
    FirstLineIff(f + rest, end, f);
  }

  /** Taking bytes off the pipe onto the line loses none. */
  lemma Moved(bytes: Bytes, piece: Bytes, pending: Bytes)
    requires piece <= pending
    ensures pending == piece + pending[|piece|..]
    ensures bytes + pending == (bytes + piece) + pending[|piece|..]
  {
  }

  /** A piece that would not fit without its newline makes the line too long. */
  lemma Overflows(bytes: Bytes, chunk: Bytes, pending: Bytes, start: Bytes, end: End)
    requires start == bytes + pending && Unfinished(bytes, start) && chunk <= pending
    requires |bytes| < MAX_LINE <= |bytes| + NewlineAt(chunk)
    ensures FirstLine(start, end) == Err(FrameLimit)
  {
    var room := MAX_LINE - |bytes|;
    UnfinishedGrows(bytes, chunk, pending, start, room);
    UnfinishedEnds(bytes + chunk[..room], start, end);
  }

  /** A piece up to its first newline, or without one, completes the line or leaves it unfinished. */
  lemma Taken(bytes: Bytes, chunk: Bytes, pending: Bytes, start: Bytes, end: End, count: nat)
    requires start == bytes + pending && Unfinished(bytes, start) && chunk != [] && chunk <= pending
    requires count == (if NewlineAt(chunk) < |chunk| then NewlineAt(chunk) + 1 else |chunk|)
    requires |bytes| + count <= MAX_LINE
    ensures var line := bytes + chunk[..count];
            && start == line + pending[count..]
            && if line[|line| - 1] == NEWLINE then FirstLine(start, end) == Ok(line) else Unfinished(line, start)
  {
    var piece := chunk[..count];
    Moved(bytes, piece, pending);
    if NewlineAt(chunk) < |chunk| {
      Completed(bytes, piece, pending[count..], end);
    } else {
      UnfinishedGrows(bytes, chunk, pending, start, count);
    }
  }

  /** The frame reader: it refuses a piece that would overflow the line before taking it. */
  method Line(pipe: Pipe) returns (r: Result<Bytes, Failure>)
    modifies pipe
    ensures r == FirstLine(old(pipe.pending), pipe.end)
    ensures r.Ok? ==> pipe.pending == old(pipe.pending)[|r.value|..]
  {
    var bytes: Bytes := [];
    ghost var start := pipe.pending;
    while true
      invariant start == bytes + pipe.pending
      invariant |bytes| < MAX_LINE && Unfinished(bytes, start)
      decreases |pipe.pending|
    {
      var filled := pipe.FillBuf();
      if filled.Err? {
        UnfinishedEnds(bytes, start, pipe.end);
        return Err(ReadFailed);
      }
      var chunk := filled.value;
      if chunk == [] {
        UnfinishedEnds(bytes, start, pipe.end);
        return Err(WorkerClosed);
      }
      var position := NewlineAt(chunk);
      var count := if position < |chunk| then position + 1 else |chunk|;
      if count > MAX_LINE - |bytes| {
        Overflows(bytes, chunk, pipe.pending, start, pipe.end);
        return Err(FrameLimit);
      }
      Taken(bytes, chunk, pipe.pending, start, pipe.end, count);
      bytes := bytes + chunk[..count];
      pipe.Consume(count);
      if bytes[|bytes| - 1] == NEWLINE {
        return Ok(bytes);
      }
      if |bytes| == MAX_LINE {
        UnfinishedEnds(bytes, start, pipe.end);
        return Err(FrameLimit);
      }
    }
  }

  // ---------------------------------------------------------------- reading a reply

  /** A frame as the decoder sees it: the id it carries when it parses as a response. */
  type Decoder = Bytes -> Option<string>

  predicate Answers(decode: Decoder, f: Bytes, id: string) {
    decode(f) == Some(id)
  }

  /** What the reading half of a request returns: frames are skipped until one answers `id`, and
      every frame read is charged against what is left of the output budget. */
  function Reply(s: Bytes, end: End, id: string, decode: Decoder, remaining: nat): Result<Bytes, Failure>
    decreases |s|
  {
    match FirstLine(s, end)
    case Err(error) => Err(error)
    case Ok(f) =>
      if |f| > remaining then Err(OutputLimit)
      else if Answers(decode, f, id) then Ok(f)
      else Reply(s[|f|..], end, id, decode, remaining - |f|)
  }

  /** The reading loop of `Process::request`. */
  method AwaitReply(pipe: Pipe, id: string, decode: Decoder) returns (r: Result<Bytes, Failure>)
    modifies pipe
    ensures r == Reply(old(pipe.pending), pipe.end, id, decode, MAX_OPERATION_BYTES)
  {
    var remaining: nat := MAX_OPERATION_BYTES;
    while true
      invariant Reply(old(pipe.pending), pipe.end, id, decode, MAX_OPERATION_BYTES) ==
                Reply(pipe.pending, pipe.end, id, decode, remaining)
      decreases |pipe.pending|
    {
      var line := Line(pipe);
      if line.Err? {
        return line;
      }
      if |line.value| > remaining {
        return Err(OutputLimit);
      }
      remaining := remaining - |line.value|;
      if Answers(decode, line.value, id) {
        return line;
      }
    }
  }

  function Joined(frames: seq<Bytes>): (s: Bytes) {
    if frames == [] then [] else frames[0] + Joined(frames[1..])
  }

  /** Frames that a caller waiting for `id` reads past. */
  ghost predicate Skipped(frames: seq<Bytes>, id: string, decode: Decoder) {
    forall f | f in frames :: IsFrame(f) && !Answers(decode, f, id)
  }

  /** One turn of the loop, when a frame is what comes next. */
  lemma ReplyTakesAFrame(f: Bytes, rest: Bytes, end: End, id: string, decode: Decoder, remaining: nat)
    requires IsFrame(f)
    ensures Reply(f + rest, end, id, decode, remaining) ==
            if |f| > remaining then Err(OutputLimit)
            else if Answers(decode, f, id) then Ok(f)
            else Reply(rest, end, id, decode, remaining - |f|)
  {
    FrameFirst(f, rest, end);
    assert (f + rest)[|f|..] == rest;
  }

  /** Completeness: behind any number of legal frames that do not answer, the first frame that
      does is returned exactly when it and everything before it fit in the budget, and otherwise
      the request ends at the output limit. */
  lemma {:induction false} ReplyReturnsTheFirstAnswer(
    frames: seq<Bytes>, f: Bytes, rest: Bytes, end: End, id: string, decode: Decoder, remaining: nat)
    requires Skipped(frames, id, decode) && IsFrame(f) && Answers(decode, f, id)
    ensures Reply(Joined(frames) + f + rest, end, id, decode, remaining) ==
            if |Joined(frames)| + |f| <= remaining then Ok(f) else Err(OutputLimit)
    decreases |frames|
  {
    if frames == [] {
      assert Joined(frames) + f + rest == f + rest;
      ReplyTakesAFrame(f, rest, end, id, decode, remaining);
    } else {
      var head, tail := frames[0], frames[1..];
      assert head in frames;
      var left := Joined(tail) + f + rest;
      assert Joined(frames) + f + rest == head + left;
      ReplyTakesAFrame(head, left, end, id, decode, remaining);
      if |head| <= remaining {
        ReplyReturnsTheFirstAnswer(tail, f, rest, end, id, decode, remaining - |head|);
      }
    }
  }

  /** The frame a pipe starts with. */
  lemma NextFrame(s: Bytes, end: End) returns (f: Bytes, rest: Bytes)
    requires FirstLine(s, end).Ok?
    ensures IsFrame(f) && s == f + rest && FirstLine(s, end) == Ok(f)
  {
    f := FirstLine(s, end).value;
    FirstLineIff(s, end, f);
    rest := s[|f|..];
  }

  lemma FrameInFront(f: Bytes, tail: seq<Bytes>, g: Bytes, rest: Bytes)
    ensures Joined([f] + tail) == f + Joined(tail)
    ensures Joined([f] + tail) + g + rest == f + (Joined(tail) + g + rest)
  {
    assert ([f] + tail)[1..] == tail;
  }

  /** Soundness: a returned frame is the first one that answers, and it came within the budget. */
  lemma {:induction false} ReplyIsTheFirstAnswer(
    s: Bytes, end: End, id: string, decode: Decoder, remaining: nat)
    returns (frames: seq<Bytes>, rest: Bytes)
    requires Reply(s, end, id, decode, remaining).Ok?
    ensures var f := Reply(s, end, id, decode, remaining).value;
            && Skipped(frames, id, decode) && IsFrame(f) && Answers(decode, f, id)
            && s == Joined(frames) + f + rest && |Joined(frames)| + |f| <= remaining
    decreases |s|
  {
    var f, left := NextFrame(s, end);
    ReplyTakesAFrame(f, left, end, id, decode, remaining);
    if Answers(decode, f, id) {
      frames, rest := [], left;
    } else {
      var tail;
      tail, rest := ReplyIsTheFirstAnswer(left, end, id, decode, remaining - |f|);
      frames := [f] + tail;
      FrameInFront(f, tail, Reply(left, end, id, decode, remaining - |f|).value, rest);
    }
  }

  /** A line that is cut off by the limit is cut off whatever follows it. */
  lemma LimitLooksNoFurther(s: Bytes, more: Bytes, end: End, end': End)
    requires |s| >= MAX_LINE && FirstLine(s, end).Err?
    ensures FirstLine(s, end) == FirstLine(s + more, end')
  {
    FirstLineIff(s, end, []);
    assert forall i | 0 <= i < MAX_LINE :: (s + more)[i] == s[i];
    FirstLineIff(s + more, end', []);
  }

  /** A request reads finitely far: on a pipe holding the budget and one line more, whatever
      follows, forever if need be, is never looked at. */
  lemma {:induction false} ReplyLooksNoFurther(
    s: Bytes, more: Bytes, end: End, end': End, id: string, decode: Decoder, remaining: nat)
    requires |s| >= remaining + MAX_LINE
    ensures Reply(s + more, end', id, decode, remaining) == Reply(s, end, id, decode, remaining)
    decreases |s|
  {
    if FirstLine(s, end).Ok? {
      var f, left := NextFrame(s, end);
      assert s + more == f + (left + more);
      ReplyTakesAFrame(f, left, end, id, decode, remaining);
      ReplyTakesAFrame(f, left + more, end', id, decode, remaining);
      if |f| <= remaining && !Answers(decode, f, id) {
        ReplyLooksNoFurther(left, more, end, end', id, decode, remaining - |f|);
      }
    } else {
      LimitLooksNoFurther(s, more, end, end');
    }
  }

  // ---------------------------------------------------------------- output of preparation steps

  /** What is left to read from one output pipe of a preparation command: the sizes of the pieces it
      will hand over, and how it ends. */
  datatype Output = Output(pieces: seq<Piece>, end: End)

  /** The size of what one read returns; a read of nothing is the end. */
  type Piece = n: int | 0 < n witness 1

  function Total(pieces: seq<Piece>): nat {
    if pieces == [] then 0 else pieces[0] + Total(pieces[1..])
  }

  /** Two drains on one shared counter. Which of them reads next is up to the scheduler, and the first
      to fail ends both. Whatever the schedule, both pipes are drained exactly when they end cleanly and
      together hold at most 1 MiB; the limit is reported only when they hold more. */
  method DrainBounded(stdout: Output, stderr: Output) returns (r: Result<(), Failure>)
    ensures r.Ok? <==> Total(stdout.pieces) + Total(stderr.pieces) <= MAX_OPERATION_BYTES
                       && stdout.end.Closed? && stderr.end.Closed?
    ensures r.Err? ==> r.error == OutputLimit || r.error == ReadFailed
    ensures r == Err(OutputLimit) ==> Total(stdout.pieces) + Total(stderr.pieces) > MAX_OPERATION_BYTES
    ensures r == Err(ReadFailed) ==> stdout.end.Broken? || stderr.end.Broken?
  {
    var out, err := stdout.pieces, stderr.pieces;
    var outOpen, errOpen := true, true;
    var total := 0;
    while outOpen || errOpen
      invariant total + Total(out) + Total(err) == Total(stdout.pieces) + Total(stderr.pieces)
      invariant total <= MAX_OPERATION_BYTES
      invariant !outOpen ==> out == [] && stdout.end.Closed?
      invariant !errOpen ==> err == [] && stderr.end.Closed?
      decreases outOpen, errOpen, |out| + |err|
    {
      var first: bool := *;
      var fromStdout := outOpen && (first || !errOpen);
      var pieces, end := if fromStdout then out else err, if fromStdout then stdout.end else stderr.end;
      if pieces == [] {
        if end.Broken? {
          return Err(ReadFailed);
        }
        outOpen, errOpen := outOpen && !fromStdout, errOpen && fromStdout;
        continue;
      }
      total := total + pieces[0];
      if total > MAX_OPERATION_BYTES {
        return Err(OutputLimit);
      }
      if fromStdout {
        out := out[1..];
      } else {
        err := err[1..];
      }
    }
    return Ok(());
  }

  // ---------------------------------------------------------------- preflight

  /** The counting writer of the preflight: it starts at one for the newline and refuses the
      piece that reaches the line limit. */
  class Count {
    var total: nat

    constructor ()
      ensures total == 1
    {
      total := 1;
    }

    method Write(piece: Bytes) returns (accepted: bool)
      modifies this
      ensures total == old(total) + |piece|
      ensures accepted <==> total < MAX_LINE
    {
      total := total + |piece|;
      accepted := total < MAX_LINE;
    }
  }

  /** The preflight accepts an encoding exactly when it and its newline stay below the limit, no
      matter how the encoder cuts it into writes. */
  method Preflight(pieces: seq<Bytes>) returns (accepted: bool)
    ensures accepted <==> |Joined(pieces)| + 1 < MAX_LINE
  {
    var count := new Count();
    for i := 0 to |pieces|
      invariant count.total + |Joined(pieces[i..])| == 1 + |Joined(pieces)|
      invariant i > 0 ==> count.total < MAX_LINE
    {
      assert pieces[i..][1..] == pieces[i + 1..];
      var ok := count.Write(pieces[i]);
      if !ok {
        return false;
      }
    }
    return true;
  }

  /** The dispatcher's own limit, applied to the encoding before its newline is added. */
  function Encoded(encoding: Bytes): Result<Bytes, Failure> {
    if |encoding| >= MAX_LINE then Err(RequestLimit) else Ok(encoding + [NEWLINE])
  }

  /** A request that passed the preflight is never refused later, and since its encoding has no
      raw newline it travels as exactly one frame, which any reader on the other side gets back
      whole, whatever follows it on the pipe. */
  lemma PreflightedRequestTravelsWhole(encoding: Bytes, rest: Bytes, end: End)
    requires NEWLINE !in encoding
    requires |encoding| + 1 < MAX_LINE
    ensures Encoded(encoding).Ok? && IsFrame(Encoded(encoding).value)
    ensures FirstLine(Encoded(encoding).value + rest, end) == Ok(encoding + [NEWLINE])
  {
    var f := encoding + [NEWLINE];
    forall i | 0 <= i < |f| - 1 ensures f[i] != NEWLINE {
      assert f[i] == encoding[i] && encoding[i] in encoding;
    }
    assert f <= f + rest;
    FirstLineIff(f + rest, end, f);
  }
}
