/** One warm worker of a pool and what becomes of a job submitted to it (pool/worker.rs), up to a
    caller that submits the same job again whenever it is told it may (error/mod.rs). */
module PoolWorker {
  import opened Wrappers

  type byte = x: int | 0 <= x < 256
  type Bytes = seq<byte>

  const NEWLINE: byte := 10

  /** A line a worker writes back: unparseable, or a response with an optional id, the failure the
      harness may report, and a body. */
  datatype Line = Junk | Reply(id: Option<string>, error: bool, body: string)

  datatype SubmitFailure = Pre | Post

  datatype Error = PoolSaturated | PreDispatch | PostDispatch

  predicate IsRetryable(e: Error) {
    e.PoolSaturated? || e.PreDispatch?
  }

  /** What one worker has been sent of one job, and how it went. */
  datatype Delivery = Delivery(line: Bytes, bytes: Bytes)

  predicate Answers(l: Line, id: string) {
    l.Reply? && l.id == Some(id)
  }

  /** The position of the first line that answers `id`, or the number of lines. */
  function FirstAnswer(lines: seq<Line>, id: string): (n: nat)
    ensures n <= |lines|
    ensures n < |lines| ==> Answers(lines[n], id)
    ensures forall i | 0 <= i < n :: !Answers(lines[i], id)
  {
    if lines == [] || Answers(lines[0], id) then 0 else 1 + FirstAnswer(lines[1..], id)
  }

  /** The first answer to `id` is a success with this body. */
  predicate Delivers(lines: seq<Line>, id: string, body: string) {
    var n := FirstAnswer(lines, id);
    n < |lines| && !lines[n].error && lines[n].body == body
  }

  /** Read lines until one answers `id`. The deadline is fixed before the loop, so it may strike
      before any line; a reply is returned only if it is the first that answers. */
  method AwaitResponse(lines: seq<Line>, id: string, jobsDone: nat)
    returns (r: Result<Line, SubmitFailure>, jobs: nat)
    ensures r.Ok? ==> FirstAnswer(lines, id) < |lines| && r.value == lines[FirstAnswer(lines, id)]
    ensures r.Err? ==> r.error == Post
    ensures jobs == if r.Ok? then jobsDone + 1 else jobsDone
  {
    jobs := jobsDone;
    for i := 0 to |lines|
      invariant jobs == jobsDone
      invariant forall k | 0 <= k < i :: !Answers(lines[k], id)
    {
      var late: bool := *;
      if late {
        return Err(Post), jobs;
      }
      if Answers(lines[i], id) {
        jobs := jobs + 1;
        return Ok(lines[i]), jobs;
      }
    }
    return Err(Post), jobs;
  }

  /** A frame: one newline, at the end. */
  ghost predicate IsLine(line: Bytes) {
    line != [] && line[|line| - 1] == NEWLINE && forall i | 0 <= i < |line| - 1 :: line[i] != NEWLINE
  }

  /** Submit one job. `encoding` is what it encodes to, if it can be encoded. A write that fails
      has delivered only part of the line; from the completed write on every failure is terminal. */
  method Submit(encoding: Option<Bytes>, id: string, lines: seq<Line>, jobsDone: nat)
    returns (r: Result<Line, SubmitFailure>, jobs: nat, ghost d: Delivery)
    requires encoding.Some? ==> NEWLINE !in encoding.value
    ensures IsLine(d.line) && d.bytes <= d.line
    ensures r == Err(Pre) ==> d.bytes != d.line
    ensures r != Err(Pre) ==> d.bytes == d.line && encoding.Some? && d.line == encoding.value + [NEWLINE]
    ensures jobs == if r.Ok? then jobsDone + 1 else jobsDone
    ensures r.Ok? ==> FirstAnswer(lines, id) < |lines| && r.value == lines[FirstAnswer(lines, id)]
  {
    jobs := jobsDone;
    if encoding.None? {
      return Err(Pre), jobs, Delivery([NEWLINE], []);
    }
    var line := encoding.value + [NEWLINE];
    assert forall i | 0 <= i < |line| - 1 :: line[i] in encoding.value;
    var delivered: nat :| 0 <= delivered <= |line|;
    d := Delivery(line, line[..delivered]);
    if delivered < |line| {
      return Err(Pre), jobs, d;
    }
    assert line[..delivered] == line;
    var flushed: bool := *;
    if !flushed {
      return Err(Post), jobs, d;
    }
    r, jobs := AwaitResponse(lines, id, jobsDone);
  }

  // ---------------------------------------------------------------- resubmitting

  /** One submission of a job to the pool as its caller sees it, with what it put on any wire. */
  datatype Attempt = Attempt(delivery: Delivery, result: Result<string, Error>)

  /** What a submission guarantees: nothing or part of a line went out when it may be tried again,
      and the whole line otherwise. */
  ghost predicate Honest(a: Attempt) {
    && IsLine(a.delivery.line) && a.delivery.bytes <= a.delivery.line
    && (a.result.Err? && IsRetryable(a.result.error) <==> a.delivery.bytes != a.delivery.line)
  }

  function Newlines(s: Bytes): nat {
    if s == [] then 0 else Newlines(s[..|s| - 1]) + if s[|s| - 1] == NEWLINE then 1 else 0
  }

  /** The complete frames delivered over all attempts. */
  function Frames(attempts: seq<Attempt>): nat {
    if attempts == [] then 0
    else Frames(attempts[..|attempts| - 1]) + Newlines(attempts[|attempts| - 1].delivery.bytes)
  }

  lemma {:induction false} NoNewlines(s: Bytes)
    requires forall i | 0 <= i < |s| :: s[i] != NEWLINE
    ensures Newlines(s) == 0
  {
    if s != [] {
      NoNewlines(s[..|s| - 1]);
    }
  }

  lemma FramesOfAttempt(a: Attempt)
    requires Honest(a)
    ensures Newlines(a.delivery.bytes) == if a.delivery.bytes == a.delivery.line then 1 else 0
  {
    var line, bytes := a.delivery.line, a.delivery.bytes;
    if bytes == line {
      NoNewlines(bytes[..|bytes| - 1]);
    } else {
      assert |bytes| < |line|;
      forall i | 0 <= i < |bytes| ensures bytes[i] != NEWLINE {
        assert bytes[i] == line[i];
      }
      NoNewlines(bytes);
    }
  }

  /** A caller that resubmits a job for as long as it is told the error is retryable: in all those
      submissions together the job goes out whole at most once, and it does exactly when the last
      of them is not retryable. */
  lemma {:induction false} ResubmittingDeliversOnce(attempts: seq<Attempt>)
    requires attempts != [] && forall i | 0 <= i < |attempts| :: Honest(attempts[i])
    requires forall i | 0 <= i < |attempts| - 1 :: attempts[i].result.Err? && IsRetryable(attempts[i].result.error)
    ensures var last := attempts[|attempts| - 1].result;
            Frames(attempts) == if last.Err? && IsRetryable(last.error) then 0 else 1
    decreases |attempts|
  {
    FramesOfAttempt(attempts[|attempts| - 1]);
    var front := attempts[..|attempts| - 1];
    if front != [] {
      ResubmittingDeliversOnce(front);
    }
  }
}
