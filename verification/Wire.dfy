/** The traffic a supervisor has had with its worker processes (worker/actor.rs, worker/native.rs):
    frames it began to write and replies it took back, in order. */
module Wire {

  datatype Event =
    | Sent(process: nat, operation: nat)
    | Answered(process: nat, operation: nat)

  type Traffic = seq<Event>

  function Last(t: Traffic): Event requires t != [] { t[|t| - 1] }
  function Front(t: Traffic): Traffic requires t != [] { t[..|t| - 1] }

  /** The operations written, in order. */
  function Operations(t: Traffic): seq<nat> {
    if t == [] then []
    else if Last(t).Sent? then Operations(Front(t)) + [Last(t).operation]
    else Operations(Front(t))
  }

  /** The operations a process has been sent. */
  function SentTo(t: Traffic, process: nat): set<nat> {
    if t == [] then {}
    else if Last(t).Sent? && Last(t).process == process then
      SentTo(Front(t), process) + {Last(t).operation}
    else SentTo(Front(t), process)
  }

  /** Those of them it has not answered. */
  function Outstanding(t: Traffic, process: nat): set<nat> {
    if t == [] then {}
    else if Last(t).process != process then Outstanding(Front(t), process)
    else if Last(t).Sent? then Outstanding(Front(t), process) + {Last(t).operation}
    else Outstanding(Front(t), process) - {Last(t).operation}
  }

  /** Only processes numbered below `bound` have been written to. */
  ghost predicate Below(t: Traffic, bound: nat) {
    forall i | 0 <= i < |t| :: t[i].process < bound
  }

  /** A frame may be written to a process when everything that process was sent is answered, when
      it has not seen this number before, and when no newer process has been written to. */
  ghost predicate MaySend(t: Traffic, process: nat, operation: nat) {
    && Outstanding(t, process) == {}
    && operation !in SentTo(t, process)
    && Below(t, process + 1)
  }

  ghost predicate Orderly(t: Traffic) {
    t == [] || (Orderly(Front(t)) && (Last(t).Sent? ==> MaySend(Front(t), Last(t).process, Last(t).operation)))
  }

  lemma Extend(t: Traffic, e: Event)
    ensures Front(t + [e]) == t && Last(t + [e]) == e
  {
  }

  lemma {:induction false} NeverSent(t: Traffic, process: nat)
    requires forall i | 0 <= i < |t| :: t[i].process != process
    ensures SentTo(t, process) == {} && Outstanding(t, process) == {}
  {
    if t != [] {
      NeverSent(Front(t), process);
    }
  }

  lemma {:induction false} SentIsAnOperation(t: Traffic, process: nat)
    ensures forall op | op in SentTo(t, process) :: op in Operations(t)
  {
    if t != [] {
      SentIsAnOperation(Front(t), process);
    }
  }

  lemma SentNowhere(t: Traffic, operation: nat)
    requires operation !in Operations(t)
    ensures forall p: nat :: operation !in SentTo(t, p)
  {
    forall p: nat ensures operation !in SentTo(t, p) {
      SentIsAnOperation(t, p);
    }
  }

  lemma {:induction false} SentIsRecorded(t: Traffic, i: nat)
    requires i < |t| && t[i].Sent?
    ensures t[i].operation in SentTo(t, t[i].process)
  {
    if i < |t| - 1 {
      SentIsRecorded(Front(t), i);
    }
  }

  lemma {:induction false} AnswerLiesBetween(t: Traffic, i: nat) returns (k: nat)
    requires i < |t| && t[i].Sent? && t[i].operation !in Outstanding(t, t[i].process)
    ensures i < k < |t| && t[k] == Answered(t[i].process, t[i].operation)
  {
    if Last(t) == Answered(t[i].process, t[i].operation) {
      k := |t| - 1;
    } else {
      k := AnswerLiesBetween(Front(t), i);
    }
  }

  lemma {:induction false} OrderlyPrefix(t: Traffic, n: nat)
    requires Orderly(t) && n <= |t|
    ensures Orderly(t[..n])
    decreases |t|
  {
    if n == |t| {
      assert t[..n] == t;
    } else {
      assert Front(t)[..n] == t[..n];
      OrderlyPrefix(Front(t), n);
    }
  }

  /** What orderly traffic means, frame by frame. Between two frames to one process lies the answer
      to the first, and they carry different numbers, so a reply that carries the second number
      cannot be left over from the first. A second frame for the same operation goes to a strictly
      newer process. */
  lemma OrderlyMeansNoStaleReply(t: Traffic, i: nat, j: nat) returns (k: nat)
    requires Orderly(t) && i < j < |t| && t[i].Sent? && t[j].Sent?
    ensures t[i].process <= t[j].process
    ensures t[i].operation == t[j].operation ==> t[i].process < t[j].process
    ensures t[i].process == t[j].process ==>
              t[i].operation != t[j].operation &&
              i < k < j && t[k] == Answered(t[i].process, t[i].operation)
  {
    k := i;
    OrderlyPrefix(t, j + 1);
    var before := t[..j];
    assert Front(t[..j + 1]) == before;
    assert before[i] == t[i];
    SentIsRecorded(before, i);
    if t[i].process == t[j].process {
      k := AnswerLiesBetween(before, i);
    }
  }
}
