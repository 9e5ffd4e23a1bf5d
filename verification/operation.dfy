/**
 The life of a compute operation, common/inc/vmaccel_compute.hpp: prepare,
 dispatch with its retry loop, quiesce and finish.  The backend's answers are
 arbitrary here, so that anything may happen between two calls.
 */
module Operations {
  import opened Backend

  const RETRY_MAX_COUNT: nat := 100

  datatype Flags = Flags(prepared: bool, dispatched: bool, quiesced: bool)

  datatype Call = PrepareCall | DispatchCall | QuiesceCall | FinishCall

  /** The answers to the attempts of one dispatch: it tries again while the answer is RESOURCE_UNAVAILABLE. */
  ghost predicate IsAttempts(answers: seq<Status>) {
    && 0 < |answers| <= RETRY_MAX_COUNT
    && (forall i :: 0 <= i < |answers| - 1 ==> answers[i] == RESOURCE_UNAVAILABLE)
    && (answers[|answers| - 1] == RESOURCE_UNAVAILABLE ==> |answers| == RETRY_MAX_COUNT)
  }

  /** operation::dispatch, not forced. */
  ghost predicate IsDispatch(f: Flags, answers: seq<Status>, status: Status, f': Flags) {
    if !f.prepared || f.dispatched then answers == [] && status == FAIL && f' == f
    else
      && IsAttempts(answers)
      && status == answers[|answers| - 1]
      && f' == f.(dispatched := status == SUCCESS)
  }

  /** operation::quiesce; on a remote backend the context may have lost its client. */
  ghost predicate IsQuiesce(f: Flags, connected: bool, status: Status, f': Flags) {
    if f.quiesced then status == SUCCESS && f' == f
    else if !f.prepared || !f.dispatched then status == FAIL && f' == f
    else if !connected then status == RESOURCE_UNAVAILABLE && f' == f
    else status == SUCCESS && f' == f.(quiesced := true)
  }

  /** operation::finish dispatches if that was not done, and then quiesces. */
  ghost predicate IsFinish(f: Flags, answers: seq<Status>, connected: bool, f': Flags) {
    if !f.prepared then answers == [] && f' == f
    else exists mid, status, quiesceStatus :: FinishesVia(f, answers, connected, mid, status, quiesceStatus, f')
  }

  ghost predicate FinishesVia(
    f: Flags, answers: seq<Status>, connected: bool, mid: Flags, status: Status, quiesceStatus: Status, f': Flags)
  {
    && (if f.dispatched then answers == [] && mid == f else IsDispatch(f, answers, status, mid))
    && (if mid.dispatched && !mid.quiesced then IsQuiesce(mid, connected, quiesceStatus, f') else f' == mid)
  }

  /** One call, with the backend's answers to its dispatch attempts and what it returns. */
  ghost predicate IsCall(f: Flags, c: Call, answers: seq<Status>, connected: bool, status: Status, f': Flags) {
    match c
    case PrepareCall => answers == [] && f' == f.(prepared := true)
    case DispatchCall => IsDispatch(f, answers, status, f')
    case QuiesceCall => answers == [] && IsQuiesce(f, connected, status, f')
    case FinishCall => IsFinish(f, answers, connected, f') && status == SUCCESS
  }

  /** How often the kernel was enqueued: the backend enqueues it exactly when it answers SUCCESS. */
  function Enqueues(answers: seq<Status>): nat {
    if answers == [] then 0 else Enqueues(answers[..|answers| - 1]) + if answers[|answers| - 1] == SUCCESS then 1 else 0
  }

  lemma {:induction false} NoneEnqueued(answers: seq<Status>)
    requires forall i :: 0 <= i < |answers| ==> answers[i] != SUCCESS
    ensures Enqueues(answers) == 0
  {
    if answers != [] { NoneEnqueued(answers[..|answers| - 1]); }
  }

  lemma AttemptsEnqueue(answers: seq<Status>)
    requires IsAttempts(answers)
    ensures Enqueues(answers) == if answers[|answers| - 1] == SUCCESS then 1 else 0
  {
    NoneEnqueued(answers[..|answers| - 1]);
  }

  ghost predicate Ordered(f: Flags) {
    (f.quiesced ==> f.dispatched) && (f.dispatched ==> f.prepared)
  }

  /** A call enqueues the kernel exactly when it turns the operation into a dispatched one, and never undoes that. */
  lemma CallEnqueues(f: Flags, c: Call, answers: seq<Status>, connected: bool, status: Status, f': Flags)
    requires Ordered(f) && IsCall(f, c, answers, connected, status, f')
    ensures Ordered(f')
    ensures |answers| <= RETRY_MAX_COUNT
    ensures f.prepared ==> f'.prepared
    ensures f.dispatched ==> f'.dispatched && answers == []
    ensures Enqueues(answers) == if f'.dispatched && !f.dispatched then 1 else 0
    ensures f'.dispatched && !f.dispatched <==> answers != [] && answers[|answers| - 1] == SUCCESS
    ensures c.DispatchCall? && f.prepared && !f.dispatched ==> (f'.dispatched <==> status == SUCCESS)
  {
    if answers != [] { AttemptsEnqueue(answers); }
  }

  ghost predicate IsLife(fs: seq<Flags>, cs: seq<Call>, answers: seq<seq<Status>>, connected: seq<bool>, statuses: seq<Status>) {
    && |fs| == |cs| + 1 && |answers| == |connected| == |statuses| == |cs|
    && fs[0] == Flags(false, false, false)
    && forall i :: 0 <= i < |cs| ==> IsCall(fs[i], cs[i], answers[i], connected[i], statuses[i], fs[i + 1])
  }

  /** How often the kernel was enqueued by the first n calls. */
  function TotalEnqueues(answers: seq<seq<Status>>, n: nat): nat
    requires n <= |answers|
  {
    if n == 0 then 0 else TotalEnqueues(answers, n - 1) + Enqueues(answers[n - 1])
  }

  /** Some attempt among the first n calls was answered SUCCESS. */
  ghost predicate SomeSuccess(answers: seq<seq<Status>>, n: nat)
    requires n <= |answers|
  {
    exists i :: 0 <= i < n && SUCCESS in answers[i]
  }

  /**
   At most once: over every sequence of calls the kernel is enqueued at most once,
   and exactly once if and only if some attempt succeeded, which is when the
   operation is dispatched; no dispatch makes more than 100 attempts; quiesced
   implies dispatched implies prepared.
   */
  lemma {:induction false} AtMostOnce(
    fs: seq<Flags>, cs: seq<Call>, answers: seq<seq<Status>>, connected: seq<bool>, statuses: seq<Status>, n: nat)
    requires IsLife(fs, cs, answers, connected, statuses) && n <= |cs|
    ensures Ordered(fs[n])
    ensures TotalEnqueues(answers, n) == if fs[n].dispatched then 1 else 0
    ensures fs[n].dispatched <==> SomeSuccess(answers, n)
    ensures n < |cs| ==> |answers[n]| <= RETRY_MAX_COUNT
    ensures n < |cs| && cs[n].DispatchCall? && statuses[n] == SUCCESS ==> fs[n + 1].dispatched && !fs[n].dispatched
  {
    hide IsCall;
    if n > 0 {
      AtMostOnce(fs, cs, answers, connected, statuses, n - 1);
      assert IsCall(fs[n - 1], cs[n - 1], answers[n - 1], connected[n - 1], statuses[n - 1], fs[n]);
      CallEnqueues(fs[n - 1], cs[n - 1], answers[n - 1], connected[n - 1], statuses[n - 1], fs[n]);
      SuccessIsLast(fs[n - 1], cs[n - 1], answers[n - 1], connected[n - 1], statuses[n - 1], fs[n]);
      assert SomeSuccess(answers, n) <==> SomeSuccess(answers, n - 1) || SUCCESS in answers[n - 1];
    }
    if n < |cs| {
      assert IsCall(fs[n], cs[n], answers[n], connected[n], statuses[n], fs[n + 1]);
      CallEnqueues(fs[n], cs[n], answers[n], connected[n], statuses[n], fs[n + 1]);
      if cs[n].DispatchCall? && statuses[n] == SUCCESS {
        DispatchReturns(fs[n], cs[n], answers[n], connected[n], statuses[n], fs[n + 1]);
      }
    }
  }

  lemma SuccessIsLast(f: Flags, c: Call, answers: seq<Status>, connected: bool, status: Status, f': Flags)
    requires IsCall(f, c, answers, connected, status, f')
    ensures SUCCESS in answers <==> answers != [] && answers[|answers| - 1] == SUCCESS
  {
    if SUCCESS in answers {
      var i :| 0 <= i < |answers| && answers[i] == SUCCESS;
      assert IsAttempts(answers);
    }
  }

  lemma DispatchReturns(f: Flags, c: Call, answers: seq<Status>, connected: bool, status: Status, f': Flags)
    requires IsCall(f, c, answers, connected, status, f') && c.DispatchCall? && status == SUCCESS
    ensures f.prepared && !f.dispatched && f'.dispatched
  {}

  /** What quiesce answers: success exactly when the operation ends up quiesced, and otherwise why it does not. */
  lemma QuiesceAnswers(f: Flags, connected: bool, status: Status, f': Flags)
    requires IsQuiesce(f, connected, status, f')
    ensures status == SUCCESS <==> f'.quiesced
    ensures status == FAIL <==> !f.quiesced && !(f.prepared && f.dispatched)
    ensures status == RESOURCE_UNAVAILABLE <==> !f.quiesced && f.prepared && f.dispatched && !connected
    ensures f'.prepared == f.prepared && f'.dispatched == f.dispatched && (f.quiesced ==> f'.quiesced)
  {}

  /** What dispatch answers: an operation that was not prepared, or was dispatched before, fails without an attempt. */
  lemma DispatchAnswers(f: Flags, answers: seq<Status>, status: Status, f': Flags)
    requires IsDispatch(f, answers, status, f')
    ensures answers == [] <==> !f.prepared || f.dispatched
    ensures answers == [] ==> status == FAIL && f' == f
    ensures answers != [] ==> status == answers[|answers| - 1] && (f'.dispatched <==> SUCCESS in answers)
    ensures forall i :: 0 <= i < |answers| && answers[i] != RESOURCE_UNAVAILABLE ==> i == |answers| - 1
    ensures status == RESOURCE_UNAVAILABLE ==> |answers| == 100
    ensures f'.prepared == f.prepared && f'.quiesced == f.quiesced
  {
    if answers != [] { SuccessIsLast(f, DispatchCall, answers, true, status, f'); }
  }

  /** Once prepared, finishing with a backend that takes the kernel and keeps its client leaves the operation dispatched and quiesced. */
  lemma FinishCompletes(f: Flags, answers: seq<Status>, f': Flags)
    requires f.prepared && Ordered(f) && IsFinish(f, answers, true, f')
    ensures f'.dispatched <==> f.dispatched || (answers != [] && answers[|answers| - 1] == SUCCESS)
    ensures f'.quiesced <==> f'.dispatched
  {
    var mid, status, quiesceStatus :| FinishesVia(f, answers, true, mid, status, quiesceStatus, f');
  }
}
