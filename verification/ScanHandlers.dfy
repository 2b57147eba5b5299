/**
 * The scan handlers and the retry endpoint as they run: one call after
 * another, each with its store operations in order, any of which may fail
 * and end the call. What they do is a run of the interleaved machine, so
 * its promises hold for every sequence of calls.
 */
module ScanHandlers {
  import opened Wrappers
  import opened JobStatus
  import opened MalwareScan

  // ----- Handlers end

  /** How many steps a call has left at most. */
  function Left(pc: Pc): (n: nat)
    ensures 0 < n <= 8
  {
    match pc
    case MarkClean(_) => 5
    case MarkRejected(_) => 3
    case DeleteFile(_) => 2
    case FailDocument(_) => 1
    case CheckStatus => 8
    case CheckJobs => 7
    case CheckRejection => 6
    case ResetStatus => 5
    case Enqueueing(_) => 4
    case Dispatching(_, _) => 3
    case MarkingFailed(_, _, _) => 2
    case UndoReset => 1
  }

  /** Every step brings a call nearer its end, so no handler can loop. */
  lemma StepsLeft(s: State, ingestKey: Key, pid: nat, ok: bool, reason: string)
    requires pid in s.calls
    ensures var t := AdvanceCall(s, ingestKey, pid, ok, reason);
            pid in t.calls ==> Left(t.calls[pid]) < Left(s.calls[pid])
  {
    hide AdvanceCall, Left;
    var pc := s.calls[pid];
    if pc.MarkClean? || pc.MarkRejected? || pc.DeleteFile? || pc.FailDocument? {
      ScanStepsLeft(s, ingestKey, pid, ok, reason);
    } else if IsRetryStep(pc) {
      RetryStepsLeft(s, ingestKey, pid, ok, reason);
    } else {
      PublishStepsLeft(s, ingestKey, pid, ok, reason);
    }
  }

  lemma ScanStepsLeft(s: State, ingestKey: Key, pid: nat, ok: bool, reason: string)
    requires pid in s.calls
    requires var pc := s.calls[pid]; pc.MarkClean? || pc.MarkRejected? || pc.DeleteFile? || pc.FailDocument?
    ensures var t := AdvanceCall(s, ingestKey, pid, ok, reason);
            pid in t.calls ==> Left(t.calls[pid]) < Left(s.calls[pid])
  {
    hide Transition, ReasonOf;
  }

  lemma RetryStepsLeft(s: State, ingestKey: Key, pid: nat, ok: bool, reason: string)
    requires pid in s.calls && IsRetryStep(s.calls[pid])
    ensures var t := AdvanceCall(s, ingestKey, pid, ok, reason);
            pid in t.calls ==> Left(t.calls[pid]) < Left(s.calls[pid])
  {
  }

  lemma PublishStepsLeft(s: State, ingestKey: Key, pid: nat, ok: bool, reason: string)
    requires pid in s.calls
    requires s.calls[pid].Enqueueing? || s.calls[pid].Dispatching? || s.calls[pid].MarkingFailed?
    ensures var t := AdvanceCall(s, ingestKey, pid, ok, reason);
            pid in t.calls ==> Left(t.calls[pid]) < Left(s.calls[pid])
  {
    hide Enqueue, Reported;
  }

  ghost predicate IsStepOf(e: Event, pid: nat) {
    e.Advance? && e.pid == pid
  }

  /** However the stores and the target answer, a call left alone ends within eight steps. */
  lemma {:induction false} CallEnds(scanKey: Key, ingestKey: Key, events: seq<Event>, pid: nat, steps: seq<Event>)
    requires forall i | 0 <= i < |steps| :: IsStepOf(steps[i], pid)
    requires var s := Run(scanKey, ingestKey, events); pid in s.calls ==> |steps| >= Left(s.calls[pid])
    ensures pid !in Run(scanKey, ingestKey, events + steps).calls
    decreases |steps|
  {
    hide AdvanceCall, Left, Run;
    var s := Run(scanKey, ingestKey, events);
    if steps == [] {
      assert events + steps == events;
    } else {
      var e := steps[0];
      assert IsStepOf(e, pid);
      RunSnoc(scanKey, ingestKey, events, e);
      if pid in s.calls {
        StepsLeft(s, ingestKey, pid, e.accepted, e.reason);
      }
      CallEnds(scanKey, ingestKey, events + [e], pid, steps[1..]);
      assert events + steps == events + [e] + steps[1..];
    }
  }

  // ----- What each step does to a machine with one call under way

  lemma CleanEffect(s: State, ingestKey: Key, n: Notice)
    requires s.calls == map[]
    ensures var r := Transition(s.scan, SCAN_ATTEMPT, Succeeded, "", "");
            AdvanceCall(Goto(s, 0, MarkClean(n)), ingestKey, 0, true, "")
            == if r.Err? then s.(handled := s.handled + {n})
               else Goto(s.(scan := r.next), 0, Enqueueing(ForNotice(n)))
  {
    hide Transition;
  }

  lemma MarkEffect(s: State, ingestKey: Key, n: Notice)
    requires s.calls == map[]
    ensures var r := Transition(s.scan, SCAN_ATTEMPT, Failed, "", ReasonOf(n));
            AdvanceCall(Goto(s, 0, MarkRejected(n)), ingestKey, 0, true, "")
            == if r.Err? then s.(handled := s.handled + {n})
               else Goto(s.(scan := r.next), 0, DeleteFile(n))
  {
    hide Transition, ReasonOf;
  }

  lemma RejectEffect(s: State, ingestKey: Key, n: Notice)
    requires s.calls == map[]
    ensures AdvanceCall(Goto(s, 0, DeleteFile(n)), ingestKey, 0, true, "")
            == Goto(s.(file := false, deleted := true), 0, FailDocument(n))
    ensures AdvanceCall(Goto(s, 0, FailDocument(n)), ingestKey, 0, true, "")
            == s.(status := DocFailed, handled := s.handled + {n})
  {
  }

  lemma StatusEffect(s: State, ingestKey: Key)
    requires s.calls == map[]
    ensures AdvanceCall(Goto(s, 0, CheckStatus), ingestKey, 0, true, "")
            == if s.status.DocFailed? then Goto(s, 0, CheckJobs) else s
  {
  }

  lemma JobsEffect(s: State, ingestKey: Key, ok: bool)
    requires s.calls == map[]
    ensures AdvanceCall(Goto(s, 0, CheckJobs), ingestKey, 0, ok, "")
            == if s.scan.status.Active() || (s.ingest.Some? && s.ingest.value.status.Active()) || !ok
               then s else Goto(s, 0, CheckRejection)
  {
  }

  lemma SucceedGives(scan: Record)
    requires scan.attempt == SCAN_ATTEMPT
    ensures var r := Transition(scan, SCAN_ATTEMPT, Succeeded, "", "");
            && (r.Ok? <==> scan.status.Active() || scan.status.Succeeded?)
            && (r.Ok? ==> r.next.status.Succeeded?)
  {
  }

  lemma ResetEffect(s: State, ingestKey: Key)
    requires s.calls == map[]
    ensures AdvanceCall(Goto(s, 0, CheckRejection), ingestKey, 0, true, "")
            == if s.scan.status.Failed? then s else Goto(s, 0, ResetStatus)
    ensures AdvanceCall(Goto(s, 0, ResetStatus), ingestKey, 0, true, "")
            == Goto(s.(status := DocPending), 0, Enqueueing(ForRetry))
    ensures AdvanceCall(Goto(s, 0, UndoReset), ingestKey, 0, true, "") == s.(status := DocFailed)
  {
  }

  function Ended(s: State, caller: Caller): State {
    if caller.ForNotice? then s.(handled := s.handled + {caller.notice}) else s
  }

  /** A failed publish leaves a retry to put the status back, and a notice's call over. */
  function Refused(s: State, caller: Caller): State {
    if caller.ForRetry? then Goto(s, 0, UndoReset) else s
  }

  lemma EnqueueEffect(s: State, ingestKey: Key, caller: Caller, ok: bool)
    requires s.calls == map[]
    ensures var r := Enqueue(s.ingest, ingestKey);
            AdvanceCall(Goto(s, 0, Enqueueing(caller)), ingestKey, 0, ok, "")
            == if !ok then Refused(s, caller)
               else if r.1.started then Goto(s.(ingest := Some(r.0)), 0, Dispatching(caller, r.1.attempt))
               else Ended(s, caller)
  {
    hide Enqueue;
  }

  lemma DispatchEffect(s: State, ingestKey: Key, caller: Caller, attempt: int, ok: bool, reason: string)
    requires s.calls == map[]
    ensures AdvanceCall(Goto(s, 0, Dispatching(caller, attempt)), ingestKey, 0, ok, reason)
            == if ok then Ended(s, caller) else Goto(s, 0, MarkingFailed(caller, attempt, reason))
  {
    hide AdvanceNotice, AdvanceRetry;
  }

  lemma GiveUpEffect(s: State, ingestKey: Key, caller: Caller, attempt: int, ok: bool, reason: string)
    requires s.calls == map[]
    ensures AdvanceCall(Goto(s, 0, MarkingFailed(caller, attempt, reason)), ingestKey, 0, ok, "")
            == if !ok || s.ingest.None? then Refused(s, caller)
               else Refused(s.(ingest := Some(Reported(s.ingest.value, attempt, Failed, "", reason))), caller)
  {
    hide Reported, AdvanceNotice, AdvanceRetry;
  }

  lemma BeginEffect(s: State, ingestKey: Key, n: Notice)
    requires s.calls == map[]
    ensures Deliverable(s, n) ==>
              MalwareScan.Step(s, ingestKey, Deliver(0, n))
              == Goto(s, 0, if n.Clean? then MarkClean(n) else MarkRejected(n)).(delivered := s.delivered + {n})
    ensures MalwareScan.Step(s, ingestKey, MalwareScan.Retry(0)) == Goto(s, 0, CheckStatus)
  {
  }

  // ----- The handlers

  /**
   * How the world outside answers a call: how many of its store operations
   * succeed before one fails, whether the document's other jobs are idle, and
   * what starting processing meets with.
   */
  datatype World = World(working: nat, othersIdle: bool, enqueued: bool, accepted: bool, marked: bool, reason: string)

  /** The ingestion job is missing or finished. */
  predicate Startable(ingest: Option<Record>) {
    ingest.None? || !ingest.value.status.Active()
  }

  /** One call's events: what starts it, then nothing but its own steps and, if it failed, its end. */
  ghost predicate IsCall(events: seq<Event>, first: Event) {
    && events != [] && events[0] == first
    && forall i | 1 <= i < |events| :: IsStepOf(events[i], 0) || events[i] == Stop(0)
  }

  lemma CallGrows(events: seq<Event>, first: Event, e: Event)
    requires IsCall(events, first) && (IsStepOf(e, 0) || e == Stop(0))
    ensures IsCall(events + [e], first)
  {
  }

  /** The run after a call that began with first. */
  ghost predicate Continues(before: seq<Event>, after: seq<Event>, first: Event) {
    |before| <= |after| && after[..|before|] == before && IsCall(after[|before|..], first)
  }

  class Service {
    var scan: Record
    var ingest: Option<Record>
    var status: DocStatus
    var stored: bool
    var file: bool
    ghost var late: bool
    ghost var deleted: bool
    ghost var delivered: set<Notice>
    ghost var handled: set<Notice>
    /** The machine's run so far, and the events of the call under way. */
    ghost var past: seq<Event>
    ghost var call: seq<Event>
    const scanKey: Key
    const ingestKey: Key

    /** The machine's state with no call under way. */
    ghost function Idle(): State
      reads this
    {
      State(scan, ingest, status, stored, file, late, deleted, map[], delivered, handled)
    }

    /** The machine has run to where the service is. */
    ghost predicate Valid()
      reads this
    {
      call == [] && Idle() == Run(scanKey, ingestKey, past)
    }

    /** A call that began with first has got to pc. */
    ghost predicate At(pc: Pc, first: Event)
      reads this
    {
      IsCall(call, first) && Goto(Idle(), 0, pc) == Run(scanKey, ingestKey, past + call)
    }

    /** A call that began with first is over. */
    ghost predicate Done(first: Event)
      reads this
    {
      IsCall(call, first) && Idle() == Run(scanKey, ingestKey, past + call)
    }

    constructor (scanKey: Key, ingestKey: Key)
      ensures Valid() && past == [] && this.scanKey == scanKey && this.ingestKey == ingestKey
    {
      this.scanKey, this.ingestKey := scanKey, ingestKey;
      scan, ingest, status := Record(scanKey, Pending, "", SCAN_ATTEMPT, ""), None, DocPending;
      stored, file := false, false;
      late, deleted, delivered, handled := false, false, {}, {};
      past, call := [], [];
    }

    /** The upload stores its file once its scan is recorded. */
    method StoreUpload()
      requires Valid()
      modifies this
      ensures Valid() && stored && past == old(past) + [StoreFile]
      ensures file == (old(file) || !old(stored))
    {
      hide Run;
      RunSnoc(scanKey, ingestKey, past, StoreFile);
      if !stored {
        stored, file, late := true, true, scan.status.Failed?;
      }
      past := past + [StoreFile];
    }

    /** The call takes one more step of the machine. */
    ghost method Took(e: Event, first: Event)
      requires IsCall(call, first) && (IsStepOf(e, 0) || e == Stop(0))
      modifies this`call
      ensures call == old(call) + [e] && IsCall(call, first)
      ensures Run(scanKey, ingestKey, past + call)
           == MalwareScan.Step(Run(scanKey, ingestKey, past + old(call)), ingestKey, e)
    {
      hide Run, IsCall;
      RunSnoc(scanKey, ingestKey, past + call, e);
      assert past + (call + [e]) == past + call + [e];
      CallGrows(call, first, e);
      call := call + [e];
    }

    /** A store operation fails, or the process stops: the call is over. */
    ghost method Quit(pc: Pc, first: Event)
      requires At(pc, first)
      modifies this`call
      ensures Done(first) && Idle() == old(Idle())
    {
      hide Run, IsCall;
      Took(Stop(0), first);
      assert Goto(Idle(), 0, pc).calls - {0} == map[];
    }

    /** The machine's next step, once the service has made the same change to its stores. */
    ghost method Reached(pc: Pc, next: Pc, e: Event, first: Event, was: State)
      requires IsCall(call, first) && IsStepOf(e, 0)
      requires Run(scanKey, ingestKey, past + call) == Goto(was, 0, pc)
      requires AdvanceCall(Goto(was, 0, pc), ingestKey, 0, e.accepted, e.reason) == Goto(Idle(), 0, next)
      modifies this`call
      ensures At(next, first) && Idle() == old(Idle())
    {
      hide Run, IsCall, AdvanceCall;
      Took(e, first);
    }

    ghost method Finished(pc: Pc, e: Event, first: Event, was: State)
      requires IsCall(call, first) && IsStepOf(e, 0)
      requires Run(scanKey, ingestKey, past + call) == Goto(was, 0, pc)
      requires AdvanceCall(Goto(was, 0, pc), ingestKey, 0, e.accepted, e.reason) == Idle()
      modifies this`call
      ensures Done(first) && Idle() == old(Idle())
    {
      hide Run, IsCall, AdvanceCall;
      Took(e, first);
    }

    /** Marks the scan failed, unless it has already succeeded. */
    method MarkFailed(n: Notice, ghost first: Event) returns (changed: bool)
      requires At(MarkRejected(n), first) && scan.attempt == SCAN_ATTEMPT
      modifies this`scan, this`handled, this`call
      ensures changed ==> At(DeleteFile(n), first) && scan.status.Failed?
      ensures !changed ==> Done(first) && scan == old(scan) && handled == old(handled) + {n}
      ensures changed <==> old(scan.status).Active() || old(scan.status).Failed?
    {
      hide Run, IsCall, AdvanceCall, ReasonOf;
      ghost var was := Idle();
      MarkEffect(was, ingestKey, n);
      var r := Transition(scan, SCAN_ATTEMPT, Failed, "", ReasonOf(n));
      if r.Err? {
        handled := handled + {n};
        Finished(MarkRejected(n), Advance(0, true, ""), first, was);
        return false;
      }
      scan := r.next;
      Reached(MarkRejected(n), DeleteFile(n), Advance(0, true, ""), first, was);
      return true;
    }

    /** Deletes the file and fails the document, as far as its store operations work. */
    method Discard(n: Notice, working: nat, ghost first: Event) returns (ok: bool)
      requires At(DeleteFile(n), first)
      modifies this`file, this`deleted, this`status, this`handled, this`call
      ensures Done(first)
      ensures ok <==> working >= 2
      ensures working >= 1 ==> !file && deleted
      ensures ok ==> status.DocFailed? && handled == old(handled) + {n}
    {
      hide Run, IsCall, AdvanceCall;
      if working == 0 {
        Quit(DeleteFile(n), first);
        return false;
      }
      ghost var was := Idle();
      RejectEffect(was, ingestKey, n);
      file, deleted := false, true;
      Reached(DeleteFile(n), FailDocument(n), Advance(0, true, ""), first, was);
      if working == 1 {
        Quit(FailDocument(n), first);
        return false;
      }
      was := Idle();
      RejectEffect(was, ingestKey, n);
      status := DocFailed;
      handled := handled + {n};
      Finished(FailDocument(n), Advance(0, true, ""), first, was);
      return true;
    }

    /** A notice arrives. */
    ghost method Begin(n: Notice)
      requires Valid() && Deliverable(Idle(), n)
      modifies this`delivered, this`call
      ensures At(if n.Clean? then MarkClean(n) else MarkRejected(n), Deliver(0, n))
      ensures delivered == old(delivered) + {n}
    {
      hide Run;
      BeginEffect(Idle(), ingestKey, n);
      RunSnoc(scanKey, ingestKey, past, Deliver(0, n));
      delivered := delivered + {n};
      call := [Deliver(0, n)];
    }

    /** The call's events join the run. */
    ghost method Close(first: Event)
      requires Done(first)
      modifies this`past, this`call
      ensures Valid() && Continues(old(past), past, first)
    {
      hide Run, IsCall;
      ghost var before, events := past, call;
      past, call := past + call, [];
      assert past[..|before|] == before && past[|before|..] == events;
    }

    /**
     * A rejection or a timeout. If it ends well the scan is decided, and a
     * failed scan's file is gone and its document failed; a succeeded scan's
     * are left alone.
     */
    method HandleReject(n: Notice, w: World) returns (ok: bool)
      requires Valid() && !n.Clean? && (stored || n.TimedOut?)
      modifies this
      ensures Valid() && Continues(old(past), past, Deliver(0, n))
      ensures ok ==> n in handled && !scan.status.Active()
      ensures ok && scan.status.Failed? ==> !file && deleted && status.DocFailed?
      ensures old(scan.status).Succeeded? ==>
                scan == old(scan) && (ingest, status, file, deleted) == old((ingest, status, file, deleted))
    {
      hide Run, Transition, Continues;
      RunKeeps(scanKey, ingestKey, past);
      ghost var first := Deliver(0, n);
      Begin(n);
      if w.working == 0 {
        Quit(MarkRejected(n), first);
        Close(first);
        return false;
      }
      var changed := MarkFailed(n, first);
      ok := !changed;
      if changed {
        ok := Discard(n, w.working - 1, first);
      }
      Close(first);
    }

    /** The call is over, unless it is a retry whose status has to be put back. */
    ghost predicate Abandoned(caller: Caller, first: Event)
      reads this
    {
      if caller.ForRetry? then At(UndoReset, first) else Done(first)
    }

    /** Starting processing failed. */
    ghost method GaveUp(pc: Pc, e: Event, caller: Caller, first: Event, was: State)
      requires IsCall(call, first) && IsStepOf(e, 0)
      requires Run(scanKey, ingestKey, past + call) == Goto(was, 0, pc)
      requires AdvanceCall(Goto(was, 0, pc), ingestKey, 0, e.accepted, e.reason) == Refused(Idle(), caller)
      modifies this`call
      ensures Abandoned(caller, first) && Idle() == old(Idle())
    {
      hide Run, IsCall, AdvanceCall;
      Took(e, first);
    }

    /** The call ends well. */
    ghost method EndWell(pc: Pc, e: Event, caller: Caller, first: Event, was: State)
      requires IsCall(call, first) && IsStepOf(e, 0)
      requires Run(scanKey, ingestKey, past + call) == Goto(was, 0, pc)
      requires AdvanceCall(Goto(was, 0, pc), ingestKey, 0, e.accepted, e.reason) == Ended(Idle(), caller)
      modifies this`call, this`handled
      ensures Done(first) && Idle() == Ended(old(Idle()), caller)
    {
      hide Run, IsCall, AdvanceCall;
      if caller.ForNotice? {
        handled := handled + {caller.notice};
      }
      Finished(pc, e, first, was);
    }

    /** Hands attempt to the execution target; one it refuses is marked failed if the job store still works. */
    method Dispatch(attempt: int, w: World, ghost caller: Caller, ghost first: Event) returns (ok: bool)
      requires At(Dispatching(caller, attempt), first) && ingest.Some?
      modifies this`ingest, this`handled, this`call
      ensures ok == w.accepted
      ensures ok ==> Done(first) && Idle() == Ended(old(Idle()), caller)
      ensures !ok ==> Abandoned(caller, first) && handled == old(handled)
      ensures AttemptsOf(ingest) == AttemptsOf(old(ingest))
      ensures !ok ==> ingest == if w.marked
                                then Some(Reported(old(ingest).value, attempt, Failed, "", w.reason)) else old(ingest)
    {
      hide Run, IsCall, AdvanceCall, Reported;
      ghost var was := Idle();
      DispatchEffect(was, ingestKey, caller, attempt, w.accepted, w.reason);
      if w.accepted {
        EndWell(Dispatching(caller, attempt), Advance(0, true, w.reason), caller, first, was);
        return true;
      }
      Reached(Dispatching(caller, attempt), MarkingFailed(caller, attempt, w.reason), Advance(0, false, w.reason),
              first, was);
      GiveUpEffect(was, ingestKey, caller, attempt, w.marked, w.reason);
      if w.marked {
        ReportedAttempt(ingest.value, attempt, Failed, "", w.reason);
        ingest := Some(Reported(ingest.value, attempt, Failed, "", w.reason));
      }
      GaveUp(MarkingFailed(caller, attempt, w.reason), Advance(0, w.marked, ""), caller, first, was);
      return false;
    }

    /** Records the ingestion job and, if it is not active already, dispatches its new attempt. */
    method StartProcessing(w: World, ghost caller: Caller, ghost first: Event) returns (ok: bool)
      requires At(Enqueueing(caller), first)
      modifies this`ingest, this`handled, this`call
      ensures ok <==> w.enqueued && (!Enqueue(old(ingest), ingestKey).1.started || w.accepted)
      ensures ok ==> Done(first) && ingest == Some(Enqueue(old(ingest), ingestKey).0)
      ensures ok ==> handled == Ended(old(Idle()), caller).handled
      ensures !ok ==> Abandoned(caller, first) && handled == old(handled)
      ensures AttemptsOf(ingest) == AttemptsOf(old(ingest)) + if w.enqueued && Startable(old(ingest)) then 1 else 0
      ensures !ok && w.marked && ingest != old(ingest) ==> ingest.Some? && ingest.value.status.Failed?
    {
      hide Run, IsCall, AdvanceCall;
      ghost var was := Idle();
      EnqueueEffect(was, ingestKey, caller, w.enqueued);
      if !w.enqueued {
        GaveUp(Enqueueing(caller), Advance(0, false, ""), caller, first, was);
        return false;
      }
      var r := Enqueue(ingest, ingestKey);
      if !r.1.started {
        EndWell(Enqueueing(caller), Advance(0, true, ""), caller, first, was);
        return true;
      }
      ingest := Some(r.0);
      Reached(Enqueueing(caller), Dispatching(caller, r.1.attempt), Advance(0, true, ""), first, was);
      ok := Dispatch(r.1.attempt, w, caller, first);
    }

    /** Marks the scan succeeded, unless it has already failed. */
    method MarkSucceeded(n: Notice, ghost first: Event) returns (changed: bool)
      requires At(MarkClean(n), first) && scan.attempt == SCAN_ATTEMPT
      modifies this`scan, this`handled, this`call
      ensures changed ==> At(Enqueueing(ForNotice(n)), first) && scan.status.Succeeded? && handled == old(handled)
      ensures !changed ==> Done(first) && scan == old(scan) && handled == old(handled) + {n}
      ensures changed <==> old(scan.status).Active() || old(scan.status).Succeeded?
    {
      hide Run, IsCall, AdvanceCall, Transition;
      ghost var was := Idle();
      CleanEffect(was, ingestKey, n);
      SucceedGives(scan);
      var r := Transition(scan, SCAN_ATTEMPT, Succeeded, "", "");
      if r.Err? {
        handled := handled + {n};
        Finished(MarkClean(n), Advance(0, true, ""), first, was);
        return false;
      }
      scan := r.next;
      Reached(MarkClean(n), Enqueueing(ForNotice(n)), Advance(0, true, ""), first, was);
      return true;
    }

    /**
     * A clean result. If it ends well the scan is decided, and a succeeded
     * scan's document has started processing; a failed scan's document is
     * left alone. The file is never touched. Delivered again, it starts
     * another attempt exactly if the ingestion job has finished.
     */
    method HandleClean(n: Notice, w: World) returns (ok: bool)
      requires Valid() && n.Clean? && stored
      modifies this
      ensures Valid() && Continues(old(past), past, Deliver(0, n))
      ensures ok ==> n in handled && !scan.status.Active()
      ensures ok && scan.status.Succeeded? ==> ingest.Some?
      ensures old(scan.status).Failed? ==> scan == old(scan) && ingest == old(ingest)
      ensures (status, file, deleted) == old((status, file, deleted))
      ensures AttemptsOf(ingest) == AttemptsOf(old(ingest))
                + if w.working > 0 && !old(scan.status).Failed? && w.enqueued && Startable(old(ingest)) then 1 else 0
    {
      hide Run, Transition, Continues;
      RunKeeps(scanKey, ingestKey, past);
      ghost var first := Deliver(0, n);
      Begin(n);
      if w.working == 0 {
        Quit(MarkClean(n), first);
        Close(first);
        return false;
      }
      var changed := MarkSucceeded(n, first);
      ok := !changed;
      if changed {
        ok := StartProcessing(w, ForNotice(n), first);
      }
      Close(first);
    }

    /** The guards of a retry: the document failed, none of its jobs is active, and its file was not rejected. */
    method MayRetry(w: World, ghost first: Event) returns (ok: bool)
      requires At(CheckStatus, first)
      modifies this`call
      ensures ok ==> At(ResetStatus, first)
      ensures !ok ==> Done(first)
      ensures ok <==>
                && w.working >= 3 && status.DocFailed? && !scan.status.Active() && !scan.status.Failed?
                && !(ingest.Some? && ingest.value.status.Active()) && w.othersIdle
    {
      hide Run, IsCall, AdvanceCall;
      ghost var was := Idle();
      StatusEffect(was, ingestKey);
      if w.working == 0 {
        Quit(CheckStatus, first);
        return false;
      }
      if !status.DocFailed? {
        Finished(CheckStatus, Advance(0, true, ""), first, was);
        return false;
      }
      Reached(CheckStatus, CheckJobs, Advance(0, true, ""), first, was);
      ok := JobsIdle(w, first);
      if ok {
        ok := NotRejected(w, first);
      }
    }

    method JobsIdle(w: World, ghost first: Event) returns (ok: bool)
      requires At(CheckJobs, first)
      modifies this`call
      ensures ok ==> At(CheckRejection, first)
      ensures !ok ==> Done(first)
      ensures ok <==>
                && w.working != 1 && !scan.status.Active()
                && !(ingest.Some? && ingest.value.status.Active()) && w.othersIdle
    {
      hide Run, IsCall, AdvanceCall;
      ghost var was := Idle();
      JobsEffect(was, ingestKey, w.othersIdle);
      if w.working == 1 {
        Quit(CheckJobs, first);
        return false;
      }
      if scan.status.Active() || (ingest.Some? && ingest.value.status.Active()) || !w.othersIdle {
        Finished(CheckJobs, Advance(0, w.othersIdle, ""), first, was);
        return false;
      }
      Reached(CheckJobs, CheckRejection, Advance(0, w.othersIdle, ""), first, was);
      return true;
    }

    method NotRejected(w: World, ghost first: Event) returns (ok: bool)
      requires At(CheckRejection, first)
      modifies this`call
      ensures ok ==> At(ResetStatus, first)
      ensures !ok ==> Done(first)
      ensures ok <==> w.working != 2 && !scan.status.Failed?
    {
      hide Run, IsCall, AdvanceCall;
      ghost var was := Idle();
      ResetEffect(was, ingestKey);
      if w.working == 2 {
        Quit(CheckRejection, first);
        return false;
      }
      if scan.status.Failed? {
        Finished(CheckRejection, Advance(0, true, ""), first, was);
        return false;
      }
      Reached(CheckRejection, ResetStatus, Advance(0, true, ""), first, was);
      return true;
    }

    /** Resets the document's status and starts processing; if that fails, puts the status back. */
    method Restart(w: World, ghost first: Event) returns (ok: bool)
      requires At(ResetStatus, first) && status.DocFailed?
      modifies this`status, this`ingest, this`handled, this`call
      ensures Done(first) && handled == old(handled)
      ensures ok ==> ingest.Some? && status.DocPending?
      ensures !ok && w.working != 4 ==> status.DocFailed?
    {
      hide Run, IsCall, AdvanceCall, Enqueue;
      if w.working == 3 {
        Quit(ResetStatus, first);
        return false;
      }
      ghost var was := Idle();
      ResetEffect(was, ingestKey);
      status := DocPending;
      Reached(ResetStatus, Enqueueing(ForRetry), Advance(0, true, ""), first, was);
      ok := StartProcessing(w, ForRetry, first);
      if !ok {
        if w.working == 4 {
          Quit(UndoReset, first);
          return false;
        }
        was := Idle();
        ResetEffect(was, ingestKey);
        status := DocFailed;
        Finished(UndoReset, Advance(0, true, ""), first, was);
      }
    }

    /**
     * A retry succeeds only for a failed document with a clean file and no
     * active job, and then has started processing; otherwise the document
     * still has the status it had, unless putting it back fails.
     */
    method RetryDocument(w: World) returns (ok: bool)
      requires Valid()
      modifies this
      ensures Valid() && Continues(old(past), past, MalwareScan.Retry(0))
      ensures ok ==> old(status).DocFailed? && scan.status.Succeeded? && w.othersIdle && ingest.Some?
      ensures !ok && w.working != 4 ==> status == old(status)
      ensures (scan, file, deleted, handled) == old((scan, file, deleted, handled))
    {
      hide Run, Continues;
      RunKeeps(scanKey, ingestKey, past);
      ghost var first := MalwareScan.Retry(0);
      BeginEffect(Idle(), ingestKey, TimedOut(0));
      RunSnoc(scanKey, ingestKey, past, first);
      call := [first];
      ok := MayRetry(w, first);
      if ok {
        ok := Restart(w, first);
      }
      Close(first);
    }
  }

  /** What the machine promises holds of the service after any sequence of calls, however each of them ended. */
  lemma ServiceIsSafe(service: Service)
    requires service.Valid()
    ensures Invariant(service.Idle())
    ensures service.ingest.Some? ==> service.scan.status.Succeeded?
    ensures service.deleted ==> service.scan.status.Failed?
    ensures !(service.ingest.Some? && service.deleted)
  {
    NeverBoth(service.scanKey, service.ingestKey, service.past);
    RunKeeps(service.scanKey, service.ingestKey, service.past);
  }

  /** Once it has handled everything delivered, a timeout included, the document has started or is failed and empty. */
  lemma ServiceResolves(service: Service)
    requires service.Valid() && AllHandled(service.Idle())
    ensures || (service.ingest.Some? && !service.deleted)
            || (service.scan.status.Failed? && service.ingest.None? && service.status.DocFailed?
                && (!service.file || (service.late && !HasRejected(service.delivered))))
  {
    Resolved(service.scanKey, service.ingestKey, service.past);
  }
}
