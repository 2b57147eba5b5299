/**
 * One upload's malware scan under arbitrary interleaving. Scan results and
 * timeouts are delivered any number of times, users ask for retries, every
 * handler is a sequence of atomic store steps and may stop between any two,
 * and the processing pipeline acts freely once started.
 *
 * The run begins after the upload has recorded its pending scan and started
 * the scan's timeout, before its file is stored.
 */
module MalwareScan {
  import opened Wrappers
  import opened JobStatus

  const SCAN_ATTEMPT := 1

  datatype DocStatus = DocPending | DocProcessing | DocIndexed | DocFailed

  /** What the scan handler is told; the id tells deliveries of different events apart. */
  datatype Notice = Clean(id: nat) | Rejected(id: nat, reason: string) | TimedOut(id: nat)

  /** On whose behalf processing is being started. */
  datatype Caller = ForNotice(notice: Notice) | ForRetry

  datatype Pc =
    | MarkClean(notice: Notice)
    | MarkRejected(notice: Notice)
    | DeleteFile(notice: Notice)
    | FailDocument(notice: Notice)
    | CheckStatus
    | CheckJobs
    | CheckRejection
    | ResetStatus
    | Enqueueing(caller: Caller)
    | Dispatching(caller: Caller, attempt: int)
    | MarkingFailed(caller: Caller, attempt: int, reason: string)
    | UndoReset

  /**
   * deleted: a scan handler has deleted the file. late: the upload stored the
   * file when its scan had already failed. handled: notices some delivery of
   * which has run to completion.
   */
  datatype State = State(scan: Record, ingest: Option<Record>, status: DocStatus,
                         stored: bool, file: bool, late: bool, deleted: bool,
                         calls: map<nat, Pc>, delivered: set<Notice>, handled: set<Notice>)

  datatype Event =
    | StoreFile
    | Deliver(pid: nat, notice: Notice)
    | Retry(pid: nat)
    | Advance(pid: nat, accepted: bool, reason: string)
    | Stop(pid: nat)
    | PipelineReport(attempt: int, to: Status, phase: string, why: string)
    | PipelineStatus(status: DocStatus)

  function Start(scanKey: Key): State {
    State(Record(scanKey, Pending, "", SCAN_ATTEMPT, ""), None, DocPending, false, false, false, false, map[], {}, {})
  }

  const TIMEOUT_REASON := "The malware scan didn't complete in time, so the file was deleted. Upload it again."

  function ReasonOf(n: Notice): string {
    if n.Rejected? then n.reason else TIMEOUT_REASON
  }

  /** The call ends; a notice it was handling has been handled. */
  function Finish(s: State, pid: nat, caller: Caller): State {
    s.(calls := s.calls - {pid},
       handled := if caller.ForNotice? then s.handled + {caller.notice} else s.handled)
  }

  function Goto(s: State, pid: nat, pc: Pc): State {
    s.(calls := s.calls[pid := pc])
  }

  /** Results arrive only for a stored file; a timeout may fire at any time. */
  predicate Deliverable(s: State, n: Notice) {
    s.stored || n.TimedOut?
  }

  function Step(s: State, ingestKey: Key, e: Event): State {
    match e
    case StoreFile => if s.stored then s else s.(stored := true, file := true, late := s.scan.status.Failed?)
    case Deliver(pid, n) =>
      if pid in s.calls || !Deliverable(s, n) then s
      else Goto(s, pid, if n.Clean? then MarkClean(n) else MarkRejected(n)).(delivered := s.delivered + {n})
    case Retry(pid) => if pid in s.calls then s else Goto(s, pid, CheckStatus)
    case Advance(pid, accepted, reason) =>
      if pid in s.calls then AdvanceCall(s, ingestKey, pid, accepted, reason) else s
    case Stop(pid) => s.(calls := s.calls - {pid})
    case PipelineReport(attempt, to, phase, why) =>
      if s.ingest.None? then s else s.(ingest := Some(Reported(s.ingest.value, attempt, to, phase, why)))
    case PipelineStatus(status) => if s.ingest.None? then s else s.(status := status)
  }

  function Reported(rec: Record, attempt: int, to: Status, phase: string, why: string): Record {
    var r := Transition(rec, attempt, to, phase, why);
    if r.Ok? then r.next else rec
  }

  /** Starting processing failed: a retry puts the document's status back, a notice is left to be redelivered. */
  function PublishFailed(s: State, pid: nat, caller: Caller): State {
    if caller.ForRetry? then Goto(s, pid, UndoReset) else s.(calls := s.calls - {pid})
  }

  predicate IsRetryStep(pc: Pc) {
    pc.CheckStatus? || pc.CheckJobs? || pc.CheckRejection? || pc.ResetStatus? || pc.UndoReset?
  }

  predicate IsPublishStep(pc: Pc) {
    pc.Enqueueing? || pc.Dispatching? || pc.MarkingFailed?
  }

  function AdvanceCall(s: State, ingestKey: Key, pid: nat, accepted: bool, reason: string): State
    requires pid in s.calls
  {
    if IsRetryStep(s.calls[pid]) then AdvanceRetry(s, pid, accepted)
    else if IsPublishStep(s.calls[pid]) then AdvancePublish(s, ingestKey, pid, accepted, reason)
    else AdvanceNotice(s, pid)
  }

  function AdvanceNotice(s: State, pid: nat): State
    requires pid in s.calls && !IsRetryStep(s.calls[pid]) && !IsPublishStep(s.calls[pid])
  {
    match s.calls[pid]
    case MarkClean(n) =>
      var r := Transition(s.scan, SCAN_ATTEMPT, Succeeded, "", "");
      if r.Err? then Finish(s, pid, ForNotice(n)) else Goto(s, pid, Enqueueing(ForNotice(n))).(scan := r.next)
    case MarkRejected(n) =>
      var r := Transition(s.scan, SCAN_ATTEMPT, Failed, "", ReasonOf(n));
      if r.Err? then Finish(s, pid, ForNotice(n)) else Goto(s, pid, DeleteFile(n)).(scan := r.next)
    case DeleteFile(n) => Goto(s, pid, FailDocument(n)).(file := false, deleted := true)
    case FailDocument(n) => Finish(s, pid, ForNotice(n)).(status := DocFailed)
  }

  function AdvanceRetry(s: State, pid: nat, accepted: bool): State
    requires pid in s.calls && IsRetryStep(s.calls[pid])
  {
    match s.calls[pid]
    case CheckStatus => if s.status.DocFailed? then Goto(s, pid, CheckJobs) else Finish(s, pid, ForRetry)
    case CheckJobs =>
      // accepted is false when some other background job of the document is active
      if s.scan.status.Active() || (s.ingest.Some? && s.ingest.value.status.Active()) || !accepted
      then Finish(s, pid, ForRetry) else Goto(s, pid, CheckRejection)
    case CheckRejection => if s.scan.status.Failed? then Finish(s, pid, ForRetry) else Goto(s, pid, ResetStatus)
    case ResetStatus => Goto(s, pid, Enqueueing(ForRetry)).(status := DocPending)
    case UndoReset => Finish(s, pid, ForRetry).(status := DocFailed)
  }

  function AdvancePublish(s: State, ingestKey: Key, pid: nat, accepted: bool, reason: string): State
    requires pid in s.calls && IsPublishStep(s.calls[pid])
  {
    match s.calls[pid]
    case Enqueueing(caller) =>
      // accepted is false when the job store answers with an error
      var r := Enqueue(s.ingest, ingestKey);
      if !accepted then PublishFailed(s, pid, caller)
      else if !r.1.started then Finish(s, pid, caller)
      else Goto(s, pid, Dispatching(caller, r.1.attempt)).(ingest := Some(r.0))
    case Dispatching(caller, attempt) =>
      if accepted then Finish(s, pid, caller) else Goto(s, pid, MarkingFailed(caller, attempt, reason))
    case MarkingFailed(caller, attempt, why) =>
      if !accepted || s.ingest.None? then PublishFailed(s, pid, caller)
      else PublishFailed(s.(ingest := Some(Reported(s.ingest.value, attempt, Failed, "", why))), pid, caller)
  }

  function Run(scanKey: Key, ingestKey: Key, events: seq<Event>): State {
    if events == [] then Start(scanKey)
    else Step(Run(scanKey, ingestKey, events[..|events| - 1]), ingestKey, events[|events| - 1])
  }

  // ----- Safety

  /** What a call's position says about the scan. */
  ghost predicate Positioned(s: State, pc: Pc) {
    match pc
    case MarkClean(n) => n.Clean? && n in s.delivered
    case MarkRejected(n) => !n.Clean? && n in s.delivered && (n.Rejected? ==> s.stored)
    case DeleteFile(n) => !n.Clean? && s.scan.status.Failed? && (n.Rejected? ==> s.stored)
    case FailDocument(n) => !n.Clean? && s.scan.status.Failed? && s.deleted && (n.Rejected? ==> s.stored && !s.file)
    case CheckStatus => true
    case CheckJobs => true
    case CheckRejection => !s.scan.status.Active()
    case ResetStatus => s.scan.status.Succeeded?
    case Enqueueing(caller) => s.scan.status.Succeeded? && (caller.ForNotice? ==> caller.notice.Clean?)
    case Dispatching(caller, _) =>
      s.scan.status.Succeeded? && s.ingest.Some? && (caller.ForNotice? ==> caller.notice.Clean?)
    case MarkingFailed(caller, _, _) => s.scan.status.Succeeded?
    case UndoReset => s.scan.status.Succeeded?
  }

  /** What having handled a notice guarantees. */
  ghost predicate Settled(s: State, n: Notice) {
    && !s.scan.status.Active()
    && (n.Clean? ==> s.scan.status.Succeeded? ==> s.ingest.Some?)
    && (!n.Clean? ==> s.scan.status.Failed? ==> s.deleted && s.status.DocFailed?)
    && (n.Rejected? ==> s.scan.status.Failed? ==> s.stored && !s.file)
  }

  ghost predicate Consistent(s: State) {
    && s.scan.attempt == SCAN_ATTEMPT
    && (s.ingest.Some? ==> s.scan.status.Succeeded?)
    && (s.deleted ==> s.scan.status.Failed?)
    && (s.scan.status.Succeeded? ==> HasClean(s.delivered))
    && (s.deleted && !s.late ==> !s.file)
    && (s.file ==> s.stored)
  }

  ghost predicate HasClean(notices: set<Notice>) {
    exists n | n in notices :: n.Clean?
  }

  ghost predicate Invariant(s: State) {
    && Consistent(s)
    && (forall p | p in s.calls :: Positioned(s, s.calls[p]))
    && (forall n | n in s.handled :: Settled(s, n))
  }

  /** What a step may change without disturbing other calls or handled notices. */
  ghost predicate Quiet(s: State, t: State) {
    && t.delivered == s.delivered
    && (t.scan == s.scan || s.scan.status.Active())
    && (s.ingest.Some? ==> t.ingest.Some?)
    && (s.deleted ==> t.deleted)
    && (s.stored ==> t.stored && (t.file ==> s.file))
    && (t.status == s.status || t.status.DocFailed? || !s.scan.status.Failed?)
  }

  lemma Conclude(s: State, t: State, pid: nat)
    requires Invariant(s) && Consistent(t) && Quiet(s, t)
    requires t.calls - {pid} == s.calls - {pid}
    requires pid in t.calls ==> Positioned(t, t.calls[pid])
    requires forall n | n in t.handled && n !in s.handled :: Settled(t, n)
    ensures Invariant(t)
  {
    hide Consistent;
    forall p | p in t.calls && p != pid ensures Positioned(t, t.calls[p]) {
      assert p in t.calls - {pid};
      assert Positioned(s, s.calls[p]);
    }
    forall n | n in t.handled ensures Settled(t, n) {
      assert n in s.handled ==> Settled(s, n);
    }
  }

  lemma Given(s: State, pid: nat)
    requires Invariant(s) && pid in s.calls
    ensures Consistent(s) && Positioned(s, s.calls[pid])
  {
  }

  lemma CleanDelivered(notices: set<Notice>, n: Notice)
    requires n in notices && n.Clean?
    ensures HasClean(notices)
  {
  }

  lemma MarkCleanKeeps(s: State, ingestKey: Key, pid: nat, accepted: bool, reason: string)
    requires Invariant(s) && pid in s.calls && s.calls[pid].MarkClean?
    ensures Invariant(AdvanceCall(s, ingestKey, pid, accepted, reason))
  {
    hide Invariant, HasClean, ReasonOf, AdvanceRetry, AdvancePublish;
    Given(s, pid);
    CleanDelivered(s.delivered, s.calls[pid].notice);
    Conclude(s, AdvanceCall(s, ingestKey, pid, accepted, reason), pid);
  }

  lemma MarkRejectedKeeps(s: State, ingestKey: Key, pid: nat, accepted: bool, reason: string)
    requires Invariant(s) && pid in s.calls && s.calls[pid].MarkRejected?
    ensures Invariant(AdvanceCall(s, ingestKey, pid, accepted, reason))
  {
    hide Invariant, HasClean, ReasonOf, AdvanceRetry, AdvancePublish;
    Given(s, pid);
    Conclude(s, AdvanceCall(s, ingestKey, pid, accepted, reason), pid);
  }

  lemma FileKeeps(s: State, ingestKey: Key, pid: nat, accepted: bool, reason: string)
    requires Invariant(s) && pid in s.calls && (s.calls[pid].DeleteFile? || s.calls[pid].FailDocument?)
    ensures Invariant(AdvanceCall(s, ingestKey, pid, accepted, reason))
  {
    hide Invariant, HasClean, ReasonOf, AdvanceRetry, AdvancePublish;
    Given(s, pid);
    Conclude(s, AdvanceCall(s, ingestKey, pid, accepted, reason), pid);
  }

  /** A call that moves on without touching a store. */
  lemma GotoKeeps(s: State, pid: nat, pc: Pc)
    requires Invariant(s) && pid in s.calls && Positioned(s, pc)
    ensures Invariant(Goto(s, pid, pc))
  {
    hide Invariant, HasClean;
    Given(s, pid);
    Conclude(s, Goto(s, pid, pc), pid);
  }

  /** A retry that ends without touching a store. */
  lemma EndKeeps(s: State, pid: nat)
    requires Invariant(s) && pid in s.calls
    ensures Invariant(Finish(s, pid, ForRetry))
  {
    hide Invariant, HasClean;
    Given(s, pid);
    Conclude(s, Finish(s, pid, ForRetry), pid);
  }

  lemma CheckKeeps(s: State, ingestKey: Key, pid: nat, accepted: bool, reason: string)
    requires Invariant(s) && pid in s.calls
    requires var pc := s.calls[pid]; pc.CheckStatus? || pc.CheckJobs?
    ensures Invariant(AdvanceCall(s, ingestKey, pid, accepted, reason))
  {
    hide Invariant, AdvanceNotice, AdvancePublish, Goto, Finish;
    EndKeeps(s, pid);
    if s.calls[pid].CheckStatus? {
      GotoKeeps(s, pid, CheckJobs);
    } else if !s.scan.status.Active() {
      GotoKeeps(s, pid, CheckRejection);
    }
  }

  lemma ResetKeeps(s: State, ingestKey: Key, pid: nat, accepted: bool, reason: string)
    requires Invariant(s) && pid in s.calls
    requires var pc := s.calls[pid]; pc.CheckRejection? || pc.ResetStatus? || pc.UndoReset?
    ensures Invariant(AdvanceCall(s, ingestKey, pid, accepted, reason))
  {
    hide Invariant, HasClean, AdvanceNotice, AdvancePublish;
    Given(s, pid);
    Conclude(s, AdvanceCall(s, ingestKey, pid, accepted, reason), pid);
  }

  lemma EnqueueKeeps(s: State, ingestKey: Key, pid: nat, accepted: bool, reason: string)
    requires Invariant(s) && pid in s.calls
    requires var pc := s.calls[pid]; pc.Enqueueing?
    ensures Invariant(AdvanceCall(s, ingestKey, pid, accepted, reason))
  {
    hide Invariant, HasClean, AdvanceNotice, AdvanceRetry;
    Given(s, pid);
    Conclude(s, AdvanceCall(s, ingestKey, pid, accepted, reason), pid);
  }

  lemma DispatchKeeps(s: State, ingestKey: Key, pid: nat, accepted: bool, reason: string)
    requires Invariant(s) && pid in s.calls
    requires var pc := s.calls[pid]; pc.Dispatching? || pc.MarkingFailed?
    ensures Invariant(AdvanceCall(s, ingestKey, pid, accepted, reason))
  {
    hide Invariant, HasClean, AdvanceNotice, AdvanceRetry, Reported, Enqueue;
    Given(s, pid);
    Conclude(s, AdvanceCall(s, ingestKey, pid, accepted, reason), pid);
  }

  lemma AdvanceKeeps(s: State, ingestKey: Key, pid: nat, accepted: bool, reason: string)
    requires Invariant(s) && pid in s.calls
    ensures Invariant(AdvanceCall(s, ingestKey, pid, accepted, reason))
  {
    hide Invariant, AdvanceCall;
    var pc := s.calls[pid];
    if pc.MarkClean? {
      MarkCleanKeeps(s, ingestKey, pid, accepted, reason);
    } else if pc.MarkRejected? {
      MarkRejectedKeeps(s, ingestKey, pid, accepted, reason);
    } else if pc.DeleteFile? || pc.FailDocument? {
      FileKeeps(s, ingestKey, pid, accepted, reason);
    } else if pc.CheckStatus? || pc.CheckJobs? {
      CheckKeeps(s, ingestKey, pid, accepted, reason);
    } else if IsRetryStep(pc) {
      ResetKeeps(s, ingestKey, pid, accepted, reason);
    } else if pc.Enqueueing? {
      EnqueueKeeps(s, ingestKey, pid, accepted, reason);
    } else {
      DispatchKeeps(s, ingestKey, pid, accepted, reason);
    }
  }

  lemma StoreKeeps(s: State, ingestKey: Key)
    requires Invariant(s)
    ensures Invariant(Step(s, ingestKey, StoreFile))
  {
    hide HasClean;
    var t := Step(s, ingestKey, StoreFile);
    forall n | n in t.handled ensures Settled(t, n) {
      assert Settled(s, n);
    }
    forall p | p in t.calls ensures Positioned(t, t.calls[p]) {
      assert Positioned(s, s.calls[p]);
    }
  }

  lemma DeliverKeeps(s: State, ingestKey: Key, pid: nat, n: Notice)
    requires Invariant(s)
    ensures Invariant(Step(s, ingestKey, Deliver(pid, n)))
  {
    var t := Step(s, ingestKey, Deliver(pid, n));
    assert forall m | m in s.delivered :: m in t.delivered;
    forall p | p in t.calls ensures Positioned(t, t.calls[p]) {
      assert p in s.calls ==> Positioned(s, s.calls[p]);
    }
    forall m | m in t.handled ensures Settled(t, m) {
      assert Settled(s, m);
    }
  }

  /** A retry begins, or a call stops. */
  lemma CallsKeep(s: State, ingestKey: Key, e: Event)
    requires Invariant(s) && (e.Retry? || e.Stop?)
    ensures Invariant(Step(s, ingestKey, e))
  {
    hide HasClean;
    var t := Step(s, ingestKey, e);
    assert t == s.(calls := t.calls);
    forall p | p in t.calls ensures Positioned(t, t.calls[p]) {
      assert p in s.calls ==> Positioned(s, s.calls[p]);
    }
    forall m | m in t.handled ensures Settled(t, m) {
      assert Settled(s, m);
    }
  }

  lemma PipelineKeeps(s: State, ingestKey: Key, e: Event)
    requires Invariant(s) && (e.PipelineReport? || e.PipelineStatus?)
    ensures Invariant(Step(s, ingestKey, e))
  {
    hide HasClean, Reported;
    var t := Step(s, ingestKey, e);
    forall p | p in t.calls ensures Positioned(t, t.calls[p]) {
      assert Positioned(s, s.calls[p]);
    }
    forall m | m in t.handled ensures Settled(t, m) {
      assert Settled(s, m);
    }
  }

  lemma StepKeeps(s: State, ingestKey: Key, e: Event)
    requires Invariant(s)
    ensures Invariant(Step(s, ingestKey, e))
  {
    hide Invariant, AdvanceCall;
    match e
    case StoreFile => StoreKeeps(s, ingestKey);
    case Deliver(pid, n) => DeliverKeeps(s, ingestKey, pid, n);
    case Advance(pid, accepted, reason) =>
      if pid in s.calls {
        AdvanceKeeps(s, ingestKey, pid, accepted, reason);
      }
    case Retry(_) => CallsKeep(s, ingestKey, e);
    case Stop(_) => CallsKeep(s, ingestKey, e);
    case PipelineReport(_, _, _, _) => PipelineKeeps(s, ingestKey, e);
    case PipelineStatus(_) => PipelineKeeps(s, ingestKey, e);
  }

  lemma {:induction false} RunKeeps(scanKey: Key, ingestKey: Key, events: seq<Event>)
    ensures Invariant(Run(scanKey, ingestKey, events))
  {
    if events != [] {
      RunKeeps(scanKey, ingestKey, events[..|events| - 1]);
      StepKeeps(Run(scanKey, ingestKey, events[..|events| - 1]), ingestKey, events[|events| - 1]);
    }
  }

  /**
   * However deliveries, retries and crashes interleave: processing has
   * started only if the scan succeeded, a scan handler has deleted the file
   * only if it failed, so never both.
   */
  lemma NeverBoth(scanKey: Key, ingestKey: Key, events: seq<Event>)
    ensures var s := Run(scanKey, ingestKey, events);
            && (s.ingest.Some? ==> s.scan.status.Succeeded?)
            && (s.deleted ==> s.scan.status.Failed?)
            && !(s.ingest.Some? && s.deleted)
  {
    RunKeeps(scanKey, ingestKey, events);
  }

  // ----- Once everything delivered has been handled

  ghost predicate AllHandled(s: State) {
    && s.delivered <= s.handled
    && exists n | n in s.delivered :: n.TimedOut?
  }

  ghost predicate HasRejected(notices: set<Notice>) {
    exists n | n in notices :: n.Rejected?
  }

  /** Once a rejection of a failed scan has been handled, no file is left, whenever it was stored. */
  lemma RejectedIsGone(scanKey: Key, ingestKey: Key, events: seq<Event>, n: Notice)
    requires n.Rejected? && n in Run(scanKey, ingestKey, events).handled
    requires Run(scanKey, ingestKey, events).scan.status.Failed?
    ensures var s := Run(scanKey, ingestKey, events); s.stored && !s.file && s.deleted && s.status.DocFailed?
  {
    RunKeeps(scanKey, ingestKey, events);
    assert Settled(Run(scanKey, ingestKey, events), n);
  }

  /**
   * Once every delivered notice, the timeout among them, has been handled,
   * the document either started processing and kept its file from the scan
   * handlers, or was failed and its file deleted. The deletion is final
   * unless the upload stored the file after its scan had failed and no
   * rejection was ever delivered.
   */
  lemma Resolved(scanKey: Key, ingestKey: Key, events: seq<Event>)
    requires AllHandled(Run(scanKey, ingestKey, events))
    ensures var s := Run(scanKey, ingestKey, events);
            || (s.ingest.Some? && s.scan.status.Succeeded? && !s.deleted)
            || (s.scan.status.Failed? && s.ingest.None? && s.deleted && s.status.DocFailed?
                && (!s.file || (s.late && !HasRejected(s.delivered))))
  {
    RunKeeps(scanKey, ingestKey, events);
    var s := Run(scanKey, ingestKey, events);
    var timeout :| timeout in s.delivered && timeout.TimedOut?;
    assert Settled(s, timeout);
    if s.scan.status.Succeeded? {
      assert HasClean(s.delivered);
      var clean :| clean in s.delivered && clean.Clean?;
      assert Settled(s, clean);
    } else if HasRejected(s.delivered) {
      var n :| n in s.delivered && n.Rejected?;
      assert Settled(s, n);
    }
  }

  // ----- Exactly when a file can be left behind

  /** Some call has deleted the file for n and only has to fail the document. */
  ghost predicate PastDelete(s: State, n: Notice) {
    exists p | p in s.calls :: s.calls[p] == FailDocument(n)
  }

  /** The scan has failed and nobody is left to delete a file stored now: every notice is handled or past its delete. */
  ghost predicate Stranded(s: State) {
    s.scan.status.Failed? && forall n | n in s.delivered :: n in s.handled || PastDelete(s, n)
  }

  /** Before the file is stored only timeouts are delivered, and only they fail the scan. */
  ghost predicate Early(s: State) {
    !s.stored ==>
      && (forall n | n in s.delivered :: n.TimedOut?)
      && (s.scan.status.Failed? ==> s.delivered != {})
  }

  lemma RunSnoc(scanKey: Key, ingestKey: Key, events: seq<Event>, e: Event)
    ensures Run(scanKey, ingestKey, events + [e]) == Step(Run(scanKey, ingestKey, events), ingestKey, e)
  {
    hide Step;
    assert (events + [e])[..|events|] == events;
  }

  /** Only marking a delivered notice rejected fails a scan. */
  lemma FailsByNotice(s: State, ingestKey: Key, pid: nat, accepted: bool, reason: string)
    requires pid in s.calls
    ensures AdvanceCall(s, ingestKey, pid, accepted, reason).scan.status.Failed? ==>
              s.scan.status.Failed? || s.calls[pid].MarkRejected?
  {
    hide AdvanceRetry, AdvancePublish, AdvanceNotice;
    if IsRetryStep(s.calls[pid]) {
      RetryLeaves(s, pid, accepted);
    } else if IsPublishStep(s.calls[pid]) {
      PublishLeaves(s, ingestKey, pid, accepted, reason);
    } else {
      NoticeFails(s, pid);
    }
  }

  lemma NoticeFails(s: State, pid: nat)
    requires pid in s.calls && !IsRetryStep(s.calls[pid]) && !IsPublishStep(s.calls[pid])
    ensures AdvanceNotice(s, pid).scan.status.Failed? ==> s.scan.status.Failed? || s.calls[pid].MarkRejected?
  {
    hide ReasonOf;
  }

  lemma EarlyStep(s: State, ingestKey: Key, e: Event)
    requires Invariant(s) && Early(s)
    ensures Early(Step(s, ingestKey, e))
  {
    hide Invariant, AdvanceCall, HasClean;
    if e.Advance? && e.pid in s.calls {
      Given(s, e.pid);
      AdvanceLeaves(s, ingestKey, e.pid, e.accepted, e.reason);
      FailsByNotice(s, ingestKey, e.pid, e.accepted, e.reason);
    }
  }

  lemma {:induction false} RunEarly(scanKey: Key, ingestKey: Key, events: seq<Event>)
    ensures Early(Run(scanKey, ingestKey, events))
  {
    hide Step;
    if events != [] {
      RunEarly(scanKey, ingestKey, events[..|events| - 1]);
      RunKeeps(scanKey, ingestKey, events[..|events| - 1]);
      EarlyStep(Run(scanKey, ingestKey, events[..|events| - 1]), ingestKey, events[|events| - 1]);
    }
  }

  /** n still has to be handled, and handling it deletes the file. */
  ghost predicate Doomed(s: State, n: Notice) {
    && s.stored && s.scan.status.Failed? && !n.Clean?
    && (s.file ==> n !in s.handled && !PastDelete(s, n))
  }

  lemma DoomedAdvance(s: State, ingestKey: Key, pid: nat, accepted: bool, reason: string, n: Notice)
    requires Invariant(s) && Doomed(s, n) && pid in s.calls
    ensures Doomed(AdvanceCall(s, ingestKey, pid, accepted, reason), n)
  {
    hide Invariant, ReasonOf, Reported, Enqueue, HasClean;
    Given(s, pid);
    var t := AdvanceCall(s, ingestKey, pid, accepted, reason);
    hide AdvanceCall;
    if t.file {
      forall p | p in t.calls ensures t.calls[p] != FailDocument(n) {
        if p == pid {
          OwnCall(s, ingestKey, pid, accepted, reason);
        } else {
          OtherCalls(s, ingestKey, pid, accepted, reason, p);
        }
      }
    }
  }

  lemma OtherCalls(s: State, ingestKey: Key, pid: nat, accepted: bool, reason: string, p: nat)
    requires pid in s.calls && p != pid && p in AdvanceCall(s, ingestKey, pid, accepted, reason).calls
    ensures p in s.calls && AdvanceCall(s, ingestKey, pid, accepted, reason).calls[p] == s.calls[p]
  {
    hide AdvanceCall;
    if IsRetryStep(s.calls[pid]) {
      OtherCallsRetrying(s, ingestKey, pid, accepted, reason, p);
    } else if IsPublishStep(s.calls[pid]) {
      OtherCallsPublishing(s, ingestKey, pid, accepted, reason, p);
    } else {
      OtherCallsHandling(s, ingestKey, pid, accepted, reason, p);
    }
  }

  lemma OtherCallsRetrying(s: State, ingestKey: Key, pid: nat, accepted: bool, reason: string, p: nat)
    requires pid in s.calls && p != pid && p in AdvanceCall(s, ingestKey, pid, accepted, reason).calls
    requires IsRetryStep(s.calls[pid])
    ensures p in s.calls && AdvanceCall(s, ingestKey, pid, accepted, reason).calls[p] == s.calls[p]
  {
    hide Transition, ReasonOf, Reported, Enqueue, AdvanceNotice, AdvancePublish;
  }

  lemma OtherCallsHandling(s: State, ingestKey: Key, pid: nat, accepted: bool, reason: string, p: nat)
    requires pid in s.calls && p != pid && p in AdvanceCall(s, ingestKey, pid, accepted, reason).calls
    requires !IsRetryStep(s.calls[pid]) && !IsPublishStep(s.calls[pid])
    ensures p in s.calls && AdvanceCall(s, ingestKey, pid, accepted, reason).calls[p] == s.calls[p]
  {
    hide Transition, ReasonOf, AdvanceRetry, AdvancePublish;
  }

  lemma OtherCallsPublishing(s: State, ingestKey: Key, pid: nat, accepted: bool, reason: string, p: nat)
    requires pid in s.calls && p != pid && p in AdvanceCall(s, ingestKey, pid, accepted, reason).calls
    requires IsPublishStep(s.calls[pid])
    ensures p in s.calls && AdvanceCall(s, ingestKey, pid, accepted, reason).calls[p] == s.calls[p]
  {
    hide Reported, Enqueue, AdvanceRetry, AdvanceNotice;
  }

  /** A call gets past its delete only by deleting the file. */
  lemma OwnCall(s: State, ingestKey: Key, pid: nat, accepted: bool, reason: string)
    requires pid in s.calls
    ensures var t := AdvanceCall(s, ingestKey, pid, accepted, reason);
            pid in t.calls && t.calls[pid].FailDocument? ==> !t.file
  {
    hide AdvanceCall;
    if IsRetryStep(s.calls[pid]) {
      OwnCallRetrying(s, ingestKey, pid, accepted, reason);
    } else {
      OwnCallHandling(s, ingestKey, pid, accepted, reason);
    }
  }

  lemma OwnCallRetrying(s: State, ingestKey: Key, pid: nat, accepted: bool, reason: string)
    requires pid in s.calls && IsRetryStep(s.calls[pid])
    ensures var t := AdvanceCall(s, ingestKey, pid, accepted, reason);
            pid in t.calls ==> !t.calls[pid].FailDocument?
  {
    hide Transition, ReasonOf, Reported, Enqueue, AdvanceNotice, AdvancePublish;
  }

  lemma OwnCallHandling(s: State, ingestKey: Key, pid: nat, accepted: bool, reason: string)
    requires pid in s.calls && !IsRetryStep(s.calls[pid])
    ensures var t := AdvanceCall(s, ingestKey, pid, accepted, reason);
            pid in t.calls && t.calls[pid].FailDocument? ==> !t.file
  {
    hide Transition, ReasonOf, Reported, Enqueue;
  }

  lemma DoomedStep(s: State, ingestKey: Key, e: Event, n: Notice)
    requires Invariant(s) && Doomed(s, n)
    ensures Doomed(Step(s, ingestKey, e), n)
  {
    hide AdvanceCall, Invariant;
    if e.Advance? && e.pid in s.calls {
      DoomedAdvance(s, ingestKey, e.pid, e.accepted, e.reason, n);
    }
  }

  lemma {:induction false} DoomedRun(scanKey: Key, ingestKey: Key, events: seq<Event>, later: seq<Event>, n: Notice)
    requires Doomed(Run(scanKey, ingestKey, events), n)
    ensures Doomed(Run(scanKey, ingestKey, events + later), n)
  {
    hide Step, Doomed;
    if later == [] {
      assert events + later == events;
    } else {
      var init, e := later[..|later| - 1], later[|later| - 1];
      DoomedRun(scanKey, ingestKey, events, init, n);
      RunKeeps(scanKey, ingestKey, events + init);
      DoomedStep(Run(scanKey, ingestKey, events + init), ingestKey, e, n);
      RunSnoc(scanKey, ingestKey, events + init, e);
      assert events + later == events + init + [e];
    }
  }

  /** What no step of a call changes. */
  lemma AdvanceLeaves(s: State, ingestKey: Key, pid: nat, accepted: bool, reason: string)
    requires pid in s.calls
    ensures var t := AdvanceCall(s, ingestKey, pid, accepted, reason);
            t.stored == s.stored && t.late == s.late && t.delivered == s.delivered
  {
    hide AdvanceRetry, AdvancePublish, AdvanceNotice;
    if IsRetryStep(s.calls[pid]) {
      RetryLeaves(s, pid, accepted);
    } else if IsPublishStep(s.calls[pid]) {
      PublishLeaves(s, ingestKey, pid, accepted, reason);
    } else {
      NoticeLeaves(s, pid);
    }
  }

  lemma RetryLeaves(s: State, pid: nat, accepted: bool)
    requires pid in s.calls && IsRetryStep(s.calls[pid])
    ensures var t := AdvanceRetry(s, pid, accepted);
            t.stored == s.stored && t.late == s.late && t.delivered == s.delivered && t.scan == s.scan
  {
  }

  lemma PublishLeaves(s: State, ingestKey: Key, pid: nat, accepted: bool, reason: string)
    requires pid in s.calls && IsPublishStep(s.calls[pid])
    ensures var t := AdvancePublish(s, ingestKey, pid, accepted, reason);
            t.stored == s.stored && t.late == s.late && t.delivered == s.delivered && t.scan == s.scan
  {
    hide AdvancePublish;
    if s.calls[pid].Enqueueing? {
      EnqueueLeaves(s, ingestKey, pid, accepted, reason);
    } else {
      DispatchLeaves(s, ingestKey, pid, accepted, reason);
    }
  }

  lemma EnqueueLeaves(s: State, ingestKey: Key, pid: nat, accepted: bool, reason: string)
    requires pid in s.calls && s.calls[pid].Enqueueing?
    ensures var t := AdvancePublish(s, ingestKey, pid, accepted, reason);
            t.stored == s.stored && t.late == s.late && t.delivered == s.delivered && t.scan == s.scan
  {
    hide Enqueue;
  }

  lemma DispatchLeaves(s: State, ingestKey: Key, pid: nat, accepted: bool, reason: string)
    requires pid in s.calls && IsPublishStep(s.calls[pid]) && !s.calls[pid].Enqueueing?
    ensures var t := AdvancePublish(s, ingestKey, pid, accepted, reason);
            t.stored == s.stored && t.late == s.late && t.delivered == s.delivered && t.scan == s.scan
  {
    hide Reported;
  }

  lemma NoticeLeaves(s: State, pid: nat)
    requires pid in s.calls && !IsRetryStep(s.calls[pid]) && !IsPublishStep(s.calls[pid])
    ensures var t := AdvanceNotice(s, pid);
            t.stored == s.stored && t.late == s.late && t.delivered == s.delivered
  {
    hide Transition, ReasonOf;
  }

  lemma LateStep(s: State, ingestKey: Key, e: Event)
    requires s.stored
    ensures Step(s, ingestKey, e).stored && Step(s, ingestKey, e).late == s.late
  {
    hide AdvanceCall;
    if e.Advance? && e.pid in s.calls {
      AdvanceLeaves(s, ingestKey, e.pid, e.accepted, e.reason);
    }
  }

  lemma {:induction false} LateRun(scanKey: Key, ingestKey: Key, events: seq<Event>, later: seq<Event>)
    requires Run(scanKey, ingestKey, events).stored
    ensures var s := Run(scanKey, ingestKey, events + later);
            s.stored && s.late == Run(scanKey, ingestKey, events).late
  {
    hide Step;
    if later == [] {
      assert events + later == events;
    } else {
      var init, e := later[..|later| - 1], later[|later| - 1];
      LateRun(scanKey, ingestKey, events, init);
      LateStep(Run(scanKey, ingestKey, events + init), ingestKey, e);
      RunSnoc(scanKey, ingestKey, events + init, e);
      assert events + later == events + init + [e];
    }
  }

  /** A file not stranded when stored is gone from every failed document once all has been handled. */
  lemma GoneUnlessStranded(scanKey: Key, ingestKey: Key, events: seq<Event>, later: seq<Event>)
    requires !Run(scanKey, ingestKey, events).stored && !Stranded(Run(scanKey, ingestKey, events))
    requires var s := Run(scanKey, ingestKey, events + [StoreFile] + later); AllHandled(s) && s.scan.status.Failed?
    ensures !Run(scanKey, ingestKey, events + [StoreFile] + later).file
  {
    var s, t := Run(scanKey, ingestKey, events), Run(scanKey, ingestKey, events + [StoreFile]);
    RunSnoc(scanKey, ingestKey, events, StoreFile);
    if s.scan.status.Failed? {
      var n :| n in s.delivered && n !in s.handled && !PastDelete(s, n);
      RunEarly(scanKey, ingestKey, events);
      DoomedRun(scanKey, ingestKey, events + [StoreFile], later, n);
      DeliveredStays(scanKey, ingestKey, events + [StoreFile], later, n);
    } else {
      LateRun(scanKey, ingestKey, events + [StoreFile], later);
      Resolved(scanKey, ingestKey, events + [StoreFile] + later);
    }
  }

  lemma DeliveredStep(s: State, ingestKey: Key, e: Event, n: Notice)
    requires n in s.delivered
    ensures n in Step(s, ingestKey, e).delivered
  {
    hide AdvanceCall;
    if e.Advance? && e.pid in s.calls {
      AdvanceLeaves(s, ingestKey, e.pid, e.accepted, e.reason);
    }
  }

  lemma {:induction false} DeliveredStays(scanKey: Key, ingestKey: Key, events: seq<Event>, later: seq<Event>,
                                          n: Notice)
    requires n in Run(scanKey, ingestKey, events).delivered
    ensures n in Run(scanKey, ingestKey, events + later).delivered
  {
    hide Step;
    if later == [] {
      assert events + later == events;
    } else {
      var init, e := later[..|later| - 1], later[|later| - 1];
      DeliveredStays(scanKey, ingestKey, events, init, n);
      DeliveredStep(Run(scanKey, ingestKey, events + init), ingestKey, e, n);
      RunSnoc(scanKey, ingestKey, events + init, e);
      assert events + later == events + init + [e];
    }
  }

  /** Every notice is handled or past its delete, and the file is there. */
  ghost predicate LeftBehind(s: State) {
    s.file && Stranded(s)
  }

  lemma FinishOne(s: State, ingestKey: Key, n: Notice) returns (e: Event)
    requires LeftBehind(s) && n in s.delivered && n !in s.handled
    ensures var t := Step(s, ingestKey, e);
            LeftBehind(t) && t.delivered == s.delivered && t.handled == s.handled + {n}
  {
    var pid :| pid in s.calls && s.calls[pid] == FailDocument(n);
    e := Advance(pid, true, "");
    var t := Step(s, ingestKey, e);
    assert t == s.(calls := s.calls - {pid}, handled := s.handled + {n}, status := DocFailed);
    forall m | m in t.delivered && m !in t.handled ensures PastDelete(t, m) {
      var p :| p in s.calls && s.calls[p] == FailDocument(m);
      assert p in t.calls && t.calls[p] == FailDocument(m);
    }
  }

  /** The calls past their deletes can all finish, and the file is still there. */
  lemma {:induction false} FinishAll(scanKey: Key, ingestKey: Key, events: seq<Event>) returns (later: seq<Event>)
    requires LeftBehind(Run(scanKey, ingestKey, events))
    ensures var s := Run(scanKey, ingestKey, events + later);
            LeftBehind(s) && s.delivered == Run(scanKey, ingestKey, events).delivered <= s.handled
    decreases Run(scanKey, ingestKey, events).delivered - Run(scanKey, ingestKey, events).handled
  {
    hide Step, LeftBehind, Run;
    var s := Run(scanKey, ingestKey, events);
    if s.delivered <= s.handled {
      later := [];
      assert events + [] == events;
    } else {
      var n :| n in s.delivered && n !in s.handled;
      var e := FinishOne(s, ingestKey, n);
      RunSnoc(scanKey, ingestKey, events, e);
      assert n in s.delivered - s.handled;
      var rest := FinishAll(scanKey, ingestKey, events + [e]);
      later := [e] + rest;
      assert events + later == events + [e] + rest;
    }
  }

  /** Whatever happens after the file is stored, once all has been handled a failed document's file is gone. */
  ghost predicate AlwaysGone(scanKey: Key, ingestKey: Key, events: seq<Event>) {
    forall later :: GoneAfter(Run(scanKey, ingestKey, events + [StoreFile] + later))
  }

  ghost predicate GoneAfter(s: State) {
    AllHandled(s) && s.scan.status.Failed? ==> !s.file
  }

  /** A file about to be stored is safely deleted if its scan fails exactly when it is not stranded. */
  lemma AlwaysGoneUnlessStranded(scanKey: Key, ingestKey: Key, events: seq<Event>)
    requires !Run(scanKey, ingestKey, events).stored
    ensures AlwaysGone(scanKey, ingestKey, events) <==> !Stranded(Run(scanKey, ingestKey, events))
  {
    var s := Run(scanKey, ingestKey, events);
    if Stranded(s) {
      StoredBehind(scanKey, ingestKey, events);
      var later := FinishAll(scanKey, ingestKey, events + [StoreFile]);
      assert !GoneAfter(Run(scanKey, ingestKey, events + [StoreFile] + later));
    } else {
      forall later ensures GoneAfter(Run(scanKey, ingestKey, events + [StoreFile] + later)) {
        if !GoneAfter(Run(scanKey, ingestKey, events + [StoreFile] + later)) {
          GoneUnlessStranded(scanKey, ingestKey, events, later);
        }
      }
    }
  }

  lemma StoredBehind(scanKey: Key, ingestKey: Key, events: seq<Event>)
    requires !Run(scanKey, ingestKey, events).stored && Stranded(Run(scanKey, ingestKey, events))
    ensures var t := Run(scanKey, ingestKey, events + [StoreFile]);
            LeftBehind(t) && exists n | n in t.delivered :: n.TimedOut?
  {
    var s, t := Run(scanKey, ingestKey, events), Run(scanKey, ingestKey, events + [StoreFile]);
    RunSnoc(scanKey, ingestKey, events, StoreFile);
    RunEarly(scanKey, ingestKey, events);
    assert t == s.(stored := true, file := true, late := true);
    var n :| n in s.delivered;
    assert n in t.delivered && n.TimedOut?;
    forall m | m in t.delivered && m !in t.handled ensures PastDelete(t, m) {
      var p :| p in s.calls && s.calls[p] == FailDocument(m);
      assert p in t.calls && t.calls[p] == FailDocument(m);
    }
  }

  /** A timeout handled before the file is stored leaves a clean file in the store of a failed document. */
  lemma LateFileStays(scanKey: Key, ingestKey: Key)
    ensures var go := Advance(0, true, "");
            var s := Run(scanKey, ingestKey,
                         [Deliver(0, TimedOut(0)), go, go, go, StoreFile, Deliver(0, Clean(1)), go]);
            AllHandled(s) && s.late && s.file && s.status.DocFailed? && s.scan.status.Failed?
  {
    var go := Advance(0, true, "");
    var first := [Deliver(0, TimedOut(0)), go];
    var second := first + [go, go];
    var third := second + [StoreFile, Deliver(0, Clean(1))];
    assert third + [go] == [Deliver(0, TimedOut(0)), go, go, go, StoreFile, Deliver(0, Clean(1)), go];
    RunTwo(scanKey, ingestKey, [], Deliver(0, TimedOut(0)), go);
    assert [] + [Deliver(0, TimedOut(0)), go] == first;
    RunTwo(scanKey, ingestKey, first, go, go);
    RunTwo(scanKey, ingestKey, second, StoreFile, Deliver(0, Clean(1)));
    assert (third + [go])[..|third|] == third;
    TimeoutFirst(scanKey, ingestKey);
  }

  lemma RunTwo(scanKey: Key, ingestKey: Key, events: seq<Event>, e: Event, f: Event)
    ensures Run(scanKey, ingestKey, events + [e, f])
         == Step(Step(Run(scanKey, ingestKey, events), ingestKey, e), ingestKey, f)
  {
    var all := events + [e, f];
    assert all[..|all| - 1] == events + [e];
    assert (events + [e])[..|events|] == events;
  }

  lemma TimeoutFirst(scanKey: Key, ingestKey: Key)
    ensures var go := Advance(0, true, "");
            var s := Step(Step(Start(scanKey), ingestKey, Deliver(0, TimedOut(0))), ingestKey, go);
            var t := Step(Step(s, ingestKey, go), ingestKey, go);
            var u := Step(Step(t, ingestKey, StoreFile), ingestKey, Deliver(0, Clean(1)));
            var v := Step(u, ingestKey, go);
            AllHandled(v) && v.late && v.file && v.status.DocFailed? && v.scan.status.Failed?
  {
    var go := Advance(0, true, "");
    var n := TimedOut(0);
    var s0 := Step(Start(scanKey), ingestKey, Deliver(0, n));
    var s1 := Step(s0, ingestKey, go);
    var s2 := Step(s1, ingestKey, go);
    var t := Step(s2, ingestKey, go);
    hide Step;
    DeliverStep(Start(scanKey), ingestKey, n);
    RejectSteps(s0, s1, s2, t, ingestKey, n);
    CleanAfter(t, ingestKey, n);
  }

  lemma DeliverStep(s: State, ingestKey: Key, n: Notice)
    requires 0 !in s.calls && n.TimedOut?
    ensures Step(s, ingestKey, Deliver(0, n))
         == s.(calls := s.calls[0 := MarkRejected(n)], delivered := s.delivered + {n})
  {
  }

  lemma RejectSteps(s0: State, s1: State, s2: State, t: State, ingestKey: Key, n: Notice)
    requires s0.calls == map[0 := MarkRejected(n)] && s0.scan.status.Pending? && s0.scan.attempt == SCAN_ATTEMPT
    requires s0.delivered == {n} && s0.handled == {} && !s0.stored
    requires s1 == Step(s0, ingestKey, Advance(0, true, ""))
    requires s2 == Step(s1, ingestKey, Advance(0, true, ""))
    requires t == Step(s2, ingestKey, Advance(0, true, ""))
    ensures t.calls == map[] && t.delivered == t.handled == {n} && !t.stored
    ensures t.status.DocFailed? && t.scan.status.Failed? && t.scan.attempt == SCAN_ATTEMPT
  {
    hide Transition, ReasonOf;
    RejectMarks(s0, ingestKey, n);
    assert s1.calls[0] == DeleteFile(n);
    assert s2 == Goto(s1, 0, FailDocument(n)).(file := false, deleted := true);
    assert s2.calls[0] == FailDocument(n);
    assert t == Finish(s2, 0, ForNotice(n)).(status := DocFailed);
  }

  lemma RejectMarks(s: State, ingestKey: Key, n: Notice)
    requires s.calls == map[0 := MarkRejected(n)] && s.scan.status.Pending? && s.scan.attempt == SCAN_ATTEMPT
    ensures Step(s, ingestKey, Advance(0, true, ""))
         == Goto(s, 0, DeleteFile(n)).(scan := s.scan.(status := Failed, lastError := ReasonOf(n)))
  {
    hide ReasonOf;
  }

  lemma CleanAfter(t: State, ingestKey: Key, n: Notice)
    requires t.calls == map[] && t.delivered == t.handled == {n} && n.TimedOut? && !t.stored
    requires t.status.DocFailed? && t.scan.status.Failed? && t.scan.attempt == SCAN_ATTEMPT
    ensures var u := Step(Step(t, ingestKey, StoreFile), ingestKey, Deliver(0, Clean(1)));
            var v := Step(u, ingestKey, Advance(0, true, ""));
            AllHandled(v) && v.late && v.file && v.status.DocFailed? && v.scan.status.Failed?
  {
    var u := Step(Step(t, ingestKey, StoreFile), ingestKey, Deliver(0, Clean(1)));
    assert u.calls[0] == MarkClean(Clean(1));
    var v := Step(u, ingestKey, Advance(0, true, ""));
    assert n in v.delivered;
  }

  // ----- How often processing is started

  function AttemptsOf(ingest: Option<Record>): int {
    if ingest.None? then 0 else ingest.value.attempt
  }

  /** A call records the ingestion job and finds none, or a finished one. */
  ghost predicate StartsAttempt(s: State, e: Event) {
    && e.Advance? && e.pid in s.calls && s.calls[e.pid].Enqueueing? && e.accepted
    && (s.ingest.None? || !s.ingest.value.status.Active())
  }

  /** Exactly such a step starts another attempt, on whoever's behalf, and it starts one. */
  lemma AttemptStarts(s: State, ingestKey: Key, e: Event)
    ensures AttemptsOf(Step(s, ingestKey, e).ingest) == AttemptsOf(s.ingest) + if StartsAttempt(s, e) then 1 else 0
  {
    hide ReasonOf, Transition;
    if e.Advance? && e.pid in s.calls {
      AdvanceAttempts(s, ingestKey, e);
    } else if e.PipelineReport? && s.ingest.Some? {
      ReportedAttempt(s.ingest.value, e.attempt, e.to, e.phase, e.why);
    }
  }

  lemma ReportedAttempt(rec: Record, attempt: int, to: Status, phase: string, why: string)
    ensures Reported(rec, attempt, to, phase, why).attempt == rec.attempt
  {
  }

  lemma AdvanceAttempts(s: State, ingestKey: Key, e: Event)
    requires e.Advance? && e.pid in s.calls
    ensures AttemptsOf(AdvanceCall(s, ingestKey, e.pid, e.accepted, e.reason).ingest)
         == AttemptsOf(s.ingest) + if StartsAttempt(s, e) then 1 else 0
  {
    hide AdvanceRetry, AdvancePublish, AdvanceNotice;
    var pc := s.calls[e.pid];
    if IsPublishStep(pc) {
      PublishAttempts(s, ingestKey, e);
    } else {
      OthersStartNone(s, e.pid, e.accepted);
    }
  }

  lemma PublishAttempts(s: State, ingestKey: Key, e: Event)
    requires e.Advance? && e.pid in s.calls && IsPublishStep(s.calls[e.pid])
    ensures AttemptsOf(AdvancePublish(s, ingestKey, e.pid, e.accepted, e.reason).ingest)
         == AttemptsOf(s.ingest) + if StartsAttempt(s, e) then 1 else 0
  {
    hide Reported;
    var pc := s.calls[e.pid];
    if pc.MarkingFailed? && s.ingest.Some? {
      ReportedAttempt(s.ingest.value, pc.attempt, Failed, "", pc.reason);
    }
  }

  lemma OthersStartNone(s: State, pid: nat, accepted: bool)
    requires pid in s.calls && !IsPublishStep(s.calls[pid])
    ensures IsRetryStep(s.calls[pid]) ==> AdvanceRetry(s, pid, accepted).ingest == s.ingest
    ensures !IsRetryStep(s.calls[pid]) ==> AdvanceNotice(s, pid).ingest == s.ingest
  {
    hide Transition, ReasonOf;
  }

  /** How many steps of the run start an attempt. */
  ghost function Starts(scanKey: Key, ingestKey: Key, events: seq<Event>): nat {
    if events == [] then 0
    else
      var init, e := events[..|events| - 1], events[|events| - 1];
      Starts(scanKey, ingestKey, init) + if StartsAttempt(Run(scanKey, ingestKey, init), e) then 1 else 0
  }

  /** In every run the attempt reached is the number of times processing was started. */
  lemma {:induction false} AttemptsCounted(scanKey: Key, ingestKey: Key, events: seq<Event>)
    ensures AttemptsOf(Run(scanKey, ingestKey, events).ingest) == Starts(scanKey, ingestKey, events)
  {
    hide Step, StartsAttempt;
    if events != [] {
      AttemptsCounted(scanKey, ingestKey, events[..|events| - 1]);
      AttemptStarts(Run(scanKey, ingestKey, events[..|events| - 1]), ingestKey, events[|events| - 1]);
    }
  }

  /**
   * A clean notice, delivered for the first time or again, starts another
   * attempt without any retry exactly if the scan has not failed and the
   * ingestion job is missing or finished.
   */
  lemma CleanStartsAnother(s: State, ingestKey: Key, pid: nat, n: Notice)
    requires Invariant(s) && s.stored && n.Clean? && pid !in s.calls
    ensures var go := Advance(pid, true, "");
            var t := Step(Step(Step(s, ingestKey, Deliver(pid, n)), ingestKey, go), ingestKey, go);
            AttemptsOf(t.ingest) == AttemptsOf(s.ingest) + 1
            <==> !s.scan.status.Failed? && (s.ingest.None? || !s.ingest.value.status.Active())
  {
    var go := Advance(pid, true, "");
    var a := Step(s, ingestKey, Deliver(pid, n));
    var b := Step(a, ingestKey, go);
    CleanMarked(s, ingestKey, pid, n);
    AttemptStarts(s, ingestKey, Deliver(pid, n));
    AttemptStarts(a, ingestKey, go);
    AttemptStarts(b, ingestKey, go);
  }

  lemma CleanMarked(s: State, ingestKey: Key, pid: nat, n: Notice)
    requires Invariant(s) && s.stored && n.Clean? && pid !in s.calls
    ensures var a := Step(s, ingestKey, Deliver(pid, n));
            var b := Step(a, ingestKey, Advance(pid, true, ""));
            && pid in a.calls && a.calls[pid].MarkClean? && b.ingest == a.ingest == s.ingest
            && (pid in b.calls <==> !s.scan.status.Failed?)
            && (pid in b.calls ==> b.calls[pid].Enqueueing?)
  {
    hide ReasonOf, HasClean;
    var a := Step(s, ingestKey, Deliver(pid, n));
    assert a.scan == s.scan && a.calls[pid] == MarkClean(n);
  }

  lemma AdvanceScan(s: State, ingestKey: Key, pid: nat, accepted: bool, reason: string)
    requires pid in s.calls && !s.scan.status.Active()
    ensures AdvanceCall(s, ingestKey, pid, accepted, reason).scan == s.scan
  {
    hide AdvanceRetry, AdvancePublish, AdvanceNotice;
    if IsRetryStep(s.calls[pid]) {
      RetryLeaves(s, pid, accepted);
    } else if IsPublishStep(s.calls[pid]) {
      PublishLeaves(s, ingestKey, pid, accepted, reason);
    } else {
      NoticeScan(s, pid);
    }
  }

  lemma NoticeScan(s: State, pid: nat)
    requires pid in s.calls && !IsRetryStep(s.calls[pid]) && !IsPublishStep(s.calls[pid])
    requires !s.scan.status.Active()
    ensures AdvanceNotice(s, pid).scan == s.scan
  {
    hide ReasonOf;
  }

  lemma StepScan(s: State, ingestKey: Key, e: Event)
    requires !s.scan.status.Active()
    ensures Step(s, ingestKey, e).scan == s.scan
  {
    if e.Advance? && e.pid in s.calls {
      AdvanceScan(s, ingestKey, e.pid, e.accepted, e.reason);
    }
  }

  // ----- Why a scan failed

  ghost predicate Gives(n: Notice, reason: string) {
    (n.Rejected? && reason == n.reason) || (n.TimedOut? && reason == TIMEOUT_REASON)
  }

  /** A failed scan carries the reason of a notice that was delivered. */
  ghost predicate Blamed(s: State) {
    s.scan.status.Failed? ==> exists n :: n in s.delivered && Gives(n, s.scan.lastError)
  }

  lemma RejectionBlames(s: State, pid: nat)
    requires pid in s.calls && s.calls[pid].MarkRejected? && !s.calls[pid].notice.Clean? && s.scan.status.Active()
    requires s.scan.attempt == SCAN_ATTEMPT
    ensures Gives(s.calls[pid].notice, AdvanceNotice(s, pid).scan.lastError)
  {
  }

  lemma BlameStep(s: State, ingestKey: Key, e: Event)
    requires Invariant(s) && Blamed(s)
    ensures Blamed(Step(s, ingestKey, e))
  {
    hide AdvanceRetry, AdvancePublish, AdvanceNotice, Gives, HasClean;
    var t := Step(s, ingestKey, e);
    forall n | n in s.delivered ensures n in t.delivered {
      DeliveredStep(s, ingestKey, e, n);
    }
    if !s.scan.status.Active() {
      StepScan(s, ingestKey, e);
    } else if e.Advance? && e.pid in s.calls {
      FailsByNotice(s, ingestKey, e.pid, e.accepted, e.reason);
      if t.scan.status.Failed? {
        Given(s, e.pid);
        RejectionBlames(s, e.pid);
      }
    }
  }

  /** In every run, a failed scan carries the finding of a rejection delivered, or says that it timed out. */
  lemma {:induction false} FailureExplained(scanKey: Key, ingestKey: Key, events: seq<Event>)
    ensures Blamed(Run(scanKey, ingestKey, events))
  {
    hide Blamed, Step;
    if events == [] {
      NothingBlamed(scanKey);
    } else {
      var init := events[..|events| - 1];
      FailureExplained(scanKey, ingestKey, init);
      RunKeeps(scanKey, ingestKey, init);
      BlameStep(Run(scanKey, ingestKey, init), ingestKey, events[|events| - 1]);
    }
  }

  lemma NothingBlamed(scanKey: Key)
    ensures Blamed(Start(scanKey))
  {
  }

  /** A finished scan stays finished as it was. */
  lemma {:induction false} ScanFrozen(scanKey: Key, ingestKey: Key, events: seq<Event>, later: seq<Event>)
    requires !Run(scanKey, ingestKey, events).scan.status.Active()
    ensures Run(scanKey, ingestKey, events + later).scan == Run(scanKey, ingestKey, events).scan
  {
    hide Step, Run;
    if later == [] {
      assert events + later == events;
    } else {
      var init, e := later[..|later| - 1], later[|later| - 1];
      ScanFrozen(scanKey, ingestKey, events, init);
      StepScan(Run(scanKey, ingestKey, events + init), ingestKey, e);
      RunSnoc(scanKey, ingestKey, events + init, e);
      assert events + later == events + init + [e];
    }
  }
}
