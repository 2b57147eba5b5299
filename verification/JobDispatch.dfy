/**
 * Publishing jobs under arbitrary interleaving: each publish records the job,
 * dispatches its new attempt and, if that fails, marks the attempt failed.
 * Any publish may crash between its steps, and progress reports on any
 * attempt may arrive at any time.
 */
module JobDispatch {
  import opened Wrappers
  import opened JobRuns
  import JS = JobStatus

  /** A document's job of one type; the owner is checked separately. */
  datatype RowKey = RowKey(document: DocumentId, jobType: JobType)

  datatype Row = Row(user: nat, status: JS.Status, phase: string, attempt: nat, lastError: string)

  /** Where a publish call has got to. */
  datatype Call =
    | Recording(key: RowKey, user: nat)
    | Dispatching(run: JobRun)
    | Refused(run: JobRun, reason: string)
    | Returned(ok: bool)

  /** dispatched lists every run handed to the execution target, in order. */
  datatype State = State(rows: map<RowKey, Row>, calls: map<nat, Call>, dispatched: seq<JobRun>)

  datatype Event =
    | Publish(pid: nat, key: RowKey, user: nat)
    | Advance(pid: nat, accepted: bool, reason: string)
    | Crash(pid: nat)
    | Report(key: RowKey, user: nat, attempt: nat, to: JS.Status, phase: string, reason: string)

  function RecordOf(key: RowKey, row: Row): JS.Record {
    JS.Record(JS.Key(row.user, key.document, TypeName(key.jobType)), row.status, row.phase, row.attempt, row.lastError)
  }

  /** The store's rule applied to one row. */
  function Transitioned(key: RowKey, row: Row, attempt: int, to: JS.Status, phase: string, reason: string): Row {
    var r := JS.Transition(RecordOf(key, row), attempt, to, phase, reason);
    if r.Ok? then row.(status := r.next.status, phase := r.next.phase, lastError := r.next.lastError) else row
  }

  function Enqueued(s: State, key: RowKey, user: nat): (Option<Row>, bool) {
    if key !in s.rows then (Some(Row(user, JS.Pending, "", 1, "")), true)
    else
      var row := s.rows[key];
      if row.user != user then (None, false)
      else
        var r := JS.Enqueue(Some(RecordOf(key, row)), RecordOf(key, row).key);
        if r.1.started then (Some(Row(user, JS.Pending, "", row.attempt + 1, "")), true) else (Some(row), false)
  }

  /** The rows follow the status store's rules: what they become is what its records become. */
  lemma RowsFollowRules(s: State, key: RowKey, user: nat, attempt: int, to: JS.Status, phase: string, reason: string)
    ensures var (row, started) := Enqueued(s, key, user);
            && (row.None? <==> key in s.rows && s.rows[key].user != user)
            && (row.Some? ==>
                  var cur := if key in s.rows then Some(RecordOf(key, s.rows[key])) else None;
                  var (rec, enqueued) := JS.Enqueue(cur, JS.Key(user, key.document, TypeName(key.jobType)));
                  RecordOf(key, row.value) == rec && started == enqueued.started)
    ensures key in s.rows ==>
              var r := JS.Transition(RecordOf(key, s.rows[key]), attempt, to, phase, reason);
              RecordOf(key, Transitioned(key, s.rows[key], attempt, to, phase, reason))
              == if r.Ok? then r.next else RecordOf(key, s.rows[key])
  {
  }

  function Step(s: State, e: Event): State {
    match e
    case Publish(pid, key, user) =>
      if pid in s.calls then s else s.(calls := s.calls[pid := Recording(key, user)])
    case Advance(pid, accepted, reason) => if pid in s.calls then AdvanceCall(s, pid, accepted, reason) else s
    case Crash(pid) => if pid in s.calls then s.(calls := s.calls[pid := Returned(false)]) else s
    case Report(key, user, attempt, to, phase, reason) =>
      if key !in s.rows || s.rows[key].user != user then s
      else s.(rows := s.rows[key := Transitioned(key, s.rows[key], attempt, to, phase, reason)])
  }

  /** accepted is false when the job store or the target answers with an error. */
  function AdvanceCall(s: State, pid: nat, accepted: bool, reason: string): State
    requires pid in s.calls
  {
    match s.calls[pid]
    case Recording(key, user) =>
      var (row, started) := Enqueued(s, key, user);
      if row.None? || !accepted then s.(calls := s.calls[pid := Returned(false)])
      else if !started then s.(calls := s.calls[pid := Returned(true)])
      else s.(rows := s.rows[key := row.value],
              calls := s.calls[pid := Dispatching(JobRun(key.jobType, key.document, user, row.value.attempt))])
    case Dispatching(run) =>
      s.(dispatched := s.dispatched + [run],
         calls := s.calls[pid := if accepted then Returned(true) else Refused(run, reason)])
    case Refused(run, why) =>
      var key := RowKey(run.document, run.jobType);
      s.(rows := if accepted && key in s.rows && s.rows[key].user == run.user
                 then s.rows[key := Transitioned(key, s.rows[key], run.attempt, JS.Failed, "", why)]
                 else s.rows,
         calls := s.calls[pid := Returned(false)])
    case Returned(_) => s
  }

  const Start := State(map[], map[], [])

  function Run(events: seq<Event>): State {
    if events == [] then Start else Step(Run(events[..|events| - 1]), events[|events| - 1])
  }

  // ----- Safety

  /** The run was started: its job's row has reached its attempt. */
  ghost predicate Issued(s: State, run: JobRun) {
    var key := RowKey(run.document, run.jobType);
    key in s.rows && 1 <= run.attempt <= s.rows[key].attempt && run.user == s.rows[key].user
  }

  ghost predicate SameJob(r: JobRun, q: JobRun) {
    r.jobType == q.jobType && r.document == q.document && r.attempt == q.attempt
  }

  ghost predicate Invariant(s: State) {
    && (forall i | 0 <= i < |s.dispatched| :: Issued(s, s.dispatched[i]))
    && (forall i, j | 0 <= i < j < |s.dispatched| :: !SameJob(s.dispatched[i], s.dispatched[j]))
    && (forall p | p in s.calls && s.calls[p].Dispatching? :: Issued(s, s.calls[p].run))
    && (forall p, i | p in s.calls && s.calls[p].Dispatching? && 0 <= i < |s.dispatched| ::
          !SameJob(s.calls[p].run, s.dispatched[i]))
    && (forall p, q | p in s.calls && q in s.calls && p != q && s.calls[p].Dispatching? && s.calls[q].Dispatching? ::
          !SameJob(s.calls[p].run, s.calls[q].run))
  }

  /** Rows only move forward. */
  ghost predicate Forward(s: State, t: State) {
    forall key | key in s.rows ::
      key in t.rows && t.rows[key].user == s.rows[key].user && t.rows[key].attempt >= s.rows[key].attempt
  }

  lemma StepForward(s: State, e: Event)
    ensures Forward(s, Step(s, e))
  {
  }

  lemma IssuedStays(s: State, t: State, run: JobRun)
    requires Forward(s, t) && Issued(s, run)
    ensures Issued(t, run)
  {
  }

  /** A freshly enqueued attempt is one no earlier run had. */
  lemma EnqueueFresh(s: State, key: RowKey, user: nat, run: JobRun)
    requires Issued(s, run) && Enqueued(s, key, user).1
    ensures !SameJob(run, JobRun(key.jobType, key.document, user, Enqueued(s, key, user).0.value.attempt))
  {
  }

  lemma RecordingKeeps(s: State, pid: nat, accepted: bool, reason: string)
    requires Invariant(s) && pid in s.calls && s.calls[pid].Recording?
    ensures Invariant(AdvanceCall(s, pid, accepted, reason))
  {
    hide Issued, SameJob, Enqueued;
    var t := AdvanceCall(s, pid, accepted, reason);
    var key, user := s.calls[pid].key, s.calls[pid].user;
    StepForward(s, Advance(pid, accepted, reason));
    forall run | Issued(s, run) ensures Issued(t, run) {
      IssuedStays(s, t, run);
    }
    if accepted && Enqueued(s, key, user).1 {
      EnqueuedOwner(s, key, user);
      NewlyIssued(s, pid, reason);
      forall run | Issued(s, run) ensures !SameJob(run, t.calls[pid].run) && !SameJob(t.calls[pid].run, run) {
        EnqueueFresh(s, key, user, run);
        SameJobSymmetric(run, t.calls[pid].run);
      }
    }
  }

  lemma NewlyIssued(s: State, pid: nat, reason: string)
    requires pid in s.calls && s.calls[pid].Recording?
    requires Enqueued(s, s.calls[pid].key, s.calls[pid].user).1
    ensures var t := AdvanceCall(s, pid, true, reason);
            pid in t.calls && t.calls[pid].Dispatching? && Issued(t, t.calls[pid].run)
  {
    hide Enqueued;
    var key, user := s.calls[pid].key, s.calls[pid].user;
    EnqueuedOwner(s, key, user);
    var t := AdvanceCall(s, pid, true, reason);
    var row := Enqueued(s, key, user).0.value;
    assert t.calls[pid].run == JobRun(key.jobType, key.document, user, row.attempt);
    assert RowKey(t.calls[pid].run.document, t.calls[pid].run.jobType) == key;
    assert t.rows[key] == row;
  }

  lemma SameJobSymmetric(r: JobRun, q: JobRun)
    ensures SameJob(r, q) <==> SameJob(q, r)
  {
  }

  /** Any other step hands on at most what was about to be handed on. */
  lemma OthersKeep(s: State, e: Event)
    requires Invariant(s)
    requires !(e.Advance? && e.pid in s.calls && (s.calls[e.pid].Recording? || s.calls[e.pid].Dispatching?))
    ensures Invariant(Step(s, e))
  {
    hide Issued, SameJob, Transitioned, Enqueued;
    var t := Step(s, e);
    StepForward(s, e);
    forall run | Issued(s, run) ensures Issued(t, run) {
      IssuedStays(s, t, run);
    }
    OthersHandNothing(s, e);
  }

  lemma OthersHandNothing(s: State, e: Event)
    requires !(e.Advance? && e.pid in s.calls && (s.calls[e.pid].Recording? || s.calls[e.pid].Dispatching?))
    ensures Step(s, e).dispatched == s.dispatched
    ensures forall p | p in Step(s, e).calls && Step(s, e).calls[p].Dispatching? ::
              p in s.calls && s.calls[p] == Step(s, e).calls[p]
  {
    hide Transitioned;
  }

  lemma HandKeeps(s: State, pid: nat, accepted: bool, reason: string)
    requires Invariant(s) && pid in s.calls && s.calls[pid].Dispatching?
    ensures Invariant(AdvanceCall(s, pid, accepted, reason))
  {
    hide SameJob, Transitioned, Enqueued;
    var t := AdvanceCall(s, pid, accepted, reason);
    assert t.rows == s.rows && t.dispatched == s.dispatched + [s.calls[pid].run];
    forall i | 0 <= i < |s.dispatched| ensures !SameJob(s.dispatched[i], s.calls[pid].run) {
      SameJobSymmetric(s.dispatched[i], s.calls[pid].run);
    }
  }

  lemma StepKeeps(s: State, e: Event)
    requires Invariant(s)
    ensures Invariant(Step(s, e))
  {
    hide Invariant, AdvanceCall;
    if e.Advance? && e.pid in s.calls && s.calls[e.pid].Recording? {
      RecordingKeeps(s, e.pid, e.accepted, e.reason);
    } else if e.Advance? && e.pid in s.calls && s.calls[e.pid].Dispatching? {
      HandKeeps(s, e.pid, e.accepted, e.reason);
    } else {
      OthersKeep(s, e);
    }
  }

  lemma {:induction false} RunKeeps(events: seq<Event>)
    ensures Invariant(Run(events))
  {
    if events != [] {
      RunKeeps(events[..|events| - 1]);
      StepKeeps(Run(events[..|events| - 1]), events[|events| - 1]);
    }
  }

  lemma StepFollows(s: State, e: Event, key: RowKey)
    requires key in s.rows
    ensures key in Step(s, e).rows && JS.Follows(RecordOf(key, s.rows[key]), RecordOf(key, Step(s, e).rows[key]))
  {
  }

  lemma RunSnoc(events: seq<Event>, e: Event)
    ensures Run(events + [e]) == Step(Run(events), e)
  {
    assert (events + [e])[..|events|] == events;
  }

  /** Whatever happens later, no job goes back an attempt, and a finished attempt keeps its outcome and reason. */
  lemma {:induction false} RunFollows(events: seq<Event>, later: seq<Event>, key: RowKey)
    requires key in Run(events).rows
    ensures key in Run(events + later).rows
    ensures JS.Follows(RecordOf(key, Run(events).rows[key]), RecordOf(key, Run(events + later).rows[key]))
  {
    if later == [] {
      assert events + later == events;
    } else {
      hide Step, Run, JS.Follows, RecordOf;
      var init, e := later[..|later| - 1], later[|later| - 1];
      RunFollows(events, init, key);
      RunSnoc(events + init, e);
      assert events + later == events + init + [e];
      StepFollows(Run(events + init), e, key);
      JS.FollowsTransitive(RecordOf(key, Run(events).rows[key]), RecordOf(key, Run(events + init).rows[key]),
                           RecordOf(key, Run(events + later).rows[key]));
    }
  }

  /**
   * However publishes, crashes and reports interleave, each attempt of each
   * job is dispatched at most once, and no two dispatched runs share an
   * execution name.
   */
  lemma DispatchedOnce(events: seq<Event>, i: nat, j: nat)
    requires i < j < |Run(events).dispatched|
    ensures var d := Run(events).dispatched;
            !SameJob(d[i], d[j]) && ExecutionName(d[i]) != ExecutionName(d[j])
  {
    RunKeeps(events);
    var d := Run(events).dispatched;
    assert !SameJob(d[i], d[j]);
    if ExecutionName(d[i]) == ExecutionName(d[j]) {
      ExecutionNameInjective(d[i], d[j]);
    }
  }

  // ----- A publish that runs undisturbed

  /** What a publish meets with: a job store that works when it records and when it marks, and the target's answer. */
  datatype World = World(records: bool, accepted: bool, marks: bool, reason: string)

  /** A publish with call id pid and nothing else happening until it returns. */
  function Published(s: State, pid: nat, key: RowKey, user: nat, w: World): State {
    var a := Step(s, Publish(pid, key, user));
    var b := Step(a, Advance(pid, w.records, ""));
    var c := Step(b, Advance(pid, w.accepted, w.reason));
    Step(c, Advance(pid, w.marks, ""))
  }

  /** What a publish that runs undisturbed comes to. */
  function Outcome(s: State, pid: nat, key: RowKey, user: nat, w: World): State {
    var (row, started) := Enqueued(s, key, user);
    if row.None? || !w.records then s.(calls := s.calls[pid := Returned(false)])
    else if !started then s.(calls := s.calls[pid := Returned(true)])
    else
      s.(rows := s.rows[key := if w.accepted || !w.marks then row.value
                               else Transitioned(key, row.value, row.value.attempt, JS.Failed, "", w.reason)],
         calls := s.calls[pid := Returned(w.accepted)],
         dispatched := s.dispatched + [JobRun(key.jobType, key.document, user, row.value.attempt)])
  }

  lemma PublishedOutcome(s: State, pid: nat, key: RowKey, user: nat, w: World)
    requires pid !in s.calls
    ensures Published(s, pid, key, user, w) == Outcome(s, pid, key, user, w)
  {
    hide Enqueued, Transitioned;
    EnqueuedOwner(s, key, user);
    var a := Step(s, Publish(pid, key, user));
    assert a == s.(calls := s.calls[pid := Recording(key, user)]);
    EnqueuedSame(s, a, key, user);
    var b := Step(a, Advance(pid, w.records, ""));
    if w.records && Enqueued(s, key, user).1 {
      PublishedTail(s, pid, key, user, w, b);
    }
  }

  lemma EnqueuedSame(s: State, t: State, key: RowKey, user: nat)
    requires s.rows == t.rows
    ensures Enqueued(s, key, user) == Enqueued(t, key, user)
  {
  }

  lemma EnqueuedOwner(s: State, key: RowKey, user: nat)
    ensures var r := Enqueued(s, key, user);
            (r.0.Some? ==> r.0.value.user == user) && (r.1 ==> r.0.Some? && r.0.value.attempt >= 1)
  {
  }

  lemma PublishedTail(s: State, pid: nat, key: RowKey, user: nat, w: World, b: State)
    requires w.records && Enqueued(s, key, user).1 && Enqueued(s, key, user).0.Some?
    requires Enqueued(s, key, user).0.value.user == user
    requires var row := Enqueued(s, key, user).0.value;
             b == s.(rows := s.rows[key := row],
                     calls := s.calls[pid := Dispatching(JobRun(key.jobType, key.document, user, row.attempt))])
    ensures Step(Step(b, Advance(pid, w.accepted, w.reason)), Advance(pid, w.marks, ""))
            == Outcome(s, pid, key, user, w)
  {
    hide Enqueued, Transitioned;
    var row := Enqueued(s, key, user).0.value;
    var run := JobRun(key.jobType, key.document, user, row.attempt);
    var c := Step(b, Advance(pid, w.accepted, w.reason));
    assert c.rows == b.rows && c.dispatched == s.dispatched + [run];
    assert c.calls == s.calls[pid := if w.accepted then Returned(true) else Refused(run, w.reason)];
    assert RowKey(run.document, run.jobType) == key;
  }

  /**
   * An attempt whose dispatch is refused ends failed with that reason exactly
   * if the job store works when it is marked; then the next publish starts
   * the next attempt. Otherwise it stays pending, and the next publish does
   * nothing.
   */
  lemma RefusedCanRetry(s: State, pid: nat, again: nat, key: RowKey, user: nat, w: World, later: string)
    requires pid !in s.calls && again !in s.calls && pid != again
    requires Enqueued(s, key, user).1 && w.records && !w.accepted
    ensures var t := Published(s, pid, key, user, w);
            var u := Published(t, again, key, user, World(true, true, true, later));
            && key in t.rows
            && (w.marks <==> t.rows[key].status == JS.Failed)
            && (w.marks ==> t.rows[key].lastError == w.reason)
            && u.dispatched == s.dispatched + [JobRun(key.jobType, key.document, user, t.rows[key].attempt)]
                               + (if w.marks
                                  then [JobRun(key.jobType, key.document, user, t.rows[key].attempt + 1)] else [])
  {
    hide Published;
    PublishedOutcome(s, pid, key, user, w);
    var t := Published(s, pid, key, user, w);
    EnqueuedOwner(s, key, user);
    PublishedOutcome(t, again, key, user, World(true, true, true, later));
  }

  class Publisher {
    var rows: map<RowKey, Row>
    var dispatched: seq<JobRun>

    ghost function Idle(): State
      reads this
    {
      State(rows, map[], dispatched)
    }

    constructor ()
      ensures Idle() == Start
    {
      rows, dispatched := map[], [];
    }

    method RecordJob(key: RowKey, user: nat) returns (found: bool, started: bool, attempt: nat)
      modifies this`rows
      ensures var r := Enqueued(old(Idle()), key, user);
              && found == r.0.Some? && started == r.1
              && (started ==> attempt == r.0.value.attempt && rows == old(rows)[key := r.0.value])
              && (!started ==> rows == old(rows))
    {
      if key !in rows {
        rows := rows[key := Row(user, JS.Pending, "", 1, "")];
        return true, true, 1;
      }
      if rows[key].user != user {
        return false, false, 0;
      }
      if rows[key].status.Active() {
        return true, false, rows[key].attempt;
      }
      attempt := rows[key].attempt + 1;
      rows := rows[key := Row(user, JS.Pending, "", attempt, "")];
      return true, true, attempt;
    }

    /** Records the job and, unless it is active already, dispatches its new attempt; a refused one is marked failed. */
    method PublishJob(key: RowKey, user: nat, w: World) returns (ok: bool)
      modifies this
      ensures Idle().(calls := map[0 := Returned(ok)]) == Published(old(Idle()), 0, key, user, w)
    {
      hide Published, Enqueued, Transitioned;
      PublishedOutcome(Idle(), 0, key, user, w);
      EnqueuedOwner(Idle(), key, user);
      if !w.records {
        return false;
      }
      var found, started, attempt := RecordJob(key, user);
      if !found {
        return false;
      }
      if !started {
        return true;
      }
      dispatched := dispatched + [JobRun(key.jobType, key.document, user, attempt)];
      if !w.accepted && w.marks {
        rows := rows[key := Transitioned(key, rows[key], attempt, JS.Failed, "", w.reason)];
      }
      return w.accepted;
    }
  }
}
