/** The state rules of a background job: how it is enqueued and how its attempts progress. */
module JobStatus {
  import opened Wrappers

  datatype Status = Pending | Processing | Succeeded | Failed {
    predicate Active() {
      Pending? || Processing?
    }
  }

  datatype Error = NotFound | AttemptSuperseded | NotActive | InvalidTransition

  datatype Key = Key(user: nat, document: string, jobType: string)

  datatype Record = Record(key: Key, status: Status, phase: string, attempt: int, lastError: string)

  datatype Enqueued = Enqueued(attempt: int, started: bool)

  function Enqueue(cur: Option<Record>, key: Key): (Record, Enqueued) {
    match cur
    case None => (Record(key, Pending, "", 1, ""), Enqueued(1, true))
    case Some(rec) =>
      if rec.status.Active() then (rec, Enqueued(rec.attempt, false))
      else (Record(rec.key, Pending, "", rec.attempt + 1, ""), Enqueued(rec.attempt + 1, true))
  }

  datatype Outcome = Ok(next: Record, changed: bool) | Err(error: Error)

  function Transition(cur: Record, attempt: int, to: Status, phase: string, reason: string): Outcome {
    if attempt != cur.attempt then Err(AttemptSuperseded)
    else if to.Pending? then Err(InvalidTransition)
    else if !cur.status.Active() then
      if cur.status == to then Ok(cur, false) else Err(NotActive)
    else
      var next := match to
        case Processing => cur.(status := to, phase := if phase != "" then phase else cur.phase)
        case Succeeded => cur.(status := to, phase := "", lastError := "")
        case _ => cur.(status := to, lastError := reason);
      Ok(next, next != cur)
  }

  /** Exactly when enqueueing starts an attempt, and with what record: pending, and nothing left of the one before. */
  lemma EnqueueStarts(cur: Option<Record>, key: Key)
    ensures var (rec, r) := Enqueue(cur, key);
            && r.attempt == rec.attempt
            && (r.started <==> cur.None? || cur.value.status.Succeeded? || cur.value.status.Failed?)
            && (!r.started ==> cur == Some(rec))
            && (r.started ==> rec.status.Pending? && rec.phase == rec.lastError == "")
            && (r.started ==> rec.key == (if cur.None? then key else cur.value.key))
            && (r.started ==> rec.attempt == (if cur.None? then 1 else cur.value.attempt + 1))
  {
  }

  // ----- One job's life

  /** A store step on one job: a publish's enqueue, or a report on behalf of some attempt. */
  datatype Step = Publish | Report(attempt: int, to: Status, phase: string, reason: string)

  function Next(cur: Option<Record>, key: Key, step: Step): Option<Record> {
    match step
    case Publish => Some(Enqueue(cur, key).0)
    case Report(attempt, to, phase, reason) =>
      if cur.None? then None
      else
        var r := Transition(cur.value, attempt, to, phase, reason);
        if r.Ok? then Some(r.next) else cur
  }

  /** The record after each of the steps, in any order they interleave. */
  function After(key: Key, steps: seq<Step>): Option<Record> {
    if steps == [] then None else Next(After(key, steps[..|steps| - 1]), key, steps[|steps| - 1])
  }

  /** The attempts started so far, oldest first. */
  function Started(key: Key, steps: seq<Step>): seq<int> {
    if steps == [] then []
    else
      var init, cur := steps[..|steps| - 1], After(key, steps[..|steps| - 1]);
      if steps[|steps| - 1].Publish? && Enqueue(cur, key).1.started
      then Started(key, init) + [Enqueue(cur, key).1.attempt]
      else Started(key, init)
  }

  /** Attempts started are 1, 2, 3 and so on; the record is always of the newest, and carries no error while active. */
  lemma {:induction false} AttemptsCountUp(key: Key, steps: seq<Step>)
    ensures var rec, started := After(key, steps), Started(key, steps);
            && (forall i | 0 <= i < |started| :: started[i] == i + 1)
            && (rec.None? <==> started == [])
            && (rec.Some? ==> rec.value.attempt == |started| && rec.value.key == key)
            && (rec.Some? && rec.value.status.Active() ==> rec.value.lastError == "")
  {
    if steps != [] {
      AttemptsCountUp(key, steps[..|steps| - 1]);
    }
  }

  /** From an earlier record to a later one: attempts never go back, and a finished attempt is never touched again. */
  ghost predicate Follows(earlier: Record, later: Record) {
    && earlier.attempt <= later.attempt
    && (earlier.attempt == later.attempt && !earlier.status.Active() ==> later == earlier)
  }

  lemma StepFollows(cur: Record, step: Step)
    ensures Next(Some(cur), cur.key, step).Some? && Follows(cur, Next(Some(cur), cur.key, step).value)
  {
  }

  lemma FollowsTransitive(a: Record, b: Record, c: Record)
    requires Follows(a, b) && Follows(b, c)
    ensures Follows(a, c)
  {
  }

  /**
   * Once an attempt has finished, its outcome, reason and phase stay what
   * they were for as long as it is the current one, whatever is published
   * or reported afterwards.
   */
  lemma {:induction false} OutcomeFrozen(key: Key, steps: seq<Step>, later: seq<Step>)
    requires After(key, steps).Some?
    ensures After(key, steps + later).Some? && Follows(After(key, steps).value, After(key, steps + later).value)
  {
    if later == [] {
      assert steps + later == steps;
    } else {
      var init, step := later[..|later| - 1], later[|later| - 1];
      OutcomeFrozen(key, steps, init);
      assert (steps + later)[..|steps + later| - 1] == steps + init;
      AttemptsCountUp(key, steps + init);
      var mid := After(key, steps + init).value;
      StepFollows(mid, step);
      FollowsTransitive(After(key, steps).value, mid, After(key, steps + later).value);
    }
  }

  /** A report on any attempt but the current one changes nothing. */
  lemma SupersededChangesNothing(cur: Record, step: Step)
    requires step.Report? && step.attempt != cur.attempt
    ensures Next(Some(cur), cur.key, step) == Some(cur)
    ensures Transition(cur, step.attempt, step.to, step.phase, step.reason) == Err(AttemptSuperseded)
  {
  }

  /**
   * Exactly when a report is accepted, exactly when it changes the record,
   * and what of the record it leaves: a phase reported while processing
   * replaces the one before, success clears it, and anything else keeps it.
   */
  lemma TransitionAccepts(cur: Record, attempt: int, to: Status, phase: string, reason: string)
    requires cur.status.Active() ==> cur.lastError == ""
    ensures var r := Transition(cur, attempt, to, phase, reason);
            && (r.Ok? <==> attempt == cur.attempt && !to.Pending? && (cur.status.Active() || cur.status == to))
            && (r.Ok? ==> (r.changed <==> r.next != cur) && r.next.status == to)
            && (r.Ok? ==> r.next.key == cur.key && r.next.attempt == cur.attempt)
            && (r.Ok? && r.changed ==> cur.status.Active() && (to.Processing? || !r.next.status.Active()))
            && (r.Ok? && cur.status.Active() && to.Processing? ==> r.next.phase == phase || phase == "")
            && (r.Ok? && cur.status.Active() && to.Succeeded? ==> r.next.phase == "" && r.next.lastError == "")
            && (r.Ok? && cur.status.Active() && to.Failed? ==> r.next.lastError == reason)
            && (r.Ok? && (to.Failed? || (to.Processing? && phase == "")) ==> r.next.phase == cur.phase)
            && (r.Ok? ==> (r.next.status.Active() ==> r.next.lastError == ""))
  {
  }
}
