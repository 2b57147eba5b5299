/** Alias resolution: fuzzy candidates put to a judge, confirmed pairs merged. */
module AliasResolution {
  import opened Wrappers
  import opened SetSums
  import opened CanonicalModel
  import opened CanonicalRuns
  import opened CanonicalRepository
  import opened AliasMerges

  /** What the judge says of a batch of candidates: an error, or a verdict list of any length. */
  datatype Reply = Failed | Verdicts(verdicts: seq<bool>)

  /** The judge's reply to its n-th question. It may answer anything, and differently each time. */
  type Judge = (nat, string, string, seq<string>) -> Reply

  /**
   * Whether the candidate survives a confirmed merge: more mentions first,
   * then the earlier creation, then the smaller id.
   */
  function CandidateSurvives(ceMentions: int, ceCreatedAt: int, ceId: Uuid,
                             candMentions: int, candCreatedAt: int, candId: Uuid): bool
  {
    if candMentions != ceMentions then candMentions > ceMentions
    else if candCreatedAt != ceCreatedAt then candCreatedAt < ceCreatedAt
    else candId < ceId
  }

  /** Of two different rows exactly one survives, whichever is asked about first. */
  lemma SurvivorDecided(m1: int, t1: int, i1: Uuid, m2: int, t2: int, i2: Uuid)
    requires i1 != i2
    ensures CandidateSurvives(m1, t1, i1, m2, t2, i2) <==> !CandidateSurvives(m2, t2, i2, m1, t1, i1)
  {
  }

  function Texts(cands: seq<AliasCandidate>): (r: seq<string>)
    ensures |r| == |cands| && forall i | 0 <= i < |cands| :: r[i] == cands[i].normalized
  {
    seq(|cands|, i requires 0 <= i < |cands| => cands[i].normalized)
  }

  /** The merge of a confirmed pair, decided on the counts read before the round's merges. */
  function EntryFor(ceId: Uuid, ce: Row, cand: AliasCandidate): Entry {
    if CandidateSurvives(ce.mentions, ce.createdAt, ceId, cand.mentions, cand.createdAt, cand.id)
    then Entry(ceId, cand.id) else Entry(cand.id, ceId)
  }

  predicate Confirmed(verdicts: seq<bool>, i: nat) {
    i < |verdicts| && verdicts[i]
  }

  /** The merges of the first k candidates: each confirmed one, until ce itself is merged away. */
  ghost function RoundLog(ceId: Uuid, ce: Row, cands: seq<AliasCandidate>, verdicts: seq<bool>, k: nat): seq<Entry>
    requires k <= |cands|
  {
    if k == 0 then []
    else
      var before := RoundLog(ceId, ce, cands, verdicts, k - 1);
      if Gone(before, ceId) || !Confirmed(verdicts, k - 1) then before
      else before + [EntryFor(ceId, ce, cands[k - 1])]
  }

  /** The last merge of the round took ce itself. */
  ghost predicate Gone(log: seq<Entry>, ceId: Uuid) {
    log != [] && log[|log| - 1].from == ceId
  }

  /** One id's turn: the candidates found, the judge's reply, and the merges made. */
  datatype Round = Round(asked: bool, question: nat, cands: seq<AliasCandidate>, reply: Reply, log: seq<Entry>)

  ghost predicate IsRound(s: Store, user: Uuid, kb: Uuid, id: Uuid, judge: Judge, n: nat, r: Round) {
    if !Owns(s, user, id) then !r.asked && r.log == []
    else
      var key := s.rows[id].identity;
      && IsEnumeration(r.cands, s.rows, user, kb, key.normalized, key.kind, id)
      && (r.asked <==> r.cands != [])
      && (r.asked ==> r.question == n && r.reply == judge(n, key.kind, key.normalized, Texts(r.cands)))
      && r.log == if r.asked && r.reply.Verdicts?
                  then RoundLog(id, s.rows[id], r.cands, r.reply.verdicts, |r.cands|) else []
  }

  ghost function Logs(rounds: seq<Round>): seq<Entry> {
    if rounds == [] then [] else Logs(rounds[..|rounds| - 1]) + rounds[|rounds| - 1].log
  }

  ghost function Questions(rounds: seq<Round>): nat {
    if rounds == [] then 0
    else Questions(rounds[..|rounds| - 1]) + if rounds[|rounds| - 1].asked then 1 else 0
  }

  /** Rounds for the first ids, each starting from the store the earlier ones left. */
  ghost predicate IsRun(s: Store, user: Uuid, kb: Uuid, ids: seq<Uuid>, judge: Judge, n: nat, rounds: seq<Round>) {
    |rounds| <= |ids| &&
    (rounds == [] ||
     (var init, k := rounds[..|rounds| - 1], |rounds| - 1;
      && IsRun(s, user, kb, ids, judge, n, init)
      && IsRound(ApplyLog(s, user, Logs(init)), user, kb, ids[k], judge, n + Questions(init), rounds[k])))
  }

  lemma RunSnoc(s: Store, user: Uuid, kb: Uuid, ids: seq<Uuid>, judge: Judge, n: nat, rounds: seq<Round>, r: Round)
    requires IsRun(s, user, kb, ids, judge, n, rounds) && |rounds| < |ids|
    requires IsRound(ApplyLog(s, user, Logs(rounds)), user, kb, ids[|rounds|], judge, n + Questions(rounds), r)
    ensures IsRun(s, user, kb, ids, judge, n, rounds + [r])
    ensures Logs(rounds + [r]) == Logs(rounds) + r.log
    ensures Questions(rounds + [r]) == Questions(rounds) + if r.asked then 1 else 0
  {
    hide IsRound, ApplyLog;
    assert (rounds + [r])[..|rounds|] == rounds;
  }

  // ----- Which merges a round makes, told by the rows as it read them

  /** The row kept has more mentions; or as many and was not created later; or both tie and its id is smaller. */
  ghost predicate KeepsRight(rows: map<Uuid, Row>, e: Entry) {
    && e.from in rows && e.to in rows && e.from != e.to
    && var f, t := rows[e.from], rows[e.to];
       && t.mentions >= f.mentions
       && (t.mentions == f.mentions ==> t.createdAt <= f.createdAt)
       && (t.mentions == f.mentions && t.createdAt == f.createdAt ==> e.to < e.from)
  }

  ghost predicate Joins(e: Entry, x: Uuid, y: Uuid) {
    (e.from == x && e.to == y) || (e.from == y && e.to == x)
  }

  /**
   * The merges join ce with its candidates at the given positions, in order:
   * every confirmed one, up to the one ce itself is merged into, if any.
   */
  ghost predicate RoundAt(ceId: Uuid, cands: seq<AliasCandidate>, verdicts: seq<bool>, log: seq<Entry>, k: nat,
                          at: seq<nat>)
    requires k <= |cands|
  {
    && |at| == |log|
    && (forall i, j | 0 <= i < j < |at| :: at[i] < at[j])
    && (forall j | 0 <= j < |at| ::
          && at[j] < k && at[j] < |verdicts| && verdicts[at[j]]
          && Joins(log[j], ceId, cands[at[j]].id))
    && (forall j | 0 <= j < |at| - 1 :: log[j].from != ceId)
    && (forall i: nat | i < k && i < |verdicts| && verdicts[i] && i !in at ::
          at != [] && log[|at| - 1].from == ceId && at[|at| - 1] < i)
  }

  /** A turn's merges are those the verdicts ask for, and each keeps the right one of its two rows. */
  ghost predicate RightRound(rows: map<Uuid, Row>, ceId: Uuid, cands: seq<AliasCandidate>, verdicts: seq<bool>,
                             log: seq<Entry>)
  {
    && (exists at :: RoundAt(ceId, cands, verdicts, log, |cands|, at))
    && forall j | 0 <= j < |log| :: KeepsRight(rows, log[j])
  }

  lemma EntryRight(rows: map<Uuid, Row>, user: Uuid, kb: Uuid, ceId: Uuid, cands: seq<AliasCandidate>, k: nat)
    requires ceId in rows && k < |cands|
    requires IsEnumeration(cands, rows, user, kb, rows[ceId].identity.normalized, rows[ceId].identity.kind, ceId)
    ensures var e := EntryFor(ceId, rows[ceId], cands[k]);
            KeepsRight(rows, e) && Joins(e, ceId, cands[k].id)
  {
    assert IsCandidate(rows, user, kb, rows[ceId].identity.normalized, rows[ceId].identity.kind, ceId, cands[k].id);
    assert cands[k] == CandidateOf(cands[k].id, rows[cands[k].id]);
  }

  lemma {:induction false} RoundAtLog(ceId: Uuid, ce: Row, cands: seq<AliasCandidate>, verdicts: seq<bool>, k: nat)
    returns (at: seq<nat>)
    requires k <= |cands|
    requires forall i | 0 <= i < |cands| :: Joins(EntryFor(ceId, ce, cands[i]), ceId, cands[i].id)
    ensures RoundAt(ceId, cands, verdicts, RoundLog(ceId, ce, cands, verdicts, k), k, at)
  {
    hide RoundLog, Confirmed, EntryFor, Joins, RoundAt, Gone;
    if k == 0 {
      at := [];
      RoundStart(ceId, ce, cands, verdicts);
      RoundAtNone(ceId, cands, verdicts);
    } else {
      at := RoundAtLog(ceId, ce, cands, verdicts, k - 1);
      var log := RoundLog(ceId, ce, cands, verdicts, k - 1);
      RoundStep(ceId, ce, cands, verdicts, k - 1);
      if Gone(log, ceId) || !Confirmed(verdicts, k - 1) {
        RoundAtSkip(ceId, cands, verdicts, log, k - 1, at);
      } else {
        RoundAtMore(ceId, cands, verdicts, log, k - 1, at, EntryFor(ceId, ce, cands[k - 1]));
        at := at + [k - 1];
      }
    }
  }

  lemma RoundAtNone(ceId: Uuid, cands: seq<AliasCandidate>, verdicts: seq<bool>)
    ensures RoundAt(ceId, cands, verdicts, [], 0, [])
  {
  }

  lemma RoundAtSkip(ceId: Uuid, cands: seq<AliasCandidate>, verdicts: seq<bool>, log: seq<Entry>, k: nat,
                    at: seq<nat>)
    requires k < |cands| && RoundAt(ceId, cands, verdicts, log, k, at)
    requires Gone(log, ceId) || !Confirmed(verdicts, k)
    ensures RoundAt(ceId, cands, verdicts, log, k + 1, at)
  {
    hide Joins;
  }

  lemma RoundAtMore(ceId: Uuid, cands: seq<AliasCandidate>, verdicts: seq<bool>, log: seq<Entry>, k: nat,
                    at: seq<nat>, e: Entry)
    requires k < |cands| && RoundAt(ceId, cands, verdicts, log, k, at)
    requires !Gone(log, ceId) && Confirmed(verdicts, k) && Joins(e, ceId, cands[k].id)
    ensures RoundAt(ceId, cands, verdicts, log + [e], k + 1, at + [k])
  {
    hide Joins;
    var at', log' := at + [k], log + [e];
    assert at'[|at|] == k;
    forall i: nat | i < k + 1 && i < |verdicts| && verdicts[i] ensures i in at' {
      if i != k {
        assert i in at;
      }
    }
  }

  lemma {:induction false} LogKeepsRight(s: Store, user: Uuid, kb: Uuid, ceId: Uuid, cands: seq<AliasCandidate>,
                                         verdicts: seq<bool>, k: nat)
    requires ceId in s.rows && k <= |cands|
    requires IsEnumeration(cands, s.rows, user, kb, s.rows[ceId].identity.normalized, s.rows[ceId].identity.kind, ceId)
    ensures var log := RoundLog(ceId, s.rows[ceId], cands, verdicts, k);
            forall j | 0 <= j < |log| :: KeepsRight(s.rows, log[j])
  {
    hide RoundLog, KeepsRight, IsEnumeration, EntryFor, Confirmed, Gone, Joins;
    if k == 0 {
      RoundStart(ceId, s.rows[ceId], cands, verdicts);
    } else {
      LogKeepsRight(s, user, kb, ceId, cands, verdicts, k - 1);
      RoundStep(ceId, s.rows[ceId], cands, verdicts, k - 1);
      EntryRight(s.rows, user, kb, ceId, cands, k - 1);
    }
  }

  /** The merges of a turn. */
  lemma RoundRight(s: Store, user: Uuid, kb: Uuid, ceId: Uuid, ce: Row, cands: seq<AliasCandidate>,
                   verdicts: seq<bool>)
    requires ceId in s.rows && ce == s.rows[ceId]
    requires IsEnumeration(cands, s.rows, user, kb, ce.identity.normalized, ce.identity.kind, ceId)
    ensures RightRound(s.rows, ceId, cands, verdicts, RoundLog(ceId, ce, cands, verdicts, |cands|))
  {
    hide RoundLog, KeepsRight, IsEnumeration, EntryFor, RoundAt, Joins;
    forall i | 0 <= i < |cands| ensures Joins(EntryFor(ceId, ce, cands[i]), ceId, cands[i].id) {
      EntryRight(s.rows, user, kb, ceId, cands, i);
    }
    LogKeepsRight(s, user, kb, ceId, cands, verdicts, |cands|);
    var at := RoundAtLog(ceId, ce, cands, verdicts, |cands|);
  }

  /** What the judge confirmed in a turn. */
  ghost function Verdict(r: Round): seq<bool> {
    if r.asked && r.reply.Verdicts? then r.reply.verdicts else []
  }

  /** Every turn of a pass makes the right merges, by the rows as it read them. */
  ghost predicate RightRun(s: Store, user: Uuid, ids: seq<Uuid>, rounds: seq<Round>) {
    && |rounds| <= |ids|
    && forall k | 0 <= k < |rounds| ::
         RightRound(ApplyLog(s, user, Logs(rounds[..k])).rows, ids[k], rounds[k].cands, Verdict(rounds[k]),
                    rounds[k].log)
  }

  lemma RoundIsRight(s: Store, user: Uuid, kb: Uuid, id: Uuid, judge: Judge, n: nat, r: Round)
    requires IsRound(s, user, kb, id, judge, n, r)
    ensures RightRound(s.rows, id, r.cands, Verdict(r), r.log)
  {
    if Owns(s, user, id) && r.asked && r.reply.Verdicts? {
      RoundRight(s, user, kb, id, s.rows[id], r.cands, r.reply.verdicts);
    } else {
      assert RoundAt(id, r.cands, [], [], |r.cands|, []);
    }
  }

  lemma {:induction false} RunRight(s: Store, user: Uuid, kb: Uuid, ids: seq<Uuid>, judge: Judge, n: nat,
                                    rounds: seq<Round>)
    requires IsRun(s, user, kb, ids, judge, n, rounds)
    ensures RightRun(s, user, ids, rounds)
  {
    hide IsRound, RightRound, ApplyLog, Logs, Verdict;
    if rounds != [] {
      var init, k := rounds[..|rounds| - 1], |rounds| - 1;
      RunRight(s, user, kb, ids, judge, n, init);
      RoundIsRight(ApplyLog(s, user, Logs(init)), user, kb, ids[k], judge, n + Questions(init), rounds[k]);
      forall j | 0 <= j < k
        ensures RightRound(ApplyLog(s, user, Logs(rounds[..j])).rows, ids[j], rounds[j].cands, Verdict(rounds[j]),
                           rounds[j].log)
      {
        assert rounds[..j] == init[..j];
      }
    }
  }

  // ----- Where a round stands after k candidates

  ghost predicate MidRound(s: Store, t: Store, user: Uuid, ceId: Uuid, cands: seq<AliasCandidate>,
                           log: seq<Entry>, k: nat)
    requires k <= |cands|
  {
    && Owns(s, user, ceId)
    && t == ApplyLog(s, user, log) && SoundLog(s, user, log) && WellFormed(t)
    && (!Gone(log, ceId) ==>
          && ceId in t.rows && t.rows[ceId].identity == s.rows[ceId].identity
          && forall j | k <= j < |cands| ::
               && cands[j].id in t.rows && cands[j].id in s.rows
               && t.rows[cands[j].id].identity == s.rows[cands[j].id].identity)
  }

  lemma MergeWellFormed(s: Store, user: Uuid, from: Uuid, to: Uuid)
    requires WellFormed(s)
    ensures WellFormed(Merge(s, user, from, to))
  {
  }

  lemma MidStep(s: Store, t: Store, user: Uuid, kb: Uuid, ceId: Uuid, cands: seq<AliasCandidate>,
                log: seq<Entry>, k: nat, e: Entry)
    requires k < |cands| && MidRound(s, t, user, ceId, cands, log, k) && !Gone(log, ceId)
    requires IsEnumeration(cands, s.rows, user, kb, s.rows[ceId].identity.normalized, s.rows[ceId].identity.kind, ceId)
    requires e == Entry(ceId, cands[k].id) || e == Entry(cands[k].id, ceId)
    ensures Alike(t, user, e)
    ensures MidRound(s, Merge(t, user, e.from, e.to), user, ceId, cands, log + [e], k + 1)
  {
    var c := cands[k].id;
    assert IsCandidate(s.rows, user, kb, s.rows[ceId].identity.normalized, s.rows[ceId].identity.kind, ceId, c);
    hide IsEnumeration, FuzzyMatch, WellFormed, Merge;
    LogSnoc(s, user, log, e);
    MergeRow(t, user, e.from, e.to);
    MergeWellFormed(t, user, e.from, e.to);
    if e.from != ceId {
      forall j | k + 1 <= j < |cands| ensures cands[j].id != c && cands[j].id != ceId {
        CandidatesDiffer(cands, s.rows, user, kb, ceId, k, j);
      }
    }
  }

  lemma CandidatesDiffer(cands: seq<AliasCandidate>, rows: map<Uuid, Row>, user: Uuid, kb: Uuid, ceId: Uuid,
                         k: nat, j: nat)
    requires ceId in rows && k < j < |cands|
    requires IsEnumeration(cands, rows, user, kb, rows[ceId].identity.normalized, rows[ceId].identity.kind, ceId)
    ensures cands[j].id != cands[k].id && cands[j].id != ceId
  {
    assert IsCandidate(rows, user, kb, rows[ceId].identity.normalized, rows[ceId].identity.kind, ceId, cands[j].id);
  }

  // ----- The imperative resolution

  /** Merges one confirmed pair, the one to survive decided by counts and age. */
  method MergePair(repo: Repository, user: Uuid, kb: Uuid, ceId: Uuid, ce: Row, candidates: seq<AliasCandidate>,
                   i: nat, ghost start: Store, ghost log: seq<Entry>) returns (found: bool, e: Entry)
    requires i < |candidates| && MidRound(start, repo.State(), user, ceId, candidates, log, i) && !Gone(log, ceId)
    requires ce == start.rows[ceId]
    requires IsEnumeration(candidates, start.rows, user, kb, ce.identity.normalized, ce.identity.kind, ceId)
    modifies repo
    ensures found && e == EntryFor(ceId, ce, candidates[i])
    ensures KeepsRight(start.rows, e) && Joins(e, ceId, candidates[i].id)
    ensures MidRound(start, repo.State(), user, ceId, candidates, log + [e], i + 1)
  {
    hide IsEnumeration, WellFormed, Merge, ApplyLog, SoundLog, Alike;
    EntryRight(start.rows, user, kb, ceId, candidates, i);
    hide MidRound, KeepsRight;
    var cand := candidates[i];
    var from, to := ceId, cand.id;
    if !CandidateSurvives(ce.mentions, ce.createdAt, ceId, cand.mentions, cand.createdAt, cand.id) {
      from, to := cand.id, ceId;
    }
    e := Entry(from, to);
    MidStep(start, repo.State(), user, kb, ceId, candidates, log, i, e);
    AlikeOwned(repo.State(), user, e);
    found := repo.MergeInto(user, from, to);
  }

  /** Merges the confirmed candidates of one live row. Every merge finds both its rows. */
  method MergeConfirmed(repo: Repository, user: Uuid, kb: Uuid, ceId: Uuid, ce: Row,
                        candidates: seq<AliasCandidate>, verdicts: seq<bool>)
    returns (allFound: bool, ghost log: seq<Entry>)
    requires repo.Valid() && Owns(repo.State(), user, ceId) && ce == repo.rows[ceId]
    requires IsEnumeration(candidates, repo.rows, user, kb, ce.identity.normalized, ce.identity.kind, ceId)
    modifies repo
    ensures repo.Valid() && allFound
    ensures log == RoundLog(ceId, ce, candidates, verdicts, |candidates|)
    ensures RightRound(old(repo.State()).rows, ceId, candidates, verdicts, log)
    ensures repo.State() == ApplyLog(old(repo.State()), user, log) && SoundLog(old(repo.State()), user, log)
  {
    ghost var start := repo.State();
    hide IsEnumeration, WellFormed, Merge, ApplyLog, SoundLog, MidRound, RoundLog, EntryFor, Gone, RightRound,
         KeepsRight, Joins;
    log := [];
    RoundStart(ceId, ce, candidates, verdicts);
    MidStart(start, user, kb, ceId, candidates);
    MidGives(start, start, user, ceId, candidates, log, 0);
    var i := 0;
    while i < |candidates|
      invariant i <= |candidates|
      invariant log == RoundLog(ceId, ce, candidates, verdicts, i) && !Gone(log, ceId)
      invariant MidRound(start, repo.State(), user, ceId, candidates, log, i)
      invariant repo.State() == ApplyLog(start, user, log) && SoundLog(start, user, log) && repo.Valid()
    {
      RoundStep(ceId, ce, candidates, verdicts, i);
      if i < |verdicts| && verdicts[i] {
        var found, e := MergePair(repo, user, kb, ceId, ce, candidates, i, start, log);
        if !found {
          return false, log;
        }
        GoneSnoc(log, e, ceId);
        log := log + [e];
        if e.from == ceId {
          RoundEnds(ceId, ce, candidates, verdicts, i + 1, |candidates|);
          MidGives(start, repo.State(), user, ceId, candidates, log, i + 1);
          break;
        }
      } else {
        MidSkip(start, repo.State(), user, ceId, candidates, log, i);
      }
      i := i + 1;
      MidGives(start, repo.State(), user, ceId, candidates, log, i);
    }
    RoundRight(start, user, kb, ceId, ce, candidates, verdicts);
    return true, log;
  }

  lemma RoundStart(ceId: Uuid, ce: Row, cands: seq<AliasCandidate>, verdicts: seq<bool>)
    ensures RoundLog(ceId, ce, cands, verdicts, 0) == [] && !Gone([], ceId)
  {
  }

  lemma RoundStep(ceId: Uuid, ce: Row, cands: seq<AliasCandidate>, verdicts: seq<bool>, k: nat)
    requires k < |cands|
    ensures var before := RoundLog(ceId, ce, cands, verdicts, k);
            RoundLog(ceId, ce, cands, verdicts, k + 1)
            == if Gone(before, ceId) || !Confirmed(verdicts, k) then before
               else before + [EntryFor(ceId, ce, cands[k])]
  {
  }

  lemma GoneSnoc(log: seq<Entry>, e: Entry, ceId: Uuid)
    ensures Gone(log + [e], ceId) <==> e.from == ceId
  {
  }

  lemma AlikeOwned(s: Store, user: Uuid, e: Entry)
    requires Alike(s, user, e)
    ensures Owns(s, user, e.from) && Owns(s, user, e.to)
  {
  }

  lemma MidGives(s: Store, t: Store, user: Uuid, ceId: Uuid, cands: seq<AliasCandidate>,
                 log: seq<Entry>, k: nat)
    requires k <= |cands| && MidRound(s, t, user, ceId, cands, log, k)
    ensures t == ApplyLog(s, user, log) && SoundLog(s, user, log) && WellFormed(t)
  {
  }

  lemma MidSkip(s: Store, t: Store, user: Uuid, ceId: Uuid, cands: seq<AliasCandidate>,
                log: seq<Entry>, k: nat)
    requires k < |cands| && MidRound(s, t, user, ceId, cands, log, k)
    ensures MidRound(s, t, user, ceId, cands, log, k + 1)
  {
  }

  lemma MidStart(s: Store, user: Uuid, kb: Uuid, ceId: Uuid, cands: seq<AliasCandidate>)
    requires WellFormed(s) && Owns(s, user, ceId)
    requires IsEnumeration(cands, s.rows, user, kb, s.rows[ceId].identity.normalized, s.rows[ceId].identity.kind, ceId)
    ensures MidRound(s, s, user, ceId, cands, [], 0)
  {
  }

  /** Nothing is merged once ce is gone. */
  lemma {:induction false} RoundEnds(ceId: Uuid, ce: Row, cands: seq<AliasCandidate>, verdicts: seq<bool>,
                                     k: nat, n: nat)
    requires k <= n <= |cands| && Gone(RoundLog(ceId, ce, cands, verdicts, k), ceId)
    ensures RoundLog(ceId, ce, cands, verdicts, n) == RoundLog(ceId, ce, cands, verdicts, k)
  {
    if k < n {
      RoundEnds(ceId, ce, cands, verdicts, k, n - 1);
    }
  }

  // ----- Which side a merge keeps

  /** The mentions of the confirmed among the first k candidates. */
  ghost function Absorbed(cands: seq<AliasCandidate>, verdicts: seq<bool>, k: nat): int
    requires k <= |cands|
  {
    if k == 0 then 0
    else Absorbed(cands, verdicts, k - 1) + if Confirmed(verdicts, k - 1) then cands[k - 1].mentions else 0
  }

  lemma CandidateRow(s: Store, user: Uuid, kb: Uuid, ceId: Uuid, cands: seq<AliasCandidate>, j: nat)
    requires Owns(s, user, ceId) && j < |cands|
    requires IsEnumeration(cands, s.rows, user, kb, s.rows[ceId].identity.normalized, s.rows[ceId].identity.kind, ceId)
    ensures cands[j].id in s.rows && cands[j].id != ceId && cands[j].mentions == s.rows[cands[j].id].mentions
  {
    var key := s.rows[ceId].identity;
    assert IsCandidate(s.rows, user, kb, key.normalized, key.kind, ceId, cands[j].id);
  }

  /**
   * While ce survives it holds its own mentions and the absorbed ones;
   * candidates still to come are as they were read.
   */
  lemma {:induction false} RoundCounts(s: Store, user: Uuid, kb: Uuid, ceId: Uuid, cands: seq<AliasCandidate>,
                                       verdicts: seq<bool>, k: nat)
    requires WellFormed(s) && Owns(s, user, ceId) && k <= |cands|
    requires IsEnumeration(cands, s.rows, user, kb, s.rows[ceId].identity.normalized, s.rows[ceId].identity.kind, ceId)
    requires !Gone(RoundLog(ceId, s.rows[ceId], cands, verdicts, k), ceId)
    ensures var log := RoundLog(ceId, s.rows[ceId], cands, verdicts, k);
            var t := ApplyLog(s, user, log);
            && MidRound(s, t, user, ceId, cands, log, k)
            && MentionsOf(t, ceId) == s.rows[ceId].mentions + Absorbed(cands, verdicts, k)
            && forall j | k <= j < |cands| :: MentionsOf(t, cands[j].id) == cands[j].mentions
  {
    hide IsEnumeration, MidRound, ApplyLog, EntryFor, Confirmed, WellFormed, RoundLog;
    var ce := s.rows[ceId];
    if k == 0 {
      RoundStart(ceId, ce, cands, verdicts);
      MidStart(s, user, kb, ceId, cands);
      RoundStartCounts(s, user, kb, ceId, cands);
    } else {
      RoundStep(ceId, ce, cands, verdicts, k - 1);
      RoundCounts(s, user, kb, ceId, cands, verdicts, k - 1);
      var log := RoundLog(ceId, ce, cands, verdicts, k - 1);
      if Confirmed(verdicts, k - 1) {
        GoneSnoc(log, EntryFor(ceId, ce, cands[k - 1]), ceId);
        EntryEither(ceId, ce, cands[k - 1]);
        AbsorbOne(s, user, kb, ceId, cands, log, k - 1);
      } else {
        MidSkip(s, ApplyLog(s, user, log), user, ceId, cands, log, k - 1);
      }
    }
  }

  lemma EntryEither(ceId: Uuid, ce: Row, cand: AliasCandidate)
    ensures EntryFor(ceId, ce, cand) == Entry(ceId, cand.id) || EntryFor(ceId, ce, cand) == Entry(cand.id, ceId)
  {
  }

  lemma RoundStartCounts(s: Store, user: Uuid, kb: Uuid, ceId: Uuid, cands: seq<AliasCandidate>)
    requires WellFormed(s) && Owns(s, user, ceId)
    requires IsEnumeration(cands, s.rows, user, kb, s.rows[ceId].identity.normalized, s.rows[ceId].identity.kind, ceId)
    ensures ApplyLog(s, user, []) == s
    ensures forall j | 0 <= j < |cands| :: MentionsOf(s, cands[j].id) == cands[j].mentions
  {
    forall j | 0 <= j < |cands| ensures MentionsOf(s, cands[j].id) == cands[j].mentions {
      CandidateRow(s, user, kb, ceId, cands, j);
    }
  }

  lemma AbsorbOne(s: Store, user: Uuid, kb: Uuid, ceId: Uuid, cands: seq<AliasCandidate>, log: seq<Entry>, k: nat)
    requires Owns(s, user, ceId) && k < |cands|
    requires MidRound(s, ApplyLog(s, user, log), user, ceId, cands, log, k) && !Gone(log, ceId)
    requires IsEnumeration(cands, s.rows, user, kb, s.rows[ceId].identity.normalized, s.rows[ceId].identity.kind, ceId)
    ensures var t, e := ApplyLog(s, user, log), Entry(cands[k].id, ceId);
            var t' := ApplyLog(s, user, log + [e]);
            && MidRound(s, t', user, ceId, cands, log + [e], k + 1)
            && MentionsOf(t', ceId) == MentionsOf(t, ceId) + MentionsOf(t, cands[k].id)
            && forall j | k < j < |cands| :: MentionsOf(t', cands[j].id) == MentionsOf(t, cands[j].id)
  {
    hide IsEnumeration, MidRound, Merge, SoundLog;
    var t, e := ApplyLog(s, user, log), Entry(cands[k].id, ceId);
    MidStep(s, t, user, kb, ceId, cands, log, k, e);
    LogSnoc(s, user, log, e);
    MergeRow(t, user, e.from, e.to);
    forall j | k < j < |cands|
      ensures MentionsOf(Merge(t, user, e.from, e.to), cands[j].id) == MentionsOf(t, cands[j].id)
    {
      CandidatesDiffer(cands, s.rows, user, kb, ceId, k, j);
    }
  }

  lemma {:induction false} AbsorbedNonNegative(s: Store, user: Uuid, kb: Uuid, ceId: Uuid, cands: seq<AliasCandidate>,
                                               verdicts: seq<bool>, k: nat)
    requires Invariant(s) && Owns(s, user, ceId) && k <= |cands|
    requires IsEnumeration(cands, s.rows, user, kb, s.rows[ceId].identity.normalized, s.rows[ceId].identity.kind, ceId)
    ensures Absorbed(cands, verdicts, k) >= 0
  {
    hide Invariant, IsEnumeration;
    if k > 0 {
      AbsorbedNonNegative(s, user, kb, ceId, cands, verdicts, k - 1);
      CandidateRow(s, user, kb, ceId, cands, k - 1);
      RowCounted(s, cands[k - 1].id);
    }
  }

  /**
   * A merge keeps the row that has at least as many mentions at that moment,
   * unless the candidate survives by the counts read before the round and
   * the row has absorbed enough since to have more.
   */
  lemma KeepsTheLarger(s: Store, user: Uuid, kb: Uuid, ceId: Uuid, cands: seq<AliasCandidate>, verdicts: seq<bool>,
                       k: nat)
    requires Invariant(s) && Owns(s, user, ceId) && k < |cands| && Confirmed(verdicts, k)
    requires IsEnumeration(cands, s.rows, user, kb, s.rows[ceId].identity.normalized, s.rows[ceId].identity.kind, ceId)
    requires !Gone(RoundLog(ceId, s.rows[ceId], cands, verdicts, k), ceId)
    ensures var ce, cand, log := s.rows[ceId], cands[k], RoundLog(ceId, s.rows[ceId], cands, verdicts, k);
            var t, e := ApplyLog(s, user, log), EntryFor(ceId, ce, cand);
            && RoundLog(ceId, ce, cands, verdicts, k + 1) == log + [e]
            && (MentionsOf(t, e.to) >= MentionsOf(t, e.from)
                <==> !(e.to == cand.id && cand.mentions < ce.mentions + Absorbed(cands, verdicts, k)))
  {
    CandidateRow(s, user, kb, ceId, cands, k);
    AbsorbedNonNegative(s, user, kb, ceId, cands, verdicts, k);
    WellFormedStore(s);
    hide Invariant, IsEnumeration, MidRound, ApplyLog, RoundLog, MentionsOf, Absorbed;
    RoundCounts(s, user, kb, ceId, cands, verdicts, k);
    RoundStep(ceId, s.rows[ceId], cands, verdicts, k);
  }

  lemma WellFormedStore(s: Store)
    requires Invariant(s)
    ensures WellFormed(s)
  {
  }

  // ----- A round that keeps the smaller side

  /** Rows of one tenant, base and type, named by texts and counting mentions of one document each. */
  ghost function Named(id: Uuid, text: string, mentions: int): Row {
    Row(Identity(0, 0, text, ""), text, mentions, 1, id)
  }

  ghost function Trio(): Store {
    Store(map[0 := Named(0, "a", 2), 1 := Named(1, "a b", 2), 2 := Named(2, "a c", 3)],
          map[DocKey(0, 0) := map[0 := 2, 1 := 2, 2 := 3]], 3)
  }

  lemma TokensOf()
    ensures TokenSet("a") == {"a"} && TokenSet("a b") == {"a", "b"} && TokenSet("a c") == {"a", "c"}
  {
    assert Tokens("", "a") == {"a"} && Tokens("", "b") == {"b"} && Tokens("", "c") == {"c"};
    assert "a"[1..] == "" && [] + ['a'] == "a" && [] + ['b'] == "b" && [] + ['c'] == "c";
    assert "a b"[1..] == " b" && " b"[1..] == "b" && "b"[1..] == "";
    assert "a c"[1..] == " c" && " c"[1..] == "c" && "c"[1..] == "";
    assert Tokens("b", []) == {"b"} && Tokens("c", []) == {"c"};
    assert Tokens(" b", "a") == {"a"} + {"b"} && Tokens(" c", "a") == {"a"} + {"c"};
  }

  /**
   * A row of two mentions absorbs an equal candidate and is then merged,
   * with four, into a candidate of three: the comparison still sees the
   * count read before the round.
   */
  lemma KeepsTheSmaller()
    ensures var s := Trio();
            var cands := [CandidateOf(1, s.rows[1]), CandidateOf(2, s.rows[2])];
            var log := RoundLog(0, s.rows[0], cands, [true, true], 1);
            && Invariant(s) && IsEnumeration(cands, s.rows, 0, 0, "a", "", 0)
            && log == [Entry(1, 0)] && EntryFor(0, s.rows[0], cands[1]) == Entry(0, 2)
            && MentionsOf(ApplyLog(s, 0, log), 2) == 3 < 4 == MentionsOf(ApplyLog(s, 0, log), 0)
  {
    var s := Trio();
    var cands := [CandidateOf(1, s.rows[1]), CandidateOf(2, s.rows[2])];
    TrioInvariant();
    TrioCandidates();
    assert RoundLog(0, s.rows[0], cands, [true, true], 0) == [];
    WellFormedStore(s);
    hide Invariant, IsEnumeration, ApplyLog, MidRound;
    RoundCounts(s, 0, 0, 0, cands, [true, true], 1);
    assert Absorbed(cands, [true, true], 0) == 0;
  }

  lemma TrioCandidates()
    ensures var s := Trio();
            IsEnumeration([CandidateOf(1, s.rows[1]), CandidateOf(2, s.rows[2])], s.rows, 0, 0, "a", "", 0)
  {
    var s := Trio();
    var cands := [CandidateOf(1, s.rows[1]), CandidateOf(2, s.rows[2])];
    TokensOf();
    hide TokenSet;
    assert "a" != "a b" && "a" != "a c";
    forall id | IsCandidate(s.rows, 0, 0, "a", "", 0, id) ensures exists i | 0 <= i < |cands| :: cands[i].id == id {
      assert cands[id - 1].id == id;
    }
  }

  lemma TrioInvariant()
    ensures Invariant(Trio())
  {
    hide Counted, WellFormed;
    TrioUnique();
    var s := Trio();
    forall id | id in s.rows ensures Counted(s, id) {
      TrioCounted(id);
    }
  }

  lemma TrioUnique()
    ensures WellFormed(Trio())
  {
    assert |"a"| == 1 && |"a b"| == 3 && |"a c"| == 3;
    assert "a b"[2] == 'b' && "a c"[2] == 'c';
  }

  lemma TrioCounted(id: Uuid)
    requires id in Trio().rows
    ensures Counted(Trio(), id)
  {
    var s, doc := Trio(), DocKey(0, 0);
    assert s.contributions.Keys == {doc};
    var owed := Owed(s, id);
    assert owed(doc) == MentionsOf(s, id);
    assert Documents(s, id) == {doc};
    hide Owed, Documents;
    SumRemove({doc}, owed, doc);
    assert {doc} - {doc} == {};
    SumNone({}, owed);
  }

  // ----- A whole pass

  /** One id's turn: skipped when already merged away or without candidates, else judged and merged. */
  method ResolveOne(repo: Repository, user: Uuid, kb: Uuid, id: Uuid, judge: Judge, n: nat)
    returns (failed: bool, asked: bool, ghost r: Round)
    requires repo.Valid()
    modifies repo
    ensures repo.Valid() && asked == r.asked
    ensures IsRound(old(repo.State()), user, kb, id, judge, n, r)
    ensures repo.State() == ApplyLog(old(repo.State()), user, r.log) && SoundLog(old(repo.State()), user, r.log)
    ensures failed <==> r.asked && r.reply.Failed?
  {
    hide IsEnumeration, WellFormed, RoundLog;
    var ce := repo.Lookup(user, id);
    if ce.None? {
      return false, false, Round(false, 0, [], Failed, []);
    }
    var row := ce.value;
    var candidates := repo.FuzzyCandidates(user, kb, row.identity.normalized, row.identity.kind, id);
    if |candidates| == 0 {
      return false, false, Round(false, 0, candidates, Failed, []);
    }
    var reply := judge(n, row.identity.kind, row.identity.normalized, Texts(candidates));
    if reply.Failed? {
      return true, true, Round(true, n, candidates, reply, []);
    }
    var found, log := MergeConfirmed(repo, user, kb, id, row, candidates, reply.verdicts);
    return !found, true, Round(true, n, candidates, reply, log);
  }

  /** Ids that are live rows of the user lie in the knowledge base. */
  ghost predicate InScope(s: Store, user: Uuid, kb: Uuid, ids: seq<Uuid>) {
    forall id | id in ids && Owns(s, user, id) :: s.rows[id].identity.kb == kb
  }

  /** A pass ended at its last round, or at the first whose question failed. */
  ghost predicate Finished(ids: seq<Uuid>, rounds: seq<Round>, failed: bool) {
    if failed then rounds != [] && rounds[|rounds| - 1].asked && rounds[|rounds| - 1].reply.Failed?
    else |rounds| == |ids|
  }

  lemma {:induction false} LogAppend(s: Store, user: Uuid, a: seq<Entry>, b: seq<Entry>)
    ensures ApplyLog(s, user, a + b) == ApplyLog(ApplyLog(s, user, a), user, b)
    ensures SoundLog(s, user, a + b) <==> SoundLog(s, user, a) && SoundLog(ApplyLog(s, user, a), user, b)
  {
    hide Merge, Alike;
    if b == [] {
      assert a + b == a;
    } else {
      var init, e := b[..|b| - 1], b[|b| - 1];
      LogAppend(s, user, a, init);
      LogSnoc(s, user, a + init, e);
      assert a + b == a + init + [e];
    }
  }

  /** A row of the knowledge base is only merged with rows of it. */
  lemma {:induction false} RoundLocal(s: Store, user: Uuid, kb: Uuid, ceId: Uuid, cands: seq<AliasCandidate>,
                                      verdicts: seq<bool>, k: nat)
    requires Inside(s, kb, ceId) && k <= |cands|
    requires IsEnumeration(cands, s.rows, user, kb, s.rows[ceId].identity.normalized, s.rows[ceId].identity.kind, ceId)
    ensures Local(s, kb, RoundLog(ceId, s.rows[ceId], cands, verdicts, k))
  {
    if k > 0 {
      RoundLocal(s, user, kb, ceId, cands, verdicts, k - 1);
      var key, c := s.rows[ceId].identity, cands[k - 1].id;
      assert IsCandidate(s.rows, user, kb, key.normalized, key.kind, ceId, c);
      assert Inside(s, kb, c);
    }
  }

  /** A pass over rows of the knowledge base merges only rows of it. */
  lemma {:induction false} RunLocal(s: Store, user: Uuid, kb: Uuid, ids: seq<Uuid>, judge: Judge, n: nat,
                                    rounds: seq<Round>)
    requires IsRun(s, user, kb, ids, judge, n, rounds) && InScope(s, user, kb, ids)
    requires SoundLog(s, user, Logs(rounds))
    ensures Local(s, kb, Logs(rounds))
  {
    hide SoundLog, ApplyLog, IsEnumeration, RoundLog, IsRound, Local, InScope, Questions;
    if rounds == [] {
      NothingLocal(s, kb);
    } else {
      var init, r := rounds[..|rounds| - 1], rounds[|rounds| - 1];
      LogAppend(s, user, Logs(init), r.log);
      RunLocal(s, user, kb, ids, judge, n, init);
      if r.log == [] {
        assert Logs(init) + [] == Logs(init);
      } else {
        OneLocal(s, user, kb, ids, judge, n + Questions(init), Logs(init), ids[|init|], r);
        LocalConcat(s, kb, Logs(init), r.log);
      }
    }
  }

  lemma NothingLocal(s: Store, kb: Uuid)
    ensures Local(s, kb, [])
  {
  }

  lemma LocalConcat(s: Store, kb: Uuid, a: seq<Entry>, b: seq<Entry>)
    requires Local(s, kb, a) && Local(s, kb, b)
    ensures Local(s, kb, a + b)
  {
    hide Inside;
  }

  lemma OneLocal(s: Store, user: Uuid, kb: Uuid, ids: seq<Uuid>, judge: Judge, n: nat, log: seq<Entry>, id: Uuid,
                 r: Round)
    requires SoundLog(s, user, log) && InScope(s, user, kb, ids) && id in ids && r.log != []
    requires IsRound(ApplyLog(s, user, log), user, kb, id, judge, n, r)
    ensures Local(s, kb, r.log)
  {
    hide SoundLog, ApplyLog, IsEnumeration, RoundLog, Local;
    OwnedKept(s, user, log, id);
    RoundLocal(ApplyLog(s, user, log), user, kb, id, r.cands, r.reply.verdicts, |r.cands|);
    LocalLater(s, user, kb, log, r.log);
  }

  lemma OwnedKept(s: Store, user: Uuid, log: seq<Entry>, id: Uuid)
    requires SoundLog(s, user, log) && Owns(ApplyLog(s, user, log), user, id)
    ensures Owns(s, user, id) && ApplyLog(s, user, log).rows[id].identity == s.rows[id].identity
  {
    IdentityKept(s, user, log, id);
  }

  lemma LocalLater(s: Store, user: Uuid, kb: Uuid, log: seq<Entry>, later: seq<Entry>)
    requires SoundLog(s, user, log) && Local(ApplyLog(s, user, log), kb, later)
    ensures Local(s, kb, later)
  {
    forall i | 0 <= i < |later| ensures Inside(s, kb, later[i].from) && Inside(s, kb, later[i].to) {
      IdentityKept(s, user, log, later[i].from);
      IdentityKept(s, user, log, later[i].to);
    }
  }

  method ResolveAliasesFor(repo: Repository, user: Uuid, kb: Uuid, ids: seq<Uuid>, judge: Judge)
    returns (failed: bool, ghost rounds: seq<Round>)
    requires repo.Valid()
    modifies repo
    ensures repo.Valid()
    ensures IsRun(old(repo.State()), user, kb, ids, judge, 0, rounds) && Finished(ids, rounds, failed)
    ensures RightRun(old(repo.State()), user, ids, rounds)
    ensures repo.State() == ApplyLog(old(repo.State()), user, Logs(rounds))
    ensures SoundLog(old(repo.State()), user, Logs(rounds))
  {
    ghost var start := repo.State();
    hide WellFormed, IsRound, ApplyLog, SoundLog, Logs, Questions, IsRun, RightRun;
    rounds := [];
    RunStart(start, user, kb, ids, judge);
    var n := 0;
    for i := 0 to |ids|
      invariant repo.Valid() && |rounds| == i && n == Questions(rounds)
      invariant IsRun(start, user, kb, ids, judge, 0, rounds)
      invariant repo.State() == ApplyLog(start, user, Logs(rounds)) && SoundLog(start, user, Logs(rounds))
    {
      ghost var log := Logs(rounds);
      var stopped, asked, r := ResolveOne(repo, user, kb, ids[i], judge, n);
      RunSnoc(start, user, kb, ids, judge, 0, rounds, r);
      LogAppend(start, user, log, r.log);
      rounds := rounds + [r];
      if stopped {
        RunRight(start, user, kb, ids, judge, 0, rounds);
        return true, rounds;
      }
      if asked {
        n := n + 1;
      }
    }
    RunRight(start, user, kb, ids, judge, 0, rounds);
    return false, rounds;
  }

  lemma RunStart(s: Store, user: Uuid, kb: Uuid, ids: seq<Uuid>, judge: Judge)
    ensures IsRun(s, user, kb, ids, judge, 0, []) && Logs([]) == [] && Questions([]) == 0
    ensures ApplyLog(s, user, []) == s && SoundLog(s, user, [])
  {
  }

  /** The distinct rows a document's mentions resolved to, then a pass over them. */
  method ResolveAliases(repo: Repository, user: Uuid, kb: Uuid, resolved: map<Uuid, Uuid>, judge: Judge)
    returns (failed: bool, ids: seq<Uuid>, ghost rounds: seq<Round>)
    requires repo.Valid()
    modifies repo
    ensures repo.Valid()
    ensures forall i, j | 0 <= i < j < |ids| :: ids[i] != ids[j]
    ensures forall id :: id in ids <==> exists m | m in resolved :: resolved[m] == id
    ensures IsRun(old(repo.State()), user, kb, ids, judge, 0, rounds) && Finished(ids, rounds, failed)
    ensures RightRun(old(repo.State()), user, ids, rounds)
    ensures repo.State() == ApplyLog(old(repo.State()), user, Logs(rounds))
    ensures SoundLog(old(repo.State()), user, Logs(rounds))
  {
    ids := [];
    var todo := resolved.Keys;
    while todo != {}
      invariant todo <= resolved.Keys
      invariant forall i, j | 0 <= i < j < |ids| :: ids[i] != ids[j]
      invariant forall id :: id in ids <==> exists m | m in resolved && m !in todo :: resolved[m] == id
      decreases todo
    {
      var m :| m in todo;
      todo := todo - {m};
      if resolved[m] !in ids {
        ids := ids + [resolved[m]];
      }
    }
    failed, rounds := ResolveAliasesFor(repo, user, kb, ids, judge);
  }

  /**
   * A sweep of the knowledge base: every row present at the start gets its
   * turn, in some order, on the store the earlier turns left, unless a
   * question fails and ends the sweep. Otherwise the result is the number of
   * merges made.
   */
  method ResolveAllAliases(repo: Repository, user: Uuid, kb: Uuid, judge: Judge)
    returns (failed: bool, merges: int, ghost ids: seq<Uuid>, ghost rounds: seq<Round>)
    requires repo.Valid()
    modifies repo
    ensures repo.Valid()
    ensures Lists(ids, Scope(old(repo.State()), user, kb))
    ensures IsRun(old(repo.State()), user, kb, ids, judge, 0, rounds) && Finished(ids, rounds, failed)
    ensures RightRun(old(repo.State()), user, ids, rounds)
    ensures repo.State() == ApplyLog(old(repo.State()), user, Logs(rounds))
    ensures SoundLog(old(repo.State()), user, Logs(rounds))
    ensures !failed ==> merges == |Logs(rounds)|
  {
    ghost var start := repo.State();
    var listed := repo.ListByKB(user, kb);
    ids := listed;
    ListedScope(start, user, kb, ids);
    var before := |listed|;
    failed, rounds := ResolveAliasesFor(repo, user, kb, listed, judge);
    if failed {
      return true, 0, ids, rounds;
    }
    var after := repo.ListByKB(user, kb);
    ListedScope(repo.State(), user, kb, after);
    RunLocal(start, user, kb, ids, judge, 0, rounds);
    ScopeShrinks(start, user, kb, Logs(rounds));
    return false, before - |after|, ids, rounds;
  }

  /** ids lists the members of scope, each once. */
  ghost predicate Lists(ids: seq<Uuid>, scope: set<Uuid>) {
    && (forall i, j | 0 <= i < j < |ids| :: ids[i] != ids[j])
    && (forall id :: id in ids <==> id in scope)
  }

  lemma ListedScope(s: Store, user: Uuid, kb: Uuid, ids: seq<Uuid>)
    requires forall i, j | 0 <= i < j < |ids| :: ids[i] != ids[j]
    requires forall id ::
               id in ids <==> id in s.rows && s.rows[id].identity.user == user && s.rows[id].identity.kb == kb
    ensures Lists(ids, Scope(s, user, kb)) && |ids| == |Scope(s, user, kb)| && InScope(s, user, kb, ids)
  {
    assert Scope(s, user, kb) == Members(ids);
    DistinctSize(ids);
  }

  ghost function Members(ids: seq<Uuid>): set<Uuid> {
    set id | id in ids
  }

  lemma {:induction false} DistinctSize(ids: seq<Uuid>)
    requires forall i, j | 0 <= i < j < |ids| :: ids[i] != ids[j]
    ensures |Members(ids)| == |ids|
  {
    if ids != [] {
      var init, x := ids[..|ids| - 1], ids[|ids| - 1];
      DistinctSize(init);
      assert ids == init + [x];
      assert Members(ids) == Members(init) + {x};
    }
  }
}
