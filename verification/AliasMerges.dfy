/** Sequences of merges: what they conserve, and where each row ends up. */
module AliasMerges {
  import opened SetSums
  import opened CanonicalModel
  import opened CanonicalRuns

  datatype Entry = Entry(from: Uuid, to: Uuid)

  ghost function ApplyLog(s: Store, user: Uuid, log: seq<Entry>): Store {
    if log == [] then s
    else Merge(ApplyLog(s, user, log[..|log| - 1]), user, log[|log| - 1].from, log[|log| - 1].to)
  }

  /** Two different live rows of one tenant and type. */
  ghost predicate Alike(s: Store, user: Uuid, e: Entry) {
    && Mergeable(s, user, e.from, e.to)
    && s.rows[e.from].identity.kind == s.rows[e.to].identity.kind
  }

  /** Every merge found both its rows live when it was made. */
  ghost predicate SoundLog(s: Store, user: Uuid, log: seq<Entry>) {
    log == [] ||
    (SoundLog(s, user, log[..|log| - 1]) &&
     Alike(ApplyLog(s, user, log[..|log| - 1]), user, log[|log| - 1]))
  }

  /** The row an original row has been folded into. */
  ghost function Survivor(log: seq<Entry>, id: Uuid): Uuid {
    if log == [] then id
    else
      var before, last := Survivor(log[..|log| - 1], id), log[|log| - 1];
      if before == last.from then last.to else before
  }

  lemma LogSnoc(s: Store, user: Uuid, log: seq<Entry>, e: Entry)
    ensures ApplyLog(s, user, log + [e]) == Merge(ApplyLog(s, user, log), user, e.from, e.to)
    ensures SoundLog(s, user, log + [e])
            <==> SoundLog(s, user, log) && Alike(ApplyLog(s, user, log), user, e)
  {
    assert (log + [e])[..|log|] == log;
  }

  lemma {:induction false} LogInvariant(s: Store, user: Uuid, log: seq<Entry>)
    requires Invariant(s) && SoundLog(s, user, log)
    ensures Invariant(ApplyLog(s, user, log))
  {
    hide Invariant, Merge;
    if log != [] {
      var init, e := log[..|log| - 1], log[|log| - 1];
      LogInvariant(s, user, init);
      MergeKeeps(ApplyLog(s, user, init), user, e.from, e.to);
    }
  }

  /** An original row's survivor is live. */
  lemma {:induction false} SurvivorLive(s: Store, user: Uuid, log: seq<Entry>, id: Uuid)
    requires SoundLog(s, user, log) && id in s.rows
    ensures Survivor(log, id) in ApplyLog(s, user, log).rows
  {
    hide Merge;
    if log != [] {
      var init, e := log[..|log| - 1], log[|log| - 1];
      SurvivorLive(s, user, init, id);
      MergeRow(ApplyLog(s, user, init), user, e.from, e.to);
    }
  }

  /** Live rows are original rows, and survive as themselves: no row has two survivors. */
  lemma {:induction false} SurvivorSelf(s: Store, user: Uuid, log: seq<Entry>, id: Uuid)
    requires SoundLog(s, user, log) && id in ApplyLog(s, user, log).rows
    ensures id in s.rows && Survivor(log, id) == id
  {
    hide Merge;
    if log != [] {
      var init, e := log[..|log| - 1], log[|log| - 1];
      MergeRow(ApplyLog(s, user, init), user, e.from, e.to);
      SurvivorSelf(s, user, init, id);
    }
  }

  /** The mentions of the original rows that end up in r. */
  ghost function Inherited(s: Store, log: seq<Entry>, r: Uuid): Uuid -> int {
    (id: Uuid) => if Survivor(log, id) == r then MentionsOf(s, id) else 0
  }

  /** A survivor's mention count is the total of the rows folded into it. */
  lemma {:induction false} SurvivorMentions(s: Store, user: Uuid, log: seq<Entry>, r: Uuid)
    requires SoundLog(s, user, log) && r in ApplyLog(s, user, log).rows
    ensures MentionsOf(ApplyLog(s, user, log), r) == SumOver(s.rows.Keys, Inherited(s, log, r))
  {
    hide Merge;
    if log == [] {
      InheritedAlone(s, r);
    } else {
      var init, e := log[..|log| - 1], log[|log| - 1];
      var before := ApplyLog(s, user, init);
      MergeRow(before, user, e.from, e.to);
      SurvivorMentions(s, user, init, r);
      if r == e.to {
        SurvivorMentions(s, user, init, e.from);
        SumPlus(s.rows.Keys, Inherited(s, init, e.to), Inherited(s, init, e.from), Inherited(s, log, e.to));
      } else {
        SumSame(s.rows.Keys, Inherited(s, init, r), Inherited(s, log, r));
      }
    }
  }

  lemma InheritedAlone(s: Store, r: Uuid)
    requires r in s.rows
    ensures SumOver(s.rows.Keys, Inherited(s, [], r)) == MentionsOf(s, r)
  {
    SumRemove(s.rows.Keys, Inherited(s, [], r), r);
    SumNone(s.rows.Keys - {r}, Inherited(s, [], r));
  }

  ghost function Mentions(s: Store): Uuid -> int {
    (id: Uuid) => MentionsOf(s, id)
  }

  /** Merging conserves the total of all mention counts, and removes one row a time. */
  lemma {:induction false} LogConserves(s: Store, user: Uuid, log: seq<Entry>)
    requires SoundLog(s, user, log)
    ensures var t := ApplyLog(s, user, log);
            && SumOver(t.rows.Keys, Mentions(t)) == SumOver(s.rows.Keys, Mentions(s))
            && |t.rows| == |s.rows| - |log|
  {
    if log != [] {
      var init, e := log[..|log| - 1], log[|log| - 1];
      LogConserves(s, user, init);
      MergeConserves(ApplyLog(s, user, init), user, e.from, e.to);
    }
  }

  /** The rows of one knowledge base. */
  ghost function Scope(s: Store, user: Uuid, kb: Uuid): set<Uuid> {
    set id | id in s.rows && s.rows[id].identity.user == user && s.rows[id].identity.kb == kb
  }

  /** All merges are of original rows of the knowledge base. */
  ghost predicate Local(s: Store, kb: Uuid, log: seq<Entry>) {
    forall i | 0 <= i < |log| :: Inside(s, kb, log[i].from) && Inside(s, kb, log[i].to)
  }

  ghost predicate Inside(s: Store, kb: Uuid, id: Uuid) {
    id in s.rows && s.rows[id].identity.kb == kb
  }

  /** Merging changes no identity and brings no row back. */
  lemma {:induction false} IdentityKept(s: Store, user: Uuid, log: seq<Entry>, id: Uuid)
    requires SoundLog(s, user, log) && id in ApplyLog(s, user, log).rows
    ensures id in s.rows && ApplyLog(s, user, log).rows[id].identity == s.rows[id].identity
  {
    hide Merge;
    if log != [] {
      var init, e := log[..|log| - 1], log[|log| - 1];
      MergeRow(ApplyLog(s, user, init), user, e.from, e.to);
      IdentityKept(s, user, init, id);
    }
  }

  /** Merges within a knowledge base leave it one row less each. */
  lemma {:induction false} ScopeShrinks(s: Store, user: Uuid, kb: Uuid, log: seq<Entry>)
    requires SoundLog(s, user, log) && Local(s, kb, log)
    ensures |Scope(ApplyLog(s, user, log), user, kb)| == |Scope(s, user, kb)| - |log|
  {
    hide Merge, Scope;
    if log != [] {
      var init, e := log[..|log| - 1], log[|log| - 1];
      ScopeShrinks(s, user, kb, init);
      IdentityKept(s, user, init, e.from);
      MergeScope(ApplyLog(s, user, init), user, kb, e);
    }
  }

  lemma MergeScope(s: Store, user: Uuid, kb: Uuid, e: Entry)
    requires Alike(s, user, e) && s.rows[e.from].identity.kb == kb
    ensures |Scope(Merge(s, user, e.from, e.to), user, kb)| == |Scope(s, user, kb)| - 1
  {
    MergeRow(s, user, e.from, e.to);
    hide Merge;
    assert Scope(Merge(s, user, e.from, e.to), user, kb) == Scope(s, user, kb) - {e.from};
  }

  lemma MergeConserves(s: Store, user: Uuid, from: Uuid, to: Uuid)
    requires Mergeable(s, user, from, to)
    ensures var t := Merge(s, user, from, to);
            SumOver(t.rows.Keys, Mentions(t)) == SumOver(s.rows.Keys, Mentions(s)) && |t.rows| == |s.rows| - 1
  {
    var t := Merge(s, user, from, to);
    MergeRow(s, user, from, to);
    hide Merge;
    var rest := s.rows.Keys - {from};
    assert t.rows.Keys == rest;
    SumRemove(s.rows.Keys, Mentions(s), from);
    SumRemove(rest, Mentions(s), to);
    SumRemove(rest, Mentions(t), to);
    SumSame(rest - {to}, Mentions(s), Mentions(t));
    assert |t.rows| == |t.rows.Keys| && |s.rows| == |s.rows.Keys|;
  }
}
