/** Linking a document's mentions to the rows they resolve to, safely repeatable. */
module MentionLinks {
  import opened Wrappers
  import opened CanonicalModel
  import opened CanonicalRuns
  import opened CanonicalCalls
  import opened CanonicalRepository

  type Entities = map<Uuid, Mention>

  function Pending(ms: seq<Mention>): (r: seq<Mention>)
    ensures forall m :: m in r <==> m in ms && m.link.None?
  {
    if ms == [] then []
    else
      var init, m := ms[..|ms| - 1], ms[|ms| - 1];
      assert ms == init + [m];
      Pending(init) + if m.link.None? then [m] else []
  }

  /** pending is the unlinked mentions at the given positions, in order, and all others are linked. */
  ghost predicate Extracts(ms: seq<Mention>, pending: seq<Mention>, at: seq<nat>) {
    && |at| == |pending|
    && (forall i, j | 0 <= i < j < |at| :: at[i] < at[j])
    && (forall j | 0 <= j < |at| :: at[j] < |ms| && ms[at[j]].link.None? && pending[j] == ms[at[j]])
    && (forall i | 0 <= i < |ms| && i !in at :: ms[i].link.Some?)
  }

  lemma {:induction false} PendingExtracts(ms: seq<Mention>) returns (at: seq<nat>)
    ensures Extracts(ms, Pending(ms), at)
  {
    hide Extracts;
    if ms == [] {
      at := [];
      ExtractsNone();
    } else {
      var init, m := ms[..|ms| - 1], ms[|ms| - 1];
      var before := PendingExtracts(init);
      assert ms == init + [m];
      at := if m.link.None? then before + [|init|] else before;
      ExtractsStep(init, m, Pending(init), before);
      if m.link.Some? {
        assert Pending(init) + [] == Pending(init);
      }
    }
  }

  lemma ExtractsNone()
    ensures Extracts([], [], [])
  {
  }

  lemma ExtractsStep(init: seq<Mention>, m: Mention, pending: seq<Mention>, at: seq<nat>)
    requires Extracts(init, pending, at)
    ensures m.link.None? ==> Extracts(init + [m], pending + [m], at + [|init|])
    ensures m.link.Some? ==> Extracts(init + [m], pending, at)
  {
    var ms := init + [m];
    assert ms[|init|] == m && forall i | 0 <= i < |init| :: ms[i] == init[i];
    assert (at + [|init|])[|at|] == |init|;
    forall i | 0 <= i < |ms| && i !in at && i < |init| ensures ms[i].link.Some? {
      assert init[i].link.Some?;
    }
  }

  /** Where an identity is named by a mention not linked yet. */
  ghost function Unlinked(ms: seq<Mention>, key: Identity, normalize: Normalizer): set<nat> {
    set i: nat | i < |ms| && ms[i].link.None? && Names(ms[i], key, normalize)
  }

  /** Every unlinked mention is counted, and counted once. */
  lemma {:induction false} PendingCount(ms: seq<Mention>, key: Identity, normalize: Normalizer)
    ensures |At(Pending(ms), key, normalize)| == |Unlinked(ms, key, normalize)|
  {
    hide Names;
    if ms == [] {
      assert At([], key, normalize) == {} && Unlinked([], key, normalize) == {};
    } else {
      var init, m := ms[..|ms| - 1], ms[|ms| - 1];
      PendingCount(init, key, normalize);
      assert ms == init + [m];
      UnlinkedSnoc(init, m, key, normalize);
      if m.link.None? {
        AtSnoc(Pending(init), m, key, normalize);
      } else {
        assert Pending(ms) == Pending(init);
      }
    }
  }

  lemma UnlinkedSnoc(init: seq<Mention>, m: Mention, key: Identity, normalize: Normalizer)
    ensures |Unlinked(init + [m], key, normalize)|
         == |Unlinked(init, key, normalize)| + if m.link.None? && Names(m, key, normalize) then 1 else 0
  {
    hide Names;
    var ms, was := init + [m], Unlinked(init, key, normalize);
    assert |init| !in was;
    assert ms[|init|] == m && forall i | 0 <= i < |init| :: ms[i] == init[i];
    assert Unlinked(ms, key, normalize)
        == if m.link.None? && Names(m, key, normalize) then was + {|init|} else was;
  }

  /** Mentions of other users, or unknown ones, are silently skipped. */
  function Linked(entities: Entities, user: Uuid, links: map<Uuid, Uuid>): Entities {
    map id | id in entities ::
      if id in links && entities[id].user == user then entities[id].(link := Some(links[id])) else entities[id]
  }

  class EntityRepository {
    var rows: Entities

    constructor ()
      ensures rows == map[]
    {
      rows := map[];
    }

    method BulkSetCanonicalEntityID(user: Uuid, mentionToCanonical: map<Uuid, Uuid>)
      modifies this
      ensures rows == Linked(old(rows), user, mentionToCanonical)
    {
      var todo := mentionToCanonical.Keys;
      while todo != {}
        invariant todo <= mentionToCanonical.Keys
        invariant rows.Keys == old(rows).Keys
        invariant forall id | id in rows :: rows[id] ==
                    if id in mentionToCanonical && id !in todo && old(rows)[id].user == user
                    then old(rows)[id].(link := Some(mentionToCanonical[id])) else old(rows)[id]
        decreases todo
      {
        var id :| id in todo;
        todo := todo - {id};
        if id in rows && rows[id].user == user {
          rows := rows[id := rows[id].(link := Some(mentionToCanonical[id]))];
        }
      }
    }
  }

  /** The call ResolveNew makes: only the mentions not linked yet. */
  ghost function PendingCall(s: Store, ms: seq<Mention>, now: int, normalize: Normalizer): Call {
    CountAll(s, Pending(ms), now, normalize)
  }

  /** Each row's mention count grows by exactly the unlinked mentions that name its identity. */
  ghost predicate CountsUnlinked(s: Store, t: Store, ms: seq<Mention>, normalize: Normalizer) {
    && s.rows.Keys <= t.rows.Keys
    && forall id | id in t.rows ::
         MentionsOf(t, id) == MentionsOf(s, id) + |Unlinked(ms, t.rows[id].identity, normalize)|
  }

  /** And everything else a call for exactly the unlinked mentions changes. */
  ghost predicate CountsExtracted(s: Store, t: Store, ms: seq<Mention>, now: int, normalize: Normalizer) {
    exists pending, at :: Extracts(ms, pending, at) && Counts(s, t, pending, now, normalize)
  }

  /**
   * The user's entities named by an unlinked mention lead to a live row of
   * that mention's own identity; the rest are as they were.
   */
  ghost predicate LinksStored(was: Entities, entities: Entities, user: Uuid, ms: seq<Mention>, rows: map<Uuid, Row>,
                              normalize: Normalizer)
  {
    && entities.Keys == was.Keys
    && forall id | id in was ::
         if was[id].user == user && Asked(ms, id)
         then LinkStored(was[id], entities[id], id, ms, rows, normalize) else entities[id] == was[id]
  }

  ghost predicate Asked(ms: seq<Mention>, id: Uuid) {
    exists m :: m in ms && m.link.None? && m.id == id
  }

  ghost predicate LinkStored(was: Mention, entity: Mention, id: Uuid, ms: seq<Mention>, rows: map<Uuid, Row>,
                             normalize: Normalizer)
  {
    && entity == was.(link := entity.link) && entity.link.Some? && entity.link.value in rows
    && exists m :: m in ms && m.link.None? && m.id == id && Names(m, rows[entity.link.value].identity, normalize)
  }

  lemma {:induction false} LastOf(ms: seq<Mention>, i: nat) returns (k: nat)
    requires i < |ms|
    ensures Last(ms, k) && ms[k].id == ms[i].id
    decreases |ms| - i
  {
    if Last(ms, i) {
      k := i;
    } else {
      var j :| i < j < |ms| && ms[j].id == ms[i].id;
      k := LastOf(ms, j);
    }
  }

  lemma StoredRight(entities: Entities, user: Uuid, ms: seq<Mention>, links: map<Uuid, Uuid>, rows: map<Uuid, Row>,
                    normalize: Normalizer)
    requires Resolves(Pending(ms), links, rows, normalize)
    ensures LinksStored(entities, Linked(entities, user, links), user, ms, rows, normalize)
  {
    hide Names, Last, Pending;
    var pending := Pending(ms);
    forall id | id in links ensures Asked(ms, id) && links[id] in rows
                              && exists m :: m in ms && m.link.None? && m.id == id
                                             && Names(m, rows[links[id]].identity, normalize)
    {
      var i :| 0 <= i < |pending| && pending[i].id == id;
      var k := LastOf(pending, i);
      assert ResolvesTo(pending[k], links, rows, normalize) && pending[k] in pending;
    }
    forall id | Asked(ms, id) ensures id in links {
      var m :| m in ms && m.link.None? && m.id == id;
      assert m in pending;
      var i :| 0 <= i < |pending| && pending[i] == m;
      var k := LastOf(pending, i);
      assert ResolvesTo(pending[k], links, rows, normalize);
    }
  }

  /** What a resolve counts, in the terms of all its mentions. */
  lemma ResolvedCounts(s: Store, t: Store, ms: seq<Mention>, now: int, normalize: Normalizer)
    requires Counts(s, t, Pending(ms), now, normalize)
    ensures CountsUnlinked(s, t, ms, normalize) && CountsExtracted(s, t, ms, now, normalize)
  {
    hide Extracts, Pending, At, Unlinked, OwedAfter;
    var at := PendingExtracts(ms);
    forall id | id in t.rows
      ensures MentionsOf(t, id) == MentionsOf(s, id) + |Unlinked(ms, t.rows[id].identity, normalize)|
    {
      PendingCount(ms, t.rows[id].identity, normalize);
      assert RowAfter(s.rows, t.rows[id], id, Pending(ms), now, normalize);
    }
  }

  method ResolveNew(repo: Repository, entities: EntityRepository, user: Uuid, mentions: seq<Mention>, now: int)
    returns (resolved: Option<map<Uuid, Uuid>>)
    requires repo.Valid()
    modifies repo, entities
    ensures repo.Valid()
    ensures var call := PendingCall(old(repo.State()), mentions, now, repo.normalize);
            if Pending(mentions) == [] then
              resolved == None && repo.State() == old(repo.State()) && entities.rows == old(entities.rows)
            else
              && resolved == Some(call.resolved) && repo.State() == call.store
              && entities.rows == Linked(old(entities.rows), user, call.resolved)
    ensures CountsUnlinked(old(repo.State()), repo.State(), mentions, repo.normalize)
    ensures CountsExtracted(old(repo.State()), repo.State(), mentions, now, repo.normalize)
    ensures LinksStored(old(entities.rows), entities.rows, user, mentions, repo.rows, repo.normalize)
  {
    hide CountsUnlinked, CountsExtracted, LinksStored, Counts, Resolves, WellFormed, CountMention;
    var pending: seq<Mention> := [];
    for i := 0 to |mentions|
      invariant pending == Pending(mentions[..i])
    {
      assert mentions[..i + 1][..i] == mentions[..i];
      if mentions[i].link.None? {
        pending := pending + [mentions[i]];
      }
    }
    assert mentions[..|mentions|] == mentions;
    ghost var start := repo.State();
    if |pending| == 0 {
      CallMeans(start, [], now, repo.normalize);
      ResolvedCounts(start, start, mentions, now, repo.normalize);
      StoredRight(entities.rows, user, mentions, map[], repo.rows, repo.normalize);
      LinkedNone(entities.rows, user);
      return None;
    }
    var links := repo.Canonicalize(pending, now);
    ResolvedCounts(start, repo.State(), mentions, now, repo.normalize);
    StoredRight(entities.rows, user, mentions, links, repo.rows, repo.normalize);
    entities.BulkSetCanonicalEntityID(user, links);
    return Some(links);
  }

  lemma LinkedNone(entities: Entities, user: Uuid)
    ensures Linked(entities, user, map[]) == entities
  {
  }

  // ----- Repeating it

  /** The mentions are this user's, as the entity store holds them. */
  ghost predicate ReadFrom(entities: Entities, user: Uuid, ms: seq<Mention>) {
    forall m | m in ms :: m.id in entities && entities[m.id] == m && m.user == user
  }

  /** The same mentions read again. */
  ghost function Reread(entities: Entities, ms: seq<Mention>): (r: seq<Mention>)
    requires forall m | m in ms :: m.id in entities
    ensures |r| == |ms| && forall i | 0 <= i < |ms| :: r[i] == entities[ms[i].id]
  {
    seq(|ms|, i requires 0 <= i < |ms| => assert ms[i] in ms; entities[ms[i].id])
  }

  lemma {:induction false} ResolvedAll(s: Store, ms: seq<Mention>, now: int, normalize: Normalizer)
    ensures forall m | m in ms :: m.id in CountAll(s, ms, now, normalize).resolved
  {
    if ms != [] {
      assert ms == ms[..|ms| - 1] + [ms[|ms| - 1]];
      ResolvedAll(s, ms[..|ms| - 1], now, normalize);
    }
  }

  /** Once resolved, re-reading the mentions leaves nothing pending, so a repeat changes nothing. */
  lemma ResolveNewTwice(s: Store, entities: Entities, user: Uuid, ms: seq<Mention>, now: int, normalize: Normalizer)
    requires ReadFrom(entities, user, ms)
    ensures var entities' := Linked(entities, user, PendingCall(s, ms, now, normalize).resolved);
            (forall m | m in ms :: m.id in entities') && Pending(Reread(entities', ms)) == []
  {
    var links := PendingCall(s, ms, now, normalize).resolved;
    var entities' := Linked(entities, user, links);
    ResolvedAll(s, Pending(ms), now, normalize);
    forall m | m in ms ensures m.id in entities' && entities'[m.id].link.Some? {
      if m.link.None? {
        assert m in Pending(ms);
      }
    }
    var again := Reread(entities', ms);
    forall m | m in again ensures m.link.Some? {
      var i :| 0 <= i < |again| && again[i] == m;
      assert ms[i] in ms;
    }
    if Pending(again) != [] {
      assert Pending(again)[0] in Pending(again);
    }
  }

  /** Every link the call makes leads to a live row of the mention's own identity. */
  ghost predicate RightlyLinked(c: Call, m: Mention, normalize: Normalizer) {
    && m.id in c.resolved && c.resolved[m.id] in c.store.rows
    && Names(m, c.store.rows[c.resolved[m.id]].identity, normalize)
  }

  lemma LinkedNow(c: Call, m: Mention, now: int, normalize: Normalizer)
    requires WellFormed(c.store)
    ensures RightlyLinked(CountMention(c, m, now, normalize), m, normalize)
  {
    MentionWellFormed(c, m, now, normalize);
  }

  lemma LinkedStill(c: Call, last: Mention, now: int, normalize: Normalizer, m: Mention)
    requires WellFormed(c.store) && RightlyLinked(c, m, normalize) && m.id != last.id
    ensures RightlyLinked(CountMention(c, last, now, normalize), m, normalize)
  {
    MentionWellFormed(c, last, now, normalize);
  }

  lemma {:induction false} LinksRight(s: Store, ms: seq<Mention>, now: int, normalize: Normalizer)
    requires WellFormed(s)
    requires forall m, m' | m in ms && m' in ms && m.id == m'.id :: m == m'
    ensures WellFormed(CountAll(s, ms, now, normalize).store)
    ensures forall m | m in ms :: RightlyLinked(CountAll(s, ms, now, normalize), m, normalize)
  {
    if ms != [] {
      var init, last := ms[..|ms| - 1], ms[|ms| - 1];
      assert ms == init + [last];
      LinksRight(s, init, now, normalize);
      var c := CountAll(s, init, now, normalize);
      MentionWellFormed(c, last, now, normalize);
      hide WellFormed, CountMention, RightlyLinked;
      forall m | m in ms ensures RightlyLinked(CountMention(c, last, now, normalize), m, normalize) {
        if m == last {
          LinkedNow(c, last, now, normalize);
        } else {
          LinkedStill(c, last, now, normalize, m);
        }
      }
    }
  }
}
