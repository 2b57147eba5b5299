/**
 * What a Canonicalize call does, told by the positions of its mentions and
 * the fields they carry: which rows it counts, by how much, and which row
 * each mention resolves to.
 */
module CanonicalCalls {
  import opened Wrappers
  import opened CanonicalModel
  import opened CanonicalRuns

  /** The mention names the identity: same base, tenant and type, and its text normalizes to the identity's. */
  ghost predicate Names(m: Mention, key: Identity, normalize: Normalizer) {
    m.kb == key.kb && m.user == key.user && m.kind == key.kind && normalize(m.text) == key.normalized
  }

  ghost predicate Alike(m: Mention, m': Mention, normalize: Normalizer) {
    m.kb == m'.kb && m.user == m'.user && m.kind == m'.kind && normalize(m.text) == normalize(m'.text)
  }

  /** Where a call's mentions name an identity. */
  ghost function At(ms: seq<Mention>, key: Identity, normalize: Normalizer): set<nat> {
    set i: nat | i < |ms| && Names(ms[i], key, normalize)
  }

  /** Where they do so in one document. */
  ghost function In(ms: seq<Mention>, key: Identity, normalize: Normalizer, user: Uuid, document: Uuid): set<nat> {
    set i: nat | i < |ms| && Names(ms[i], key, normalize) && ms[i].user == user && ms[i].document == document
  }

  /** A row that was there gains its mentions and at most one document; a new one is made from its first mention. */
  ghost predicate RowAfter(before: map<Uuid, Row>, row: Row, id: Uuid, ms: seq<Mention>, now: int,
                           normalize: Normalizer)
  {
    var at := At(ms, row.identity, normalize);
    if id in before then
      row == before[id].(mentions := before[id].mentions + |at|,
                         documents := before[id].documents + if at == {} then 0 else 1)
    else
      row.mentions == |at| && row.documents == 1 && row.createdAt == now && Texted(row.text, ms, at)
  }

  /** The text is that of the first of some positions. */
  ghost predicate Texted(text: string, ms: seq<Mention>, at: set<nat>) {
    exists i: nat :: i in at && i < |ms| && text == ms[i].text && forall j | j in at :: i <= j
  }

  /** What each document contributes to a row grows by how often the call names it there. */
  ghost predicate OwedAfter(s: Store, t: Store, id: Uuid, ms: seq<Mention>, normalize: Normalizer) {
    forall k ::
      Owed(t, id)(k) == Owed(s, id)(k)
        + if id in t.rows then |In(ms, t.rows[id].identity, normalize, k.user, k.document)| else 0
  }

  ghost predicate Counts(s: Store, t: Store, ms: seq<Mention>, now: int, normalize: Normalizer) {
    && s.rows.Keys <= t.rows.Keys
    && (forall id | id in t.rows :: RowAfter(s.rows, t.rows[id], id, ms, now, normalize))
    && (forall id :: OwedAfter(s, t, id, ms, normalize))
  }

  /** No later mention of the call has this one's id. */
  ghost predicate Last(ms: seq<Mention>, i: nat) {
    i < |ms| && forall j | i < j < |ms| :: ms[j].id != ms[i].id
  }

  /** Each mention resolves to a live row of its own identity. */
  ghost predicate Resolves(ms: seq<Mention>, resolved: map<Uuid, Uuid>, rows: map<Uuid, Row>, normalize: Normalizer) {
    && (forall id | id in resolved :: exists i :: 0 <= i < |ms| && ms[i].id == id)
    && (forall i: nat | Last(ms, i) :: ResolvesTo(ms[i], resolved, rows, normalize))
  }

  ghost predicate ResolvesTo(m: Mention, resolved: map<Uuid, Uuid>, rows: map<Uuid, Row>, normalize: Normalizer) {
    m.id in resolved && resolved[m.id] in rows && Names(m, rows[resolved[m.id]].identity, normalize)
  }

  // ----- One mention

  /** Counting one mention, in fields. */
  lemma MentionInFields(c: Call, m: Mention, now: int, normalize: Normalizer)
    requires WellFormed(c.store)
    ensures var s, next, id := c.store, CountMention(c, m, now, normalize), Resolve(c.store, m, normalize);
            var t := next.store;
            && WellFormed(t) && t.rows.Keys == s.rows.Keys + {id}
            && (forall x | x in t.rows :: Names(m, t.rows[x].identity, normalize) <==> x == id)
            && (forall x | x in s.rows && x != id :: t.rows[x] == s.rows[x])
            && (id in s.rows ==>
                  t.rows[id] == s.rows[id].(mentions := s.rows[id].mentions + 1,
                                            documents := s.rows[id].documents + if id in c.touched then 0 else 1))
            && (id !in s.rows ==>
                  && t.rows[id].text == m.text && t.rows[id].createdAt == now
                  && t.rows[id].mentions == 1 && t.rows[id].documents == if id in c.touched then 0 else 1)
            && next.touched == c.touched + {id} && next.resolved == c.resolved[m.id := id]
  {
    MentionWellFormed(c, m, now, normalize);
    var s, id := c.store, Resolve(c.store, m, normalize);
    var t := CountMention(c, m, now, normalize).store;
    assert t.rows[id].identity == IdentityOf(m, normalize);
    forall x | x in t.rows ensures Names(m, t.rows[x].identity, normalize) <==> x == id {
      assert Names(m, t.rows[x].identity, normalize) <==> t.rows[x].identity == IdentityOf(m, normalize);
    }
  }

  lemma MentionOwed(c: Call, m: Mention, now: int, normalize: Normalizer, x: Uuid, k: DocKey)
    ensures var t := CountMention(c, m, now, normalize).store;
            Owed(t, x)(k) == Owed(c.store, x)(k)
              + if x == Resolve(c.store, m, normalize) && m.user == k.user && m.document == k.document then 1 else 0
  {
    MentionEffect(c, m, now, normalize);
  }

  lemma AtSnoc(init: seq<Mention>, m: Mention, key: Identity, normalize: Normalizer)
    ensures var at, at' := At(init, key, normalize), At(init + [m], key, normalize);
            && at' == (if Names(m, key, normalize) then at + {|init|} else at)
            && |at'| == |at| + if Names(m, key, normalize) then 1 else 0
  {
    assert |init| !in At(init, key, normalize);
    var ms := init + [m];
    assert ms[|init|] == m && forall i | 0 <= i < |init| :: ms[i] == init[i];
    assert At(ms, key, normalize)
        == if Names(m, key, normalize) then At(init, key, normalize) + {|init|} else At(init, key, normalize);
  }

  lemma InSnoc(init: seq<Mention>, m: Mention, key: Identity, normalize: Normalizer, user: Uuid, document: Uuid)
    ensures |In(init + [m], key, normalize, user, document)| == |In(init, key, normalize, user, document)|
              + if Names(m, key, normalize) && m.user == user && m.document == document then 1 else 0
  {
    var ms, was := init + [m], In(init, key, normalize, user, document);
    assert |init| !in was;
    assert ms[|init|] == m && forall i | 0 <= i < |init| :: ms[i] == init[i];
    assert In(ms, key, normalize, user, document)
        == if Names(m, key, normalize) && m.user == user && m.document == document then was + {|init|} else was;
  }

  // ----- A whole call

  /** The rows touched are those some mention of the call names. */
  ghost predicate Touches(c: Call, ms: seq<Mention>, normalize: Normalizer) {
    forall id :: id in c.touched <==> id in c.store.rows && At(ms, c.store.rows[id].identity, normalize) != {}
  }

  /** Every mention so far has its row. */
  ghost predicate Found(c: Call, ms: seq<Mention>, normalize: Normalizer) {
    forall i | 0 <= i < |ms| :: HasRow(c, ms[i], normalize)
  }

  ghost predicate HasRow(c: Call, m: Mention, normalize: Normalizer) {
    exists id :: id in c.store.rows && Names(m, c.store.rows[id].identity, normalize)
  }

  /** A row made for a mention is named by no mention before it. */
  lemma FirstNamed(c: Call, init: seq<Mention>, m: Mention, now: int, normalize: Normalizer)
    requires WellFormed(c.store) && Found(c, init, normalize)
    requires Resolve(c.store, m, normalize) !in c.store.rows
    ensures At(init, CountMention(c, m, now, normalize).store.rows[Resolve(c.store, m, normalize)].identity, normalize)
         == {}
  {
    hide WellFormed, Resolve, CountMention;
    var t := CountMention(c, m, now, normalize).store;
    MentionInFields(c, m, now, normalize);
    forall i | 0 <= i < |init| ensures !Names(init[i], t.rows[Resolve(c.store, m, normalize)].identity, normalize) {
      assert HasRow(c, init[i], normalize);
      var x :| x in c.store.rows && Names(init[i], c.store.rows[x].identity, normalize);
      assert t.rows[x] == c.store.rows[x] && !Names(m, t.rows[x].identity, normalize);
    }
  }

  lemma TextedStill(text: string, init: seq<Mention>, m: Mention, at: set<nat>, at': set<nat>)
    requires Texted(text, init, at) && at' in {at, at + {|init|}}
    ensures Texted(text, init + [m], at')
  {
    var i: nat :| i in at && i < |init| && text == init[i].text && forall j | j in at :: i <= j;
    assert (init + [m])[i] == init[i];
  }

  lemma TextedFirst(init: seq<Mention>, m: Mention)
    ensures Texted(m.text, init + [m], {|init|})
  {
    assert (init + [m])[|init|] == m;
  }

  /** The row made for a mention. */
  lemma RowMade(s: Store, c: Call, init: seq<Mention>, m: Mention, now: int, normalize: Normalizer)
    requires WellFormed(c.store) && Found(c, init, normalize) && Touches(c, init, normalize)
    requires s.rows.Keys <= c.store.rows.Keys && Resolve(c.store, m, normalize) !in c.store.rows
    ensures var t, x := CountMention(c, m, now, normalize).store, Resolve(c.store, m, normalize);
            x in t.rows && RowAfter(s.rows, t.rows[x], x, init + [m], now, normalize)
  {
    var t, x := CountMention(c, m, now, normalize).store, Resolve(c.store, m, normalize);
    MentionInFields(c, m, now, normalize);
    hide WellFormed, Resolve, CountMention, Names, Found, At, Texted;
    AtSnoc(init, m, t.rows[x].identity, normalize);
    FirstNamed(c, init, m, now, normalize);
    TextedFirst(init, m);
    assert {} + {|init|} == {|init|} && |init| in {|init|};
  }

  /** A row counted again. */
  lemma RowPlus(before: map<Uuid, Row>, row: Row, x: Uuid, init: seq<Mention>, m: Mention, now: int,
                normalize: Normalizer, touched: bool)
    requires RowAfter(before, row, x, init, now, normalize) && Names(m, row.identity, normalize)
    requires touched <==> At(init, row.identity, normalize) != {}
    ensures var row' := row.(mentions := row.mentions + 1, documents := row.documents + if touched then 0 else 1);
            RowAfter(before, row', x, init + [m], now, normalize)
  {
    hide Names, At, Texted;
    AtSnoc(init, m, row.identity, normalize);
    var at := At(init, row.identity, normalize);
    assert |init| in at + {|init|};
    if x !in before {
      TextedSome(row.text, init, at);
      TextedStill(row.text, init, m, at, at + {|init|});
    }
  }

  lemma TextedSome(text: string, ms: seq<Mention>, at: set<nat>)
    requires Texted(text, ms, at)
    ensures at != {}
  {
  }

  lemma CountedAgain(c: Call, m: Mention, now: int, normalize: Normalizer)
    requires WellFormed(c.store) && Resolve(c.store, m, normalize) in c.store.rows
    ensures var x := Resolve(c.store, m, normalize);
            var row, t := c.store.rows[x], CountMention(c, m, now, normalize).store;
            && Names(m, row.identity, normalize) && x in t.rows
            && t.rows[x] == row.(mentions := row.mentions + 1,
                                 documents := row.documents + if x in c.touched then 0 else 1)
  {
    MentionInFields(c, m, now, normalize);
  }

  /** Any other row. */
  lemma RowStays(s: Store, c: Call, init: seq<Mention>, m: Mention, now: int, normalize: Normalizer, x: Uuid)
    requires x in c.store.rows && RowAfter(s.rows, c.store.rows[x], x, init, now, normalize)
    requires !Names(m, c.store.rows[x].identity, normalize)
    ensures RowAfter(s.rows, c.store.rows[x], x, init + [m], now, normalize)
  {
    hide Names, At, Texted;
    var key := c.store.rows[x].identity;
    AtSnoc(init, m, key, normalize);
    if x !in s.rows {
      TextedStill(c.store.rows[x].text, init, m, At(init, key, normalize), At(init, key, normalize));
    }
  }

  lemma TouchStep(c: Call, init: seq<Mention>, m: Mention, now: int, normalize: Normalizer)
    requires WellFormed(c.store) && Touches(c, init, normalize) && Found(c, init, normalize)
    ensures Touches(CountMention(c, m, now, normalize), init + [m], normalize)
    ensures Found(CountMention(c, m, now, normalize), init + [m], normalize)
  {
    var next, id := CountMention(c, m, now, normalize), Resolve(c.store, m, normalize);
    MentionInFields(c, m, now, normalize);
    hide WellFormed, Resolve, CountMention, Names, At;
    forall x ensures x in next.touched <==>
                       x in next.store.rows && At(init + [m], next.store.rows[x].identity, normalize) != {}
    {
      if x in next.store.rows {
        AtSnoc(init, m, next.store.rows[x].identity, normalize);
        assert |init| in At(init, next.store.rows[x].identity, normalize) + {|init|};
      }
    }
    forall i | 0 <= i < |init + [m]| ensures HasRow(next, (init + [m])[i], normalize) {
      if i < |init| {
        assert HasRow(c, init[i], normalize);
        var x :| x in c.store.rows && Names(init[i], c.store.rows[x].identity, normalize);
        assert next.store.rows[x].identity == c.store.rows[x].identity;
      } else {
        assert id in next.store.rows;
      }
    }
  }

  lemma OwedStep(s: Store, c: Call, init: seq<Mention>, m: Mention, now: int, normalize: Normalizer, x: Uuid)
    requires WellFormed(c.store) && Found(c, init, normalize) && OwedAfter(s, c.store, x, init, normalize)
    ensures OwedAfter(s, CountMention(c, m, now, normalize).store, x, init + [m], normalize)
  {
    var t := CountMention(c, m, now, normalize).store;
    MentionInFields(c, m, now, normalize);
    hide WellFormed, Resolve, CountMention, Found, Owed;
    forall k ensures Owed(t, x)(k) == Owed(s, x)(k)
                       + if x in t.rows then |In(init + [m], t.rows[x].identity, normalize, k.user, k.document)| else 0
    {
      MentionOwed(c, m, now, normalize, x, k);
      if x in t.rows {
        var key := t.rows[x].identity;
        InSnoc(init, m, key, normalize, k.user, k.document);
        if x !in c.store.rows {
          FirstNamed(c, init, m, now, normalize);
          assert In(init, key, normalize, k.user, k.document) <= At(init, key, normalize);
        }
      }
    }
  }

  lemma LastBefore(init: seq<Mention>, m: Mention, i: nat)
    requires i < |init| && Last(init + [m], i)
    ensures Last(init, i) && init[i] == (init + [m])[i] && init[i].id != m.id
  {
    var ms := init + [m];
    assert ms[|init|] == m && forall j | 0 <= j < |init| :: ms[j] == init[j];
  }

  lemma ResolveStep(c: Call, init: seq<Mention>, m: Mention, now: int, normalize: Normalizer)
    requires WellFormed(c.store) && Resolves(init, c.resolved, c.store.rows, normalize)
    ensures var next := CountMention(c, m, now, normalize);
            Resolves(init + [m], next.resolved, next.store.rows, normalize)
  {
    var next, ms := CountMention(c, m, now, normalize), init + [m];
    MentionInFields(c, m, now, normalize);
    hide WellFormed, Resolve, CountMention, Names, Last;
    assert ms[|init|] == m;
    forall id | id in next.resolved ensures exists i :: 0 <= i < |ms| && ms[i].id == id {
      if id != m.id {
        var i :| 0 <= i < |init| && init[i].id == id;
        assert ms[i].id == id;
      }
    }
    forall i: nat | Last(ms, i) ensures ResolvesTo(ms[i], next.resolved, next.store.rows, normalize) {
      if i < |init| {
        LastBefore(init, m, i);
        assert ResolvesTo(init[i], c.resolved, c.store.rows, normalize);
      }
    }
  }

  ghost predicate Told(s: Store, c: Call, ms: seq<Mention>, now: int, normalize: Normalizer) {
    && WellFormed(c.store) && Counts(s, c.store, ms, now, normalize)
    && Resolves(ms, c.resolved, c.store.rows, normalize)
    && Touches(c, ms, normalize) && Found(c, ms, normalize)
  }

  lemma RowStep(s: Store, c: Call, init: seq<Mention>, m: Mention, now: int, normalize: Normalizer, x: Uuid)
    requires WellFormed(c.store) && Found(c, init, normalize) && Touches(c, init, normalize)
    requires Counts(s, c.store, init, now, normalize) && x in CountMention(c, m, now, normalize).store.rows
    ensures RowAfter(s.rows, CountMention(c, m, now, normalize).store.rows[x], x, init + [m], now, normalize)
  {
    MentionInFields(c, m, now, normalize);
    hide WellFormed, Resolve, CountMention, Names, Found, RowAfter, OwedAfter, At;
    if x == Resolve(c.store, m, normalize) {
      if x in c.store.rows {
        CountedAgain(c, m, now, normalize);
        RowPlus(s.rows, c.store.rows[x], x, init, m, now, normalize, x in c.touched);
      } else {
        RowMade(s, c, init, m, now, normalize);
      }
    } else {
      assert CountMention(c, m, now, normalize).store.rows[x] == c.store.rows[x];
      RowStays(s, c, init, m, now, normalize, x);
    }
  }

  lemma RowsGrow(c: Call, m: Mention, now: int, normalize: Normalizer)
    ensures c.store.rows.Keys <= CountMention(c, m, now, normalize).store.rows.Keys
  {
  }

  lemma CountsStep(s: Store, c: Call, init: seq<Mention>, m: Mention, now: int, normalize: Normalizer)
    requires WellFormed(c.store) && Found(c, init, normalize) && Touches(c, init, normalize)
    requires Counts(s, c.store, init, now, normalize)
    ensures Counts(s, CountMention(c, m, now, normalize).store, init + [m], now, normalize)
  {
    hide WellFormed, CountMention, Found, Touches, RowAfter, OwedAfter;
    var t := CountMention(c, m, now, normalize).store;
    RowsGrow(c, m, now, normalize);
    forall x | x in t.rows ensures RowAfter(s.rows, t.rows[x], x, init + [m], now, normalize) {
      RowStep(s, c, init, m, now, normalize, x);
    }
    forall x ensures OwedAfter(s, t, x, init + [m], normalize) {
      OwedStep(s, c, init, m, now, normalize, x);
    }
  }

  lemma ToldStep(s: Store, c: Call, init: seq<Mention>, m: Mention, now: int, normalize: Normalizer)
    requires Told(s, c, init, now, normalize)
    ensures Told(s, CountMention(c, m, now, normalize), init + [m], now, normalize)
  {
    hide WellFormed, CountMention, Found, Touches, Resolves, Counts;
    MentionWellFormed(c, m, now, normalize);
    CountsStep(s, c, init, m, now, normalize);
    ResolveStep(c, init, m, now, normalize);
    TouchStep(c, init, m, now, normalize);
  }

  lemma ToldStart(s: Store, now: int, normalize: Normalizer)
    requires WellFormed(s)
    ensures Told(s, Call(s, {}, map[]), [], now, normalize)
  {
  }

  /** A call counts, and resolves, what its mentions say. */
  lemma {:induction false} CallTold(s: Store, ms: seq<Mention>, now: int, normalize: Normalizer)
    requires WellFormed(s)
    ensures Told(s, CountAll(s, ms, now, normalize), ms, now, normalize)
  {
    hide Told, CountMention;
    if ms == [] {
      ToldStart(s, now, normalize);
    } else {
      var init, m := ms[..|ms| - 1], ms[|ms| - 1];
      CallTold(s, init, now, normalize);
      ToldStep(s, CountAll(s, init, now, normalize), init, m, now, normalize);
      assert ms == init + [m];
    }
  }

  /** Two mentions of a call share a row exactly when they are alike in what the store keeps unique. */
  ghost predicate SharedAlike(ms: seq<Mention>, resolved: map<Uuid, Uuid>, normalize: Normalizer) {
    forall i: nat, j: nat | Last(ms, i) && Last(ms, j) :: SharedIfAlike(ms[i], ms[j], resolved, normalize)
  }

  ghost predicate SharedIfAlike(m: Mention, m': Mention, resolved: map<Uuid, Uuid>, normalize: Normalizer) {
    && m.id in resolved && m'.id in resolved
    && (resolved[m.id] == resolved[m'.id] <==> Alike(m, m', normalize))
  }

  lemma SharedRow(m: Mention, m': Mention, resolved: map<Uuid, Uuid>, rows: map<Uuid, Row>, normalize: Normalizer)
    requires UniqueIdentities(rows) && ResolvesTo(m, resolved, rows, normalize)
    requires ResolvesTo(m', resolved, rows, normalize)
    ensures SharedIfAlike(m, m', resolved, normalize)
  {
  }

  /** A call in the terms of its mentions' fields. */
  lemma CallMeans(s: Store, ms: seq<Mention>, now: int, normalize: Normalizer)
    requires WellFormed(s)
    ensures var c := CountAll(s, ms, now, normalize);
            && Counts(s, c.store, ms, now, normalize) && Resolves(ms, c.resolved, c.store.rows, normalize)
            && SharedAlike(ms, c.resolved, normalize)
  {
    CallTold(s, ms, now, normalize);
    var c := CountAll(s, ms, now, normalize);
    hide Counts, SharedIfAlike, ResolvesTo, UniqueIdentities, CountAll, IdsBelow;
    forall i: nat, j: nat | Last(ms, i) && Last(ms, j) ensures SharedIfAlike(ms[i], ms[j], c.resolved, normalize) {
      SharedRow(ms[i], ms[j], c.resolved, c.store.rows, normalize);
    }
  }
}
