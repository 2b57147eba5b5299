/** What every run of the canonical store keeps, and what one document's contribution leaves behind. */
module CanonicalRuns {
  import opened SetSums
  import opened CanonicalModel

  // ----- One mention

  /** Everything one counted mention changes. */
  lemma MentionEffect(c: Call, m: Mention, now: int, normalize: Normalizer)
    ensures var s, t := c.store, CountMention(c, m, now, normalize).store;
            var id, doc := Resolve(s, m, normalize), DocOf(m);
            && (forall i, k :: Owed(t, i)(k) == Owed(s, i)(k) + if i == id && k == doc then 1 else 0)
            && (forall i :: Documents(t, i) == Documents(s, i) + if i == id then {doc} else {})
            && t.contributions.Keys == s.contributions.Keys + {doc}
            && (doc !in s.contributions ==> forall i :: Owed(s, i)(doc) == 0)
  {
    var s, t := c.store, CountMention(c, m, now, normalize).store;
    var id, doc := Resolve(s, m, normalize), DocOf(m);
    forall i ensures Documents(t, i) == Documents(s, i) + if i == id then {doc} else {} {
      forall k ensures k in Documents(t, i) <==> k in Documents(s, i) + if i == id then {doc} else {} {
      }
    }
  }

  /** The call's document contributes to every row the call has touched. */
  ghost predicate UnderWay(c: Call, doc: DocKey) {
    && Invariant(c.store)
    && forall id | id in c.touched :: id in c.store.rows && doc in Documents(c.store, id)
  }

  lemma MentionWellFormed(c: Call, m: Mention, now: int, normalize: Normalizer)
    requires WellFormed(c.store)
    ensures WellFormed(CountMention(c, m, now, normalize).store)
    ensures Target(c.store, m, now, normalize).identity == IdentityOf(m, normalize)
    ensures Resolve(c.store, m, normalize) in c.store.rows || Resolve(c.store, m, normalize) == c.store.nextId
  {
  }

  lemma CountedOrAbsent(s: Store, i: Uuid)
    requires Invariant(s)
    ensures MentionsOf(s, i) == OwedTotal(s, i) && DocumentsOf(s, i) >= |Documents(s, i)|
    ensures MentionsOf(s, i) >= 0
  {
    if i in s.rows {
      assert Counted(s, i);
    } else {
      OwedByNone(s, i);
    }
  }

  lemma MentionTotals(c: Call, m: Mention, now: int, normalize: Normalizer, i: Uuid)
    ensures var s, t := c.store, CountMention(c, m, now, normalize).store;
            var here := i == Resolve(s, m, normalize);
            && OwedTotal(t, i) == OwedTotal(s, i) + (if here then 1 else 0)
            && |Documents(t, i)| == |Documents(s, i)| + (if here && DocOf(m) !in Documents(s, i) then 1 else 0)
  {
    var s, t := c.store, CountMention(c, m, now, normalize).store;
    MentionEffect(c, m, now, normalize);
    hide CountMention, Owed, Documents, Resolve;
    SumChange(s.contributions.Keys, Owed(s, i), Owed(t, i), DocOf(m));
    SizeAfter(Documents(s, i), DocOf(m));
  }

  /** The row a mention is counted on stays counted, and so does every other row. */
  lemma MentionCounted(c: Call, m: Mention, now: int, normalize: Normalizer, i: Uuid)
    requires UnderWay(c, DocOf(m)) && i in CountMention(c, m, now, normalize).store.rows
    ensures Counted(CountMention(c, m, now, normalize).store, i)
  {
    var s, id := c.store, Resolve(c.store, m, normalize);
    assert id in c.touched ==> DocOf(m) in Documents(s, id);
    CountedOrAbsent(s, i);
    MentionTotals(c, m, now, normalize, i);
    MentionRow(c, m, now, normalize, i);
    hide CountMention, Owed, Documents, Resolve, Invariant;
  }

  lemma MentionRow(c: Call, m: Mention, now: int, normalize: Normalizer, i: Uuid)
    requires i in CountMention(c, m, now, normalize).store.rows
    ensures var s, t, id := c.store, CountMention(c, m, now, normalize).store, Resolve(c.store, m, normalize);
            && MentionsOf(t, i) == MentionsOf(s, i) + (if i == id then 1 else 0)
            && DocumentsOf(t, i) == DocumentsOf(s, i) + (if i == id && id !in c.touched then 1 else 0)
  {
  }

  lemma MentionOwes(c: Call, m: Mention, now: int, normalize: Normalizer, k: DocKey, i: Uuid)
    requires UnderWay(c, DocOf(m))
    requires var t := CountMention(c, m, now, normalize).store; k in t.contributions && i in t.contributions[k]
    ensures OwedByRow(CountMention(c, m, now, normalize).store, k, i)
  {
    var s := c.store;
    MentionWellFormed(c, m, now, normalize);
    if k in s.contributions && i in s.contributions[k] {
      assert OwedByRow(s, k, i);
    }
  }

  lemma MentionTouches(c: Call, m: Mention, now: int, normalize: Normalizer)
    requires UnderWay(c, DocOf(m))
    ensures var next := CountMention(c, m, now, normalize);
            forall id | id in next.touched :: id in next.store.rows && DocOf(m) in Documents(next.store, id)
  {
    MentionEffect(c, m, now, normalize);
  }

  lemma MentionKeeps(c: Call, m: Mention, now: int, normalize: Normalizer)
    requires UnderWay(c, DocOf(m))
    ensures UnderWay(CountMention(c, m, now, normalize), DocOf(m))
  {
    hide CountMention, Counted, OwedByRow, WellFormed, Documents;
    var next := CountMention(c, m, now, normalize);
    MentionWellFormed(c, m, now, normalize);
    MentionTouches(c, m, now, normalize);
    forall i | i in next.store.rows ensures Counted(next.store, i) {
      MentionCounted(c, m, now, normalize, i);
    }
    forall k, i | k in next.store.contributions && i in next.store.contributions[k]
      ensures OwedByRow(next.store, k, i)
    {
      MentionOwes(c, m, now, normalize, k, i);
    }
  }

  lemma SizeAfter<T>(s: set<T>, x: T)
    ensures |s + {x}| == |s| + if x in s then 0 else 1
  {
    if x in s {
      assert s + {x} == s;
    }
  }

  // ----- Whole calls

  /** A Canonicalize call carries the mentions of one document of one tenant. */
  ghost predicate SingleDocument(ms: seq<Mention>, doc: DocKey) {
    forall m | m in ms :: DocOf(m) == doc
  }

  lemma {:induction false} CallKeeps(s: Store, ms: seq<Mention>, now: int, normalize: Normalizer, doc: DocKey)
    requires Invariant(s) && SingleDocument(ms, doc)
    ensures UnderWay(CountAll(s, ms, now, normalize), doc)
  {
    hide Invariant, CountMention;
    if ms != [] {
      CallKeeps(s, ms[..|ms| - 1], now, normalize, doc);
      MentionKeeps(CountAll(s, ms[..|ms| - 1], now, normalize), ms[|ms| - 1], now, normalize);
    }
  }

  // ----- Forgetting a document

  lemma DecrementTotals(s: Store, doc: DocKey, i: Uuid)
    ensures var t := Decrement(s, doc);
            && OwedTotal(t, i) == OwedTotal(s, i) - Owed(s, i)(doc)
            && Documents(t, i) == Documents(s, i) - {doc}
            && |Documents(t, i)| == |Documents(s, i)| - (if doc in Documents(s, i) then 1 else 0)
  {
    hide Decrement, Documents, Owed;
    var t := Decrement(s, doc);
    DecrementOwed(s, doc, i);
    if doc in s.contributions {
      SumRemove(s.contributions.Keys, Owed(s, i), doc);
    } else {
      assert s.contributions.Keys - {doc} == s.contributions.Keys;
    }
    SumSame(t.contributions.Keys, Owed(s, i), Owed(t, i));
    SizeWithout(Documents(s, i), doc);
  }

  lemma DecrementOwed(s: Store, doc: DocKey, i: Uuid)
    ensures var t := Decrement(s, doc);
            && t.contributions.Keys == s.contributions.Keys - {doc}
            && Documents(t, i) == Documents(s, i) - {doc}
            && (doc !in s.contributions ==> Owed(s, i)(doc) == 0)
            && forall k | k != doc :: Owed(t, i)(k) == Owed(s, i)(k)
  {
    assert Documents(Decrement(s, doc), i) == Documents(s, i) - {doc};
  }

  lemma SizeWithout<T>(s: set<T>, x: T)
    ensures |s - {x}| == |s| - if x in s then 1 else 0
  {
    if x !in s {
      assert s - {x} == s;
    }
  }

  lemma DecrementRow(s: Store, doc: DocKey, i: Uuid)
    ensures var t, owed := Decrement(s, doc), Owed(s, i)(doc);
            && (i in t.rows ==>
                  && i in s.rows && t.rows[i].identity == s.rows[i].identity
                  && MentionsOf(t, i) == MentionsOf(s, i) - owed
                  && DocumentsOf(t, i) == DocumentsOf(s, i) - if doc in Documents(s, i) then 1 else 0)
            && (i in s.rows && i !in t.rows ==> MentionsOf(s, i) - owed <= 0 && doc in Documents(s, i))
            && (i in t.rows && doc in Documents(s, i) ==> MentionsOf(t, i) > 0)
  {
  }

  /** Decrementing changes nothing of a row but its counts. */
  lemma DecrementShape(s: Store, doc: DocKey, i: Uuid)
    requires i in Decrement(s, doc).rows
    ensures var t := Decrement(s, doc);
            i in s.rows && t.rows[i] == s.rows[i].(mentions := t.rows[i].mentions, documents := t.rows[i].documents)
  {
  }

  lemma DecrementKeeps(s: Store, doc: DocKey)
    requires Invariant(s)
    ensures Invariant(Decrement(s, doc))
  {
    var t := Decrement(s, doc);
    assert WellFormed(t);
    forall i | i in t.rows ensures Counted(t, i) {
      DecrementCounted(s, doc, i);
    }
    forall k, i | k in t.contributions && i in t.contributions[k] ensures OwedByRow(t, k, i) {
      DecrementOwes(s, doc, k, i);
    }
  }

  lemma DecrementCounted(s: Store, doc: DocKey, i: Uuid)
    requires Invariant(s) && i in Decrement(s, doc).rows
    ensures Counted(Decrement(s, doc), i)
  {
    CountedOrAbsent(s, i);
    DecrementTotals(s, doc, i);
    DecrementRow(s, doc, i);
    assert Counted(s, i);
    assert doc !in Documents(s, i) ==> Owed(s, i)(doc) == 0;
  }

  /** A row is deleted only when no other document contributes to it. */
  lemma DecrementOwes(s: Store, doc: DocKey, k: DocKey, i: Uuid)
    requires Invariant(s) && k in Decrement(s, doc).contributions && i in Decrement(s, doc).contributions[k]
    ensures OwedByRow(Decrement(s, doc), k, i)
  {
    var t := Decrement(s, doc);
    assert OwedByRow(s, k, i);
    if doc in s.contributions {
      OwedNonNegative(s, i);
      CountedOrAbsent(s, i);
      SumRemove(s.contributions.Keys, Owed(s, i), doc);
      SumBounds(s.contributions.Keys - {doc}, Owed(s, i));
      assert MentionsOf(s, i) - Owed(s, i)(doc) >= Owed(s, i)(k) > 0;
      DecrementRow(s, doc, i);
    }
  }

  lemma OwedNonNegative(s: Store, i: Uuid)
    requires Invariant(s)
    ensures forall k :: Owed(s, i)(k) >= 0
  {
    forall k ensures Owed(s, i)(k) >= 0 {
      assert k in s.contributions && i in s.contributions[k] ==> OwedByRow(s, k, i);
    }
  }

  // ----- Merging two rows

  ghost predicate Mergeable(s: Store, user: Uuid, from: Uuid, to: Uuid) {
    Owns(s, user, from) && Owns(s, user, to) && from != to
  }

  /** Each document's contribution to from is added to its contribution to to. */
  lemma MergeOwed(s: Store, user: Uuid, from: Uuid, to: Uuid, i: Uuid, k: DocKey)
    requires Invariant(s) && Mergeable(s, user, from, to) && i != from
    ensures var t := Merge(s, user, from, to);
            && Owed(t, i)(k) == Owed(s, i)(k) + (if i == to then Owed(s, from)(k) else 0)
            && (k in Documents(t, i) <==> k in Documents(s, i) || (i == to && k in Documents(s, from)))
  {
    if k in s.contributions {
      var owed := s.contributions[k];
      assert from in owed ==> OwedByRow(s, k, from);
      hide Invariant, Repointed;
      RepointedGet(owed, from, to, i);
      assert Merge(s, user, from, to).contributions[k] == if k.user == user then Repointed(owed, from, to) else owed;
    }
  }

  lemma RepointedGet(owed: map<Uuid, int>, from: Uuid, to: Uuid, i: Uuid)
    requires from != to && i != from
    ensures var r := Repointed(owed, from, to);
            && Get(r, i, 0) == Get(owed, i, 0) + (if i == to then Get(owed, from, 0) else 0)
            && (i in r <==> i in owed || (i == to && from in owed))
  {
  }

  lemma MergeKeys(s: Store, user: Uuid, from: Uuid, to: Uuid)
    ensures Merge(s, user, from, to).contributions.Keys == s.contributions.Keys
  {
  }

  lemma MergeTotals(s: Store, user: Uuid, from: Uuid, to: Uuid, i: Uuid)
    requires Invariant(s) && Mergeable(s, user, from, to) && i != from
    ensures var t := Merge(s, user, from, to);
            && OwedTotal(t, i) == OwedTotal(s, i) + (if i == to then OwedTotal(s, from) else 0)
            && Documents(t, i) == Documents(s, i) + (if i == to then Documents(s, from) else {})
  {
    MergeKeys(s, user, from, to);
    hide Merge, Owed, Documents, Invariant;
    var t := Merge(s, user, from, to);
    forall k
      ensures Owed(t, i)(k) == Owed(s, i)(k) + (if i == to then Owed(s, from)(k) else 0)
      ensures k in Documents(t, i) <==> k in Documents(s, i) || (i == to && k in Documents(s, from))
    {
      MergeOwed(s, user, from, to, i, k);
    }
    if i == to {
      SumPlus(s.contributions.Keys, Owed(s, to), Owed(s, from), Owed(t, to));
    } else {
      SumSame(s.contributions.Keys, Owed(s, i), Owed(t, i));
    }
  }

  lemma MergeRow(s: Store, user: Uuid, from: Uuid, to: Uuid)
    requires Mergeable(s, user, from, to)
    ensures var t := Merge(s, user, from, to);
            && to in t.rows && from !in t.rows && t.rows[to].identity == s.rows[to].identity
            && MentionsOf(t, to) == MentionsOf(s, from) + MentionsOf(s, to)
            && DocumentsOf(t, to) == DocumentsOf(s, from) + DocumentsOf(s, to)
            && forall i | i != from && i != to :: i in t.rows <==> i in s.rows
    ensures forall i | i in s.rows && i != from && i != to :: Merge(s, user, from, to).rows[i] == s.rows[i]
  {
  }

  lemma RowCounted(s: Store, i: Uuid)
    requires Invariant(s) && i in s.rows
    ensures Counted(s, i)
  {
  }

  lemma MergeCounted(s: Store, user: Uuid, from: Uuid, to: Uuid, i: Uuid)
    requires Invariant(s) && Mergeable(s, user, from, to) && i in Merge(s, user, from, to).rows
    ensures Counted(Merge(s, user, from, to), i)
  {
    hide Merge, Documents, Owed, Invariant, OwedTotal;
    MergeRow(s, user, from, to);
    MergeTotals(s, user, from, to, i);
    RowCounted(s, i);
    RowCounted(s, from);
    SizeOfUnion(Documents(s, to), Documents(s, from));
  }

  lemma MergeOwes(s: Store, user: Uuid, from: Uuid, to: Uuid, k: DocKey, i: Uuid)
    requires Invariant(s) && Mergeable(s, user, from, to)
    requires var t := Merge(s, user, from, to); k in t.contributions && i in t.contributions[k]
    ensures OwedByRow(Merge(s, user, from, to), k, i)
  {
    assert i in s.contributions[k] ==> OwedByRow(s, k, i);
    assert from in s.contributions[k] ==> OwedByRow(s, k, from);
  }

  lemma MergeKeeps(s: Store, user: Uuid, from: Uuid, to: Uuid)
    requires Invariant(s) && Mergeable(s, user, from, to)
    ensures Invariant(Merge(s, user, from, to))
  {
    var t := Merge(s, user, from, to);
    assert WellFormed(t);
    forall i | i in t.rows ensures Counted(t, i) {
      MergeCounted(s, user, from, to, i);
    }
    forall k, i | k in t.contributions && i in t.contributions[k] ensures OwedByRow(t, k, i) {
      MergeOwes(s, user, from, to, k, i);
    }
  }

  lemma SizeOfUnion<T>(a: set<T>, b: set<T>)
    ensures |a + b| == |a| + |b| - |b * a|
  {
    assert a * b == b * a;
  }
}
