/** The canonical store's promises over whole runs: invariants, exact counts, and undo. */
module CanonicalTheorems {
  import opened Wrappers
  import opened CanonicalModel
  import opened CanonicalRuns

  datatype Op =
    | Canonicalized(ms: seq<Mention>, doc: DocKey, now: int)
    | Decremented(doc: DocKey)
    | Merged(user: Uuid, from: Uuid, to: Uuid)

  /** What callers owe: one document per Canonicalize call, two different ids per merge. */
  ghost predicate Allowed(op: Op) {
    match op
    case Canonicalized(ms, doc, _) => SingleDocument(ms, doc)
    case Decremented(_) => true
    case Merged(_, from, to) => from != to
  }

  ghost function Apply(s: Store, op: Op, normalize: Normalizer): Store {
    match op
    case Canonicalized(ms, _, now) => Canonicalize(s, ms, now, normalize)
    case Decremented(doc) => Decrement(s, doc)
    case Merged(user, from, to) => Merge(s, user, from, to)
  }

  ghost function Run(s: Store, ops: seq<Op>, normalize: Normalizer): Store {
    if ops == [] then s else Apply(Run(s, ops[..|ops| - 1], normalize), ops[|ops| - 1], normalize)
  }

  lemma ApplyKeeps(s: Store, op: Op, normalize: Normalizer)
    requires Invariant(s) && Allowed(op)
    ensures Invariant(Apply(s, op, normalize))
  {
    hide Invariant, Canonicalize, Decrement;
    match op
    case Canonicalized(ms, doc, now) => CanonicalizeKeeps(s, ms, doc, now, normalize);
    case Decremented(doc) => DecrementKeeps(s, doc);
    case Merged(user, from, to) =>
      if Mergeable(s, user, from, to) {
        hide Merge;
        MergeKeeps(s, user, from, to);
      }
  }

  lemma CanonicalizeKeeps(s: Store, ms: seq<Mention>, doc: DocKey, now: int, normalize: Normalizer)
    requires Invariant(s) && SingleDocument(ms, doc)
    ensures Invariant(Canonicalize(s, ms, now, normalize))
  {
    CallKeeps(s, ms, now, normalize, doc);
  }

  /**
   * Every run from an empty store: each row's mention count is positive and
   * is exactly what the documents contribute to it, no two rows share an
   * identity, and the document count is at least the number of documents.
   */
  lemma {:induction false} RunKeeps(ops: seq<Op>, normalize: Normalizer)
    requires forall op | op in ops :: Allowed(op)
    ensures Invariant(Run(EmptyStore, ops, normalize))
  {
    hide Apply, Allowed;
    if ops != [] {
      RunKeeps(ops[..|ops| - 1], normalize);
      ApplyKeeps(Run(EmptyStore, ops[..|ops| - 1], normalize), ops[|ops| - 1], normalize);
    }
  }

  // ----- Document counts: how far each operation lets them run ahead

  /** How many more documents a row counts than contribute to it. */
  ghost function Excess(s: Store, i: Uuid): int {
    DocumentsOf(s, i) - |Documents(s, i)|
  }

  /** What a Canonicalize call has changed so far, seen from before the call. */
  ghost predicate Changed(s: Store, c: Call, doc: DocKey, i: Uuid) {
    var t := c.store;
    && (forall k | k != doc :: Owed(t, i)(k) == Owed(s, i)(k))
    && MentionsOf(t, i) - MentionsOf(s, i) == Owed(t, i)(doc) - Owed(s, i)(doc)
    && DocumentsOf(t, i) == DocumentsOf(s, i) + (if i in c.touched then 1 else 0)
    && Documents(t, i) == Documents(s, i) + (if i in c.touched then {doc} else {})
    && (i in s.rows ==>
          && i in t.rows
          && t.rows[i] == s.rows[i].(mentions := t.rows[i].mentions, documents := t.rows[i].documents))
    && (i in t.rows && i !in s.rows ==> i in c.touched && i >= s.nextId)
    && t.nextId >= s.nextId
  }

  lemma ChangedStep(s: Store, c: Call, m: Mention, now: int, normalize: Normalizer, i: Uuid)
    requires WellFormed(c.store) && Changed(s, c, DocOf(m), i)
    ensures Changed(s, CountMention(c, m, now, normalize), DocOf(m), i)
  {
    var next := CountMention(c, m, now, normalize);
    MentionEffect(c, m, now, normalize);
    MentionWellFormed(c, m, now, normalize);
    if i in next.store.rows {
      MentionRow(c, m, now, normalize, i);
    }
    hide Owed, Documents, WellFormed;
  }

  lemma {:induction false} CallChanges(s: Store, ms: seq<Mention>, now: int, normalize: Normalizer, doc: DocKey,
                                       i: Uuid)
    requires Invariant(s) && SingleDocument(ms, doc)
    ensures Changed(s, CountAll(s, ms, now, normalize), doc, i)
  {
    if ms == [] {
      assert CountAll(s, ms, now, normalize) == Call(s, {}, map[]);
    } else {
      var c := CountAll(s, ms[..|ms| - 1], now, normalize);
      CallChanges(s, ms[..|ms| - 1], now, normalize, doc, i);
      CallKeeps(s, ms[..|ms| - 1], now, normalize, doc);
      hide Changed, CountMention;
      ChangedStep(s, c, ms[|ms| - 1], now, normalize, i);
    }
  }

  /** A Canonicalize call adds to a row's excess exactly when it touches a row its document already contributed to. */
  lemma CanonicalizeExcess(s: Store, ms: seq<Mention>, now: int, normalize: Normalizer, doc: DocKey, i: Uuid)
    requires Invariant(s) && SingleDocument(ms, doc)
    ensures var c := CountAll(s, ms, now, normalize);
            Excess(c.store, i) == Excess(s, i) + if i in c.touched && doc in Documents(s, i) then 1 else 0
  {
    CallChanges(s, ms, now, normalize, doc, i);
    SizeAfter(Documents(s, i), doc);
  }

  /** Decrementing a document never changes the excess of a row it leaves. */
  lemma DecrementExcess(s: Store, doc: DocKey, i: Uuid)
    requires i in Decrement(s, doc).rows
    ensures Excess(Decrement(s, doc), i) == Excess(s, i)
  {
    DecrementTotals(s, doc, i);
    DecrementRow(s, doc, i);
  }

  /** A merge adds both rows' excess, plus every document that contributed to both. */
  lemma MergeExcess(s: Store, user: Uuid, from: Uuid, to: Uuid)
    requires Invariant(s) && Mergeable(s, user, from, to)
    ensures Excess(Merge(s, user, from, to), to)
         == Excess(s, from) + Excess(s, to) + |Documents(s, from) * Documents(s, to)|
  {
    MergeRow(s, user, from, to);
    MergeTotals(s, user, from, to, to);
    hide Merge, Documents, Owed, Invariant, Owns, DocumentsOf, OwedTotal;
    SizeOfUnion(Documents(s, to), Documents(s, from));
  }

  /** Every row's document count is the number of documents contributing to it. */
  ghost predicate Exact(s: Store) {
    forall i | i in s.rows :: Excess(s, i) == 0
  }

  /** Some mention of the call has this identity. */
  ghost predicate Names(ms: seq<Mention>, normalize: Normalizer, key: Identity) {
    exists m | m in ms :: IdentityOf(m, normalize) == key
  }

  lemma NamesSnoc(ms: seq<Mention>, m: Mention, normalize: Normalizer, key: Identity)
    ensures Names(ms + [m], normalize, key) <==> Names(ms, normalize, key) || IdentityOf(m, normalize) == key
  {
    assert m in ms + [m];
  }

  /**
   * The operation would count a document twice: it resolves a mention to a
   * row the document already contributes to, or merges two rows that share
   * a document.
   */
  ghost predicate Overlaps(s: Store, op: Op, normalize: Normalizer) {
    match op
    case Canonicalized(ms, doc, _) =>
      exists i | i in s.rows :: Names(ms, normalize, s.rows[i].identity) && doc in Documents(s, i)
    case Decremented(_) => false
    case Merged(user, from, to) => Mergeable(s, user, from, to) && Documents(s, from) * Documents(s, to) != {}
  }

  /** The rows a call touches, among those that existed, are those of its mentions' identities. */
  lemma {:induction false} TouchedExactly(s: Store, ms: seq<Mention>, now: int, normalize: Normalizer, doc: DocKey,
                                          i: Uuid)
    requires Invariant(s) && SingleDocument(ms, doc) && i in s.rows
    ensures i in CountAll(s, ms, now, normalize).touched <==> Names(ms, normalize, s.rows[i].identity)
  {
    hide Invariant, Resolve, Changed, Names;
    if ms != [] {
      var init, last := ms[..|ms| - 1], ms[|ms| - 1];
      TouchedExactly(s, init, now, normalize, doc, i);
      ResolvesLater(s, init, last, now, normalize, doc, i);
      NamesSnoc(init, last, normalize, s.rows[i].identity);
      assert ms == init + [last];
    } else {
      assert !Names([], normalize, s.rows[i].identity) by {
        NamesNone(normalize, s.rows[i].identity);
      }
    }
  }

  lemma NamesNone(normalize: Normalizer, key: Identity)
    ensures !Names([], normalize, key)
  {
  }

  lemma ResolvesLater(s: Store, ms: seq<Mention>, m: Mention, now: int, normalize: Normalizer, doc: DocKey, i: Uuid)
    requires Invariant(s) && SingleDocument(ms, doc) && i in s.rows
    ensures Resolve(CountAll(s, ms, now, normalize).store, m, normalize) == i
            <==> IdentityOf(m, normalize) == s.rows[i].identity
  {
    CallChanges(s, ms, now, normalize, doc, i);
    CallKeeps(s, ms, now, normalize, doc);
    ResolvesTo(CountAll(s, ms, now, normalize).store, m, normalize, i);
  }

  lemma ResolvesTo(s: Store, m: Mention, normalize: Normalizer, i: Uuid)
    requires Invariant(s) && i in s.rows
    ensures Resolve(s, m, normalize) == i <==> IdentityOf(m, normalize) == s.rows[i].identity
  {
    FindUnique(s.rows, i);
  }

  lemma CanonicalizeExact(s: Store, ms: seq<Mention>, doc: DocKey, now: int, normalize: Normalizer)
    requires Invariant(s) && SingleDocument(ms, doc) && Exact(s)
    ensures Exact(Canonicalize(s, ms, now, normalize)) <==> !Overlaps(s, Canonicalized(ms, doc, now), normalize)
  {
    var c := CountAll(s, ms, now, normalize);
    forall i ensures Excess(c.store, i) == if i in c.touched && doc in Documents(s, i) then 1 else 0 {
      CanonicalizeExcess(s, ms, now, normalize, doc, i);
      if i !in s.rows {
        OwedByNone(s, i);
      }
    }
    CanonicalizeKeeps(s, ms, doc, now, normalize);
    forall i | i in s.rows
      ensures i in c.store.rows
      ensures i in c.touched <==> Names(ms, normalize, s.rows[i].identity)
    {
      TouchedExactly(s, ms, now, normalize, doc, i);
      CallChanges(s, ms, now, normalize, doc, i);
    }
    forall i | i !in s.rows ensures Documents(s, i) == {} {
      OwedByNone(s, i);
    }
  }

  /**
   * Document counts stay the number of distinct documents exactly as long as
   * no operation overlaps; one that does makes some row count a document twice.
   */
  lemma DocumentCountExact(s: Store, op: Op, normalize: Normalizer)
    requires Invariant(s) && Allowed(op) && Exact(s)
    ensures Exact(Apply(s, op, normalize)) <==> !Overlaps(s, op, normalize)
  {
    hide Invariant, Canonicalize, Decrement, Merge, Excess;
    match op
    case Canonicalized(ms, doc, now) => CanonicalizeExact(s, ms, doc, now, normalize);
    case Decremented(doc) =>
      forall i | i in Decrement(s, doc).rows ensures Excess(Decrement(s, doc), i) == 0 {
        DecrementExcess(s, doc, i);
        DecrementRow(s, doc, i);
      }
    case Merged(user, from, to) =>
      if Mergeable(s, user, from, to) {
        MergeExact(s, user, from, to);
      } else {
        MergeRefused(s, user, from, to);
      }
  }

  lemma MergeRefused(s: Store, user: Uuid, from: Uuid, to: Uuid)
    requires from != to && !Mergeable(s, user, from, to)
    ensures Merge(s, user, from, to) == s
  {
  }

  lemma MergeExact(s: Store, user: Uuid, from: Uuid, to: Uuid)
    requires Invariant(s) && Mergeable(s, user, from, to) && Exact(s)
    ensures Exact(Merge(s, user, from, to)) <==> Documents(s, from) * Documents(s, to) == {}
  {
    hide Merge, Invariant, Documents, Owed;
    var t := Merge(s, user, from, to);
    MergeRow(s, user, from, to);
    MergeExcess(s, user, from, to);
    assert Excess(s, from) == 0 && Excess(s, to) == 0;
    forall i | i in t.rows && i != to ensures Excess(t, i) == 0 {
      MergeTotals(s, user, from, to, i);
      assert Excess(s, i) == 0;
    }
  }

  /** Any two calls for one document that name the same entity count the document twice on its row. */
  lemma CountedTwice(m: Mention, again: Mention, normalize: Normalizer)
    requires DocOf(again) == DocOf(m) && IdentityOf(again, normalize) == IdentityOf(m, normalize)
    ensures var ops := [Canonicalized([m], DocOf(m), 0), Canonicalized([again], DocOf(m), 0)];
            && (forall op | op in ops :: Allowed(op))
            && !Exact(Run(EmptyStore, ops, normalize))
  {
    var first, second := Canonicalized([m], DocOf(m), 0), Canonicalized([again], DocOf(m), 0);
    EmptyInvariant();
    FirstCounted(m, normalize);
    RunTwo(EmptyStore, first, second, normalize);
    var one := Apply(EmptyStore, first, normalize);
    NamedAgain(one, m, again, 0, normalize);
    hide *;
    assert Allowed(first) && Allowed(second) by { OneDocument(m, DocOf(m)); OneDocument(again, DocOf(m)); }
    ApplyKeeps(EmptyStore, first, normalize);
    DocumentCountExact(EmptyStore, first, normalize);
    DocumentCountExact(one, second, normalize);
  }

  lemma OneDocument(m: Mention, doc: DocKey)
    requires DocOf(m) == doc
    ensures Allowed(Canonicalized([m], doc, 0))
  {
  }

  /** Two calls for one document, with a new mention of the same entity in the second, count it twice. */
  lemma DocumentCountRunsAhead(normalize: Normalizer)
    ensures var m := Mention(0, 0, 0, 0, "Kade", "person", None);
            var ops := [Canonicalized([m], DocOf(m), 0), Canonicalized([m.(id := 1)], DocOf(m), 0)];
            && (forall op | op in ops :: Allowed(op))
            && !Exact(Run(EmptyStore, ops, normalize))
  {
    hide Exact, Run, Allowed;
    var m := Mention(0, 0, 0, 0, "Kade", "person", None);
    CountedTwice(m, m.(id := 1), normalize);
  }

  lemma EmptyInvariant()
    ensures Invariant(EmptyStore) && Exact(EmptyStore)
  {
  }

  lemma RunTwo(s: Store, a: Op, b: Op, normalize: Normalizer)
    ensures Run(s, [a, b], normalize) == Apply(Apply(s, a, normalize), b, normalize)
  {
    hide Apply;
    assert [a, b][..1] == [a] && [a][..0] == [];
    assert Run(s, [], normalize) == s;
    assert Run(s, [a], normalize) == Apply(s, a, normalize);
  }

  /** The first mention of all makes row 0, which its document contributes to. */
  lemma FirstCounted(m: Mention, normalize: Normalizer)
    ensures var one := Canonicalize(EmptyStore, [m], 0, normalize);
            0 in one.rows && one.rows[0].identity == IdentityOf(m, normalize) && DocOf(m) in Documents(one, 0)
    ensures !Overlaps(EmptyStore, Canonicalized([m], DocOf(m), 0), normalize)
  {
    var c := CountAll(EmptyStore, [], 0, normalize);
    assert [m][..0] == [] && c.store == EmptyStore;
    assert Canonicalize(EmptyStore, [m], 0, normalize) == CountMention(c, m, 0, normalize).store;
  }

  /** A mention of a row's entity by a document that already contributes to the row overlaps. */
  lemma NamedAgain(s: Store, m: Mention, again: Mention, i: Uuid, normalize: Normalizer)
    requires i in s.rows && s.rows[i].identity == IdentityOf(m, normalize) == IdentityOf(again, normalize)
    requires DocOf(m) in Documents(s, i)
    ensures Overlaps(s, Canonicalized([again], DocOf(m), 0), normalize)
  {
    assert again in [again];
    assert Names([again], normalize, s.rows[i].identity);
  }

  // ----- Undo

  lemma {:induction false} CallContributions(s: Store, ms: seq<Mention>, now: int, normalize: Normalizer, doc: DocKey)
    requires SingleDocument(ms, doc)
    ensures var t := CountAll(s, ms, now, normalize).store;
            t.contributions - {doc} == s.contributions - {doc}
  {
    if ms != [] {
      CallContributions(s, ms[..|ms| - 1], now, normalize, doc);
    }
  }

  /**
   * Resolving a document new to the store and then decrementing it restores
   * every row and every contribution: counts go back, and exactly the rows
   * the document created disappear.
   */
  lemma ResolveThenDecrement(s: Store, ms: seq<Mention>, now: int, normalize: Normalizer, doc: DocKey)
    requires Invariant(s) && SingleDocument(ms, doc) && doc !in s.contributions
    ensures var u := Decrement(Canonicalize(s, ms, now, normalize), doc);
            u.rows == s.rows && u.contributions == s.contributions
  {
    hide Invariant, Decrement;
    var t := Canonicalize(s, ms, now, normalize);
    var u := Decrement(t, doc);
    CallContributions(s, ms, now, normalize, doc);
    DecrementContributions(t, doc);
    hide Canonicalize;
    forall i ensures i in u.rows <==> i in s.rows
             ensures i in u.rows ==> i in s.rows && u.rows[i] == s.rows[i] {
      RestoredRow(s, ms, now, normalize, doc, i);
    }
  }

  lemma DecrementContributions(s: Store, doc: DocKey)
    ensures Decrement(s, doc).contributions == s.contributions - {doc}
  {
  }

  lemma NewDocument(s: Store, doc: DocKey, i: Uuid)
    requires doc !in s.contributions
    ensures doc !in Documents(s, i) && Owed(s, i)(doc) == 0
  {
  }

  lemma RestoredRow(s: Store, ms: seq<Mention>, now: int, normalize: Normalizer, doc: DocKey, i: Uuid)
    requires Invariant(s) && SingleDocument(ms, doc) && doc !in s.contributions
    ensures var u := Decrement(Canonicalize(s, ms, now, normalize), doc);
            && (i in u.rows <==> i in s.rows)
            && (i in u.rows ==> u.rows[i] == s.rows[i])
  {
    hide CountAll, Decrement, Invariant, OwedTotal, Documents;
    var c := CountAll(s, ms, now, normalize);
    CallChanges(s, ms, now, normalize, doc, i);
    NewDocument(s, doc, i);
    DecrementRow(c.store, doc, i);
    if i in Decrement(c.store, doc).rows {
      DecrementShape(c.store, doc, i);
    }
    if i in s.rows {
      RowCounted(s, i);
    }
  }

  /** A second decrement of the same document changes nothing. */
  lemma DecrementTwice(s: Store, doc: DocKey)
    ensures Decrement(Decrement(s, doc), doc) == Decrement(s, doc)
  {
  }
}
