/**
 * Undoing a document across other documents' work: exactly when document
 * counts, and not only mention counts, come out as if it had never been
 * resolved.
 */
module CanonicalUndo {
  import opened Wrappers
  import opened CanonicalModel
  import opened CanonicalRuns
  import opened CanonicalTheorems
  import opened CanonicalLedger

  ghost predicate Present(s: Store, key: Identity) {
    Find(s.rows, key).Some?
  }

  /** How many more documents an identity's row counts than contribute to it. */
  ghost function KeyExcess(s: Store, key: Identity): int {
    if Present(s, key) then Excess(s, Find(s.rows, key).value) else 0
  }

  lemma FindGives(rows: map<Uuid, Row>, key: Identity)
    ensures Find(rows, key).Some? ==> Find(rows, key).value in rows && rows[Find(rows, key).value].identity == key
    ensures forall i | i in rows && rows[i].identity == key :: Find(rows, key).Some?
  {
  }

  lemma KeyExcessNonNegative(s: Store, key: Identity)
    requires Invariant(s)
    ensures KeyExcess(s, key) >= 0
  {
    hide Invariant, Find;
    FindGives(s.rows, key);
    if Present(s, key) {
      RowCounted(s, Find(s.rows, key).value);
    }
  }

  /** A row stays its identity's row through a call. */
  lemma CallFinds(s: Store, ms: seq<Mention>, now: int, normalize: Normalizer, doc: DocKey, key: Identity)
    requires Invariant(s) && SingleDocument(ms, doc) && Present(s, key)
    ensures Find(Canonicalize(s, ms, now, normalize).rows, key) == Find(s.rows, key)
  {
    hide CountMention, Documents, Owed;
    var i, t := Find(s.rows, key).value, Canonicalize(s, ms, now, normalize);
    CallChanges(s, ms, now, normalize, doc, i);
    CallKeeps(s, ms, now, normalize, doc);
    FindUnique(t.rows, i);
  }

  /** A row of an identity new to the store counts exactly the documents that contribute to it. */
  lemma CallCreates(s: Store, ms: seq<Mention>, now: int, normalize: Normalizer, doc: DocKey, key: Identity)
    requires Invariant(s) && SingleDocument(ms, doc) && !Present(s, key)
    ensures KeyExcess(Canonicalize(s, ms, now, normalize), key) == 0
  {
    var t := Canonicalize(s, ms, now, normalize);
    hide CountMention, Invariant, Find, CountAll;
    FindGives(t.rows, key);
    if Present(t, key) {
      var j := Find(t.rows, key).value;
      CallChanges(s, ms, now, normalize, doc, j);
      FindGives(s.rows, key);
      assert j !in s.rows;
      CanonicalizeExcess(s, ms, now, normalize, doc, j);
      OwedByNone(s, j);
    }
  }

  /** A call adds to an identity's excess exactly when it names it and its document already contributed to it. */
  lemma CanonicalizeKeyExcess(s: Store, ms: seq<Mention>, now: int, normalize: Normalizer, doc: DocKey, key: Identity)
    requires Invariant(s) && SingleDocument(ms, doc)
    ensures KeyExcess(Canonicalize(s, ms, now, normalize), key)
         == KeyExcess(s, key) + if Names(ms, normalize, key) && Tally(s, doc, key) > 0 then 1 else 0
    ensures Present(s, key) ==> Present(Canonicalize(s, ms, now, normalize), key)
  {
    hide Invariant, Find, CountAll, Names, Excess, Documents, Owed;
    FindGives(s.rows, key);
    if Present(s, key) {
      var i := Find(s.rows, key).value;
      CallFinds(s, ms, now, normalize, doc, key);
      CanonicalizeExcess(s, ms, now, normalize, doc, i);
      TouchedExactly(s, ms, now, normalize, doc, i);
      DocumentsTally(s, i, doc);
    } else {
      CallCreates(s, ms, now, normalize, doc, key);
    }
  }

  /** Decrementing leaves an identity's excess alone as long as its row stays. */
  lemma DecrementKeyExcess(s: Store, doc: DocKey, key: Identity)
    requires Invariant(s)
    ensures Present(Decrement(s, doc), key) ==> Present(s, key)
    ensures Present(Decrement(s, doc), key) ==> KeyExcess(Decrement(s, doc), key) == KeyExcess(s, key)
  {
    hide Invariant, Find, Decrement, Excess;
    var t := Decrement(s, doc);
    FindGives(t.rows, key);
    if Present(t, key) {
      var i := Find(t.rows, key).value;
      DecrementRow(s, doc, i);
      DecrementExcess(s, doc, i);
      RowFinds(s, i);
    }
  }

  lemma RowFinds(s: Store, i: Uuid)
    requires Invariant(s) && i in s.rows
    ensures Find(s.rows, s.rows[i].identity) == Some(i)
  {
    FindUnique(s.rows, i);
  }

  lemma OwedIsPresent(s: Store, k: DocKey, key: Identity)
    ensures Tally(s, k, key) != 0 ==> Present(s, key)
  {
  }

  // ----- One operation on both stores

  /** The operation deletes the identity's row. */
  ghost predicate Deletes(s: Store, op: Op, normalize: Normalizer, key: Identity) {
    Present(s, key) && !Present(Apply(s, op, normalize), key)
  }

  /** An identity's excess after work elsewhere: the same step in both stores, or dropped with the row. */
  lemma ApplyKeyExcess(s: Store, op: Op, normalize: Normalizer, doc: DocKey, key: Identity)
    requires Invariant(s) && Elsewhere(op, doc)
    ensures var t := Apply(s, op, normalize);
            && (Present(t, key) ==> KeyExcess(t, key) == KeyExcess(s, key) + Step(s, op, normalize, key))
            && (!Present(t, key) ==> KeyExcess(t, key) == 0)
            && (op.Canonicalized? && Present(s, key) ==> Present(t, key))
            && (op.Decremented? && Present(t, key) ==> Present(s, key))
  {
    hide Invariant, Canonicalize, Decrement, Find, Excess, Tally, Names;
    match op
    case Canonicalized(ms, d, now) => CanonicalizeKeyExcess(s, ms, now, normalize, d, key);
    case Decremented(d) => DecrementKeyExcess(s, d, key);
    case Merged(_, _, _) =>
  }

  ghost function Step(s: Store, op: Op, normalize: Normalizer, key: Identity): int {
    match op
    case Canonicalized(ms, d, _) => if Names(ms, normalize, key) && Tally(s, d, key) > 0 then 1 else 0
    case Decremented(_) => 0
    case Merged(_, _, _) => 0
  }

  lemma SameStep(s: Store, u: Store, op: Op, normalize: Normalizer, doc: DocKey, key: Identity)
    requires Elsewhere(op, doc) && AgreeElsewhere(s, u, doc)
    ensures Step(s, op, normalize, key) == Step(u, op, normalize, key)
  {
    hide Tally, Names;
  }

  // ----- Whole runs

  /** Whenever the run deleted the identity's row, the row counted exactly the documents contributing to it. */
  ghost predicate DeletedExactly(s: Store, ops: seq<Op>, normalize: Normalizer, key: Identity) {
    ops == [] ||
    (var init, op := ops[..|ops| - 1], ops[|ops| - 1];
     && DeletedExactly(s, init, normalize, key)
     && (Deletes(Run(s, init, normalize), op, normalize, key) ==> KeyExcess(Run(s, init, normalize), key) == 0))
  }

  /** Where with stands to without, for one identity: excess is ahead exactly if some was lost with a deleted row. */
  ghost predicate Tracks(with: Store, without: Store, doc: DocKey, key: Identity, owed: int, exactly: bool) {
    && Invariant(with) && Invariant(without)
    && AgreeElsewhere(with, without, doc) && OwesNothing(without, doc)
    && Tally(with, doc, key) == owed >= 0
    && KeyExcess(with, key) >= KeyExcess(without, key)
    && (if owed > 0 then (KeyExcess(with, key) == KeyExcess(without, key) <==> exactly)
        else KeyExcess(with, key) == KeyExcess(without, key))
  }

  lemma SamePresence(with: Store, without: Store, doc: DocKey, key: Identity)
    requires Invariant(with) && Invariant(without)
    requires AgreeElsewhere(with, without, doc) && OwesNothing(without, doc) && Tally(with, doc, key) == 0
    ensures Present(with, key) <==> Present(without, key)
  {
    hide Invariant, Tally, Find;
    AccountCounts(with, without, key);
  }

  lemma TracksStep(with: Store, without: Store, op: Op, normalize: Normalizer, doc: DocKey, key: Identity,
                   owed: int, exactly: bool)
    requires Tracks(with, without, doc, key, owed, exactly) && Elsewhere(op, doc)
    requires var w, u := Apply(with, op, normalize), Apply(without, op, normalize);
             && Invariant(w) && Invariant(u)
             && AgreeElsewhere(w, u, doc) && OwesNothing(u, doc) && Tally(w, doc, key) == owed
    ensures Tracks(Apply(with, op, normalize), Apply(without, op, normalize), doc, key, owed,
                   exactly && (Deletes(without, op, normalize, key) ==> KeyExcess(without, key) == 0))
  {
    hide Invariant, Tally, Find, Apply, Excess, AgreeElsewhere, OwesNothing, Step, Elsewhere;
    var w, u := Apply(with, op, normalize), Apply(without, op, normalize);
    ApplyKeyExcess(with, op, normalize, doc, key);
    ApplyKeyExcess(without, op, normalize, doc, key);
    SameStep(with, without, op, normalize, doc, key);
    KeyExcessNonNegative(without, key);
    if owed > 0 {
      OwedIsPresent(with, doc, key);
      OwedIsPresent(w, doc, key);
    } else {
      SamePresence(with, without, doc, key);
      SamePresence(w, u, doc, key);
    }
    StepOf(op, without, normalize, doc, key);
  }

  /** Only a call raises the excess, and only a decrement deletes a row. */
  lemma StepOf(op: Op, s: Store, normalize: Normalizer, doc: DocKey, key: Identity)
    requires Elsewhere(op, doc)
    ensures op.Canonicalized? || op.Decremented?
    ensures op.Decremented? ==> Step(s, op, normalize, key) == 0
    ensures Step(s, op, normalize, key) >= 0 && (Step(s, op, normalize, key) > 0 ==> Present(s, key))
  {
    if op.Canonicalized? {
      OwedIsPresent(s, op.doc, key);
    }
  }

  lemma {:induction false} RunTracks(with: Store, without: Store, ops: seq<Op>, normalize: Normalizer, doc: DocKey,
                                     key: Identity, owed: int)
    requires Tracks(with, without, doc, key, owed, true)
    requires forall op | op in ops :: Elsewhere(op, doc)
    ensures Tracks(Run(with, ops, normalize), Run(without, ops, normalize), doc, key, owed,
                   DeletedExactly(without, ops, normalize, key))
  {
    hide Invariant, Tally, Find, Apply, KeyExcess, Deletes, Elsewhere;
    if ops != [] {
      var init, op := ops[..|ops| - 1], ops[|ops| - 1];
      RunTracks(with, without, init, normalize, doc, key, owed);
      var w, u := Run(with, init, normalize), Run(without, init, normalize);
      var exactly := DeletedExactly(without, init, normalize, key);
      RunElsewhere(with, without, ops, normalize, doc);
      ApplyTally(w, op, normalize, doc, doc, key);
      OwnTally(op, normalize, doc, key, Tally(w, doc, key));
      TracksStep(w, u, op, normalize, doc, key, owed, exactly);
    }
  }

  lemma OwnTally(op: Op, normalize: Normalizer, doc: DocKey, key: Identity, before: int)
    requires Elsewhere(op, doc)
    ensures TallyAfter(op, normalize, doc, key, before) == before
  {
  }

  // ----- The undo

  ghost predicate SameDocuments(s: Store, u: Store, key: Identity) {
    Present(s, key) && Present(u, key) ==>
      s.rows[Find(s.rows, key).value].documents == u.rows[Find(u.rows, key).value].documents
  }

  ghost function With(s: Store, ms: seq<Mention>, doc: DocKey, now: int, ops: seq<Op>, normalize: Normalizer): Store {
    Decrement(Run(Canonicalize(s, ms, now, normalize), ops, normalize), doc)
  }

  lemma {:induction false} OccursNamed(ms: seq<Mention>, normalize: Normalizer, key: Identity)
    ensures Occurrences(ms, normalize, key) > 0 <==> Names(ms, normalize, key)
  {
    if ms != [] {
      OccursNamed(ms[..|ms| - 1], normalize, key);
      NamesSnoc(ms[..|ms| - 1], ms[|ms| - 1], normalize, key);
      assert ms == ms[..|ms| - 1] + [ms[|ms| - 1]];
    }
  }

  /** A document new to the store starts level with the store that never sees it. */
  lemma StartTracks(s: Store, ms: seq<Mention>, doc: DocKey, now: int, normalize: Normalizer, key: Identity)
    requires Invariant(s) && SingleDocument(ms, doc) && doc !in s.contributions
    ensures Tracks(Canonicalize(s, ms, now, normalize), s, doc, key, Occurrences(ms, normalize, key), true)
  {
    var w := Canonicalize(s, ms, now, normalize);
    OwesNone(s, doc);
    hide Invariant, Tally, Find, Excess, Canonicalize;
    CanonicalizeKeeps(s, ms, doc, now, normalize);
    forall k, x ensures k != doc ==> Tally(w, k, x) == Tally(s, k, x) {
      CanonicalizeTally(s, ms, now, normalize, doc, k, x);
    }
    CanonicalizeTally(s, ms, now, normalize, doc, doc, key);
    CanonicalizeKeyExcess(s, ms, now, normalize, doc, key);
  }

  lemma OwesNone(s: Store, doc: DocKey)
    requires doc !in s.contributions
    ensures OwesNothing(s, doc)
  {
  }

  /** Rows with equal accounts agree in document counts exactly when they agree in excess. */
  lemma DocumentsByExcess(s: Store, u: Store, key: Identity)
    requires Invariant(s) && Invariant(u) && SameLedger(s, u) && Present(s, key) && Present(u, key)
    ensures SameDocuments(s, u, key) <==> KeyExcess(s, key) == KeyExcess(u, key)
  {
    hide Invariant, Tally, Find;
    FindGives(s.rows, key);
    FindGives(u.rows, key);
    var i, j := Find(s.rows, key).value, Find(u.rows, key).value;
    forall k ensures k in Documents(s, i) <==> k in Documents(u, j) {
      DocumentsTally(s, i, k);
      DocumentsTally(u, j, k);
    }
    assert Documents(s, i) == Documents(u, j);
  }

  /**
   * Resolve a document new to the store, let any work on other documents
   * happen, then decrement it. A row that remains has the document count it
   * would have had without the document exactly when the document never
   * named it, or no deletion of the row in the run without the document
   * lost any excess.
   */
  lemma UndoRestoresDocuments(s: Store, ms: seq<Mention>, doc: DocKey, now: int, ops: seq<Op>, normalize: Normalizer,
                              key: Identity)
    requires Invariant(s) && SingleDocument(ms, doc) && doc !in s.contributions
    requires forall op | op in ops :: Elsewhere(op, doc)
    requires Present(Run(s, ops, normalize), key)
    ensures Present(With(s, ms, doc, now, ops, normalize), key)
    ensures SameDocuments(With(s, ms, doc, now, ops, normalize), Run(s, ops, normalize), key)
            <==> !Names(ms, normalize, key) || DeletedExactly(s, ops, normalize, key)
  {
    var w, u := Run(Canonicalize(s, ms, now, normalize), ops, normalize), Run(s, ops, normalize);
    var undone := With(s, ms, doc, now, ops, normalize);
    hide Invariant, Tally, Find, Run, KeyExcess, Deletes, Elsewhere, Canonicalize, Decrement, SameDocuments, Names,
         Occurrences, DeletedExactly;
    StartTracks(s, ms, doc, now, normalize, key);
    RunTracks(Canonicalize(s, ms, now, normalize), s, ops, normalize, doc, key, Occurrences(ms, normalize, key));
    OccursNamed(ms, normalize, key);
    InterleavedUndo(s, ms, doc, now, ops, normalize);
    assert SameCounts(undone, u, key);
    DecrementKeeps(w, doc);
    DecrementKeyExcess(w, doc, key);
    DocumentsByExcess(undone, u, key);
  }

  /** No operation of the run would count a document twice on one row. */
  ghost predicate NeverOverlaps(s: Store, ops: seq<Op>, normalize: Normalizer) {
    ops == [] ||
    (NeverOverlaps(s, ops[..|ops| - 1], normalize)
     && !Overlaps(Run(s, ops[..|ops| - 1], normalize), ops[|ops| - 1], normalize))
  }

  lemma {:induction false} RunExact(s: Store, ops: seq<Op>, normalize: Normalizer, doc: DocKey, key: Identity)
    requires Invariant(s) && Exact(s) && NeverOverlaps(s, ops, normalize)
    requires forall op | op in ops :: Elsewhere(op, doc)
    ensures Invariant(Run(s, ops, normalize)) && Exact(Run(s, ops, normalize))
    ensures DeletedExactly(s, ops, normalize, key)
  {
    hide Invariant, Apply, Overlaps, Exact, KeyExcess, Deletes;
    if ops != [] {
      var init, op := ops[..|ops| - 1], ops[|ops| - 1];
      RunExact(s, init, normalize, doc, key);
      assert Elsewhere(op, doc);
      ElsewhereAllowed(op, doc);
      hide Elsewhere;
      ApplyKeeps(Run(s, init, normalize), op, normalize);
      DocumentCountExact(Run(s, init, normalize), op, normalize);
      ExactKey(Run(s, init, normalize), key);
    }
  }

  lemma ElsewhereAllowed(op: Op, doc: DocKey)
    requires Elsewhere(op, doc)
    ensures Allowed(op)
  {
  }

  lemma ExactKey(s: Store, key: Identity)
    requires Exact(s)
    ensures KeyExcess(s, key) == 0
  {
  }

  /** Where document counts are exact and nothing is counted twice, undo restores them everywhere. */
  lemma UndoRestoresAll(s: Store, ms: seq<Mention>, doc: DocKey, now: int, ops: seq<Op>, normalize: Normalizer,
                        key: Identity)
    requires Invariant(s) && SingleDocument(ms, doc) && doc !in s.contributions
    requires forall op | op in ops :: Elsewhere(op, doc)
    requires Exact(s) && NeverOverlaps(s, ops, normalize)
    ensures var with, without := With(s, ms, doc, now, ops, normalize), Run(s, ops, normalize);
            SameCounts(with, without, key) && SameDocuments(with, without, key)
  {
    hide Invariant, Find, Run, Exact, NeverOverlaps, DeletedExactly, Elsewhere, Decrement, Canonicalize;
    InterleavedUndo(s, ms, doc, now, ops, normalize);
    RunExact(s, ops, normalize, doc, key);
    if Present(Run(s, ops, normalize), key) {
      UndoRestoresDocuments(s, ms, doc, now, ops, normalize, key);
    }
  }

  // ----- A run whose undo leaves a document too many

  /** One document's call with one mention of the entity. */
  function Calls(document: Uuid, id: Uuid): Op {
    Canonicalized([Named(document, id)], DocKey(0, document), 0)
  }

  function Named(document: Uuid, id: Uuid): Mention {
    Mention(id, 0, 0, document, "Kade", "person", None)
  }

  /** Another document mentions the entity in two calls and is decremented; a third document mentions it. */
  function Detour(): seq<Op> {
    [Calls(1, 1), Calls(1, 2), Decremented(DocKey(0, 1)), Calls(2, 3)]
  }

  lemma UndoLeavesOneTooMany(normalize: Normalizer)
    ensures var d := Named(0, 0);
            var key := IdentityOf(d, normalize);
            && (forall op | op in Detour() :: Elsewhere(op, DocOf(d)))
            && !SameDocuments(With(EmptyStore, [d], DocOf(d), 0, Detour(), normalize),
                              Run(EmptyStore, Detour(), normalize), key)
  {
    var d := Named(0, 0);
    var key := IdentityOf(d, normalize);
    assert Invariant(EmptyStore);
    DetourDeletes(normalize, key);
    assert d in [d];
    UndoRestoresDocuments(EmptyStore, [d], DocOf(d), 0, Detour(), normalize, key);
  }

  lemma CallNamed(s: Store, document: Uuid, id: Uuid, normalize: Normalizer, key: Identity)
    requires Invariant(s) && key == IdentityOf(Named(document, id), normalize)
    ensures var t := Apply(s, Calls(document, id), normalize);
            && Invariant(t) && Present(t, key)
            && (forall k :: Tally(t, k, key) == Tally(s, k, key) + if k == DocKey(0, document) then 1 else 0)
            && KeyExcess(t, key) == KeyExcess(s, key) + if Tally(s, DocKey(0, document), key) > 0 then 1 else 0
  {
    var ms, doc := [Named(document, id)], DocKey(0, document);
    assert Named(document, id) in ms;
    assert ms[..0] == [] && Occurrences(ms, normalize, key) == 1;
    hide Invariant, Canonicalize, KeyExcess, Find;
    CanonicalizeKeeps(s, ms, doc, 0, normalize);
    CanonicalizeKeyExcess(s, ms, 0, normalize, doc, key);
    forall k ensures Tally(Canonicalize(s, ms, 0, normalize), k, key)
                  == Tally(s, k, key) + if k == doc then 1 else 0 {
      CanonicalizeTally(s, ms, 0, normalize, doc, k, key);
    }
    TallyNonNegative(s, doc, key);
    OwedIsPresent(Canonicalize(s, ms, 0, normalize), doc, key);
  }

  lemma TallyNonNegative(s: Store, k: DocKey, key: Identity)
    requires Invariant(s)
    ensures Tally(s, k, key) >= 0
  {
    var i := Find(s.rows, key);
    if i.Some? && k in s.contributions && i.value in s.contributions[k] {
      assert OwedByRow(s, k, i.value);
    }
  }

  lemma DetourDeletes(normalize: Normalizer, key: Identity)
    requires key == IdentityOf(Named(0, 0), normalize) && Invariant(EmptyStore)
    ensures Present(Run(EmptyStore, Detour(), normalize), key)
    ensures !DeletedExactly(EmptyStore, Detour(), normalize, key)
  {
    hide Invariant, KeyExcess, Tally, Present, Apply;
    var ops := Detour();
    RunFour(EmptyStore, ops, normalize);
    var a := Apply(EmptyStore, ops[0], normalize);
    var b := Apply(a, ops[1], normalize);
    var c := Apply(b, ops[2], normalize);
    CallNamed(EmptyStore, 1, 1, normalize, key);
    CallNamed(a, 1, 2, normalize, key);
    EmptyTally(key);
    DecrementedAlone(b, DocKey(0, 1), normalize, key);
    CallNamed(c, 2, 3, normalize, key);
    hide Detour;
    assert Deletes(b, ops[2], normalize, key);
    assert KeyExcess(b, key) == 1;
    assert ops[..3][..2] == ops[..2] && ops[..4] == ops;
    assert !DeletedExactly(EmptyStore, ops[..3], normalize, key);
  }

  lemma RunFour(s: Store, ops: seq<Op>, normalize: Normalizer)
    requires |ops| == 4
    ensures Run(s, ops[..2], normalize) == Apply(Apply(s, ops[0], normalize), ops[1], normalize)
    ensures Run(s, ops[..3], normalize) == Apply(Run(s, ops[..2], normalize), ops[2], normalize)
    ensures Run(s, ops, normalize) == Apply(Run(s, ops[..3], normalize), ops[3], normalize)
  {
    hide Apply;
    assert ops[..2][..1] == ops[..1] && ops[..1][..0] == [];
    assert ops[..3][..2] == ops[..2] && Run(s, [], normalize) == s;
    assert Run(s, ops[..1], normalize) == Apply(s, ops[0], normalize);
  }

  lemma EmptyTally(key: Identity)
    ensures forall k :: Tally(EmptyStore, k, key) == 0
    ensures KeyExcess(EmptyStore, key) == 0 && !Present(EmptyStore, key)
  {
  }

  /** Decrementing the only document that mentions an entity deletes its row. */
  lemma DecrementedAlone(s: Store, doc: DocKey, normalize: Normalizer, key: Identity)
    requires Invariant(s) && Invariant(EmptyStore) && forall k | k != doc :: Tally(s, k, key) == 0
    ensures var t := Apply(s, Decremented(doc), normalize);
            && Invariant(t) && !Present(t, key) && KeyExcess(t, key) == 0
            && forall k :: Tally(t, k, key) == 0
  {
    hide Invariant, Find, Tally, Decrement;
    var t := Decrement(s, doc);
    DecrementKeeps(s, doc);
    forall k ensures Tally(t, k, key) == 0 {
      DecrementTally(s, doc, k, key);
    }
    EmptyTally(key);
    AccountCounts(t, EmptyStore, key);
  }
}
