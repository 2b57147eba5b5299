/**
 * The store seen through identities rather than row ids: what each document
 * owes each identity. Two stores with the same ledger show the same counts,
 * so a document's resolve and decrement cancel whatever happened in between.
 */
module CanonicalLedger {
  import opened Wrappers
  import opened SetSums
  import opened CanonicalModel
  import opened CanonicalRuns
  import opened CanonicalTheorems

  ghost function Tally(s: Store, k: DocKey, key: Identity): int {
    var found := Find(s.rows, key);
    if found.Some? then Owed(s, found.value)(k) else 0
  }

  lemma TallyOf(s: Store, k: DocKey, i: Uuid)
    requires WellFormed(s) && i in s.rows
    ensures Tally(s, k, s.rows[i].identity) == Owed(s, i)(k)
  {
    FindUnique(s.rows, i);
  }

  lemma FindSame(rows: map<Uuid, Row>, rows': map<Uuid, Row>, key: Identity)
    requires UniqueIdentities(rows) && UniqueIdentities(rows')
    requires forall i :: (i in rows && rows[i].identity == key) <==> (i in rows' && rows'[i].identity == key)
    ensures Find(rows, key) == Find(rows', key)
  {
  }

  // ----- The ledger after each operation

  lemma MentionFinds(c: Call, m: Mention, now: int, normalize: Normalizer, key: Identity)
    requires WellFormed(c.store)
    ensures Find(CountMention(c, m, now, normalize).store.rows, key)
         == if key == IdentityOf(m, normalize) then Some(Resolve(c.store, m, normalize)) else Find(c.store.rows, key)
  {
    var s, t := c.store, CountMention(c, m, now, normalize).store;
    MentionWellFormed(c, m, now, normalize);
    if key == IdentityOf(m, normalize) {
      FindUnique(t.rows, Resolve(s, m, normalize));
    } else {
      FindSame(s.rows, t.rows, key);
    }
  }

  lemma MentionTally(c: Call, m: Mention, now: int, normalize: Normalizer, k: DocKey, key: Identity)
    requires Invariant(c.store)
    ensures Tally(CountMention(c, m, now, normalize).store, k, key)
         == Tally(c.store, k, key) + if k == DocOf(m) && key == IdentityOf(m, normalize) then 1 else 0
  {
    var s, id := c.store, Resolve(c.store, m, normalize);
    MentionEffect(c, m, now, normalize);
    MentionFinds(c, m, now, normalize, key);
    if key == IdentityOf(m, normalize) && Find(s.rows, key).None? {
      assert id == s.nextId && id !in s.rows;
      OwedZero(s, id, k);
    }
    assert Find(s.rows, key).Some? && Find(s.rows, key).value == id ==> key == IdentityOf(m, normalize);
  }

  lemma OwedZero(s: Store, i: Uuid, k: DocKey)
    requires Invariant(s) && i !in s.rows
    ensures Owed(s, i)(k) == 0
  {
    assert k in s.contributions && i in s.contributions[k] ==> OwedByRow(s, k, i);
  }

  /** How many of a call's mentions carry an identity. */
  ghost function Occurrences(ms: seq<Mention>, normalize: Normalizer, key: Identity): nat {
    if ms == [] then 0
    else Occurrences(ms[..|ms| - 1], normalize, key) + if IdentityOf(ms[|ms| - 1], normalize) == key then 1 else 0
  }

  /** A call adds each identity's occurrences to its own document's account, and nothing else. */
  lemma {:induction false} CanonicalizeTally(s: Store, ms: seq<Mention>, now: int, normalize: Normalizer,
                                             doc: DocKey, k: DocKey, key: Identity)
    requires Invariant(s) && SingleDocument(ms, doc)
    ensures Tally(Canonicalize(s, ms, now, normalize), k, key)
         == Tally(s, k, key) + if k == doc then Occurrences(ms, normalize, key) else 0
  {
    if ms != [] {
      var c := CountAll(s, ms[..|ms| - 1], now, normalize);
      CanonicalizeTally(s, ms[..|ms| - 1], now, normalize, doc, k, key);
      CallKeeps(s, ms[..|ms| - 1], now, normalize, doc);
      hide CountMention, Tally;
      MentionTally(c, ms[|ms| - 1], now, normalize, k, key);
    }
  }

  /** Decrementing clears the document's account and no other. */
  lemma DecrementTally(s: Store, doc: DocKey, k: DocKey, key: Identity)
    requires Invariant(s)
    ensures Tally(Decrement(s, doc), k, key) == if k == doc then 0 else Tally(s, k, key)
  {
    hide Invariant, Decrement, Owed;
    var t := Decrement(s, doc);
    DecrementKeeps(s, doc);
    DecrementUnique(s, doc);
    var found := Find(s.rows, key);
    if found.None? {
      DecrementAbsent(s, doc, key);
    } else if found.value in t.rows {
      DecrementRow(s, doc, found.value);
      FindUnique(t.rows, found.value);
      DecrementOwed(s, doc, found.value);
      DecrementOwedOwn(s, doc, found.value);
    } else {
      DecrementGone(s, doc, key);
      GoneOwesNothing(s, doc, k, found.value);
    }
  }

  lemma DecrementUnique(s: Store, doc: DocKey)
    requires Invariant(s)
    ensures UniqueIdentities(Decrement(s, doc).rows)
  {
    DecrementKeeps(s, doc);
  }

  lemma DecrementAbsent(s: Store, doc: DocKey, key: Identity)
    requires Find(s.rows, key).None?
    ensures Find(Decrement(s, doc).rows, key).None?
  {
    forall i | i in Decrement(s, doc).rows ensures Decrement(s, doc).rows[i].identity != key {
      DecrementRow(s, doc, i);
    }
  }

  lemma DecrementOwedOwn(s: Store, doc: DocKey, i: Uuid)
    ensures Owed(Decrement(s, doc), i)(doc) == 0
  {
  }

  /** A deleted row was owed nothing by other documents. */
  lemma GoneOwesNothing(s: Store, doc: DocKey, k: DocKey, i: Uuid)
    requires Invariant(s) && i in s.rows && i !in Decrement(s, doc).rows
    ensures k != doc ==> Owed(s, i)(k) == 0
  {
    if k != doc && k in s.contributions && i in s.contributions[k] {
      DecrementOwes(s, doc, k, i);
    }
  }

  lemma DecrementGone(s: Store, doc: DocKey, key: Identity)
    requires Invariant(s) && Find(s.rows, key).Some? && Find(s.rows, key).value !in Decrement(s, doc).rows
    ensures Find(Decrement(s, doc).rows, key).None?
  {
    var t := Decrement(s, doc);
    forall i | i in t.rows ensures t.rows[i].identity != key {
      DecrementRow(s, doc, i);
      FindUnique(s.rows, i);
    }
  }

  // ----- Equal ledgers, equal counts

  ghost predicate SameLedger(s: Store, u: Store) {
    forall k, key :: Tally(s, k, key) == Tally(u, k, key)
  }

  ghost predicate SameCounts(s: Store, u: Store, key: Identity) {
    var a, b := Find(s.rows, key), Find(u.rows, key);
    && (a.Some? <==> b.Some?)
    && (a.Some? ==> s.rows[a.value].mentions == u.rows[b.value].mentions)
  }

  /** The mention count of an identity is the sum of its accounts, over any documents that include all its debtors. */
  lemma TallySum(s: Store, key: Identity, docs: set<DocKey>, f: DocKey -> int)
    requires Invariant(s) && s.contributions.Keys <= docs && forall k | k in docs :: f(k) == Tally(s, k, key)
    ensures var a := Find(s.rows, key);
            if a.Some? then SumOver(docs, f) == s.rows[a.value].mentions > 0 else SumOver(docs, f) == 0
  {
    var a := Find(s.rows, key);
    if a.Some? {
      assert Counted(s, a.value);
      SumSame(docs, f, Owed(s, a.value));
      SumWiden(s.contributions.Keys, docs, Owed(s, a.value));
    } else {
      SumNone(docs, f);
    }
  }

  /** Equal accounts of one identity give it a row in both stores or in neither, with the same mention count. */
  lemma AccountCounts(s: Store, u: Store, key: Identity)
    requires Invariant(s) && Invariant(u) && forall k :: Tally(s, k, key) == Tally(u, k, key)
    ensures SameCounts(s, u, key)
  {
    var f := (k: DocKey) => Tally(s, k, key);
    var docs := s.contributions.Keys + u.contributions.Keys;
    hide Invariant, Tally, Find;
    TallySum(s, key, docs, f);
    TallySum(u, key, docs, f);
  }

  lemma LedgerCounts(s: Store, u: Store, key: Identity)
    requires Invariant(s) && Invariant(u) && SameLedger(s, u)
    ensures SameCounts(s, u, key)
  {
    AccountCounts(s, u, key);
  }

  lemma DocumentsTally(s: Store, i: Uuid, k: DocKey)
    requires Invariant(s) && i in s.rows
    ensures k in Documents(s, i) <==> Tally(s, k, s.rows[i].identity) > 0
  {
    TallyOf(s, k, i);
    assert k in Documents(s, i) ==> OwedByRow(s, k, i);
  }

  /** Where document counts have not run ahead, equal ledgers give equal document counts too. */
  lemma LedgerDocuments(s: Store, u: Store, i: Uuid, j: Uuid)
    requires Invariant(s) && Invariant(u) && SameLedger(s, u) && Exact(s) && Exact(u)
    requires i in s.rows && j in u.rows && s.rows[i].identity == u.rows[j].identity
    ensures s.rows[i].documents == u.rows[j].documents
  {
    assert Excess(s, i) == 0 && Excess(u, j) == 0;
    forall k ensures k in Documents(s, i) <==> k in Documents(u, j) {
      DocumentsTally(s, i, k);
      DocumentsTally(u, j, k);
    }
    assert Documents(s, i) == Documents(u, j);
  }

  // ----- Undo across other documents' work

  /** Work on other documents, with no merges. */
  ghost predicate Elsewhere(op: Op, doc: DocKey) {
    match op
    case Canonicalized(ms, d, _) => d != doc && SingleDocument(ms, d)
    case Decremented(d) => d != doc
    case Merged(_, _, _) => false
  }

  /** Accounts agree except the document's own. */
  ghost predicate AgreeElsewhere(s: Store, u: Store, doc: DocKey) {
    forall k, key | k != doc :: Tally(s, k, key) == Tally(u, k, key)
  }

  ghost predicate OwesNothing(s: Store, doc: DocKey) {
    forall key :: Tally(s, doc, key) == 0
  }

  /** An account after an operation that is not a merge. */
  ghost function TallyAfter(op: Op, normalize: Normalizer, k: DocKey, key: Identity, before: int): int {
    match op
    case Canonicalized(ms, d, _) => before + (if k == d then Occurrences(ms, normalize, key) else 0)
    case Decremented(d) => if k == d then 0 else before
    case Merged(_, _, _) => before
  }

  lemma ApplyTally(s: Store, op: Op, normalize: Normalizer, doc: DocKey, k: DocKey, key: Identity)
    requires Invariant(s) && Elsewhere(op, doc)
    ensures Tally(Apply(s, op, normalize), k, key) == TallyAfter(op, normalize, k, key, Tally(s, k, key))
  {
    hide Tally, Invariant;
    match op
    case Canonicalized(ms, d, now) => CanonicalizeTally(s, ms, now, normalize, d, k, key);
    case Decremented(d) => DecrementTally(s, d, k, key);
    case Merged(_, _, _) =>
  }

  lemma {:induction false} RunElsewhere(s: Store, u: Store, ops: seq<Op>, normalize: Normalizer, doc: DocKey)
    requires Invariant(s) && Invariant(u) && AgreeElsewhere(s, u, doc) && OwesNothing(u, doc)
    requires forall op | op in ops :: Elsewhere(op, doc)
    ensures var s', u' := Run(s, ops, normalize), Run(u, ops, normalize);
            Invariant(s') && Invariant(u') && AgreeElsewhere(s', u', doc) && OwesNothing(u', doc)
  {
    if ops != [] {
      var init, op := ops[..|ops| - 1], ops[|ops| - 1];
      RunElsewhere(s, u, init, normalize, doc);
      var s', u' := Run(s, init, normalize), Run(u, init, normalize);
      assert Elsewhere(op, doc);
      ApplyKeeps(s', op, normalize);
      ApplyKeeps(u', op, normalize);
      hide Invariant, Tally, Apply;
      forall k, key
        ensures k != doc ==> Tally(Apply(s', op, normalize), k, key) == Tally(Apply(u', op, normalize), k, key)
        ensures k == doc ==> Tally(Apply(u', op, normalize), k, key) == 0
      {
        ApplyTally(s', op, normalize, doc, k, key);
        ApplyTally(u', op, normalize, doc, k, key);
      }
    }
  }

  /**
   * Resolve a document new to the store, let any work on other documents
   * happen, then decrement it: every identity has the row and the mention
   * count it would have had if the document had never been resolved.
   */
  lemma InterleavedUndo(s: Store, ms: seq<Mention>, doc: DocKey, now: int, ops: seq<Op>, normalize: Normalizer)
    requires Invariant(s) && SingleDocument(ms, doc) && doc !in s.contributions
    requires forall op | op in ops :: Elsewhere(op, doc)
    ensures var with := Decrement(Run(Canonicalize(s, ms, now, normalize), ops, normalize), doc);
            var without := Run(s, ops, normalize);
            SameLedger(with, without) && forall key :: SameCounts(with, without, key)
  {
    var resolved := Canonicalize(s, ms, now, normalize);
    CanonicalizeKeeps(s, ms, doc, now, normalize);
    forall k, key ensures k != doc ==> Tally(resolved, k, key) == Tally(s, k, key) {
      CanonicalizeTally(s, ms, now, normalize, doc, k, key);
    }
    assert OwesNothing(s, doc);
    RunElsewhere(resolved, s, ops, normalize, doc);
    hide Invariant, Tally, Run, SameCounts;
    var with, without := Decrement(Run(resolved, ops, normalize), doc), Run(s, ops, normalize);
    DecrementKeeps(Run(resolved, ops, normalize), doc);
    forall k, key ensures Tally(with, k, key) == Tally(without, k, key) {
      DecrementTally(Run(resolved, ops, normalize), doc, k, key);
    }
    forall key ensures SameCounts(with, without, key) {
      LedgerCounts(with, without, key);
    }
  }
}
