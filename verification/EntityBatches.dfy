/** Entity extraction in batches: how chunks are split, and how batch results are saved at most once. */
module EntityBatches {
  import opened Wrappers
  import opened FirstSeen
  import opened SetSums
  import JS = JobStatus
  import CM = CanonicalModel
  import CR = CanonicalRepository

  type Uuid = nat

  datatype Entity = Entity(user: Uuid, document: Uuid, kb: Uuid, chunk: Uuid,
                           kind: string, text: string, start: int, end: int, score: real)

  /** One entity a batch job reports; its chunk id is missing when it does not parse. */
  datatype Found = Found(chunk: Option<Uuid>, kind: string, text: string, start: int, end: int, score: real)

  /** The document a run works on. */
  datatype Run = Run(user: Uuid, document: Uuid, kb: Uuid)

  // ----- Plan: splitting chunks into batches

  const DEFAULT_BATCH_SIZE: nat := 50

  function EffectiveSize(configured: int): (size: nat)
    ensures size > 0
    ensures size == configured || (configured <= 0 && size == DEFAULT_BATCH_SIZE)
  {
    if configured <= 0 then DEFAULT_BATCH_SIZE else configured
  }

  function Flatten<T>(parts: seq<seq<T>>): seq<T> {
    if parts == [] then [] else Flatten(parts[..|parts| - 1]) + parts[|parts| - 1]
  }

  lemma FlattenNone<T>()
    ensures Flatten<T>([]) == []
  {
  }

  lemma FlattenSnoc<T>(parts: seq<seq<T>>, last: seq<T>)
    ensures Flatten(parts + [last]) == Flatten(parts) + last
  {
    assert (parts + [last])[..|parts|] == parts;
  }

  ghost predicate StandsAt<T>(part: seq<T>, whole: seq<T>, at: int) {
    0 <= at && at + |part| <= |whole| && part == whole[at..at + |part|]
  }

  /** The chunks before start, in batches of one size where more follows. */
  ghost predicate CutTo(batches: seq<seq<Uuid>>, chunks: seq<Uuid>, size: nat, start: nat) {
    && start == |batches| * size
    && Flatten(batches) == chunks[..if start < |chunks| then start else |chunks|]
    && (forall i | 0 <= i < |batches| :: 0 < |batches[i]| <= size)
    && (forall i | 0 <= i < |batches| && (i < |batches| - 1 || start < |chunks|) :: |batches[i]| == size)
    && (forall i | 0 <= i < |batches| :: StandsAt(batches[i], chunks, i * size))
  }

  lemma CutStep(batches: seq<seq<Uuid>>, chunks: seq<Uuid>, size: nat, start: nat, end: nat)
    requires size > 0 && start < |chunks| && CutTo(batches, chunks, size, start)
    requires end == if start + size < |chunks| then start + size else |chunks|
    ensures CutTo(batches + [chunks[start..end]], chunks, size, start + size)
  {
    hide Flatten;
    FlattenSnoc(batches, chunks[start..end]);
    assert chunks[..start] + chunks[start..end] == chunks[..end];
    assert (|batches| + 1) * size == |batches| * size + size;
  }

  /**
   * Splits chunks into consecutive batches: together they are the chunks in
   * order, none is empty or larger than the batch size, and only the last
   * may be smaller.
   */
  method Plan(chunks: seq<Uuid>, configured: int) returns (batches: seq<seq<Uuid>>)
    ensures Flatten(batches) == chunks
    ensures forall i | 0 <= i < |batches| :: 0 < |batches[i]| <= EffectiveSize(configured)
    ensures forall i | 0 <= i < |batches| - 1 :: |batches[i]| == EffectiveSize(configured)
    ensures forall i | 0 <= i < |batches| :: StandsAt(batches[i], chunks, i * EffectiveSize(configured))
  {
    hide EffectiveSize, Flatten, StandsAt, CutTo;
    var size := EffectiveSize(configured);
    batches := [];
    var start := 0;
    CutNone(chunks, size);
    while start < |chunks|
      invariant 0 <= start && CutTo(batches, chunks, size, start)
    {
      var end := if start + size < |chunks| then start + size else |chunks|;
      CutStep(batches, chunks, size, start, end);
      batches := batches + [chunks[start..end]];
      start := start + size;
    }
    CutWhole(batches, chunks, size, start);
  }

  lemma CutNone(chunks: seq<Uuid>, size: nat)
    ensures CutTo([], chunks, size, 0)
  {
    FlattenNone<Uuid>();
  }

  lemma CutWhole(batches: seq<seq<Uuid>>, chunks: seq<Uuid>, size: nat, start: nat)
    requires CutTo(batches, chunks, size, start) && start >= |chunks|
    ensures Flatten(batches) == chunks
    ensures forall i | 0 <= i < |batches| :: 0 < |batches[i]| <= size
    ensures forall i | 0 <= i < |batches| - 1 :: |batches[i]| == size
    ensures forall i | 0 <= i < |batches| :: StandsAt(batches[i], chunks, i * size)
  {
    assert chunks[..|chunks|] == chunks;
  }

  // ----- The entity store

  /** Rows by id in creation order. */
  function Listed(rows: map<Uuid, Entity>, n: nat): seq<Entity> {
    if n == 0 then [] else Listed(rows, n - 1) + if n - 1 in rows then [rows[n - 1]] else []
  }

  function OfRun(list: seq<Entity>, run: Run): seq<Entity> {
    if list == [] then []
    else
      var e := list[|list| - 1];
      OfRun(list[..|list| - 1], run) + if e.user == run.user && e.document == run.document then [e] else []
  }

  /** The rest of the store. */
  function NotOfRun(list: seq<Entity>, run: Run): seq<Entity> {
    if list == [] then []
    else
      var e := list[|list| - 1];
      NotOfRun(list[..|list| - 1], run) + if e.user == run.user && e.document == run.document then [] else [e]
  }

  /** The document's entities in a list, each as often as the list has it; and the rest. */
  lemma {:induction false} OfRunCopies(list: seq<Entity>, run: Run, e: Entity)
    ensures multiset(OfRun(list, run))[e]
         == if e.user == run.user && e.document == run.document then multiset(list)[e] else 0
    ensures multiset(NotOfRun(list, run))[e]
         == if e.user == run.user && e.document == run.document then 0 else multiset(list)[e]
  {
    if list != [] {
      assert list == list[..|list| - 1] + [list[|list| - 1]];
      OfRunCopies(list[..|list| - 1], run, e);
    }
  }

  class EntityStore {
    var rows: map<Uuid, Entity>
    var nextId: Uuid

    ghost predicate Valid()
      reads this
    {
      forall id | id in rows :: id < nextId
    }

    /** Every entity, oldest first. */
    ghost function Contents(): seq<Entity>
      reads this
    {
      Listed(rows, nextId)
    }

    constructor ()
      ensures Valid() && Contents() == []
    {
      rows, nextId := map[], 0;
    }

    method BulkCreate(entities: seq<Entity>)
      requires Valid()
      modifies this
      ensures Valid() && Contents() == old(Contents()) + entities
    {
      for i := 0 to |entities|
        invariant Valid() && Contents() == old(Contents()) + entities[..i]
      {
        assert entities[..i + 1] == entities[..i] + [entities[i]];
        ListedSame(rows, rows[nextId := entities[i]], nextId);
        rows := rows[nextId := entities[i]];
        nextId := nextId + 1;
      }
    }

    method ChunkIDsWithEntities(user: Uuid, document: Uuid) returns (out: set<Uuid>)
      requires Valid()
      ensures out == Extracted(Contents(), user, document)
    {
      out := {};
      var todo := rows.Keys;
      while todo != {}
        invariant todo <= rows.Keys
        invariant forall c :: c in out <==> exists id | id in rows && id !in todo ::
                    rows[id].user == user && rows[id].document == document && rows[id].chunk == c
        decreases todo
      {
        var id :| id in todo;
        if rows[id].user == user && rows[id].document == document {
          out := out + {rows[id].chunk};
        }
        todo := todo - {id};
      }
      ListedMembers(rows, nextId);
      forall c ensures c in out <==> c in Extracted(Contents(), user, document) {
        if c in out {
          var id :| id in rows && rows[id].user == user && rows[id].document == document && rows[id].chunk == c;
          assert rows[id] in Contents();
        }
        if c in Extracted(Contents(), user, document) {
          var e :| e in Contents() && e.user == user && e.document == document && e.chunk == c;
          var id :| id in rows && id < nextId && rows[id] == e;
        }
      }
    }

    method DeleteByDocument(run: Run)
      requires Valid()
      modifies this
      ensures Valid() && Contents() == NotOfRun(old(Contents()), run)
      ensures nextId == old(nextId)
      ensures rows == map id | id in old(rows) && !(old(rows)[id].user == run.user
                                                   && old(rows)[id].document == run.document) :: old(rows)[id]
    {
      ghost var was := rows;
      var todo := rows.Keys;
      while todo != {}
        invariant todo <= was.Keys && nextId == old(nextId)
        invariant forall id :: id in rows <==>
                    id in was && (id in todo || !(was[id].user == run.user && was[id].document == run.document))
        invariant forall id | id in rows :: rows[id] == was[id]
        decreases todo
      {
        var id :| id in todo;
        todo := todo - {id};
        if rows[id].user == run.user && rows[id].document == run.document {
          rows := rows - {id};
        }
      }
      ListedWithout(was, rows, nextId, run);
    }
  }

  lemma {:induction false} ListedSame(rows: map<Uuid, Entity>, rows': map<Uuid, Entity>, n: nat)
    requires forall id | id < n :: (id in rows <==> id in rows') && (id in rows ==> rows[id] == rows'[id])
    ensures Listed(rows, n) == Listed(rows', n)
  {
    if n > 0 {
      ListedSame(rows, rows', n - 1);
    }
  }

  lemma {:induction false} ListedMembers(rows: map<Uuid, Entity>, n: nat)
    ensures forall e :: e in Listed(rows, n) <==> exists id | id in rows && id < n :: rows[id] == e
  {
    if n > 0 {
      ListedMembers(rows, n - 1);
    }
  }

  lemma {:induction false} ListedWithout(was: map<Uuid, Entity>, rows: map<Uuid, Entity>, n: nat, run: Run)
    requires forall id :: id in rows <==> id in was && !(was[id].user == run.user && was[id].document == run.document)
    requires forall id | id in rows :: rows[id] == was[id]
    ensures Listed(rows, n) == NotOfRun(Listed(was, n), run)
  {
    if n > 0 {
      ListedWithout(was, rows, n - 1, run);
      var init := Listed(was, n - 1);
      if n - 1 in was {
        assert (init + [was[n - 1]])[..|init|] == init;
      } else {
        assert init + [] == init;
      }
    }
  }

  // ----- PersistBatch

  ghost function Extracted(list: seq<Entity>, user: Uuid, document: Uuid): set<Uuid> {
    set e | e in list && e.user == user && e.document == document :: e.chunk
  }

  /** A batch's result as entities, keeping only those of the batch's own chunks. */
  function Kept(run: Run, batch: seq<Uuid>, result: seq<Found>): (r: seq<Entity>)
    ensures forall e | e in r :: e.user == run.user && e.document == run.document && e.chunk in batch
  {
    if result == [] then []
    else
      var f := result[|result| - 1];
      Kept(run, batch, result[..|result| - 1])
      + if f.chunk.Some? && f.chunk.value in batch
        then [Entity(run.user, run.document, run.kb, f.chunk.value, f.kind, f.text, f.start, f.end, f.score)] else []
  }

  /** The entity says what the result's entry says, for the run's document. */
  ghost predicate Copies(e: Entity, f: Found, run: Run) {
    && e.user == run.user && e.document == run.document && e.kb == run.kb && f.chunk == Some(e.chunk)
    && e.kind == f.kind && e.text == f.text && e.start == f.start && e.end == f.end && e.score == f.score
  }

  /** The entry names one of the batch's chunks. */
  ghost predicate Names(f: Found, batch: seq<Uuid>) {
    f.chunk.Some? && f.chunk.value in batch
  }

  /** The entities are those of the entries at the given positions, in order; no other names a chunk of the batch. */
  ghost predicate KeptAt(run: Run, batch: seq<Uuid>, result: seq<Found>, kept: seq<Entity>, at: seq<nat>) {
    && |at| == |kept|
    && (forall i, j | 0 <= i < j < |at| :: at[i] < at[j])
    && (forall j | 0 <= j < |at| ::
          at[j] < |result| && Names(result[at[j]], batch) && Copies(kept[j], result[at[j]], run))
    && (forall i | 0 <= i < |result| && i !in at :: !Names(result[i], batch))
  }

  lemma KeptAtStep(run: Run, batch: seq<Uuid>, init: seq<Found>, f: Found, kept: seq<Entity>, at: seq<nat>, e: Entity)
    requires KeptAt(run, batch, init, kept, at)
    ensures Names(f, batch) && Copies(e, f, run) ==> KeptAt(run, batch, init + [f], kept + [e], at + [|init|])
    ensures !Names(f, batch) ==> KeptAt(run, batch, init + [f], kept, at)
  {
    hide Names, Copies;
    var result := init + [f];
    assert result[|init|] == f && forall i | 0 <= i < |init| :: result[i] == init[i];
    assert (at + [|init|])[|at|] == |init|;
    forall i | 0 <= i < |init| && i !in at ensures !Names(result[i], batch) {
      assert !Names(init[i], batch);
    }
  }

  /** What a batch keeps of its result, in order. */
  lemma {:induction false} KeptRight(run: Run, batch: seq<Uuid>, result: seq<Found>) returns (at: seq<nat>)
    ensures KeptAt(run, batch, result, Kept(run, batch, result), at)
  {
    at := [];
    if result != [] {
      var init, f := result[..|result| - 1], result[|result| - 1];
      assert result == init + [f];
      var before := KeptRight(run, batch, init);
      var kept := Kept(run, batch, init);
      hide KeptAt;
      if Names(f, batch) {
        var e := Entity(run.user, run.document, run.kb, f.chunk.value, f.kind, f.text, f.start, f.end, f.score);
        KeptAtStep(run, batch, init, f, kept, before, e);
        at := before + [|init|];
      } else {
        var any := Entity(0, 0, 0, 0, "", "", 0, 0, 0.0);
        KeptAtStep(run, batch, init, f, kept, before, any);
        assert kept + [] == kept;
        at := before;
      }
    }
  }

  /** The entries of a batch's result an entity may come from. */
  ghost function Entries(e: Entity, run: Run, batch: seq<Uuid>, result: seq<Found>): set<nat> {
    set i: nat | i < |result| && Names(result[i], batch) && Copies(e, result[i], run)
  }

  /** A batch keeps one copy of an entity for each entry it comes from. */
  lemma {:induction false} KeptCopies(e: Entity, run: Run, batch: seq<Uuid>, result: seq<Found>)
    ensures multiset(Kept(run, batch, result))[e] == |Entries(e, run, batch, result)|
  {
    if result == [] {
      assert Entries(e, run, batch, result) == {};
    } else {
      var init, f := result[..|result| - 1], result[|result| - 1];
      assert result == init + [f];
      KeptCopies(e, run, batch, init);
      EntriesSnoc(e, run, batch, init, f);
    }
  }

  lemma EntriesSnoc(e: Entity, run: Run, batch: seq<Uuid>, init: seq<Found>, f: Found)
    ensures |Entries(e, run, batch, init + [f])|
         == |Entries(e, run, batch, init)| + if Names(f, batch) && Copies(e, f, run) then 1 else 0
  {
    hide Names, Copies;
    var result, was := init + [f], Entries(e, run, batch, init);
    assert |init| !in was;
    assert result[|init|] == f && forall i | 0 <= i < |init| :: result[i] == init[i];
    assert Entries(e, run, batch, result)
        == if Names(f, batch) && Copies(e, f, run) then was + {|init|} else was;
  }

  /** Already saved: some chunk of the batch has entities. */
  ghost predicate Saved(list: seq<Entity>, run: Run, batch: seq<Uuid>) {
    exists c | c in batch :: c in Extracted(list, run.user, run.document)
  }

  ghost function Persist(list: seq<Entity>, run: Run, batch: seq<Uuid>, result: seq<Found>): seq<Entity> {
    if Saved(list, run, batch) then list else list + Kept(run, batch, result)
  }

  /** Chunk ids as staged with a batch; one that does not parse is None. */
  function Parsed(staged: seq<Option<Uuid>>): (r: seq<Uuid>)
    ensures forall c :: c in r <==> Some(c) in staged
  {
    if staged == [] then []
    else
      var init, c := staged[..|staged| - 1], staged[|staged| - 1];
      assert staged == init + [c];
      Parsed(init) + if c.Some? then [c.value] else []
  }

  /** The first staged id that does not parse comes before any chunk that already has entities. */
  ghost predicate Malformed(list: seq<Entity>, run: Run, staged: seq<Option<Uuid>>) {
    exists k | 0 <= k < |staged| :: staged[k].None? && Unsaved(list, run, staged[..k])
  }

  ghost predicate Unsaved(list: seq<Entity>, run: Run, staged: seq<Option<Uuid>>) {
    None !in staged && !Saved(list, run, Parsed(staged))
  }

  datatype Outcome = Persisted | Superseded | NoRecord | BadInput

  /** Whether the attempt is still the document's current one, which marking it processing finds out. */
  function Marked(rec: Option<JS.Record>, attempt: int): JS.Outcome {
    if rec.None? then JS.Err(JS.NotFound) else JS.Transition(rec.value, attempt, JS.Processing, "", "")
  }

  lemma ParsedStep(staged: seq<Option<Uuid>>, k: nat)
    requires k < |staged|
    ensures Parsed(staged[..k + 1]) == Parsed(staged[..k]) + if staged[k].Some? then [staged[k].value] else []
    ensures None in staged[..k + 1] <==> None in staged[..k] || staged[k].None?
  {
    assert staged[..k + 1] == staged[..k] + [staged[k]];
    assert staged[..k + 1][..k] == staged[..k];
  }

  /** Looks for staged ids that do not parse or already have entities; found none if the batch is to be saved. */
  method CheckBatch(store: EntityStore, run: Run, staged: seq<Option<Uuid>>)
    returns (outcome: Outcome, batch: seq<Uuid>, unsaved: bool)
    requires store.Valid()
    ensures unsaved <==> Unsaved(store.Contents(), run, staged)
    ensures outcome == if Malformed(store.Contents(), run, staged) then BadInput else Persisted
    ensures unsaved ==> batch == Parsed(staged) && outcome.Persisted?
  {
    ghost var list := store.Contents();
    var done := store.ChunkIDsWithEntities(run.user, run.document);
    batch := [];
    for k := 0 to |staged|
      invariant batch == Parsed(staged[..k]) && Unsaved(list, run, staged[..k])
    {
      ParsedStep(staged, k);
      if staged[k].None? {
        MalformedAt(list, run, staged, k);
        return BadInput, batch, false;
      }
      if staged[k].value in done {
        SavedAt(list, run, staged, k);
        return Persisted, batch, false;
      }
      batch := batch + [staged[k].value];
    }
    assert staged[..|staged|] == staged;
    NotMalformed(list, run, staged);
    return Persisted, batch, true;
  }

  lemma MalformedAt(list: seq<Entity>, run: Run, staged: seq<Option<Uuid>>, k: nat)
    requires k < |staged| && staged[k].None? && Unsaved(list, run, staged[..k])
    ensures Malformed(list, run, staged) && !Unsaved(list, run, staged)
  {
    hide Saved;
    assert staged[k] in staged;
  }

  lemma SavedAt(list: seq<Entity>, run: Run, staged: seq<Option<Uuid>>, k: nat)
    requires k < |staged| && staged[k].Some? && Unsaved(list, run, staged[..k])
    requires staged[k].value in Extracted(list, run.user, run.document)
    ensures !Malformed(list, run, staged) && !Unsaved(list, run, staged)
  {
    hide Extracted;
    var c := staged[k].value;
    assert staged[k] in staged && c in Parsed(staged);
    forall j | 0 <= j < k ensures staged[j].Some? {
      assert staged[..k][j] in staged[..k];
    }
    forall j | k < j < |staged| ensures !Unsaved(list, run, staged[..j]) {
      assert staged[..j][k] == staged[k];
      assert staged[k] in staged[..j] && c in Parsed(staged[..j]);
    }
  }

  lemma NotMalformed(list: seq<Entity>, run: Run, staged: seq<Option<Uuid>>)
    requires None !in staged
    ensures !Malformed(list, run, staged)
  {
    forall j | 0 <= j < |staged| ensures staged[j].Some? {
      assert staged[j] in staged;
    }
  }

  /** A run's attempt and the record of its job. */
  datatype Attempt = Attempt(rec: Option<JS.Record>, number: int)

  ghost predicate Current(a: Attempt) {
    Marked(a.rec, a.number).Ok?
  }

  /**
   * Whether a batch's result is to be saved: the attempt is the current one
   * and not finished, every staged id parses, and no chunk staged has
   * entities of the document.
   */
  ghost predicate ToSave(list: seq<Entity>, run: Run, a: Attempt, staged: seq<Option<Uuid>>) {
    && a.rec.Some? && a.number == a.rec.value.attempt && a.rec.value.status.Active()
    && None !in staged
    && forall e | e in list && e.user == run.user && e.document == run.document :: Some(e.chunk) !in staged
  }

  ghost predicate Adds(list: seq<Entity>, list': seq<Entity>, run: Run, batch: seq<Uuid>, result: seq<Found>) {
    exists kept, at :: KeptAt(run, batch, result, kept, at) && list' == list + kept
  }

  lemma SavesRight(list: seq<Entity>, run: Run, a: Attempt, staged: seq<Option<Uuid>>, result: seq<Found>)
    ensures var list' := if Current(a) && None !in staged then Persist(list, run, Parsed(staged), result) else list;
            if ToSave(list, run, a, staged) then Adds(list, list', run, Parsed(staged), result) else list' == list
  {
    hide Kept, KeptAt;
    var at := KeptRight(run, Parsed(staged), result);
    assert Current(a) <==> a.rec.Some? && a.number == a.rec.value.attempt && a.rec.value.status.Active();
    if Current(a) && None !in staged {
      if Saved(list, run, Parsed(staged)) {
        var c :| c in Parsed(staged) && c in Extracted(list, run.user, run.document);
        var e :| e in list && e.user == run.user && e.document == run.document && e.chunk == c;
        assert Some(e.chunk) in staged;
      } else {
        forall e | e in list && e.user == run.user && e.document == run.document ensures Some(e.chunk) !in staged {
          ExtractedHas(list, run, e);
        }
      }
    }
  }

  /**
   * Saves a batch's result. Nothing is saved if the attempt is not the
   * current one, the staged input is malformed, or the batch was saved
   * before; the last is no error.
   */
  method PersistBatch(store: EntityStore, run: Run, a: Attempt, staged: seq<Option<Uuid>>, result: seq<Found>)
    returns (outcome: Outcome, rec: Option<JS.Record>)
    requires store.Valid()
    modifies store
    ensures store.Valid()
    ensures store.Contents() == if Current(a) && None !in staged
                                then Persist(old(store.Contents()), run, Parsed(staged), result)
                                else old(store.Contents())
    ensures if ToSave(old(store.Contents()), run, a, staged)
            then Adds(old(store.Contents()), store.Contents(), run, Parsed(staged), result)
            else store.Contents() == old(store.Contents())
    ensures outcome.NoRecord? <==> a.rec.None?
    ensures outcome.Superseded? <==> a.rec.Some? && !Current(a)
    ensures outcome.BadInput? <==> Current(a) && Malformed(old(store.Contents()), run, staged)
    ensures rec == if Current(a) then Some(Marked(a.rec, a.number).next) else a.rec
    ensures Current(a) ==> rec == Some(a.rec.value.(status := JS.Processing))
  {
    SavesRight(store.Contents(), run, a, staged, result);
    hide ToSave, Adds;
    if a.rec.None? {
      return NoRecord, a.rec;
    }
    var r := JS.Transition(a.rec.value, a.number, JS.Processing, "", "");
    if r.Err? {
      return Superseded, a.rec;
    }
    rec := Some(r.next);
    var batch, unsaved;
    outcome, batch, unsaved := CheckBatch(store, run, staged);
    if !unsaved {
      return;
    }
    var entities: seq<Entity> := [];
    for i := 0 to |result|
      invariant entities == Kept(run, batch, result[..i])
    {
      var f := result[i];
      assert result[..i + 1][..i] == result[..i];
      if f.chunk.Some? && f.chunk.value in batch {
        entities := entities + [Entity(run.user, run.document, run.kb, f.chunk.value,
                                       f.kind, f.text, f.start, f.end, f.score)];
      }
    }
    assert result[..|result|] == result;
    if |entities| > 0 {
      store.BulkCreate(entities);
    }
  }

  // ----- Any order, any repeats

  /** A planned run: each batch with the result its job produced. */
  datatype Job = Job(batch: seq<Uuid>, result: seq<Found>)

  ghost predicate Indexes(order: seq<nat>, n: nat) {
    forall j | 0 <= j < |order| :: order[j] < n
  }

  ghost predicate Disjoint(jobs: seq<Job>) {
    forall i, j, c | 0 <= i < |jobs| && 0 <= j < |jobs| && c in jobs[i].batch && c in jobs[j].batch :: i == j
  }

  /** The store after persisting the batches numbered in order, one after another. */
  ghost function PersistAll(list: seq<Entity>, run: Run, jobs: seq<Job>, order: seq<nat>): seq<Entity>
    requires Indexes(order, |jobs|)
  {
    if order == [] then list
    else
      var init, k := order[..|order| - 1], order[|order| - 1];
      assert order == init + [k];
      Persist(PersistAll(list, run, jobs, init), run, jobs[k].batch, jobs[k].result)
  }

  ghost function KeptOf(run: Run, jobs: seq<Job>, order: seq<nat>): seq<Entity>
    requires Indexes(order, |jobs|)
  {
    if order == [] then []
    else
      var init, k := order[..|order| - 1], order[|order| - 1];
      assert order == init + [k];
      KeptOf(run, jobs, init) + Kept(run, jobs[k].batch, jobs[k].result)
  }

  lemma {:induction false} KeptFrom(run: Run, jobs: seq<Job>, order: seq<nat>)
    requires Indexes(order, |jobs|)
    ensures forall e | e in KeptOf(run, jobs, order) ::
              exists j | 0 <= j < |order| :: e in Kept(run, jobs[order[j]].batch, jobs[order[j]].result)
    ensures forall j, e | 0 <= j < |order| && e in Kept(run, jobs[order[j]].batch, jobs[order[j]].result) ::
              e in KeptOf(run, jobs, order)
  {
    if order != [] {
      assert order == order[..|order| - 1] + [order[|order| - 1]];
      KeptFrom(run, jobs, order[..|order| - 1]);
    }
  }

  lemma ExtractedHas(list: seq<Entity>, run: Run, e: Entity)
    requires e in list && e.user == run.user && e.document == run.document
    ensures e.chunk in Extracted(list, run.user, run.document)
  {
  }

  /** A batch counts as saved exactly when it was persisted before and had something to save. */
  lemma SavedExactly(list: seq<Entity>, run: Run, jobs: seq<Job>, order: seq<nat>, k: nat)
    requires Disjoint(jobs) && k < |jobs| && Indexes(order, |jobs|)
    requires Extracted(list, run.user, run.document) == {}
    ensures Saved(list + KeptOf(run, jobs, order), run, jobs[k].batch)
            <==> k in order && Kept(run, jobs[k].batch, jobs[k].result) != []
  {
    var all, mine := list + KeptOf(run, jobs, order), Kept(run, jobs[k].batch, jobs[k].result);
    KeptFrom(run, jobs, order);
    forall e | e in list ensures !(e.user == run.user && e.document == run.document) {
      if e.user == run.user && e.document == run.document {
        ExtractedHas(list, run, e);
      }
    }
    if k in order && mine != [] {
      var e := mine[0];
      assert e in mine && e in all;
      assert e.chunk in Extracted(all, run.user, run.document);
    }
    if Saved(all, run, jobs[k].batch) {
      var c :| c in jobs[k].batch && c in Extracted(all, run.user, run.document);
      var e :| e in all && e.user == run.user && e.document == run.document && e.chunk == c;
      assert e in KeptOf(run, jobs, order);
      var j :| 0 <= j < |order| && e in Kept(run, jobs[order[j]].batch, jobs[order[j]].result);
      assert order[j] == k;
    }
  }

  lemma OrderIndexes(order: seq<nat>, n: nat)
    requires Indexes(order, n)
    ensures Indexes(Order(order), n)
  {
    var r := Order(order);
    forall j | 0 <= j < |r| ensures r[j] < n {
      assert r[j] in r && r[j] in order;
      var p :| 0 <= p < |order| && order[p] == r[j];
    }
  }

  /**
   * After each batch has been persisted, in any order and with any number of
   * repeats, the store holds exactly one copy of each batch's kept entities,
   * in the order the batches were first persisted, after whatever it held.
   */
  lemma {:induction false} PersistedOnce(list: seq<Entity>, run: Run, jobs: seq<Job>, order: seq<nat>)
    requires Disjoint(jobs) && Indexes(order, |jobs|)
    requires Extracted(list, run.user, run.document) == {}
    ensures Indexes(Order(order), |jobs|)
    ensures PersistAll(list, run, jobs, order) == list + KeptOf(run, jobs, Order(order))
  {
    hide Kept, Saved, Extracted, Order, Indexes;
    OrderIndexes(order, |jobs|);
    if order == [] {
      EmptyOrder<nat>();
      assert list + [] == list;
    } else {
      var init, k := order[..|order| - 1], order[|order| - 1];
      InitIndexes(order, |jobs|);
      OrderIndexes(init, |jobs|);
      PersistedOnce(list, run, jobs, init);
      SavedExactly(list, run, jobs, Order(init), k);
      assert order == init + [k];
      PersistNext(list, run, jobs, init, k);
    }
  }

  lemma InitIndexes(order: seq<nat>, n: nat)
    requires Indexes(order, n) && order != []
    ensures Indexes(order[..|order| - 1], n) && order[|order| - 1] < n
  {
  }

  /** Persisting one more batch extends the first-seen order by it, or changes nothing. */
  lemma PersistNext(list: seq<Entity>, run: Run, jobs: seq<Job>, init: seq<nat>, k: nat)
    requires k < |jobs| && Indexes(init, |jobs|) && Indexes(Order(init), |jobs|) && Indexes(Order(init + [k]), |jobs|)
    requires var saved := list + KeptOf(run, jobs, Order(init));
             Saved(saved, run, jobs[k].batch) <==> k in Order(init) && Kept(run, jobs[k].batch, jobs[k].result) != []
    ensures Persist(list + KeptOf(run, jobs, Order(init)), run, jobs[k].batch, jobs[k].result)
         == list + KeptOf(run, jobs, Order(init + [k]))
  {
    hide Kept, Saved, Order, KeptOf, Indexes;
    OrderSnoc(init, k);
    var mine := Kept(run, jobs[k].batch, jobs[k].result);
    var saved := KeptOf(run, jobs, Order(init));
    if k in init {
      assert list + saved + [] == list + saved;
    } else {
      KeptSnoc(run, jobs, Order(init), k);
      assert list + saved + mine == list + (saved + mine);
    }
  }

  lemma KeptSnoc(run: Run, jobs: seq<Job>, order: seq<nat>, k: nat)
    requires k < |jobs| && Indexes(order, |jobs|) && Indexes(order + [k], |jobs|)
    ensures KeptOf(run, jobs, order + [k]) == KeptOf(run, jobs, order) + Kept(run, jobs[k].batch, jobs[k].result)
  {
    assert (order + [k])[..|order|] == order;
  }

  ghost predicate SameMembers(p: seq<nat>, q: seq<nat>) {
    forall i :: i in p <==> i in q
  }

  /** One copy each, whatever the order: two orders covering the same batches save the same entities. */
  lemma {:induction false} OrderIrrelevant(run: Run, jobs: seq<Job>, p: seq<nat>, q: seq<nat>)
    requires Distinct(p) && Distinct(q) && SameMembers(p, q)
    requires Indexes(p, |jobs|) && Indexes(q, |jobs|)
    ensures multiset(KeptOf(run, jobs, p)) == multiset(KeptOf(run, jobs, q))
  {
    if p == [] {
      if q != [] {
        SomeMember(p, q);
      }
    } else {
      hide KeptOf, Kept, SameMembers, Distinct, Indexes;
      var k := PositionOf(p, q);
      RestMatches(p, q, k);
      OrderIrrelevant(run, jobs, p[..|p| - 1], q[..k] + q[k + 1..]);
      KeptWithout(run, jobs, q, k);
      KeptWithout(run, jobs, p, |p| - 1);
      assert p[..|p| - 1] + p[|p|..] == p[..|p| - 1];
    }
  }

  lemma KeptWithout(run: Run, jobs: seq<Job>, q: seq<nat>, k: nat)
    requires k < |q| && Indexes(q, |jobs|)
    ensures q[k] < |jobs| && Indexes(q[..k] + q[k + 1..], |jobs|)
    ensures multiset(KeptOf(run, jobs, q))
         == multiset(KeptOf(run, jobs, q[..k] + q[k + 1..])) + multiset(Kept(run, jobs[q[k]].batch, jobs[q[k]].result))
  {
    hide KeptOf, Kept;
    var rest := q[..k] + q[k + 1..];
    forall j | 0 <= j < |rest| ensures rest[j] < |jobs| {
      assert rest[j] == if j < k then q[j] else q[j + 1];
    }
    KeptRemove(run, jobs, q[..k], q[k], q[k + 1..]);
    assert q == q[..k] + [q[k]] + q[k + 1..];
  }

  lemma SomeMember(p: seq<nat>, q: seq<nat>)
    requires SameMembers(p, q) && q != []
    ensures p != []
  {
    assert q[0] in q;
  }

  /** Where p's last value stands in q. */
  lemma PositionOf(p: seq<nat>, q: seq<nat>) returns (k: nat)
    requires p != [] && SameMembers(p, q)
    ensures k < |q| && q[k] == p[|p| - 1]
  {
    assert p[|p| - 1] in p;
    k :| 0 <= k < |q| && q[k] == p[|p| - 1];
  }

  lemma RestMatches(p: seq<nat>, q: seq<nat>, k: nat)
    requires Distinct(p) && Distinct(q) && SameMembers(p, q)
    requires p != [] && k < |q| && q[k] == p[|p| - 1]
    ensures Distinct(p[..|p| - 1]) && Distinct(q[..k] + q[k + 1..])
    ensures SameMembers(p[..|p| - 1], q[..k] + q[k + 1..])
    ensures forall n | Indexes(p, n) :: Indexes(p[..|p| - 1], n)
  {
    var init := p[..|p| - 1];
    assert init + p[|p|..] == init;
    forall i ensures i in init <==> i in q[..k] + q[k + 1..] {
      Without(p, |p| - 1, i);
      Without(q, k, i);
    }
    Without(q, k, 0);
  }

  /** Taking one position out of a sequence of distinct values takes out that value alone. */
  lemma Without(s: seq<nat>, k: nat, i: nat)
    requires Distinct(s) && k < |s|
    ensures i in s[..k] + s[k + 1..] <==> i in s && i != s[k]
    ensures Distinct(s[..k] + s[k + 1..])
  {
    assert s == s[..k] + [s[k]] + s[k + 1..];
  }

  lemma {:induction false} KeptRemove(run: Run, jobs: seq<Job>, a: seq<nat>, x: nat, b: seq<nat>)
    requires x < |jobs| && Indexes(a + b, |jobs|)
    ensures Indexes(a + [x] + b, |jobs|)
    ensures multiset(KeptOf(run, jobs, a + [x] + b))
         == multiset(KeptOf(run, jobs, a + b)) + multiset(Kept(run, jobs[x].batch, jobs[x].result))
  {
    forall j | 0 <= j < |a + [x] + b| ensures (a + [x] + b)[j] < |jobs| {
      assert j < |a| ==> (a + b)[j] == (a + [x] + b)[j];
      assert j > |a| ==> (a + b)[j - 1] == (a + [x] + b)[j];
    }
    if b == [] {
      assert a + [x] + b == a + [x] && a + b == a;
      assert (a + [x])[..|a|] == a;
    } else {
      var init, y := b[..|b| - 1], b[|b| - 1];
      assert b == init + [y];
      assert (a + b)[..|a + b| - 1] == a + init;
      KeptRemove(run, jobs, a, x, init);
      assert (a + [x] + b)[..|a + [x] + b| - 1] == a + [x] + init;
      assert (a + b)[..|a + b| - 1] == a + init;
    }
  }

  // ----- A planned run

  lemma {:induction false} FlattenMembers(parts: seq<seq<Uuid>>, c: Uuid)
    ensures c in Flatten(parts) <==> exists i | 0 <= i < |parts| :: c in parts[i]
  {
    if parts != [] {
      var init, last := parts[..|parts| - 1], parts[|parts| - 1];
      FlattenMembers(init, c);
      if c in last {
        assert c in parts[|parts| - 1];
      }
      if c in Flatten(init) {
        var i :| 0 <= i < |init| && c in init[i];
        assert c in parts[i];
      }
    }
  }

  /** Batches of distinct chunks share none. */
  lemma {:induction false} BatchesApart(batches: seq<seq<Uuid>>, i: nat, j: nat, c: Uuid)
    requires Distinct(Flatten(batches)) && i < j < |batches| && c in batches[i]
    ensures c !in batches[j]
  {
    var init, last := batches[..|batches| - 1], batches[|batches| - 1];
    var whole := Flatten(init) + last;
    assert Distinct(Flatten(init)) by {
      assert forall k | 0 <= k < |Flatten(init)| :: whole[k] == Flatten(init)[k];
    }
    if j < |init| {
      BatchesApart(init, i, j, c);
    } else {
      assert c in init[i];
      FlattenMembers(init, c);
      var p :| 0 <= p < |Flatten(init)| && Flatten(init)[p] == c;
      forall q | 0 <= q < |last| ensures last[q] != c {
        assert whole[p] != whole[|Flatten(init)| + q];
      }
    }
  }

  /** The batches of a plan with the results their jobs produce. */
  ghost function JobsOf(batches: seq<seq<Uuid>>, results: nat -> seq<Found>): (jobs: seq<Job>)
    ensures |jobs| == |batches|
    ensures forall k | 0 <= k < |jobs| :: jobs[k] == Job(batches[k], results(k))
  {
    seq(|batches|, k requires 0 <= k < |batches| => Job(batches[k], results(k)))
  }

  lemma PlannedDisjoint(batches: seq<seq<Uuid>>, results: nat -> seq<Found>)
    requires Distinct(Flatten(batches))
    ensures Disjoint(JobsOf(batches, results))
  {
    forall i, j, c | 0 <= i < j < |batches| && c in batches[i] ensures c !in batches[j] {
      BatchesApart(batches, i, j, c);
    }
  }

  lemma {:induction false} ClearedExtracts(list: seq<Entity>, run: Run)
    ensures Extracted(NotOfRun(list, run), run.user, run.document) == {}
    ensures OfRun(NotOfRun(list, run), run) == [] && NotOfRun(NotOfRun(list, run), run) == NotOfRun(list, run)
  {
    if list != [] {
      var init, e := list[..|list| - 1], list[|list| - 1];
      ClearedExtracts(init, run);
      var rest := NotOfRun(init, run);
      assert rest + [] == rest;
      assert (rest + [e])[..|rest|] == rest;
    }
  }

  lemma {:induction false} OfRunConcat(a: seq<Entity>, b: seq<Entity>, run: Run)
    requires forall e | e in b :: e.user == run.user && e.document == run.document
    ensures OfRun(a + b, run) == OfRun(a, run) + b && NotOfRun(a + b, run) == NotOfRun(a, run)
  {
    if b == [] {
      assert a + b == a;
    } else {
      var init, e := b[..|b| - 1], b[|b| - 1];
      assert b == init + [e];
      OfRunConcat(a, init, run);
      assert (a + b)[..|a + b| - 1] == a + init;
    }
  }

  lemma {:induction false} KeptOfRun(run: Run, jobs: seq<Job>, order: seq<nat>)
    requires Indexes(order, |jobs|)
    ensures forall e | e in KeptOf(run, jobs, order) :: e.user == run.user && e.document == run.document
  {
    if order != [] {
      assert order == order[..|order| - 1] + [order[|order| - 1]];
      KeptOfRun(run, jobs, order[..|order| - 1]);
    }
  }

  /** The batch numbers in order. */
  ghost function Numbered(n: nat): (r: seq<nat>)
    ensures |r| == n && Distinct(r) && Indexes(r, n) && forall k :: k in r <==> 0 <= k < n
  {
    if n == 0 then [] else Numbered(n - 1) + [n - 1]
  }

  /** Planning clears the document's entities, unless it finds no chunks to extract new ones from. */
  function Cleared(list: seq<Entity>, run: Run, chunks: seq<Uuid>): seq<Entity> {
    if chunks == [] then list else NotOfRun(list, run)
  }

  /**
   * A planned run of a document that has chunks: whatever the store held of
   * the document before, once it is cleared and the planned batches are
   * persisted in any order with any repeats, the document's entities are one
   * copy of what each batch persisted kept, and nothing else changes. When
   * every batch has been persisted, that is every batch of the plan.
   */
  lemma PlannedRunSaves(list: seq<Entity>, run: Run, chunks: seq<Uuid>, batches: seq<seq<Uuid>>,
                        results: nat -> seq<Found>, order: seq<nat>)
    requires Distinct(chunks) && chunks != [] && Flatten(batches) == chunks && Indexes(order, |batches|)
    ensures var jobs, cleared := JobsOf(batches, results), Cleared(list, run, chunks);
            var final := PersistAll(cleared, run, jobs, order);
            && Indexes(Order(order), |jobs|)
            && OfRun(final, run) == KeptOf(run, jobs, Order(order))
            && NotOfRun(final, run) == NotOfRun(list, run)
            && ((forall k: nat | k < |batches| :: k in order) ==>
                  multiset(OfRun(final, run)) == multiset(KeptOf(run, jobs, Numbered(|batches|))))
  {
    hide OfRun, NotOfRun, PersistAll, KeptOf, Order, Extracted;
    var jobs, cleared := JobsOf(batches, results), NotOfRun(list, run);
    PlannedDisjoint(batches, results);
    ClearedExtracts(list, run);
    PersistedOnce(cleared, run, jobs, order);
    KeptOfRun(run, jobs, Order(order));
    OfRunConcat(cleared, KeptOf(run, jobs, Order(order)), run);
    if forall k: nat | k < |batches| :: k in order {
      forall k ensures k in Order(order) <==> k in Numbered(|batches|) {
        IndexBound(order, |batches|, k);
      }
      OrderIrrelevant(run, jobs, Order(order), Numbered(|batches|));
    }
  }

  /**
   * A whole run leaves the document with exactly what its persisted batches
   * kept if and only if the document has chunks, or had no entities before.
   */
  lemma RunReplacesExactly(list: seq<Entity>, run: Run, chunks: seq<Uuid>, batches: seq<seq<Uuid>>,
                           results: nat -> seq<Found>, order: seq<nat>)
    requires Distinct(chunks) && Flatten(batches) == chunks && Indexes(order, |batches|)
    requires forall i | 0 <= i < |batches| :: batches[i] != []
    ensures var jobs := JobsOf(batches, results);
            var final := PersistAll(Cleared(list, run, chunks), run, jobs, order);
            && Indexes(Order(order), |jobs|)
            && NotOfRun(final, run) == NotOfRun(list, run)
            && (chunks == [] ==> OfRun(final, run) == OfRun(list, run))
            && (OfRun(final, run) == KeptOf(run, jobs, Order(order)) <==> chunks != [] || OfRun(list, run) == [])
  {
    if chunks == [] {
      SomeChunks(batches);
      EmptyOrder<nat>();
      NoIndexes(order, |batches|);
    } else {
      hide OfRun, NotOfRun, KeptOf, Order;
      PlannedRunSaves(list, run, chunks, batches, results, order);
    }
  }

  lemma NoIndexes(order: seq<nat>, n: nat)
    requires Indexes(order, n)
    ensures order != [] ==> n > 0
  {
    if order != [] {
      assert order[0] < n;
    }
  }

  lemma SomeChunks(batches: seq<seq<Uuid>>)
    requires forall i | 0 <= i < |batches| :: batches[i] != []
    ensures batches != [] ==> Flatten(batches) != []
  {
    if batches != [] {
      assert batches[|batches| - 1] != [];
    }
  }

  /** A document re-indexed to no chunks keeps the entities of its earlier chunks. */
  lemma NoChunksKeepsOld(run: Run, stale: Entity, results: nat -> seq<Found>)
    requires stale.user == run.user && stale.document == run.document
    ensures var final := PersistAll(Cleared([stale], run, []), run, JobsOf([], results), []);
            OfRun(final, run) == [stale] && KeptOf(run, JobsOf([], results), []) == []
  {
    assert [stale][..0] == [];
  }

  lemma IndexBound(order: seq<nat>, n: nat, k: nat)
    requires Indexes(order, n)
    ensures k in order ==> k < n
  {
  }

  datatype PlanOutcome = Planned | Stale | Unrecorded | NoChunks

  /**
   * The run's first step. Unless the attempt is not the current one or the
   * document has no chunks, its canonical counts are taken back, its
   * entities cleared and its chunks split into batches.
   */
  method Prepare(store: EntityStore, canonical: CR.Repository, run: Run, a: Attempt, chunks: seq<Uuid>, configured: int)
    returns (outcome: PlanOutcome, batches: seq<seq<Uuid>>, rec: Option<JS.Record>)
    requires store.Valid() && canonical.Valid()
    modifies store, canonical
    ensures store.Valid() && canonical.Valid()
    ensures outcome == if a.rec.None? then Unrecorded else if !Current(a) then Stale
                       else if chunks == [] then NoChunks else Planned
    ensures rec == if Current(a) then Some(Marked(a.rec, a.number).next) else a.rec
    ensures Current(a) ==> rec == Some(a.rec.value.(status := JS.Processing))
    ensures outcome.Planned? ==>
              && Flatten(batches) == chunks
              && store.Contents() == NotOfRun(old(store.Contents()), run)
              && canonical.State() == CM.Decrement(old(canonical.State()), CM.DocKey(run.user, run.document))
    ensures !outcome.Planned? ==>
              && batches == []
              && store.Contents() == old(store.Contents()) && canonical.State() == old(canonical.State())
    ensures forall i | 0 <= i < |batches| :: 0 < |batches[i]| <= EffectiveSize(configured)
    ensures forall i | 0 <= i < |batches| - 1 :: |batches[i]| == EffectiveSize(configured)
  {
    if a.rec.None? {
      return Unrecorded, [], a.rec;
    }
    var r := JS.Transition(a.rec.value, a.number, JS.Processing, "", "");
    if r.Err? {
      return Stale, [], a.rec;
    }
    rec := Some(r.next);
    if |chunks| == 0 {
      return NoChunks, [], rec;
    }
    canonical.DecrementForDocument(run.user, run.document);
    store.DeleteByDocument(run);
    batches := Plan(chunks, configured);
    outcome := Planned;
  }

  /** How many entries of a delivered batch's result an entity comes from. */
  ghost function CopiesFrom(e: Entity, run: Run, batches: seq<seq<Uuid>>, results: nat -> seq<Found>): nat -> int {
    (k: nat) => if k < |batches| then |Entries(e, run, batches[k], results(k))| else 0
  }

  ghost function DeliveredBatches(deliveries: seq<nat>, n: nat): set<nat> {
    set k | k in deliveries && k < n
  }

  /**
   * The list holds as many copies of an entity of the document as there are
   * entries it comes from, over the batches delivered, each counted once,
   * and of any other entity as many as before.
   */
  ghost predicate Replaced(was: seq<Entity>, list: seq<Entity>, run: Run, batches: seq<seq<Uuid>>,
                           results: nat -> seq<Found>, deliveries: seq<nat>)
  {
    forall e :: multiset(list)[e] ==
      if e.user == run.user && e.document == run.document
      then SumOver(DeliveredBatches(deliveries, |batches|), CopiesFrom(e, run, batches, results))
      else multiset(was)[e]
  }

  ghost function Members(order: seq<nat>): set<nat> {
    set k | k in order
  }

  lemma MembersSnoc(init: seq<nat>, k: nat)
    requires Distinct(init + [k])
    ensures k in Members(init + [k]) && Members(init + [k]) - {k} == Members(init) && Distinct(init)
  {
    var order := init + [k];
    assert order[|init|] == k && forall i | 0 <= i < |init| :: order[i] == init[i];
  }

  lemma {:induction false} KeptOfCopies(e: Entity, run: Run, batches: seq<seq<Uuid>>, results: nat -> seq<Found>,
                                        order: seq<nat>)
    requires Distinct(order) && Indexes(order, |batches|)
    ensures multiset(KeptOf(run, JobsOf(batches, results), order))[e]
         == SumOver(Members(order), CopiesFrom(e, run, batches, results))
  {
    hide Entries, Kept, Members, Distinct;
    if order == [] {
      NoMembers();
    } else {
      var init, k := order[..|order| - 1], order[|order| - 1];
      assert order == init + [k];
      MembersSnoc(init, k);
      KeptOfCopies(e, run, batches, results, init);
      KeptCopies(e, run, batches[k], results(k));
      SumRemove(Members(order), CopiesFrom(e, run, batches, results), k);
    }
  }

  lemma NoMembers()
    ensures Members([]) == {}
  {
  }

  lemma {:induction false} DeliveredMembers(deliveries: seq<nat>, n: nat)
    ensures forall k :: k in DeliveredOf(deliveries, n) <==> k in deliveries && k < n
  {
    if deliveries != [] {
      assert deliveries == deliveries[..|deliveries| - 1] + [deliveries[|deliveries| - 1]];
      DeliveredMembers(deliveries[..|deliveries| - 1], n);
    }
  }

  /** What a planned run leaves, told by the entries of the results alone. */
  lemma ExtractionReplaces(was: seq<Entity>, list: seq<Entity>, run: Run, batches: seq<seq<Uuid>>,
                           results: nat -> seq<Found>, deliveries: seq<nat>)
    requires var order := DeliveredOf(deliveries, |batches|);
             && Indexes(Order(order), |batches|)
             && OfRun(list, run) == KeptOf(run, JobsOf(batches, results), Order(order))
    requires NotOfRun(list, run) == NotOfRun(was, run)
    ensures Replaced(was, list, run, batches, results, deliveries)
  {
    hide OfRun, NotOfRun, KeptOf, DeliveredOf, CopiesFrom, JobsOf;
    var order := DeliveredOf(deliveries, |batches|);
    DeliveredMembers(deliveries, |batches|);
    assert Members(Order(order)) == DeliveredBatches(deliveries, |batches|);
    forall e ensures multiset(list)[e] ==
                       if e.user == run.user && e.document == run.document
                       then SumOver(DeliveredBatches(deliveries, |batches|), CopiesFrom(e, run, batches, results))
                       else multiset(was)[e]
    {
      OfRunCopies(list, run, e);
      OfRunCopies(was, run, e);
      KeptOfCopies(e, run, batches, results, Order(order));
    }
  }

  function Staged(batch: seq<Uuid>): (r: seq<Option<Uuid>>)
    ensures None !in r && Parsed(r) == batch
  {
    if batch == [] then []
    else
      var init := Staged(batch[..|batch| - 1]);
      StagedSnoc(init, batch);
      init + [Some(batch[|batch| - 1])]
  }

  lemma StagedSnoc(init: seq<Option<Uuid>>, batch: seq<Uuid>)
    requires batch != [] && None !in init && Parsed(init) == batch[..|batch| - 1]
    ensures None !in init + [Some(batch[|batch| - 1])]
    ensures Parsed(init + [Some(batch[|batch| - 1])]) == batch
  {
    hide Parsed;
    var staged := init + [Some(batch[|batch| - 1])];
    ParsedStep(staged, |init|);
    assert staged[..|init|] == init && staged[..|init| + 1] == staged;
    assert batch == batch[..|batch| - 1] + [batch[|batch| - 1]];
  }

  /**
   * A whole extraction of a document: planned, and its batches persisted as
   * they are delivered. It replaces the document's entities by what the
   * batches kept exactly if it had anything to do.
   */
  method Extract(store: EntityStore, canonical: CR.Repository, run: Run, chunks: seq<Uuid>, configured: int, a: Attempt,
                 results: nat -> seq<Found>, deliveries: seq<nat>)
    returns (outcome: PlanOutcome, batches: seq<seq<Uuid>>, ghost order: seq<nat>)
    requires store.Valid() && canonical.Valid() && Distinct(chunks)
    modifies store, canonical
    ensures store.Valid() && canonical.Valid()
    ensures outcome.Planned? <==> Current(a) && chunks != []
    ensures Flatten(batches) == if outcome.Planned? then chunks else []
    ensures order == DeliveredOf(deliveries, |batches|) && Indexes(order, |batches|) && Indexes(Order(order), |batches|)
    ensures NotOfRun(store.Contents(), run) == NotOfRun(old(store.Contents()), run)
    ensures !outcome.Planned? ==> store.Contents() == old(store.Contents())
    ensures OfRun(store.Contents(), run) == KeptOf(run, JobsOf(batches, results), Order(order))
            <==> outcome.Planned? || OfRun(old(store.Contents()), run) == []
    ensures outcome.Planned? ==> Replaced(old(store.Contents()), store.Contents(), run, batches, results, deliveries)
  {
    hide Replaced, NotOfRun, OfRun, KeptOf, Order, Persist, PersistAll, Extracted, Kept, Flatten, DeliveredOf;
    ghost var start := store.Contents();
    var rec;
    outcome, batches, rec := Prepare(store, canonical, run, a, chunks, configured);
    if !outcome.Planned? {
      order := [];
      NothingDelivered(deliveries);
      NothingPlanned(start, run, results);
      return;
    }
    order := PersistDelivered(store, run, a, batches, results, deliveries);
    RunReplacesExactly(start, run, chunks, batches, results, order);
    ExtractionReplaces(start, store.Contents(), run, batches, results, deliveries);
  }

  /** Persists the batches of the plan that are delivered, one after another. */
  method PersistDelivered(store: EntityStore, run: Run, a: Attempt, batches: seq<seq<Uuid>>, results: nat -> seq<Found>,
                          deliveries: seq<nat>)
    returns (ghost order: seq<nat>)
    requires store.Valid() && Current(a)
    modifies store
    ensures store.Valid() && order == DeliveredOf(deliveries, |batches|)
    ensures store.Contents() == PersistAll(old(store.Contents()), run, JobsOf(batches, results), order)
  {
    hide Persist, Kept, PersistAll, Indexes, DeliveredOf, Staged, Parsed, Malformed, Current;
    ghost var jobs, start := JobsOf(batches, results), store.Contents();
    order := [];
    NothingPersisted(start, run, jobs, deliveries);
    for i := 0 to |deliveries|
      invariant store.Valid() && order == DeliveredOf(deliveries[..i], |batches|) && Indexes(order, |batches|)
      invariant store.Contents() == PersistAll(start, run, jobs, order)
    {
      var k := deliveries[i];
      DeliverOne(deliveries, i, |batches|);
      if k < |batches| {
        var outcome, rec := PersistBatch(store, run, a, Staged(batches[k]), results(k));
        PersistOne(start, run, jobs, order, k);
        order := order + [k];
      }
    }
    assert deliveries[..|deliveries|] == deliveries;
  }

  lemma NothingPersisted(list: seq<Entity>, run: Run, jobs: seq<Job>, deliveries: seq<nat>)
    ensures Indexes([], |jobs|) && PersistAll(list, run, jobs, []) == list
    ensures DeliveredOf(deliveries[..0], |jobs|) == []
  {
  }

  lemma DeliverOne(deliveries: seq<nat>, i: nat, n: nat)
    requires i < |deliveries|
    ensures DeliveredOf(deliveries[..i + 1], n)
         == DeliveredOf(deliveries[..i], n) + if deliveries[i] < n then [deliveries[i]] else []
  {
    assert deliveries[..i + 1][..i] == deliveries[..i];
    assert DeliveredOf(deliveries[..i], n) + [] == DeliveredOf(deliveries[..i], n);
  }

  lemma PersistOne(list: seq<Entity>, run: Run, jobs: seq<Job>, order: seq<nat>, k: nat)
    requires Indexes(order, |jobs|) && k < |jobs|
    ensures Indexes(order + [k], |jobs|)
    ensures PersistAll(list, run, jobs, order + [k])
         == Persist(PersistAll(list, run, jobs, order), run, jobs[k].batch, jobs[k].result)
  {
    hide Persist;
    assert (order + [k])[..|order|] == order;
  }

  lemma {:induction false} NothingDelivered(deliveries: seq<nat>)
    ensures DeliveredOf(deliveries, 0) == []
  {
    if deliveries != [] {
      NothingDelivered(deliveries[..|deliveries| - 1]);
    }
  }

  lemma NothingPlanned(list: seq<Entity>, run: Run, results: nat -> seq<Found>)
    ensures var none: seq<nat> := []; Order(none) == [] && KeptOf(run, JobsOf([], results), none) == []
    ensures Flatten<Uuid>([]) == []
  {
    EmptyOrder<nat>();
  }

  /** The deliveries that name a batch of the plan. */
  ghost function DeliveredOf(deliveries: seq<nat>, n: nat): (r: seq<nat>)
    ensures Indexes(r, n)
  {
    if deliveries == [] then []
    else
      var init, k := DeliveredOf(deliveries[..|deliveries| - 1], n), deliveries[|deliveries| - 1];
      if k < n then init + [k] else init
  }
}
