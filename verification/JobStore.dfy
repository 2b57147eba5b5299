/** The in-memory status store: the state rules applied to rows under one lock. */
module JobStore {
  import opened Wrappers
  import opened JobStatus

  /** The user is checked separately, so another tenant's row reads as missing. */
  datatype RowKey = RowKey(document: string, jobType: string)

  datatype Row = Row(rec: Record, seqNo: nat)

  function KeyOf(key: Key): RowKey {
    RowKey(key.document, key.jobType)
  }

  function Current(rows: map<RowKey, Row>, key: Key): Option<Record> {
    if KeyOf(key) in rows then Some(rows[KeyOf(key)].rec) else None
  }

  predicate Foreign(rows: map<RowKey, Row>, key: Key) {
    KeyOf(key) in rows && rows[KeyOf(key)].rec.key.user != key.user
  }

  /** The rows an API read wants: active jobs of the user's documents. */
  predicate Wanted(row: Row, user: nat, documents: seq<string>) {
    row.rec.key.user == user && row.rec.key.document in documents && row.rec.status.Active()
  }

  /** Rows of one document in the order they were enqueued. */
  ghost predicate IsTimeline(list: seq<Row>, document: string) {
    && (forall i | 0 <= i < |list| :: list[i].rec.key.document == document)
    && (forall i, j | 0 <= i < j < |list| :: list[i].seqNo < list[j].seqNo)
  }

  lemma TimelineSnoc(list: seq<Row>, row: Row)
    requires list == [] || IsTimeline(list, row.rec.key.document)
    requires list != [] ==> list[|list| - 1].seqNo < row.seqNo
    ensures IsTimeline(list + [row], row.rec.key.document)
  {
  }

  /** The rows of list by document. */
  ghost predicate Groups(out: map<string, seq<Row>>, list: seq<Row>) {
    && (forall d | d in out :: out[d] != [] && IsTimeline(out[d], d))
    && (forall row :: row in list <==> row.rec.key.document in out && row in out[row.rec.key.document])
  }

  function Added(out: map<string, seq<Row>>, row: Row): map<string, seq<Row>> {
    var d := row.rec.key.document;
    out[d := (if d in out then out[d] else []) + [row]]
  }

  lemma GroupsNone()
    ensures Groups(map[], [])
  {
  }

  lemma GroupsSnoc(out: map<string, seq<Row>>, list: seq<Row>, row: Row)
    requires Groups(out, list) && forall x | x in list :: x.seqNo < row.seqNo
    ensures Groups(Added(out, row), list + [row])
  {
    hide IsTimeline;
    var d := row.rec.key.document;
    if d in out {
      var last := out[d][|out[d]| - 1];
      TimelineOf(out[d], d, last);
      TimelineSnoc(out[d], row);
    } else {
      TimelineSnoc([], row);
    }
  }

  lemma TimelineOf(list: seq<Row>, document: string, row: Row)
    requires IsTimeline(list, document) && row in list
    ensures row.rec.key.document == document
  {
  }

  lemma GroupsGives(out: map<string, seq<Row>>, matches: seq<Row>)
    requires Groups(out, matches[..|matches|])
    ensures forall d | d in out :: out[d] != [] && IsTimeline(out[d], d)
    ensures forall row :: row in matches <==> row.rec.key.document in out && row in out[row.rec.key.document]
  {
    assert matches[..|matches|] == matches;
  }

  class Store {
    var rows: map<RowKey, Row>
    var seqNo: nat

    /** Each row is filed under its own key and enqueued at a moment of its own. */
    ghost predicate Valid()
      reads this
    {
      && (forall k | k in rows :: KeyOf(rows[k].rec.key) == k && rows[k].seqNo <= seqNo)
      && (forall k, l | k in rows && l in rows && rows[k].seqNo == rows[l].seqNo :: k == l)
    }

    constructor ()
      ensures Valid() && rows == map[]
    {
      rows, seqNo := map[], 0;
    }

    method Lookup(key: Key) returns (found: Option<Record>)
      ensures found == if Foreign(rows, key) then None else Current(rows, key)
      ensures var k := RowKey(key.document, key.jobType);
              found == if k in rows && rows[k].rec.key.user == key.user then Some(rows[k].rec) else None
    {
      if KeyOf(key) !in rows || rows[KeyOf(key)].rec.key.user != key.user {
        return None;
      }
      return Some(rows[KeyOf(key)].rec);
    }

    method EnqueueJob(key: Key) returns (found: bool, result: Enqueued)
      requires Valid()
      modifies this
      ensures Valid() && found == !old(Foreign(rows, key))
      ensures var k := RowKey(key.document, key.jobType);
              found <==> k in old(rows) ==> old(rows)[k].rec.key.user == key.user
      ensures !found ==> rows == old(rows)
      ensures found ==>
                var r := Enqueue(old(Current(rows, key)), key);
                && result == r.1
                && rows == if r.1.started then old(rows)[KeyOf(key) := Row(r.0, old(seqNo) + 1)] else old(rows)
    {
      if KeyOf(key) in rows && rows[KeyOf(key)].rec.key.user != key.user {
        return false, Enqueued(0, false);
      }
      var r := Enqueue(Current(rows, key), key);
      if r.1.started {
        seqNo := seqNo + 1;
        rows := rows[KeyOf(key) := Row(r.0, seqNo)];
      }
      return true, r.1;
    }

    method TransitionJob(key: Key, attempt: int, to: Status, phase: string, reason: string) returns (r: Outcome)
      requires Valid()
      modifies this
      ensures Valid()
      ensures if old(Foreign(rows, key)) || old(Current(rows, key)).None? then r == Err(NotFound) && rows == old(rows)
              else
                && r == Transition(old(rows)[KeyOf(key)].rec, attempt, to, phase, reason)
                && rows == if r.Ok? then old(rows)[KeyOf(key) := old(rows)[KeyOf(key)].(rec := r.next)] else old(rows)
    {
      if KeyOf(key) !in rows || rows[KeyOf(key)].rec.key.user != key.user {
        return Err(NotFound);
      }
      var row := rows[KeyOf(key)];
      r := Transition(row.rec, attempt, to, phase, reason);
      if r.Ok? {
        rows := rows[KeyOf(key) := row.(rec := r.next)];
      }
    }

    /** The active jobs of the user's documents, in the order their current attempts were enqueued. */
    method Matches(user: nat, documents: seq<string>) returns (matches: seq<Row>)
      requires Valid()
      ensures forall i, j | 0 <= i < j < |matches| :: matches[i].seqNo < matches[j].seqNo
      ensures forall row :: row in matches <==>
                row in rows.Values && row.rec.key.user == user && row.rec.key.document in documents
                && (row.rec.status.Pending? || row.rec.status.Processing?)
    {
      var todo := set k | k in rows && Wanted(rows[k], user, documents);
      ghost var all := todo;
      matches := [];
      while todo != {}
        invariant todo <= all
        invariant forall row :: row in matches <==> exists k | k in all && k !in todo :: rows[k] == row
        invariant forall i, j | 0 <= i < j < |matches| :: matches[i].seqNo < matches[j].seqNo
        invariant forall i, k | 0 <= i < |matches| && k in todo :: matches[i].seqNo < rows[k].seqNo
        decreases todo
      {
        var first := Oldest(todo);
        todo := todo - {first};
        matches := matches + [rows[first]];
      }
    }

    /** Per document, exactly its active jobs, oldest attempt first; documents without one are absent. */
    method ActiveJobs(user: nat, documents: seq<string>) returns (out: map<string, seq<Row>>)
      requires Valid()
      ensures forall d | d in out :: out[d] != [] && IsTimeline(out[d], d)
      ensures forall row: Row :: row.rec.key.document in out && row in out[row.rec.key.document] <==>
                row in rows.Values && row.rec.key.user == user && row.rec.key.document in documents
                && (row.rec.status.Pending? || row.rec.status.Processing?)
    {
      var matches := Matches(user, documents);
      out := map[];
      GroupsNone();
      hide Groups;
      for n := 0 to |matches|
        invariant Groups(out, matches[..n])
      {
        var row := matches[n];
        assert matches[..n + 1] == matches[..n] + [row];
        GroupsSnoc(out, matches[..n], row);
        out := Added(out, row);
      }
      GroupsGives(out, matches);
      assert matches[..|matches|] == matches;
    }

    method Oldest(keys: set<RowKey>) returns (first: RowKey)
      requires Valid() && keys != {} && keys <= rows.Keys
      ensures first in keys && forall k | k in keys && k != first :: rows[first].seqNo < rows[k].seqNo
    {
      first :| first in keys;
      var todo := keys - {first};
      while todo != {}
        invariant first in keys && todo <= keys && first !in todo
        invariant forall k | k in keys && k !in todo && k != first :: rows[first].seqNo < rows[k].seqNo
        decreases todo
      {
        var k :| k in todo;
        todo := todo - {k};
        if rows[k].seqNo < rows[first].seqNo {
          first := k;
        }
      }
    }
  }
}
