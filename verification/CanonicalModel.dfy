/** The canonical entity store as a value, and what each of its operations does to it. */
module CanonicalModel {
  import opened Wrappers
  import opened SetSums

  type Uuid = nat

  /** What the store keeps unique: one row per tenant, knowledge base, normalized text and type. */
  datatype Identity = Identity(kb: Uuid, user: Uuid, normalized: string, kind: string)

  datatype Row = Row(identity: Identity, text: string, mentions: int, documents: int, createdAt: int)

  datatype DocKey = DocKey(user: Uuid, document: Uuid)

  datatype Mention = Mention(id: Uuid, kb: Uuid, user: Uuid, document: Uuid, text: string, kind: string,
                             link: Option<Uuid>)

  /** Ids are handed out in order, so a new one was never used before. */
  datatype Store = Store(rows: map<Uuid, Row>, contributions: map<DocKey, map<Uuid, int>>, nextId: Uuid)

  const EmptyStore := Store(map[], map[], 0)

  type Normalizer = string -> string

  function IdentityOf(m: Mention, normalize: Normalizer): Identity {
    Identity(m.kb, m.user, normalize(m.text), m.kind)
  }

  function DocOf(m: Mention): DocKey {
    DocKey(m.user, m.document)
  }

  ghost function Find(rows: map<Uuid, Row>, key: Identity): Option<Uuid> {
    if exists id :: id in rows && rows[id].identity == key
    then var id :| id in rows && rows[id].identity == key; Some(id)
    else None
  }

  function Get<K, V>(m: map<K, V>, k: K, default: V): V {
    if k in m then m[k] else default
  }

  // ----- Canonicalize

  /** A Canonicalize call under way: the rows it has touched and the mentions it has resolved. */
  datatype Call = Call(store: Store, touched: set<Uuid>, resolved: map<Uuid, Uuid>)

  /** The row a mention resolves to, before it is counted. */
  ghost function Resolve(s: Store, m: Mention, normalize: Normalizer): Uuid {
    var found := Find(s.rows, IdentityOf(m, normalize));
    if found.Some? then found.value else s.nextId
  }

  ghost function Target(s: Store, m: Mention, now: int, normalize: Normalizer): Row {
    var id := Resolve(s, m, normalize);
    if id in s.rows then s.rows[id] else Row(IdentityOf(m, normalize), m.text, 0, 0, now)
  }

  ghost function CountMention(c: Call, m: Mention, now: int, normalize: Normalizer): Call {
    var s, id := c.store, Resolve(c.store, m, normalize);
    var row := Target(s, m, now, normalize);
    var counted := row.(mentions := row.mentions + 1,
                        documents := row.documents + if id in c.touched then 0 else 1);
    var owed := Get(s.contributions, DocOf(m), map[]);
    Call(Store(s.rows[id := counted],
               s.contributions[DocOf(m) := owed[id := Get(owed, id, 0) + 1]],
               if id == s.nextId then id + 1 else s.nextId),
         c.touched + {id},
         c.resolved[m.id := id])
  }

  ghost function CountAll(s: Store, ms: seq<Mention>, now: int, normalize: Normalizer): Call {
    if ms == [] then Call(s, {}, map[])
    else CountMention(CountAll(s, ms[..|ms| - 1], now, normalize), ms[|ms| - 1], now, normalize)
  }

  ghost function Canonicalize(s: Store, ms: seq<Mention>, now: int, normalize: Normalizer): Store {
    CountAll(s, ms, now, normalize).store
  }

  // ----- DecrementForDocument

  ghost predicate Outlives(row: Row, owed: map<Uuid, int>, id: Uuid) {
    id in owed ==> row.mentions - owed[id] > 0
  }

  ghost function Reduced(row: Row, owed: map<Uuid, int>, id: Uuid): Row {
    if id in owed then row.(mentions := row.mentions - owed[id], documents := row.documents - 1) else row
  }

  ghost function Decrement(s: Store, doc: DocKey): Store {
    if doc !in s.contributions then s
    else
      var owed := s.contributions[doc];
      s.(rows := map id | id in s.rows && Outlives(s.rows[id], owed, id) :: Reduced(s.rows[id], owed, id),
         contributions := s.contributions - {doc})
  }

  // ----- MergeInto

  predicate Owns(s: Store, user: Uuid, id: Uuid) {
    id in s.rows && s.rows[id].identity.user == user
  }

  /** One document's contributions with from's folded into to's. */
  function Repointed(owed: map<Uuid, int>, from: Uuid, to: Uuid): map<Uuid, int> {
    if from in owed then owed[to := Get(owed, to, 0) + owed[from]] - {from} else owed
  }

  /** Both ids must be rows of the user; otherwise nothing changes. */
  ghost function Merge(s: Store, user: Uuid, from: Uuid, to: Uuid): Store {
    if !Owns(s, user, from) || !Owns(s, user, to) then s
    else
      var f, t := s.rows[from], s.rows[to];
      s.(rows := s.rows[to := t.(mentions := t.mentions + f.mentions, documents := t.documents + f.documents)] - {from},
         contributions := map k | k in s.contributions ::
           if k.user == user then Repointed(s.contributions[k], from, to) else s.contributions[k])
  }

  // ----- What every run keeps

  /** What document k contributes to row id. */
  ghost function Owed(s: Store, id: Uuid): DocKey -> int {
    k => if k in s.contributions then Get(s.contributions[k], id, 0) else 0
  }

  ghost function Documents(s: Store, id: Uuid): set<DocKey> {
    set k | k in s.contributions && id in s.contributions[k]
  }

  ghost predicate UniqueIdentities(rows: map<Uuid, Row>) {
    forall i, j | i in rows && j in rows && rows[i].identity == rows[j].identity :: i == j
  }

  ghost predicate IdsBelow(s: Store) {
    forall id | id in s.rows :: id < s.nextId
  }

  /** Holds of every store, whatever its callers do. */
  ghost predicate WellFormed(s: Store) {
    UniqueIdentities(s.rows) && IdsBelow(s)
  }

  ghost function OwedTotal(s: Store, id: Uuid): int {
    SumOver(s.contributions.Keys, Owed(s, id))
  }

  ghost function MentionsOf(s: Store, id: Uuid): int {
    if id in s.rows then s.rows[id].mentions else 0
  }

  ghost function DocumentsOf(s: Store, id: Uuid): int {
    if id in s.rows then s.rows[id].documents else 0
  }

  ghost predicate Counted(s: Store, id: Uuid) {
    && MentionsOf(s, id) > 0
    && MentionsOf(s, id) == OwedTotal(s, id)
    && DocumentsOf(s, id) >= |Documents(s, id)|
  }

  ghost predicate OwedByRow(s: Store, k: DocKey, id: Uuid)
    requires k in s.contributions && id in s.contributions[k]
  {
    && id in s.rows && s.rows[id].identity.user == k.user
    && s.contributions[k][id] > 0
  }

  ghost predicate Invariant(s: Store) {
    && WellFormed(s)
    && (forall id | id in s.rows :: Counted(s, id))
    && (forall k, id | k in s.contributions && id in s.contributions[k] :: OwedByRow(s, k, id))
  }

  // ----- Basic facts

  lemma FindUnique(rows: map<Uuid, Row>, id: Uuid)
    requires UniqueIdentities(rows) && id in rows
    ensures Find(rows, rows[id].identity) == Some(id)
  {
  }

  lemma OwedByNone(s: Store, id: Uuid)
    requires Invariant(s) && id !in s.rows
    ensures Documents(s, id) == {}
    ensures SumOver(s.contributions.Keys, Owed(s, id)) == 0
  {
    forall k | k in s.contributions ensures id !in s.contributions[k] {
      assert id in s.contributions[k] ==> OwedByRow(s, k, id);
    }
    SumNone(s.contributions.Keys, Owed(s, id));
  }
}
