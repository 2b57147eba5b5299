/** The in-memory repository: the canonical store's operations carried out on mutable maps. */
module CanonicalRepository {
  import opened Wrappers
  import opened Texts
  import opened CanonicalModel
  import opened CanonicalRuns
  import CC = CanonicalCalls

  // ----- Fuzzy matching

  /** The tokens of a text whose current token, so far, is word. */
  function Tokens(s: string, word: string): set<string> {
    var ended := if word == [] then {} else {word};
    if s == [] then ended
    else if IsSpace(s[0]) then ended + Tokens(s[1..], [])
    else Tokens(s[1..], word + [s[0]])
  }

  function TokenSet(s: string): set<string> {
    Tokens(s, [])
  }

  /** Different texts, the tokens of one among the tokens of the other. */
  predicate FuzzyMatch(a: string, b: string) {
    a != b && (TokenSet(a) <= TokenSet(b) || TokenSet(b) <= TokenSet(a))
  }

  datatype AliasCandidate =
    AliasCandidate(id: Uuid, text: string, normalized: string, mentions: int, createdAt: int)

  ghost predicate NoSpace(s: string) {
    forall i | 0 <= i < |s| :: !IsSpace(s[i])
  }

  /** w stands in s from i to j with white space, or an end of s, on either side. */
  ghost predicate WordAt(s: string, w: string, i: nat, j: nat) {
    && i < j <= |s| && w == s[i..j] && NoSpace(w)
    && (i > 0 ==> IsSpace(s[i - 1])) && (j < |s| ==> IsSpace(s[j]))
  }

  ghost predicate IsWord(s: string, w: string) {
    exists i, j :: WordAt(s, w, i, j)
  }

  /** Every word of a is a word of b. */
  ghost predicate WordsWithin(a: string, b: string) {
    forall w | IsWord(a, w) :: IsWord(b, w)
  }

  lemma WordWhole(word: string, w: string)
    requires NoSpace(word)
    ensures IsWord(word, w) <==> w == word != []
  {
    if w == word != [] {
      assert WordAt(word, w, 0, |word|);
    }
  }

  /** White space ends a word. */
  lemma WordSplit(word: string, space: char, rest: string, w: string)
    requires NoSpace(word) && IsSpace(space)
    ensures IsWord(word + [space] + rest, w) <==> w == word != [] || IsWord(rest, w)
  {
    var s := word + [space] + rest;
    hide IsSpace, NoSpace;
    assert s[|word|] == space && s[..|word|] == word;
    if w == word != [] {
      assert WordAt(s, w, 0, |word|);
    }
    if IsWord(rest, w) {
      var i: nat, j: nat :| WordAt(rest, w, i, j);
      WordLater(word + [space], rest, w, i, j);
    }
    if IsWord(s, w) {
      var i: nat, j: nat :| WordAt(s, w, i, j);
      WordSides(word, space, rest, w, i, j);
    }
  }

  lemma WordLater(before: string, rest: string, w: string, i: nat, j: nat)
    requires before != "" && IsSpace(before[|before| - 1]) && WordAt(rest, w, i, j)
    ensures WordAt(before + rest, w, |before| + i, |before| + j)
  {
    hide IsSpace;
    var s, n := before + rest, |before|;
    assert s[n + i..n + j] == rest[i..j];
  }

  lemma WordSides(word: string, space: char, rest: string, w: string, i: nat, j: nat)
    requires NoSpace(word) && IsSpace(space) && WordAt(word + [space] + rest, w, i, j)
    ensures w == word != [] || IsWord(rest, w)
  {
    hide IsSpace;
    var s, n := word + [space] + rest, |word| + 1;
    assert s[|word|] == space && forall k | 0 <= k < |word| :: s[k] == word[k] && !IsSpace(s[k]);
    assert forall k | i <= k < j :: s[k] == w[k - i] && !IsSpace(s[k]);
    if i >= n {
      assert s[i..j] == rest[i - n..j - n];
      assert i > n ==> s[i - 1] == rest[i - 1 - n];
      assert j < |s| ==> s[j] == rest[j - n];
      assert WordAt(rest, w, i - n, j - n);
    } else {
      assert i == 0 && j == |word|;
      assert s[..|word|] == word;
    }
  }

  /** The tokens of a text are its words: the longest runs without white space. */
  lemma {:induction false} TokensAreWords(s: string, word: string, w: string)
    requires NoSpace(word)
    ensures w in Tokens(s, word) <==> IsWord(word + s, w)
  {
    hide IsWord;
    if s == [] {
      assert word + s == word;
      WordWhole(word, w);
    } else if IsSpace(s[0]) {
      TokensAreWords(s[1..], [], w);
      assert [] + s[1..] == s[1..] && word + s == word + [s[0]] + s[1..];
      WordSplit(word, s[0], s[1..], w);
    } else {
      TokensAreWords(s[1..], word + [s[0]], w);
      assert word + s == word + [s[0]] + s[1..];
    }
  }

  /** Texts match when they differ and the words of either all occur in the other. */
  lemma FuzzyMatchMeans(a: string, b: string)
    ensures FuzzyMatch(a, b) <==> a != b && (WordsWithin(a, b) || WordsWithin(b, a))
  {
    hide IsWord, Tokens;
    assert [] + a == a && [] + b == b;
    forall w ensures (w in TokenSet(a) <==> IsWord(a, w)) && (w in TokenSet(b) <==> IsWord(b, w)) {
      TokensAreWords(a, [], w);
      TokensAreWords(b, [], w);
    }
  }

  function CandidateOf(id: Uuid, row: Row): AliasCandidate {
    AliasCandidate(id, row.text, row.identity.normalized, row.mentions, row.createdAt)
  }

  predicate IsCandidate(rows: map<Uuid, Row>, user: Uuid, kb: Uuid, normalized: string, kind: string,
                        exclude: Uuid, id: Uuid)
  {
    && id in rows && id != exclude
    && var key := rows[id].identity;
       key.user == user && key.kb == kb && key.kind == kind && FuzzyMatch(normalized, key.normalized)
  }

  /** Every row that qualifies, once each, in whatever order the map yields them. */
  ghost predicate IsEnumeration(cands: seq<AliasCandidate>, rows: map<Uuid, Row>, user: Uuid, kb: Uuid,
                                normalized: string, kind: string, exclude: Uuid)
  {
    && (forall i | 0 <= i < |cands| ::
          IsCandidate(rows, user, kb, normalized, kind, exclude, cands[i].id)
          && cands[i] == CandidateOf(cands[i].id, rows[cands[i].id]))
    && (forall i, j | 0 <= i < j < |cands| :: cands[i].id != cands[j].id)
    && (forall id | IsCandidate(rows, user, kb, normalized, kind, exclude, id) ::
          exists i | 0 <= i < |cands| :: cands[i].id == id)
  }

  /** A row is a candidate when its words, or the text's, all occur in the other; the same text is none. */
  ghost predicate Qualifies(rows: map<Uuid, Row>, user: Uuid, kb: Uuid, normalized: string, kind: string,
                            exclude: Uuid, id: Uuid)
  {
    && id in rows && id != exclude
    && rows[id].identity.user == user && rows[id].identity.kb == kb && rows[id].identity.kind == kind
    && var other := rows[id].identity.normalized;
       other != normalized && (WordsWithin(normalized, other) || WordsWithin(other, normalized))
  }

  ghost predicate Describes(c: AliasCandidate, row: Row) {
    && c.text == row.text && c.normalized == row.identity.normalized
    && c.mentions == row.mentions && c.createdAt == row.createdAt
  }

  /** The candidates are the rows that qualify, once each, and say what the rows say. */
  ghost predicate ListsQualified(cands: seq<AliasCandidate>, rows: map<Uuid, Row>, user: Uuid, kb: Uuid,
                                 normalized: string, kind: string, exclude: Uuid)
  {
    && (forall i, j | 0 <= i < j < |cands| :: cands[i].id != cands[j].id)
    && (forall i | 0 <= i < |cands| :: cands[i].id in rows && Describes(cands[i], rows[cands[i].id]))
    && (forall id :: Qualifies(rows, user, kb, normalized, kind, exclude, id)
                     <==> exists i :: 0 <= i < |cands| && cands[i].id == id)
  }

  lemma EnumerationLists(cands: seq<AliasCandidate>, rows: map<Uuid, Row>, user: Uuid, kb: Uuid,
                         normalized: string, kind: string, exclude: Uuid)
    requires IsEnumeration(cands, rows, user, kb, normalized, kind, exclude)
    ensures ListsQualified(cands, rows, user, kb, normalized, kind, exclude)
  {
    hide FuzzyMatch, WordsWithin;
    forall id ensures Qualifies(rows, user, kb, normalized, kind, exclude, id)
                      <==> IsCandidate(rows, user, kb, normalized, kind, exclude, id)
    {
      if id in rows {
        FuzzyMatchMeans(normalized, rows[id].identity.normalized);
      }
    }
  }

  /**
   * What decrementing takes: the document's contributions to a row and one
   * document from its counts, and the row itself once no mention is left.
   */
  ghost predicate Taken(s: Store, t: Store, user: Uuid, document: Uuid) {
    && t.nextId == s.nextId
    && t.contributions == s.contributions - {DocKey(user, document)}
    && var owed: map<Uuid, int> :=
         if DocKey(user, document) in s.contributions then s.contributions[DocKey(user, document)] else map[];
       && (forall id :: id in t.rows <==> id in s.rows && (id in owed ==> s.rows[id].mentions > owed[id]))
       && (forall id | id in t.rows ::
             var row := s.rows[id];
             t.rows[id] == if id !in owed then row
                           else row.(mentions := row.mentions - owed[id], documents := row.documents - 1))
  }

  lemma DecrementTakes(s: Store, user: Uuid, document: Uuid)
    ensures Taken(s, Decrement(s, DocKey(user, document)), user, document)
  {
  }

  class Repository {
    var rows: map<Uuid, Row>
    var docContribution: map<DocKey, map<Uuid, int>>
    var nextId: Uuid
    const normalize: Normalizer

    ghost function State(): Store
      reads this
    {
      Store(rows, docContribution, nextId)
    }

    ghost predicate Valid()
      reads this
    {
      WellFormed(State())
    }

    constructor (normalize: Normalizer)
      ensures Valid() && State() == EmptyStore && this.normalize == normalize
    {
      rows, docContribution, nextId := map[], map[], 0;
      this.normalize := normalize;
    }

    method FindLocked(key: Identity) returns (found: Option<Uuid>)
      requires Valid()
      ensures found == Find(rows, key)
    {
      var todo := rows.Keys;
      while todo != {}
        invariant todo <= rows.Keys
        invariant forall id | id in rows && id !in todo :: rows[id].identity != key
        decreases todo
      {
        var id :| id in todo;
        if rows[id].identity == key {
          FindUnique(rows, id);
          return Some(id);
        }
        todo := todo - {id};
      }
      return None;
    }

    method Canonicalize(mentions: seq<Mention>, now: int) returns (resolved: map<Uuid, Uuid>)
      requires Valid()
      modifies this
      ensures Valid()
      ensures State() == CanonicalModel.Canonicalize(old(State()), mentions, now, normalize)
      ensures resolved == CountAll(old(State()), mentions, now, normalize).resolved
      ensures CC.Counts(old(State()), State(), mentions, now, normalize)
      ensures CC.Resolves(mentions, resolved, rows, normalize) && CC.SharedAlike(mentions, resolved, normalize)
    {
      hide CountMention, WellFormed, CC.Counts, CC.Resolves, CC.SharedAlike, CC.Last;
      ghost var start := State();
      var touchedThisCall: set<Uuid> := {};
      resolved := map[];
      for i := 0 to |mentions|
        invariant WellFormed(State())
        invariant Call(State(), touchedThisCall, resolved) == CountAll(start, mentions[..i], now, normalize)
      {
        ghost var before := Call(State(), touchedThisCall, resolved);
        var m := mentions[i];
        assert mentions[..i + 1][..i] == mentions[..i];
        MentionWellFormed(before, m, now, normalize);
        MentionCall(before, m, now, normalize);
        var id := CountOne(m, now, touchedThisCall);
        resolved := resolved[m.id := id];
        touchedThisCall := touchedThisCall + {id};
      }
      assert mentions[..|mentions|] == mentions;
      CC.CallMeans(start, mentions, now, normalize);
    }

    /** Resolves one mention, creating its row on first sight, and counts it. */
    method CountOne(m: Mention, now: int, touchedThisCall: set<Uuid>) returns (id: Uuid)
      requires Valid()
      modifies this
      ensures id == Resolve(old(State()), m, normalize)
      ensures State() == CountMention(Call(old(State()), touchedThisCall, map[]), m, now, normalize).store
    {
      assert nextId !in rows;
      hide WellFormed, Find;
      ghost var start := State();
      var key := IdentityOf(m, normalize);
      var found := FindLocked(key);
      var ce;
      if found.Some? {
        FindListed(rows, key);
        id := found.value;
        ce := rows[id];
      } else {
        id := nextId;
        nextId := nextId + 1;
        ce := Row(key, m.text, 0, 0, now);
      }
      CountedState(start, m, now, normalize, touchedThisCall, id, ce);
      ce := ce.(mentions := ce.mentions + 1);
      var owed: map<Uuid, int> := Get(docContribution, DocOf(m), map[]);
      docContribution := docContribution[DocOf(m) := owed[id := Get(owed, id, 0) + 1]];
      if id !in touchedThisCall {
        ce := ce.(documents := ce.documents + 1);
      }
      rows := rows[id := ce];
    }

    method DecrementForDocument(user: Uuid, document: Uuid)
      requires Valid()
      modifies this
      ensures Valid()
      ensures State() == Decrement(old(State()), DocKey(user, document))
      ensures Taken(old(State()), State(), user, document)
    {
      DecrementTakes(State(), user, document);
      hide Taken;
      var key := DocKey(user, document);
      if key !in docContribution {
        return;
      }
      var contributions := docContribution[key];
      ghost var was, start := rows, State();
      var todo := contributions.Keys;
      PartlyReduced(was, contributions);
      while todo != {}
        invariant todo <= contributions.Keys
        invariant docContribution == start.contributions && nextId == start.nextId
        invariant rows == Reducing(was, contributions, contributions.Keys - todo)
        decreases todo
      {
        var id :| id in todo;
        ReduceStep(was, contributions, contributions.Keys - todo, id);
        assert contributions.Keys - (todo - {id}) == contributions.Keys - todo + {id};
        todo := todo - {id};
        if id in rows {
          var row := rows[id];
          row := row.(mentions := row.mentions - contributions[id], documents := row.documents - 1);
          rows := if row.mentions <= 0 then rows - {id} else rows[id := row];
        }
      }
      docContribution := docContribution - {key};
      assert contributions.Keys - {} == contributions.Keys;
      PartlyReduced(was, contributions);
      DecrementWellFormed(start, key);
    }

    method Lookup(user: Uuid, id: Uuid) returns (found: Option<Row>)
      ensures found == if Owns(State(), user, id) then Some(rows[id]) else None
    {
      if id !in rows || rows[id].identity.user != user {
        return None;
      }
      return Some(rows[id]);
    }

    /** The rows of one knowledge base, in whatever order the map yields them. */
    method ListByKB(user: Uuid, kb: Uuid) returns (ids: seq<Uuid>)
      ensures forall i, j | 0 <= i < j < |ids| :: ids[i] != ids[j]
      ensures forall id :: id in ids <==> id in rows && rows[id].identity.user == user && rows[id].identity.kb == kb
    {
      ids := [];
      var todo := rows.Keys;
      while todo != {}
        invariant todo <= rows.Keys
        invariant forall i, j | 0 <= i < j < |ids| :: ids[i] != ids[j]
        invariant forall id :: id in ids <==>
                    id in rows && id !in todo && rows[id].identity.user == user && rows[id].identity.kb == kb
        decreases todo
      {
        var id :| id in todo;
        if rows[id].identity.user == user && rows[id].identity.kb == kb {
          ids := ids + [id];
        }
        todo := todo - {id};
      }
    }

    method FuzzyCandidates(user: Uuid, kb: Uuid, normalized: string, kind: string, exclude: Uuid)
      returns (out: seq<AliasCandidate>)
      ensures IsEnumeration(out, rows, user, kb, normalized, kind, exclude)
      ensures ListsQualified(out, rows, user, kb, normalized, kind, exclude)
    {
      hide ListsQualified;
      out := [];
      var todo := rows.Keys;
      while todo != {}
        invariant todo <= rows.Keys
        invariant IsEnumeration(out, rows - todo, user, kb, normalized, kind, exclude)
        decreases todo
      {
        var id :| id in todo;
        if IsCandidate(rows, user, kb, normalized, kind, exclude, id) {
          ExtendEnumeration(out, rows, todo, user, kb, normalized, kind, exclude, id);
          out := out + [CandidateOf(id, rows[id])];
        } else {
          SkipEnumeration(out, rows, todo, user, kb, normalized, kind, exclude, id);
        }
        todo := todo - {id};
      }
      assert rows - {} == rows;
      EnumerationLists(out, rows, user, kb, normalized, kind, exclude);
    }

    method MergeInto(user: Uuid, from: Uuid, to: Uuid) returns (ok: bool)
      modifies this
      ensures ok == (old(Owns(State(), user, from)) && old(Owns(State(), user, to)))
      ensures State() == Merge(old(State()), user, from, to)
      ensures !ok ==> State() == old(State())
      ensures ok ==>
                var f, t := old(rows)[from], old(rows)[to];
                rows == old(rows)[to := t.(mentions := t.mentions + f.mentions,
                                           documents := t.documents + f.documents)] - {from}
    {
      if from !in rows || rows[from].identity.user != user || to !in rows || rows[to].identity.user != user {
        return false;
      }
      var f, t := rows[from], rows[to];
      rows := rows[to := t.(mentions := t.mentions + f.mentions, documents := t.documents + f.documents)];
      ghost var was := docContribution;
      var todo := docContribution.Keys;
      while todo != {}
        invariant todo <= was.Keys == docContribution.Keys
        invariant rows == old(rows)[to := t.(mentions := t.mentions + f.mentions,
                                             documents := t.documents + f.documents)]
        invariant nextId == old(nextId)
        invariant forall k | k in was :: docContribution[k] ==
                    if k !in todo && k.user == user then Repointed(was[k], from, to) else was[k]
        decreases todo
      {
        var key :| key in todo;
        todo := todo - {key};
        if key.user == user {
          var owed: map<Uuid, int> := docContribution[key];
          if from in owed {
            var cnt := owed[from];
            owed := owed[to := Get(owed, to, 0) + cnt];
            owed := owed - {from};
            docContribution := docContribution[key := owed];
          }
        }
      }
      rows := rows - {from};
      assert docContribution == Merge(old(State()), user, from, to).contributions;
      return true;
    }
  }

  lemma FindListed(rows: map<Uuid, Row>, key: Identity)
    ensures Find(rows, key).Some? ==> Find(rows, key).value in rows
  {
  }

  lemma CountedState(s: Store, m: Mention, now: int, normalize: Normalizer, touched: set<Uuid>, id: Uuid, row: Row)
    requires WellFormed(s) && id == Resolve(s, m, normalize)
    requires row == if id in s.rows then s.rows[id] else Row(IdentityOf(m, normalize), m.text, 0, 0, now)
    ensures var owed := Get(s.contributions, DocOf(m), map[]);
            CountMention(Call(s, touched, map[]), m, now, normalize).store
            == Store(s.rows[id := row.(mentions := row.mentions + 1,
                                       documents := row.documents + if id in touched then 0 else 1)],
                     s.contributions[DocOf(m) := owed[id := Get(owed, id, 0) + 1]],
                     if id == s.nextId then id + 1 else s.nextId)
  {
  }

  lemma MentionCall(c: Call, m: Mention, now: int, normalize: Normalizer)
    ensures var id := Resolve(c.store, m, normalize);
            CountMention(c, m, now, normalize)
            == Call(CountMention(Call(c.store, c.touched, map[]), m, now, normalize).store,
                    c.touched + {id}, c.resolved[m.id := id])
  {
  }

  /** The rows once the contributions to done have been taken off. */
  ghost function Reducing(rows: map<Uuid, Row>, owed: map<Uuid, int>, done: set<Uuid>): map<Uuid, Row> {
    map id | id in rows && (id in done ==> Outlives(rows[id], owed, id)) ::
      if id in done then Reduced(rows[id], owed, id) else rows[id]
  }

  lemma PartlyReduced(rows: map<Uuid, Row>, owed: map<Uuid, int>)
    ensures Reducing(rows, owed, {}) == rows
    ensures Reducing(rows, owed, owed.Keys)
         == map id | id in rows && Outlives(rows[id], owed, id) :: Reduced(rows[id], owed, id)
  {
  }

  lemma ReduceStep(rows: map<Uuid, Row>, owed: map<Uuid, int>, done: set<Uuid>, id: Uuid)
    requires id in owed && id !in done
    ensures var before, after := Reducing(rows, owed, done), Reducing(rows, owed, done + {id});
            if id !in before then after == before
            else
              var row := Reduced(before[id], owed, id);
              after == if row.mentions <= 0 then before - {id} else before[id := row]
  {
  }

  lemma DecrementWellFormed(s: Store, doc: DocKey)
    requires WellFormed(s)
    ensures WellFormed(Decrement(s, doc))
  {
  }

  lemma ExtendEnumeration(out: seq<AliasCandidate>, rows: map<Uuid, Row>, todo: set<Uuid>, user: Uuid, kb: Uuid,
                          normalized: string, kind: string, exclude: Uuid, id: Uuid)
    requires id in todo && todo <= rows.Keys && IsCandidate(rows, user, kb, normalized, kind, exclude, id)
    requires IsEnumeration(out, rows - todo, user, kb, normalized, kind, exclude)
    ensures IsEnumeration(out + [CandidateOf(id, rows[id])], rows - (todo - {id}), user, kb, normalized, kind, exclude)
  {
    var out', rest, rest' := out + [CandidateOf(id, rows[id])], rows - todo, rows - (todo - {id});
    assert out'[|out|].id == id;
    forall x | IsCandidate(rest', user, kb, normalized, kind, exclude, x)
      ensures exists i | 0 <= i < |out'| :: out'[i].id == x
    {
      if x != id {
        assert IsCandidate(rest, user, kb, normalized, kind, exclude, x);
        var i :| 0 <= i < |out| && out[i].id == x;
        assert out'[i].id == x;
      }
    }
  }

  lemma SkipEnumeration(out: seq<AliasCandidate>, rows: map<Uuid, Row>, todo: set<Uuid>, user: Uuid, kb: Uuid,
                        normalized: string, kind: string, exclude: Uuid, id: Uuid)
    requires id in todo && todo <= rows.Keys && !IsCandidate(rows, user, kb, normalized, kind, exclude, id)
    requires IsEnumeration(out, rows - todo, user, kb, normalized, kind, exclude)
    ensures IsEnumeration(out, rows - (todo - {id}), user, kb, normalized, kind, exclude)
  {
    forall x | IsCandidate(rows - (todo - {id}), user, kb, normalized, kind, exclude, x)
      ensures IsCandidate(rows - todo, user, kb, normalized, kind, exclude, x)
    {
    }
  }
}
