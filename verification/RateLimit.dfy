/** Two fixed-window rate limiters, in memory and in a database table, and why they agree. */
module RateLimit {

  import opened SetSums

  type Key(==, !new)

  datatype Entry = Entry(count: int, windowEnd: int)

  type Counters = map<Key, Entry>

  datatype Config = Config(limit: int, window: int)

  /** A request at some moment, or the maintenance that drops rows stale for long enough. */
  datatype Event = Ask(key: Key, at: int) | DeleteExpired(at: int, staleFor: nat)

  // ----- One request

  function MemoryStep(c: Config, s: Counters, key: Key, now: int): (Counters, bool) {
    if key !in s || now > s[key].windowEnd then (s[key := Entry(1, now + c.window)], true)
    else if s[key].count >= c.limit then (s, false)
    else (s[key := Entry(s[key].count + 1, s[key].windowEnd)], true)
  }

  /** The upsert: the row as inserted, or as updated on conflict. */
  function Upserted(c: Config, s: Counters, key: Key, now: int): Entry {
    if key !in s || s[key].windowEnd < now then Entry(1, now + c.window)
    else Entry(s[key].count + 1, s[key].windowEnd)
  }

  function TableStep(c: Config, s: Counters, key: Key, now: int): (Counters, bool) {
    var row := Upserted(c, s, key, now);
    (s[key := row], row.count <= c.limit)
  }

  function Purged(s: Counters, before: int): Counters {
    map k | k in s && !(s[k].windowEnd < before) :: s[k]
  }

  // ----- Runs

  function Memory(c: Config, events: seq<Event>): Counters {
    if events == [] then map[]
    else
      var s, e := Memory(c, events[..|events| - 1]), events[|events| - 1];
      if e.Ask? then MemoryStep(c, s, e.key, e.at).0 else s
  }

  function MemoryAllows(c: Config, events: seq<Event>, e: Event): bool {
    e.Ask? && MemoryStep(c, Memory(c, events), e.key, e.at).1
  }

  function Table(c: Config, events: seq<Event>): Counters {
    if events == [] then map[]
    else
      var s, e := Table(c, events[..|events| - 1]), events[|events| - 1];
      if e.Ask? then TableStep(c, s, e.key, e.at).0 else Purged(s, e.at - e.staleFor)
  }

  function TableAllows(c: Config, events: seq<Event>, e: Event): bool {
    e.Ask? && TableStep(c, Table(c, events), e.key, e.at).1
  }

  /** The clock never goes back. */
  ghost predicate Ordered(events: seq<Event>) {
    forall i, j | 0 <= i <= j < |events| :: events[i].at <= events[j].at
  }

  // ----- Agreement

  function Capped(e: Entry, limit: int): Entry {
    Entry(if e.count < limit then e.count else limit, e.windowEnd)
  }

  /** The memory's entry is the table's row with its count capped; rows gone from the table are over. */
  ghost predicate Mirrors(c: Config, m: Counters, t: Counters, k: Key, now: int) {
    && (k in t ==> k in m && t[k].count >= 1 && m[k] == Capped(t[k], c.limit))
    && (k in m && k !in t ==> m[k].windowEnd < now)
  }

  lemma MirrorsStep(c: Config, m: Counters, t: Counters, key: Key, k: Key, now: int)
    requires c.limit >= 1 && Mirrors(c, m, t, key, now) && Mirrors(c, m, t, k, now)
    ensures Mirrors(c, MemoryStep(c, m, key, now).0, TableStep(c, t, key, now).0, k, now)
    ensures MemoryStep(c, m, key, now).1 == TableStep(c, t, key, now).1
  {
  }

  lemma {:induction false} RunMirrors(c: Config, events: seq<Event>, k: Key, now: int)
    requires c.limit >= 1 && Ordered(events)
    requires forall e | e in events :: e.at <= now
    ensures Mirrors(c, Memory(c, events), Table(c, events), k, now)
  {
    hide MemoryStep, TableStep;
    if events != [] {
      var before, e := events[..|events| - 1], events[|events| - 1];
      RunMirrors(c, before, k, e.at);
      if e.Ask? {
        RunMirrors(c, before, e.key, e.at);
        MirrorsStep(c, Memory(c, before), Table(c, before), e.key, k, e.at);
      }
    }
  }

  /** For a positive limit both limiters answer every request of every run alike, whatever is purged in between. */
  lemma Agree(c: Config, events: seq<Event>, e: Event)
    requires c.limit >= 1 && Ordered(events + [e])
    ensures MemoryAllows(c, events, e) == TableAllows(c, events, e)
  {
    hide MemoryStep, TableStep;
    if e.Ask? {
      assert forall i | 0 <= i < |events| :: events[i] == (events + [e])[i];
      assert forall i | 0 <= i < |events| :: (events + [e])[i].at <= (events + [e])[|events|].at;
      RunMirrors(c, events, e.key, e.at);
      MirrorsStep(c, Memory(c, events), Table(c, events), e.key, e.key, e.at);
    }
  }

  ghost predicate AlwaysAgree(c: Config) {
    forall events, e | Ordered(events + [e]) :: MemoryAllows(c, events, e) == TableAllows(c, events, e)
  }

  /**
   * A limit of zero or less tells them apart: the memory lets the first request
   * of a window through, the table none.
   */
  lemma AgreeExactly(c: Config, someone: Key)
    ensures AlwaysAgree(c) <==> c.limit >= 1
  {
    if c.limit >= 1 {
      forall events, e | Ordered(events + [e]) ensures MemoryAllows(c, events, e) == TableAllows(c, events, e) {
        Agree(c, events, e);
      }
    } else {
      var e := Ask(someone, 0);
      assert Ordered([] + [e]);
      assert MemoryAllows(c, [], e) && !TableAllows(c, [], e);
    }
  }

  // ----- Deleting expired rows

  function Asks(events: seq<Event>): seq<Event> {
    if events == [] then []
    else
      var before, e := Asks(events[..|events| - 1]), events[|events| - 1];
      if e.Ask? then before + [e] else before
  }

  lemma {:induction false} MemoryIgnoresPurges(c: Config, events: seq<Event>)
    ensures Memory(c, Asks(events)) == Memory(c, events)
  {
    hide MemoryStep;
    if events != [] {
      var before, e := events[..|events| - 1], events[|events| - 1];
      MemoryIgnoresPurges(c, before);
      if e.Ask? {
        assert (Asks(before) + [e])[..|Asks(before)|] == Asks(before);
      }
    }
  }

  lemma {:induction false} AsksOrdered(events: seq<Event>)
    requires Ordered(events)
    ensures Ordered(Asks(events))
    ensures forall a | a in Asks(events) :: a in events
  {
    if events != [] {
      var before, e := events[..|events| - 1], events[|events| - 1];
      AsksOrdered(before);
      OrderedSnoc(Asks(before), e);
    }
  }

  lemma {:induction false} RowsStartAtOne(c: Config, events: seq<Event>)
    ensures forall k | k in Table(c, events) :: Table(c, events)[k].count >= 1
  {
    if events != [] {
      RowsStartAtOne(c, events[..|events| - 1]);
    }
  }

  lemma OrderedSnoc(events: seq<Event>, e: Event)
    ensures Ordered(events + [e]) <==> Ordered(events) && forall a | a in events :: a.at <= e.at
  {
    var all := events + [e];
    assert forall i | 0 <= i < |events| :: all[i] == events[i];
    if Ordered(all) {
      forall a | a in events ensures a.at <= e.at {
        var i :| 0 <= i < |events| && events[i] == a;
        assert all[i].at <= all[|events|].at;
      }
    }
  }

  /** Deleting expired rows never changes a later decision, whatever the limit. */
  lemma PurgeIsHarmless(c: Config, events: seq<Event>, e: Event)
    requires Ordered(events + [e])
    ensures TableAllows(c, events, e) == TableAllows(c, Asks(events), e)
  {
    hide MemoryStep, Memory, Table, Asks, Ordered;
    OrderedSnoc(events, e);
    AsksOrdered(events);
    OrderedSnoc(Asks(events), e);
    if c.limit >= 1 {
      Agree(c, events, e);
      Agree(c, Asks(events), e);
      MemoryIgnoresPurges(c, events);
    } else {
      RowsStartAtOne(c, events);
      RowsStartAtOne(c, Asks(events));
    }
  }

  // ----- How many requests get through

  predicate Within(e: Event, key: Key, lo: int, hi: int) {
    e.Ask? && e.key == key && lo <= e.at <= hi
  }

  /** The requests for key that memory let through between two moments, both included. */
  function Admitted(c: Config, events: seq<Event>, key: Key, lo: int, hi: int): nat {
    if events == [] then 0
    else
      var before, e := events[..|events| - 1], events[|events| - 1];
      Admitted(c, before, key, lo, hi) + (if Within(e, key, lo, hi) && MemoryAllows(c, before, e) then 1 else 0)
  }

  /** Where the key's window stands to the interval that begins at lo decides how many can have got through. */
  ghost predicate Bounded(c: Config, m: Counters, key: Key, lo: int, admitted: nat, now: int) {
    if key !in m then admitted == 0
    else
      var begun := m[key].windowEnd - c.window;
      && 1 <= m[key].count <= c.limit && begun <= now
      && (now < lo ==> admitted == 0)
      && (begun < lo ==> admitted <= m[key].count - 1)
      && (lo <= begun <= lo + c.window ==> admitted <= c.limit - 1 + m[key].count)
      && admitted <= 2 * c.limit - 1
  }

  lemma BoundedLater(c: Config, m: Counters, key: Key, lo: int, admitted: nat, now: int, later: int)
    requires Bounded(c, m, key, lo, admitted, now) && now <= later
    requires now < lo ==> admitted == 0
    ensures Bounded(c, m, key, lo, admitted, later)
  {
  }

  lemma BoundedStep(c: Config, m: Counters, key: Key, lo: int, admitted: nat, e: Event)
    requires c.limit >= 1 && c.window >= 0 && e.Ask?
    requires Bounded(c, m, key, lo, admitted, e.at)
    ensures var (m', ok) := MemoryStep(c, m, e.key, e.at);
            Bounded(c, m', key, lo,
                    admitted + (if Within(e, key, lo, lo + c.window) && ok then 1 else 0), e.at)
  {
  }

  lemma {:induction false} RunBounded(c: Config, events: seq<Event>, key: Key, lo: int, now: int)
    requires c.limit >= 1 && c.window >= 0 && Ordered(events)
    requires forall e | e in events :: e.at <= now
    ensures Bounded(c, Memory(c, events), key, lo, Admitted(c, events, key, lo, lo + c.window), now)
  {
    hide MemoryStep, Bounded;
    if events != [] {
      var before, e := events[..|events| - 1], events[|events| - 1];
      RunBounded(c, before, key, lo, e.at);
      var m, admitted := Memory(c, before), Admitted(c, before, key, lo, lo + c.window);
      if e.Ask? {
        BoundedStep(c, m, key, lo, admitted, e);
      }
      NoneBefore(c, events, key, lo, lo + c.window, e.at);
      BoundedLater(c, Memory(c, events), key, lo, Admitted(c, events, key, lo, lo + c.window), e.at, now);
    } else {
      NothingBounded(c, key, lo, now);
    }
  }

  lemma NothingBounded(c: Config, key: Key, lo: int, now: int)
    ensures Bounded(c, map[], key, lo, 0, now)
  {
  }

  lemma {:induction false} NoneBefore(c: Config, events: seq<Event>, key: Key, lo: int, hi: int, now: int)
    requires forall e | e in events :: e.at <= now
    ensures now < lo ==> Admitted(c, events, key, lo, hi) == 0
  {
    if events != [] {
      NoneBefore(c, events[..|events| - 1], key, lo, hi, now);
    }
  }

  /** In no interval as long as the window, both ends included, do more than 2 * limit - 1 requests get through. */
  lemma AtMostTwiceTheLimit(c: Config, events: seq<Event>, key: Key, lo: int)
    requires c.limit >= 1 && c.window >= 0 && Ordered(events)
    ensures Admitted(c, events, key, lo, lo + c.window) <= 2 * c.limit - 1
  {
    var now := if events == [] then 0 else events[|events| - 1].at;
    RunBounded(c, events, key, lo, now);
  }

  /** The requests for key that the table let through between two moments, both included. */
  function TableAdmitted(c: Config, events: seq<Event>, key: Key, lo: int, hi: int): nat {
    if events == [] then 0
    else
      var before, e := events[..|events| - 1], events[|events| - 1];
      TableAdmitted(c, before, key, lo, hi) + (if Within(e, key, lo, hi) && TableAllows(c, before, e) then 1 else 0)
  }

  lemma {:induction false} AdmittedAlike(c: Config, events: seq<Event>, key: Key, lo: int, hi: int)
    requires c.limit >= 1 && Ordered(events)
    ensures TableAdmitted(c, events, key, lo, hi) == Admitted(c, events, key, lo, hi)
  {
    hide MemoryAllows, TableAllows;
    if events != [] {
      var before, e := events[..|events| - 1], events[|events| - 1];
      AdmittedAlike(c, before, key, lo, hi);
      assert before + [e] == events;
      Agree(c, before, e);
    }
  }

  // ----- The bound is reached

  function Repeat(e: Event, n: nat): seq<Event> {
    if n == 0 then [] else Repeat(e, n - 1) + [e]
  }

  /** Requests at one moment within an open window get through until the limit is used up. */
  lemma {:induction false} Burst(c: Config, events: seq<Event>, e: Event, n: nat, lo: int, hi: int)
    requires e.Ask? && lo <= e.at <= hi
    requires e.key in Memory(c, events) && e.at <= Memory(c, events)[e.key].windowEnd
    requires Memory(c, events)[e.key].count + n <= c.limit
    ensures var was := Memory(c, events)[e.key];
            var now := Memory(c, events + Repeat(e, n));
            && e.key in now && now[e.key] == Entry(was.count + n, was.windowEnd)
            && Admitted(c, events + Repeat(e, n), e.key, lo, hi) == Admitted(c, events, e.key, lo, hi) + n
  {
    if n == 0 {
      assert events + [] == events;
    } else {
      Burst(c, events, e, n - 1, lo, hi);
      var all := events + Repeat(e, n);
      assert all[..|all| - 1] == events + Repeat(e, n - 1) && all[|all| - 1] == e;
    }
  }

  /** One request opens a window, limit - 1 more come as it ends, and limit right after it. */
  function Worst(c: Config, key: Key): seq<Event>
    requires c.limit >= 1
  {
    [Ask(key, 0)] + Repeat(Ask(key, c.window), c.limit - 1) + [Ask(key, c.window + 1)]
    + Repeat(Ask(key, c.window + 1), c.limit - 1)
  }

  lemma {:induction false} RepeatIs(e: Event, n: nat)
    ensures |Repeat(e, n)| == n && forall a | a in Repeat(e, n) :: a == e
  {
    if n > 0 {
      RepeatIs(e, n - 1);
    }
  }

  lemma OrderedConcat(a: seq<Event>, b: seq<Event>, mid: int)
    requires Ordered(a) && Ordered(b)
    requires (forall e | e in a :: e.at <= mid) && (forall e | e in b :: e.at >= mid)
    ensures Ordered(a + b)
  {
    var all := a + b;
    forall i, j | 0 <= i <= j < |all| ensures all[i].at <= all[j].at {
      if i < |a| <= j {
        assert a[i] in a && b[j - |a|] in b;
      }
    }
  }

  lemma WorstOrdered(c: Config, key: Key)
    requires c.limit >= 1 && c.window >= 1
    ensures Ordered(Worst(c, key))
  {
    var first, second := Repeat(Ask(key, c.window), c.limit - 1), Repeat(Ask(key, c.window + 1), c.limit - 1);
    RepeatIs(Ask(key, c.window), c.limit - 1);
    RepeatIs(Ask(key, c.window + 1), c.limit - 1);
    AllAtOnce(first, c.window);
    AllAtOnce(second, c.window + 1);
    OrderedConcat([Ask(key, 0)], first, 1);
    OrderedConcat([Ask(key, 0)] + first, [Ask(key, c.window + 1)], c.window);
    OrderedConcat([Ask(key, 0)] + first + [Ask(key, c.window + 1)], second, c.window + 1);
  }

  lemma AllAtOnce(events: seq<Event>, at: int)
    requires forall e | e in events :: e.at == at
    ensures Ordered(events)
  {
  }

  lemma WorstOpens(c: Config, key: Key)
    requires c.limit >= 1 && c.window >= 1
    ensures Memory(c, [Ask(key, 0)]) == map[key := Entry(1, c.window)]
    ensures Admitted(c, [Ask(key, 0)], key, c.window, c.window + c.window) == 0
  {
    assert [Ask(key, 0)][..0] == [];
  }

  lemma WorstReopens(c: Config, before: seq<Event>, key: Key)
    requires c.limit >= 1 && c.window >= 1
    requires key in Memory(c, before) && Memory(c, before)[key].windowEnd == c.window
    ensures var again := before + [Ask(key, c.window + 1)];
            && key in Memory(c, again) && Memory(c, again)[key] == Entry(1, c.window + 1 + c.window)
            && Admitted(c, again, key, c.window, c.window + c.window)
               == Admitted(c, before, key, c.window, c.window + c.window) + 1
  {
    assert (before + [Ask(key, c.window + 1)])[..|before|] == before;
  }

  /** For every limit and window there is a run that lets exactly 2 * limit - 1 through within one window's length. */
  lemma WorstReachesBound(c: Config, key: Key)
    requires c.limit >= 1 && c.window >= 1
    ensures Ordered(Worst(c, key))
    ensures Admitted(c, Worst(c, key), key, c.window, c.window + c.window) == 2 * c.limit - 1
  {
    hide Ordered, Memory, Admitted;
    WorstOrdered(c, key);
    var lo, hi := c.window, c.window + c.window;
    var open := [Ask(key, 0)];
    WorstOpens(c, key);
    Burst(c, open, Ask(key, c.window), c.limit - 1, lo, hi);
    var ended := open + Repeat(Ask(key, c.window), c.limit - 1);
    var again := ended + [Ask(key, c.window + 1)];
    WorstReopens(c, ended, key);
    Burst(c, again, Ask(key, c.window + 1), c.limit - 1, lo, hi);
    assert Worst(c, key) == again + Repeat(Ask(key, c.window + 1), c.limit - 1);
  }

  // ----- The two stores

  class MemoryStore {
    var counters: Counters
    const config: Config

    constructor (limit: int, window: int)
      ensures counters == map[] && config == Config(limit, window)
    {
      counters, config := map[], Config(limit, window);
    }

    method Allow(key: Key, now: int) returns (ok: bool)
      modifies this
      ensures (counters, ok) == MemoryStep(config, old(counters), key, now)
    {
      if key !in counters || now > counters[key].windowEnd {
        counters := counters[key := Entry(1, now + config.window)];
        return true;
      }
      if counters[key].count >= config.limit {
        return false;
      }
      counters := counters[key := counters[key].(count := counters[key].count + 1)];
      return true;
    }
  }

  class TableStore {
    var rows: Counters
    const config: Config

    constructor (limit: int, window: int)
      ensures rows == map[] && config == Config(limit, window)
    {
      rows, config := map[], Config(limit, window);
    }

    method Allow(key: Key, now: int) returns (ok: bool)
      modifies this
      ensures (rows, ok) == TableStep(config, old(rows), key, now)
    {
      var count, windowEnd := 1, now + config.window;
      if key in rows && !(rows[key].windowEnd < now) {
        count, windowEnd := rows[key].count + 1, rows[key].windowEnd;
      }
      rows := rows[key := Entry(count, windowEnd)];
      ok := count <= config.limit;
    }

    method DeleteExpired(now: int, staleFor: nat) returns (removed: nat)
      modifies this
      ensures rows == Purged(old(rows), now - staleFor)
      ensures rows == map k | k in old(rows) && old(rows)[k].windowEnd >= now - staleFor :: old(rows)[k]
      ensures removed == |old(rows)| - |rows|
    {
      var kept := Purged(rows, now - staleFor);
      KeysSubset(kept, rows);
      removed := |rows| - |kept|;
      rows := kept;
    }
  }

  lemma KeysSubset(small: Counters, large: Counters)
    requires small.Keys <= large.Keys
    ensures |small| <= |large|
  {
    SizeOfSubset(small.Keys, large.Keys);
  }

  lemma RunStart(c: Config, events: seq<Event>)
    ensures Memory(c, events[..0]) == map[] && Table(c, events[..0]) == map[]
  {
  }

  lemma RunStep(c: Config, events: seq<Event>, i: nat)
    requires i < |events|
    ensures var m, t, e := Memory(c, events[..i]), Table(c, events[..i]), events[i];
            && Memory(c, events[..i + 1]) == (if e.Ask? then MemoryStep(c, m, e.key, e.at).0 else m)
            && Table(c, events[..i + 1])
               == (if e.Ask? then TableStep(c, t, e.key, e.at).0 else Purged(t, e.at - e.staleFor))
            && MemoryAllows(c, events[..i], e) == (e.Ask? && MemoryStep(c, m, e.key, e.at).1)
            && TableAllows(c, events[..i], e) == (e.Ask? && TableStep(c, t, e.key, e.at).1)
  {
    hide MemoryStep, TableStep, Purged;
    assert events[..i + 1][..i] == events[..i];
  }

  lemma OrderedPrefix(events: seq<Event>, n: nat)
    requires Ordered(events) && n <= |events|
    ensures Ordered(events[..n])
  {
  }

  /** Serves a run of requests from both stores side by side, purging the table as asked. */
  method Serve(c: Config, events: seq<Event>) returns (memory: seq<bool>, table: seq<bool>)
    requires Ordered(events)
    ensures |memory| == |table| == |events|
    ensures forall i | 0 <= i < |events| :: memory[i] == MemoryAllows(c, events[..i], events[i])
    ensures forall i | 0 <= i < |events| :: table[i] == TableAllows(c, events[..i], events[i])
    ensures c.limit >= 1 ==> memory == table
  {
    hide MemoryStep, TableStep, Purged, Memory, Table, MemoryAllows, TableAllows;
    memory, table := [], [];
    RunStart(c, events);
    var m := new MemoryStore(c.limit, c.window);
    var t := new TableStore(c.limit, c.window);
    for i := 0 to |events|
      invariant m.config == c && t.config == c
      invariant m.counters == Memory(c, events[..i]) && t.rows == Table(c, events[..i])
      invariant |memory| == |table| == i
      invariant forall j | 0 <= j < i :: memory[j] == MemoryAllows(c, events[..j], events[j])
      invariant forall j | 0 <= j < i :: table[j] == TableAllows(c, events[..j], events[j])
    {
      RunStep(c, events, i);
      match events[i]
      case Ask(key, at) =>
        var a := m.Allow(key, at);
        var b := t.Allow(key, at);
        memory, table := memory + [a], table + [b];
      case DeleteExpired(at, staleFor) =>
        var removed := t.DeleteExpired(at, staleFor);
        memory, table := memory + [false], table + [false];
    }
    if c.limit >= 1 {
      forall i | 0 <= i < |events| ensures memory[i] == table[i] {
        assert events[..i] + [events[i]] == events[..i + 1];
        OrderedPrefix(events, i + 1);
        Agree(c, events[..i], events[i]);
      }
    }
  }
}
