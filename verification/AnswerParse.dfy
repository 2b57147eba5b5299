/** The authoritative parse of a finished answer: its summary text and the chunks it cites. */
module AnswerParse {
  import opened Wrappers
  import opened FirstSeen
  import opened Texts
  import opened Numerals
  import FooterFilter

  datatype Citation<C> = Citation(number: int, source: C)

  /** The entries of a citation list that name one of count chunks; an entry that is no number is None. */
  function Usable(entries: seq<Option<int>>, count: nat): seq<int> {
    if entries == [] then []
    else
      var init, e := entries[..|entries| - 1], entries[|entries| - 1];
      Usable(init, count) + if e.Some? && 1 <= e.value <= count then [e.value] else []
  }

  lemma {:induction false} UsableMembers(entries: seq<Option<int>>, count: nat)
    ensures forall n :: n in Usable(entries, count) <==> Some(n) in entries && 1 <= n <= count
  {
    if entries != [] {
      UsableMembers(entries[..|entries| - 1], count);
      assert entries == entries[..|entries| - 1] + [entries[|entries| - 1]];
    }
  }

  function Numbers<C>(citations: seq<Citation<C>>): (r: seq<int>)
    ensures |r| == |citations| && forall i | 0 <= i < |r| :: r[i] == citations[i].number
  {
    seq(|citations|, i requires 0 <= i < |citations| => citations[i].number)
  }

  lemma UsableStep(entries: seq<Option<int>>, count: nat, k: nat)
    requires k < |entries|
    ensures Usable(entries[..k + 1], count)
            == if entries[k].Some? && 1 <= entries[k].value <= count
               then Usable(entries[..k], count) + [entries[k].value] else Usable(entries[..k], count)
  {
    assert entries[..k + 1][..k] == entries[..k];
  }

  lemma NumbersSnoc<C>(citations: seq<Citation<C>>, c: Citation<C>)
    ensures Numbers(citations + [c]) == Numbers(citations) + [c.number]
  {
  }

  /** The citations found after the first k entries. */
  ghost predicate CitedUpTo<C>(entries: seq<Option<int>>, chunks: seq<C>, k: nat, seen: set<int>,
                               citations: seq<Citation<C>>)
    requires k <= |entries|
  {
    && Numbers(citations) == Order(Usable(entries[..k], |chunks|))
    && (forall n :: n in seen <==> n in Order(Usable(entries[..k], |chunks|)))
    && (forall i | 0 <= i < |citations| :: RightlyCited(chunks, citations[i]))
  }

  ghost predicate RightlyCited<C>(chunks: seq<C>, c: Citation<C>) {
    1 <= c.number <= |chunks| && c.source == chunks[c.number - 1]
  }

  lemma CiteStep<C>(entries: seq<Option<int>>, chunks: seq<C>, k: nat, seen: set<int>, citations: seq<Citation<C>>)
    requires k < |entries| && CitedUpTo(entries, chunks, k, seen, citations)
    ensures var e := entries[k];
            if e.None? || e.value < 1 || e.value > |chunks| || e.value in seen
            then CitedUpTo(entries, chunks, k + 1, seen, citations)
            else CitedUpTo(entries, chunks, k + 1, seen + {e.value},
                           citations + [Citation(e.value, chunks[e.value - 1])])
  {
    hide Order, Usable, Numbers, RightlyCited;
    UsableStep(entries, |chunks|, k);
    var e := entries[k];
    if e.Some? && 1 <= e.value <= |chunks| {
      var c := Citation(e.value, chunks[e.value - 1]);
      OrderSnoc(Usable(entries[..k], |chunks|), e.value);
      NumbersSnoc(citations, c);
      OwnSource(chunks, c);
    }
  }

  lemma OwnSource<C>(chunks: seq<C>, c: Citation<C>)
    requires 1 <= c.number <= |chunks| && c.source == chunks[c.number - 1]
    ensures RightlyCited(chunks, c)
  {
  }

  lemma CiteStart<C>(entries: seq<Option<int>>, chunks: seq<C>)
    ensures CitedUpTo(entries, chunks, 0, {}, [])
  {
    EmptyOrder<int>();
    assert entries[..0] == [];
  }

  /** Each chunk named is cited once, in the order first named; entries out of range are ignored. */
  method ParseCitations<C>(entries: seq<Option<int>>, chunks: seq<C>) returns (citations: seq<Citation<C>>)
    ensures Numbers(citations) == Order(Usable(entries, |chunks|))
    ensures forall i | 0 <= i < |citations| :: RightlyCited(chunks, citations[i])
  {
    var seen: set<int> := {};
    citations := [];
    CiteStart(entries, chunks);
    hide Order, Usable, Numbers, CitedUpTo;
    for k := 0 to |entries|
      invariant CitedUpTo(entries, chunks, k, seen, citations)
    {
      CiteStep(entries, chunks, k, seen, citations);
      if entries[k].None? || entries[k].value < 1 || entries[k].value > |chunks| || entries[k].value in seen {
        continue;
      }
      var n := entries[k].value;
      seen := seen + {n};
      citations := citations + [Citation(n, chunks[n - 1])];
    }
    CiteEnd(entries, chunks, seen, citations);
  }

  lemma CiteEnd<C>(entries: seq<Option<int>>, chunks: seq<C>, seen: set<int>, citations: seq<Citation<C>>)
    requires CitedUpTo(entries, chunks, |entries|, seen, citations)
    ensures Numbers(citations) == Order(Usable(entries, |chunks|))
    ensures forall i | 0 <= i < |citations| :: RightlyCited(chunks, citations[i])
  {
    assert entries[..|entries|] == entries;
  }

  // ----- The whole response

  const NOT_FOUND := "I could not find " + "relevant information " + "to answer this " + "question."

  datatype Result<C> = Result(summary: string, citations: seq<Citation<C>>)

  function Entry(raw: string): Option<int> {
    Atoi(Trim(raw))
  }

  /** The entries of a citation list: what lies between its commas, as numbers. */
  function Entries(section: string): (r: seq<Option<int>>)
    ensures |r| == |Split(section, ',')| && forall i | 0 <= i < |r| :: r[i] == Entry(Split(section, ',')[i])
  {
    var raws := Split(section, ',');
    seq(|raws|, i requires 0 <= i < |raws| => Entry(raws[i]))
  }

  /** Everything after the last marker. */
  function Section(resp: string): string
    requires FooterFilter.LastIndex(resp) >= 0
  {
    resp[FooterFilter.LastIndex(resp) + |FooterFilter.MARKER|..]
  }

  /** The numbers cited by a response, in the order first named. */
  function Cited(resp: string, count: nat): seq<int> {
    if Trim(resp) == NOT_FOUND || FooterFilter.LastIndex(resp) == -1 then []
    else Order(Usable(Entries(Section(resp)), count))
  }

  method ParseResponse<C>(resp: string, chunks: seq<C>) returns (r: Result<C>)
    ensures r.summary == Trim(if Trim(resp) == NOT_FOUND then NOT_FOUND else FooterFilter.SummarySource(resp))
    ensures Numbers(r.citations) == Cited(resp, |chunks|)
    ensures forall i | 0 <= i < |r.citations| :: RightlyCited(chunks, r.citations[i])
  {
    hide Trim, Order;
    TrimNotFound();
    if Trim(resp) == NOT_FOUND {
      return Result(NOT_FOUND, []);
    }
    var idx := FooterFilter.LastIndex(resp);
    if idx == -1 {
      return Result(Trim(resp), []);
    }
    var summary := Trim(resp[..idx]);
    var section := resp[idx + |FooterFilter.MARKER|..];
    var citations := ParseCitations(Entries(section), chunks);
    return Result(summary, citations);
  }

  /**
   * Streams an answer and parses it when it is complete: what was shown live
   * is a prefix of the text the summary is taken from.
   */
  method AnswerStream<C>(deltas: seq<string>, chunks: seq<C>) returns (emitted: seq<string>, r: Result<C>)
    ensures chunks == [] ==> emitted == [] && r == Result(NOT_FOUND, [])
    ensures chunks != [] ==>
              && Concat(emitted) == FooterFilter.Visible(Concat(deltas)) <= FooterFilter.SummarySource(Concat(deltas))
              && Numbers(r.citations) == Cited(Concat(deltas), |chunks|)
              && (Trim(Concat(deltas)) != NOT_FOUND ==> r.summary == Trim(FooterFilter.SummarySource(Concat(deltas))))
  {
    hide Trim, Cited, FooterFilter.Visible, FooterFilter.SummarySource;
    if |chunks| == 0 {
      return [], Result(NOT_FOUND, []);
    }
    emitted := FooterFilter.StreamAnswer(deltas);
    FooterFilter.PreviewOfSummary(Concat(deltas));
    r := ParseResponse(Concat(deltas), chunks);
  }

  lemma TrimNotFound()
    ensures Trim(NOT_FOUND) == NOT_FOUND
  {
    assert "question."[8] == '.';
    assert NOT_FOUND == "" + NOT_FOUND + "";
    TrimIs("", NOT_FOUND, "");
  }

  // ----- An answer in the form asked for is read back

  /** The numbers as the prompt asks for them, separated by commas. */
  function Rendered(numbers: seq<nat>): string {
    if numbers == [] then ""
    else if |numbers| == 1 then Decimal(numbers[0])
    else Rendered(numbers[..|numbers| - 1]) + ", " + Decimal(numbers[|numbers| - 1])
  }

  const FOOTER := "CITATIONS: "

  function Somes(numbers: seq<nat>): (r: seq<Option<int>>)
    ensures |r| == |numbers| && forall i | 0 <= i < |r| :: r[i] == Some(numbers[i])
  {
    seq(|numbers|, i requires 0 <= i < |numbers| => Some(numbers[i]))
  }

  lemma EntryReads(n: nat)
    ensures ',' !in " " + Decimal(n) && Entry(" " + Decimal(n)) == Some(n)
  {
    hide Decimal, Trim, Atoi, Value;
    DecimalReads(n);
    AtoiReads(n);
    var d := Decimal(n);
    assert IsDigit(d[0]) && IsDigit(d[|d| - 1]);
    assert " " + d == " " + d + "";
    TrimIs(" ", d, "");
  }

  lemma {:induction false} EntriesReadBack(numbers: seq<nat>)
    requires numbers != []
    ensures Entries(" " + Rendered(numbers)) == Somes(numbers)
  {
    hide Entry, Split, Decimal;
    var n := |numbers| - 1;
    EntryReads(numbers[n]);
    var last := " " + Decimal(numbers[n]);
    if n == 0 {
      SplitWhole(last, ',');
      assert " " + Rendered(numbers) == last;
    } else {
      EntriesReadBack(numbers[..n]);
      var before := " " + Rendered(numbers[..n]);
      SplitSnoc(before, ',', last);
      assert " " + Rendered(numbers) == before + [','] + last;
      EntriesSnoc(before, last);
      assert Somes(numbers) == Somes(numbers[..n]) + [Some(numbers[n])];
    }
  }

  lemma EntriesSnoc(before: string, last: string)
    requires ',' !in last
    ensures Entries(before + [','] + last) == Entries(before) + [Entry(last)]
  {
    hide Entry, Split;
    SplitSnoc(before, ',', last);
  }

  lemma {:induction false} UsableAll(numbers: seq<nat>, count: nat)
    requires forall i | 0 <= i < |numbers| :: 1 <= numbers[i] <= count
    ensures |Usable(Somes(numbers), count)| == |numbers|
    ensures forall i | 0 <= i < |numbers| :: Usable(Somes(numbers), count)[i] == numbers[i]
  {
    if numbers != [] {
      var n := |numbers| - 1;
      UsableAll(numbers[..n], count);
      assert Somes(numbers)[..n] == Somes(numbers[..n]);
    }
  }

  lemma {:induction false} OrderDistinct(s: seq<int>)
    requires Distinct(s)
    ensures Order(s) == s
  {
    if s != [] {
      var init, x := s[..|s| - 1], s[|s| - 1];
      OrderDistinct(init);
      assert s == init + [x];
      OrderSnoc(init, x);
    }
  }

  /** No marker begins inside the footer, past its own. */
  predicate Harmless(c: char) {
    FooterFilter.LowerChar(c) != 'c'
  }

  lemma {:induction false} RenderedHarmless(numbers: seq<nat>)
    ensures forall i | 0 <= i < |Rendered(numbers)| :: Harmless(Rendered(numbers)[i])
  {
    if numbers != [] {
      var n := |numbers| - 1;
      DecimalReads(numbers[n]);
      if n > 0 {
        RenderedHarmless(numbers[..n]);
      }
    }
  }

  lemma MarkerBegins(s: string, j: int)
    requires FooterFilter.MarkerAt(s, j)
    ensures 0 <= j < |s| && !Harmless(s[j])
  {
    var here := s[j..j + |FooterFilter.MARKER|];
    assert here[0] == s[j] && FooterFilter.Lower(here)[0] == FooterFilter.MARKER[0];
  }

  lemma LastIndexIs(s: string, i: nat)
    requires FooterFilter.MarkerAt(s, i) && forall j | j > i :: !FooterFilter.MarkerAt(s, j)
    ensures FooterFilter.LastIndex(s) == i
  {
    hide FooterFilter.MarkerAt;
  }

  /** A response is divided at its last marker, in whatever case: the text before it, and the list after it. */
  lemma DividedAtMarker(text: string, marker: string, rest: string)
    requires |marker| == |FooterFilter.MARKER| && FooterFilter.Lower(marker) == FooterFilter.MARKER
    requires forall j | j > |text| :: !FooterFilter.MarkerAt(text + marker + rest, j)
    ensures var resp := text + marker + rest;
            FooterFilter.LastIndex(resp) == |text| && FooterFilter.SummarySource(resp) == text && Section(resp) == rest
  {
    var resp, n := text + marker + rest, |text|;
    assert resp[n..n + |FooterFilter.MARKER|] == marker;
    assert FooterFilter.MARKER[..|FooterFilter.MARKER|] == FooterFilter.MARKER;
    LastIndexIs(resp, n);
    assert resp[..n] == text && resp[n + |FooterFilter.MARKER|..] == rest;
  }

  /** The footer's own marker is the last one, whatever the text before it quotes. */
  lemma FooterIsLast(text: string, numbers: seq<nat>)
    ensures FooterFilter.LastIndex(text + FOOTER + Rendered(numbers)) == |text|
  {
    var rendered := Rendered(numbers);
    var resp := text + FOOTER + rendered;
    var here := resp[|text|..|text| + |FooterFilter.MARKER|];
    assert here == "CITATIONS:";
    assert FooterFilter.Lower(here) == FooterFilter.MARKER;
    RenderedHarmless(numbers);
    forall j | j > |text| ensures !FooterFilter.MarkerAt(resp, j) {
      if FooterFilter.MarkerAt(resp, j) {
        MarkerBegins(resp, j);
        FooterHarmless(text, rendered, j);
      }
    }
    hide FooterFilter.MarkerPrefix;
    LastIndexIs(resp, |text|);
  }

  lemma FooterHarmless(text: string, rendered: string, j: nat)
    requires |text| < j < |text + FOOTER + rendered|
    requires forall i | 0 <= i < |rendered| :: Harmless(rendered[i])
    ensures Harmless((text + FOOTER + rendered)[j])
  {
    var k := j - |text|;
    if k < |FOOTER| {
      assert (text + FOOTER + rendered)[j] == FOOTER[k];
      assert FOOTER[1..] == "ITATIONS: ";
    } else {
      assert (text + FOOTER + rendered)[j] == rendered[k - |FOOTER|];
    }
  }

  /**
   * An answer in the form the prompt asks for is read back exactly: its
   * text, whatever that quotes, and the numbers it cites, in order.
   */
  lemma AnswerReadsBack(text: string, numbers: seq<nat>, count: nat)
    requires Distinct(numbers) && forall i | 0 <= i < |numbers| :: 1 <= numbers[i] <= count
    ensures var resp := text + FOOTER + Rendered(numbers);
            && Trim(resp) != NOT_FOUND
            && FooterFilter.SummarySource(resp) == text
            && |Cited(resp, count)| == |numbers|
            && forall i | 0 <= i < |numbers| :: Cited(resp, count)[i] == numbers[i]
  {
    var resp := text + FOOTER + Rendered(numbers);
    hide FooterFilter.LastIndex, Trim, Rendered, Entries, Order, Usable;
    FooterIsLast(text, numbers);
    assert resp[..|text|] == text;
    assert resp[|text| + 9] == ':';
    NotNotFound(resp);
    assert Section(resp) == " " + Rendered(numbers);
    if numbers == [] {
      NothingCited(count);
    } else {
      EntriesReadBack(numbers);
      UsableAll(numbers, count);
      OrderDistinct(Usable(Somes(numbers), count));
    }
  }

  lemma NotNotFound(resp: string)
    requires ':' in resp
    ensures Trim(resp) != NOT_FOUND
  {
    hide Trim;
    TrimKeeps(resp, ':');
    assert ':' !in "I could not find ";
    assert ':' !in "relevant information ";
    assert ':' !in "to answer this ";
    assert ':' !in "question.";
    assert ':' !in NOT_FOUND;
  }

  lemma NothingCited(count: nat)
    ensures Rendered([]) == "" && Order(Usable(Entries(" " + ""), count)) == []
  {
    SplitWhole(" ", ',');
    TrimIs(" ", "", "");
    assert " " + "" + "" == " ";
    assert Entries(" " + "") == [None];
    var none: seq<Option<int>> := [None];
    assert none[..0] == [] && Usable(none, count) == [];
    EmptyOrder<int>();
  }
}
