/** Holding back the citations footer of an answer streamed in arbitrary pieces. */
module FooterFilter {
  import opened Texts

  const MARKER := "citations:"

  function LowerChar(c: char): char {
    if 'A' <= c <= 'Z' then c + 32 as char else c
  }

  /** ASCII lower case, position by position. */
  function Lower(s: string): (r: string)
    ensures |r| == |s| && forall i | 0 <= i < |s| :: r[i] == LowerChar(s[i])
  {
    seq(|s|, i requires 0 <= i < |s| => LowerChar(s[i]))
  }

  /** s begins like the marker, as far as s goes. */
  predicate MarkerPrefix(s: string) {
    |s| <= |MARKER| && Lower(s) == MARKER[..|s|]
  }

  predicate MarkerAt(s: string, i: int) {
    0 <= i && i + |MARKER| <= |s| && MarkerPrefix(s[i..i + |MARKER|])
  }

  const CAPITALS := "CITATIONS:"

  /** The marker is found in any mix of small and capital letters, and nothing else is. */
  lemma MarkerIs(s: string, i: nat)
    requires i + |MARKER| <= |s|
    ensures |MARKER| == |CAPITALS|
    ensures MarkerAt(s, i) <==> forall j | 0 <= j < |MARKER| :: s[i + j] == MARKER[j] || s[i + j] == CAPITALS[j]
  {
    var here := s[i..i + |MARKER|];
    assert MARKER[..|MARKER|] == MARKER;
    assert forall j | 0 <= j < |MARKER| :: here[j] == s[i + j];
  }

  /** The first marker at or after i, or -1. */
  function IndexFrom(s: string, i: nat): (r: int)
    ensures r == -1 || (i <= r && MarkerAt(s, r))
    ensures forall j | i <= j && (r == -1 || j < r) :: !MarkerAt(s, j)
    decreases |s| - i
  {
    if i + |MARKER| > |s| then -1 else if MarkerAt(s, i) then i else IndexFrom(s, i + 1)
  }

  function Index(s: string): (r: int)
    ensures r == -1 || MarkerAt(s, r)
    ensures forall j | r == -1 || j < r :: !MarkerAt(s, j)
  {
    IndexFrom(s, 0)
  }

  /** The last marker starting before n, or -1. */
  function LastBefore(s: string, n: nat): (r: int)
    ensures r == -1 || (r < n && MarkerAt(s, r))
    ensures forall j | r < j < n :: !MarkerAt(s, j)
  {
    if n == 0 then -1 else if MarkerAt(s, n - 1) then n - 1 else LastBefore(s, n - 1)
  }

  function LastIndex(s: string): (r: int)
    ensures r == -1 || MarkerAt(s, r)
    ensures forall j | r < j :: !MarkerAt(s, j)
  {
    LastBefore(s, |s|)
  }

  /** What a reader of the finished text should have seen: everything before the first marker. */
  function Visible(s: string): string {
    if Index(s) == -1 then s else s[..Index(s)]
  }

  // ----- The filter as a function

  datatype State = State(buf: string, matched: bool)

  /** The last k characters of s could still grow into a marker. */
  predicate EndsLikeMarker(s: string, k: int) {
    0 <= k <= |s| && MarkerPrefix(s[|s| - k..])
  }

  /** The length of the longest suffix, of at most n characters, that could still grow into a marker. */
  function HoldUpTo(s: string, n: nat): (l: nat)
    requires n <= |s|
    ensures l <= n && (l > 0 ==> EndsLikeMarker(s, l))
    ensures forall k | l < k <= n :: !EndsLikeMarker(s, k)
  {
    if n == 0 then 0 else if EndsLikeMarker(s, n) then n else HoldUpTo(s, n - 1)
  }

  function Min(a: nat, b: nat): nat {
    if a < b then a else b
  }

  function Hold(s: string): (l: nat)
    ensures l <= |s|
    ensures forall k | l < k < |MARKER| :: !EndsLikeMarker(s, k)
  {
    HoldUpTo(s, Min(|MARKER| - 1, |s|))
  }

  function WriteTo(f: State, delta: string): (State, string) {
    var combined := f.buf + delta;
    var idx := Index(combined);
    if idx >= 0 then (State(combined[idx..], true), combined[..idx])
    else if f.matched then (State("", true), "")
    else
      var keep := |combined| - Hold(combined);
      (State(combined[keep..], false), combined[..keep])
  }

  function FlushOf(f: State): string {
    if f.matched then "" else f.buf
  }

  const Fresh := State("", false)

  function After(deltas: seq<string>): State {
    if deltas == [] then Fresh else WriteTo(After(deltas[..|deltas| - 1]), deltas[|deltas| - 1]).0
  }

  function Shown(deltas: seq<string>): string {
    if deltas == [] then ""
    else Shown(deltas[..|deltas| - 1]) + WriteTo(After(deltas[..|deltas| - 1]), deltas[|deltas| - 1]).1
  }

  // ----- What the filter shows does not depend on how the text is cut

  /** No marker can begin inside the first n characters, whatever follows the text. */
  ghost predicate Cleared(text: string, n: nat)
    requires n <= |text|
  {
    forall i | 0 <= i < n :: !MarkerAt(text, i) && !MarkerPrefix(text[i..])
  }

  ghost predicate Consistent(text: string, f: State, shown: string) {
    if f.matched then
      && Index(text) >= 0 && shown == text[..Index(text)]
      && MarkerAt(f.buf, 0)
    else
      && Index(text) == -1 && text == shown + f.buf && Cleared(text, |shown|)
  }

  lemma LowerSlice(s: string, i: nat, j: nat)
    requires i <= j <= |s|
    ensures Lower(s[i..j]) == Lower(s)[i..j]
  {
  }

  /** A marker in the extended text that starts before its end began like one already. */
  lemma MarkerStarts(text: string, more: string, i: nat)
    requires i < |text| && MarkerAt(text + more, i)
    ensures MarkerAt(text, i) || MarkerPrefix(text[i..])
  {
    var whole := text + more;
    var here := whole[i..i + |MARKER|];
    if i + |MARKER| <= |text| {
      assert here == text[i..i + |MARKER|];
    } else {
      assert text[i..] == here[..|text| - i];
      LowerSlice(here, 0, |text| - i);
    }
  }

  /** Beginning like a marker is lost for good once lost. */
  lemma PrefixStarts(text: string, more: string, i: nat)
    requires i <= |text| && MarkerPrefix((text + more)[i..])
    ensures MarkerPrefix(text[i..])
  {
    var longer := (text + more)[i..];
    assert text[i..] == longer[..|text| - i];
    LowerSlice(longer, 0, |text| - i);
  }

  lemma ClearedGrows(text: string, more: string, n: nat)
    requires n <= |text| && Cleared(text, n)
    ensures Cleared(text + more, n)
  {
    forall i | 0 <= i < n ensures !MarkerAt(text + more, i) && !MarkerPrefix((text + more)[i..]) {
      if MarkerAt(text + more, i) {
        MarkerStarts(text, more, i);
      }
      if MarkerPrefix((text + more)[i..]) {
        PrefixStarts(text, more, i);
      }
    }
  }

  lemma MarkerShift(shown: string, rest: string, i: int)
    requires i >= |shown|
    ensures MarkerAt(shown + rest, i) <==> MarkerAt(rest, i - |shown|)
  {
    if i + |MARKER| <= |shown + rest| {
      assert (shown + rest)[i..i + |MARKER|] == rest[i - |shown|..i - |shown| + |MARKER|];
    }
  }

  /** The first marker of a text with a cleared beginning is the first of the rest. */
  lemma IndexOfRest(shown: string, rest: string)
    requires Cleared(shown + rest, |shown|)
    ensures Index(shown + rest) == if Index(rest) == -1 then -1 else |shown| + Index(rest)
  {
    var whole := shown + rest;
    forall i | i >= |shown| ensures MarkerAt(whole, i) <==> MarkerAt(rest, i - |shown|) {
      MarkerShift(shown, rest, i);
    }
    assert Index(rest) >= 0 ==> MarkerAt(whole, |shown| + Index(rest));
    assert Index(whole) >= |shown| ==> MarkerAt(rest, Index(whole) - |shown|);
  }

  lemma IndexIs(s: string, i: int)
    requires MarkerAt(s, i) && forall j | j < i :: !MarkerAt(s, j)
    ensures Index(s) == i
  {
  }

  lemma MarkerCut(text: string, more: string, i: nat)
    requires i + |MARKER| <= |text|
    ensures MarkerAt(text + more, i) <==> MarkerAt(text, i)
  {
    assert (text + more)[i..i + |MARKER|] == text[i..i + |MARKER|];
  }

  lemma IndexStays(text: string, more: string)
    requires Index(text) >= 0
    ensures Index(text + more) == Index(text)
  {
    var i := Index(text);
    assert (text + more)[i..i + |MARKER|] == text[i..i + |MARKER|];
    forall j | j < i ensures !MarkerAt(text + more, j) {
      if j >= 0 {
        MarkerCut(text, more, j);
      }
    }
    IndexIs(text + more, i);
  }

  /** Text that leaves the buffer can no longer be part of a marker. */
  lemma HeldBack(shown: string, rest: string)
    requires Cleared(shown + rest, |shown|) && Index(rest) == -1
    ensures Cleared(shown + rest, |shown| + |rest| - Hold(rest))
  {
    hide Hold;
    var whole := shown + rest;
    forall i | |shown| <= i < |shown| + |rest| - Hold(rest)
      ensures !MarkerAt(whole, i) && !MarkerPrefix(whole[i..])
    {
      MarkerShift(shown, rest, i);
      assert whole[i..] == rest[i - |shown|..];
      var l := |whole| - i;
      if l < |MARKER| {
        assert !EndsLikeMarker(rest, l);
      } else if l == |MARKER| {
        assert rest[i - |shown|..] == rest[i - |shown|..i - |shown| + |MARKER|];
        assert !MarkerAt(rest, i - |shown|);
      }
    }
  }

  lemma WriteMatched(text: string, f: State, shown: string, delta: string)
    requires Consistent(text, f, shown) && f.matched
    ensures Consistent(text + delta, WriteTo(f, delta).0, shown + WriteTo(f, delta).1)
  {
    hide MarkerPrefix;
    var combined := f.buf + delta;
    IndexStays(text, delta);
    assert combined[0..|MARKER|] == f.buf[0..|MARKER|];
    IndexIs(combined, 0);
    assert shown + combined[..0] == shown && combined[0..] == combined;
    assert (text + delta)[..Index(text)] == text[..Index(text)];
  }

  lemma WriteFinds(text: string, f: State, shown: string, delta: string)
    requires Consistent(text, f, shown) && !f.matched && Index(f.buf + delta) >= 0
    ensures Consistent(text + delta, WriteTo(f, delta).0, shown + WriteTo(f, delta).1)
  {
    hide MarkerPrefix, Cleared, MarkerAt;
    var combined := f.buf + delta;
    IndexRange(combined);
    var idx := Index(combined);
    assert text + delta == shown + combined;
    ClearedGrows(text, delta, |shown|);
    IndexOfRest(shown, combined);
    assert (shown + combined)[..|shown| + idx] == shown + combined[..idx];
    MarkerDrop(combined, idx);
  }

  lemma MarkerDrop(s: string, i: nat)
    requires MarkerAt(s, i)
    ensures MarkerAt(s[i..], 0)
  {
    hide MarkerPrefix;
    assert s[i..][0..|MARKER|] == s[i..i + |MARKER|];
  }

  lemma WriteHolds(text: string, f: State, shown: string, delta: string)
    requires Consistent(text, f, shown) && !f.matched && Index(f.buf + delta) == -1
    ensures Consistent(text + delta, WriteTo(f, delta).0, shown + WriteTo(f, delta).1)
  {
    hide MarkerPrefix, MarkerAt;
    var combined := f.buf + delta;
    assert text + delta == shown + combined;
    ClearedGrows(text, delta, |shown|);
    IndexOfRest(shown, combined);
    HeldBack(shown, combined);
    var keep := |combined| - Hold(combined);
    assert combined == combined[..keep] + combined[keep..];
    assert text + delta == (shown + combined[..keep]) + combined[keep..];
  }

  lemma WriteConsistent(text: string, f: State, shown: string, delta: string)
    requires Consistent(text, f, shown)
    ensures Consistent(text + delta, WriteTo(f, delta).0, shown + WriteTo(f, delta).1)
  {
    hide Consistent, WriteTo, Index;
    if f.matched {
      WriteMatched(text, f, shown, delta);
    } else if Index(f.buf + delta) >= 0 {
      WriteFinds(text, f, shown, delta);
    } else {
      IndexRange(f.buf + delta);
      WriteHolds(text, f, shown, delta);
    }
  }

  lemma IndexRange(s: string)
    ensures -1 <= Index(s) && Index(s) + (if Index(s) >= 0 then |MARKER| else 0) <= |s|
  {
  }

  lemma {:induction false} RunConsistent(deltas: seq<string>)
    ensures Consistent(Concat(deltas), After(deltas), Shown(deltas))
  {
    if deltas != [] {
      var init := deltas[..|deltas| - 1];
      RunConsistent(init);
      WriteConsistent(Concat(init), After(init), Shown(init), deltas[|deltas| - 1]);
    }
  }

  /** However a text is cut into pieces, what is shown of it is the text before its first marker. */
  lemma FilterShowsVisible(deltas: seq<string>)
    ensures Shown(deltas) + FlushOf(After(deltas)) == Visible(Concat(deltas))
  {
    RunConsistent(deltas);
  }

  /** What has been shown at any moment is a prefix of what will finally be visible. */
  lemma NeverRetracts(deltas: seq<string>, later: seq<string>)
    ensures Shown(deltas) <= Visible(Concat(deltas + later))
  {
    FilterShowsVisible(deltas + later);
    ShownGrows(deltas, later);
  }

  lemma {:induction false} ShownGrows(deltas: seq<string>, later: seq<string>)
    ensures Shown(deltas) <= Shown(deltas + later)
  {
    if later == [] {
      assert deltas + later == deltas;
    } else {
      ShownGrows(deltas, later[..|later| - 1]);
      assert (deltas + later)[..|deltas + later| - 1] == deltas + later[..|later| - 1];
    }
  }

  // ----- And nothing is held back that could be shown

  /** What is held begins like the marker, and is not yet all of it. */
  lemma {:induction false} HeldBegins(deltas: seq<string>)
    ensures var f := After(deltas); !f.matched ==> MarkerPrefix(f.buf) && |f.buf| < |MARKER|
  {
    hide MarkerPrefix, WriteTo;
    NothingBegins();
    if deltas != [] {
      WriteBegins(After(deltas[..|deltas| - 1]), deltas[|deltas| - 1]);
    }
  }

  lemma NothingBegins()
    ensures MarkerPrefix("")
  {
    assert Lower("") == MARKER[..0];
  }

  lemma HoldBegins(s: string)
    ensures Hold(s) < |MARKER| && (Hold(s) > 0 ==> EndsLikeMarker(s, Hold(s)))
  {
    hide MarkerPrefix;
  }

  lemma WriteBegins(f: State, delta: string)
    ensures var g := WriteTo(f, delta).0; !g.matched ==> MarkerPrefix(g.buf) && |g.buf| < |MARKER|
  {
    hide MarkerPrefix, Index, Hold;
    var combined := f.buf + delta;
    NothingBegins();
    HoldBegins(combined);
    if Hold(combined) == 0 {
      assert combined[|combined|..] == "";
    }
  }

  lemma SmallLetter(j: nat)
    requires j < |MARKER|
    ensures LowerChar(MARKER[j]) == MARKER[j]
  {
    assert MARKER == ['c', 'i', 't', 'a', 't', 'i', 'o', 'n', 's', ':'];
  }

  /** A text that ends like the marker can be continued by the rest of it. */
  lemma MarkerCompletes(shown: string, buf: string)
    requires MarkerPrefix(buf)
    ensures MarkerAt(shown + buf + MARKER[|buf|..], |shown|)
  {
    var whole := shown + buf + MARKER[|buf|..];
    var here := whole[|shown|..|shown| + |MARKER|];
    var lower := Lower(here);
    forall j | 0 <= j < |MARKER| ensures lower[j] == MARKER[j] {
      SmallLetter(j);
      if j < |buf| {
        assert here[j] == buf[j] && Lower(buf)[j] == MARKER[..|buf|][j];
      } else {
        assert here[j] == MARKER[|buf|..][j - |buf|];
      }
    }
    assert lower == MARKER && MARKER[..|MARKER|] == MARKER;
  }

  /** Some continuation of the text leaves no more of it visible than has been shown. */
  lemma ShownMayBeAll(deltas: seq<string>) returns (more: string)
    ensures Visible(Concat(deltas) + more) == Shown(deltas)
  {
    hide MarkerPrefix, MarkerAt, After, Shown, Index, Cleared;
    var text, shown, f := Concat(deltas), Shown(deltas), After(deltas);
    RunConsistent(deltas);
    HeldBegins(deltas);
    more := if f.matched then "" else MARKER[|f.buf|..];
    if f.matched {
      assert text + more == text;
    } else {
      MarkerCompletes(shown, f.buf);
      MarkerFound(text + more, |shown|);
      NeverRetracts(deltas, [more]);
      ConcatSnoc(deltas, more);
    }
  }

  /** At any moment exactly what no continuation of the text can make part of the footer has been shown. */
  lemma ShowsAllItCan(deltas: seq<string>, p: string)
    ensures p <= Shown(deltas) <==> forall more :: p <= Visible(Concat(deltas) + more)
  {
    hide Shown, Visible, Concat;
    if p <= Shown(deltas) {
      forall more ensures p <= Visible(Concat(deltas) + more) {
        NeverRetracts(deltas, [more]);
        ConcatSnoc(deltas, more);
      }
    }
    var more := ShownMayBeAll(deltas);
    assert p <= Visible(Concat(deltas) + more) ==> p <= Shown(deltas);
  }

  lemma MarkerFound(s: string, i: nat)
    requires MarkerAt(s, i)
    ensures 0 <= Index(s) <= i
  {
    IndexRange(s);
  }

  // ----- Against the authoritative parse

  /** The text the parsed summary is taken from: everything before the last marker. */
  function SummarySource(resp: string): string {
    if LastIndex(resp) == -1 then resp else resp[..LastIndex(resp)]
  }

  ghost predicate AtMostOneMarker(s: string) {
    forall i, j | MarkerAt(s, i) && MarkerAt(s, j) :: i == j
  }

  /**
   * The live preview is a prefix of the summary's text, and is all of it exactly
   * when the marker occurs at most once.
   */
  lemma PreviewOfSummary(resp: string)
    ensures Visible(resp) <= SummarySource(resp)
    ensures Visible(resp) == SummarySource(resp) <==> AtMostOneMarker(resp)
  {
    var first, last := Index(resp), LastIndex(resp);
    if first >= 0 {
      assert MarkerAt(resp, first) && MarkerAt(resp, last);
      assert first <= last;
      assert |resp[..first]| == first && |resp[..last]| == last;
    }
  }

  // ----- The filter as a stateful object

  class Filter {
    var buf: string
    var matched: bool

    ghost function Abstract(): State
      reads this
    {
      State(buf, matched)
    }

    constructor ()
      ensures Abstract() == Fresh
    {
      buf, matched := "", false;
    }

    method Write(delta: string) returns (safe: string)
      modifies this
      ensures (Abstract(), safe) == WriteTo(old(Abstract()), delta)
    {
      var combined := buf + delta;
      var idx := Index(combined);
      if idx >= 0 {
        safe := combined[..idx];
        buf := combined[idx..];
        matched := true;
        return;
      }
      if matched {
        buf := "";
        return "";
      }
      var holdFrom := |combined|;
      var l: nat := Min(|MARKER| - 1, |combined|);
      while l > 0
        invariant l <= Min(|MARKER| - 1, |combined|) && holdFrom == |combined|
        invariant Hold(combined) == HoldUpTo(combined, l)
      {
        if EndsLikeMarker(combined, l) {
          holdFrom := |combined| - l;
          break;
        }
        l := l - 1;
      }
      safe := combined[..holdFrom];
      buf := combined[holdFrom..];
    }

    method Flush() returns (rest: string)
      modifies this
      ensures rest == FlushOf(old(Abstract())) && buf == "" && matched == old(matched)
    {
      if matched {
        buf := "";
        return "";
      }
      rest := buf;
      buf := "";
    }
  }

  lemma StepAt(deltas: seq<string>, i: nat)
    requires i < |deltas|
    ensures After(deltas[..i + 1]) == WriteTo(After(deltas[..i]), deltas[i]).0
    ensures Shown(deltas[..i + 1]) == Shown(deltas[..i]) + WriteTo(After(deltas[..i]), deltas[i]).1
  {
    hide WriteTo;
    assert deltas[..i + 1][..i] == deltas[..i];
  }

  /** Streams a response: the pieces passed on are never empty and together are its visible text. */
  method StreamAnswer(deltas: seq<string>) returns (emitted: seq<string>)
    ensures Concat(emitted) == Visible(Concat(deltas))
    ensures "" !in emitted
  {
    hide WriteTo, FlushOf, After, Shown, Concat, Visible;
    var filter := new Filter();
    emitted := [];
    StartAt(deltas);
    for i := 0 to |deltas|
      invariant filter.Abstract() == After(deltas[..i])
      invariant Concat(emitted) == Shown(deltas[..i])
      invariant "" !in emitted
    {
      StepAt(deltas, i);
      var safe := filter.Write(deltas[i]);
      ConcatSnoc(emitted, safe);
      if safe != "" {
        emitted := emitted + [safe];
      }
    }
    assert deltas[..|deltas|] == deltas;
    FilterShowsVisible(deltas);
    var rest := filter.Flush();
    ConcatSnoc(emitted, rest);
    if rest != "" {
      emitted := emitted + [rest];
    }
  }

  lemma StartAt(deltas: seq<string>)
    ensures After(deltas[..0]) == Fresh && Shown(deltas[..0]) == "" && Concat([]) == ""
  {
  }
}
