/** Text in pieces, split at a separator, and trimmed. */
module Texts {

  function Concat(pieces: seq<string>): string {
    if pieces == [] then "" else Concat(pieces[..|pieces| - 1]) + pieces[|pieces| - 1]
  }

  lemma ConcatSnoc(pieces: seq<string>, last: string)
    ensures Concat(pieces + [last]) == Concat(pieces) + last
  {
    assert (pieces + [last])[..|pieces|] == pieces;
  }

  // ----- Splitting at a separator

  /** How many characters come before the first separator. */
  function Until(s: string, sep: char): (n: nat)
    ensures n <= |s| && sep !in s[..n] && (n < |s| ==> s[n] == sep)
  {
    if s == "" || s[0] == sep then 0 else 1 + Until(s[1..], sep)
  }

  function Split(s: string, sep: char): (r: seq<string>)
    ensures r != [] && forall i | 0 <= i < |r| :: sep !in r[i]
    decreases |s|
  {
    var n := Until(s, sep);
    if n == |s| then [s[..n]] else [s[..n]] + Split(s[n + 1..], sep)
  }

  function Join(pieces: seq<string>, sep: char): string
    requires pieces != []
  {
    if |pieces| == 1 then pieces[0] else pieces[0] + [sep] + Join(pieces[1..], sep)
  }

  /** The pieces joined by the separator are the text again; as none holds it, they are the only such pieces. */
  lemma {:induction false} SplitJoins(s: string, sep: char)
    ensures Join(Split(s, sep), sep) == s
    decreases |s|
  {
    hide Join;
    var n := Until(s, sep);
    if n == |s| {
      JoinOne(s[..n], sep);
    } else {
      var rest := s[n + 1..];
      SplitJoins(rest, sep);
      JoinMore(s[..n], Split(rest, sep), sep);
      assert s == s[..n] + [sep] + rest;
    }
  }

  lemma JoinOne(piece: string, sep: char)
    ensures Join([piece], sep) == piece
  {
  }

  lemma JoinMore(piece: string, pieces: seq<string>, sep: char)
    requires pieces != []
    ensures Join([piece] + pieces, sep) == piece + [sep] + Join(pieces, sep)
  {
  }

  lemma {:induction false} UntilIs(s: string, sep: char, n: nat)
    requires n <= |s| && sep !in s[..n] && (n < |s| ==> s[n] == sep)
    ensures Until(s, sep) == n
  {
    if n > 0 {
      assert s[..n][0] == s[0];
      assert s[..n][1..] == s[1..][..n - 1];
      UntilIs(s[1..], sep, n - 1);
    }
  }

  lemma SplitWhole(s: string, sep: char)
    requires sep !in s
    ensures Split(s, sep) == [s]
  {
    assert s[..|s|] == s;
    UntilIs(s, sep, |s|);
  }

  lemma SplitFirst(s: string, sep: char, n: nat)
    requires n < |s| && sep !in s[..n] && s[n] == sep
    ensures Split(s, sep) == [s[..n]] + Split(s[n + 1..], sep)
  {
    UntilIs(s, sep, n);
  }

  /** A last piece after one more separator is split off last. */
  lemma {:induction false} SplitSnoc(s: string, sep: char, last: string)
    requires sep !in last
    ensures Split(s + [sep] + last, sep) == Split(s, sep) + [last]
    decreases |s|
  {
    hide Split;
    var n, whole := Until(s, sep), s + [sep] + last;
    assert whole[..n] == s[..n];
    SplitFirst(whole, sep, n);
    if n == |s| {
      assert whole[n + 1..] == last && s[..n] == s;
      SplitWhole(last, sep);
      SplitWhole(s, sep);
    } else {
      var rest := s[n + 1..];
      assert whole[n + 1..] == rest + [sep] + last;
      SplitFirst(s, sep, n);
      SplitSnoc(rest, sep, last);
    }
  }

  // ----- Trimming

  /** Unicode's White_Space property. */
  predicate IsSpace(c: char) {
    || '\t' <= c <= '\r' || c == ' ' || c == '\U{85}' || c == '\U{A0}' || c == '\U{1680}'
    || '\U{2000}' <= c <= '\U{200A}' || c == '\U{2028}' || c == '\U{2029}' || c == '\U{202F}'
    || c == '\U{205F}' || c == '\U{3000}'
  }

  predicate Blank(s: string) {
    forall i | 0 <= i < |s| :: IsSpace(s[i])
  }

  /** No white space at either end. */
  predicate Tight(s: string) {
    s != "" ==> !IsSpace(s[0]) && !IsSpace(s[|s| - 1])
  }

  function TrimLeft(s: string): (r: string)
    ensures r != "" ==> !IsSpace(r[0])
    ensures |r| <= |s| && r == s[|s| - |r|..] && Blank(s[..|s| - |r|])
  {
    if s != "" && IsSpace(s[0]) then
      var r := TrimLeft(s[1..]);
      assert s[..|s| - |r|] == [s[0]] + s[1..][..|s| - 1 - |r|];
      r
    else
      s
  }

  function TrimRight(s: string): (r: string)
    ensures r != "" ==> !IsSpace(r[|r| - 1])
    ensures r <= s && Blank(s[|r|..])
  {
    if s != "" && IsSpace(s[|s| - 1]) then
      var r := TrimRight(s[..|s| - 1]);
      assert s[|r|..] == s[..|s| - 1][|r|..] + [s[|s| - 1]];
      r
    else
      s
  }

  function Trim(s: string): (r: string)
    ensures Tight(r)
  {
    TrimRight(TrimLeft(s))
  }

  lemma {:induction false} TrimLeftIs(a: string, s: string)
    requires Blank(a) && (s != "" ==> !IsSpace(s[0]))
    ensures TrimLeft(a + s) == s
  {
    if a != "" {
      assert (a + s)[1..] == a[1..] + s;
      TrimLeftIs(a[1..], s);
    } else {
      assert a + s == s;
    }
  }

  lemma {:induction false} TrimRightIs(s: string, b: string)
    requires Blank(b) && (s != "" ==> !IsSpace(s[|s| - 1]))
    ensures TrimRight(s + b) == s
  {
    if b != "" {
      assert (s + b)[..|s + b| - 1] == s + b[..|b| - 1];
      TrimRightIs(s, b[..|b| - 1]);
    } else {
      assert s + b == s;
    }
  }

  /** Trimming takes off exactly the white space around tight text. */
  lemma TrimIs(a: string, s: string, b: string)
    requires Blank(a) && Tight(s) && Blank(b)
    ensures Trim(a + s + b) == s
  {
    if s == "" {
      TrimLeftIs(a + b, "");
      assert a + s + b == a + b + "";
      assert TrimRight("") == "";
    } else {
      assert a + s + b == a + (s + b);
      TrimLeftIs(a, s + b);
      TrimRightIs(s, b);
    }
  }

  /** A character that is no white space survives trimming. */
  lemma TrimKeeps(s: string, c: char)
    requires c in s && !IsSpace(c)
    ensures c in Trim(s)
  {
    hide TrimLeft, TrimRight;
    KeptLeft(s, c);
    KeptRight(TrimLeft(s), c);
  }

  lemma KeptLeft(s: string, c: char)
    requires c in s && !IsSpace(c)
    ensures c in TrimLeft(s)
  {
    hide TrimLeft;
    var l := TrimLeft(s);
    assert s == s[..|s| - |l|] + l;
  }

  lemma KeptRight(s: string, c: char)
    requires c in s && !IsSpace(c)
    ensures c in TrimRight(s)
  {
    hide TrimRight;
    var r := TrimRight(s);
    assert s == r + s[|r|..];
  }
}
