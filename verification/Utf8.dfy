/** The UTF-8 grammar of section 4 of RFC 3629, and where well-formed text may be cut. */
module Utf8 {

  newtype byte = b: int | 0 <= b < 256

  predicate Tail(b: byte) {
    0x80 <= b < 0xC0
  }

  predicate Tails(s: seq<byte>, from: nat, to: nat) {
    to <= |s| && forall i | from <= i < to :: Tail(s[i])
  }

  /** The length of the code point that s begins with, or 0 when it begins with none. */
  function First(s: seq<byte>): (n: nat)
    ensures n <= 4 && n <= |s|
    ensures n > 0 ==> !Tail(s[0]) && Tails(s, 1, n)
  {
    if |s| == 0 then 0
    else if s[0] <= 0x7F then 1
    else if 0xC2 <= s[0] <= 0xDF && Tails(s, 1, 2) then 2
    else if 0xE0 <= s[0] <= 0xEF && Tails(s, 1, 3) && SecondOf3(s[0], s[1]) then 3
    else if 0xF0 <= s[0] <= 0xF4 && Tails(s, 1, 4) && SecondOf4(s[0], s[1]) then 4
    else 0
  }

  predicate SecondOf3(lead: byte, second: byte) {
    (lead == 0xE0 ==> second >= 0xA0) && (lead == 0xED ==> second <= 0x9F)
  }

  predicate SecondOf4(lead: byte, second: byte) {
    (lead == 0xF0 ==> second >= 0x90) && (lead == 0xF4 ==> second <= 0x8F)
  }

  predicate WellFormed(s: seq<byte>) {
    s == [] || (First(s) > 0 && WellFormed(s[First(s)..]))
  }

  /** A position where a code point starts, or the end of the text. */
  predicate Boundary(s: seq<byte>, i: int) {
    0 <= i <= |s| && (i == |s| || !Tail(s[i]))
  }

  lemma FirstOfPrefix(s: seq<byte>, n: nat)
    requires n <= |s| && 0 < First(s) <= n
    ensures First(s[..n]) == First(s)
  {
  }

  /** A well-formed text begins and ends on boundaries, and a step back of at most 3 reaches one from anywhere. */
  lemma {:induction false} NearBoundary(s: seq<byte>, i: nat) returns (b: nat)
    requires WellFormed(s) && i <= |s|
    ensures b <= i <= b + 3 && Boundary(s, b)
  {
    var n := First(s);
    if i < n || s == [] {
      b := 0;
    } else {
      b := NearBoundary(s[n..], i - n);
      b := b + n;
    }
  }

  /** Cutting a well-formed text on a boundary leaves two well-formed texts; cutting it elsewhere leaves neither. */
  lemma {:induction false} CutAt(s: seq<byte>, i: nat)
    requires WellFormed(s) && i <= |s|
    ensures Boundary(s, i) ==> WellFormed(s[..i]) && WellFormed(s[i..])
    ensures !Boundary(s, i) ==> !WellFormed(s[..i]) && !WellFormed(s[i..])
  {
    if i > 0 {
      var n := First(s);
      if i < n {
        CutInside(s, i);
      } else {
        CutAt(s[n..], i - n);
        FirstOfPrefix(s, i);
        assert s[..i][n..] == s[n..][..i - n];
        assert s[n..][i - n..] == s[i..];
      }
    } else {
      assert s[0..] == s;
    }
  }

  lemma CutInside(s: seq<byte>, i: nat)
    requires 0 < i < First(s)
    ensures !Boundary(s, i) && !WellFormed(s[..i]) && !WellFormed(s[i..])
  {
    assert s[..i][0] == s[0];
    assert First(s[..i]) == 0;
    assert Tail(s[i..][0]);
  }

  /** The text between two boundaries is well-formed. */
  lemma Between(s: seq<byte>, i: nat, j: nat)
    requires WellFormed(s) && i <= j && Boundary(s, i) && Boundary(s, j)
    ensures WellFormed(s[i..j])
  {
    CutAt(s, j);
    var head := s[..j];
    assert Boundary(head, i);
    CutAt(head, i);
    assert head[i..] == s[i..j];
  }
}
