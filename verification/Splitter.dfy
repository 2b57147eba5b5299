/** Cutting a document into overlapping windows on UTF-8 boundaries. */
module Splitter {

  import opened Utf8

  datatype Chunk = Chunk(ordinal: nat, text: seq<byte>, tokenCount: nat, charStart: nat, charEnd: nat)

  /** The nearest boundary at or before i; positions outside the text stay. */
  function Aligned(text: seq<byte>, i: int): (b: int)
    ensures b <= i
    ensures forall j | b < j <= i :: !Boundary(text, j)
    ensures b > 0 && b <= |text| ==> Boundary(text, b)
    ensures i >= 0 ==> b >= 0
    decreases i
  {
    if 0 < i < |text| && Tail(text[i]) then Aligned(text, i - 1) else i
  }

  method AlignToRuneBoundary(text: seq<byte>, at: int) returns (i: int)
    ensures i == Aligned(text, at)
  {
    i := at;
    while i > 0 && i < |text| && Tail(text[i])
      invariant Aligned(text, i) == Aligned(text, at)
      decreases i
    {
      i := i - 1;
    }
  }

  function Step(size: int, overlap: int): (step: nat)
    ensures step >= 1
  {
    if size - overlap <= 0 then 1 else size - overlap
  }

  /** Where the window that starts at start ends. */
  function End(text: seq<byte>, size: nat, start: nat): (end: nat)
    requires start < |text|
    ensures start <= end <= |text|
  {
    var end := start + size;
    if end >= |text| then |text|
    else if Aligned(text, end) > start then Aligned(text, end)
    else end
  }

  /** Where the window after the one that starts at start starts. */
  function Next(text: seq<byte>, size: nat, overlap: int, start: nat): (next: nat)
    ensures next > start
  {
    var next := start + Step(size, overlap);
    if Aligned(text, next) > start then Aligned(text, next) else next
  }

  ghost predicate IsChunk(text: seq<byte>, size: nat, c: Chunk, k: nat) {
    && c.charStart < |text|
    && c.charEnd == End(text, size, c.charStart)
    && c.text == text[c.charStart..c.charEnd]
    && c.tokenCount == |c.text| / 4
    && c.ordinal == k
  }

  /** The chunks follow one another from the start of the text, as far as they go. */
  ghost predicate IsRun(text: seq<byte>, size: nat, overlap: int, out: seq<Chunk>) {
    && (forall k | 0 <= k < |out| :: IsChunk(text, size, out[k], k))
    && (|out| > 0 ==> out[0].charStart == 0)
    && (forall j, k | 0 <= j && k == j + 1 < |out| :: Follows(text, size, overlap, out[j], out[k]))
  }

  ghost predicate Follows(text: seq<byte>, size: nat, overlap: int, c: Chunk, d: Chunk) {
    c.charEnd < |text| && d.charStart == Next(text, size, overlap, c.charStart)
  }

  /** The chunks stop where the text has been covered or the next window would start past its end. */
  ghost predicate IsSplit(text: seq<byte>, size: nat, overlap: int, out: seq<Chunk>) {
    && IsRun(text, size, overlap, out)
    && (out == [] <==> text == [])
    && (out != [] ==>
          var last := out[|out| - 1];
          last.charEnd == |text| || Next(text, size, overlap, last.charStart) >= |text|)
  }

  lemma RunSnoc(text: seq<byte>, size: nat, overlap: int, out: seq<Chunk>, c: Chunk)
    requires IsRun(text, size, overlap, out) && IsChunk(text, size, c, |out|)
    requires if out == [] then c.charStart == 0 else Follows(text, size, overlap, out[|out| - 1], c)
    ensures IsRun(text, size, overlap, out + [c])
  {
    hide IsChunk, Follows;
  }

  lemma RunPrefix(text: seq<byte>, size: nat, overlap: int, out: seq<Chunk>, n: nat)
    requires IsRun(text, size, overlap, out) && n <= |out|
    ensures IsRun(text, size, overlap, out[..n])
  {
    hide IsChunk, Follows;
  }

  lemma EmptyRun(text: seq<byte>, size: nat, overlap: int)
    ensures IsRun(text, size, overlap, [])
  {
  }

  method Split(text: seq<byte>, size: nat, overlap: int) returns (out: seq<Chunk>)
    ensures IsSplit(text, size, overlap, out)
  {
    hide IsRun, Aligned;
    EmptyRun(text, size, overlap);
    if |text| == 0 {
      return [];
    }
    var step := size - overlap;
    if step <= 0 {
      step := 1;
    }
    out := [];
    var ordinal := 0;
    var start := 0;
    while start < |text|
      invariant IsRun(text, size, overlap, out) && ordinal == |out|
      invariant if out == [] then start == 0
                else out[|out| - 1].charEnd < |text| && start == Next(text, size, overlap, out[|out| - 1].charStart)
      decreases |text| - start
    {
      var end := start + size;
      if end >= |text| {
        end := |text|;
      } else {
        var aligned := AlignToRuneBoundary(text, end);
        if aligned > start {
          end := aligned;
        }
      }
      var seg := text[start..end];
      RunSnoc(text, size, overlap, out, Chunk(ordinal, seg, |seg| / 4, start, end));
      out := out + [Chunk(ordinal, seg, |seg| / 4, start, end)];
      ordinal := ordinal + 1;
      if end == |text| {
        break;
      }
      var next := start + step;
      var aligned := AlignToRuneBoundary(text, next);
      if aligned > start {
        next := aligned;
      }
      start := next;
    }
  }

  // ----- Coverage, for every byte string

  lemma {:induction false} AlignedMonotone(text: seq<byte>, i: nat, j: nat)
    requires i <= j < |text|
    ensures Aligned(text, i) <= Aligned(text, j)
  {
    if i < j && Tail(text[j]) {
      AlignedMonotone(text, i, j - 1);
    }
  }

  lemma NoGap(text: seq<byte>, size: nat, overlap: nat, start: nat)
    requires start < |text| && size >= 1 && End(text, size, start) < |text|
    ensures start < Next(text, size, overlap, start) <= End(text, size, start) <= start + size
  {
    AlignedMonotone(text, start + Step(size, overlap), start + size);
    if Aligned(text, start + Step(size, overlap)) <= start < Aligned(text, start + size) {
      assert Boundary(text, Aligned(text, start + size));
    }
  }

  /** The document read back from its chunks, each without what the ones before it already gave. */
  function Rejoin(out: seq<Chunk>): seq<byte> {
    if out == [] then []
    else
      var before := Rejoin(out[..|out| - 1]);
      var last := out[|out| - 1];
      var known := |before| - last.charStart;
      if 0 <= known <= |last.text| then before + last.text[known..] else before
  }

  lemma {:induction false} RejoinRun(text: seq<byte>, size: nat, overlap: nat, out: seq<Chunk>)
    requires size >= 1 && IsRun(text, size, overlap, out) && out != []
    ensures Rejoin(out) == text[..out[|out| - 1].charEnd]
  {
    hide IsRun, IsChunk, Follows, End, Next;
    var n := |out| - 1;
    var last := out[n];
    RunGives(text, size, overlap, out, n);
    if n == 0 {
      assert out[..0] == [];
      assert text[..last.charEnd] == last.text;
    } else {
      RunPrefix(text, size, overlap, out, n);
      RunGives(text, size, overlap, out, n - 1);
      RejoinRun(text, size, overlap, out[..n]);
      var before := out[n - 1].charEnd;
      NoGap(text, size, overlap, out[n - 1].charStart);
      EndsGrow(text, size, overlap, out[n - 1].charStart, last.charStart);
      assert |text[..before]| == before;
      Overlapping(text, last.charStart, before, last.charEnd);
    }
  }

  lemma Overlapping(text: seq<byte>, from: nat, mid: nat, to: nat)
    requires from <= mid <= to <= |text|
    ensures text[..mid] + text[from..to][mid - from..] == text[..to]
  {
  }

  lemma RunGives(text: seq<byte>, size: nat, overlap: int, out: seq<Chunk>, k: nat)
    requires IsRun(text, size, overlap, out) && k < |out|
    ensures var c := out[k];
            && c.charStart < |text| && c.charEnd == End(text, size, c.charStart)
            && c.text == text[c.charStart..c.charEnd]
            && if k == 0 then c.charStart == 0
               else out[k - 1].charEnd < |text| && c.charStart == Next(text, size, overlap, out[k - 1].charStart)
  {
    assert IsChunk(text, size, out[k], k);
    assert k > 0 ==> Follows(text, size, overlap, out[k - 1], out[k]);
  }

  /** Later windows end later. */
  lemma EndsGrow(text: seq<byte>, size: nat, overlap: nat, start: nat, next: nat)
    requires start < next < |text| && size >= 1
    ensures End(text, size, start) <= End(text, size, next)
  {
    if next + size < |text| {
      AlignedMonotone(text, start + size, next + size);
      if Aligned(text, start + size) <= start && start + size > Aligned(text, next + size) > next {
        assert Boundary(text, Aligned(text, next + size));
      }
    }
  }

  lemma PairOverlaps(text: seq<byte>, size: nat, overlap: nat, out: seq<Chunk>, k: nat)
    requires size >= 1 && IsRun(text, size, overlap, out) && k + 1 < |out|
    ensures out[k].charStart < out[k + 1].charStart <= out[k].charEnd
  {
    hide IsRun, End, Next;
    RunGives(text, size, overlap, out, k);
    RunGives(text, size, overlap, out, k + 1);
    NoGap(text, size, overlap, out[k].charStart);
  }

  lemma SizeOfChunk(text: seq<byte>, size: nat, overlap: nat, out: seq<Chunk>, k: nat)
    requires size >= 1 && IsRun(text, size, overlap, out) && k < |out|
    ensures 1 <= |out[k].text| <= size
  {
    hide IsRun, Next;
    RunGives(text, size, overlap, out, k);
  }

  lemma LastReachesEnd(text: seq<byte>, size: nat, overlap: nat, out: seq<Chunk>)
    requires size >= 1 && IsSplit(text, size, overlap, out) && out != []
    ensures out[|out| - 1].charEnd == |text|
  {
    hide IsRun, End, Next;
    RunGives(text, size, overlap, out, |out| - 1);
    if out[|out| - 1].charEnd < |text| {
      NoGap(text, size, overlap, out[|out| - 1].charStart);
    }
  }

  /**
   * Nothing is lost: the chunks are non-empty, no longer than the window,
   * overlap or touch, and rejoin to the whole text.
   */
  lemma Covers(text: seq<byte>, size: nat, overlap: nat, out: seq<Chunk>)
    requires size >= 1 && IsSplit(text, size, overlap, out)
    ensures Rejoin(out) == text
    ensures forall k | 0 <= k < |out| :: 1 <= |out[k].text| <= size
    ensures forall j, k | 0 <= j && k == j + 1 < |out| ::
              out[j].charStart < out[k].charStart <= out[j].charEnd
    ensures text != [] ==> out[0].charStart == 0 && out[|out| - 1].charEnd == |text|
  {
    hide IsRun, Rejoin;
    forall k | 0 <= k < |out| ensures 1 <= |out[k].text| <= size {
      SizeOfChunk(text, size, overlap, out, k);
    }
    forall j, k | 0 <= j && k == j + 1 < |out|
      ensures out[j].charStart < out[k].charStart <= out[j].charEnd
    {
      PairOverlaps(text, size, overlap, out, j);
    }
    if text != [] {
      LastReachesEnd(text, size, overlap, out);
      RunGives(text, size, overlap, out, 0);
      RejoinRun(text, size, overlap, out);
      assert text[..|text|] == text;
    } else {
      RejoinNothing();
    }
  }

  lemma RejoinNothing()
    ensures Rejoin([]) == []
  {
  }

  // ----- Code points, for well-formed text

  lemma AlignedNear(text: seq<byte>, i: nat)
    requires WellFormed(text) && i <= |text|
    ensures i - 3 <= Aligned(text, i) <= i && Boundary(text, Aligned(text, i))
  {
    var b := NearBoundary(text, i);
    if Aligned(text, i) == 0 {
      var zero := NearBoundary(text, 0);
    }
  }

  lemma StepOfWindow(text: seq<byte>, size: nat, overlap: int, start: nat)
    requires WellFormed(text) && size >= 4 && size - overlap >= 4
    requires start < |text| && Boundary(text, start)
    ensures Boundary(text, End(text, size, start))
    ensures End(text, size, start) < |text| ==> start + size - 3 <= End(text, size, start) <= start + size
    ensures var next := Next(text, size, overlap, start);
            next < |text| ==> Boundary(text, next)
    ensures var next := Next(text, size, overlap, start);
            next < |text| ==> start + size - overlap - 3 <= next <= start + size - overlap
  {
    if start + size < |text| {
      AlignedNear(text, start + size);
    }
    if start + Step(size, overlap) <= |text| {
      AlignedNear(text, start + Step(size, overlap));
    }
  }

  lemma {:induction false} StartsOnBoundary(text: seq<byte>, size: nat, overlap: int, out: seq<Chunk>, k: nat)
    requires WellFormed(text) && size >= 4 && size - overlap >= 4
    requires IsRun(text, size, overlap, out) && k < |out|
    ensures Boundary(text, out[k].charStart)
    ensures out[k].charStart >= k * (size - overlap - 3)
  {
    hide IsRun, WellFormed, End, Next;
    RunGives(text, size, overlap, out, k);
    if k == 0 {
      var zero := NearBoundary(text, 0);
    } else {
      RunGives(text, size, overlap, out, k - 1);
      StartsOnBoundary(text, size, overlap, out, k - 1);
      StepOfWindow(text, size, overlap, out[k - 1].charStart);
      assert k * (size - overlap - 3) == (k - 1) * (size - overlap - 3) + (size - overlap - 3);
    }
  }

  lemma ChunkWhole(text: seq<byte>, size: nat, overlap: int, out: seq<Chunk>, k: nat)
    requires WellFormed(text) && size >= 4 && size - overlap >= 4
    requires IsRun(text, size, overlap, out) && k < |out|
    ensures Boundary(text, out[k].charStart) && Boundary(text, out[k].charEnd) && WellFormed(out[k].text)
  {
    hide IsRun, WellFormed, Boundary, End, Next;
    RunGives(text, size, overlap, out, k);
    StartsOnBoundary(text, size, overlap, out, k);
    StepOfWindow(text, size, overlap, out[k].charStart);
    Between(text, out[k].charStart, out[k].charEnd);
  }

  lemma OverlapNear(text: seq<byte>, size: nat, overlap: int, out: seq<Chunk>, k: nat)
    requires WellFormed(text) && size >= 4 && size - overlap >= 4
    requires IsRun(text, size, overlap, out) && k + 1 < |out|
    ensures overlap - 3 <= out[k].charEnd - out[k + 1].charStart <= overlap + 3
  {
    hide IsRun, WellFormed, Boundary, End, Next;
    RunGives(text, size, overlap, out, k);
    RunGives(text, size, overlap, out, k + 1);
    StartsOnBoundary(text, size, overlap, out, k);
    StepOfWindow(text, size, overlap, out[k].charStart);
  }

  /**
   * With a step of at least 4, every chunk of a well-formed text is well-formed,
   * and the overlap is kept within 3 bytes.
   */
  lemma WholeCodePoints(text: seq<byte>, size: nat, overlap: int, out: seq<Chunk>)
    requires WellFormed(text) && size >= 4 && size - overlap >= 4
    requires IsSplit(text, size, overlap, out)
    ensures forall k | 0 <= k < |out| ::
              Boundary(text, out[k].charStart) && Boundary(text, out[k].charEnd) && WellFormed(out[k].text)
    ensures forall j, k | 0 <= j && k == j + 1 < |out| ::
              overlap - 3 <= out[j].charEnd - out[k].charStart <= overlap + 3
  {
    hide IsRun, WellFormed, Boundary;
    forall k | 0 <= k < |out|
      ensures Boundary(text, out[k].charStart) && Boundary(text, out[k].charEnd) && WellFormed(out[k].text)
    {
      ChunkWhole(text, size, overlap, out, k);
    }
    forall j, k | 0 <= j && k == j + 1 < |out|
      ensures overlap - 3 <= out[j].charEnd - out[k].charStart <= overlap + 3
    {
      OverlapNear(text, size, overlap, out, j);
    }
  }

  function CeilDiv(n: nat, d: nat): nat
    requires d > 0
  {
    (n + d - 1) / d
  }

  lemma CeilDivBound(count: nat, n: nat, d: nat)
    requires d > 0 && count > 0 && (count - 1) * d < n
    ensures count <= CeilDiv(n, d)
  {
    var q := (n + d - 1) / d;
    if q <= count - 1 {
      assert q * d <= (count - 1) * d;
    }
  }

  /** A well-formed text is cut into at most ceil(length / (step - 3)) chunks. */
  lemma ChunkCount(text: seq<byte>, size: nat, overlap: int, out: seq<Chunk>)
    requires WellFormed(text) && size >= 4 && size - overlap >= 4
    requires IsSplit(text, size, overlap, out)
    ensures |out| <= CeilDiv(|text|, size - overlap - 3)
  {
    if out != [] {
      StartsOnBoundary(text, size, overlap, out, |out| - 1);
      CeilDivBound(|out|, |text|, size - overlap - 3);
    }
  }

  // ----- Exactly when code points survive

  function Grins(n: nat): (s: seq<byte>)
    ensures |s| == 4 * n
    ensures WellFormed(s)
    ensures n > 0 ==> s[..4] == [0xF0, 0x9F, 0x98, 0x80]
  {
    if n == 0 then [] else
      var s := [0xF0, 0x9F, 0x98, 0x80] + Grins(n - 1);
      assert First(s) == 4 && s[4..] == Grins(n - 1);
      s
  }

  /** A shorter step can start a window inside a code point, or end the first one there. */
  lemma ShortStepCuts(size: nat, overlap: nat, out: seq<Chunk>)
    requires size >= 1 && size - overlap < 4
    requires IsSplit(Grins(size), size, overlap, out)
    ensures exists c :: c in out && !WellFormed(c.text)
  {
    var text := Grins(size);
    var s := text[..4];
    assert text[1] == s[1] && text[2] == s[2] && text[3] == s[3];
    assert Tails(text, 1, 4);
    var c := out[0];
    assert IsChunk(text, size, c, 0);
    if size < 4 {
      assert Aligned(text, size) == 0;
      CutAt(text, size);
      assert text[0..size] == text[..size];
    } else {
      var step := Step(size, overlap);
      assert Aligned(text, step) == 0;
      assert |out| > 1;
      assert Follows(text, size, overlap, out[0], out[1]);
      assert IsChunk(text, size, out[1], 1);
      Broken(text, step, out[1].charEnd);
    }
  }

  lemma Broken(text: seq<byte>, i: nat, j: nat)
    requires i < j <= |text| && Tail(text[i])
    ensures !WellFormed(text[i..j])
  {
    assert text[i..j][0] == text[i];
  }

  ghost predicate KeepsCodePoints(size: nat, overlap: nat) {
    forall text, out | WellFormed(text) && IsSplit(text, size, overlap, out) :: AllWellFormed(out)
  }

  ghost predicate AllWellFormed(out: seq<Chunk>) {
    forall c | c in out :: WellFormed(c.text)
  }

  /** A splitter keeps code points whole, on every well-formed text, exactly when its step is at least 4. */
  lemma KeepsCodePointsWhenStepIsFour(size: nat, overlap: nat)
    requires size >= 1
    ensures KeepsCodePoints(size, overlap) <==> size - overlap >= 4
  {
    if size - overlap >= 4 {
      forall text, out | WellFormed(text) && IsSplit(text, size, overlap, out) ensures AllWellFormed(out) {
        WholeCodePoints(text, size, overlap, out);
      }
    } else {
      var out := SplitOf(Grins(size), size, overlap);
      ShortStepCuts(size, overlap, out);
      assert !AllWellFormed(out);
    }
  }

  lemma SplitOf(text: seq<byte>, size: nat, overlap: int) returns (out: seq<Chunk>)
    ensures IsSplit(text, size, overlap, out)
  {
    out := [];
    EmptyRun(text, size, overlap);
    if text != [] {
      out := SplitFrom(text, size, overlap, [], 0);
    }
  }

  lemma {:induction false} SplitFrom(text: seq<byte>, size: nat, overlap: int, done: seq<Chunk>, start: nat)
    returns (out: seq<Chunk>)
    requires start < |text| && IsRun(text, size, overlap, done)
    requires if done == [] then start == 0
             else done[|done| - 1].charEnd < |text| && start == Next(text, size, overlap, done[|done| - 1].charStart)
    ensures IsSplit(text, size, overlap, out)
    decreases |text| - start
  {
    var seg := text[start..End(text, size, start)];
    hide IsRun;
    RunSnoc(text, size, overlap, done, Chunk(|done|, seg, |seg| / 4, start, End(text, size, start)));
    out := done + [Chunk(|done|, seg, |seg| / 4, start, End(text, size, start))];
    if End(text, size, start) < |text| && Next(text, size, overlap, start) < |text| {
      out := SplitFrom(text, size, overlap, out, Next(text, size, overlap, start));
    }
  }
}
