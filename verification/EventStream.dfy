/** Server-sent event frames: written one by one, read back from a stream cut anywhere. */
module EventStream {
  import opened Wrappers
  import opened Texts

  datatype Event = Event(name: string, data: string)

  const NAME := "event: "
  const DATA := "data: "

  // ----- Writing

  function Frame(e: Event): string {
    NAME + e.name + "\n" + DATA + e.data + "\n\n"
  }

  function Wire(events: seq<Event>): string {
    if events == [] then "" else Frame(events[0]) + Wire(events[1..])
  }

  // ----- Reading, as functions

  /** Two line breaks at position i. */
  predicate BlankAt(s: string, i: int) {
    0 <= i && i + 1 < |s| && s[i] == '\n' && s[i + 1] == '\n'
  }

  function BlankFrom(s: string, i: nat): (r: int)
    ensures r == -1 || (i <= r && BlankAt(s, r))
    ensures forall j | i <= j && (r == -1 || j < r) :: !BlankAt(s, j)
    decreases |s| - i
  {
    if i >= |s| then -1 else if BlankAt(s, i) then i else BlankFrom(s, i + 1)
  }

  /** The first blank line of s, or -1. */
  function FirstBlank(s: string): (r: int)
    ensures r == -1 || BlankAt(s, r)
    ensures forall j | r == -1 || j < r :: !BlankAt(s, j)
  {
    BlankFrom(s, 0)
  }

  predicate OneLine(s: string) {
    '\n' !in s
  }

  function Lines(s: string): (r: seq<string>)
    ensures r != [] && forall i | 0 <= i < |r| :: OneLine(r[i])
  {
    Split(s, '\n')
  }

  /** What follows the prefix on the last line that has it. */
  function Field(lines: seq<string>, prefix: string): (r: Option<string>)
    ensures r.Some? && (forall i | 0 <= i < |lines| :: OneLine(lines[i])) ==> OneLine(r.value)
  {
    if lines == [] then None
    else
      var last := lines[|lines| - 1];
      if prefix <= last then
        assert forall c | c in last[|prefix|..] :: c in last;
        Some(last[|prefix|..])
      else Field(lines[..|lines| - 1], prefix)
  }

  function EventOf(name: Option<string>, data: Option<string>): Option<Event> {
    if name.Some? && data.Some? then Some(Event(name.value, data.value)) else None
  }

  function Parse(frame: string): Option<Event> {
    EventOf(Field(Lines(frame), NAME), Field(Lines(frame), DATA))
  }

  function Opt(e: Option<Event>): seq<Event> {
    if e.Some? then [e.value] else []
  }

  /** What remains of a buffer when all its complete frames have been taken out. */
  function Rest(buf: string): string
    decreases |buf|
  {
    var i := FirstBlank(buf);
    if i == -1 then buf else Rest(buf[i + 2..])
  }

  /** The events of a buffer's complete frames. */
  function Drained(buf: string): seq<Event>
    decreases |buf|
  {
    var i := FirstBlank(buf);
    if i == -1 then [] else Opt(Parse(buf[..i])) + Drained(buf[i + 2..])
  }

  // ----- A stream may be cut anywhere

  lemma BlankIs(s: string, i: int)
    requires BlankAt(s, i) && forall j | j < i :: !BlankAt(s, j)
    ensures FirstBlank(s) == i
  {
  }

  lemma BlankStays(a: string, b: string)
    requires FirstBlank(a) >= 0
    ensures FirstBlank(a + b) == FirstBlank(a)
  {
    forall j | j < FirstBlank(a) ensures !BlankAt(a + b, j) {
      assert !BlankAt(a, j);
    }
    BlankIs(a + b, FirstBlank(a));
  }

  /** Reading a in one piece and then b is reading a + b at once: whatever the bytes, cuts do not matter. */
  lemma {:induction false} CutAnywhere(a: string, b: string)
    ensures Rest(a + b) == Rest(Rest(a) + b)
    ensures Drained(a + b) == Drained(a) + Drained(Rest(a) + b)
    decreases |a|
  {
    hide FirstBlank, Parse, Rest, Drained;
    var i := FirstBlank(a);
    BlankRange(a);
    if i >= 0 {
      BlankStays(a, b);
      CutAnywhere(a[i + 2..], b);
      assert (a + b)[i + 2..] == a[i + 2..] + b;
      assert (a + b)[..i] == a[..i];
      TakeFrame(a, i);
      TakeFrame(a + b, i);
    } else {
      NoFrame(a);
    }
  }

  lemma TakeFrame(buf: string, i: nat)
    requires FirstBlank(buf) == i && i + 1 < |buf|
    ensures Rest(buf) == Rest(buf[i + 2..])
    ensures Drained(buf) == Opt(Parse(buf[..i])) + Drained(buf[i + 2..])
  {
    hide FirstBlank, Parse;
  }

  lemma NoFrame(buf: string)
    requires FirstBlank(buf) == -1
    ensures Rest(buf) == buf && Drained(buf) == []
  {
  }

  function BufAfter(pieces: seq<string>): string {
    if pieces == [] then "" else Rest(BufAfter(pieces[..|pieces| - 1]) + pieces[|pieces| - 1])
  }

  function ReadFrom(pieces: seq<string>): seq<Event> {
    if pieces == [] then []
    else
      var before := pieces[..|pieces| - 1];
      ReadFrom(before) + Drained(BufAfter(before) + pieces[|pieces| - 1])
  }

  lemma {:induction false} ReadWhole(pieces: seq<string>)
    ensures BufAfter(pieces) == Rest(Concat(pieces)) && ReadFrom(pieces) == Drained(Concat(pieces))
  {
    if pieces != [] {
      var before := pieces[..|pieces| - 1];
      ReadWhole(before);
      CutAnywhere(Concat(before), pieces[|pieces| - 1]);
    }
  }

  // ----- What was written is read back

  predicate Plain(e: Event) {
    OneLine(e.name) && OneLine(e.data)
  }

  function Body(e: Event): string {
    NAME + e.name + "\n" + DATA + e.data
  }

  lemma LinesOfBody(e: Event)
    requires Plain(e)
    ensures Lines(Body(e)) == [NAME + e.name, DATA + e.data]
  {
    var first, second := NAME + e.name, DATA + e.data;
    assert Body(e) == first + ['\n'] + second;
    SplitWhole(first, '\n');
    SplitSnoc(first, '\n', second);
  }

  lemma ParseBody(e: Event)
    requires Plain(e)
    ensures Parse(Body(e)) == Some(e)
  {
    LinesOfBody(e);
    var first, second := NAME + e.name, DATA + e.data;
    assert DATA <= second && second[|DATA|..] == e.data;
    assert NAME <= first && first[|NAME|..] == e.name;
    PrefixesDiffer(second);
    assert [first, second][..1] == [first];
    assert Field([first], NAME) == Some(e.name);
    assert Field([first, second], DATA) == Some(e.data);
    assert Field([first, second], NAME) == Field([first], NAME);
  }

  /** Every event frame ends at its own blank line. */
  lemma BlankOfFrame(e: Event, more: string)
    requires Plain(e)
    ensures FirstBlank(Frame(e) + more) == |Body(e)|
    ensures (Frame(e) + more)[..|Body(e)|] == Body(e)
    ensures (Frame(e) + more)[|Body(e)| + 2..] == more
  {
    var s := Frame(e) + more;
    var body := Body(e);
    assert Frame(e) == body + "\n\n";
    var split := |NAME + e.name|;
    forall j | j < |body| ensures !BlankAt(s, j) {
      if 0 <= j {
        assert s[j] == body[j];
        if j < split {
          assert s[j] == (NAME + e.name)[j];
          assert j < |NAME| || s[j] == e.name[j - |NAME|];
        } else if j > split {
          assert s[j] == (DATA + e.data)[j - split - 1];
          assert j - split - 1 < |DATA| || s[j] == e.data[j - split - 1 - |DATA|];
        } else {
          assert s[j + 1] == DATA[0];
        }
      }
    }
    BlankIs(s, |body|);
  }

  lemma EmptyWire()
    ensures Wire([]) == ""
  {
  }

  lemma WireCons(events: seq<Event>)
    requires events != []
    ensures Wire(events) == Frame(events[0]) + Wire(events[1..])
  {
  }

  lemma {:induction false} ReadsBackAll(events: seq<Event>, more: string)
    requires forall e | e in events :: Plain(e)
    ensures Drained(Wire(events) + more) == events + Drained(more)
    ensures Rest(Wire(events) + more) == Rest(more)
    decreases |events|
  {
    hide Plain, Parse, FirstBlank, Frame, Body, Rest, Drained, Wire;
    if events == [] {
      EmptyWire();
      assert Wire(events) + more == more;
    } else {
      WireCons(events);
      var tail := Wire(events[1..]) + more;
      assert Wire(events) + more == Frame(events[0]) + tail;
      BlankOfFrame(events[0], tail);
      BlankRange(Frame(events[0]) + tail);
      TakeFrame(Frame(events[0]) + tail, |Body(events[0])|);
      ParseBody(events[0]);
      ReadsBackAll(events[1..], more);
      assert events == [events[0]] + events[1..];
    }
  }

  /**
   * However the network cuts the stream, the reader gets exactly the events
   * written, in order, and nothing is left over.
   */
  lemma RoundTrip(events: seq<Event>, pieces: seq<string>)
    requires forall e | e in events :: Plain(e)
    requires Concat(pieces) == Wire(events)
    ensures ReadFrom(pieces) == events && BufAfter(pieces) == ""
  {
    ReadWhole(pieces);
    ReadsBackAll(events, "");
    assert Wire(events) + "" == Wire(events);
    assert FirstBlank("") == -1;
  }

  /** The reader is never ahead of the wire: what it has is a prefix of what was written. */
  lemma NeverAhead(events: seq<Event>, arrived: seq<string>, later: seq<string>)
    requires forall e | e in events :: Plain(e)
    requires Concat(arrived + later) == Wire(events)
    ensures ReadFrom(arrived) <= events
  {
    RoundTrip(events, arrived + later);
    ReadGrows(arrived, later);
  }

  lemma {:induction false} ReadGrows(arrived: seq<string>, later: seq<string>)
    ensures ReadFrom(arrived) <= ReadFrom(arrived + later)
  {
    if later == [] {
      assert arrived + later == arrived;
    } else {
      ReadGrows(arrived, later[..|later| - 1]);
      assert (arrived + later)[..|arrived + later| - 1] == arrived + later[..|later| - 1];
    }
  }

  /** A frame that has arrived has been read: nothing waits for the frames after it. */
  lemma NeverBehind(events: seq<Event>, begun: string, pieces: seq<string>)
    requires forall e | e in events :: Plain(e)
    requires Concat(pieces) == Wire(events) + begun
    ensures events <= ReadFrom(pieces)
  {
    ReadWhole(pieces);
    ReadsBackAll(events, begun);
  }

  /** One event survives the wire exactly when neither of its parts holds a line break. */
  lemma ReadsBackExactly(e: Event)
    ensures Drained(Frame(e)) == [e] <==> Plain(e)
  {
    if Plain(e) {
      ReadsBackAll([e], "");
      assert Wire([e]) == Frame(e) + Wire([]) && Wire([e]) + "" == Frame(e);
      assert FirstBlank("") == -1;
    } else {
      DrainedPlain(Frame(e));
      assert |Drained(Frame(e))| == 1 ==> Plain(Drained(Frame(e))[0]);
    }
  }

  lemma ParsePlain(frame: string)
    ensures Parse(frame).Some? ==> Plain(Parse(frame).value)
  {
  }

  /** Nothing the reader hands on holds a line break. */
  lemma {:induction false} DrainedPlain(buf: string)
    ensures forall e | e in Drained(buf) :: Plain(e)
    decreases |buf|
  {
    hide Plain, Parse, FirstBlank;
    var i := FirstBlank(buf);
    BlankRange(buf);
    if i >= 0 {
      ParsePlain(buf[..i]);
      DrainedPlain(buf[i + 2..]);
    }
  }

  lemma BlankRange(s: string)
    ensures -1 <= FirstBlank(s) && FirstBlank(s) + 1 < |s| + 1
  {
  }

  // ----- The reader and the writer as they run

  /** The value follows the prefix on a line after which no line has the prefix. */
  ghost predicate LastValue(lines: seq<string>, prefix: string, value: string) {
    exists i :: 0 <= i < |lines| && lines[i] == prefix + value && NoneAfter(lines, prefix, i)
  }

  ghost predicate NoneAfter(lines: seq<string>, prefix: string, i: int) {
    forall j | i < j < |lines| && 0 <= j :: !(prefix <= lines[j])
  }

  lemma {:induction false} FieldIs(lines: seq<string>, prefix: string)
    ensures var r := Field(lines, prefix);
            if r.None? then NoneAfter(lines, prefix, -1) else LastValue(lines, prefix, r.value)
  {
    if lines != [] {
      var n := |lines| - 1;
      if prefix <= lines[n] {
        assert lines[n] == prefix + lines[n][|prefix|..] && NoneAfter(lines, prefix, n);
      } else {
        FieldIs(lines[..n], prefix);
        var r := Field(lines[..n], prefix);
        if r.Some? {
          var i :| 0 <= i < n && lines[..n][i] == prefix + r.value && NoneAfter(lines[..n], prefix, i);
          assert forall j | i < j < n :: lines[j] == lines[..n][j];
          assert lines[i] == prefix + r.value && NoneAfter(lines, prefix, i);
        } else {
          assert forall j | 0 <= j < n :: lines[j] == lines[..n][j];
        }
      }
    }
  }

  /** What a frame says: its last event line and its last data line; without either, nothing. */
  lemma ParseMeans(frame: string)
    ensures var lines, r := Lines(frame), Parse(frame);
            && (r.None? <==> NoneAfter(lines, NAME, -1) || NoneAfter(lines, DATA, -1))
            && (r.Some? ==> LastValue(lines, NAME, r.value.name) && LastValue(lines, DATA, r.value.data))
  {
    hide Lines, Field;
    FieldIs(Lines(frame), NAME);
    FieldIs(Lines(frame), DATA);
  }

  method ParseFrame(frame: string) returns (event: Option<Event>)
    ensures event == Parse(frame)
    ensures event.None? <==> NoneAfter(Lines(frame), NAME, -1) || NoneAfter(Lines(frame), DATA, -1)
    ensures event.Some? ==>
              LastValue(Lines(frame), NAME, event.value.name) && LastValue(Lines(frame), DATA, event.value.data)
  {
    ParseMeans(frame);
    hide LastValue, NoneAfter;
    hide Lines;
    var name: Option<string> := None;
    var data: Option<string> := None;
    var lines := Lines(frame);
    for i := 0 to |lines|
      invariant name == Field(lines[..i], NAME) && data == Field(lines[..i], DATA)
    {
      var line := lines[i];
      assert lines[..i + 1][..i] == lines[..i] && lines[..i + 1][i] == line;
      PrefixesDiffer(line);
      if NAME <= line {
        name := Some(line[|NAME|..]);
      } else if DATA <= line {
        data := Some(line[|DATA|..]);
      }
    }
    assert lines[..|lines|] == lines;
    event := EventOf(name, data);
  }

  lemma PrefixesDiffer(line: string)
    ensures !(NAME <= line && DATA <= line)
  {
    assert NAME[0] == 'e' && DATA[0] == 'd';
    assert NAME <= line ==> line[0] == NAME[0];
  }

  class Reader {
    var buf: string
    var events: seq<Event>

    constructor ()
      ensures buf == "" && events == []
    {
      buf, events := "", [];
    }

    /** One piece from the network; every event it completes is handed on. */
    method Feed(value: string)
      modifies this
      ensures buf == Rest(old(buf) + value)
      ensures events == old(events) + Drained(old(buf) + value)
    {
      hide Parse, FirstBlank;
      buf := buf + value;
      ghost var all := buf;
      var sepIndex := FirstBlank(buf);
      while sepIndex != -1
        invariant sepIndex == FirstBlank(buf)
        invariant Rest(buf) == Rest(all)
        invariant events + Drained(buf) == old(events) + Drained(all)
        decreases |buf|
      {
        BlankRange(buf);
        var frame := buf[..sepIndex];
        var event := ParseFrame(frame);
        assert Drained(buf) == Opt(event) + Drained(buf[sepIndex + 2..]);
        buf := buf[sepIndex + 2..];
        if event.Some? {
          events := events + [event.value];
        }
        sepIndex := FirstBlank(buf);
      }
    }
  }

  lemma ReadStep(pieces: seq<string>, i: nat)
    requires i < |pieces|
    ensures BufAfter(pieces[..i + 1]) == Rest(BufAfter(pieces[..i]) + pieces[i])
    ensures ReadFrom(pieces[..i + 1]) == ReadFrom(pieces[..i]) + Drained(BufAfter(pieces[..i]) + pieces[i])
  {
    assert pieces[..i + 1][..i] == pieces[..i];
  }

  method PostEventStream(pieces: seq<string>) returns (events: seq<Event>)
    ensures events == Drained(Concat(pieces))
    ensures forall sent | (forall e | e in sent :: Plain(e)) && Concat(pieces) == Wire(sent) :: events == sent
  {
    hide Rest, Drained, Plain;
    var reader := new Reader();
    for i := 0 to |pieces|
      invariant reader.buf == BufAfter(pieces[..i]) && reader.events == ReadFrom(pieces[..i])
    {
      ReadStep(pieces, i);
      reader.Feed(pieces[i]);
    }
    assert pieces[..|pieces|] == pieces;
    ReadWhole(pieces);
    events := reader.events;
    forall sent | (forall e | e in sent :: Plain(e)) && Concat(pieces) == Wire(sent) ensures events == sent {
      RoundTrip(sent, pieces);
    }
  }

  class Writer {
    var sent: string

    constructor ()
      ensures sent == ""
    {
      sent := "";
    }

    method WriteSse(e: Event)
      modifies this
      ensures sent == old(sent) + Frame(e)
    {
      sent := sent + "event: " + e.name + "\ndata: " + e.data + "\n\n";
    }
  }

  lemma WireSnoc(events: seq<Event>, e: Event)
    ensures Wire(events + [e]) == Wire(events) + Frame(e)
  {
    hide Frame;
    if events != [] {
      WireSnoc(events[1..], e);
      assert (events + [e])[1..] == events[1..] + [e];
    }
  }

  method Stream(events: seq<Event>) returns (sent: string)
    ensures sent == Wire(events)
  {
    hide Frame, Wire;
    var writer := new Writer();
    EmptyWire();
    for i := 0 to |events|
      invariant writer.sent == Wire(events[..i])
    {
      WireSnoc(events[..i], events[i]);
      assert events[..i + 1] == events[..i] + [events[i]];
      writer.WriteSse(events[i]);
    }
    assert events[..|events|] == events;
    sent := writer.sent;
  }
}
