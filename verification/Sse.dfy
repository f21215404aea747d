/**
 The incremental body buffer of the stdio bridge: CRLF is folded chunk by chunk and events are
 cut off at blank lines as they arrive, with a running byte count.
 */
module Sse {
  import opened Common
  import opened Strings

  const FRAME_LIMIT: nat := 8 * 1024 * 1024

  const BLANK := "\n\n"

  function CharBytes(c: char): nat {
    var code := c as int;
    if code < 0x80 then 1 else if code < 0x800 then 2 else if code < 0x1_0000 then 3 else 4
  }

  /** The size of the text in UTF-8. */
  function ByteLength(s: string): nat {
    if s == [] then 0 else CharBytes(s[0]) + ByteLength(s[1..])
  }

  function Join(chunks: seq<string>): string {
    if chunks == [] then [] else Join(chunks[..|chunks| - 1]) + chunks[|chunks| - 1]
  }

  /** The events, each with its blank line. */
  function WithBlanks(events: seq<string>): string {
    if events == [] then [] else events[0] + BLANK + WithBlanks(events[1..])
  }

  /** The texts before each leftmost blank line. */
  function EventsOf(s: string): seq<string>
    decreases |s|
  {
    var i := IndexOf(s, BLANK, 0);
    if i.None? then [] else [s[..i.value]] + EventsOf(s[i.value + 2..])
  }

  /** The text after the last of them. */
  function RestOf(s: string): string
    decreases |s|
  {
    var i := IndexOf(s, BLANK, 0);
    if i.None? then s else RestOf(s[i.value + 2..])
  }

  /** The input without a CR at its very end, which may be half of a CRLF. */
  function Settled(s: string): string {
    if EndsWith(s, '\r') then s[..|s| - 1] else s
  }

  function Held(s: string): string {
    if EndsWith(s, '\r') then "\r" else ""
  }

  lemma {:induction false} ByteLengthConcat(a: string, b: string)
    ensures ByteLength(a + b) == ByteLength(a) + ByteLength(b)
  {
    if a == [] {
      assert a + b == b;
    } else {
      assert (a + b)[1..] == a[1..] + b;
      ByteLengthConcat(a[1..], b);
    }
  }

  lemma WithBlanksCons(event: string, events: seq<string>)
    ensures WithBlanks([event] + events) == (event + BLANK) + WithBlanks(events)
  {
    assert ([event] + events)[1..] == events;
  }

  /** Cutting loses nothing, and leaves no blank line behind. */
  lemma {:induction false} CutsRebuild(s: string)
    ensures s == WithBlanks(EventsOf(s)) + RestOf(s)
    ensures IndexOf(RestOf(s), BLANK, 0) == None
    decreases |s|
  {
    var i := IndexOf(s, BLANK, 0);
    if i.Some? {
      var k := i.value;
      IndexIsAnOccurrence(s, BLANK, 0);
      var tail := s[k + 2..];
      CutsRebuild(tail);
      CutApart(s, k);
      WithBlanksCons(s[..k], EventsOf(tail));
      Associative(s[..k] + BLANK, WithBlanks(EventsOf(tail)), RestOf(tail));
    }
  }

  lemma CutApart(s: string, k: nat)
    requires OccursAt(s, BLANK, k)
    ensures s == (s[..k] + BLANK) + s[k + 2..]
  {
  }

  /** What follows does not change the first cut. */
  lemma FirstCut(s: string, t: string, k: nat)
    requires IndexOf(s, BLANK, 0) == Some(k)
    ensures EventsOf(s + t) == [s[..k]] + EventsOf(s[k + 2..] + t)
    ensures RestOf(s + t) == RestOf(s[k + 2..] + t)
  {
    IndexInPrefix(s, t, BLANK);
    assert (s + t)[k + 2..] == s[k + 2..] + t && (s + t)[..k] == s[..k];
  }

  lemma ConsConcat(event: string, a: seq<string>, b: seq<string>)
    ensures [event] + (a + b) == ([event] + a) + b
  {
  }

  /** Cutting may go on from what an earlier cut left over. */
  lemma {:induction false} CutConcat(s: string, t: string)
    ensures EventsOf(s + t) == EventsOf(s) + EventsOf(RestOf(s) + t)
    ensures RestOf(s + t) == RestOf(RestOf(s) + t)
    decreases |s|
  {
    var i := IndexOf(s, BLANK, 0);
    hide IndexOf;
    if i.Some? {
      var event, tail := s[..i.value], s[i.value + 2..];
      FirstCut(s, t, i.value);
      CutConcat(tail, t);
      ConsConcat(event, EventsOf(tail), EventsOf(RestOf(tail) + t));
      assert RestOf(s) == RestOf(tail) && EventsOf(s) == [event] + EventsOf(tail);
    } else {
      assert RestOf(s) == s && EventsOf(s) == [];
    }
  }

  predicate IsLine(s: string) {
    '\r' !in s && '\n' !in s
  }

  /**
   Two lines with a blank line between them whose ends are lone CRs: the format (section 9.2.5 of
   the WHATWG HTML standard) has the first as an event, and here it stays part of the residue.
   */
  lemma LoneReturnsHideAnEvent(a: string, b: string)
    requires IsLine(a) && IsLine(b)
    ensures
      var text := a + ("\r\r" + b);
      EventsOf(FoldAll(text)) == [a] && EventsOf(Fold(text)) == []
  {
    hide FoldAll, Fold, EventsOf, HasCrlf;
    var text := a + ("\r\r" + b);
    TwoReturnsFold(a, b);
    OnlyBlank(a, b);
    NoNewlineNoEvents(b);
    NoNewlineNoCrlf(text);
    FoldFixed(text);
    NoNewlineNoEvents(text);
  }

  lemma TwoReturnsFold(a: string, b: string)
    requires IsLine(a) && IsLine(b)
    ensures FoldAll(a + ("\r\r" + b)) == a + (BLANK + b)
  {
    hide FoldAll;
    FoldAllPlain(a, "\r\r" + b);
    FoldAllOfPlain(b);
    FoldAllReturn(b);
    FoldAllReturn("\r" + b);
    assert "\r\r" + b == "\r" + ("\r" + b);
    assert "\n" + ("\n" + b) == BLANK + b;
  }

  lemma OnlyBlank(a: string, b: string)
    requires IsLine(a) && IsLine(b)
    ensures EventsOf(a + (BLANK + b)) == [a] + EventsOf(b)
  {
    var text := a + (BLANK + b);
    assert text[|a|..|a| + 2] == BLANK;
    forall k: nat | k < |a| ensures !OccursAt(text, BLANK, k) {
      assert text[k] == a[k];
      assert k + 2 <= |text| ==> text[k..k + 2][0] == a[k];
    }
    IndexIsLeftmost(text, BLANK, 0, |a|);
    assert text[..|a|] == a && text[|a| + 2..] == b;
  }

  lemma NoNewlineNoEvents(s: string)
    requires '\n' !in s
    ensures EventsOf(s) == []
  {
    forall k: nat ensures !OccursAt(s, BLANK, k) {
      assert k + 2 <= |s| ==> s[k..k + 2][0] == s[k];
    }
    AbsentIsNone(s, BLANK, 0);
  }

  lemma {:induction false} NoNewlineNoCrlf(s: string)
    requires '\n' !in s
    ensures !HasCrlf(s)
  {
    if s != [] {
      NoNewlineNoCrlf(s[1..]);
    }
  }

  /** A CR at the end neither completes an event nor folds yet. */
  lemma FoldOfSettled(s: string)
    ensures Fold(s) == Fold(Settled(s)) + Held(s)
  {
    if EndsWith(s, '\r') {
      var init := s[..|s| - 1];
      assert s == init + "\r";
      FoldConcat(init, "\r");
    }
  }

  lemma HeldReturnCutsNothing(s: string)
    requires IndexOf(s, BLANK, 0) == None
    ensures IndexOf(s + "\r", BLANK, 0) == None
  {
    IndexIsAnOccurrence(s, BLANK, 0);
    forall j: nat ensures !OccursAt(s + "\r", BLANK, j) {
      if OccursAt(s + "\r", BLANK, j) {
        assert (s + "\r")[j..j + 2][1] == '\n';
        OccursInPrefix(s, "\r", BLANK, j);
      }
    }
    AbsentIsNone(s + "\r", BLANK, 0);
  }

  /** The events of an input are those of its settled part. */
  lemma EventsOfSettled(s: string)
    ensures EventsOf(Fold(s)) == EventsOf(Fold(Settled(s)))
  {
    FoldOfSettled(s);
    var t := Fold(Settled(s));
    if EndsWith(s, '\r') {
      CutConcat(t, "\r");
      CutsRebuild(t);
      HeldReturnCutsNothing(RestOf(t));
    } else {
      assert t + Held(s) == t;
    }
  }

  /** Folding the next piece alone is enough. */
  lemma FoldNextPiece(input: string, value: string)
    ensures
      var piece := Held(input) + value;
      && Settled(input + value) == Settled(input) + Settled(piece)
      && Held(input + value) == Held(piece)
      && Fold(Settled(input + value)) == Fold(Settled(input)) + Fold(Settled(piece))
  {
    var piece := Held(input) + value;
    assert input + value == Settled(input) + piece;
    if piece == [] {
      assert Settled(input + value) == Settled(input);
    } else {
      assert Settled(Settled(input) + piece) == Settled(input) + Settled(piece);
      FoldConcat(Settled(input), Settled(piece));
    }
  }

  /** A boundary that the new text completes starts at the last old character or later. */
  lemma SearchFromOneBack(before: string, piece: string, from: nat)
    requires IndexOf(before, BLANK, 0) == None
    requires from == if |before| > 0 then |before| - 1 else 0
    ensures IndexOf(before + piece, BLANK, from) == IndexOf(before + piece, BLANK, 0)
  {
    var text := before + piece;
    IndexIsAnOccurrence(before, BLANK, 0);
    IndexIsAnOccurrence(text, BLANK, from);
    forall j: nat | j < from ensures !OccursAt(text, BLANK, j) {
      OccursInPrefix(before, piece, BLANK, j);
    }
    var i := IndexOf(text, BLANK, from);
    if i.Some? {
      IndexIsLeftmost(text, BLANK, 0, i.value);
    } else {
      AbsentIsNone(text, BLANK, 0);
    }
  }

  class BodyBuffer {
    const sse: bool
    var text: string
    var bytes: nat
    var carriage: bool

    /** The byte count is right, and a CR is held back only from an event stream. */
    ghost predicate Valid()
      reads this
    {
      bytes == ByteLength(text) && (carriage ==> sse)
    }

    constructor (sse: bool)
      ensures Valid() && this.sse == sse && text == "" && !carriage
    {
      this.sse := sse;
      text, bytes, carriage := "", 0, false;
    }

    method Append(value: string)
      requires Valid()
      modifies this
      ensures Valid()
      ensures !sse ==> text == old(text) + value
      ensures sse ==>
        var piece := (if old(carriage) then "\r" else "") + value;
        text == old(text) + Fold(Settled(piece)) && carriage == EndsWith(piece, '\r')
    {
      var piece := value;
      if sse {
        if carriage {
          piece := "\r" + piece;
        } else {
          assert "" + value == value;
        }
        carriage := EndsWith(piece, '\r');
        if carriage {
          piece := piece[..|piece| - 1];
        }
        piece := Fold(piece);
      }
      ByteLengthConcat(text, piece);
      text := text + piece;
      bytes := bytes + ByteLength(piece);
    }

    /** Removes and returns the next complete event, searching from `from` onwards. */
    method Take(from: nat) returns (event: Option<string>)
      requires Valid() && IndexOf(text, BLANK, from) == IndexOf(text, BLANK, 0)
      modifies this
      ensures Valid() && carriage == old(carriage)
      ensures event.None? ==> text == old(text) && EventsOf(text) == []
      ensures event.Some? ==>
        && EventsOf(old(text)) == [event.value] + EventsOf(text)
        && RestOf(old(text)) == RestOf(text) && |text| < |old(text)|
    {
      var boundary := IndexOf(text, BLANK, from);
      if boundary.None? {
        return None;
      }
      var k := boundary.value;
      var rest := text[k + 2..];
      CutBytes(text, k);
      event := Some(text[..k]);
      bytes := bytes - (ByteLength(text[..k]) + 2);
      text := rest;
    }

    /** Takes every complete event, the first search starting at `from`. */
    method TakeAll(from: nat) returns (events: seq<string>)
      requires Valid() && IndexOf(text, BLANK, from) == IndexOf(text, BLANK, 0)
      modifies this
      ensures Valid() && carriage == old(carriage)
      ensures events == EventsOf(old(text)) && text == RestOf(old(text))
    {
      events := [];
      var event := Take(from);
      while event.Some?
        invariant Valid() && carriage == old(carriage)
        invariant event.None? ==> events == EventsOf(old(text)) && EventsOf(text) == []
        invariant event.Some? ==> EventsOf(old(text)) == (events + [event.value]) + EventsOf(text)
        invariant RestOf(text) == RestOf(old(text))
        decreases event.Some?, |text|
      {
        events := events + [event.value];
        event := Take(0);
      }
    }
  }

  lemma CutBytes(text: string, k: nat)
    requires IndexOf(text, BLANK, 0) == Some(k)
    ensures ByteLength(text) == ByteLength(text[..k]) + 2 + ByteLength(text[k + 2..])
  {
    IndexIsAnOccurrence(text, BLANK, 0);
    var event, rest := text[..k], text[k + 2..];
    assert text == event + (BLANK + rest);
    ByteLengthConcat(event, BLANK + rest);
    ByteLengthConcat(BLANK, rest);
    assert BLANK[1..] == "\n";
  }

  datatype Reply =
    | Events(events: seq<string>, rest: string)  // the events in order, and what never completed
    | Body(body: string)
    | TooLong

  /** The text the buffer holds right after the last of `chunks` was appended. */
  function Buffered(sse: bool, chunks: seq<string>): string
    requires chunks != []
  {
    var n := |chunks| - 1;
    var before := Join(chunks[..n]);
    if sse then RestOf(Fold(Settled(before))) + Fold(Settled(Held(before) + chunks[n])) else Join(chunks)
  }

  /** What the buffer and the events taken say about the input so far. */
  ghost predicate Drained(buffer: BodyBuffer, events: seq<string>, input: string)
    reads buffer
  {
    && buffer.Valid()
    && (if buffer.sse
        then events == EventsOf(Fold(Settled(input))) && buffer.text == RestOf(Fold(Settled(input)))
             && buffer.carriage == EndsWith(input, '\r')
        else events == [] && buffer.text == input)
  }

  /** One chunk of an event stream. */
  method Feed(buffer: BodyBuffer, chunk: string, ghost before: seq<string>, events: seq<string>)
    returns (fits: bool, more: seq<string>)
    requires Drained(buffer, events, Join(before))
    modifies buffer
    ensures fits <==> ByteLength(Buffered(buffer.sse, before + [chunk])) <= FRAME_LIMIT
    ensures fits ==> Drained(buffer, more, Join(before + [chunk]))
  {
    ghost var input := Join(before);
    ghost var was := buffer.text;
    var from := if |buffer.text| > 0 then |buffer.text| - 1 else 0;
    assert (before + [chunk])[..|before|] == before;
    buffer.Append(chunk);
    if buffer.bytes > FRAME_LIMIT {
      return false, events;
    }
    fits, more := true, events;
    if buffer.sse {
      ghost var piece := Fold(Settled(Held(input) + chunk));
      CutsRebuild(Fold(Settled(input)));
      SearchFromOneBack(was, piece, from);
      FoldNextPiece(input, chunk);
      CutConcat(Fold(Settled(input)), piece);
      var taken := buffer.TakeAll(from);
      more := events + taken;
    }
  }

  /** No chunk leaves more text in the buffer than a frame may have. */
  ghost predicate Fits(sse: bool, before: seq<string>, chunks: seq<string>)
    decreases chunks
  {
    chunks == [] ||
    var next := before + [chunks[0]];
    ByteLength(Buffered(sse, next)) <= FRAME_LIMIT && Fits(sse, next, chunks[1..])
  }

  /** The chunks of a body, up to the first that leaves too much text waiting. */
  method FeedAll(buffer: BodyBuffer, chunks: seq<string>) returns (fits: bool, events: seq<string>)
    requires Drained(buffer, [], Join([]))
    modifies buffer
    ensures fits <==> Fits(buffer.sse, [], chunks)
    ensures fits ==> Drained(buffer, events, Join(chunks))
  {
    events, fits := [], true;
    ghost var before: seq<string> := [];
    var rest := chunks;
    while rest != []
      invariant before + rest == chunks
      invariant Drained(buffer, events, Join(before))
      invariant Fits(buffer.sse, [], chunks) <==> Fits(buffer.sse, before, rest)
      decreases |rest|
    {
      var chunk := rest[0];
      fits, events := Feed(buffer, chunk, before, events);
      if !fits {
        return;
      }
      before, rest := before + [chunk], rest[1..];
    }
    assert before == chunks;
  }

  /**
   The body of one exchange. Unless some chunk leaves too much text waiting, the events are
   those of the folded whole input, however it was cut into chunks.
   */
  method Exchange(sse: bool, chunks: seq<string>, ending: string) returns (reply: Reply)
    ensures reply.TooLong? <==> !Fits(sse, [], chunks)
    ensures !reply.TooLong? ==> (reply.Events? <==> sse)
    ensures reply.Events? ==>
      && reply.events == EventsOf(Fold(Join(chunks)))
      && WithBlanks(reply.events) + reply.rest == Fold(Join(chunks) + ending)
    ensures reply.Body? ==> reply.body == Join(chunks) + ending
  {
    var buffer := new BodyBuffer(sse);
    var fits, events := FeedAll(buffer, chunks);
    if !fits {
      return TooLong;
    }
    ghost var text, input := buffer.text, Join(chunks);
    buffer.Append(ending);
    if sse {
      EndOfStream(input, ending, text);
      reply := Events(events, buffer.text + (if buffer.carriage then "\r" else ""));
    } else {
      reply := Body(buffer.text);
    }
  }

  /** The last text of a stream completes no event; with it everything is accounted for. */
  lemma EndOfStream(input: string, ending: string, text: string)
    requires text == RestOf(Fold(Settled(input)))
    ensures
      var piece := Held(input) + ending;
      var events := EventsOf(Fold(Settled(input)));
      && events == EventsOf(Fold(input))
      && WithBlanks(events) + ((text + Fold(Settled(piece))) + Held(piece)) == Fold(input + ending)
  {
    var piece := Held(input) + ending;
    var settled := Fold(Settled(input));
    EventsOfSettled(input);
    FoldNextPiece(input, ending);
    FoldOfSettled(input + ending);
    CutsRebuild(settled);
    var blanks, more := WithBlanks(EventsOf(settled)), Fold(Settled(piece));
    Associative(blanks, text + more, Held(piece));
    Associative(blanks, text, more);
  }
}
