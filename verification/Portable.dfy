/**
 Raw input on the portable transports: a request is validated and resolved completely, then
 executed through a sink whose every call may fail and a guard that may refuse before any press.
 */
module Portable {
  import opened Common
  import opened InputTrace
  import opened PortableKeys

  const TYPE_LIMIT: nat := 4096

  datatype Request = Request(
    op: string, x: Option<int>, y: Option<int>, text: Option<string>, keys: Option<string>,
    deltaY: Option<int>)

  datatype Action =
    | Click(x: int, y: int)
    | Text(text: string)
    | Chords(chords: seq<seq<Control>>)
    | Scroll(steps: int)

  datatype Prepared = Ready(action: Action) | Refusal(error: string)

  const REFUSED := "DESKTOP_INPUT_REFUSED"

  /** A name the transport cannot resolve is its own error. */
  type Resolver = string -> Option<Control>

  const UNRESOLVED := "unresolved key"

  function Utf16Count(s: string): nat {
    if s == [] then 0 else (if s[0] as int >= 0x1_0000 then 2 else 1) + Utf16Count(s[1..])
  }

  /** Division that truncates towards zero. */
  function Quotient(a: int, b: int): int
    requires b > 0
  {
    if a >= 0 then a / b else -(-a / b)
  }

  function Clamp(a: int, low: int, high: int): int {
    if a < low then low else if a > high then high else a
  }

  function ScrollSteps(delta: int): int {
    -Clamp(Quotient(delta, 120), -100, 100)
  }

  function ResolveChord(names: seq<string>, resolve: Resolver): Option<seq<Control>> {
    if names == [] then Some([])
    else
      match (resolve(names[0]))
      case None => None
      case Some(key) =>
        match ResolveChord(names[1..], resolve)
        case None => None
        case Some(rest) => Some([key] + rest)
  }

  function ResolveAll(chords: seq<seq<string>>, resolve: Resolver): Option<seq<seq<Control>>> {
    if chords == [] then Some([])
    else
      match ResolveChord(chords[0], resolve)
      case None => None
      case Some(chord) =>
        match ResolveAll(chords[1..], resolve)
        case None => None
        case Some(rest) => Some([chord] + rest)
  }

  function PrepareKeys(spec: string, resolve: Resolver): Prepared {
    match ParseKeys(spec)
    case None => Refusal(REFUSED)
    case Some(parsed) =>
      match ResolveAll(parsed, resolve)
      case None => Refusal(UNRESOLVED)
      case Some(chords) => Ready(Chords(chords))
  }

  function Prepare(request: Request, resolve: Resolver): Prepared {
    if request.op == "click" then
      if request.x.Some? && request.y.Some? then Ready(Click(request.x.value, request.y.value))
      else Refusal(REFUSED)
    else if request.op == "type" then
      if request.text.Some? && '\0' !in request.text.value && Utf16Count(request.text.value) <= TYPE_LIMIT
      then Ready(Text(request.text.value))
      else Refusal(REFUSED)
    else if request.op == "key" then
      if request.keys.Some? then PrepareKeys(request.keys.value, resolve) else Refusal(REFUSED)
    else if request.op == "scroll" then
      if request.deltaY.None? then Refusal(REFUSED)
      else
        var steps := ScrollSteps(request.deltaY.value);
        if steps == 0 && request.deltaY.value != 0 then Refusal(REFUSED) else Ready(Scroll(steps))
    else Refusal(REFUSED)
  }

  /** Wheel ticks go the other way, never further than asked for, and are lost only below one tick. */
  lemma ScrollIsBounded(delta: int)
    ensures
      var steps := ScrollSteps(delta);
      && -100 <= steps <= 100
      && (steps == 0 <==> -120 < delta < 120)
      && (steps < 0 <==> delta >= 120)
      && (-12120 < delta < 12120 ==> -120 < delta + 120 * steps < 120)
      && (delta >= 0 ==> -120 * steps <= delta)
      && (delta <= 0 ==> -120 * steps >= delta)
  {
  }

  /**
   The native transport: calls on keys, button, pointer and wheel, and characters typed. Every new
   effect uses up one consent of the guard, given right before it; releases need none.
   */
  class NativeSink {
    const guard: nat -> Option<string>  // its answers, one for each time it is asked
    var asked: nat
    var log: Trace
    var typed: string
    ghost var consent: bool

    ghost predicate Valid()
      reads this
    {
      TraceOk(log)
    }

    constructor (guard: nat -> Option<string>)
      ensures Valid() && asked == 0 && log == [] && typed == "" && !consent && this.guard == guard
    {
      this.guard := guard;
      asked, log, typed, consent := 0, [], "", false;
    }

    method Guard() returns (refusal: Option<string>)
      modifies this`asked, this`consent
      ensures refusal == guard(old(asked)) && asked == old(asked) + 1
      ensures consent <==> refusal.None?
    {
      refusal := guard(asked);
      asked, consent := asked + 1, refusal.None?;
    }

    /** From the `since`-th answer on the guard consented to `n` effects in turn, and then may have refused. */
    ghost predicate Consented(since: nat, n: nat, refusal: Option<string>)
      reads this`asked
    {
      && asked == since + n + (if refusal.Some? then 1 else 0)
      && (forall k: nat :: since <= k < since + n ==> guard(k) == None)
      && (refusal.Some? ==> guard(since + n) == refusal)
    }

    /** A call on one event that takes effect or fails. */
    method Native(event: Event) returns (ok: bool)
      requires Valid() && (event.Up? || consent)
      modifies this`log, this`consent
      ensures !consent && Valid() && |log| == |old(log)| + 1 && old(log) < log
      ensures
        var c := log[|log| - 1];
        c.Send? && c.events == [event] && (ok <==> Accepted(c))
    {
      ok := *;
      log := log + [Send([event], Taken(if ok then 1 else 0))];
      consent := false;
    }

    method MovePointer() returns (ok: bool)
      requires Valid() && consent
      modifies this`log, this`consent
      ensures !consent && Valid() && |log| == |old(log)| + 1 && old(log) < log
      ensures log[|log| - 1].Move? && (ok <==> Accepted(log[|log| - 1]))
    {
      ok := *;
      log := log + [Move(Taken(if ok then 1 else 0))];
      consent := false;
    }

    method Type(c: char) returns (ok: bool)
      requires consent
      modifies this`typed, this`consent
      ensures !consent && typed == old(typed) + [c]
    {
      ok := *;
      typed := typed + [c];
      consent := false;
    }
  }

  /** Tries every release, newest first, even after one failed. */
  method ReleaseAll(sink: NativeSink, pressed: seq<Control>) returns (released: bool, ghost releases: Trace)
    requires sink.Valid()
    modifies sink`log, sink`consent
    ensures sink.Valid() && sink.log == old(sink.log) + releases && |releases| == |pressed|
    ensures forall k :: 0 <= k < |releases| ==> IsRelease(releases[|releases| - 1 - k], pressed[k])
    ensures released <==> Clean(releases)
  {
    var held := pressed;
    released, releases := true, [];
    while held != []
      invariant sink.Valid() && sink.log == old(sink.log) + releases
      invariant held <= pressed && |releases| + |held| == |pressed|
      invariant forall k :: 0 <= k < |releases| ==> IsRelease(releases[k], pressed[|pressed| - 1 - k])
      invariant released <==> Clean(releases)
      decreases |held|
    {
      var key := held[|held| - 1];
      held := held[..|held| - 1];
      var one := sink.Native(Up(key));
      ghost var c := sink.log[|sink.log| - 1];
      CleanConcat(releases, [c]);
      assert Clean([c]) <==> Accepted(c);
      releases := releases + [c];
      released := released && one;
    }
  }

  /** Presses while the guard consents and the transport accepts. */
  method PressAll(sink: NativeSink, chord: seq<Control>)
    returns (held: seq<Control>, ok: bool, refusal: Option<string>, ghost presses: Trace)
    requires sink.Valid()
    modifies sink`log, sink`asked, sink`consent
    ensures sink.Valid() && sink.log == old(sink.log) + presses
    ensures held <= chord && |presses| == |held| && Pressed(presses, chord, ok)
    ensures sink.Consented(old(sink.asked), |presses|, refusal)
    ensures ok ==> refusal.None?
    ensures !ok && held == [] ==> refusal.Some?
  {
    held, refusal, presses := [], None, [];
    var accepted := true;
    while |held| < |chord| && accepted && refusal.None?
      invariant sink.Valid() && sink.log == old(sink.log) + presses
      invariant |held| <= |chord| && held == chord[..|held|] && |presses| == |held|
      invariant Pressed(presses, held, accepted)
      invariant sink.Consented(old(sink.asked), |presses|, refusal)
      invariant refusal.Some? ==> |held| < |chord|
      decreases |chord| - |held|, refusal.None?
    {
      refusal := sink.Guard();
      if refusal.None? {
        var key := chord[|held|];
        accepted := sink.Native(Down(key));
        held := held + [key];
        presses := presses + [sink.log[|sink.log| - 1]];
      }
    }
    PressedPart(presses, chord, |held|, accepted);
    ok := accepted && |held| == |chord|;
  }

  /** One chord: presses, then a release of every press that was tried. */
  method ExecuteChord(sink: NativeSink, chord: seq<Control>)
    returns (ok: bool, refusal: Option<string>, ghost t: Trace)
    requires sink.Valid()
    modifies sink`log, sink`asked, sink`consent
    ensures sink.Valid() && sink.log == old(sink.log) + t
    ensures if ok then Bracket(t, chord) && Clean(t) else CutOff(t, chord)
    ensures |t| % 2 == 0 && sink.Consented(old(sink.asked), |t| / 2, refusal) && (ok ==> refusal.None?)
    ensures t == [] && !ok ==> refusal.Some?
  {
    var held: seq<Control>;
    var pressed: bool;
    ghost var presses: Trace;
    held, pressed, refusal, presses := PressAll(sink, chord);
    ghost var releases: Trace;
    var released: bool;
    released, releases := ReleaseAll(sink, held);
    ReleasedChord(presses, releases, chord, pressed);
    t := presses + releases;
    ok := pressed && released;
  }

  /** The next chord, after `parts`. */
  method ExecuteNext(sink: NativeSink, chords: seq<seq<Control>>, i: nat, ghost parts: seq<Trace>)
    returns (ok: bool, refusal: Option<string>, ghost more: seq<Trace>, ghost t: Trace)
    requires sink.Valid() && Completed(parts, chords) && |parts| == i < |chords|
    modifies sink`log, sink`asked, sink`consent
    ensures sink.Valid() && sink.log == old(sink.log) + t && (t == [] && !ok ==> refusal.Some?)
    ensures |t| % 2 == 0 && sink.Consented(old(sink.asked), |t| / 2, refusal) && (ok ==> refusal.None?)
    ensures |more| == i + 1 && Flat(more) == Flat(parts) + t
    ensures if ok then Completed(more, chords) else ChordRun(more, chords, false)
  {
    ok, refusal, t := ExecuteChord(sink, chords[i]);
    more := parts + [t];
    FlatAppend(parts, t);
    if ok {
      OneMoreChord(parts, t, chords);
    } else {
      CutChord(parts, t, chords);
    }
  }

  /**
   Chord after chord, up to the first that fails. Every press has its own consent of the guard, and
   after a refusal nothing is tried but releases. The outcome is unknown exactly when some press
   was tried before the failure; otherwise it is the guard's refusal.
   */
  method ExecuteChords(sink: NativeSink, chords: seq<seq<Control>>)
    returns (r: Result, refusal: Option<string>, ghost parts: seq<Trace>)
    requires sink.Valid()
    modifies sink`log, sink`asked, sink`consent
    ensures sink.Valid() && sink.log == old(sink.log) + Flat(parts)
    ensures ChordRun(parts, chords, r.Ok?)
    ensures sink.Consented(old(sink.asked), |Flat(parts)| / 2, refusal)
    ensures r.Err? && Flat(parts) != [] ==> r == Err(OUTCOME_UNKNOWN)
    ensures r.Err? && Flat(parts) == [] ==> refusal.Some? && r == Err(refusal.value)
  {
    hide Completed, Flat, ChordRun, TraceOk;
    EmptyRun(chords);
    var sent := false;
    ghost var all: Trace := [];
    parts, refusal := [], None;
    for i := 0 to |chords|
      invariant sink.Valid() && sink.log == old(sink.log) + all && all == Flat(parts) && |parts| == i
      invariant |all| % 2 == 0 && sink.Consented(old(sink.asked), |all| / 2, None) && refusal.None?
      invariant sent <==> all != []
      invariant Completed(parts, chords)
    {
      var ok: bool;
      ghost var t: Trace;
      var before := |sink.log|;
      ok, refusal, parts, t := ExecuteNext(sink, chords, i, parts);
      all := all + t;
      sent := sent || |sink.log| > before;
      if !ok {
        return if sent then Err(OUTCOME_UNKNOWN) else Err(refusal.value), refusal, parts;
      }
    }
    AllChords(parts, chords);
    r := Ok;
  }

  /** Character after character; what was tried is a prefix of the text. */
  method ExecuteText(sink: NativeSink, text: string)
    returns (r: Result, refusal: Option<string>, ghost n: nat)
    modifies sink`typed, sink`asked, sink`consent
    ensures n <= |text| && sink.typed == old(sink.typed) + text[..n]
    ensures r.Ok? ==> n == |text|
    ensures r.Err? && n > 0 ==> r == Err(OUTCOME_UNKNOWN)
    ensures r.Err? && n == 0 ==> refusal.Some? && r == Err(refusal.value)
    ensures sink.Consented(old(sink.asked), n, refusal)
  {
    n, refusal := 0, None;
    for i := 0 to |text|
      invariant n == i && sink.typed == old(sink.typed) + text[..i]
      invariant sink.Consented(old(sink.asked), n, None) && refusal.None?
    {
      refusal := sink.Guard();
      if refusal.Some? {
        return if i > 0 then Err(OUTCOME_UNKNOWN) else Err(refusal.value), refusal, n;
      }
      var ok := sink.Type(text[i]);
      n := i + 1;
      if !ok {
        return Err(OUTCOME_UNKNOWN), refusal, n;
      }
    }
    r := Ok;
  }

  ghost predicate Clicked(t: Trace, ok: bool) {
    && t != [] && t[0].Move?
    && (if |t| == 1 then !ok
        else Accepted(t[0]) && Bracket(t[1..], [LeftButton]) && (ok <==> Clean(t[1..])))
  }

  /** Moves, and if the guard still consents tries the press and the release, whatever they give. */
  method ExecuteClick(sink: NativeSink) returns (r: Result, refusal: Option<string>, ghost t: Trace)
    requires sink.Valid() && sink.consent
    modifies sink`log, sink`asked, sink`consent
    ensures sink.Valid() && sink.log == old(sink.log) + t
    ensures Clicked(t, r.Ok?) && (r.Err? ==> r == Err(OUTCOME_UNKNOWN))
    ensures sink.Consented(old(sink.asked), if |t| > 1 then 1 else 0, refusal)
  {
    var moved := sink.MovePointer();
    t, refusal := [sink.log[|sink.log| - 1]], None;
    r := Err(OUTCOME_UNKNOWN);
    if moved {
      refusal := sink.Guard();
      if refusal.None? {
        var pressed := sink.Native(Down(LeftButton));
        t := t + [sink.log[|sink.log| - 1]];
        var released := sink.Native(Up(LeftButton));
        t := t + [sink.log[|sink.log| - 1]];
        assert t[1..] == [t[1], t[2]];
        if pressed && released {
          r := Ok;
        }
      }
    }
  }

  /** What executing an action did: the calls, the characters, and the result. */
  ghost predicate Executed(action: Action, t: Trace, typed: string, r: Result) {
    match action
    case Chords(chords) => typed == "" && exists parts :: ChordRun(parts, chords, r.Ok?) && t == Flat(parts)
    case Text(text) => t == [] && typed <= text && (r.Ok? ==> typed == text)
    case Click(_, _) => typed == "" && Clicked(t, r.Ok?)
    case Scroll(steps) =>
      typed == "" && |t| == 1 && t[0].Send? && t[0].events == [Wheel(steps)] && (r.Ok? <==> Accepted(t[0]))
  }

  /** An error is the guard's refusal when nothing was tried, and an unknown outcome otherwise. */
  ghost predicate Reported(t: Trace, typed: string, r: Result, refusal: Option<string>) {
    r.Err? ==>
      if t == [] && typed == "" then refusal.Some? && r == Err(refusal.value)
      else r == Err(OUTCOME_UNKNOWN)
  }

  /** The consents an action takes: one to begin, and after that one for each press or character tried. */
  function Consents(action: Action, t: Trace, typed: string): nat {
    match action
    case Chords(_) => 1 + |t| / 2
    case Text(_) => 1 + |typed|
    case Click(_, _) => if |t| > 1 then 2 else 1
    case Scroll(_) => 1
  }

  /** The guard gave exactly these consents from the `since`-th answer on, and a refusal was its last answer. */
  ghost predicate Granted(
      sink: NativeSink, since: nat, action: Action, t: Trace, typed: string, refusal: Option<string>)
    reads sink`asked
  {
    sink.Consented(since, if sink.guard(since).Some? then 0 else Consents(action, t, typed), refusal)
  }

  method Execute(sink: NativeSink, action: Action)
    returns (r: Result, refusal: Option<string>, ghost t: Trace, ghost typed: string)
    requires sink.Valid()
    modifies sink
    ensures sink.Valid() && sink.log == old(sink.log) + t && sink.typed == old(sink.typed) + typed
    ensures Reported(t, typed, r, refusal)
    ensures sink.guard(old(sink.asked)).Some? ==>
      t == [] && typed == "" && r == Err(sink.guard(old(sink.asked)).value)
    ensures Granted(sink, old(sink.asked), action, t, typed, refusal)
    ensures (r.Err? && t == [] && typed == "") || Executed(action, t, typed, r)
  {
    t, typed := [], "";
    refusal := sink.Guard();
    if refusal.Some? {
      return Err(refusal.value), refusal, t, typed;
    }
    match action {
      case Text(text) =>
        ghost var n: nat;
        r, refusal, n := ExecuteText(sink, text);
        typed := text[..n];
      case Chords(chords) =>
        ghost var parts: seq<Trace>;
        r, refusal, parts := ExecuteChords(sink, chords);
        t := Flat(parts);
      case Click(_, _) =>
        r, refusal, t := ExecuteClick(sink);
      case Scroll(steps) =>
        var ok := sink.Native(Wheel(steps));
        t := [sink.log[|sink.log| - 1]];
        r := if ok then Ok else Err(OUTCOME_UNKNOWN);
    }
  }

  /** Whatever fails, no key and no button is left held. */
  lemma NothingStaysHeld(action: Action, t: Trace, typed: string, r: Result)
    requires TraceOk(t) && Executed(action, t, typed, r)
    ensures Held({}, t) == {}
  {
    var none: set<Control> := {};
    match action
    case Chords(chords) =>
      var parts :| ChordRun(parts, chords, r.Ok?) && t == Flat(parts);
      ChordRunIsSafe(none, parts, chords, r.Ok?);
    case Text(_) =>
    case Click(_, _) =>
      var move, press := [t[0]], t[1..];
      assert t == move + press && move[1..] == [];
      TraceOkParts(move, press);
      HeldConcat(none, move, press);
      if press != [] {
        BracketHoldsNothing(none, press, [LeftButton]);
      }
    case Scroll(_) => WheelHoldsNothing(none, t);
  }

  /** A request is refused as a whole or executed: nothing is tried before all of it is valid. */
  method Act(sink: NativeSink, request: Request, resolve: Resolver)
    returns (r: Result, refusal: Option<string>, ghost t: Trace, ghost typed: string)
    requires sink.Valid()
    modifies sink
    ensures sink.Valid() && sink.log == old(sink.log) + t && sink.typed == old(sink.typed) + typed
    ensures TraceOk(t) && Held({}, t) == {}
    ensures
      var prepared := Prepare(request, resolve);
      match prepared
      case Refusal(error) => t == [] && typed == "" && r == Err(error) && sink.asked == old(sink.asked)
      case Ready(action) =>
        && Granted(sink, old(sink.asked), action, t, typed, refusal)
        && Reported(t, typed, r, refusal)
        && ((r.Err? && t == [] && typed == "") || Executed(action, t, typed, r))
  {
    t, typed, refusal := [], "", None;
    var prepared := Prepare(request, resolve);
    match prepared {
      case Refusal(error) =>
        r := Err(error);
      case Ready(action) =>
        r, refusal, t, typed := Execute(sink, action);
        TraceOkParts(old(sink.log), t);
        if Executed(action, t, typed, r) {
          NothingStaysHeld(action, t, typed, r);
        }
    }
  }

  /** A malformed token anywhere in a key sequence refuses the request. */
  lemma MalformedTokenIsRefused(request: Request, resolve: Resolver)
    requires request.op == "key" && request.keys.Some?
    requires exists token :: token in Tokens(request.keys.value) && !IsChord(Parts(token))
    ensures Prepare(request, resolve) == Refusal(REFUSED)
  {
    EveryTokenCounts(Tokens(request.keys.value));
  }
}
