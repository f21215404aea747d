/**
 What reaches the operating system when input is synthesised: presses and releases, in batches of
 which it may accept any prefix, and what such a trace leaves held.
 */
module InputTrace {
  import opened Common

  datatype Control = Key(code: nat, extended: bool) | Unit(unit: nat) | LeftButton

  datatype Event = Down(control: Control) | Up(control: Control) | Wheel(delta: int)

  /** A guard may refuse a call; otherwise some number of its events is accepted. */
  datatype Reply = Refused(error: string) | Taken(count: nat)

  datatype Call = Send(events: seq<Event>, reply: Reply) | Move(reply: Reply)

  type Trace = seq<Call>

  datatype Result = Ok | Err(error: string) {
    predicate IsFailure() {
      Err?
    }

    function PropagateFailure(): Result {
      this
    }
  }

  const OUTCOME_UNKNOWN := "DESKTOP_OUTCOME_UNKNOWN"

  /** Anything but the release of an input is a new effect. */
  predicate IsNew(c: Call) {
    c.Move? || exists e :: e in c.events && !e.Up?
  }

  predicate Accepted(c: Call) {
    c.reply == Taken(if c.Move? then 1 else |c.events|)
  }

  function Sent(c: Call): nat {
    if c.reply.Taken? then c.reply.count else 0
  }

  /** The OS never takes more than it is given, and releases are never refused by the guard. */
  predicate CallOk(c: Call) {
    && Sent(c) <= (if c.Move? then 1 else |c.events|)
    && (c.reply.Refused? ==> IsNew(c))
  }

  predicate TraceOk(t: Trace) {
    forall c :: c in t ==> CallOk(c)
  }

  /** After a refusal nothing but releases is tried. */
  ghost predicate Quiet(t: Trace) {
    forall i, j :: 0 <= i < j < |t| && t[i].reply.Refused? ==> !IsNew(t[j])
  }

  /** The guard's answers to a new effect, given what was tried before: its refusal, or none. */
  type Guard = Trace -> Option<string>

  /** A new effect goes to the OS exactly when the guard consents to it. */
  predicate Answered(c: Call, answer: Option<string>) {
    IsNew(c) ==> match answer
      case None => c.reply.Taken?
      case Some(error) => c.reply == Refused(error)
  }

  /** Every new effect had the answer the guard gave right before it. */
  ghost predicate Governed(t: Trace, guard: Guard) {
    forall i {:trigger t[..i]} :: 0 <= i < |t| ==> Answered(t[i], guard(t[..i]))
  }

  lemma GovernedAppend(t: Trace, c: Call, guard: Guard)
    requires Governed(t, guard) && Answered(c, guard(t))
    ensures Governed(t + [c], guard)
  {
    var more := t + [c];
    forall i {:trigger more[..i]} | 0 <= i < |more| ensures Answered(more[i], guard(more[..i])) {
      assert more[..i] == t[..i];
      assert i == |t| ==> t[..i] == t;
    }
  }

  ghost predicate Effected(t: Trace) {
    exists c :: c in t && IsNew(c) && Sent(c) > 0
  }

  function HeldAfterOne(held: set<Control>, e: Event): set<Control> {
    match e
    case Down(control) => held + {control}
    case Up(control) => held - {control}
    case Wheel(_) => held
  }

  /** The inputs held after some events, as far as the OS took them. */
  function HeldAfter(held: set<Control>, events: seq<Event>): set<Control>
    decreases |events|
  {
    if events == [] then held else HeldAfter(HeldAfterOne(held, events[0]), events[1..])
  }

  /** The events of a call that count: what was accepted, and a release tried on its own. */
  function Effective(c: Call): seq<Event>
    requires CallOk(c)
  {
    if c.Move? then []
    else if |c.events| == 1 && c.events[0].Up? then c.events
    else c.events[..Sent(c)]
  }

  /** What is down at the end of a trace without a release having been tried after it. */
  function Held(held: set<Control>, t: Trace): set<Control>
    requires TraceOk(t)
    decreases |t|
  {
    if t == [] then held else Held(HeldAfter(held, Effective(t[0])), t[1..])
  }

  lemma {:induction false} HeldConcat(held: set<Control>, a: Trace, b: Trace)
    requires TraceOk(a) && TraceOk(b)
    ensures TraceOk(a + b) && Held(held, a + b) == Held(Held(held, a), b)
    decreases |a|
  {
    if a == [] {
      assert a + b == b;
    } else {
      assert (a + b)[1..] == a[1..] + b;
      HeldConcat(HeldAfter(held, Effective(a[0])), a[1..], b);
    }
  }

  lemma WheelHoldsNothing(held: set<Control>, t: Trace)
    requires TraceOk(t) && |t| == 1 && t[0].Send? && |t[0].events| == 1 && t[0].events[0].Wheel?
    ensures Held(held, t) == held
  {
    assert t[0] in t && t[1..] == [];
    var events := Effective(t[0]);
    if events != [] {
      assert events[0] == t[0].events[0] && events[1..] == [];
      assert HeldAfterOne(held, events[0]) == held;
    }
    assert HeldAfter(held, events) == held;
  }

  // Bracketed presses.

  predicate IsPress(c: Call, control: Control) {
    c.Send? && c.events == [Down(control)]
  }

  predicate IsRelease(c: Call, control: Control) {
    c.Send? && c.events == [Up(control)]
  }

  /** Each of `keys` is pressed once, in order, and released once, in reverse order. */
  ghost predicate Bracket(t: Trace, keys: seq<Control>) {
    && |t| == 2 * |keys|
    && forall i :: 0 <= i < |keys| ==>
         IsPress(t[i], keys[i]) && IsRelease(t[|t| - 1 - i], keys[i])
  }

  ghost predicate Clean(t: Trace) {
    forall c :: c in t ==> Accepted(c)
  }

  /** A chord cut off after `|t| / 2` tried presses: all of them are released. */
  ghost predicate CutOff(t: Trace, keys: seq<Control>) {
    var m := |t| / 2;
    && m <= |keys| && Bracket(t, keys[..m])
    && (forall i :: 0 <= i < m - 1 ==> Accepted(t[i]))
    && (m == |keys| ==> !Clean(t))
  }

  lemma BracketInside(t: Trace, keys: seq<Control>)
    requires Bracket(t, keys) && keys != []
    ensures t == [t[0]] + t[1..|t| - 1] + [t[|t| - 1]]
    ensures Bracket(t[1..|t| - 1], keys[1..])
  {
    var n, inner, rest := |t|, t[1..|t| - 1], keys[1..];
    forall i | 0 <= i < |rest|
      ensures IsPress(inner[i], rest[i]) && IsRelease(inner[|inner| - 1 - i], rest[i])
    {
      assert rest[i] == keys[i + 1];
      assert inner[i] == t[i + 1] && inner[|inner| - 1 - i] == t[n - 1 - (i + 1)];
    }
  }

  /** A bracket leaves nothing held, whatever the OS refused. */
  lemma {:induction false} BracketHoldsNothing(held: set<Control>, t: Trace, keys: seq<Control>)
    requires TraceOk(t) && Bracket(t, keys)
    ensures Held(held, t) <= held
    decreases |keys|
  {
    if keys != [] {
      BracketInside(t, keys);
      var press, inner, release := t[0], t[1..|t| - 1], t[|t| - 1];
      assert press in t && release in t && forall c :: c in inner ==> c in t;
      HeldOfOne(held, press);
      var first := Held(held, [press]);
      BracketHoldsNothing(first, inner, keys[1..]);
      HeldConcat(held, [press], inner);
      HeldConcat(held, [press] + inner, [release]);
      HeldOfOne(Held(first, inner), release);
      assert IsPress(press, keys[0]) && IsRelease(release, keys[0]);
    }
  }

  lemma HeldOfOne(held: set<Control>, c: Call)
    requires CallOk(c) && c.Send? && |c.events| == 1 && !c.events[0].Wheel?
    ensures TraceOk([c])
    ensures Held(held, [c]) <= held + {c.events[0].control}
    ensures c.events[0].Up? ==> Held(held, [c]) == held - {c.events[0].control}
  {
    var events := Effective(c);
    assert [c][1..] == [] && Held(held, [c]) == HeldAfter(held, events);
    if events != [] {
      assert events[0] == c.events[0] && events[1..] == [];
      assert HeldAfter(held, events) == HeldAfterOne(held, c.events[0]);
    }
  }

  /** Presses followed by the releases of the tried ones in reverse make a bracket. */
  lemma PressesThenReleases(t: Trace, keys: seq<Control>, m: nat)
    requires |t| == 2 * m && m <= |keys|
    requires forall i :: 0 <= i < m ==> IsPress(t[i], keys[i])
    requires forall i :: 0 <= i < m ==> IsRelease(t[|t| - 1 - i], keys[i])
    ensures Bracket(t, keys[..m])
  {
    forall i | 0 <= i < m ensures IsPress(t[i], keys[..m][i]) && IsRelease(t[|t| - 1 - i], keys[..m][i]) {
      assert keys[..m][i] == keys[i];
    }
  }

  /** Only the last press of a cut chord can have been refused. */
  lemma CutOffIsQuiet(t: Trace, keys: seq<Control>)
    requires CutOff(t, keys)
    ensures Quiet(t)
  {
    var m := |t| / 2;
    forall i, j | 0 <= i < j < |t| && t[i].reply.Refused? ensures !IsNew(t[j]) {
      assert i >= m - 1 && j >= m;
      assert IsRelease(t[|t| - 1 - (|t| - 1 - j)], keys[..m][|t| - 1 - j]);
    }
  }

  lemma QuietAfterClean(a: Trace, b: Trace)
    requires Clean(a) && Quiet(b)
    ensures Quiet(a + b)
  {
    assert forall i :: 0 <= i < |a| ==> Accepted(a[i]);
  }

  lemma CleanConcat(a: Trace, b: Trace)
    ensures Clean(a + b) <==> Clean(a) && Clean(b)
  {
    assert forall c :: c in a + b <==> c in a || c in b;
  }

  /** The presses of a chord up to where it stopped; only the last can have failed. */
  ghost predicate Pressed(presses: Trace, keys: seq<Control>, ok: bool) {
    && |presses| <= |keys|
    && (forall k :: 0 <= k < |presses| ==> IsPress(presses[k], keys[k]))
    && (forall k :: 0 <= k < |presses| - 1 ==> Accepted(presses[k]))
    && (ok <==> |presses| == |keys| && (presses != [] ==> Accepted(presses[|presses| - 1])))
  }

  lemma PressedPart(presses: Trace, keys: seq<Control>, i: nat, ok: bool)
    requires i <= |keys| && Pressed(presses, keys[..i], ok)
    ensures Pressed(presses, keys, ok && i == |keys|)
  {
    assert i == |keys| ==> keys[..i] == keys;
    assert forall k :: 0 <= k < |presses| ==> keys[..i][k] == keys[k];
  }

  /** Releasing them in reverse completes the chord or cuts it off. */
  lemma ReleasedChord(presses: Trace, releases: Trace, keys: seq<Control>, ok: bool)
    requires Pressed(presses, keys, ok) && |releases| == |presses|
    requires forall k :: 0 <= k < |releases| ==> IsRelease(releases[|releases| - 1 - k], keys[k])
    ensures
      var t := presses + releases;
      if ok && Clean(releases) then Bracket(t, keys) && Clean(t) else CutOff(t, keys)
  {
    var t, m := presses + releases, |presses|;
    PressesThenReleases(t, keys, m);
    CleanConcat(presses, releases);
    if ok {
      assert keys[..m] == keys;
      assert Clean(presses) by {
        forall c | c in presses ensures Accepted(c) {
        }
      }
    } else if m == |keys| {
      assert !Accepted(presses[m - 1]) && presses[m - 1] in presses;
    }
  }

  // Runs of chords.

  function Flat(parts: seq<Trace>): Trace {
    if parts == [] then [] else Flat(parts[..|parts| - 1]) + parts[|parts| - 1]
  }

  /** Completed chords in order, and when the run failed one chord that was cut off. */
  ghost predicate ChordRun(parts: seq<Trace>, chords: seq<seq<Control>>, ok: bool) {
    && |parts| <= |chords|
    && (if ok then |parts| == |chords| else parts != [])
    && forall i :: 0 <= i < |parts| ==>
         if ok || i < |parts| - 1 then Bracket(parts[i], chords[i]) && Clean(parts[i])
         else CutOff(parts[i], chords[i])
  }

  ghost predicate IsDone(t: Trace, chord: seq<Control>) {
    Bracket(t, chord) && Clean(t)
  }

  /** The first chords were completed, one part each. */
  ghost predicate Completed(parts: seq<Trace>, chords: seq<seq<Control>>) {
    |parts| <= |chords| && forall k :: 0 <= k < |parts| ==> IsDone(parts[k], chords[k])
  }

  lemma FlatAppend(parts: seq<Trace>, t: Trace)
    ensures Flat(parts + [t]) == Flat(parts) + t
  {
    assert (parts + [t])[..|parts|] == parts;
  }

  lemma OneMoreChord(parts: seq<Trace>, t: Trace, chords: seq<seq<Control>>)
    requires Completed(parts, chords) && |parts| < |chords| && IsDone(t, chords[|parts|])
    ensures Completed(parts + [t], chords)
  {
    var more := parts + [t];
    forall k | 0 <= k < |more| ensures IsDone(more[k], chords[k]) {
      assert k < |parts| ==> more[k] == parts[k] && IsDone(parts[k], chords[k]);
    }
  }

  lemma EmptyRun(chords: seq<seq<Control>>)
    ensures Flat([]) == [] && Completed([], chords)
  {
  }

  lemma AllChords(parts: seq<Trace>, chords: seq<seq<Control>>)
    requires Completed(parts, chords) && |parts| == |chords|
    ensures ChordRun(parts, chords, true)
  {
    forall k | 0 <= k < |parts| ensures Bracket(parts[k], chords[k]) && Clean(parts[k]) {
      assert IsDone(parts[k], chords[k]);
    }
  }

  lemma CutChord(parts: seq<Trace>, t: Trace, chords: seq<seq<Control>>)
    requires Completed(parts, chords) && |parts| < |chords| && CutOff(t, chords[|parts|])
    ensures ChordRun(parts + [t], chords, false)
  {
    var more := parts + [t];
    forall k | 0 <= k < |parts| ensures IsDone(more[k], chords[k]) {
      assert more[k] == parts[k] && IsDone(parts[k], chords[k]);
    }
  }

  lemma {:induction false} CompletedIsClean(parts: seq<Trace>)
    requires forall i :: 0 <= i < |parts| ==> Clean(parts[i])
    ensures Clean(Flat(parts))
  {
    if parts != [] {
      var n := |parts| - 1;
      CompletedIsClean(parts[..n]);
      CleanConcat(Flat(parts[..n]), parts[n]);
    }
  }

  /** A run of chords tries nothing new after a refusal and leaves nothing held. */
  lemma ChordRunIsSafe(held: set<Control>, parts: seq<Trace>, chords: seq<seq<Control>>, ok: bool)
    requires ChordRun(parts, chords, ok) && TraceOk(Flat(parts))
    ensures Quiet(Flat(parts)) && Held(held, Flat(parts)) <= held
    ensures ok ==> Clean(Flat(parts))
  {
    if parts == [] {
      return;
    }
    var n := |parts| - 1;
    var init, last := Flat(parts[..n]), parts[n];
    CompletedIsClean(parts[..n]);
    CleanConcat(init, last);
    var keys := if ok then chords[n] else chords[n][..|last| / 2];
    assert Bracket(last, keys);
    if ok {
      CleanIsQuiet(last);
    } else {
      CutOffIsQuiet(last, chords[n]);
    }
    QuietAfterClean(init, last);
    BracketsHoldNothing(held, parts[..n], chords);
    TraceOkParts(init, last);
    HeldConcat(held, init, last);
    BracketHoldsNothing(Held(held, init), last, keys);
  }

  lemma CleanIsQuiet(t: Trace)
    requires Clean(t)
    ensures Quiet(t)
  {
    assert forall i :: 0 <= i < |t| ==> Accepted(t[i]);
  }

  lemma TraceOkParts(a: Trace, b: Trace)
    ensures TraceOk(a + b) <==> TraceOk(a) && TraceOk(b)
  {
    assert forall c :: c in a + b <==> c in a || c in b;
  }

  lemma {:induction false} BracketsHoldNothing(held: set<Control>, parts: seq<Trace>, chords: seq<seq<Control>>)
    requires |parts| <= |chords| && TraceOk(Flat(parts))
    requires forall i :: 0 <= i < |parts| ==> Bracket(parts[i], chords[i])
    ensures Held(held, Flat(parts)) <= held
  {
    if parts != [] {
      var n := |parts| - 1;
      var init, last := Flat(parts[..n]), parts[n];
      TraceOkParts(init, last);
      BracketsHoldNothing(held, parts[..n], chords);
      HeldConcat(held, init, last);
      BracketHoldsNothing(Held(held, init), last, chords[n]);
    }
  }

  // Accepted events.

  function AcceptedEvents(t: Trace): seq<Event>
    requires TraceOk(t)
    decreases |t|
  {
    if t == [] then []
    else
      assert t[0] in t;
      (if t[0].Send? then t[0].events[..Sent(t[0])] else []) + AcceptedEvents(t[1..])
  }

  lemma {:induction false} HeldAfterConcat(held: set<Control>, a: seq<Event>, b: seq<Event>)
    ensures HeldAfter(held, a + b) == HeldAfter(HeldAfter(held, a), b)
    decreases |a|
  {
    if a == [] {
      assert a + b == b;
    } else {
      assert (a + b)[1..] == a[1..] + b;
      HeldAfterConcat(HeldAfterOne(held, a[0]), a[1..], b);
    }
  }

  lemma {:induction false} AcceptedConcat(a: Trace, b: Trace)
    requires TraceOk(a + b) && TraceOk(a) && TraceOk(b)
    ensures AcceptedEvents(a + b) == AcceptedEvents(a) + AcceptedEvents(b)
    decreases |a|
  {
    if a == [] {
      assert a + b == b;
    } else {
      assert (a + b)[1..] == a[1..] + b;
      AcceptedConcat(a[1..], b);
    }
  }

  predicate NoLoneEvent(t: Trace) {
    forall c :: c in t ==> c.Send? && |c.events| != 1
  }

  /** Where no call is a lone event, what is held is what was accepted. */
  lemma {:induction false} HeldIsAccepted(held: set<Control>, t: Trace)
    requires TraceOk(t) && NoLoneEvent(t)
    ensures Held(held, t) == HeldAfter(held, AcceptedEvents(t))
    decreases |t|
  {
    if t != [] {
      assert t[0] in t;
      HeldIsAccepted(HeldAfter(held, Effective(t[0])), t[1..]);
      HeldAfterConcat(held, Effective(t[0]), AcceptedEvents(t[1..]));
    }
  }
}
