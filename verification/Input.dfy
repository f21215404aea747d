/**
 Input on Windows: chords, text, clicks and the wheel, sent through a sink that a guard may close
 at any moment. The guard and the operating system answer arbitrarily.
 */
module Input {
  import opened Common
  import opened InputTrace

  const MAX_BATCH_EVENTS: nat := 256
  const MAX_TEXT_UNITS: nat := 4096

  const NOTHING_LANDED := "the OS refused the synthetic input and NOTHING landed"
  const PARTIALLY_LANDED := "the OS accepted only some events"
  const NOT_RELEASED := "a key or button could not be released"
  const NOT_POSITIONED := "could not position the cursor"
  const TEXT_TOO_LONG := "refusing to type so many UTF-16 units in one action"

  ghost predicate LastRefusal(t: Trace, refusal: Option<string>) {
    match refusal
    case None => forall c :: c in t ==> c.reply.Taken?
    case Some(error) =>
      exists i ::
        && 0 <= i < |t| && t[i].reply == Refused(error)
        && forall j :: i < j < |t| ==> t[j].reply.Taken?
  }

  /** The state the guarded sink and mover share. */
  class Session {
    const guard: Guard
    var log: Trace
    var refusal: Option<string>
    var effected: bool

    ghost predicate Valid()
      reads this
    {
      && TraceOk(log) && LastRefusal(log, refusal) && (effected <==> Effected(log))
      && Governed(log, guard)
    }

    constructor (guard: Guard)
      ensures Valid() && log == [] && this.guard == guard
    {
      this.guard := guard;
      log, refusal, effected := [], None, false;
    }

    /** Notes a call, with what it means for the two flags. */
    method Note(c: Call)
      requires Valid() && CallOk(c) && Answered(c, guard(log))
      modifies this
      ensures Valid() && log == old(log) + [c]
    {
      ghost var n := |log|;
      GovernedAppend(log, c, guard);
      log := log + [c];
      if c.reply.Refused? {
        refusal := Some(c.reply.error);
        assert log[n].reply == Refused(c.reply.error);
      } else if IsNew(c) && Sent(c) > 0 {
        effected := true;
        assert c in log;
      }
      assert forall d :: d in log <==> d in old(log) || d == c;
      if c.reply.Taken? && refusal.Some? {
        ghost var i :| 0 <= i < n && old(log)[i].reply == Refused(refusal.value)
          && forall j :: i < j < n ==> old(log)[j].reply.Taken?;
        assert log[i].reply == Refused(refusal.value);
      }
    }

    /** New effects need the guard's consent; releases do not. */
    method Sink(events: seq<Event>) returns (sent: nat)
      requires Valid()
      modifies this
      ensures Valid() && log != []
      ensures
        var c := log[|log| - 1];
        log == old(log) + [c] && c.Send? && c.events == events && sent == Sent(c) <= |events|
      ensures Answered(log[|log| - 1], guard(old(log)))
    {
      var newEffect := exists e :: e in events && !e.Up?;
      if newEffect {
        var refused := guard(log);
        if refused.Some? {
          Note(Send(events, Refused(refused.value)));
          return 0;
        }
      }
      var taken: int := *;
      sent := if 0 <= taken <= |events| then taken else |events|;
      Note(Send(events, Taken(sent)));
    }

    method Mover() returns (r: Result)
      requires Valid()
      modifies this
      ensures Valid() && log != []
      ensures
        var c := log[|log| - 1];
        log == old(log) + [c] && c.Move? && (r.Ok? <==> Accepted(c))
      ensures Answered(log[|log| - 1], guard(old(log)))
      ensures guard(old(log)).Some? ==> r == Err(guard(old(log)).value)
    {
      var refused := guard(log);
      if refused.Some? {
        Note(Move(Refused(refused.value)));
        return Err(refused.value);
      }
      var moved: bool := *;
      Note(Move(Taken(if moved then 1 else 0)));
      r := if moved then Ok else Err(NOT_POSITIONED);
    }

    method SendBatch(events: seq<Event>) returns (r: Result, sent: nat)
      requires Valid() && events != []
      modifies this
      ensures Valid() && log != []
      ensures
        var c := log[|log| - 1];
        && log == old(log) + [c] && c.Send? && c.events == events
        && sent == Sent(c) <= |events| && (r.Ok? <==> Accepted(c))
    {
      sent := Sink(events);
      r := if sent == |events| then Ok else if sent == 0 then Err(NOTHING_LANDED) else Err(PARTIALLY_LANDED);
    }
  }

  /** Releases, newest first, of presses registered before they were sent. */
  class ReleaseGuard {
    const session: Session
    var pending: seq<Control>

    constructor (session: Session)
      ensures this.session == session && pending == []
    {
      this.session := session;
      pending := [];
    }

    method Press(control: Control) returns (r: Result)
      requires session.Valid()
      modifies this, session
      ensures session.Valid() && pending == old(pending) + [control]
      ensures
        && |session.log| == |old(session.log)| + 1 && old(session.log) < session.log
        && IsPress(session.log[|session.log| - 1], control)
        && (r.Ok? <==> Accepted(session.log[|session.log| - 1]))
    {
      pending := pending + [control];
      var sent: nat;
      r, sent := session.SendBatch([Down(control)]);
    }

    /** Presses the keys in order, up to the first that is not accepted. */
    method PressAll(keys: seq<Control>) returns (r: Result, ghost presses: Trace)
      requires session.Valid() && pending == []
      modifies this, session
      ensures session.Valid() && session.log == old(session.log) + presses
      ensures |presses| <= |keys| && pending == keys[..|presses|] && Pressed(presses, keys, r.Ok?)
      ensures |presses| < |keys| ==> presses != [] && !Accepted(presses[|presses| - 1])
    {
      r, presses := Ok, [];
      var i := 0;
      while i < |keys| && r.Ok?
        invariant session.Valid() && session.log == old(session.log) + presses
        invariant 0 <= i <= |keys| && pending == keys[..i] && |presses| == i
        invariant Pressed(presses, keys[..i], r.Ok?)
      {
        r := Press(keys[i]);
        presses := presses + [session.log[|session.log| - 1]];
        i := i + 1;
      }
      PressedPart(presses, keys, i, r.Ok?);
    }

    /** Tries every release, even after one failed, and reports the first failure. */
    method Drain() returns (r: Result, ghost releases: Trace)
      requires session.Valid()
      modifies this, session
      ensures session.Valid() && pending == []
      ensures session.log == old(session.log) + releases && |releases| == |old(pending)|
      ensures forall k :: 0 <= k < |releases| ==> IsRelease(releases[|releases| - 1 - k], old(pending)[k])
      ensures r.Ok? <==> Clean(releases)
    {
      r, releases := Ok, [];
      while pending != []
        invariant session.Valid() && pending <= old(pending)
        invariant session.log == old(session.log) + releases
        invariant |releases| + |pending| == |old(pending)|
        invariant forall k :: 0 <= k < |releases| ==>
          IsRelease(releases[k], old(pending)[|old(pending)| - 1 - k])
        invariant r.Ok? <==> Clean(releases)
        decreases |pending|
      {
        var last := pending[|pending| - 1];
        pending := pending[..|pending| - 1];
        var released, sent := session.SendBatch([Up(last)]);
        ghost var c := session.log[|session.log| - 1];
        CleanConcat(releases, [c]);
        assert Clean([c]) <==> Accepted(c);
        releases := releases + [c];
        if r.Ok? && released.Err? {
          r := Err(NOT_RELEASED);
        }
      }
    }
  }

  /** A chord that failed: the press that was not accepted is the last one tried. */
  ghost predicate Failed(t: Trace, keys: seq<Control>) {
    CutOff(t, keys) && (|t| / 2 < |keys| ==> t != [] && !Accepted(t[|t| / 2 - 1]))
  }

  /** One chord: its presses, and whatever happens the releases of those that were tried. */
  method SendChord(session: Session, keys: seq<Control>) returns (r: Result, ghost t: Trace)
    requires session.Valid()
    modifies session
    ensures session.Valid() && session.log == old(session.log) + t
    ensures if r.Ok? then Bracket(t, keys) && Clean(t) else Failed(t, keys)
  {
    var guard := new ReleaseGuard(session);
    ghost var presses: Trace;
    r, presses := guard.PressAll(keys);
    ghost var pressed := r.Ok?;
    ghost var releases: Trace;
    var released;
    released, releases := guard.Drain();
    WholeChord(presses, releases, keys, pressed);
    t := presses + releases;
    if r.Ok? {
      r := released;
    }
  }

  lemma WholeChord(presses: Trace, releases: Trace, keys: seq<Control>, ok: bool)
    requires Pressed(presses, keys, ok) && |releases| == |presses|
    requires |presses| < |keys| ==> presses != [] && !Accepted(presses[|presses| - 1])
    requires forall k :: 0 <= k < |releases| ==> IsRelease(releases[|releases| - 1 - k], keys[k])
    ensures
      var t := presses + releases;
      if ok && Clean(releases) then Bracket(t, keys) && Clean(t) else Failed(t, keys)
  {
    ReleasedChord(presses, releases, keys, ok);
    var t := presses + releases;
    assert presses != [] ==> t[|t| / 2 - 1] == presses[|presses| - 1];
  }

  /** The next chord, after `parts`. */
  method SendNext(session: Session, chords: seq<seq<Control>>, i: nat, ghost parts: seq<Trace>)
    returns (r: Result, ghost more: seq<Trace>)
    requires session.Valid() && Completed(parts, chords) && |parts| == i < |chords|
    modifies session
    ensures session.Valid() && |more| == i + 1
    ensures exists t :: session.log == old(session.log) + t && Flat(more) == Flat(parts) + t
    ensures
      if r.Ok? then Completed(more, chords) else ChordRun(more, chords, false) && Failed(more[i], chords[i])
  {
    ghost var t: Trace;
    r, t := SendChord(session, chords[i]);
    more := parts + [t];
    FlatAppend(parts, t);
    if r.Err? {
      CutChord(parts, t, chords);
    } else {
      OneMoreChord(parts, t, chords);
    }
  }

  /** Chord after chord, up to the first that fails. */
  method SendChords(session: Session, chords: seq<seq<Control>>)
    returns (r: Result, ghost parts: seq<Trace>)
    requires session.Valid()
    modifies session
    ensures session.Valid() && session.log == old(session.log) + Flat(parts)
    ensures ChordRun(parts, chords, r.Ok?)
    ensures r.Err? ==> Failed(parts[|parts| - 1], chords[|parts| - 1])
  {
    parts := [];
    for i := 0 to |chords|
      invariant session.Valid() && session.log == old(session.log) + Flat(parts)
      invariant |parts| == i && Completed(parts, chords)
    {
      r, parts := SendNext(session, chords, i, parts);
      if r.Err? {
        return;
      }
    }
    AllChords(parts, chords);
    r := Ok;
  }

  // Text.

  /** A press and a release for each UTF-16 unit. */
  function Typing(units: seq<nat>): seq<Event> {
    seq(2 * |units|, i requires 0 <= i < 2 * |units| =>
      if i % 2 == 0 then Down(Unit(units[i / 2])) else Up(Unit(units[i / 2])))
  }

  function Batch(events: seq<Event>, k: nat): seq<Event> {
    var n := |events|;
    events[Min(MAX_BATCH_EVENTS * k, n)..Min(MAX_BATCH_EVENTS * (k + 1), n)]
  }

  /** The first `k` batches were sent and accepted. */
  ghost predicate Typed(events: seq<Event>, t: Trace, k: nat) {
    && k <= |t|
    && forall i: nat :: i < k ==>
         t[i].Send? && t[i].events == Batch(events, i) && t[i].events != [] && Accepted(t[i])
  }

  /** Batch `k` was cut short; the release of a stranded press was tried right after. */
  ghost predicate CutShort(events: seq<Event>, t: Trace, k: nat) {
    && Typed(events, t, k) && k < |t|
    && t[k].Send? && t[k].events == Batch(events, k) && t[k].events != []
    && Sent(t[k]) < |t[k].events|
    && (if Sent(t[k]) % 2 == 1
        then |t| == k + 2 && t[k + 1].Send? && t[k + 1].events == [t[k].events[Sent(t[k])]]
        else |t| == k + 1)
  }

  /** A press left over at the end of what was accepted is released on its own. */
  method ReleaseStranded(session: Session, batch: seq<Event>, sent: nat) returns (ghost t: Trace)
    requires session.Valid() && sent < |batch|
    modifies session
    ensures session.Valid() && session.log == old(session.log) + t
    ensures if sent % 2 == 1 then |t| == 1 && t[0].Send? && t[0].events == [batch[sent]] else t == []
  {
    t := [];
    if sent % 2 == 1 {
      var released, n := session.SendBatch(batch[sent..sent + 1]);
      t := [session.log[|session.log| - 1]];
    }
  }

  lemma BatchAt(events: seq<Event>, k: nat, at: nat, end: nat)
    requires at == Min(MAX_BATCH_EVENTS * k, |events|) && at < |events|
    requires end == if at + MAX_BATCH_EVENTS < |events| then at + MAX_BATCH_EVENTS else |events|
    ensures events[at..end] == Batch(events, k) && Batch(events, k) != []
    ensures end == Min(MAX_BATCH_EVENTS * (k + 1), |events|)
  {
  }

  lemma TypedMore(events: seq<Event>, t: Trace, k: nat, c: Call)
    requires Typed(events, t, k) && |t| == k
    requires c.Send? && c.events == Batch(events, k) && c.events != [] && Accepted(c)
    ensures Typed(events, t + [c], k + 1)
  {
  }

  lemma CutMore(events: seq<Event>, t: Trace, k: nat, c: Call, release: Trace)
    requires Typed(events, t, k) && |t| == k
    requires c.Send? && c.events == Batch(events, k) && c.events != [] && Sent(c) < |c.events|
    requires
      if Sent(c) % 2 == 1 then |release| == 1 && release[0].Send? && release[0].events == [c.events[Sent(c)]]
      else release == []
    ensures CutShort(events, t + [c] + release, k)
  {
  }

  /** Batch after batch, up to the first that is not accepted whole. */
  method SendBatches(session: Session, events: seq<Event>)
    returns (r: Result, ghost t: Trace, ghost k: nat)
    requires session.Valid()
    modifies session
    ensures session.Valid() && session.log == old(session.log) + t
    ensures
      if r.Ok? then Typed(events, t, k) && |t| == k && |events| <= MAX_BATCH_EVENTS * k
      else CutShort(events, t, k)
  {
    t, k := [], 0;
    var at := 0;
    while at < |events|
      invariant session.Valid() && session.log == old(session.log) + t
      invariant at == Min(MAX_BATCH_EVENTS * k, |events|) && |t| == k && Typed(events, t, k)
      decreases |events| - at
    {
      var end := if at + MAX_BATCH_EVENTS < |events| then at + MAX_BATCH_EVENTS else |events|;
      var batch := events[at..end];
      BatchAt(events, k, at, end);
      var sent: nat;
      r, sent := session.SendBatch(batch);
      ghost var before, c := t, session.log[|session.log| - 1];
      t := t + [c];
      if r.Err? {
        ghost var release := ReleaseStranded(session, batch, sent);
        CutMore(events, before, k, c, release);
        t := t + release;
        return;
      }
      TypedMore(events, before, k, c);
      at, k := end, k + 1;
    }
    r := Ok;
  }

  method SendText(session: Session, units: seq<nat>) returns (r: Result, ghost t: Trace, ghost k: nat)
    requires session.Valid()
    modifies session
    ensures session.Valid() && session.log == old(session.log) + t
    ensures |units| > MAX_TEXT_UNITS ==> r == Err(TEXT_TOO_LONG) && t == []
    ensures |units| <= MAX_TEXT_UNITS ==>
      var events := Typing(units);
      if r.Ok? then Typed(events, t, k) && |t| == k && |events| <= MAX_BATCH_EVENTS * k
      else CutShort(events, t, k)
  {
    if |units| > MAX_TEXT_UNITS {
      return Err(TEXT_TOO_LONG), [], 0;
    }
    var events: seq<Event> := [];
    for i := 0 to |units|
      invariant events == Typing(units)[..2 * i]
    {
      events := events + [Down(Unit(units[i])), Up(Unit(units[i]))];
    }
    assert events == Typing(units);
    r, t, k := SendBatches(session, events);
  }

  /** Accepted batches are the events in order. */
  lemma {:induction false} AcceptedBatches(events: seq<Event>, t: Trace, i: nat, k: nat)
    requires Typed(events, t, k) && i <= k && TraceOk(t[i..k])
    ensures AcceptedEvents(t[i..k]) ==
      events[Min(MAX_BATCH_EVENTS * i, |events|)..Min(MAX_BATCH_EVENTS * k, |events|)]
    decreases k - i
  {
    if i < k {
      var rest := t[i..k];
      assert rest[1..] == t[i + 1..k] && rest[0] == t[i];
      AcceptedBatches(events, t, i + 1, k);
      assert rest[0].events[..Sent(rest[0])] == Batch(events, i);
    }
  }

  /** A prefix of the typing events holds at most the unit it ends in the middle of. */
  lemma {:induction false} HeldOfPrefix(units: seq<nat>, j: nat)
    requires j <= 2 * |units|
    ensures HeldAfter({}, Typing(units)[..j]) == if j % 2 == 0 then {} else {Unit(units[j / 2])}
    decreases j
  {
    var events := Typing(units);
    if j > 0 {
      HeldOfPrefix(units, j - 1);
      assert events[..j] == events[..j - 1] + [events[j - 1]];
      HeldAfterConcat({}, events[..j - 1], [events[j - 1]]);
      assert [events[j - 1]][1..] == [];
    }
  }

  lemma BatchIsPaired(units: seq<nat>, k: nat)
    requires Batch(Typing(units), k) != []
    ensures |Batch(Typing(units), k)| != 1
  {
  }

  lemma TypedIsPaired(units: seq<nat>, t: Trace, k: nat)
    requires Typed(Typing(units), t, k)
    ensures NoLoneEvent(t[..k])
  {
    forall c | c in t[..k] ensures c.Send? && |c.events| != 1 {
      var i :| 0 <= i < k && t[i] == c;
      BatchIsPaired(units, i);
    }
  }

  lemma TypedIsClean(events: seq<Event>, t: Trace, k: nat)
    requires Typed(events, t, k)
    ensures Clean(t[..k])
  {
    forall c | c in t[..k] ensures Accepted(c) {
      var i :| 0 <= i < k && t[i] == c;
    }
  }

  lemma AllAccepted(events: seq<Event>, t: Trace, k: nat)
    requires TraceOk(t) && Typed(events, t, k) && |t| == k && |events| <= MAX_BATCH_EVENTS * k
    ensures AcceptedEvents(t) == events
  {
    assert t[0..k] == t;
    AcceptedBatches(events, t, 0, k);
    assert events[0..|events|] == events;
  }

  lemma PairsHoldNothing(units: seq<nat>, t: Trace)
    requires TraceOk(t) && NoLoneEvent(t) && AcceptedEvents(t) == Typing(units)
    ensures Held({}, t) == {}
  {
    HeldIsAccepted({}, t);
    HeldOfPrefix(units, 2 * |units|);
    assert Typing(units)[..2 * |units|] == Typing(units);
  }

  /** Text that was accepted is exactly the presses and releases of its units, and nothing stays down. */
  lemma TextIsTyped(units: seq<nat>, t: Trace, k: nat)
    requires TraceOk(t) && Typed(Typing(units), t, k) && |t| == k
    requires |Typing(units)| <= MAX_BATCH_EVENTS * k
    ensures AcceptedEvents(t) == Typing(units) && Held({}, t) == {} && Clean(t)
  {
    WholeTrace(t, k);
    AllAccepted(Typing(units), t, k);
    TypedIsPaired(units, t, k);
    TypedIsClean(Typing(units), t, k);
    PairsHoldNothing(units, t);
  }

  lemma CutAccepted(events: seq<Event>, t: Trace, k: nat)
    requires TraceOk(t) && CutShort(events, t, k)
    ensures TraceOk(t[..k + 1])
    ensures
      var n := MAX_BATCH_EVENTS * k + Sent(t[k]);
      n < |events| && AcceptedEvents(t[..k + 1]) == events[..n]
  {
    assert forall c :: c in t[..k + 1] ==> c in t;
    var head, last := t[..k], [t[k]];
    assert t[..k + 1] == head + last && t[0..k] == head;
    TraceOkParts(head, last);
    AcceptedBatches(events, t, 0, k);
    AcceptedConcat(head, last);
    assert last[1..] == [] && AcceptedEvents(last) == t[k].events[..Sent(t[k])];
  }

  /**
   Text that was refused somewhere: a prefix of its events was accepted, and if it ends in a press
   the release of that very unit is the next and last call.
   */
  lemma TextCutShort(units: seq<nat>, t: Trace, k: nat)
    requires TraceOk(t) && CutShort(Typing(units), t, k)
    ensures TraceOk(t[..k + 1])
    ensures
      var n := MAX_BATCH_EVENTS * k + Sent(t[k]);
      && n < |Typing(units)| && AcceptedEvents(t[..k + 1]) == Typing(units)[..n]
      && (if n % 2 == 1 then |t| == k + 2 && IsRelease(t[k + 1], Unit(units[n / 2])) else |t| == k + 1)
  {
    CutAccepted(Typing(units), t, k);
    var n := MAX_BATCH_EVENTS * k + Sent(t[k]);
    if n % 2 == 1 {
      StrandedUnit(units, k, Sent(t[k]));
    }
  }

  /** What the cut text left down is released by the call after it. */
  lemma CutTextHoldsNothing(units: seq<nat>, t: Trace, k: nat, n: nat)
    requires TraceOk(t) && CutShort(Typing(units), t, k) && n == MAX_BATCH_EVENTS * k + Sent(t[k])
    ensures Held({}, t) == {}
  {
    TextCutShort(units, t, k);
    CutHolds(units, t, k, n);
    if n % 2 == 1 {
      StrandedIsReleased(t, k + 1, Unit(units[n / 2]));
    } else {
      WholeTrace(t, k + 1);
    }
  }

  lemma WholeTrace(t: Trace, n: nat)
    requires |t| == n
    ensures t[..n] == t
  {
  }

  lemma StrandedIsReleased(t: Trace, n: nat, control: Control)
    requires |t| == n + 1 && TraceOk(t) && TraceOk(t[..n])
    requires IsRelease(t[n], control) && Held({}, t[..n]) == {control}
    ensures Held({}, t) == {}
  {
    var sent, release := t[..n], t[n];
    assert t == sent + [release] && release in t;
    HeldOfOne({control}, release);
    HeldConcat({}, sent, [release]);
  }

  /** At an odd place of a batch is the release of a unit. */
  lemma StrandedUnit(units: seq<nat>, k: nat, sent: nat)
    requires sent < |Batch(Typing(units), k)| && sent % 2 == 1
    ensures
      var n := MAX_BATCH_EVENTS * k + sent;
      n / 2 < |units| && Batch(Typing(units), k)[sent] == Up(Unit(units[n / 2]))
  {
    assert Typing(units)[MAX_BATCH_EVENTS * k + sent] == Batch(Typing(units), k)[sent];
  }

  lemma CutHolds(units: seq<nat>, t: Trace, k: nat, n: nat)
    requires TraceOk(t) && CutShort(Typing(units), t, k) && TraceOk(t[..k + 1])
    requires n < |Typing(units)| && AcceptedEvents(t[..k + 1]) == Typing(units)[..n]
    ensures Held({}, t[..k + 1]) == if n % 2 == 0 then {} else {Unit(units[n / 2])}
  {
    TypedIsPaired(units, t, k);
    BatchIsPaired(units, k);
    assert t[..k + 1] == t[..k] + [t[k]];
    HeldIsAccepted({}, t[..k + 1]);
    HeldOfPrefix(units, n);
  }

  /** Only the batch that was cut short can have been refused; a release may follow it. */
  lemma CutShortIsQuiet(events: seq<Event>, t: Trace, k: nat)
    requires CutShort(events, t, k) && TraceOk(t)
    ensures Quiet(t)
  {
    assert forall i :: 0 <= i < k ==> Accepted(t[i]);
    assert Sent(t[k]) % 2 == 1 ==> t[k].reply.Taken?;
  }

  // Clicks, the wheel, and the guarded run of any action.

  ghost predicate ClickRun(t: Trace, ok: bool) {
    && t != [] && t[0].Move?
    && (if !Accepted(t[0]) then |t| == 1 && !ok
        else if ok then Bracket(t[1..], [LeftButton]) && Clean(t[1..])
        else Failed(t[1..], [LeftButton]))
  }

  method ClickAt(session: Session) returns (r: Result, ghost t: Trace)
    requires session.Valid()
    modifies session
    ensures session.Valid() && session.log == old(session.log) + t
    ensures ClickRun(t, r.Ok?)
  {
    r := session.Mover();
    t := [session.log[|session.log| - 1]];
    if r.Ok? {
      ghost var press: Trace;
      r, press := SendChord(session, [LeftButton]);
      t := t + press;
      assert t[1..] == press;
    }
  }

  ghost predicate ScrollRun(delta: int, t: Trace, ok: bool) {
    |t| == 1 && t[0].Send? && t[0].events == [Wheel(delta)] && (ok <==> Accepted(t[0]))
  }

  datatype Action =
    | Chords(chords: seq<seq<Control>>)  // modifiers, then the main key
    | Text(units: seq<nat>)
    | Click
    | Scroll(delta: int)

  /** The calls an action may make, and whether it succeeds with them. */
  ghost predicate RunOf(action: Action, t: Trace, ok: bool) {
    match action
    case Chords(chords) => exists parts :: ChordRun(parts, chords, ok) && t == Flat(parts)
    case Text(units) => TextRun(units, t, ok)
    case Click => ClickRun(t, ok)
    case Scroll(delta) => ScrollRun(delta, t, ok)
  }

  ghost predicate TextRun(units: seq<nat>, t: Trace, ok: bool) {
    if |units| > MAX_TEXT_UNITS then t == [] && !ok
    else
      exists k: nat ::
        if ok then Typed(Typing(units), t, k) && |t| == k && |Typing(units)| <= MAX_BATCH_EVENTS * k
        else CutShort(Typing(units), t, k)
  }

  method Perform(session: Session, action: Action) returns (r: Result, ghost t: Trace)
    requires session.Valid()
    modifies session
    ensures session.Valid() && session.log == old(session.log) + t
    ensures RunOf(action, t, r.Ok?)
  {
    match action {
      case Chords(chords) =>
        ghost var parts: seq<Trace>;
        r, parts := SendChords(session, chords);
        t := Flat(parts);
      case Text(units) =>
        ghost var k: nat;
        r, t, k := SendText(session, units);
      case Click =>
        r, t := ClickAt(session);
      case Scroll(delta) =>
        var sent: nat;
        r, sent := session.SendBatch([Wheel(delta)]);
        t := [session.log[|session.log| - 1]];
    }
  }

  /** Whatever the OS and the guard answer: nothing new after a refusal, and nothing left held. */
  lemma AnyRunIsSafe(action: Action, t: Trace, ok: bool)
    requires RunOf(action, t, ok) && TraceOk(t)
    ensures Quiet(t) && Held({}, t) == {}
    ensures ok ==> Clean(t)
  {
    match action
    case Chords(chords) =>
      var parts :| ChordRun(parts, chords, ok) && t == Flat(parts);
      ChordRunIsSafe({}, parts, chords, ok);
    case Text(units) => TextIsSafe(units, t, ok);
    case Click => ClickIsSafe(t, ok);
    case Scroll(delta) => ScrollIsSafe(delta, t, ok);
  }

  lemma TextIsSafe(units: seq<nat>, t: Trace, ok: bool)
    requires TextRun(units, t, ok) && TraceOk(t)
    ensures Quiet(t) && Held({}, t) == {}
    ensures ok ==> Clean(t)
  {
    var events := Typing(units);
    if ok {
      var k: nat :| Typed(events, t, k) && |t| == k && |events| <= MAX_BATCH_EVENTS * k;
      TextIsTyped(units, t, k);
      CleanIsQuiet(t);
    } else if |units| <= MAX_TEXT_UNITS {
      var k: nat :| CutShort(events, t, k);
      CutTextHoldsNothing(units, t, k, MAX_BATCH_EVENTS * k + Sent(t[k]));
      CutShortIsQuiet(events, t, k);
    }
  }

  lemma ScrollIsSafe(delta: int, t: Trace, ok: bool)
    requires ScrollRun(delta, t, ok) && TraceOk(t)
    ensures Quiet(t) && Held({}, t) == {}
    ensures ok ==> Clean(t)
  {
    WheelHoldsNothing({}, t);
  }

  lemma ClickIsSafe(t: Trace, ok: bool)
    requires ClickRun(t, ok) && TraceOk(t)
    ensures Quiet(t) && Held({}, t) == {}
    ensures ok ==> Clean(t)
  {
    var move, press := [t[0]], t[1..];
    assert t == move + press && move[1..] == [];
    TraceOkParts(move, press);
    HeldConcat({}, move, press);
    CleanConcat(move, press);
    if Accepted(t[0]) {
      var keys := [LeftButton][..|press| / 2];
      assert Bracket(press, keys);
      BracketHoldsNothing({}, press, keys);
      if ok {
        CleanIsQuiet(press);
      } else {
        CutOffIsQuiet(press, [LeftButton]);
      }
      QuietAfterClean(move, press);
    }
  }

  lemma RefusedIsNotClean(t: Trace, error: string)
    requires LastRefusal(t, Some(error))
    ensures !Clean(t)
  {
    var i :| 0 <= i < |t| && t[i].reply == Refused(error) && forall j :: i < j < |t| ==> t[j].reply.Taken?;
    assert t[i] in t;
  }

  /**
   An action under the guard: every new effect has the guard's consent. The guard's own error comes back only when nothing new was accepted
   and the pointer was not moved; otherwise the outcome is unknown.
   */
  method Guarded(action: Action, guard: Guard)
    returns (r: Result, log: Trace, refusal: Option<string>)
    ensures TraceOk(log) && RunOf(action, log, r.Ok?) && Governed(log, guard)
    ensures Quiet(log) && Held({}, log) == {}
    ensures LastRefusal(log, refusal)
    ensures refusal.Some? ==> r == Err(if Effected(log) then OUTCOME_UNKNOWN else refusal.value)
  {
    var session := new Session(guard);
    ghost var t: Trace;
    r, t := Perform(session, action);
    log, refusal := session.log, session.refusal;
    assert log == [] + t == t;
    AnyRunIsSafe(action, log, r.Ok?);
    if refusal.Some? {
      RefusedIsNotClean(log, refusal.value);
      r := Err(if session.effected then OUTCOME_UNKNOWN else refusal.value);
    }
  }
}
