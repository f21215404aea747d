/**
 The desktop access companion in GNOME Shell: which callers may act, and which inputs each of
 them holds down. Everything the shell knows about windows and focus is passed in.
 */
module Gnome {
  import opened Common

  const MAX_PEERS: nat := 32
  const MAX_PENDING: nat := 8

  type Owner = string

  datatype Keyval = Keyval(code: int)

  datatype Input = Key(key: Keyval) | Button

  /** What the virtual devices and the input method were told to do. */
  datatype Emitted =
    | Pressed(owner: Owner, input: Input)
    | Released(owner: Owner, input: Input)
    | Moved(owner: Owner, x: int, y: int)
    | Scrolled(owner: Owner, down: bool)
    | Committed(owner: Owner, text: string)

  datatype Peer = Peer(keys: set<Keyval>, button: bool)

  datatype Rect = Rect(x: int, y: int, width: int, height: int)

  datatype Window = Window(id: int, pid: int, focused: bool, rect: Rect)

  /** What the shell says at the time of a call. */
  datatype World = World(
    locked: bool, window: Option<Window>, keyboardFree: bool, textFocus: bool, secretField: bool,
    pointerX: int, pointerY: int, hit: int)

  datatype Args = Args(
    op: string, id: int, pid: int, release: bool, key: Keyval, text: string, x: int, y: int, steps: int)

  datatype Reply = Ok | Refused

  /** The last thing an owner did to an input was to press it. */
  predicate Down(log: seq<Emitted>, owner: Owner, input: Input) {
    log != [] &&
    match log[|log| - 1]
    case Pressed(o, i) => (o == owner && i == input) || Down(log[..|log| - 1], owner, input)
    case Released(o, i) => !(o == owner && i == input) && Down(log[..|log| - 1], owner, input)
    case _ => Down(log[..|log| - 1], owner, input)
  }

  predicate Holds(peer: Peer, input: Input) {
    match input
    case Key(key) => key in peer.keys
    case Button => peer.button
  }

  predicate Inside(r: Rect, x: int, y: int) {
    r.x <= x < r.x + r.width && r.y <= y < r.y + r.height
  }

  /** A caller that opened, an unlocked session, and the focused window it observed. */
  predicate Targeted(enabled: bool, owners: set<Owner>, owner: Owner, args: Args, world: World) {
    && enabled && !world.locked && owner in owners
    && world.window.Some? && world.window.value.id == args.id && world.window.value.pid == args.pid
    && world.window.value.focused
  }

  predicate KeyAllowed(args: Args, world: World) {
    world.keyboardFree && !world.secretField && args.key.code > 0
  }

  predicate TextAllowed(args: Args, world: World) {
    world.keyboardFree && world.textFocus && !world.secretField && |args.text| == 1 && args.text != "\0"
  }

  predicate PointAllowed(args: Args, world: World)
    requires world.window.Some?
  {
    var x := if args.op == "move" then args.x else world.pointerX;
    var y := if args.op == "move" then args.y else world.pointerY;
    Inside(world.window.value.rect, x, y) && world.hit == args.id
  }

  function Abs(n: int): nat {
    if n < 0 then -n else n
  }

  /** What an accepted call tells the devices; `None` when the call is refused. */
  function Effects(owner: Owner, args: Args, world: World): Option<seq<Emitted>>
    requires world.window.Some?
  {
    if args.op == "key" then
      if KeyAllowed(args, world) then Some([Pressed(owner, Key(args.key))]) else None
    else if args.op == "text" then
      if TextAllowed(args, world) then Some([Committed(owner, args.text)]) else None
    else if args.op !in {"move", "button", "scroll"} || !PointAllowed(args, world) then None
    else if args.op == "move" then Some([Moved(owner, args.x, args.y)])
    else if args.op == "button" then Some([Pressed(owner, Button)])
    else if Abs(args.steps) > 100 then None
    else Some(seq(Abs(args.steps), _ => Scrolled(owner, args.steps > 0)))
  }

  /**
   What the companion may tell the devices for a call. Anything but a release is for an unlocked
   session whose focused window is the one the caller observed; what is typed goes to a free
   keyboard and no secret field; what the pointer does lands inside that window, where the window
   itself is hit.
   */
  ghost predicate Warranted(e: Emitted, owner: Owner, args: Args, world: World) {
    && e.owner == owner
    && (e.Released? ||
        (&& !world.locked && world.window.Some? && world.window.value.focused
         && world.window.value.id == args.id && world.window.value.pid == args.pid
         && match e
            case Pressed(_, Key(key)) => key == args.key && key.code > 0 && world.keyboardFree && !world.secretField
            case Committed(_, text) =>
              |text| == 1 && text != "\0" && world.keyboardFree && world.textFocus && !world.secretField
            case Moved(_, x, y) => Inside(world.window.value.rect, x, y) && world.hit == args.id
            case _ =>
              Inside(world.window.value.rect, world.pointerX, world.pointerY) && world.hit == args.id))
  }

  lemma EffectsAreWarranted(enabled: bool, owners: set<Owner>, owner: Owner, args: Args, world: World)
    requires Targeted(enabled, owners, owner, args, world) && Effects(owner, args, world).Some?
    ensures forall e :: e in Effects(owner, args, world).value ==> Warranted(e, owner, args, world)
  {
  }

  /** What an accepted new effect adds to the inputs held. */
  function AfterEffect(peer: Peer, args: Args): Peer {
    if args.op == "key" then peer.(keys := peer.keys + {args.key})
    else if args.op == "button" then peer.(button := true)
    else peer
  }

  /** What a release takes from them, and what it tells the devices: only what is held. */
  function AfterRelease(peer: Peer, args: Args): Peer {
    if args.op == "key" then peer.(keys := peer.keys - {args.key})
    else if args.op == "button" then peer.(button := false)
    else peer
  }

  function ReleaseEffects(owner: Owner, peer: Peer, args: Args): seq<Emitted> {
    if args.op == "key" && args.key in peer.keys then [Released(owner, Key(args.key))]
    else if args.op == "button" && peer.button then [Released(owner, Button)]
    else []
  }

  /** The peers say exactly what the devices were last told. */
  ghost predicate HeldIsDown(log: seq<Emitted>, peers: map<Owner, Peer>) {
    forall o, i :: Down(log, o, i) <==> o in peers && Holds(peers[o], i)
  }

  lemma {:induction false} DownIgnores(log: seq<Emitted>, more: seq<Emitted>, owner: Owner, input: Input)
    requires forall e :: e in more ==> !e.Pressed? && !e.Released?
    ensures Down(log + more, owner, input) == Down(log, owner, input)
    decreases |more|
  {
    if more == [] {
      assert log + more == log;
    } else {
      var n := |more| - 1;
      DownIgnores(log, more[..n], owner, input);
      assert (log + more)[..|log + more| - 1] == log + more[..n];
      assert more[n] in more;
    }
  }

  lemma DownAfterOne(log: seq<Emitted>, e: Emitted, owner: Owner, input: Input)
    ensures Down(log + [e], owner, input) <==>
      e == Pressed(owner, input) || (Down(log, owner, input) && e != Released(owner, input))
  {
    assert (log + [e])[..|log|] == log;
  }

  /** A new effect leaves the peers in step with the devices. */
  lemma EffectKeepsStep(log: seq<Emitted>, peers: map<Owner, Peer>, owner: Owner, args: Args, world: World)
    requires HeldIsDown(log, peers) && owner in peers && world.window.Some?
    requires Effects(owner, args, world).Some?
    ensures HeldIsDown(log + Effects(owner, args, world).value, peers[owner := AfterEffect(peers[owner], args)])
  {
    var effects, after := Effects(owner, args, world).value, peers[owner := AfterEffect(peers[owner], args)];
    forall o, i ensures Down(log + effects, o, i) <==> o in after && Holds(after[o], i) {
      assert Down(log, o, i) <==> o in peers && Holds(peers[o], i);
      if args.op == "key" || args.op == "button" {
        DownAfterOne(log, effects[0], o, i);
      } else {
        DownIgnores(log, effects, o, i);
      }
    }
  }

  lemma NewPeerKeepsStep(log: seq<Emitted>, peers: map<Owner, Peer>, owner: Owner)
    requires HeldIsDown(log, peers) && owner !in peers
    ensures HeldIsDown(log, peers[owner := Peer({}, false)])
    ensures |peers[owner := Peer({}, false)]| == |peers| + 1
    ensures peers[owner := Peer({}, false)].Keys == peers.Keys + {owner}
  {
    var after := peers[owner := Peer({}, false)];
    forall o, i ensures Down(log, o, i) <==> o in after && Holds(after[o], i) {
      assert Down(log, o, i) <==> o in peers && Holds(peers[o], i);
    }
  }

  lemma ReleaseKeepsStep(log: seq<Emitted>, peers: map<Owner, Peer>, owner: Owner, args: Args)
    requires HeldIsDown(log, peers) && owner in peers
    ensures HeldIsDown(log + ReleaseEffects(owner, peers[owner], args),
      peers[owner := AfterRelease(peers[owner], args)])
  {
    var effects, after := ReleaseEffects(owner, peers[owner], args), peers[owner := AfterRelease(peers[owner], args)];
    forall o, i ensures Down(log + effects, o, i) <==> o in after && Holds(after[o], i) {
      assert Down(log, o, i) <==> o in peers && Holds(peers[o], i);
      if effects == [] {
        assert log + effects == log;
      } else {
        DownAfterOne(log, effects[0], o, i);
      }
    }
  }

  /** What can happen to the companion, in any order. */
  datatype Step =
    | Toggled(value: bool, locked: bool)
    | SessionChanged(locked: bool)
    | Approved(path: string, locked: bool)
    | Opened(owner: Owner, helper: Option<string>, locked: bool)
    | Vanished(owner: Owner)
    | Called(owner: Owner, args: Args, world: World)

  /** A release, or what some call was entitled to. */
  ghost predicate IsAsked(e: Emitted, steps: seq<Step>) {
    e.Released? ||
    exists n :: 0 <= n < |steps| && steps[n].Called? && Warranted(e, steps[n].owner, steps[n].args, steps[n].world)
  }

  ghost predicate AllAsked(emitted: seq<Emitted>, steps: seq<Step>) {
    forall e :: e in emitted ==> IsAsked(e, steps)
  }

  class DesktopAccess {
    var enabled: bool
    var owners: set<Owner>
    var peers: map<Owner, Peer>
    var approvedPaths: set<string>
    var pendingPaths: set<string>
    var log: seq<Emitted>

    ghost predicate Valid()
      reads this
    {
      && HeldIsDown(log, peers)
      && owners == peers.Keys && |peers| <= MAX_PEERS && |pendingPaths| <= MAX_PENDING
      && (peers.Keys != {} || approvedPaths != {} ==> enabled)
    }

    constructor ()
      ensures Valid() && !enabled && log == []
    {
      enabled, owners, peers, approvedPaths, pendingPaths, log := false, {}, map[], {}, {}, [];
    }

    /** Tells the devices that an input was released. */
    method Release(owner: Owner, input: Input)
      modifies this`log
      ensures log == old(log) + [Released(owner, input)]
    {
      log := log + [Released(owner, input)];
    }

    /** Releases everything a peer holds. */
    method ReleaseAll(owner: Owner)
      requires owner in peers && HeldIsDown(log, peers)
      modifies this`log
      ensures forall i :: !Down(log, owner, i)
      ensures forall o, i :: o != owner ==> Down(log, o, i) == Down(old(log), o, i)
      ensures old(log) <= log
      ensures forall i :: i in log[|old(log)|..] ==> i.Released? && i.owner == owner
    {
      var keys := peers[owner].keys;
      while keys != {}
        invariant old(log) <= log && keys <= peers[owner].keys
        invariant forall i :: Down(log, owner, i) <==> (i == Button && peers[owner].button) || (i.Key? && i.key in keys)
        invariant forall o, i :: o != owner ==> Down(log, o, i) == Down(old(log), o, i)
        invariant forall i :: i in log[|old(log)|..] ==> i.Released? && i.owner == owner
        decreases |keys|
      {
        var key :| key in keys;
        ghost var before := log;
        Release(owner, Key(key));
        keys := keys - {key};
        forall o, i ensures Down(log, o, i) <==> Down(before, o, i) && !(o == owner && i == Key(key)) {
          DownAfterOne(before, Released(owner, Key(key)), o, i);
        }
      }
      if peers[owner].button {
        ghost var before := log;
        Release(owner, Button);
        forall o, i ensures Down(log, o, i) <==> Down(before, o, i) && !(o == owner && i == Button) {
          DownAfterOne(before, Released(owner, Button), o, i);
        }
      }
    }

    /** Forgets a caller, with everything it holds released. */
    method Close(owner: Owner)
      requires HeldIsDown(log, peers)
      modifies this`log, this`peers, this`owners
      ensures HeldIsDown(log, peers)
      ensures peers == old(peers) - {owner} && owners == old(owners) - {owner}
      ensures old(log) <= log
      ensures forall e :: e in log[|old(log)|..] ==> e.Released? && e.owner == owner
    {
      if owner in peers {
        ReleaseAll(owner);
        peers := peers - {owner};
      }
      owners := owners - {owner};
    }

    /** Opens or closes access; closing releases every input of every caller and forgets approvals. */
    method SetAccess(value: bool, locked: bool)
      requires Valid()
      modifies this
      ensures Valid() && enabled == (value && !locked)
      ensures !enabled ==>
        && owners == {} && peers == map[] && approvedPaths == {} && pendingPaths == {}
        && forall o, i :: !Down(log, o, i)
      ensures enabled ==> log == old(log) && peers == old(peers) && approvedPaths == old(approvedPaths)
      ensures old(log) <= log && forall e :: e in log[|old(log)|..] ==> e.Released?
    {
      enabled := value && !locked;
      if !enabled {
        owners := {};
        var closing := peers.Keys;
        while closing != {}
          invariant HeldIsDown(log, peers) && peers.Keys == closing && owners == {} && !enabled
          invariant old(log) <= log && forall e :: e in log[|old(log)|..] ==> e.Released?
          decreases |closing|
        {
          var owner :| owner in closing;
          ghost var before := log;
          Close(owner);
          closing := closing - {owner};
          assert log[|old(log)|..] == before[|old(log)|..] + log[|before|..];
        }
        approvedPaths, pendingPaths := {}, {};
      }
    }

    /** The user approves a pending helper path. */
    method Approve(path: string, locked: bool)
      requires Valid() && path in pendingPaths
      modifies this`approvedPaths, this`pendingPaths
      ensures Valid() && pendingPaths == old(pendingPaths) - {path}
      ensures approvedPaths == if enabled && !locked then old(approvedPaths) + {path} else old(approvedPaths)
    {
      if enabled && !locked {
        approvedPaths := approvedPaths + {path};
      }
      pendingPaths := pendingPaths - {path};
    }

    /** `helper` is the caller's executable when it is an eligible helper of the same user. */
    method IsCallerAllowed(helper: Option<string>) returns (allowed: bool)
      requires Valid()
      modifies this`pendingPaths
      ensures Valid() && (allowed <==> enabled && helper.Some? && helper.value in approvedPaths)
    {
      if !enabled || helper.None? {
        return false;
      }
      if helper.value in approvedPaths {
        return true;
      }
      if helper.value !in pendingPaths && |pendingPaths| < MAX_PENDING {
        pendingPaths := pendingPaths + {helper.value};
      }
      return false;
    }

    method Open(owner: Owner, helper: Option<string>, locked: bool) returns (r: Reply)
      requires Valid()
      modifies this`owners, this`peers, this`pendingPaths
      ensures Valid()
      ensures r.Ok? ==>
        && enabled && !locked && helper.Some? && helper.value in approvedPaths
        && peers == (if owner in old(peers) then old(peers) else old(peers)[owner := Peer({}, false)])
      ensures r.Refused? ==> peers == old(peers)
      ensures r.Refused? && !locked && enabled && helper.Some? && helper.value in approvedPaths ==>
        owner !in peers && |peers| == MAX_PEERS
    {
      if locked {
        return Refused;
      }
      var allowed := IsCallerAllowed(helper);
      if !allowed {
        return Refused;
      }
      if owner !in peers && |peers| >= MAX_PEERS {
        return Refused;
      }
      owners := owners + {owner};
      if owner !in peers {
        NewPeerKeepsStep(log, peers, owner);
        peers := peers[owner := Peer({}, false)];
      }
      r := Ok;
    }

    /** Releases of what a peer holds are always done; anything else needs access and the right target. */
    method HandleInput(owner: Owner, args: Args, world: World) returns (r: Reply)
      requires Valid()
      modifies this`log, this`peers
      ensures Valid()
      ensures args.release && owner in old(peers) ==>
        && r == Ok
        && log == old(log) + ReleaseEffects(owner, old(peers)[owner], args)
        && peers == old(peers)[owner := AfterRelease(old(peers)[owner], args)]
      ensures !(args.release && owner in old(peers)) ==>
        if Targeted(enabled, owners, owner, args, world) && Effects(owner, args, world).Some?
        then
          && r == Ok && owner in old(peers)
          && log == old(log) + Effects(owner, args, world).value
          && peers == old(peers)[owner := AfterEffect(old(peers)[owner], args)]
        else r == Refused && log == old(log) && peers == old(peers)
      ensures old(log) <= log && forall e :: e in log[|old(log)|..] ==> Warranted(e, owner, args, world)
    {
      if args.release && owner in peers {
        ReleaseKeepsStep(log, peers, owner, args);
        var peer := peers[owner];
        if args.op == "key" && args.key in peer.keys {
          peers := peers[owner := peer.(keys := peer.keys - {args.key})];
          Release(owner, Key(args.key));
        }
        if args.op == "button" && peer.button {
          Release(owner, Button);
          peers := peers[owner := peer.(button := false)];
        }
        SameHolding(old(peers), peers, owner, args);
        return Ok;
      }
      if !Targeted(enabled, owners, owner, args, world) {
        return Refused;
      }
      if Effects(owner, args, world).Some? {
        EffectKeepsStep(log, peers, owner, args, world);
        EffectsAreWarranted(enabled, owners, owner, args, world);
      }
      r := Ok;
      if args.op == "key" {
        if !KeyAllowed(args, world) {
          return Refused;
        }
        peers := peers[owner := peers[owner].(keys := peers[owner].keys + {args.key})];
        log := log + [Pressed(owner, Key(args.key))];
      } else if args.op == "text" {
        if !TextAllowed(args, world) {
          return Refused;
        }
        log := log + [Committed(owner, args.text)];
      } else if args.op in {"move", "button", "scroll"} {
        r := HandlePointer(owner, args, world);
      } else {
        r := Refused;
      }
      SameMap(old(peers), owner);
    }

    method HandlePointer(owner: Owner, args: Args, world: World) returns (r: Reply)
      requires owner in peers && world.window.Some? && args.op in {"move", "button", "scroll"}
      modifies this`log, this`peers
      ensures r.Ok? <==>
        && world.hit == args.id
        && (if args.op == "move" then Inside(world.window.value.rect, args.x, args.y)
            else Inside(world.window.value.rect, world.pointerX, world.pointerY))
        && (args.op == "scroll" ==> -100 <= args.steps <= 100)
      ensures r.Refused? ==> log == old(log) && peers == old(peers)
      ensures r.Ok? <==> Effects(owner, args, world).Some?
      ensures r.Ok? ==> log == old(log) + Effects(owner, args, world).value
      ensures r.Ok? ==> peers == old(peers)[owner := AfterEffect(old(peers)[owner], args)]
    {
      SameMap(peers, owner);
      if !PointAllowed(args, world) {
        return Refused;
      }
      if args.op == "move" {
        log := log + [Moved(owner, args.x, args.y)];
      } else if args.op == "button" {
        peers := peers[owner := peers[owner].(button := true)];
        log := log + [Pressed(owner, Button)];
      } else {
        if Abs(args.steps) > 100 {
          return Refused;
        }
        for i := 0 to Abs(args.steps)
          invariant log == old(log) + seq(i, _ => Scrolled(owner, args.steps > 0))
          invariant peers == old(peers)
        {
          log := log + [Scrolled(owner, args.steps > 0)];
        }
      }
      r := Ok;
    }

    /** After any steps only callers that are open hold anything, and none once access is off. */
    method Run(steps: seq<Step>)
      requires Valid()
      modifies this
      ensures Valid()
      ensures forall o, i :: Down(log, o, i) ==> o in owners && enabled
      ensures steps != [] && steps[|steps| - 1] == SessionChanged(true) ==> !enabled
      ensures old(log) <= log && AllAsked(log[|old(log)|..], steps)
    {
      for n := 0 to |steps|
        invariant Valid()
        invariant old(log) <= log && AllAsked(log[|old(log)|..], steps)
        invariant n > 0 && steps[n - 1] == SessionChanged(true) ==> !enabled
      {
        ghost var before := log;
        match steps[n] {
          case Toggled(value, locked) => SetAccess(value, locked);
          case SessionChanged(locked) =>
            if locked {
              SetAccess(false, locked);
            }
          case Approved(path, locked) =>
            if path in pendingPaths {
              Approve(path, locked);
            }
          case Opened(owner, helper, locked) =>
            var opening := Open(owner, helper, locked);
          case Vanished(owner) => Close(owner);
          case Called(owner, args, world) =>
            var reply := HandleInput(owner, args, world);
        }
        assert log[|old(log)|..] == before[|old(log)|..] + log[|before|..];
        forall e | e in log[|before|..] ensures IsAsked(e, steps) {
          assert e.Released? || (steps[n].Called? && Warranted(e, steps[n].owner, steps[n].args, steps[n].world));
        }
      }
    }
  }

  lemma SameMap(peers: map<Owner, Peer>, owner: Owner)
    requires owner in peers
    ensures peers[owner := peers[owner]] == peers
  {
  }

  lemma SameHolding(before: map<Owner, Peer>, after: map<Owner, Peer>, owner: Owner, args: Args)
    requires owner in before
    requires after ==
      if args.op == "key" && args.key in before[owner].keys
      then before[owner := before[owner].(keys := before[owner].keys - {args.key})]
      else if args.op == "button" && before[owner].button
      then before[owner := before[owner].(button := false)]
      else before
    ensures after == before[owner := AfterRelease(before[owner], args)]
  {
    var peer := before[owner];
    assert args.key !in peer.keys ==> peer.keys - {args.key} == peer.keys;
    assert peer.(keys := peer.keys).(button := peer.button) == peer;
    SameMap(before, owner);
  }
}
