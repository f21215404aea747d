/**
 The extension's connection to the worker, one method per event. A connect attempt waits twice,
 for the stored pairing and for the listener probe; each wait is a task that remembers the
 generation it started in and may end at any later time.
 */
module Rpc {
  import opened Common

  const MIN_BACKOFF: nat := 1000
  const MAX_BACKOFF: nat := 30_000

  datatype State = Unpaired | Paused | Connecting | Connected | Standby | PairAgain

  datatype Phase = Reading | Probing

  datatype Task = Task(generation: nat, phase: Phase)

  /** A socket: the generation it was dialled in and whether it sent the auth frame. */
  datatype Dial = Dial(generation: nat, authSubmitted: bool)

  /** The stored pairing, or what is there instead of it. */
  datatype Read = Paired | NotPaired(paused: bool) | ReadThrew

  datatype Probe = Up | Down | BadAddress | ProbeThrew

  datatype Message = AuthOk | AuthStandby | AuthError | Command | OtherMessage

  datatype Event =
    | NewPairing
    | Disconnect
    | Connect(force: bool)
    | ReadDone(task: nat, read: Read)
    | ProbeDone(task: nat, probe: Probe)
    | Opened(socket: nat)
    | Received(socket: nat, message: Message)
    | Closed(socket: nat)
    | ReconnectDue
    | KeepaliveDue(open: bool, sends: bool)

  predicate Current(tasks: map<nat, Task>, generation: nat, t: nat) {
    t in tasks && tasks[t].generation == generation
  }

  /** At most one attempt of the current generation, and it runs only while there is no socket. */
  ghost predicate OneAttempt(tasks: map<nat, Task>, generation: nat, probing: bool, idle: bool, next: nat) {
    && (forall t :: t in tasks ==> tasks[t].generation <= generation && t < next)
    && (forall t :: Current(tasks, generation, t) ==> probing && idle)
    && (forall t, u :: Current(tasks, generation, t) && Current(tasks, generation, u) ==> t == u)
  }

  /** An attempt that ends may leave anything behind; one of another generation leaves all as it was. */
  lemma AttemptEnds(
      tasks: map<nat, Task>, generation: nat, probing: bool, idle: bool, next: nat, t: nat, p: bool, i: bool)
    requires OneAttempt(tasks, generation, probing, idle, next) && t in tasks
    requires tasks[t].generation != generation ==> p == probing && i == idle
    ensures OneAttempt(tasks - {t}, generation, p, i, next)
  {
    assert forall u :: Current(tasks - {t}, generation, u) ==> Current(tasks, generation, u) && u != t;
    assert tasks[t].generation == generation ==> Current(tasks, generation, t);
  }

  lemma AttemptStarts(tasks: map<nat, Task>, generation: nat, next: nat)
    requires OneAttempt(tasks, generation, false, true, next)
    ensures OneAttempt(tasks[next := Task(generation, Reading)], generation, true, true, next + 1)
  {
    var after := tasks[next := Task(generation, Reading)];
    forall u | u in after && u != next ensures u in tasks && after[u] == tasks[u] && !Current(after, generation, u) {
      assert !Current(tasks, generation, u);
    }
  }

  lemma AttemptAdvances(tasks: map<nat, Task>, generation: nat, probing: bool, idle: bool, next: nat, t: nat)
    requires OneAttempt(tasks, generation, probing, idle, next) && Current(tasks, generation, t)
    ensures OneAttempt(tasks[t := Task(generation, Probing)], generation, probing, idle, next)
  {
    var after := tasks[t := Task(generation, Probing)];
    assert forall u :: u in after ==> u in tasks && after[u].generation == tasks[u].generation;
    assert forall u :: Current(after, generation, u) ==> Current(tasks, generation, u);
  }

  /** A new generation leaves every attempt behind. */
  lemma AttemptsAreSuperseded(
      tasks: map<nat, Task>, generation: nat, probing: bool, idle: bool, next: nat, p: bool, i: bool)
    requires OneAttempt(tasks, generation, probing, idle, next)
    ensures OneAttempt(tasks, generation + 1, p, i, next)
  {
  }

  class ExtensionRpc {
    var socket: Option<nat>
    var backoff: nat
    var generation: nat
    var reconnectTimer: bool
    var keepalive: Option<nat>
    var manualDisconnect: bool
    var authenticated: bool
    var probing: bool
    var state: State
    var tasks: map<nat, Task>
    var nextTask: nat
    var dials: seq<Dial>
    var handled: seq<nat>  // the socket each executed command came from

    ghost predicate Valid()
      reads this
    {
      && OneAttempt(tasks, generation, probing, socket.None?, nextTask)
      && (socket.Some? ==> socket.value < |dials| && dials[socket.value].generation == generation)
      && (authenticated ==> socket.Some?)
      && (state == Connected || state == Standby ==> authenticated)
      && (manualDisconnect ==> socket.None? && !reconnectTimer)
      && (keepalive.Some? ==> authenticated && socket == keepalive)
      && MIN_BACKOFF <= backoff <= MAX_BACKOFF
    }

    constructor ()
      ensures Valid() && socket.None? && generation == 0 && state == Unpaired
    {
      socket, backoff, generation := None, MIN_BACKOFF, 0;
      reconnectTimer, keepalive, manualDisconnect, authenticated, probing := false, None, false, false, false;
      state, tasks, nextTask, dials, handled := Unpaired, map[], 0, [], [];
    }

    /** Nothing an outsider could see of the connection has changed. */
    twostate predicate Undisturbed()
      reads this
    {
      && socket == old(socket) && backoff == old(backoff) && generation == old(generation)
      && reconnectTimer == old(reconnectTimer) && keepalive == old(keepalive)
      && manualDisconnect == old(manualDisconnect) && authenticated == old(authenticated)
      && probing == old(probing) && state == old(state)
      && dials == old(dials) && handled == old(handled)
    }

    /** Replaces any attempt and any socket by a fresh attempt. */
    method OnNewPairing()
      requires Valid()
      modifies this
      ensures Valid() && generation == old(generation) + 1
      ensures socket.None? && !authenticated && !manualDisconnect && !reconnectTimer
      ensures state == Connecting && dials == old(dials)
      ensures tasks == old(tasks)[old(nextTask) := Task(generation, Reading)] && probing
    {
      AttemptsAreSuperseded(tasks, generation, probing, socket.None?, nextTask, false, true);
      generation := generation + 1;
      probing := false;
      reconnectTimer := false;
      keepalive := None;
      if socket.Some? {
        socket := None;
        authenticated := false;
      }
      state := Connecting;
      manualDisconnect := false;
      OnConnect(true);
    }

    method OnDisconnect()
      requires Valid()
      modifies this
      ensures Valid() && generation == old(generation) + 1
      ensures socket.None? && !authenticated && manualDisconnect && !reconnectTimer && keepalive.None?
      ensures state == Paused && backoff == MIN_BACKOFF && tasks == old(tasks) && dials == old(dials)
      ensures forall t :: t in tasks ==> tasks[t].generation < generation
    {
      AttemptsAreSuperseded(tasks, generation, probing, socket.None?, nextTask, probing, true);
      generation := generation + 1;
      manualDisconnect := true;
      authenticated := false;
      keepalive := None;
      backoff := MIN_BACKOFF;
      reconnectTimer := false;
      socket := None;
      state := Paused;
    }

    /** Starts an attempt unless there is a socket or another attempt, or the pairing was refused. */
    method OnConnect(force: bool)
      requires Valid()
      modifies this`manualDisconnect, this`reconnectTimer, this`probing, this`tasks, this`nextTask
      ensures Valid()
      ensures
        var forced := force && state != PairAgain;
        && manualDisconnect == (old(manualDisconnect) && !forced)
        && reconnectTimer == (old(reconnectTimer) && !forced)
      ensures
        if state == PairAgain || socket.Some? || old(probing) then tasks == old(tasks) && probing == old(probing)
        else tasks == old(tasks)[old(nextTask) := Task(generation, Reading)] && probing
    {
      if state == PairAgain {
        return;
      }
      if force {
        manualDisconnect := false;
        reconnectTimer := false;
      }
      if socket.Some? || probing {
        return;
      }
      AttemptStarts(tasks, generation, nextTask);
      probing := true;
      tasks := tasks[nextTask := Task(generation, Reading)];
      nextTask := nextTask + 1;
    }

    /** The stored pairing has been read. */
    method OnReadDone(task: nat, read: Read)
      requires Valid() && task in tasks && tasks[task].phase == Reading
      modifies this`tasks, this`probing, this`state
      ensures Valid()
      ensures old(tasks)[task].generation != generation ==> Undisturbed() && tasks == old(tasks) - {task}
      ensures old(tasks)[task].generation == generation ==>
        var goesOn := !manualDisconnect && old(state) != PairAgain;
        if goesOn && read == Paired
          then tasks == old(tasks)[task := Task(generation, Probing)] && probing && state == Connecting
          else
            tasks == old(tasks) - {task} && !probing &&
            state == if goesOn && read.NotPaired? then (if read.paused then Paused else Unpaired) else old(state)
    {
      var started := tasks[task].generation;
      assert started == generation ==> Current(tasks, generation, task);
      if read == ReadThrew || started != generation || manualDisconnect || state == PairAgain || read.NotPaired? {
        AttemptEnds(tasks, generation, probing, socket.None?, nextTask, task, probing && started != generation,
          socket.None?);
        tasks := tasks - {task};
        if read.NotPaired? && started == generation && !manualDisconnect && state != PairAgain {
          state := if read.paused then Paused else Unpaired;
        }
        if started == generation {
          probing := false;
        }
        return;
      }
      AttemptAdvances(tasks, generation, probing, socket.None?, nextTask, task);
      state := Connecting;
      tasks := tasks[task := Task(started, Probing)];
    }

    /** The probe has an answer: dial, wait for the next try, or drop the attempt. */
    method OnProbeDone(task: nat, probe: Probe)
      requires Valid() && task in tasks && tasks[task].phase == Probing
      modifies this`tasks, this`probing, this`state, this`backoff, this`reconnectTimer, this`dials,
        this`socket, this`authenticated
      ensures Valid() && tasks == old(tasks) - {task}
      ensures old(tasks)[task].generation != generation ==> Undisturbed()
      ensures old(tasks)[task].generation == generation ==>
        var goesOn := !manualDisconnect && old(state) != PairAgain;
        && !probing && !authenticated
        && (if goesOn && probe == Up
            then dials == old(dials) + [Dial(generation, false)] && socket == Some(|old(dials)|)
            else dials == old(dials) && socket.None?)
        && (if goesOn && probe == Down then state == Connecting && reconnectTimer
            else state == old(state) && reconnectTimer == old(reconnectTimer) && backoff == old(backoff))
    {
      var started := tasks[task].generation;
      assert started == generation ==> Current(tasks, generation, task);
      AttemptEnds(tasks, generation, probing, socket.None?, nextTask, task, probing && started != generation,
        socket.None?);
      tasks := tasks - {task};
      if started == generation {
        probing := false;
      }
      if probe == ProbeThrew || started != generation || socket.Some? || manualDisconnect || state == PairAgain {
        return;
      }
      if probe == Down {
        state := Connecting;
        ScheduleReconnect();
        return;
      }
      if probe == BadAddress {
        return;
      }
      DialSocket();
    }

    method DialSocket()
      requires Valid() && socket.None? && !manualDisconnect && !probing
      modifies this`dials, this`socket, this`authenticated
      ensures Valid() && dials == old(dials) + [Dial(generation, false)] && socket == Some(|old(dials)|)
      ensures !authenticated
    {
      dials := dials + [Dial(generation, false)];
      socket := Some(|dials| - 1);
      authenticated := false;
    }

    /** A socket opened: the current one sends the auth frame. */
    method OnOpened(s: nat)
      requires Valid() && s < |dials|
      modifies this`dials
      ensures Valid()
      ensures dials == if socket == Some(s) then old(dials)[s := Dial(generation, true)] else old(dials)
    {
      if socket != Some(s) || manualDisconnect {
        return;
      }
      dials := dials[s := dials[s].(authSubmitted := true)];
    }

    /** Messages count only from the current socket, and commands only once it is the active one. */
    method OnReceived(s: nat, message: Message)
      requires Valid() && s < |dials|
      modifies this`backoff, this`keepalive, this`authenticated, this`state, this`handled
      ensures Valid()
      ensures socket != Some(s) ==> Undisturbed()
      ensures socket == Some(s) ==>
        match message
        case AuthOk => authenticated && state == Connected && keepalive == socket && backoff == MIN_BACKOFF
        case AuthStandby => authenticated && state == Standby && keepalive == socket && backoff == old(backoff)
        case AuthError => !authenticated && state == PairAgain && keepalive.None? && backoff == old(backoff)
        case _ =>
          authenticated == old(authenticated) && state == old(state) && keepalive == old(keepalive) &&
          backoff == old(backoff)
      ensures handled == old(handled) +
        if socket == Some(s) && message == Command && old(authenticated) && old(state) == Connected then [s] else []
    {
      if socket != Some(s) {
        return;
      }
      match message {
        case AuthOk =>
          authenticated := true;
          backoff := MIN_BACKOFF;
          state := Connected;
          keepalive := socket;
        case AuthStandby =>
          authenticated := true;
          state := Standby;
          keepalive := socket;
        case AuthError =>
          authenticated := false;
          keepalive := None;
          state := PairAgain;
        case Command =>
          if authenticated && state == Connected {
            handled := handled + [s];
          }
        case OtherMessage =>
      }
    }

    /** A socket closed; only the current one matters. An unanswered auth frame asks to pair again. */
    method OnClosed(s: nat)
      requires Valid() && s < |dials|
      modifies this`socket, this`authenticated, this`keepalive, this`state, this`backoff, this`reconnectTimer
      ensures Valid()
      ensures old(socket) != Some(s) ==> Undisturbed()
      ensures old(socket) == Some(s) ==> socket.None? && !authenticated && keepalive.None?
      ensures old(socket) == Some(s) && old(state) != PairAgain ==>
        if dials[s].authSubmitted && !old(authenticated) then state == PairAgain && backoff == old(backoff)
        else state == Connecting && reconnectTimer
    {
      if socket != Some(s) {
        return;
      }
      keepalive := None;
      var wasAuthenticated := authenticated;
      socket := None;
      authenticated := false;
      if manualDisconnect || state == PairAgain {
        return;
      }
      if dials[s].authSubmitted && !wasAuthenticated {
        state := PairAgain;
        return;
      }
      state := Connecting;
      ScheduleReconnect();
    }

    method ScheduleReconnect()
      requires Valid()
      modifies this`backoff, this`reconnectTimer
      ensures Valid()
      ensures reconnectTimer == (old(reconnectTimer) || (!manualDisconnect && state != PairAgain))
      ensures backoff == if reconnectTimer && !old(reconnectTimer)
        then Min(MAX_BACKOFF, old(backoff) * 2) else old(backoff)
    {
      if manualDisconnect || state == PairAgain || reconnectTimer {
        return;
      }
      backoff := Min(MAX_BACKOFF, backoff * 2);
      reconnectTimer := true;
    }

    method OnReconnectDue()
      requires Valid() && reconnectTimer
      modifies this`manualDisconnect, this`reconnectTimer, this`probing, this`tasks, this`nextTask
      ensures Valid() && !reconnectTimer && manualDisconnect == old(manualDisconnect)
      ensures
        if state == PairAgain || socket.Some? || old(probing) then tasks == old(tasks) && probing == old(probing)
        else tasks == old(tasks)[old(nextTask) := Task(generation, Reading)] && probing
    {
      reconnectTimer := false;
      OnConnect(false);
    }

    /** The keepalive stops itself when its socket is no longer the authenticated current one. */
    method OnKeepaliveDue(open: bool, sends: bool)
      requires Valid() && keepalive.Some?
      modifies this`keepalive
      ensures Valid() && keepalive == if open && sends then old(keepalive) else None
    {
      if socket != keepalive || !open || !authenticated || !sends {
        keepalive := None;
      }
    }

    /** Any events in any order keep the connection sound. */
    method Run(events: seq<Event>)
      requires Valid()
      modifies this
      ensures Valid()
    {
      for i := 0 to |events|
        invariant Valid()
      {
        match events[i] {
          case NewPairing => OnNewPairing();
          case Disconnect => OnDisconnect();
          case Connect(force) => OnConnect(force);
          case ReadDone(task, read) =>
            if task in tasks && tasks[task].phase == Reading {
              OnReadDone(task, read);
            }
          case ProbeDone(task, probe) =>
            if task in tasks && tasks[task].phase == Probing {
              OnProbeDone(task, probe);
            }
          case Opened(s) =>
            if s < |dials| {
              OnOpened(s);
            }
          case Received(s, message) =>
            if s < |dials| {
              OnReceived(s, message);
            }
          case Closed(s) =>
            if s < |dials| {
              OnClosed(s);
            }
          case ReconnectDue =>
            if reconnectTimer {
              OnReconnectDue();
            }
          case KeepaliveDue(open, sends) =>
            if keepalive.Some? {
              OnKeepaliveDue(open, sends);
            }
        }
      }
    }
  }
}
