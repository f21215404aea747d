/**
 The desktop grant of the compositor plugin: a nonce from a config file is consumed in a
 persistent store before it gives authority, and gives it to the peers opened under it only.
 */
module Grants {
  import opened Common

  /** The config file after it was read and parsed; `None` when it may not be trusted. */
  datatype Config = Config(enabled: bool, nonce: string, path: string, absolute: bool)

  /** How the store file answers: readable and well formed, written through, and reported so. */
  datatype StoreFile = StoreFile(readable: bool, committed: bool, reported: bool)

  datatype State = State(
    current: string, consumed: string, owners: set<string>,  // the policy
    peers: set<string>, grantNonce: string, grantPath: string,  // the bridge
    used: set<string>)  // the store, which survives restarts

  function PolicyRevoke(s: State): State {
    s.(consumed := if s.current != "" then s.current else s.consumed, current := "", owners := {})
  }

  function PolicyGrant(s: State, nonce: string): State {
    if nonce == "" then PolicyRevoke(s)
    else if nonce == s.consumed || nonce == s.current then s
    else s.(current := nonce, owners := {})
  }

  function CloseOwners(s: State, gone: set<string>): State {
    s.(peers := s.peers - gone, owners := s.owners - gone)
  }

  function RevokeAll(s: State): State {
    CloseOwners(PolicyRevoke(s), s.peers)
  }

  predicate Acceptable(used: set<string>, nonce: string, file: StoreFile) {
    file.readable && nonce != "" && nonce !in used && |used| < 4096
  }

  function Trusted(config: Option<Config>): bool {
    config.Some? && config.value.enabled && 16 <= |config.value.nonce| <= 128 && config.value.absolute
  }

  function SyncGrant(s: State, config: Option<Config>, locked: bool, file: StoreFile): State {
    if !Trusted(config) then RevokeAll(s)
    else
      var nonce, path := config.value.nonce, config.value.path;
      if s.grantPath == path && s.grantNonce == nonce then
        if locked then RevokeAll(s) else PolicyGrant(s, nonce)
      else if s.grantNonce == nonce then RevokeAll(s)
      else
        var closed := CloseOwners(s, s.peers);
        if !Acceptable(s.used, nonce, file) then RevokeAll(closed)
        else
          var stored := closed.(used := if file.committed then s.used + {nonce} else s.used);
          if !(file.committed && file.reported) then RevokeAll(stored)
          else
            var taken := stored.(grantPath := path, grantNonce := nonce);
            if locked then RevokeAll(taken) else PolicyGrant(taken, nonce)
  }

  function OpenPeer(s: State, owner: string, allowed: bool): State {
    if !allowed || s.current == "" then s
    else if owner in s.peers then s.(owners := s.owners + {owner})
    else if |s.peers| >= 32 then s.(owners := s.owners - {owner})
    else s.(owners := s.owners + {owner}, peers := s.peers + {owner})
  }

  /** A new process: only the store is left. */
  function Restarted(s: State): State {
    State("", "", {}, {}, "", "", s.used)
  }

  datatype Event =
    | Sync(config: Option<Config>, locked: bool, file: StoreFile)
    | Locked
    | Gone(owner: string)
    | Open(owner: string, config: Option<Config>, locked: bool, file: StoreFile, eligible: bool)
    | Restart

  function Step(s: State, e: Event): State {
    match e
    case Sync(config, locked, file) => SyncGrant(s, config, locked, file)
    case Locked => RevokeAll(s)
    case Gone(owner) => CloseOwners(s, {owner})
    case Open(owner, config, locked, file, eligible) =>
      OpenPeer(SyncGrant(s, config, locked, file), owner, !locked && eligible)
    case Restart => Restarted(s)
  }

  predicate Authorized(s: State, owner: string) {
    s.current != "" && owner in s.owners
  }

  ghost predicate IsRun(states: seq<State>, events: seq<Event>) {
    && |states| == |events| + 1
    && states[0] == Restarted(states[0])
    && forall k :: 0 <= k < |events| ==> states[k + 1] == Step(states[k], events[k])
  }

  /** The nonces that were current before state `k` and stopped being so. */
  function Spent(states: seq<State>, k: nat): set<string>
    requires k < |states|
  {
    if k == 0 then {}
    else
      Spent(states, k - 1)
      + Stopped(states[k - 1], states[k])
  }

  /** The inductive invariant: a spent nonce the bridge still holds is the consumed one. */
  ghost predicate Inv(s: State, spent: set<string>) {
    && spent <= s.used
    && (s.grantNonce != "" ==> s.grantNonce in s.used)
    && (s.consumed != "" ==> s.consumed in s.used)
    && (s.current != "" ==> s.current == s.grantNonce && s.current !in spent)
    && (s.grantNonce in spent ==> s.consumed == s.grantNonce)
    && "" !in spent
    && s.owners == s.peers
    && (s.current == "" ==> s.owners == {})
  }

  /** The nonce that stops being current between two states, if any. */
  function Stopped(s: State, t: State): set<string> {
    if s.current != "" && s.current != t.current then {s.current} else {}
  }

  lemma RevokeKeepsInv(s: State, spent: set<string>, more: set<string>)
    requires Inv(s, spent)
    ensures Inv(RevokeAll(s.(used := s.used + more)), spent + Stopped(s, RevokeAll(s)))
  {
  }

  /** A nonce that is new to the store takes over from the current one. */
  lemma TakingNewNonceKeepsInv(s: State, nonce: string, path: string, locked: bool, spent: set<string>)
    requires Inv(s, spent) && nonce != "" && nonce !in s.used
    ensures
      var taken := CloseOwners(s, s.peers).(used := s.used + {nonce}, grantPath := path, grantNonce := nonce);
      var t := if locked then RevokeAll(taken) else PolicyGrant(taken, nonce);
      Inv(t, spent + Stopped(s, t))
  {
  }

  lemma SyncKeepsInv(s: State, config: Option<Config>, locked: bool, file: StoreFile, spent: set<string>)
    requires Inv(s, spent)
    ensures
      var t := SyncGrant(s, config, locked, file);
      Inv(t, spent + Stopped(s, t))
  {
    RevokeKeepsInv(s, spent, {});
    assert s.(used := s.used + {}) == s;
    if Trusted(config) && s.grantNonce != config.value.nonce {
      var nonce := config.value.nonce;
      var closed := CloseOwners(s, s.peers);
      assert RevokeAll(closed) == RevokeAll(s);
      RevokeKeepsInv(s, spent, {nonce});
      assert RevokeAll(closed.(used := s.used + {nonce})) == RevokeAll(s.(used := s.used + {nonce}));
      if Acceptable(s.used, nonce, file) {
        TakingNewNonceKeepsInv(s, nonce, config.value.path, locked, spent);
      }
    }
  }

  lemma OpenKeepsInv(s: State, owner: string, allowed: bool, spent: set<string>)
    requires Inv(s, spent)
    ensures Inv(OpenPeer(s, owner, allowed), spent)
    ensures OpenPeer(s, owner, allowed).current == s.current
  {
  }

  lemma CloseKeepsInv(s: State, gone: set<string>, spent: set<string>)
    requires Inv(s, spent)
    ensures Inv(CloseOwners(s, gone), spent)
  {
  }

  lemma RestartKeepsInv(s: State, spent: set<string>)
    requires Inv(s, spent)
    ensures Inv(Restarted(s), spent + Stopped(s, Restarted(s)))
  {
  }

  lemma StepKeepsInv(s: State, e: Event, spent: set<string>)
    requires Inv(s, spent)
    ensures Inv(Step(s, e), spent + Stopped(s, Step(s, e)))
  {
    match e {
      case Sync(config, locked, file) =>
        SyncKeepsInv(s, config, locked, file, spent);
      case Locked =>
        RevokeKeepsInv(s, spent, {});
        assert s.(used := s.used + {}) == s;
      case Gone(owner) =>
        CloseKeepsInv(s, {owner}, spent);
        assert spent + {} == spent;
      case Open(owner, config, locked, file, eligible) =>
        SyncKeepsInv(s, config, locked, file, spent);
        var t := SyncGrant(s, config, locked, file);
        OpenKeepsInv(t, owner, !locked && eligible, spent + Stopped(s, t));
      case Restart =>
        RestartKeepsInv(s, spent);
    }
  }

  lemma {:induction false} RunKeepsInv(states: seq<State>, events: seq<Event>, k: nat)
    requires IsRun(states, events) && k < |states|
    ensures Inv(states[k], Spent(states, k))
  {
    if k > 0 {
      RunKeepsInv(states, events, k - 1);
      StepKeepsInv(states[k - 1], events[k - 1], Spent(states, k - 1));
    }
  }

  lemma {:induction false} StoppedNonceIsSpent(states: seq<State>, i: nat, j: nat)
    requires i < j < |states| && states[i].current != "" && states[j].current != states[i].current
    ensures states[i].current in Spent(states, j)
    decreases j
  {
    if j > i + 1 && states[j - 1].current != states[i].current {
      StoppedNonceIsSpent(states, i, j - 1);
    }
  }

  lemma {:induction false} SpentGrows(states: seq<State>, j: nat, k: nat)
    requires j <= k < |states|
    ensures Spent(states, j) <= Spent(states, k)
  {
    if j < k {
      SpentGrows(states, j, k - 1);
    }
  }

  /**
   Over any run with locks, config edits, disconnects and restarts: once a nonce stops being
   current it never becomes current again.
   */
  lemma NonceIsSingleUse(states: seq<State>, events: seq<Event>, i: nat, j: nat, k: nat)
    requires IsRun(states, events) && i < j <= k < |states|
    requires states[i].current != "" && states[j].current != states[i].current
    ensures states[k].current != states[i].current
  {
    StoppedNonceIsSpent(states, i, j);
    SpentGrows(states, j, k);
    RunKeepsInv(states, events, k);
  }

  /** The owners are the connected peers, and without a current grant there are none. */
  lemma OwnersArePeers(states: seq<State>, events: seq<Event>, k: nat)
    requires IsRun(states, events) && k < |states|
    ensures states[k].owners == states[k].peers
    ensures states[k].current == "" ==> states[k].peers == {}
  {
    RunKeepsInv(states, events, k);
  }

  /** Reading the config again keeps an owner only under the nonce it had. */
  lemma SyncKeepsOwners(s: State, config: Option<Config>, locked: bool, file: StoreFile, spent: set<string>)
    requires Inv(s, spent)
    ensures
      var t := SyncGrant(s, config, locked, file);
      t.owners == {} || (t.owners <= s.owners && t.current == s.current)
  {
    if Trusted(config) && s.grantNonce != config.value.nonce {
      assert CloseOwners(s, s.peers).owners == {};
    }
  }

  /** An eligible caller opens a connection while the screen is not locked. */
  predicate Admits(e: Event, owner: string) {
    e.Open? && e.owner == owner && e.eligible && !e.locked
  }

  lemma OwnerStep(s: State, e: Event, spent: set<string>, owner: string)
    requires Inv(s, spent) && owner in Step(s, e).owners
    ensures
      || (owner in s.owners && s.current == Step(s, e).current)
      || Admits(e, owner)
  {
    match e
    case Sync(config, locked, file) => SyncKeepsOwners(s, config, locked, file, spent);
    case Open(opener, config, locked, file, eligible) =>
      SyncKeepsOwners(s, config, locked, file, spent);
      OpenAddsOwner(SyncGrant(s, config, locked, file), opener, !locked && eligible);
    case _ =>
  }

  lemma OpenAddsOwner(s: State, owner: string, allowed: bool)
    ensures OpenPeer(s, owner, allowed).owners <= s.owners + (if allowed then {owner} else {})
    ensures OpenPeer(s, owner, allowed).current == s.current
  {
  }

  lemma AuthorizedBefore(states: seq<State>, events: seq<Event>, k: nat, owner: string)
    requires IsRun(states, events) && k < |events| && Authorized(states[k + 1], owner)
    ensures
      || (Authorized(states[k], owner) && states[k].current == states[k + 1].current)
      || Admits(events[k], owner)
  {
    RunKeepsInv(states, events, k);
    OwnerStep(states[k], events[k], Spent(states, k), owner);
  }

  /** Every authorized owner opened its connection under the nonce that is current now. */
  lemma {:induction false} AuthorizedOpenedUnderCurrent(
      states: seq<State>, events: seq<Event>, k: nat, owner: string) returns (j: nat)
    requires IsRun(states, events) && k < |states| && Authorized(states[k], owner)
    ensures j < k && Admits(events[j], owner)
    ensures forall i :: j < i <= k ==> states[i].current == states[k].current && Authorized(states[i], owner)
  {
    assert k > 0;
    AuthorizedBefore(states, events, k - 1, owner);
    j := k - 1;
    if !Admits(events[j], owner) {
      j := AuthorizedOpenedUnderCurrent(states, events, k - 1, owner);
    }
  }

  class Policy {
    var current: string
    var consumed: string
    var owners: set<string>

    constructor ()
      ensures current == "" && consumed == "" && owners == {}
    {
      current, consumed, owners := "", "", {};
    }

    method Revoke()
      modifies this
      ensures current == "" && owners == {}
      ensures consumed == if old(current) != "" then old(current) else old(consumed)
    {
      if current != "" {
        consumed := current;
      }
      current := "";
      owners := {};
    }

    method Grant(nonce: string)
      modifies this
      ensures nonce != "" && nonce == old(consumed) ==>
        current == old(current) && consumed == old(consumed) && owners == old(owners)
      ensures nonce != "" && nonce != old(consumed) ==>
        && current == nonce && consumed == old(consumed)
        && owners == if nonce == old(current) then old(owners) else {}
      ensures nonce == "" ==>
        && current == "" && owners == {}
        && consumed == if old(current) != "" then old(current) else old(consumed)
    {
      if nonce == "" {
        Revoke();
        return;
      }
      if nonce == consumed {
        return;
      }
      if nonce != current {
        owners := {};
        current := nonce;
      }
    }

    method Open(owner: string) returns (ok: bool)
      modifies this`owners
      ensures ok == (current != "")
      ensures owners == if ok then old(owners) + {owner} else old(owners)
    {
      if current == "" {
        return false;
      }
      owners := owners + {owner};
      ok := true;
    }

    method Close(owner: string)
      modifies this`owners
      ensures owners == old(owners) - {owner}
    {
      owners := owners - {owner};
    }
  }

  /** The persistent set of consumed nonces. */
  class GrantStore {
    var used: set<string>

    method Accept(nonce: string, file: StoreFile) returns (ok: bool)
      modifies this
      ensures ok == (Acceptable(old(used), nonce, file) && file.committed && file.reported)
      ensures used == if Acceptable(old(used), nonce, file) && file.committed then old(used) + {nonce} else old(used)
    {
      if !file.readable {
        return false;
      }
      if nonce == "" || nonce in used || |used| >= 4096 {
        return false;
      }
      if file.committed {
        used := used + {nonce};
      }
      ok := file.committed && file.reported;
    }
  }

  class Bridge {
    const policy: Policy
    const grants: GrantStore
    var peers: set<string>
    var grantNonce: string
    var grantPath: string

    function Value(): State
      reads this, policy, grants
    {
      State(policy.current, policy.consumed, policy.owners, peers, grantNonce, grantPath, grants.used)
    }

    /** A new process over the store the last one left. */
    constructor (grants: GrantStore)
      ensures this.grants == grants && fresh(policy) && grants.used == old(grants.used)
      ensures forall before: State :: before.used == grants.used ==> Value() == Restarted(before)
    {
      this.grants := grants;
      policy := new Policy();
      peers, grantNonce, grantPath := {}, "", "";
    }

    method Close(owner: string)
      modifies this, policy
      ensures Value() == CloseOwners(old(Value()), {owner})
    {
      peers := peers - {owner};
      policy.Close(owner);
    }

    method ClosePeers()
      modifies this, policy
      ensures Value() == CloseOwners(old(Value()), old(peers))
    {
      var left := peers;
      while left != {}
        invariant left <= old(peers)
        invariant Value() == CloseOwners(old(Value()), old(peers) - left)
        decreases left
      {
        var owner :| owner in left;
        Close(owner);
        left := left - {owner};
      }
    }

    method Revoke()
      modifies this, policy
      ensures Value() == RevokeAll(old(Value()))
    {
      policy.Revoke();
      ClosePeers();
    }

    method Sync(config: Option<Config>, locked: bool, file: StoreFile)
      modifies this, policy, grants
      ensures Value() == SyncGrant(old(Value()), config, locked, file)
    {
      if config.None? || !config.value.enabled || |config.value.nonce| < 16 || |config.value.nonce| > 128
         || !config.value.absolute {
        Revoke();
        return;
      }
      var nonce, path := config.value.nonce, config.value.path;
      if grantPath != path || grantNonce != nonce {
        if grantPath != path && grantNonce == nonce {
          Revoke();
          return;
        }
        ClosePeers();
        var accepted := grants.Accept(nonce, file);
        if !accepted {
          Revoke();
          return;
        }
        grantPath := path;
        grantNonce := nonce;
      }
      if locked {
        Revoke();
        return;
      }
      policy.Grant(nonce);
    }

    /** The `Open` call; `eligible` stands for the caller's user, process and program path. */
    method Open(owner: string, config: Option<Config>, locked: bool, file: StoreFile, eligible: bool)
      returns (ok: bool)
      modifies this, policy, grants
      ensures Value() == Step(old(Value()), Event.Open(owner, config, locked, file, eligible))
      ensures ok ==> Authorized(Value(), owner) && owner in peers
    {
      Sync(config, locked, file);
      if locked || !eligible {
        return false;
      }
      var admitted := policy.Open(owner);
      if !admitted {
        return false;
      }
      if owner !in peers {
        if |peers| >= 32 {
          policy.Close(owner);
          return false;
        }
        peers := peers + {owner};
      }
      ok := true;
    }
  }
}
