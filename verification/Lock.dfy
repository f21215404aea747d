/**
 The user-level integration lock: any number of processes create, read, move aside, put back and
 remove one lock file, one system call at a time, and may die between any two calls.
 */
module Lock {
  import opened Common

  type Pid = nat

  type Inode = nat

  /** What a holder wrote: nothing yet, or its process id and a time. */
  datatype Content = Empty | Mine(pid: Pid, created: nat)

  /** Where a process is between two system calls; no entry means it is not using the lock. */
  datatype Pc =
    | Trying(attempt: nat)                       // about to open exclusively
    | Opened(inode: Inode)                       // created the file, nothing written yet
    | Holding(inode: Inode, mine: Content)       // acquire returned
    | Releasing(inode: Inode)                    // read its own content back, about to unlink
    | Exists(attempt: nat)                       // open failed, about to read the holder
    | Judging(attempt: nat, holder: Option<Content>)
    | TakingOver(holder: Option<Content>)        // about to move the file aside
    | Aside(holder: Option<Content>, inode: Inode)  // moved it, about to compare
    | PuttingBack(inode: Inode)                  // it was not the one judged stale

  datatype State = State(
    lock: Option<Inode>, content: map<Inode, Content>, pcs: map<Pid, Pc>, alive: set<Pid>)

  datatype Step =
    | Open(pid: Pid, inode: Inode)
    | Write(pid: Pid, created: nat)
    | Read(pid: Pid)
    | Judge(pid: Pid, aged: bool)   // aged: the file's modification time is old enough
    | Rename(pid: Pid)
    | Compare(pid: Pid)
    | Link(pid: Pid)
    | ReadOwn(pid: Pid)
    | Unlink(pid: Pid)
    | Die(pid: Pid)

  /** `readHolder` of the lock path. */
  function Holder(s: State): Option<Content> {
    if s.lock.Some? && s.lock.value in s.content then Some(s.content[s.lock.value]) else None
  }

  function Attempt(s: State, p: Pid): nat {
    if p in s.pcs && s.pcs[p].Trying? then s.pcs[p].attempt else 0
  }

  predicate Stale(s: State, holder: Option<Content>, aged: bool) {
    match holder
    case Some(Mine(pid, _)) => pid !in s.alive
    case _ => aged && s.lock.Some?
  }

  predicate Enabled(s: State, step: Step) {
    && step.pid in s.alive
    && (match step
        case Open(p, i) => (p !in s.pcs || s.pcs[p].Trying?) && i !in s.content
        case Write(p, _) => p in s.pcs && s.pcs[p].Opened?
        case Read(p) => p in s.pcs && s.pcs[p].Exists?
        case Judge(p, _) => p in s.pcs && s.pcs[p].Judging?
        case Rename(p) => p in s.pcs && s.pcs[p].TakingOver?
        case Compare(p) => p in s.pcs && s.pcs[p].Aside? && s.pcs[p].inode in s.content
        case Link(p) => p in s.pcs && s.pcs[p].PuttingBack?
        case ReadOwn(p) => p in s.pcs && s.pcs[p].Holding?
        case Unlink(p) => p in s.pcs && s.pcs[p].Releasing?
        case Die(p) => true)
  }

  function At(s: State, p: Pid, pc: Pc): State {
    s.(pcs := s.pcs[p := pc])
  }

  function Leave(s: State, p: Pid): State {
    s.(pcs := s.pcs - {p})
  }

  function Next(s: State, step: Step): State
    requires Enabled(s, step)
  {
    match step
    case Open(p, i) =>
      if s.lock.None?
      then At(s.(lock := Some(i), content := s.content[i := Empty]), p, Opened(i))
      else At(s, p, Exists(Attempt(s, p)))
    case Write(p, created) =>
      var i := s.pcs[p].inode;
      At(s.(content := s.content[i := Mine(p, created)]), p, Holding(i, Mine(p, created)))
    case Read(p) => At(s, p, Judging(s.pcs[p].attempt, Holder(s)))
    case Judge(p, aged) =>
      if s.pcs[p].attempt > 0 || !Stale(s, s.pcs[p].holder, aged) then Leave(s, p)  // busy
      else At(s, p, TakingOver(s.pcs[p].holder))
    case Rename(p) =>
      if s.lock.None? then At(s, p, Trying(1))
      else At(s.(lock := None), p, Aside(s.pcs[p].holder, s.lock.value))
    case Compare(p) =>
      if Some(s.content[s.pcs[p].inode]) != s.pcs[p].holder
      then At(s, p, PuttingBack(s.pcs[p].inode))
      else At(s, p, Trying(1))
    case Link(p) =>
      At(if s.lock.None? then s.(lock := Some(s.pcs[p].inode)) else s, p, Trying(1))
    case ReadOwn(p) =>
      if Holder(s) == Some(s.pcs[p].mine) then At(s, p, Releasing(s.pcs[p].inode)) else Leave(s, p)
    case Unlink(p) => Leave(s.(lock := None), p)
    case Die(p) => s.(alive := s.alive - {p})
  }

  /** The lock file the process created and has not finished releasing. */
  function Owned(s: State, p: Pid): Option<Inode> {
    if p !in s.pcs then None
    else
      match s.pcs[p]
      case Opened(i) => Some(i)
      case Holding(i, _) => Some(i)
      case Releasing(i) => Some(i)
      case _ => None
  }

  predicate Holds(s: State, p: Pid) {
    p in s.alive && p in s.pcs && s.pcs[p].Holding?
  }

  /** This step moves the lock file of a live owner aside. */
  ghost predicate Displaces(s: State, step: Step) {
    step.Rename? && s.lock.Some? && exists q :: q in s.alive && Owned(s, q) == s.lock
  }

  /** Nobody uses the lock yet; a file some dead process left may be there. */
  predicate Init(s: State) {
    s.pcs == map[] && (s.lock.Some? ==> s.lock.value in s.content)
  }

  ghost predicate IsRun(states: seq<State>, steps: seq<Step>) {
    && |states| == |steps| + 1
    && Init(states[0])
    && forall k :: 0 <= k < |steps| ==> Enabled(states[k], steps[k]) && states[k + 1] == Next(states[k], steps[k])
  }

  /** Every lock file has one creator, which wrote nothing or its own process id into it. */
  ghost predicate Sane(s: State) {
    && (s.lock.Some? ==> s.lock.value in s.content)
    && (forall p :: Owned(s, p).Some? ==>
          && Owned(s, p).value in s.content
          && (s.content[Owned(s, p).value].Mine? ==> s.content[Owned(s, p).value].pid == p))
    && (forall p, q :: Owned(s, p).Some? && Owned(s, p) == Owned(s, q) ==> p == q)
    && (forall p :: p in s.pcs && s.pcs[p].Aside? ==> s.pcs[p].inode in s.content)
    && (forall p :: p in s.pcs && s.pcs[p].PuttingBack? ==> s.pcs[p].inode in s.content)
  }

  /** Every live owner's file is the one at the lock path. */
  ghost predicate Undisturbed(s: State) {
    forall p :: p in s.alive && Owned(s, p).Some? ==> s.lock == Owned(s, p)
  }

  lemma StepKeepsOthers(s: State, step: Step, p: Pid)
    requires Sane(s) && Enabled(s, step)
    ensures p != step.pid ==> Owned(Next(s, step), p) == Owned(s, p)
    ensures p == step.pid && Owned(Next(s, step), p).Some? ==>
      Owned(Next(s, step), p) == Owned(s, p) || (step.Open? && Owned(Next(s, step), p) == Some(step.inode))
  {
  }

  lemma StepStaysSane(s: State, step: Step)
    requires Sane(s) && Enabled(s, step)
    ensures Sane(Next(s, step))
  {
    var t := Next(s, step);
    assert t.content.Keys >= s.content.Keys;
    forall p | Owned(t, p).Some?
      ensures Owned(t, p).value in t.content
      ensures t.content[Owned(t, p).value].Mine? ==> t.content[Owned(t, p).value].pid == p
    {
      StepKeepsOthers(s, step, p);
      if step.Write? && p != step.pid {
        assert Owned(s, step.pid) != Owned(s, p);
      }
    }
    forall p, q | Owned(t, p).Some? && Owned(t, p) == Owned(t, q) ensures p == q {
      StepKeepsOthers(s, step, p);
      StepKeepsOthers(s, step, q);
    }
  }

  lemma StepStaysUndisturbed(s: State, step: Step)
    requires Sane(s) && Undisturbed(s) && Enabled(s, step) && !Displaces(s, step)
    ensures Undisturbed(Next(s, step))
  {
    var t := Next(s, step);
    assert forall p :: p != step.pid ==> Owned(t, p) == Owned(s, p);
  }

  lemma {:induction false} RunStaysSane(states: seq<State>, steps: seq<Step>, k: nat)
    requires IsRun(states, steps) && k < |states|
    ensures Sane(states[k])
  {
    if k > 0 {
      RunStaysSane(states, steps, k - 1);
      StepStaysSane(states[k - 1], steps[k - 1]);
    }
  }

  lemma {:induction false} RunStaysUndisturbed(states: seq<State>, steps: seq<Step>, k: nat)
    requires IsRun(states, steps) && k < |states|
    requires forall j :: 0 <= j < k ==> !Displaces(states[j], steps[j])
    ensures Undisturbed(states[k])
  {
    if k > 0 {
      RunStaysUndisturbed(states, steps, k - 1);
      RunStaysSane(states, steps, k - 1);
      StepStaysUndisturbed(states[k - 1], steps[k - 1]);
    }
  }

  /**
   Exclusion for any number of processes: two live processes hold the lock together only if some
   earlier takeover moved a live owner's file aside.
   */
  lemma TwoHoldersNeedADisplacement(states: seq<State>, steps: seq<Step>, k: nat, p: Pid, q: Pid)
    requires IsRun(states, steps) && k < |states|
    requires Holds(states[k], p) && Holds(states[k], q) && p != q
    ensures exists j :: 0 <= j < k && Displaces(states[j], steps[j])
  {
    if forall j :: 0 <= j < k ==> !Displaces(states[j], steps[j]) {
      RunStaysSane(states, steps, k);
      RunStaysUndisturbed(states, steps, k);
    }
  }

  /** A holder that was read, and whose process is dead. */
  predicate Dead(s: State, holder: Option<Content>) {
    holder.Some? && holder.value.Mine? && holder.value.pid !in s.alive
  }

  /** The step judges a lock stale by its age because no process id could be read from it. */
  predicate JudgesByAge(s: State, step: Step) {
    && step.Judge? && step.pid in s.pcs && s.pcs[step.pid].Judging?
    && (s.pcs[step.pid].holder.None? || s.pcs[step.pid].holder.value.Empty?)
    && step.aged
  }

  /**
   With two contenders `p` and `q`: a file `p` owns is at the lock path, or `q` moved it aside
   and is about to put it back. Takeovers under way started from a dead process.
   */
  ghost predicate Paired(s: State, p: Pid, q: Pid) {
    && (p in s.alive && q in s.alive && Owned(s, p).Some? ==>
          || s.lock == Owned(s, p)
          || (&& s.lock.None? && q in s.pcs && (s.pcs[q].Aside? || s.pcs[q].PuttingBack?)
              && Some(s.pcs[q].inode) == Owned(s, p)))
    && (p in s.alive && p in s.pcs && (s.pcs[p].Aside? || s.pcs[p].TakingOver?) ==> Dead(s, s.pcs[p].holder))
  }

  lemma TakeoversStayDead(s: State, step: Step, p: Pid)
    requires Sane(s) && Enabled(s, step) && !JudgesByAge(s, step)
    requires p in s.alive && p in s.pcs && (s.pcs[p].Aside? || s.pcs[p].TakingOver?) ==> Dead(s, s.pcs[p].holder)
    ensures
      var t := Next(s, step);
      p in t.alive && p in t.pcs && (t.pcs[p].Aside? || t.pcs[p].TakingOver?) ==> Dead(t, t.pcs[p].holder)
  {
  }

  lemma StepStaysPaired(s: State, step: Step, p: Pid, q: Pid)
    requires Sane(s) && Paired(s, p, q) && Paired(s, q, p) && p != q && s.alive <= {p, q}
    requires Enabled(s, step) && !JudgesByAge(s, step)
    ensures Paired(Next(s, step), p, q)
  {
    TakeoversStayDead(s, step, p);
    StepKeepsOthers(s, step, p);
    StepKeepsOthers(s, step, q);
  }

  lemma {:induction false} RunStaysPaired(states: seq<State>, steps: seq<Step>, k: nat, p: Pid, q: Pid)
    requires IsRun(states, steps) && k < |states| && p != q && states[0].alive <= {p, q}
    requires forall j :: 0 <= j < k ==> !JudgesByAge(states[j], steps[j])
    ensures states[k].alive <= {p, q} && Paired(states[k], p, q) && Paired(states[k], q, p)
  {
    if k > 0 {
      RunStaysPaired(states, steps, k - 1, p, q);
      RunStaysSane(states, steps, k - 1);
      StepStaysPaired(states[k - 1], steps[k - 1], p, q);
      StepStaysPaired(states[k - 1], steps[k - 1], q, p);
    }
  }

  /**
   Two contenders never hold the lock together, whatever dead processes left behind and however
   their takeovers race, unless one of them took over a lock it could not read.
   */
  lemma TwoContendersExclude(states: seq<State>, steps: seq<Step>, k: nat, p: Pid, q: Pid)
    requires IsRun(states, steps) && k < |states| && p != q && states[0].alive <= {p, q}
    requires forall j :: 0 <= j < k ==> !JudgesByAge(states[j], steps[j])
    ensures !(Holds(states[k], p) && Holds(states[k], q))
  {
    RunStaysPaired(states, steps, k, p, q);
    RunStaysSane(states, steps, k);
  }

  /** One more step of a run. */
  lemma Extend(states: seq<State>, steps: seq<Step>, step: Step) returns (more: seq<State>, taken: seq<Step>)
    requires IsRun(states, steps) && Enabled(states[|steps|], step)
    ensures IsRun(more, taken) && |taken| == |steps| + 1
    ensures more[0] == states[0] && more[|taken|] == Next(states[|steps|], step)
  {
    more, taken := states + [Next(states[|steps|], step)], steps + [step];
  }

  /** A dead process left its lock file behind; `live` processes are about to contend. */
  function Leftover(content: Content, live: set<Pid>): State {
    State(Some(0), map[0 := content], map[], live)
  }

  /** Two processes judge the leftover stale; one of them takes it over and opens the lock. */
  lemma BothTakeOver(content: Content, live: set<Pid>, aged: bool) returns (states: seq<State>, steps: seq<Step>)
    requires {1, 2} <= live && (if content.Mine? then content.pid !in live else aged)
    ensures IsRun(states, steps) && states[0] == Leftover(content, live)
    ensures states[|steps|] == State(
      Some(2), map[0 := content, 2 := Empty], map[1 := TakingOver(Some(content)), 2 := Opened(2)], live)
  {
    states, steps := [Leftover(content, live)], [];
    states, steps := Extend(states, steps, Open(1, 1));
    states, steps := Extend(states, steps, Read(1));
    states, steps := Extend(states, steps, Judge(1, aged));
    states, steps := Extend(states, steps, Open(2, 1));
    states, steps := Extend(states, steps, Read(2));
    states, steps := Extend(states, steps, Judge(2, aged));
    states, steps := Extend(states, steps, Rename(2));
    states, steps := Extend(states, steps, Compare(2));
    states, steps := Extend(states, steps, Open(2, 2));
  }

  /**
   Why an unreadable lock must not be judged by age for exclusion of two: an empty file left by a
   dead process equals the empty file of a new owner, so the new owner's file is not put back.
   */
  lemma UnreadableLockBreaksExclusion() returns (states: seq<State>, steps: seq<Step>)
    ensures IsRun(states, steps) && states[0] == Leftover(Empty, {1, 2})
    ensures Holds(states[|steps|], 1) && Holds(states[|steps|], 2)
  {
    states, steps := BothTakeOver(Empty, {1, 2}, true);
    states, steps := Extend(states, steps, Rename(1));
    states, steps := Extend(states, steps, Compare(1));
    states, steps := Extend(states, steps, Open(1, 3));
    states, steps := Extend(states, steps, Write(1, 0));
    states, steps := Extend(states, steps, Write(2, 0));
  }

  /** Why a third contender breaks exclusion: it opens the lock between a rename and the put-back. */
  lemma ThirdContenderBreaksExclusion() returns (states: seq<State>, steps: seq<Step>)
    ensures IsRun(states, steps) && states[0] == Leftover(Mine(9, 0), {1, 2, 3})
    ensures Holds(states[|steps|], 2) && Holds(states[|steps|], 3)
  {
    states, steps := BothTakeOver(Mine(9, 0), {1, 2, 3}, false);
    states, steps := Extend(states, steps, Write(2, 0));
    states, steps := Extend(states, steps, Rename(1));
    states, steps := Extend(states, steps, Compare(1));
    states, steps := Extend(states, steps, Open(3, 3));
    states, steps := Extend(states, steps, Write(3, 0));
  }
}
