/** The operator's reconfiguration workflow: Reconcile over the persisted status of a RaftCluster. */
module Operator {
  import opened Types
  import opened Membership

  // ---------------------------------------------------------------- status

  datatype Phase = NoPhase | Pending | ReadyPhase | Reconfiguring | Degraded

  /** `Unknown` is any step the workflow's switch has no case for, LeaderTransfer included. */
  datatype Step = NoStep | AddLearner | CatchUp | EnterJoint | CommitNew | LeaveJoint | Unknown(name: string)

  datatype Joint = Unset | NoJoint | Entering | Committed | Leaving

  /** Times are in nanoseconds. */
  datatype Status = Status(phase: Phase, step: Step, joint: Joint, configIndex: uint64, lastReconfigAt: Option<int>)

  datatype Mode = Safe | UnsafeEarlyVote | UnsafeNoJoint | OtherMode

  /** What needsReconfiguration answers. The StatefulSet is rewritten before it is compared, so the answer is
      whatever the possibly stale read gives. */
  datatype Answer = Yes | No | ReadError

  /** Everything one Reconcile meets: whether the object is there, how each write and the child objects fare,
      the answer of the comparison, the spec, and the clock at the cooldown check and at the stamp. */
  datatype Env = Env(found: bool, initWrite: bool, children: bool, needs: Answer, write: bool, degradedWrite: bool,
                     mode: Mode, cooldown: int, now: int, stamp: int)

  const SECOND: int := 1_000_000_000

  /** The API stores times to the second. */
  function Stored(s: Status): Status {
    s.(lastReconfigAt := if s.lastReconfigAt.Some? then Some(s.lastReconfigAt.value / SECOND * SECOND) else None)
  }

  // ---------------------------------------------------------------- one Reconcile

  function Initialised(s: Status): Status {
    if s.phase.NoPhase? then s.(phase := Pending, joint := NoJoint, configIndex := 0) else s
  }

  predicate InCooldown(s: Status, env: Env) {
    s.lastReconfigAt.Some? && env.now - s.lastReconfigAt.value < env.cooldown * SECOND
  }

  function Inc64(i: uint64): uint64 {
    (i + 1) % TWO64
  }

  /** The status in memory after the workflow function for the mode, before it is written. */
  function Advance(s: Status, env: Env): Status {
    if env.mode.UnsafeEarlyVote? then
      s.(phase := ReadyPhase, step := NoStep, lastReconfigAt := Some(env.stamp))
    else if env.mode.UnsafeNoJoint? then
      s.(phase := ReadyPhase, step := NoStep, joint := NoJoint, lastReconfigAt := Some(env.stamp))
    else match s.step
      case NoStep => s.(step := Step.AddLearner, joint := NoJoint)
      case AddLearner => s.(step := CatchUp)
      case CatchUp => s.(step := EnterJoint, joint := Entering)
      case EnterJoint => s.(step := CommitNew, joint := Committed, configIndex := Inc64(s.configIndex))
      case CommitNew => s.(step := LeaveJoint, joint := Leaving)
      case LeaveJoint => s.(step := NoStep, joint := NoJoint, phase := ReadyPhase, lastReconfigAt := Some(env.stamp))
      case Unknown(_) => s.(step := NoStep)
  }

  /** The persisted status after one Reconcile. */
  function After(p: Status, env: Env): Status {
    if !env.found || (p.phase.NoPhase? && !env.initWrite) then p
    else
      var s := Initialised(p);
      var q := if p.phase.NoPhase? then Stored(s) else p;
      if !env.children || env.needs.ReadError? then q
      else if env.needs.No? then
        if !s.phase.ReadyPhase? && env.write then Stored(s.(phase := ReadyPhase, step := NoStep)) else q
      else if InCooldown(s, env) then q
      else
        var t := Advance(s.(phase := Reconfiguring), env);
        if env.write then Stored(t)
        else if env.degradedWrite then Stored(t.(phase := Degraded))
        else q
  }

  class Controller {
    var persisted: Status

    constructor (p: Status)
      ensures persisted == p
    {
      persisted := p;
    }

    method Update(s: Status, ok: bool) returns (err: bool)
      modifies this
      ensures err == !ok && persisted == if ok then Stored(s) else old(persisted)
    {
      if ok {
        persisted := Stored(s);
      }
      err := !ok;
    }

    method Reconcile(env: Env)
      modifies this
      ensures persisted == After(old(persisted), env)
    {
      if !env.found {
        return;
      }
      var status := persisted;
      if status.phase.NoPhase? {
        status := status.(phase := Pending);
        status := status.(joint := NoJoint);
        status := status.(configIndex := 0);
        var err := Update(status, env.initWrite);
        if err {
          return;
        }
      }
      if !env.children || env.needs.ReadError? {
        return;
      }
      if env.needs.Yes? {
        var next, err := Reconfigure(status, env);
        if err {
          next := next.(phase := Degraded);
          var ignored := Update(next, env.degradedWrite);
        }
        return;
      }
      if !status.phase.ReadyPhase? {
        status := status.(phase := ReadyPhase);
        status := status.(step := NoStep);
        var err := Update(status, env.write);
      }
    }

    /** Cooldown check and dispatch on the safety mode. The status in memory comes back changed even if the write
        of it failed. */
    method Reconfigure(s: Status, env: Env) returns (status: Status, err: bool)
      modifies this
      ensures status == if InCooldown(s, env) then s else Advance(s.(phase := Reconfiguring), env)
      ensures err <==> !InCooldown(s, env) && !env.write
      ensures persisted == if InCooldown(s, env) || err then old(persisted) else Stored(status)
    {
      status := s;
      if status.lastReconfigAt.Some? && env.now - status.lastReconfigAt.value < env.cooldown * SECOND {
        return status, false;
      }
      status := status.(phase := Reconfiguring);
      match env.mode {
        case UnsafeEarlyVote =>
          status := status.(phase := ReadyPhase);
          status := status.(step := NoStep);
          status := status.(lastReconfigAt := Some(env.stamp));
        case UnsafeNoJoint =>
          status := status.(phase := ReadyPhase);
          status := status.(step := NoStep);
          status := status.(joint := NoJoint);
          status := status.(lastReconfigAt := Some(env.stamp));
        case _ =>
          status := SafeStep(status, env);
      }
      err := Update(status, env.write);
    }

    method SafeStep(s: Status, env: Env) returns (status: Status)
      requires env.mode.Safe? || env.mode.OtherMode?
      ensures status == Advance(s, env)
    {
      status := s;
      match s.step {
        case NoStep =>
          status := status.(step := Step.AddLearner);
          status := status.(joint := NoJoint);
        case AddLearner =>
          status := status.(step := CatchUp);
        case CatchUp =>
          status := status.(joint := Entering);
          status := status.(step := EnterJoint);
        case EnterJoint =>
          status := status.(joint := Committed);
          status := status.(step := CommitNew);
          status := status.(configIndex := Inc64(status.configIndex));
        case CommitNew =>
          status := status.(joint := Leaving);
          status := status.(step := LeaveJoint);
        case LeaveJoint =>
          status := status.(joint := NoJoint);
          status := status.(step := NoStep);
          status := status.(phase := ReadyPhase);
          status := status.(lastReconfigAt := Some(env.stamp));
        case Unknown(_) =>
          status := status.(step := NoStep);
      }
    }
  }

  // ---------------------------------------------------------------- what one Reconcile comes to

  /** The object is there, its status initialised, and the child objects are in order. */
  predicate Reaches(p: Status, env: Env) {
    env.found && (p.phase.NoPhase? ==> env.initWrite) && env.children
  }

  /** A stamp exists and less than the cooldown has passed since. */
  predicate TooSoon(p: Status, env: Env) {
    p.lastReconfigAt.Some? && env.now < p.lastReconfigAt.value + env.cooldown * 1_000_000_000
  }

  /** A needed reconfiguration in safe mode is deferred if and only if the last one is too recent: otherwise the step
      changes, and deferring changes nothing but a fresh status. */
  lemma DeferredExactly(p: Status, env: Env)
    requires Reaches(p, env) && env.needs.Yes? && env.write && (env.mode.Safe? || env.mode.OtherMode?)
    ensures After(p, env).step == p.step <==> TooSoon(p, env)
    ensures TooSoon(p, env) && !p.phase.NoPhase? ==> After(p, env) == p
    ensures !TooSoon(p, env) && !p.step.LeaveJoint? ==> After(p, env).phase.Reconfiguring?
  {
  }

  /** In the unsafe modes a needed reconfiguration is over in one reconcile unless it is too soon: the workflow is at
      rest, the stamp is the clock's, to the second, and only the mode that skips the joint phase clears the joint
      state. */
  lemma UnsafeStamps(p: Status, env: Env)
    requires Reaches(p, env) && env.needs.Yes? && env.write && (env.mode.UnsafeEarlyVote? || env.mode.UnsafeNoJoint?)
    requires !p.phase.NoPhase?
    ensures TooSoon(p, env) ==> After(p, env) == p
    ensures !TooSoon(p, env) ==>
      var q := After(p, env);
      && q.phase.ReadyPhase? && q.step.NoStep? && q.configIndex == p.configIndex
      && q.joint == (if env.mode.UnsafeNoJoint? then NoJoint else p.joint)
      && q.lastReconfigAt.Some? && q.lastReconfigAt.value % 1_000_000_000 == 0
      && q.lastReconfigAt.value <= env.stamp < q.lastReconfigAt.value + 1_000_000_000
  {
    FloorToSecond(env.stamp);
  }

  /** When nothing is to be reconfigured the status comes to rest, if it can be written; stamp, joint state and index of
      an initialised object stay. */
  lemma NothingToDo(p: Status, env: Env)
    requires Reaches(p, env) && env.needs.No? && p == Stored(p) && !p.phase.NoPhase?
    ensures
      After(p, env) == if env.write && !p.phase.ReadyPhase? then p.(phase := ReadyPhase, step := NoStep) else p
  {
  }

  /** A failed status write loses nothing if the Degraded write after it succeeds: the persisted status is the one that
      was to be written, in phase Degraded. If that fails too, nothing is persisted. */
  lemma FailedWriteDegrades(p: Status, env: Env)
    requires Reaches(p, env) && env.needs.Yes? && !env.write && !TooSoon(p, env) && !p.phase.NoPhase?
    ensures
      After(p, env) ==
      if env.degradedWrite then After(p, env.(write := true)).(phase := Degraded) else p
  {
  }

  /** A missing object, a failed initialisation, failing child objects and a failing comparison persist nothing
      further. */
  lemma FailuresPersistNothing(p: Status, env: Env)
    requires !Reaches(p, env) || env.needs.ReadError?
    ensures !p.phase.NoPhase? || !env.found || !env.initWrite ==> After(p, env) == p
    ensures
      p.phase.NoPhase? && env.found && env.initWrite ==>
        var q := After(p, env);
        q.phase.Pending? && q.joint.NoJoint? && q.configIndex == 0 && q.step == p.step
  {
  }

  // ---------------------------------------------------------------- runs

  /** A Reconcile, or someone else setting the step to a value the workflow does not know. */
  datatype Event = Tick(env: Env) | Foreign(name: string)

  function Next(p: Status, ev: Event): Status {
    match ev
    case Tick(env) => After(p, env)
    case Foreign(name) => p.(step := Unknown(name))
  }

  function Run(p: Status, evs: seq<Event>): Status {
    if evs == [] then p else Next(Run(p, evs[..|evs| - 1]), evs[|evs| - 1])
  }

  /** The status of a newly created object. */
  const FRESH := Status(NoPhase, NoStep, Unset, 0, None)

  predicate EntersCommit(p: Status, q: Status) {
    q.step.CommitNew? && !p.step.CommitNew?
  }

  /** How often the persisted step became CommitNew. */
  function Commits(p: Status, evs: seq<Event>): nat {
    if evs == [] then 0
    else
      var before := Run(p, evs[..|evs| - 1]);
      Commits(p, evs[..|evs| - 1]) + (if EntersCommit(before, Next(before, evs[|evs| - 1])) then 1 else 0)
  }

  /** The joint state a workflow step stands for. */
  predicate JointFits(p: Status) {
    match p.step
    case AddLearner => p.joint.NoJoint?
    case CatchUp => p.joint.NoJoint?
    case EnterJoint => p.joint.Entering?
    case CommitNew => p.joint.Committed?
    case LeaveJoint => p.joint.Leaving?
    case _ => true
  }

  predicate Inv(p: Status, commits: nat) {
    && JointFits(p) && p.configIndex == commits % TWO64
    && (p.phase.NoPhase? ==> commits == 0 && (p.step.NoStep? || p.step.Unknown?))
  }

  lemma NextKeeps(p: Status, ev: Event, commits: nat)
    requires Inv(p, commits)
    ensures Inv(Next(p, ev), if EntersCommit(p, Next(p, ev)) then commits + 1 else commits)
    ensures !EntersCommit(p, Next(p, ev)) ==> Next(p, ev).configIndex == p.configIndex
  {
    assert ((commits % TWO64) + 1) % TWO64 == (commits + 1) % TWO64;
  }

  /** In every run from a new object, with mode switches, unknown steps, resets to Ready and failed writes followed by
      a Degraded write: a workflow step fixes the joint state, and the configuration index is the number of times
      CommitNew was persisted, modulo 2^64. */
  lemma {:induction false} WorkflowInvariant(evs: seq<Event>)
    ensures Inv(Run(FRESH, evs), Commits(FRESH, evs))
  {
    if evs != [] {
      WorkflowInvariant(evs[..|evs| - 1]);
      NextKeeps(Run(FRESH, evs[..|evs| - 1]), evs[|evs| - 1], Commits(FRESH, evs[..|evs| - 1]));
    }
  }

  /** The index never goes back, short of 2^64 commits. */
  lemma ConfigurationIndexMonotone(evs: seq<Event>, ev: Event)
    requires Commits(FRESH, evs + [ev]) < TWO64
    ensures Run(FRESH, evs).configIndex <= Run(FRESH, evs + [ev]).configIndex
  {
    WorkflowInvariant(evs);
    WorkflowInvariant(evs + [ev]);
    assert (evs + [ev])[..|evs|] == evs;
  }

  /** The unsafe modes finish a reconfiguration in one reconcile and never pass through CommitNew: in runs that use
      only them no step of the workflow is ever persisted, and the configuration index stays 0. */
  lemma {:induction false} UnsafeModesNeverCommit(evs: seq<Event>)
    requires forall ev :: ev in evs ==> ev.Foreign? || ev.env.mode.UnsafeEarlyVote? || ev.env.mode.UnsafeNoJoint?
    ensures
      var p := Run(FRESH, evs);
      Commits(FRESH, evs) == 0 && p.configIndex == 0 && (p.step.NoStep? || p.step.Unknown?)
  {
    WorkflowInvariant(evs);
    if evs != [] {
      var n := |evs| - 1;
      assert evs[n] in evs;
      assert forall ev :: ev in evs[..n] ==> ev in evs;
      UnsafeModesNeverCommit(evs[..n]);
    }
  }

  // ---------------------------------------------------------------- progress

  /** Reconciles still needed by the safe workflow. */
  function Distance(s: Step): nat {
    match s
    case Unknown(_) => 7
    case NoStep => 6
    case AddLearner => 5
    case CatchUp => 4
    case EnterJoint => 3
    case CommitNew => 2
    case LeaveJoint => 1
  }

  /** Reconfiguration is needed, writes succeed, the mode is safe and the cooldown of p's stamp has passed. */
  predicate Favourable(p: Status, env: Env) {
    && env.found && env.initWrite && env.children && env.needs.Yes? && env.write
    && (env.mode.Safe? || env.mode.OtherMode?)
    && (p.lastReconfigAt.Some? ==> env.now >= p.lastReconfigAt.value + env.cooldown * 1_000_000_000)
  }

  function Ticks(envs: seq<Env>): seq<Event> {
    seq(|envs|, i requires 0 <= i < |envs| => Tick(envs[i]))
  }

  /** From any status the API may hold, k favourable reconciles leave the workflow k steps on, with the stamp untouched,
      until it completes on exactly the reconcile its step calls for, never later than the seventh. */
  lemma {:induction false} SafeModeCompletes(p: Status, envs: seq<Env>)
    requires p == Stored(p) && |envs| <= Distance(p.step)
    requires forall env :: env in envs ==> Favourable(p, env)
    ensures Distance(p.step) <= 7
    ensures
      var q := Run(p, Ticks(envs));
      if |envs| < Distance(p.step) then
        Distance(q.step) == Distance(p.step) - |envs| && q.lastReconfigAt == p.lastReconfigAt
      else
        && q.step.NoStep? && q.joint.NoJoint? && q.phase.ReadyPhase?
        && q.lastReconfigAt == Some(envs[|envs| - 1].stamp / SECOND * SECOND)
  {
    if envs != [] {
      var n := |envs| - 1;
      SafeModeCompletes(p, envs[..n]);
      assert Ticks(envs)[..n] == Ticks(envs[..n]);
      assert envs[n] in envs;
    }
  }

  // ---------------------------------------------------------------- cooldown

  /** The values LastReconfigAt took, in order. */
  function Stamps(p: Status, envs: seq<Env>): seq<int> {
    if envs == [] then []
    else
      var before := Run(p, Ticks(envs[..|envs| - 1]));
      var after := After(before, envs[|envs| - 1]);
      Stamps(p, envs[..|envs| - 1]) +
      (if after.lastReconfigAt != before.lastReconfigAt && after.lastReconfigAt.Some?
       then [after.lastReconfigAt.value] else [])
  }

  predicate Spaced(stamps: seq<int>, gap: int) {
    forall i, j :: 0 <= i && j == i + 1 < |stamps| ==> stamps[j] - stamps[i] >= gap
  }

  /** One reconcile either leaves the stamp, or moves it by at least the cooldown, to a whole second. */
  lemma StampStep(p: Status, env: Env)
    requires p.lastReconfigAt.Some? ==> p.lastReconfigAt.value % SECOND == 0
    requires env.now <= env.stamp
    ensures
      var q := After(p, env);
      && (q.lastReconfigAt.Some? ==> q.lastReconfigAt.value % SECOND == 0)
      && (p.lastReconfigAt.Some? ==> q.lastReconfigAt.Some?)
      && (p.lastReconfigAt.Some? && q.lastReconfigAt != p.lastReconfigAt ==>
            q.lastReconfigAt.value - p.lastReconfigAt.value >= env.cooldown * SECOND)
  {
    FloorToSecond(env.stamp);
    if p.lastReconfigAt.Some? {
      var t := p.lastReconfigAt.value;
      FloorToSecond(t);
      WholeSecondsBelow(t / SECOND + env.cooldown, env.stamp);
    }
  }

  lemma FloorToSecond(t: int)
    ensures (t / SECOND * SECOND) % SECOND == 0 && t / SECOND * SECOND <= t
    ensures t % SECOND == 0 ==> t / SECOND * SECOND == t
  {
  }

  lemma WholeSecondsBelow(s: int, t: int)
    ensures s * SECOND <= t ==> s * SECOND <= t / SECOND * SECOND
  {
  }

  /** Successive persisted stamps are at least the cooldown apart, in every run mixing the three modes and interrupted
      workflows. */
  lemma {:induction false} CooldownSpacing(envs: seq<Env>, cooldown: int)
    requires forall i :: 0 <= i < |envs| ==> envs[i].cooldown == cooldown && envs[i].now <= envs[i].stamp
    ensures
      var stamps, last := Stamps(FRESH, envs), Run(FRESH, Ticks(envs)).lastReconfigAt;
      && Spaced(stamps, cooldown * SECOND)
      && last == (if stamps == [] then None else Some(stamps[|stamps| - 1]))
      && (last.Some? ==> last.value % SECOND == 0)
  {
    if envs != [] {
      var n := |envs| - 1;
      hide After;
      CooldownSpacing(envs[..n], cooldown);
      assert Ticks(envs)[..n] == Ticks(envs[..n]);
      StampStep(Run(FRESH, Ticks(envs[..n])), envs[n]);
      assert Run(FRESH, Ticks(envs)) == After(Run(FRESH, Ticks(envs[..n])), envs[n]);
      hide Run, Ticks;
    }
  }

  // ---------------------------------------------------------------- what the steps stand for

  /** The design's reading of a step, which the controller itself does not enforce: elections need a majority of the
      old pods before EnterJoint, of both sets in EnterJoint and CommitNew, and of the new pods from LeaveJoint on. */
  predicate QuorumUnder(s: Step, oldVoters: set<nat>, newVoters: set<nat>, q: set<nat>) {
    match s
    case EnterJoint => JointQuorum(q, oldVoters, newVoters)
    case CommitNew => JointQuorum(q, oldVoters, newVoters)
    case LeaveJoint => Majority(q, newVoters)
    case _ => Majority(q, oldVoters)
  }

  /** The reconcile takes the workflow's last step, after which the new pods are the configuration in force. */
  predicate Completes(p: Status, env: Env) {
    p.step.LeaveJoint? && After(p, env).step.NoStep? && env.needs.Yes?
  }

  /** The reading of what one reconcile leaves behind: completing adopts the new pods, anything else is read off the
      step, so that giving the workflow up goes back to the old pods. */
  predicate QuorumAfter(p: Status, env: Env, oldVoters: set<nat>, newVoters: set<nat>, q: set<nat>) {
    if Completes(p, env) then Majority(q, newVoters) else QuorumUnder(After(p, env).step, oldVoters, newVoters, q)
  }

  /** No quorum before the reconcile misses one after it. */
  ghost predicate KeepsMeeting(p: Status, env: Env, oldVoters: set<nat>, newVoters: set<nat>) {
    forall q, r :: QuorumUnder(p.step, oldVoters, newVoters, q) && QuorumAfter(p, env, oldVoters, newVoters, r) ==>
      q * r != {}
  }

  /** The reconcile finds nothing to reconfigure while the workflow waits to leave the joint phase, and resets it. */
  predicate GivesUpLate(p: Status, env: Env) {
    && p.step.LeaveJoint? && !p.phase.ReadyPhase? && (p.phase.NoPhase? ==> env.initWrite)
    && env.found && env.children && env.needs.No? && env.write
  }

  lemma GivesUpMeans(p: Status, env: Env)
    requires env.mode.Safe? || env.mode.OtherMode?
    ensures
      p.step.LeaveJoint? ==>
        && (After(p, env).step.LeaveJoint? || After(p, env).step.NoStep?)
        && (GivesUpLate(p, env) <==> After(p, env).step.NoStep? && !Completes(p, env))
  {
  }

  /** Leaving the joint phase for nothing goes from a majority of the new pods to one of the old. */
  lemma GivingUpClashes(p: Status, env: Env, oldVoters: set<nat>, newVoters: set<nat>)
    requires (env.mode.Safe? || env.mode.OtherMode?) && GivesUpLate(p, env)
    ensures KeepsMeeting(p, env, oldVoters, newVoters) <==> !RoomForTwo(oldVoters, newVoters)
  {
    GivesUpMeans(p, env);
    ClashExactly(oldVoters, newVoters);
    hide After, GivesUpLate, Majority, RoomForTwo;
    if CanClash(oldVoters, newVoters) {
      var r, q :| Majority(r, oldVoters) && Majority(q, newVoters) && r * q == {};
      assert QuorumUnder(p.step, oldVoters, newVoters, q) && QuorumAfter(p, env, oldVoters, newVoters, r);
      assert q * r == {};
    } else {
      forall q, r | QuorumUnder(p.step, oldVoters, newVoters, q) && QuorumAfter(p, env, oldVoters, newVoters, r)
        ensures q * r != {}
      {
        assert Majority(q, newVoters) && Majority(r, oldVoters);
        assert r * q == q * r;
      }
    }
  }

  lemma OtherwiseMeets(p: Status, env: Env, oldVoters: set<nat>, newVoters: set<nat>, q: set<nat>, r: set<nat>)
    requires (env.mode.Safe? || env.mode.OtherMode?) && !GivesUpLate(p, env)
    requires QuorumUnder(p.step, oldVoters, newVoters, q) && QuorumAfter(p, env, oldVoters, newVoters, r)
    ensures q * r != {}
  {
    GivesUpMeans(p, env);
    match p.step
    case LeaveJoint => MajoritiesMeet(newVoters, q, r);
    case EnterJoint => JointQuorumMeetsAll(oldVoters, newVoters, q, r);
    case CommitNew => JointQuorumMeetsAll(oldVoters, newVoters, q, r);
    case _ =>
      if After(p, env).step.EnterJoint? {
        JointQuorumMeetsAll(oldVoters, newVoters, r, q);
      } else {
        MajoritiesMeet(oldVoters, q, r);
      }
  }

  /** Exactly which safe-mode reconciles are safe, from any status, with any answer and any outcome of the writes: all
      but those that give the workflow up at LeaveJoint, and these too unless the two pod sets have room for disjoint
      majorities. */
  lemma SafeStepsExactly(p: Status, env: Env, oldVoters: set<nat>, newVoters: set<nat>)
    requires env.mode.Safe? || env.mode.OtherMode?
    ensures
      KeepsMeeting(p, env, oldVoters, newVoters) <==> !(GivesUpLate(p, env) && RoomForTwo(oldVoters, newVoters))
  {
    if GivesUpLate(p, env) {
      GivingUpClashes(p, env, oldVoters, newVoters);
    } else {
      forall q, r | QuorumUnder(p.step, oldVoters, newVoters, q) && QuorumAfter(p, env, oldVoters, newVoters, r)
        ensures q * r != {}
      {
        OtherwiseMeets(p, env, oldVoters, newVoters, q, r);
      }
    }
  }
}
