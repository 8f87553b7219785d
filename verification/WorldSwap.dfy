/** Replacing the worlds of a server: `installStagedWorlds` and its `rollbackWorlds`
    (backend/internal/operations/worlds.go).

    The data, rollback and staging directories map names to trees. The rollback directory lies
    in the data directory under a fresh name of its own; the staging directory does too, and
    belongs to the caller. Every file-system and
    Docker call is a `Step` that the fault plan may make fail. A step is performed at most
    once in a run, so a plan that chooses per step covers every run there is. */
module WorldSwap {
  import opened Text
  import opened Wrappers
  import opened Paths
  import opened Trees

  datatype Step =
    | MakeRollback | Stop | Start | Restart | RemoveRollback
    | StatCurrent(name: string) | StageAside(name: string)
    | StatStaged(name: string) | PutIn(name: string)
    | Remove(name: string) | StatOld(name: string) | PutBack(name: string)
  {
    /** The phase of the run that performs this step. */
    function Phase(): nat {
      match this
      case MakeRollback => 0
      case Stop => 1
      case StatCurrent(_) => 2
      case StageAside(_) => 2
      case StatStaged(_) => 3
      case PutIn(_) => 3
      case Start => 4
      case Remove(_) => 5
      case StatOld(_) => 5
      case PutBack(_) => 5
      case Restart => 6
      case RemoveRollback => 7
    }
  }

  /** Only steps of earlier phases have been performed. */
  ghost predicate Until(performed: set<Step>, phase: nat) {
    forall s | s in performed :: s.Phase() < phase
  }

  /** As `Until(phase)`, and in the phase itself only steps on the first `at` names. */
  ghost predicate UntilName(performed: set<Step>, phase: nat, names: seq<string>, at: nat) {
    forall s | s in performed ::
      s.Phase() < phase || (s.Phase() == phase && Named(phase) && Reached(names, at, s.name))
  }

  lemma UntilLater(performed: set<Step>, phase: nat, later: nat)
    requires Until(performed, phase) && phase <= later
    ensures Until(performed, later)
  {
  }

  lemma UntilPhaseStarts(performed: set<Step>, phase: nat, names: seq<string>)
    requires Until(performed, phase)
    ensures UntilName(performed, phase, names, 0)
  {
  }

  lemma UntilPhaseEnds(performed: set<Step>, phase: nat, names: seq<string>, at: nat)
    requires UntilName(performed, phase, names, at)
    ensures Until(performed, phase + 1)
  {
  }

  /** Phases whose steps carry a name. */
  predicate Named(phase: nat) {
    phase == 2 || phase == 3 || phase == 5
  }

  /** From one set of steps to the next only steps of this phase on this name are added. */
  ghost predicate StepsOn(from: set<Step>, to: set<Step>, phase: nat, name: string) {
    forall s | s in to && s !in from :: s.Phase() == phase && Named(phase) && s.name == name
  }

  lemma UntilNext(from: set<Step>, phase: nat, names: seq<string>, at: nat)
    requires Distinct(names) && at < |names| && UntilName(from, phase, names, at) && Named(phase)
    ensures forall s: Step | s.Phase() == phase && s.name == names[at] :: s !in from
  {
    ReachNext(names, at);
  }

  lemma UntilStepped(from: set<Step>, to: set<Step>, phase: nat, names: seq<string>, at: nat)
    requires Distinct(names) && at < |names| && UntilName(from, phase, names, at)
    requires StepsOn(from, to, phase, names[at])
    ensures UntilName(to, phase, names, at + 1)
  {
    ReachNext(names, at);
  }

  /** What goes wrong: the steps that fail, what (if anything) a failed `RemoveAll` leaves of a
      world or of the rollback directory, and whether the container runs after a failed Docker
      call. */
  datatype SwapFaults = SwapFaults(fails: Step -> bool, residue: string -> Option<Node>,
                                   leftover: Option<Forest>, runs: Step -> bool)
  {

    predicate StageBlocked(name: string, data: Forest) {
      fails(StatCurrent(name)) || (name in data && fails(StageAside(name)))
    }

    predicate InstallBlocked(name: string, staging: Forest) {
      fails(StatStaged(name)) || (name in staging && fails(PutIn(name)))
    }

    /** Once set aside, a world under this name is not put back. */
    predicate Stuck(name: string) {
      fails(StatOld(name)) || fails(PutBack(name))
    }

    /** Every remove, stat and rename of the recovery succeeds. */
    ghost predicate RecoveryWorks(names: seq<string>) {
      forall n | n in names :: !fails(Remove(n)) && !fails(StatOld(n)) && !fails(PutBack(n))
    }
  }

  datatype Outcome =
    | NoRollbackDirectory | StopFailed
    | StageFailed(at: nat) | InstallFailed(at: nat) | StartFailed
    | Installed

  function At(forest: Forest, name: string): Option<Node> {
    if name in forest then Some(forest[name]) else None
  }

  // ---- the run in closed form ----

  /** `name` is among the first `at` names. */
  predicate Reached(names: seq<string>, at: nat, name: string) {
    at <= |names| && name in names[..at]
  }

  function FirstStageBlocked(names: seq<string>, data: Forest, f: SwapFaults): (at: nat)
    ensures at <= |names|
    ensures forall j :: 0 <= j < at ==> !f.StageBlocked(names[j], data)
    ensures at < |names| ==> f.StageBlocked(names[at], data)
  {
    if names == [] || f.StageBlocked(names[0], data) then 0
    else 1 + FirstStageBlocked(names[1..], data, f)
  }

  function FirstInstallBlocked(names: seq<string>, staging: Forest, f: SwapFaults): (at: nat)
    ensures at <= |names|
    ensures forall j :: 0 <= j < at ==> !f.InstallBlocked(names[j], staging)
    ensures at < |names| ==> f.InstallBlocked(names[at], staging)
  {
    if names == [] || f.InstallBlocked(names[0], staging) then 0
    else 1 + FirstInstallBlocked(names[1..], staging, f)
  }

  /** The verdict once every old world is set aside. */
  function InstallVerdict(names: seq<string>, staging: Forest, f: SwapFaults): Outcome {
    var at := FirstInstallBlocked(names, staging, f);
    if at < |names| then InstallFailed(at) else if f.fails(Start) then StartFailed else Installed
  }

  /** The verdict once the container has stopped. */
  function SwapVerdict(names: seq<string>, data: Forest, staging: Forest, f: SwapFaults): Outcome {
    var at := FirstStageBlocked(names, data, f);
    if at < |names| then StageFailed(at) else InstallVerdict(names, staging, f)
  }

  function Verdict(names: seq<string>, data: Forest, staging: Forest, f: SwapFaults): Outcome {
    if f.fails(MakeRollback) then NoRollbackDirectory
    else if f.fails(Stop) then StopFailed
    else SwapVerdict(names, data, staging, f)
  }

  /** One name after `rollbackWorlds`, given what data and rollback held under it. */
  function Recovered(name: string, current: Option<Node>, aside: Option<Node>, f: SwapFaults): Option<Node> {
    if aside.Some? && !f.Stuck(name) then aside
    else if current.Some? && f.fails(Remove(name)) then f.residue(name)
    else None
  }

  /** A replaced name at the end of a run, from what data and staging held under it. */
  function SwappedAt(names: seq<string>, outcome: Outcome, before: Option<Node>, staged: Option<Node>,
                     f: SwapFaults, name: string): Option<Node> {
    match outcome
    case NoRollbackDirectory => before
    case StopFailed => before
    case StageFailed(at) =>
      if Reached(names, at, name) then Recovered(name, None, before, f) else Recovered(name, before, None, f)
    case InstallFailed(at) =>
      Recovered(name, if Reached(names, at, name) then staged else None, before, f)
    case StartFailed => Recovered(name, staged, before, f)
    case Installed => staged
  }

  /** Whether a run with this outcome moved the world under `name` into the rollback directory
      and did not move it back. */
  predicate StaysAside(names: seq<string>, outcome: Outcome, f: SwapFaults, name: string) {
    && f.Stuck(name)
    && match outcome
       case StageFailed(at) => Reached(names, at, name)
       case InstallFailed(_) => name in names
       case StartFailed => name in names
       case _ => false
  }

  /** The rollback directory when the replacement returns, if it is still there. Only success
      removes it. */
  function RollbackLeft(names: seq<string>, data: Forest, outcome: Outcome, f: SwapFaults): Option<Forest> {
    match outcome
    case NoRollbackDirectory => None
    case Installed => if f.fails(RemoveRollback) then f.leftover else None
    case _ => Some(map n | n in data && StaysAside(names, outcome, f, n) :: data[n])
  }

  function DirectoryOf(forest: Option<Forest>): Option<Node> {
    if forest.Some? then Some(Dir(forest.value)) else None
  }

  /** A name `MkdirTemp` can have chosen: nothing has it, and it is no world's. */
  predicate Fresh(own: string, names: seq<string>, data: Forest) {
    own !in names && own !in data
  }

  /** What the data directory holds under `name` when the replacement returns; `own` is the
      name of the rollback directory. */
  function FinalAt(names: seq<string>, own: string, data: Forest, staging: Forest, f: SwapFaults, name: string):
    Option<Node>
  {
    var outcome := Verdict(names, data, staging, f);
    if name == own then DirectoryOf(RollbackLeft(names, data, outcome, f))
    else if name in names then SwappedAt(names, outcome, At(data, name), At(staging, name), f, name)
    else At(data, name)
  }

  /** Whether the container runs when the replacement returns: a failure after the stop always
      ends with an attempt to start it again. */
  function EndsRunning(outcome: Outcome, wasRunning: bool, f: SwapFaults): bool {
    match outcome
    case NoRollbackDirectory => wasRunning
    case StopFailed => f.runs(Stop)
    case Installed => true
    case _ => !f.fails(Restart) || f.runs(Restart)
  }

  // ---- the run, step by step ----

  /** The directories and the container between two steps. */
  datatype Disk = Disk(data: Forest, rollback: Forest, staging: Forest, running: bool)

  /** Every tree of `before` is intact, in place or set aside. */
  ghost predicate Intact(disk: Disk, before: Forest) {
    forall n | n in before :: At(disk.data, n) == Some(before[n]) || At(disk.rollback, n) == Some(before[n])
  }

  /** The history goes on from `from` to `to` through states that keep `before` intact. */
  ghost predicate Keeps(from: seq<Disk>, to: seq<Disk>, before: Forest) {
    from <= to && forall k | |from| <= k < |to| :: Intact(to[k], before)
  }

  lemma KeepsTransitive(a: seq<Disk>, b: seq<Disk>, c: seq<Disk>, before: Forest)
    requires Keeps(a, b, before) && Keeps(b, c, before)
    ensures Keeps(a, c, before) && |a| <= |b| <= |c|
  {
  }

  lemma KeepsLess(a: seq<Disk>, b: seq<Disk>, before: Forest, fewer: Forest)
    requires Keeps(a, b, before) && forall n | n in fewer :: n in before && fewer[n] == before[n]
    ensures Keeps(a, b, fewer)
  {
  }

  function Without(forest: Forest, name: string): Forest {
    map n | n in forest && n != name :: forest[n]
  }

  /** The trees a run guarantees to keep: all of them, except that a failure while staging
      aside gives up the worlds it has not reached. */
  function Kept(names: seq<string>, data: Forest, outcome: Outcome): Forest {
    if outcome.StageFailed?
    then map n | n in data && (n in names ==> Reached(names, outcome.at, n)) :: data[n]
    else data
  }

  class Host {
    var data: Forest
    var rollback: Forest
    var staging: Forest
    var running: bool
    const own: string
    var made: bool
    const faults: SwapFaults
    ghost var performed: set<Step>
    ghost var history: seq<Disk>

    constructor (data: Forest, staging: Forest, running: bool, own: string, faults: SwapFaults)
      ensures this.data == data && this.staging == staging && this.running == running
      ensures this.own == own && this.faults == faults
      ensures rollback == map[] && !made && performed == {} && history == []
    {
      this.data, this.staging, this.running, this.own, this.faults := data, staging, running, own, faults;
      rollback, made, performed, history := map[], false, {}, [];
    }

    /** The whole data directory but the staging directory. */
    function Listing(): Forest
      reads this
    {
      if made then data[own := Dir(rollback)] else data
    }

    ghost function Now(): Disk
      reads this
    {
      Disk(data, rollback, staging, running)
    }

    /** The rollback directory is gone, unless removing it failed. */
    ghost predicate CleanedUp()
      reads this
    {
      && made == (faults.fails(RemoveRollback) && faults.leftover.Some?)
      && (made ==> rollback == faults.leftover.value)
    }

    /** A call that leaves the directories alone: `Stat`, or `MkdirTemp` of an empty one. */
    method Try(step: Step) returns (ok: bool)
      requires step !in performed
      modifies this`performed
      ensures performed == old(performed) + {step}
      ensures ok == !faults.fails(step)
    {
      performed := performed + {step};
      return !faults.fails(step);
    }

    method Docker(step: Step, target: bool, ghost before: Forest) returns (ok: bool)
      requires step !in performed && Intact(Now(), before)
      modifies this`performed, this`history, this`running
      ensures performed == old(performed) + {step}
      ensures ok == !faults.fails(step)
      ensures running == if ok then target else faults.runs(step)
      ensures history == old(history) + [Now()]
      ensures Keeps(old(history), history, before) && Intact(Now(), before)
    {
      performed := performed + {step};
      ok := !faults.fails(step);
      running := if ok then target else faults.runs(step);
      history := history + [Now()];
    }

    /** `RemoveAll` of a world; a failure may leave part of the tree. */
    method RemoveWorld(name: string)
      requires Remove(name) !in performed
      modifies this`data, this`performed, this`history
      ensures performed == old(performed) + {Remove(name)}
      ensures forall n | n != name :: At(data, n) == At(old(data), n)
      ensures At(data, name) ==
              if name in old(data) && faults.fails(Remove(name)) then faults.residue(name) else None
      ensures history == old(history) + [Now()]
    {
      performed := performed + {Remove(name)};
      if name in data {
        if faults.fails(Remove(name)) && faults.residue(name).Some? {
          data := data[name := faults.residue(name).value];
        } else {
          data := Without(data, name);
        }
      }
      history := history + [Now()];
    }

    /** `Rename` of a world from the data directory into the rollback directory. */
    method RenameAside(name: string) returns (ok: bool)
      requires StageAside(name) !in performed && name in data
      modifies this`data, this`rollback, this`performed, this`history
      ensures performed == old(performed) + {StageAside(name)} && ok == !faults.fails(StageAside(name))
      ensures !ok ==> data == old(data) && rollback == old(rollback)
      ensures ok ==> At(data, name) == None && At(rollback, name) == At(old(data), name)
      ensures forall n | n != name :: At(data, n) == At(old(data), n) && At(rollback, n) == At(old(rollback), n)
      ensures history == old(history) + [Now()]
    {
      ok := Try(StageAside(name));
      if ok {
        rollback, data := rollback[name := data[name]], Without(data, name);
      }
      history := history + [Now()];
    }

    /** `Rename` of a world from the staging directory into the data directory. */
    method RenameIn(name: string) returns (ok: bool)
      requires PutIn(name) !in performed && name in staging
      modifies this`data, this`staging, this`performed, this`history
      ensures performed == old(performed) + {PutIn(name)} && ok == !faults.fails(PutIn(name))
      ensures !ok ==> data == old(data) && staging == old(staging)
      ensures ok ==> At(data, name) == At(old(staging), name)
      ensures forall n | n != name :: At(data, n) == At(old(data), n) && At(staging, n) == At(old(staging), n)
      ensures history == old(history) + [Now()]
    {
      ok := Try(PutIn(name));
      if ok {
        data, staging := data[name := staging[name]], Without(staging, name);
      }
      history := history + [Now()];
    }

    /** `Rename` of a world from the rollback directory back into the data directory. Where a
        failed removal left files the call fails as well; a plan in which it does not is harmless. */
    method RenameBack(name: string) returns (ok: bool)
      requires PutBack(name) !in performed && name in rollback
      modifies this`data, this`rollback, this`performed, this`history
      ensures performed == old(performed) + {PutBack(name)} && ok == !faults.fails(PutBack(name))
      ensures !ok ==> data == old(data) && rollback == old(rollback)
      ensures ok ==> At(data, name) == At(old(rollback), name) && At(rollback, name) == None
      ensures forall n | n != name :: At(data, n) == At(old(data), n) && At(rollback, n) == At(old(rollback), n)
      ensures history == old(history) + [Now()]
    {
      ok := Try(PutBack(name));
      if ok {
        data, rollback := data[name := rollback[name]], Without(rollback, name);
      }
      history := history + [Now()];
    }

    /** The recovery of one world: remove what is there, put back what was set aside. */
    method RecoverWorld(name: string, ghost before: Forest)
      requires Remove(name) !in performed && StatOld(name) !in performed && PutBack(name) !in performed
      requires Intact(Now(), before) && (name in before ==> At(rollback, name) == Some(before[name]))
      modifies this`data, this`rollback, this`performed, this`history
      ensures StepsOn(old(performed), performed, 5, name)
      ensures forall n | n != name :: At(data, n) == At(old(data), n) && At(rollback, n) == At(old(rollback), n)
      ensures At(data, name) == Recovered(name, At(old(data), name), At(old(rollback), name), faults)
      ensures At(rollback, name) == if faults.Stuck(name) then At(old(rollback), name) else None
      ensures Keeps(old(history), history, before) && Intact(Now(), before)
    {
      hide Intact, Keeps;
      ghost var was := Now();
      RemoveWorld(name);
      IntactChange(was, Now(), name, before);
      KeepsStep(old(history), Now(), before);
      ghost var so := history;
      RestoreWorld(name, before);
      KeepsTransitive(old(history), so, history, before);
    }

    /** The second half of that: look for what was set aside, and put it back. */
    method RestoreWorld(name: string, ghost before: Forest)
      requires StatOld(name) !in performed && PutBack(name) !in performed
      requires Intact(Now(), before) && (name in before ==> At(rollback, name) == Some(before[name]))
      modifies this`data, this`rollback, this`performed, this`history
      ensures old(performed) <= performed <= old(performed) + {StatOld(name), PutBack(name)}
      ensures forall n | n != name :: At(data, n) == At(old(data), n) && At(rollback, n) == At(old(rollback), n)
      ensures if name in old(rollback) && !faults.Stuck(name)
              then At(data, name) == At(old(rollback), name) && At(rollback, name) == None
              else data == old(data) && rollback == old(rollback)
      ensures Keeps(old(history), history, before) && Intact(Now(), before)
    {
      hide Intact, Keeps;
      ghost var was, so := Now(), history;
      KeepsNothing(history, before);
      var found := Try(StatOld(name));
      if found && name in rollback {
        var moved := RenameBack(name);
        IntactChange(was, Now(), name, before);
        KeepsStep(so, Now(), before);
      }
    }

    /** `rollbackWorlds`. Its steps must be new to the run, so no run performs it twice. */
    method RollbackWorlds(names: seq<string>, ghost before: Forest)
      requires Distinct(names)
      requires Until(performed, 5)
      requires Intact(Now(), before) && forall n | n in names && n in before :: At(rollback, n) == Some(before[n])
      modifies this`data, this`rollback, this`performed, this`history
      ensures RolledBack(names, old(data), old(rollback), data, rollback, faults)
      ensures Until(performed, 6)
      ensures Keeps(old(history), history, before) && Intact(Now(), before)
    {
      hide Intact, Recovered, Keeps, Reached, Until, UntilName, StepsOn;
      KeepsNothing(history, before);
      ReachEnds(names);
      UntilPhaseStarts(performed, 5, names);
      var i := 0;
      while i < |names|
        invariant 0 <= i <= |names|
        invariant UntilName(performed, 5, names, i)
        invariant forall n | !Reached(names, i, n) ::
          At(data, n) == At(old(data), n) && At(rollback, n) == At(old(rollback), n)
        invariant forall n | Reached(names, i, n) ::
          && At(data, n) == Recovered(n, At(old(data), n), At(old(rollback), n), faults)
          && At(rollback, n) == if faults.Stuck(n) then At(old(rollback), n) else None
        invariant Keeps(old(history), history, before) && Intact(Now(), before)
      {
        ReachNext(names, i);
        UntilNext(performed, 5, names, i);
        ghost var so, done := history, performed;
        RecoverWorld(names[i], before);
        UntilStepped(done, performed, 5, names, i);
        KeepsTransitive(old(history), so, history, before);
        i := i + 1;
      }
      UntilPhaseEnds(performed, 5, names, i);
    }

    /** The staging loop's body: an existing world is renamed into the rollback directory. */
    method StageWorldAside(name: string, ghost before: Forest) returns (ok: bool)
      requires StatCurrent(name) !in performed && StageAside(name) !in performed
      requires name !in rollback && Intact(Now(), before)
      modifies this`data, this`rollback, this`performed, this`history
      ensures StepsOn(old(performed), performed, 2, name)
      ensures ok == !faults.StageBlocked(name, old(data))
      ensures !ok ==> data == old(data) && rollback == old(rollback)
      ensures ok ==> At(data, name) == None && At(rollback, name) == At(old(data), name)
      ensures forall n | n != name :: At(data, n) == At(old(data), n) && At(rollback, n) == At(old(rollback), n)
      ensures Keeps(old(history), history, before) && Intact(Now(), before)
    {
      hide Intact, Keeps;
      ghost var was := Now();
      KeptInStep(was, name, before);
      KeepsNothing(history, before);
      ok := Try(StatCurrent(name));
      if ok && name in data {
        ok := RenameAside(name);
        IntactChange(was, Now(), name, before);
        KeepsStep(old(history), Now(), before);
      }
    }

    method StageAllAside(names: seq<string>, ghost before: Forest) returns (at: nat)
      requires Distinct(names) && rollback == map[] && Intact(Now(), before)
      requires Until(performed, 2)
      modifies this`data, this`rollback, this`performed, this`history
      ensures at == FirstStageBlocked(names, old(data), faults)
      ensures forall n | Reached(names, at, n) :: At(data, n) == None && At(rollback, n) == At(old(data), n)
      ensures forall n | !Reached(names, at, n) :: At(data, n) == At(old(data), n) && At(rollback, n) == None
      ensures Until(performed, 3)
      ensures Keeps(old(history), history, before) && Intact(Now(), before)
    {
      hide Intact, Keeps, Reached, Until, UntilName, StepsOn;
      KeepsNothing(history, before);
      ReachEnds(names);
      UntilPhaseStarts(performed, 2, names);
      at := 0;
      while at < |names|
        invariant at <= |names|
        invariant forall j | 0 <= j < at :: !faults.StageBlocked(names[j], old(data))
        invariant UntilName(performed, 2, names, at)
        invariant forall n | Reached(names, at, n) :: At(data, n) == None && At(rollback, n) == At(old(data), n)
        invariant forall n | !Reached(names, at, n) :: At(data, n) == At(old(data), n) && At(rollback, n) == None
        invariant Keeps(old(history), history, before) && Intact(Now(), before)
      {
        ReachNext(names, at);
        UntilNext(performed, 2, names, at);
        ghost var so, done := history, performed;
        assert At(data, names[at]) == At(old(data), names[at]) && At(rollback, names[at]) == None;
        var moved := StageWorldAside(names[at], before);
        UntilStepped(done, performed, 2, names, at);
        UntilPhaseEnds(performed, 2, names, at + 1);
        KeepsTransitive(old(history), so, history, before);
        if !moved {
          return;
        }
        at := at + 1;
      }
      UntilPhaseEnds(performed, 2, names, at);
    }

    /** The installation loop's body: a staged world is renamed into place. */
    method PutWorldIn(name: string, ghost before: Forest) returns (ok: bool)
      requires StatStaged(name) !in performed && PutIn(name) !in performed
      requires Intact(Now(), before) && (name in before ==> At(rollback, name) == Some(before[name]))
      modifies this`data, this`staging, this`performed, this`history
      ensures StepsOn(old(performed), performed, 3, name)
      ensures ok == !faults.InstallBlocked(name, old(staging))
      ensures !ok ==> data == old(data) && staging == old(staging)
      ensures ok ==> At(data, name) == if name in old(staging) then At(old(staging), name) else At(old(data), name)
      ensures forall n | n != name :: At(data, n) == At(old(data), n) && At(staging, n) == At(old(staging), n)
      ensures Keeps(old(history), history, before) && Intact(Now(), before)
    {
      hide Intact, Keeps;
      ghost var was := Now();
      KeepsNothing(history, before);
      ok := Try(StatStaged(name));
      if ok && name in staging {
        ok := RenameIn(name);
        IntactChange(was, Now(), name, before);
        KeepsStep(old(history), Now(), before);
      }
    }

    method PutAllIn(names: seq<string>, ghost before: Forest) returns (at: nat)
      requires Distinct(names)
      requires Until(performed, 3)
      requires Intact(Now(), before) && forall n | n in names && n in before :: At(rollback, n) == Some(before[n])
      requires forall n | n in names :: At(data, n) == None
      modifies this`data, this`staging, this`performed, this`history
      ensures at == FirstInstallBlocked(names, old(staging), faults)
      ensures forall n | Reached(names, at, n) :: At(data, n) == At(old(staging), n)
      ensures forall n | !Reached(names, at, n) :: At(data, n) == At(old(data), n)
      ensures Until(performed, 4)
      ensures Keeps(old(history), history, before) && Intact(Now(), before)
    {
      hide Intact, Keeps, Reached, Until, UntilName, StepsOn;
      KeepsNothing(history, before);
      ReachEnds(names);
      UntilPhaseStarts(performed, 3, names);
      at := 0;
      while at < |names|
        invariant at <= |names|
        invariant forall j | 0 <= j < at :: !faults.InstallBlocked(names[j], old(staging))
        invariant UntilName(performed, 3, names, at)
        invariant forall n | Reached(names, at, n) :: At(data, n) == At(old(staging), n)
        invariant forall n | !Reached(names, at, n) ::
          At(data, n) == At(old(data), n) && At(staging, n) == At(old(staging), n)
        invariant Keeps(old(history), history, before) && Intact(Now(), before)
      {
        ReachNext(names, at);
        UntilNext(performed, 3, names, at);
        ghost var so, done := history, performed;
        assert At(staging, names[at]) == At(old(staging), names[at]) && At(data, names[at]) == None;
        var moved := PutWorldIn(names[at], before);
        UntilStepped(done, performed, 3, names, at);
        UntilPhaseEnds(performed, 3, names, at + 1);
        KeepsTransitive(old(history), so, history, before);
        if !moved {
          return;
        }
        at := at + 1;
      }
      UntilPhaseEnds(performed, 3, names, at);
    }

    /** Every configured world is in the rollback directory and nowhere else. */
    ghost predicate SetAside(names: seq<string>, before: Forest)
      reads this
    {
      && made
      && (forall n | n in names :: At(rollback, n) == At(before, n))
      && (forall n | n !in names :: At(rollback, n) == None && At(data, n) == At(before, n))
    }

    /** The run has ended: the names hold what the outcome says, the container runs as it says,
        and nothing that the run keeps was lost since `from`. */
    ghost predicate Done(names: seq<string>, outcome: Outcome, before: Forest, staged: Forest, from: seq<Disk>)
      reads this
    {
      && !outcome.NoRollbackDirectory? && !outcome.StopFailed?
      && running == EndsRunning(outcome, false, faults)
      && if outcome.Installed?
         then InPlace(names, before, staged, data) && StartedOn(from, history, before, data) && CleanedUp()
         else made && Restart in performed && FailedAs(names, outcome, before, staged, data, rollback, faults) &&
              KeptAll(from, Kept(names, before, outcome))
    }

    /** The trees are intact now, and were at all times since `from`. */
    ghost predicate KeptAll(from: seq<Disk>, kept: Forest)
      reads this
    {
      Keeps(from, history, kept) && Intact(Now(), kept)
    }

    /** The deferred recovery: put the old worlds back and try to start the container. */
    method Recover(names: seq<string>, ghost before: Forest)
      requires Distinct(names)
      requires Until(performed, 5)
      requires Intact(Now(), before) && forall n | n in names && n in before :: At(rollback, n) == Some(before[n])
      modifies this`data, this`rollback, this`running, this`performed, this`history
      ensures RolledBack(names, old(data), old(rollback), data, rollback, faults)
      ensures Keeps(old(history), history, before) && Intact(Now(), before)
      ensures running == (!faults.fails(Restart) || faults.runs(Restart)) && Restart in performed
    {
      RollbackWorlds(names, before);
      ghost var so := history;
      var _ := Docker(Restart, true, before);
      KeepsTransitive(old(history), so, history, before);
    }

    /** The recovery of a run that has set every old world aside. */
    method RecoverAside(names: seq<string>, ghost outcome: Outcome, ghost before: Forest, ghost staged: Forest,
                        ghost from: seq<Disk>)
      requires Distinct(names) && (outcome.InstallFailed? || outcome.StartFailed?)
      requires Until(performed, 5) && SetAside(names, before) && Keeps(from, history, before)
      requires forall n | n in names :: At(data, n) == Placed(names, outcome, staged, n)
      modifies this`data, this`rollback, this`running, this`performed, this`history
      ensures Done(names, outcome, before, staged, from)
    {
      IntactAside(Now(), names, before);
      hide Intact, Keeps, Recovered, StaysAside, SwapFaults.Stuck, Reached, Until, SwappedAt, Placed, At;
      hide RolledBack, FailedAs;
      ghost var so, placed, aside := history, data, rollback;
      Recover(names, before);
      KeepsTransitive(from, so, history, before);
      RecoveryEnds(names, outcome, before, staged, placed, aside, data, rollback, faults);
    }

    /** The recovery of a run that failed while setting the old worlds aside. */
    method RecoverStaging(names: seq<string>, ghost at: nat, ghost before: Forest, ghost staged: Forest,
                          ghost from: seq<Disk>)
      requires Distinct(names) && made
      requires Until(performed, 5) && KeptAll(from, before)
      requires forall n | Reached(names, at, n) :: At(data, n) == None && At(rollback, n) == At(before, n)
      requires forall n | !Reached(names, at, n) :: At(data, n) == At(before, n) && At(rollback, n) == None
      modifies this`data, this`rollback, this`running, this`performed, this`history
      ensures Done(names, StageFailed(at), before, staged, from)
    {
      ghost var so, kept := history, Kept(names, before, StageFailed(at));
      KeptLess(names, before, StageFailed(at));
      StillIntact(Now(), before, kept);
      KeepsLess(from, so, before, kept);
      ReachEnds(names);
      hide Intact, Keeps, Recovered, StaysAside, SwapFaults.Stuck, Reached, Until, SwappedAt, Kept, At;
      hide RolledBack, FailedAs;
      ghost var left, aside := data, rollback;
      Recover(names, kept);
      KeepsTransitive(from, so, history, kept);
      StagingRecoveryEnds(names, at, before, staged, left, aside, data, rollback, faults);
    }

    /** Start the container on the replacement, or recover. */
    method StartOrRecover(names: seq<string>, ghost before: Forest, ghost staged: Forest, ghost from: seq<Disk>)
      returns (outcome: Outcome)
      requires Distinct(names)
      requires Until(performed, 4) && SetAside(names, before) && Keeps(from, history, before)
      requires forall n | n in names :: At(data, n) == At(staged, n)
      modifies this
      ensures outcome == if faults.fails(Start) then StartFailed else Installed
      ensures Done(names, outcome, before, staged, from)
    {
      IntactAside(Now(), names, before);
      ghost var so := history;
      var started := Docker(Start, true, before);
      KeepsTransitive(from, so, history, before);
      UntilStarted(old(performed), performed);
      hide Intact, Keeps, Recovered, Reached, Until, At;
      if !started {
        outcome := StartFailed;
        hide Done;
        RecoverAside(names, outcome, before, staged, from);
        return;
      }
      AllPlaced(names, before, staged, data);
      hide InPlace;
      RemoveRollbackDirectory(from, before);
      outcome := Installed;
    }

    /** The deferred `RemoveAll` of the rollback directory. */
    method RemoveRollbackDirectory(ghost from: seq<Disk>, ghost before: Forest)
      requires running && |from| < |history| && history[|history| - 1] == Now() && Keeps(from, history, before)
      modifies this`made, this`rollback, this`history
      ensures StartedOn(from, history, before, data) && CleanedUp()
    {
      ghost var ran := history;
      made := faults.fails(RemoveRollback) && faults.leftover.Some?;
      rollback := if made then faults.leftover.value else map[];
      history := history + [Now()];
      assert history[..|history| - 1] == ran;
      hide Keeps;
    }

    /** From `installed := false` to the end: install, start, and recover unless both worked. */
    method InstallOrRecover(names: seq<string>, ghost before: Forest, ghost from: seq<Disk>) returns (outcome: Outcome)
      requires Distinct(names)
      requires Until(performed, 3) && SetAside(names, before) && Keeps(from, history, before)
      requires forall n | n in names :: At(data, n) == None
      modifies this
      ensures outcome == InstallVerdict(names, old(staging), faults)
      ensures Done(names, outcome, before, old(staging), from)
    {
      IntactAside(Now(), names, before);
      ReachEnds(names);
      hide Intact, Keeps, Reached, Until, FirstInstallBlocked, Done, At;
      ghost var so, staged := history, staging;
      var put := PutAllIn(names, before);
      KeepsTransitive(from, so, history, before);
      if put < |names| {
        outcome := InstallFailed(put);
        UntilLater(performed, 4, 5);
        RecoverAside(names, outcome, before, staged, from);
      } else {
        outcome := StartOrRecover(names, before, staged, from);
      }
    }

    /** Everything after the container has stopped. */
    method SwapStopped(names: seq<string>, ghost from: seq<Disk>) returns (outcome: Outcome)
      requires Distinct(names) && rollback == map[] && made
      requires Until(performed, 2) && Keeps(from, history, data)
      modifies this
      ensures outcome == SwapVerdict(names, old(data), old(staging), faults)
      ensures Done(names, outcome, old(data), old(staging), from)
    {
      ghost var so, before, staged := history, data, staging;
      IntactAside(Now(), [], before);
      ReachEnds(names);
      hide Intact, Keeps, Reached, Until, FirstStageBlocked, InstallVerdict, Done;
      var at := StageAllAside(names, before);
      KeepsTransitive(from, so, history, before);
      if at < |names| {
        outcome := StageFailed(at);
        UntilLater(performed, 3, 5);
        RecoverStaging(names, at, before, staged, from);
      } else {
        outcome := InstallOrRecover(names, before, from);
      }
    }

    /** `installStagedWorlds`: the outcome and the final directory under every name are the
        closed forms above, and no intermediate state loses a kept tree before the container
        has started on the replacement. */
    method InstallStagedWorlds(names: seq<string>) returns (outcome: Outcome)
      requires Distinct(names) && Fresh(own, names, data) && !made && rollback == map[] && performed == {}
      modifies this
      ensures outcome == Verdict(names, old(data), old(staging), faults)
      ensures forall n :: At(Listing(), n) == FinalAt(names, own, old(data), old(staging), faults, n)
      ensures !outcome.Installed? ==> KeptAll(old(history), Kept(names, old(data), outcome))
      ensures outcome.Installed? ==> StartedOn(old(history), history, old(data), data) && CleanedUp()
      ensures running == EndsRunning(outcome, old(running), faults)
      ensures outcome.Installed? ==> running
      ensures outcome.StageFailed? || outcome.InstallFailed? || outcome.StartFailed? ==>
        Restart in performed && (!faults.fails(Restart) ==> running)
    {
      ghost var before, staged, from := data, staging, history;
      hide SwappedAt, SwapVerdict, FinalAt, RollbackLeft, StaysAside, Intact, Keeps, StartedOn, InPlace;
      hide FailedAs, Until;
      var failure := Prepare();
      if failure.Some? {
        outcome := failure.value;
        if made {
          EmptyListed(names, own, before, staged, faults);
        } else {
          NothingListed(names, own, before, staged, faults);
        }
        return;
      }
      outcome := SwapStopped(names, from);
      hide Verdict, At;
      if outcome.Installed? {
        InstalledListed(names, own, before, staged, faults, data, made, rollback);
      } else {
        FailureListed(names, own, before, staged, faults, data, rollback);
      }
    }

    /** Make the rollback directory and stop the container. */
    method Prepare() returns (failure: Option<Outcome>)
      requires !made && rollback == map[] && performed == {}
      modifies this`made, this`running, this`performed, this`history
      ensures faults.fails(MakeRollback) ==>
        failure == Some(NoRollbackDirectory) && !made && running == old(running)
      ensures !faults.fails(MakeRollback) && faults.fails(Stop) ==>
        failure == Some(StopFailed) && made && running == faults.runs(Stop)
      ensures !faults.fails(MakeRollback) && !faults.fails(Stop) ==> failure == None && made
      ensures Until(performed, 2) && KeptAll(old(history), data)
    {
      IntactAside(Now(), [], data);
      KeepsNothing(history, data);
      hide Intact, Keeps;
      var created := Try(MakeRollback);
      if !created {
        return Some(NoRollbackDirectory);
      }
      made := true;
      var stopped := Docker(Stop, false, data);
      return if stopped then None else Some(StopFailed);
    }
  }

  // Where the staged worlds are when the installation or the start fails.
  function Placed(names: seq<string>, outcome: Outcome, staged: Forest, name: string): Option<Node> {
    match outcome
    case InstallFailed(at) => if Reached(names, at, name) then At(staged, name) else None
    case _ => At(staged, name)
  }

  /** Everything of `before` is intact up to the state in which the container runs on `data`;
      only the rollback directory is removed after that. */
  ghost predicate StartedOn(from: seq<Disk>, to: seq<Disk>, before: Forest, data: Forest) {
    && |to| >= |from| + 2
    && Keeps(from, to[..|to| - 1], before)
    && to[|to| - 2].running && to[|to| - 2].data == data && to[|to| - 1].data == data
  }

  lemma UntilStarted(from: set<Step>, to: set<Step>)
    requires Until(from, 4) && to == from + {Start}
    ensures Until(to, 5)
  {
  }

  /** The staged worlds are in place, and the rest is as before. */
  ghost predicate InPlace(names: seq<string>, before: Forest, staged: Forest, data: Forest) {
    forall n :: At(data, n) == At(if n in names then staged else before, n)
  }

  lemma AllPlaced(names: seq<string>, before: Forest, staged: Forest, data: Forest)
    requires forall n | n in names :: At(data, n) == At(staged, n)
    requires forall n | n !in names :: At(data, n) == At(before, n)
    ensures InPlace(names, before, staged, data)
  {
  }

  /** What `rollbackWorlds` makes of the data and rollback directories. */
  ghost predicate RolledBack(names: seq<string>, data: Forest, aside: Forest, dataNow: Forest, asideNow: Forest,
                             f: SwapFaults)
  {
    && (forall n | n !in names :: At(dataNow, n) == At(data, n) && At(asideNow, n) == At(aside, n))
    && (forall n | n in names ::
          && At(dataNow, n) == Recovered(n, At(data, n), At(aside, n), f)
          && At(asideNow, n) == if f.Stuck(n) then At(aside, n) else None)
  }

  /** The data and rollback directories are as this failure leaves them. */
  ghost predicate FailedAs(names: seq<string>, outcome: Outcome, before: Forest, staged: Forest, data: Forest,
                           aside: Forest, f: SwapFaults)
  {
    && (forall n | n !in names :: At(data, n) == At(before, n))
    && (forall n | n in names :: At(data, n) == SwappedAt(names, outcome, At(before, n), At(staged, n), f, n))
    && (forall n :: At(aside, n) == if StaysAside(names, outcome, f, n) then At(before, n) else None)
  }

  lemma RecoveryEnds(names: seq<string>, outcome: Outcome, before: Forest, staged: Forest, data: Forest, aside: Forest,
                     dataNow: Forest, asideNow: Forest, f: SwapFaults)
    requires outcome.InstallFailed? || outcome.StartFailed?
    requires forall n | n in names :: At(aside, n) == At(before, n)
    requires forall n | n !in names :: At(aside, n) == None && At(data, n) == At(before, n)
    requires forall n | n in names :: At(data, n) == Placed(names, outcome, staged, n)
    requires RolledBack(names, data, aside, dataNow, asideNow, f)
    ensures FailedAs(names, outcome, before, staged, dataNow, asideNow, f)
  {
    hide At, Recovered, SwapFaults.Stuck, Reached;
  }

  lemma StagingRecoveryEnds(names: seq<string>, at: nat, before: Forest, staged: Forest, data: Forest, aside: Forest,
                            dataNow: Forest, asideNow: Forest, f: SwapFaults)
    requires forall n | Reached(names, at, n) :: At(data, n) == None && At(aside, n) == At(before, n)
    requires forall n | !Reached(names, at, n) :: At(data, n) == At(before, n) && At(aside, n) == None
    requires RolledBack(names, data, aside, dataNow, asideNow, f)
    ensures FailedAs(names, StageFailed(at), before, staged, dataNow, asideNow, f)
  {
    ReachEnds(names);
    hide At, Recovered, SwapFaults.Stuck, Reached;
  }

  // The data directory seen as one listing is the closed form.
  lemma NothingListed(names: seq<string>, own: string, before: Forest, staged: Forest, f: SwapFaults)
    requires Fresh(own, names, before) && f.fails(MakeRollback)
    ensures forall n :: At(before, n) == FinalAt(names, own, before, staged, f, n)
  {
  }

  lemma EmptyListed(names: seq<string>, own: string, before: Forest, staged: Forest, f: SwapFaults)
    requires Fresh(own, names, before) && !f.fails(MakeRollback) && f.fails(Stop)
    ensures forall n :: At(before[own := Dir(map[])], n) == FinalAt(names, own, before, staged, f, n)
  {
    var left := RollbackLeft(names, before, StopFailed, f);
    assert left == Some(map[]);
  }

  lemma InstalledListed(names: seq<string>, own: string, before: Forest, staged: Forest, f: SwapFaults, data: Forest,
                        made: bool, aside: Forest)
    requires Fresh(own, names, before) && Verdict(names, before, staged, f).Installed?
    requires InPlace(names, before, staged, data)
    requires made == (f.fails(RemoveRollback) && f.leftover.Some?) && (made ==> aside == f.leftover.value)
    ensures forall n :: At(if made then data[own := Dir(aside)] else data, n) ==
                        FinalAt(names, own, before, staged, f, n)
  {
    hide Verdict;
    assert At(data, own) == None;
  }

  lemma FailureListed(names: seq<string>, own: string, before: Forest, staged: Forest, f: SwapFaults, data: Forest,
                      aside: Forest)
    requires var outcome := Verdict(names, before, staged, f);
      !outcome.Installed? && !outcome.NoRollbackDirectory? && FailedAs(names, outcome, before, staged, data, aside, f)
    requires Fresh(own, names, before)
    ensures forall n :: At(data[own := Dir(aside)], n) == FinalAt(names, own, before, staged, f, n)
  {
    hide SwappedAt, StaysAside, Verdict;
    var outcome := Verdict(names, before, staged, f);
    var left: Forest := map n | n in before && StaysAside(names, outcome, f, n) :: before[n];
    SameForest(aside, left);
    assert RollbackLeft(names, before, outcome, f) == Some(left);
    hide RollbackLeft;
  }

  lemma SameForest(a: Forest, b: Forest)
    requires forall n :: At(a, n) == At(b, n)
    ensures a == b
  {
    forall n
      ensures (n in a <==> n in b) && (n in a ==> a[n] == b[n])
    {
      assert At(a, n) == At(b, n);
    }
  }

  lemma KeptLess(names: seq<string>, before: Forest, outcome: Outcome)
    ensures forall n | n in Kept(names, before, outcome) :: n in before && Kept(names, before, outcome)[n] == before[n]
  {
  }

  lemma StillIntact(disk: Disk, before: Forest, fewer: Forest)
    requires Intact(disk, before) && forall n | n in fewer :: n in before && fewer[n] == before[n]
    ensures Intact(disk, fewer)
  {
  }

  // Changing one name keeps every tree intact if that name's tree is kept.
  lemma IntactChange(was: Disk, now: Disk, name: string, before: Forest)
    requires Intact(was, before)
    requires forall n | n != name :: At(now.data, n) == At(was.data, n) && At(now.rollback, n) == At(was.rollback, n)
    requires name in before ==>
      At(now.data, name) == Some(before[name]) || At(now.rollback, name) == Some(before[name])
    ensures Intact(now, before)
  {
  }

  lemma KeptInStep(was: Disk, name: string, before: Forest)
    requires Intact(was, before) && name !in was.rollback
    ensures name in before ==> At(was.data, name) == Some(before[name])
  {
  }

  lemma KeepsStep(history: seq<Disk>, disk: Disk, before: Forest)
    requires Intact(disk, before)
    ensures Keeps(history, history + [disk], before)
  {
  }

  lemma IntactAside(disk: Disk, names: seq<string>, before: Forest)
    requires forall n | n in names :: At(disk.rollback, n) == At(before, n)
    requires forall n | n !in names :: At(disk.data, n) == At(before, n)
    ensures Intact(disk, before)
    ensures forall n | n in names && n in before :: At(disk.rollback, n) == Some(before[n])
  {
  }

  lemma KeepsNothing(history: seq<Disk>, before: Forest)
    ensures Keeps(history, history, before)
  {
  }

  lemma ReachEnds(names: seq<string>)
    ensures forall n :: !Reached(names, 0, n)
    ensures forall n :: Reached(names, |names|, n) <==> n in names
    ensures forall i: nat, n :: Reached(names, i, n) ==> n in names
  {
    assert names[..|names|] == names;
  }

  lemma ReachNext(names: seq<string>, i: nat)
    requires Distinct(names) && i < |names|
    ensures !Reached(names, i, names[i]) && names[i] in names
    ensures forall n :: Reached(names, i + 1, n) <==> Reached(names, i, n) || n == names[i]
    ensures forall n :: Reached(names, i, n) ==> n in names
  {
    assert names[..i + 1] == names[..i] + [names[i]];
  }

  // ---- what a replacement promises ----

  /** `worldNames`: the three directories of a server. */
  function WorldNames(world: string): seq<string> {
    [world, world + "_nether", world + "_the_end"]
  }

  lemma WorldNamesDistinct(world: string)
    ensures Distinct(WorldNames(world))
  {
    assert |world + "_nether"| == |world| + 7 && |world + "_the_end"| == |world| + 8;
  }

  /** All: a successful replacement leaves exactly the staged worlds, and the rest alone. The
      rollback directory is gone unless removing it failed. */
  lemma SuccessInstallsExactly(names: seq<string>, own: string, data: Forest, staging: Forest, f: SwapFaults,
                               name: string)
    requires Verdict(names, data, staging, f).Installed?
    ensures name != own ==>
      FinalAt(names, own, data, staging, f, name) == At(if name in names then staging else data, name)
    ensures !f.fails(RemoveRollback) ==> FinalAt(names, own, data, staging, f, own) == None
  {
  }

  lemma WithoutFaultsInstalled(names: seq<string>, data: Forest, staging: Forest, f: SwapFaults)
    requires forall step :: !f.fails(step)
    ensures Verdict(names, data, staging, f).Installed?
  {
    assert forall n :: !f.StageBlocked(n, data) && !f.InstallBlocked(n, staging);
  }

  /** Every old world can be found and set aside. */
  ghost predicate AllAside(names: seq<string>, data: Forest, f: SwapFaults) {
    forall n | n in names :: !f.fails(StatCurrent(n)) && (n in data ==> !f.fails(StageAside(n)))
  }

  /** Every staged world can be found and put in. */
  ghost predicate AllIn(names: seq<string>, staging: Forest, f: SwapFaults) {
    forall n | n in names :: !f.fails(StatStaged(n)) && (n in staging ==> !f.fails(PutIn(n)))
  }

  /** Which failing steps make a run end how: each outcome with its exact condition. */
  lemma OutcomeIsExact(names: seq<string>, data: Forest, staging: Forest, f: SwapFaults)
    ensures var v, stopped := Verdict(names, data, staging, f), !f.fails(MakeRollback) && !f.fails(Stop);
      && (v.NoRollbackDirectory? <==> f.fails(MakeRollback))
      && (v.StopFailed? <==> !f.fails(MakeRollback) && f.fails(Stop))
      && (v.StageFailed? <==> stopped && !AllAside(names, data, f))
      && (v.InstallFailed? <==> stopped && AllAside(names, data, f) && !AllIn(names, staging, f))
      && (v.StartFailed? <==> stopped && AllAside(names, data, f) && AllIn(names, staging, f) && f.fails(Start))
      && (v.Installed? <==> stopped && AllAside(names, data, f) && AllIn(names, staging, f) && !f.fails(Start))
  {
    var i, j := FirstStageBlocked(names, data, f), FirstInstallBlocked(names, staging, f);
    assert AllAside(names, data, f) <==> i == |names|;
    assert AllIn(names, staging, f) <==> j == |names|;
    hide AllAside, AllIn;
  }

  /** Nothing: after an installation or start failure, a recovery that works leaves everything
      in the data directory as it began, beside an empty rollback directory. */
  lemma FailureRestoresExactly(names: seq<string>, own: string, data: Forest, staging: Forest, f: SwapFaults,
                               name: string)
    requires var v := Verdict(names, data, staging, f); !v.Installed? && !v.StageFailed?
    requires f.RecoveryWorks(names)
    ensures name != own ==> FinalAt(names, own, data, staging, f, name) == At(data, name)
    ensures FinalAt(names, own, data, staging, f, own) ==
            if Verdict(names, data, staging, f).NoRollbackDirectory? then None else Some(Dir(map[]))
  {
    var v := Verdict(names, data, staging, f);
    assert !v.NoRollbackDirectory? ==> RollbackLeft(names, data, v, f).value == map[];
  }

  /** The worlds a failed run had moved into the rollback directory before its recovery. */
  predicate WasSetAside(names: seq<string>, data: Forest, outcome: Outcome, name: string) {
    && name in data && name in names
    && (outcome.InstallFailed? || outcome.StartFailed? || (outcome.StageFailed? && Reached(names, outcome.at, name)))
  }

  /** Every error return after its creation leaves the rollback directory in the data
      directory. It holds exactly the worlds that were set aside and not put back, whole; so it
      is empty if and only if none of them stayed behind. */
  lemma FailureLeavesRollbackDirectory(names: seq<string>, own: string, data: Forest, staging: Forest, f: SwapFaults)
    returns (left: Forest)
    requires var v := Verdict(names, data, staging, f); !v.Installed? && !v.NoRollbackDirectory?
    ensures FinalAt(names, own, data, staging, f, own) == Some(Dir(left))
    ensures forall n :: n in left <==> WasSetAside(names, data, Verdict(names, data, staging, f), n) && f.Stuck(n)
    ensures forall n | n in left :: left[n] == data[n]
    ensures left == map[] <==> forall n | WasSetAside(names, data, Verdict(names, data, staging, f), n) :: !f.Stuck(n)
    ensures f.RecoveryWorks(names) ==> left == map[]
  {
    hide Verdict;
    var v := Verdict(names, data, staging, f);
    left := RollbackLeft(names, data, v, f).value;
    forall n
      ensures n in left <==> WasSetAside(names, data, v, n) && f.Stuck(n)
    {
    }
    if left != map[] {
      var n :| n in left;
    }
  }

  /** So a failed run leaves the whole data directory as it began if and only if the rollback
      directory could not be created. */
  lemma FailureChangesTheListing(names: seq<string>, own: string, data: Forest, staging: Forest, f: SwapFaults)
    requires Fresh(own, names, data) && !Verdict(names, data, staging, f).Installed?
    ensures (forall n :: FinalAt(names, own, data, staging, f, n) == At(data, n)) <==> f.fails(MakeRollback)
  {
    assert Verdict(names, data, staging, f).NoRollbackDirectory? <==> f.fails(MakeRollback);
    hide Verdict;
    if !f.fails(MakeRollback) {
      var left := FailureLeavesRollbackDirectory(names, own, data, staging, f);
      assert FinalAt(names, own, data, staging, f, own) != At(data, own);
    }
  }

  /** A failed stop is enough. */
  lemma FailedStopLeavesRollbackDirectory(data: Forest, staging: Forest, own: string) returns (f: SwapFaults)
    requires own !in data && own != "world"
    ensures f.RecoveryWorks(["world"]) && Verdict(["world"], data, staging, f) == StopFailed
    ensures FinalAt(["world"], own, data, staging, f, own) == Some(Dir(map[]))
  {
    f := SwapFaults(s => s == Stop, _ => None, None, _ => true);
    FailureRestoresExactly(["world"], own, data, staging, f, own);
  }

  /** A failure while setting the old worlds aside is different: `rollbackWorlds` removes
      every configured world, so a working recovery restores everything but the rollback
      directory if and only if none of the worlds the loop had not yet moved existed. */
  lemma StagingFailureOutcome(names: seq<string>, own: string, data: Forest, staging: Forest, f: SwapFaults, at: nat)
    requires Distinct(names) && Fresh(own, names, data) && Verdict(names, data, staging, f) == StageFailed(at)
    requires f.RecoveryWorks(names)
    ensures at < |names|
    ensures (forall n | n != own :: FinalAt(names, own, data, staging, f, n) == At(data, n)) <==>
            (forall n | n in names[at..] :: n !in data)
    ensures forall n | n in names[at..] :: FinalAt(names, own, data, staging, f, n) == None
    ensures forall n | n in names[..at] :: FinalAt(names, own, data, staging, f, n) == At(data, n)
  {
    assert names == names[..at] + names[at..];
    assert forall n | n in names[at..] :: n in names && n != own;
    forall n | n != own
      ensures FinalAt(names, own, data, staging, f, n) == if n in names[at..] then None else At(data, n)
    {
      StagingFailureAt(names, own, data, staging, f, at, n);
    }
    hide FinalAt, Verdict;
    if forall n | n != own :: FinalAt(names, own, data, staging, f, n) == At(data, n) {
      forall n | n in names[at..]
        ensures n !in data
      {
        assert FinalAt(names, own, data, staging, f, n) == At(data, n);
      }
    }
  }

  lemma StagingFailureAt(names: seq<string>, own: string, data: Forest, staging: Forest, f: SwapFaults, at: nat,
                         name: string)
    requires Distinct(names) && name != own && Verdict(names, data, staging, f) == StageFailed(at)
    requires f.RecoveryWorks(names)
    ensures at < |names|
    ensures FinalAt(names, own, data, staging, f, name) == if name in names[at..] then None else At(data, name)
  {
    assert at < |names| by { hide FirstStageBlocked, FirstInstallBlocked; }
    hide Verdict;
    assert names == names[..at] + names[at..];
  }

  /** The failing family is not empty: one world, whose rename aside fails, is lost. */
  lemma StagingFailureLosesAWorld(tree: Node, own: string) returns (data: Forest, f: SwapFaults)
    requires own != "world"
    ensures f.RecoveryWorks(["world"]) && At(data, "world") == Some(tree)
    ensures Verdict(["world"], data, map[], f) == StageFailed(0)
    ensures FinalAt(["world"], own, data, map[], f, "world") == None
  {
    data := map["world" := tree];
    f := SwapFaults(s => s == StageAside("world"), _ => None, None, _ => false);
    assert f.StageBlocked("world", data);
    assert !Reached(["world"], 0, "world");
  }

  /** Why the recovery must not run twice: its second pass removes what the first restored. */
  lemma RollbackIsNotIdempotent(name: string, current: Option<Node>, world: Node, f: SwapFaults)
    requires f.RecoveryWorks([name])
    ensures Recovered(name, current, Some(world), f) == Some(world)
    ensures Recovered(name, Some(world), None, f) == None
  {
    assert name in [name];
  }
}
