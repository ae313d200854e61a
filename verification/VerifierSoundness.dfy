/** What the verifier's acceptance is worth at run time.

    In every run of an accepted CFG that is `Complete` each operand read was written before, in the
    same frame, no block is run off the end of, and no region's opcode is come to
    (`AcceptedRunsAreSafe`). What makes it complete is what the verifier does not look at: that a
    call comes to the entry, with arguments for every parameter the function and its entry take,
    and that a `vcall` without a signature passes its receiver alone. `CompletenessDecides` says
    that this is exactly what is missing.
  */
module VerifierSoundness {
  import opened Ir
  import opened Interpreter
  import opened Verifier

  /** What holds of the tables of any function: a value's owner is the instruction that gives it
      back, or the block it is a parameter of. */
  ghost predicate Consistent(cfg: Cfg) {
    forall value <- cfg.values :: Owned(cfg, value)
  }

  predicate Owned(cfg: Cfg, value: nat)
    requires value in cfg.values
  {
    match cfg.values[value]
    case Parameter => true
    case Result(block, index) =>
      block < |cfg.blocks| && index < |cfg.blocks[block].insts| && Writes(cfg.blocks[block].insts[index]) == value
    case BlockParameter(block) => block < |cfg.blocks| && value in cfg.blocks[block].parameters
  }

  /** The same run, with the values written so far. */
  function Watched<S>(m: Meaning<S>): Meaning<(S, set<nat>)> {
    Meaning(
      (inst: Inst, s: (S, set<nat>)) =>
        (match m.compute(inst, s.0) case Next(t) => Next((t, s.1 + {Writes(inst)})) case Stop(t) => Stop((t, s.1))),
      (value: nat, s: (S, set<nat>)) => m.value(value, s.0),
      (parameters: seq<nat>, arguments: seq<nat>, s: (S, set<nat>)) =>
        (m.pass(parameters, arguments, s.0), s.1 + set p | p in parameters))
  }

  function Unwatched<S>(result: Result<(S, set<nat>)>): Result<S> {
    match result
    case Left(value, s) => Left(value, s.0)
    case Halted(inst, s) => Halted(inst, s.0)
    case Exceeded(bound, s) => Exceeded(bound, s.0)
    case RanOff(s) => RanOff(s.0)
    case CannotRun(inst, s) => CannotRun(inst, s.0)
  }

  function UnwatchedConfig<S>(c: Config<(S, set<nat>)>): Config<S> {
    match c
    case At(block, index, s, turns) => At(block, index, s.0, turns)
    case Done(result) => Done(Unwatched(result))
  }

  /** Watching a run does not change it. */
  lemma {:induction false} WatchingIsFaithful<S>(m: Meaning<S>, blocks: seq<BasicBlock>, c: Config<(S, set<nat>)>, n: nat)
    ensures UnwatchedConfig(Steps(Watched(m), blocks, c, n)) == Steps(m, blocks, UnwatchedConfig(c), n)
    decreases n
  {
    if n != 0 {
      WatchedStep(m, blocks, c);
      WatchingIsFaithful(m, blocks, Step(Watched(m), blocks, c), n - 1);
    }
  }

  lemma WatchedStep<S>(m: Meaning<S>, blocks: seq<BasicBlock>, c: Config<(S, set<nat>)>)
    ensures UnwatchedConfig(Step(Watched(m), blocks, c)) == Step(m, blocks, UnwatchedConfig(c))
  {
  }

  function ParametersOf(cfg: Cfg): set<nat> {
    set value | value in cfg.values && cfg.values[value] == Parameter
  }

  /** A call's arguments are written to the values from 1 up. */
  function Arguments(given: nat): set<nat> {
    Parameters(given).Keys
  }

  /** A call with `given` arguments: they are written, and nothing else is. */
  function Called<S>(cfg: Cfg, given: nat, s: S): Config<(S, set<nat>)> {
    Start(cfg.body, (s, Arguments(given)))
  }

  /** What an instruction of its opcode has: a place in the source, a receiver if it is a virtual
      call, and of what it passes to a block it goes to one for each parameter. */
  predicate IsWhole(cfg: Cfg, inst: Inst) {
    && inst.at.offset != NO_OFFSET && HasReceiver(inst)
    && (forall target <- Targets(inst) ::
          target < |cfg.blocks| && |cfg.blocks[target].parameters| == if inst.Br? then |inst.arguments| else 0)
  }

  /** Every value the next instruction reads was written, and there is a next instruction, which
      can be run, and is whole. */
  ghost predicate Safe<S>(cfg: Cfg, c: Config<(S, set<nat>)>) {
    match c
    case At(block, index, s, _) =>
      && block < |cfg.blocks| && index < |cfg.blocks[block].insts|
      && (forall value <- Reads(cfg.blocks[block].insts[index]) :: value in s.1)
      && IsWhole(cfg, cfg.blocks[block].insts[index])
    case Done(result) => !result.RanOff? && !result.CannotRun?
  }

  ghost predicate RunsSafely<S>(m: Meaning<S>, cfg: Cfg, given: nat, s: S) {
    forall n: nat :: Safe(cfg, Steps(Watched(m), cfg.blocks, Called(cfg, given, s), n))
  }

  /** Everything a block writes: its parameters when it is entered, and what its first
      instructions give back. */
  ghost predicate WritesOf(cfg: Cfg, block: nat, index: nat, written: set<nat>) {
    && block < |cfg.blocks| && index <= |cfg.blocks[block].insts|
    && (forall p <- cfg.blocks[block].parameters :: p in written)
    && (forall i {:trigger cfg.blocks[block].insts[i]} :: 0 <= i < index ==> IsWritten(cfg.blocks[block].insts[i], written))
  }

  predicate IsWritten(inst: Inst, written: set<nat>) {
    Writes(inst) == 0 || Writes(inst) in written
  }

  /** A run came to where it is along a path, and every block on it has been run through. */
  ghost predicate CameAlong(cfg: Cfg, path: seq<nat>, block: nat, index: nat, written: set<nat>) {
    && Leads(cfg, path, block) && block in cfg.order
    && ParametersOf(cfg) <= written
    && WritesOf(cfg, block, index, written) && index < |cfg.blocks[block].insts|
    && (forall i {:trigger path[i]} :: 0 <= i < |path| - 1 ==>
          path[i] < |cfg.blocks| && WritesOf(cfg, path[i], |cfg.blocks[path[i]].insts|, written))
  }

  ghost predicate Came<S>(cfg: Cfg, c: Config<(S, set<nat>)>) {
    match c
    case At(block, index, s, _) => exists path :: CameAlong(cfg, path, block, index, s.1)
    case Done(result) => !result.RanOff? && !result.CannotRun?
  }

  /** A block that dominates the one a run is in has been run through. */
  lemma DominatorsRanThrough(cfg: Cfg, path: seq<nat>, block: nat, index: nat, written: set<nat>, owner: nat)
    requires CameAlong(cfg, path, block, index, written) && owner in DominatorsOf(cfg, block)
    ensures owner == block || (owner < |cfg.blocks| && WritesOf(cfg, owner, |cfg.blocks[owner].insts|, written))
  {
    hide WritesOf, IsPath;
    assert Dominates(cfg, owner, block);
    assert owner in path;
    var i :| 0 <= i < |path| && path[i] == owner;
  }

  /** A value the verifier sees at an instruction was written when a run comes there. */
  lemma VisibleIsWritten(cfg: Cfg, path: seq<nat>, block: nat, index: nat, written: set<nat>, value: nat)
    requires InRange(cfg) && Consistent(cfg) && CameAlong(cfg, path, block, index, written)
    requires IsVisible(cfg, DominatorsOf(cfg, block), value, block, index)
    ensures value in written
  {
    hide DominatorsOf, Leads;
    assert Owned(cfg, value);
    match cfg.values[value]
    case Parameter =>
    case Result(owner, at) =>
      if owner != block {
        DominatorsRanThrough(cfg, path, block, index, written, owner);
      }
      assert IsWritten(cfg.blocks[owner].insts[at], written);
    case BlockParameter(owner) =>
      DominatorsRanThrough(cfg, path, block, index, written, owner);
  }

  lemma {:induction false} ChosenIsATarget(cases: seq<Case>, value: nat, otherwise: nat)
    ensures Chosen(cases, value, otherwise) in [otherwise] + CaseTargets(cases)
  {
    if cases != [] {
      if cases[0].constant == value {
        assert CaseTargets(cases)[0] == cases[0].target;
      } else {
        ChosenIsATarget(cases[1..], value, otherwise);
        assert CaseTargets(cases) == [cases[0].target] + CaseTargets(cases[1..]);
      }
    }
  }

  /** Entering a block a jump names, its parameters written. */
  lemma EntersSafely<S>(m: Meaning<S>, cfg: Cfg, path: seq<nat>, block: nat, index: nat, target: nat, arguments: seq<nat>,
                        s: (S, set<nat>), turns: map<nat, nat>)
    requires InRange(cfg) && Accepted(cfg) && Consistent(cfg)
    requires CameAlong(cfg, path, block, index, s.1) && target in Targets(cfg.blocks[block].insts[index])
    ensures Came(cfg, Enter(cfg.blocks, block, target, Pass(Watched(m), cfg.blocks, target, arguments, s), turns))
    ensures cfg.blocks[block].insts[index].Br? || cfg.blocks[target].parameters == []
  {
    hide CameAlong, AcceptedBlock, WritesOf, LoopsAround;
    JumpsAlong(cfg, path, block, index, target, s.1);
    var passed := Pass(Watched(m), cfg.blocks, target, arguments, s);
    assert s.1 + (set p | p in cfg.blocks[target].parameters) == passed.1;
  }

  /** An accepted jump is a way to another block, whose parameters only a `br` gives. */
  lemma JumpsToAnother(cfg: Cfg, block: nat, index: nat, target: nat)
    requires InRange(cfg) && Accepted(cfg) && block in cfg.order && index < |cfg.blocks[block].insts|
    requires target in Targets(cfg.blocks[block].insts[index])
    ensures IsEdge(cfg, block, target) && target in cfg.order && cfg.blocks[target].insts != []
    ensures IsTerminator(cfg.blocks[block].insts[index]) && AcceptedBlock(cfg, block)
    ensures cfg.blocks[block].insts[index].Br? || cfg.blocks[target].parameters == []
  {
    hide DominatorsOf, IsVisible;
    assert AcceptedBlock(cfg, block) && AcceptedInst(cfg, block, index);
    assert AcceptedTarget(cfg, cfg.blocks[block].insts[index], target);
    assert AcceptedBlock(cfg, target);
  }

  lemma EnteredWrites(cfg: Cfg, target: nat, written: set<nat>)
    requires target < |cfg.blocks|
    ensures WritesOf(cfg, target, 0, written + set p | p in cfg.blocks[target].parameters)
  {
  }

  lemma JumpsAlong(cfg: Cfg, path: seq<nat>, block: nat, index: nat, target: nat, written: set<nat>)
    requires InRange(cfg) && Accepted(cfg)
    requires CameAlong(cfg, path, block, index, written) && target in Targets(cfg.blocks[block].insts[index])
    ensures target < |cfg.blocks|
    ensures CameAlong(cfg, path + [target], target, 0, written + set p | p in cfg.blocks[target].parameters)
    ensures cfg.blocks[block].insts[index].Br? || cfg.blocks[target].parameters == []
  {
    hide IsPath, WritesOf, AcceptedBlock, IsEdge, Targets;
    JumpsToAnother(cfg, block, index, target);
    PathSteps(cfg, path, target);
    EnteredWrites(cfg, target, written);
    assert ParametersOf(cfg) <= written;
    var further, more := path + [target], written + set p | p in cfg.blocks[target].parameters;
    LastIsWritten(cfg, block, index, written);
    forall i | 0 <= i < |further| - 1
      ensures further[i] < |cfg.blocks| && WritesOf(cfg, further[i], |cfg.blocks[further[i]].insts|, more)
    {
      assert further[i] == path[i];
      KeptWritten(cfg, path[i], |cfg.blocks[path[i]].insts|, written, more);
    }
  }

  lemma KeptWritten(cfg: Cfg, block: nat, index: nat, written: set<nat>, more: set<nat>)
    requires WritesOf(cfg, block, index, written) && written <= more
    ensures WritesOf(cfg, block, index, more)
  {
    forall i | 0 <= i < index
      ensures IsWritten(cfg.blocks[block].insts[i], more)
    {
      assert IsWritten(cfg.blocks[block].insts[i], written);
    }
  }

  /** A jump is its block's last instruction, and writes nothing. */
  lemma LastIsWritten(cfg: Cfg, block: nat, index: nat, written: set<nat>)
    requires InRange(cfg) && block in cfg.order && AcceptedBlock(cfg, block) && WritesOf(cfg, block, index, written)
    requires index < |cfg.blocks[block].insts| && IsTerminator(cfg.blocks[block].insts[index])
    ensures WritesOf(cfg, block, |cfg.blocks[block].insts|, written)
  {
    assert AcceptedInst(cfg, block, index);
  }

  lemma ComputesSafely<S>(m: Meaning<S>, cfg: Cfg, c: Config<(S, set<nat>)>, path: seq<nat>)
    requires InRange(cfg) && Accepted(cfg) && Consistent(cfg)
    requires c.At? && CameAlong(cfg, path, c.block, c.index, c.s.1)
    requires !IsTerminator(cfg.blocks[c.block].insts[c.index])
    ensures Came(cfg, Step(Watched(m), cfg.blocks, c))
  {
    var insts := cfg.blocks[c.block].insts;
    var next := Step(Watched(m), cfg.blocks, c);
    assert AcceptedBlock(cfg, c.block) && AcceptedInst(cfg, c.block, c.index);
    if next.At? {
      KeptWritten(cfg, c.block, c.index, c.s.1, next.s.1);
      assert IsWritten(insts[c.index], next.s.1);
      forall i | 0 <= i < |path| - 1
        ensures path[i] < |cfg.blocks| && WritesOf(cfg, path[i], |cfg.blocks[path[i]].insts|, next.s.1)
      {
        KeptWritten(cfg, path[i], |cfg.blocks[path[i]].insts|, c.s.1, next.s.1);
      }
      assert CameAlong(cfg, path, next.block, next.index, next.s.1);
    }
  }

  lemma AcceptedIsWhole(cfg: Cfg, inst: Inst)
    requires InRange(cfg) && AcceptedTargets(cfg, inst) && inst.at.offset != NO_OFFSET && HasReceiver(inst)
    ensures IsWhole(cfg, inst)
  {
    forall target <- Targets(inst)
      ensures target < |cfg.blocks| && |cfg.blocks[target].parameters| == if inst.Br? then |inst.arguments| else 0
    {
      assert AcceptedTarget(cfg, inst, target);
    }
  }

  lemma StepsSafely<S>(m: Meaning<S>, cfg: Cfg, c: Config<(S, set<nat>)>)
    requires InRange(cfg) && Accepted(cfg) && Consistent(cfg) && Came(cfg, c) && !CallsUnchecked(cfg)
    ensures Safe(cfg, c) && Came(cfg, Step(Watched(m), cfg.blocks, c))
  {
    if c.At? {
      var path :| CameAlong(cfg, path, c.block, c.index, c.s.1);
      var inst := cfg.blocks[c.block].insts[c.index];
      assert AcceptedBlock(cfg, c.block) && AcceptedInst(cfg, c.block, c.index);
      assert !PassesUnchecked(inst);
      AcceptedIsWhole(cfg, inst);
      forall value | value in Reads(inst)
        ensures value in c.s.1
      {
        VisibleIsWritten(cfg, path, c.block, c.index, c.s.1, value);
      }
      match inst
      case Br(target, arguments, _) => EntersSafely(m, cfg, path, c.block, c.index, target, arguments, c.s, c.turns);
      case CondBr(condition, chosen, otherwise, _) =>
        EntersSafely(m, cfg, path, c.block, c.index, if m.value(condition, c.s.0) != 0 then chosen else otherwise, [], c.s, c.turns);
      case Switch(value, otherwise, cases, _) =>
        ChosenIsATarget(cases, m.value(value, c.s.0), otherwise);
        EntersSafely(m, cfg, path, c.block, c.index, Chosen(cases, m.value(value, c.s.0), otherwise), [], c.s, c.turns);
      case Ret(_, _) =>
      case Abort(_, _) =>
      case Compute(_, _, _, _, _) => ComputesSafely(m, cfg, c, path);
    }
  }

  lemma {:induction false} StaysSafe<S>(m: Meaning<S>, cfg: Cfg, c: Config<(S, set<nat>)>, n: nat)
    requires InRange(cfg) && Accepted(cfg) && Consistent(cfg) && Came(cfg, c) && !CallsUnchecked(cfg)
    ensures Safe(cfg, Steps(Watched(m), cfg.blocks, c, n))
    decreases n
  {
    hide Came, Safe, Accepted, Consistent, InRange, Step, Watched;
    StepsSafely(m, cfg, c);
    if n != 0 {
      StaysSafe(m, cfg, Step(Watched(m), cfg.blocks, c), n - 1);
    }
  }

  /** A `vcall` without a signature passes more than its receiver. */
  predicate CallsUnchecked(cfg: Cfg)
    requires InRange(cfg)
  {
    exists block <- cfg.order, i | 0 <= i < |cfg.blocks[block].insts| :: PassesUnchecked(cfg.blocks[block].insts[i])
  }

  /** A call comes to the first block of the order. */
  predicate Enters(cfg: Cfg) {
    cfg.order != [] && cfg.body == cfg.order[0]
  }

  predicate EntryTakesNothing(cfg: Cfg)
    requires InRange(cfg)
  {
    cfg.body in cfg.order && cfg.blocks[cfg.body].parameters == []
  }

  /** What the verifier does not look at. */
  predicate Complete(cfg: Cfg, given: nat)
    requires InRange(cfg)
  {
    && Enters(cfg) && cfg.order[0] in cfg.order
    && ParametersOf(cfg) <= Arguments(given)
    && (forall p <- cfg.blocks[cfg.body].parameters :: p in Arguments(given))
    && !CallsUnchecked(cfg)
  }

  lemma CallComes<S>(cfg: Cfg, given: nat, s: S)
    requires InRange(cfg) && Accepted(cfg) && Complete(cfg, given)
    ensures Came(cfg, Called(cfg, given, s))
  {
    hide CallsUnchecked, DominatorsOf;
    assert Leads(cfg, [cfg.body], cfg.body);
    assert AcceptedBlock(cfg, cfg.body);
    assert CameAlong(cfg, [cfg.body], cfg.body, 0, Arguments(given));
  }

  /** In every run of an accepted CFG every value read was written, no block is run off, and every
      opcode come to is one a CFG can run. */
  lemma AcceptedRunsAreSafe<S>(m: Meaning<S>, cfg: Cfg, given: nat, s: S)
    requires InRange(cfg) && Accepted(cfg) && Consistent(cfg) && Complete(cfg, given)
    ensures RunsSafely(m, cfg, given, s)
  {
    hide CallsUnchecked, Safe, Came;
    CallComes(cfg, given, s);
    forall n: nat
      ensures Safe(cfg, Steps(Watched(m), cfg.blocks, Called(cfg, given, s), n))
    {
      StaysSafe(m, cfg, Called(cfg, given, s), n);
    }
  }

  lemma TerminatorEnters<S>(m: Meaning<S>, cfg: Cfg, c: Config<S>) returns (to: nat, s: S)
    requires InRange(cfg) && Accepted(cfg) && c.At? && c.block in cfg.order && c.index < |cfg.blocks[c.block].insts|
    requires IsTerminator(cfg.blocks[c.block].insts[c.index]) && Step(m, cfg.blocks, c).At?
    ensures to in cfg.order && to in Successors(cfg, c.block) && Step(m, cfg.blocks, c) == Enter(cfg.blocks, c.block, to, s, c.turns)
  {
    hide LoopsAround, IsVisible, Enter;
    var inst := cfg.blocks[c.block].insts[c.index];
    assert AcceptedBlock(cfg, c.block) && AcceptedInst(cfg, c.block, c.index);
    assert Successors(cfg, c.block) == Targets(inst);
    if inst.Switch? {
      ChosenIsATarget(inst.cases, m.value(inst.value, c.s), inst.otherwise);
    }
    var went := Jump(m, cfg, inst, c.s);
    to, s := went.0, went.1;
    assert to in Targets(inst) && AcceptedTarget(cfg, inst, to);
  }

  /** Where a terminator goes, and with what. */
  function Jump<S>(m: Meaning<S>, cfg: Cfg, inst: Inst, s: S): (nat, S) {
    match inst
    case Br(target, arguments, _) => (target, Pass(m, cfg.blocks, target, arguments, s))
    case CondBr(condition, chosen, otherwise, _) => (if m.value(condition, s) != 0 then chosen else otherwise, s)
    case Switch(value, otherwise, cases, _) => (Chosen(cases, m.value(value, s), otherwise), s)
    case _ => (0, s)
  }

  /** A run is at the entry's instructions once, before all others. */
  lemma {:induction false} EntryIsFirst<S>(m: Meaning<S>, cfg: Cfg, s: S, n: nat)
    requires InRange(cfg) && Accepted(cfg) && Enters(cfg)
    ensures var c := Steps(m, cfg.blocks, Start(cfg.body, s), n);
            c.At? ==> c.block in cfg.order && (c.block == cfg.body ==> c.index == n)
    decreases n
  {
    hide Accepted, Step;
    assert cfg.order[0] in cfg.order;
    if n != 0 {
      var before := Steps(m, cfg.blocks, Start(cfg.body, s), n - 1);
      EntryIsFirst(m, cfg, s, n - 1);
      StepsAdd(m, cfg.blocks, Start(cfg.body, s), n - 1, 1);
      var c := Step(m, cfg.blocks, before);
      assert Steps(m, cfg.blocks, before, 1) == Steps(m, cfg.blocks, c, 0) == c;
      if before.Done? {
        DoneStays(m, cfg.blocks, before, 1);
      } else if c.At? {
        StaysOutside(m, cfg, before);
      }
    }
  }

  lemma StaysOutside<S>(m: Meaning<S>, cfg: Cfg, c: Config<S>)
    requires InRange(cfg) && Accepted(cfg) && Enters(cfg) && c.At? && c.block in cfg.order && Step(m, cfg.blocks, c).At?
    ensures var d := Step(m, cfg.blocks, c);
            d.block in cfg.order && (d.block == cfg.body ==> c.block == cfg.body && d.index == c.index + 1)
  {
    hide Enter, IsVisible, Perform, Accepted;
    assert AcceptedBlock(cfg, c.block) by { BlockIsAccepted(cfg, c.block); }
    if IsTerminator(cfg.blocks[c.block].insts[c.index]) {
      var to, s := TerminatorEnters(m, cfg, c);
      EntersThere(cfg.blocks, c.block, to, s, c.turns);
    }
  }

  lemma BlockIsAccepted(cfg: Cfg, block: nat)
    requires InRange(cfg) && Accepted(cfg) && block in cfg.order
    ensures AcceptedBlock(cfg, block)
  {
  }

  lemma EntersThere<S>(blocks: seq<BasicBlock>, from: nat, to: nat, s: S, turns: map<nat, nat>)
    ensures Enter(blocks, from, to, s, turns).At? ==> Enter(blocks, from, to, s, turns).block == to
  {
    hide LoopsAround;
  }

  /** What a CFG shows of what the verifier does not look at: how many parameters the function
      takes, which its body block takes, whether a call comes to the entry, and whether a `vcall`
      without a signature passes more than its receiver. */
  datatype Profile = Profile(taken: nat, parameters: seq<nat>, enters: bool, unchecked: bool)

  predicate HasProfile(cfg: Cfg, profile: Profile)
    requires InRange(cfg)
  {
    && cfg.body < |cfg.blocks| && cfg.blocks[cfg.body].parameters == profile.parameters
    && ParametersOf(cfg) == Arguments(profile.taken)
    && Enters(cfg) == profile.enters && CallsUnchecked(cfg) == profile.unchecked
  }

  predicate CompleteProfile(profile: Profile, given: nat) {
    profile.enters && !profile.unchecked && profile.taken <= given && forall p <- profile.parameters :: p <= given
  }

  ghost predicate AllRunSafely<S>(m: Meaning<S>, profile: Profile, given: nat, s: S) {
    forall cfg: Cfg :: InRange(cfg) && Accepted(cfg) && Consistent(cfg) && HasProfile(cfg, profile) ==> RunsSafely(m, cfg, given, s)
  }

  const HERE := Position(0, 0)

  /** Something that reads `unwritten`, if anything is to be, and then a `vcall` without a signature
      that passes itself a receiver `r` and the value after it, which is given back only later. */
  function WitnessInsts(unwritten: seq<nat>, unchecked: bool, r: nat): seq<Inst> {
    (if unwritten == [] then [] else [Compute(Neg, unwritten, 0, 0, HERE)])
    + (if unchecked
       then [Compute(Const, [], r, 0, HERE), Compute(VCall(0), [r, r + 1], 0, 0, HERE), Compute(Const, [], r + 1, 0, HERE)]
       else [])
    + [Ret(0, HERE)]
  }

  function TakenBy(block: nat, parameters: seq<nat>): (values: map<nat, Value>)
    ensures forall value: nat :: value in values <==> value in parameters
    ensures forall value <- values :: values[value] == BlockParameter(block)
  {
    if parameters == [] then map[] else TakenBy(block, parameters[1..])[parameters[0] := BlockParameter(block)]
  }

  function WitnessValues(profile: Profile, at: nat, body: nat, r: nat): map<nat, Value> {
    Parameters(profile.taken)
    + TakenBy(body, profile.parameters)
    + (if profile.unchecked then map[r := Result(1, at), r + 1 := Result(1, at + 2)] else map[])
  }

  /** A CFG of this profile. Where a call does not come to its entry it comes to a block with
      nothing in it. */
  function Witness(profile: Profile, unwritten: seq<nat>, r: nat): Cfg {
    var body := if profile.enters then 1 else 2;
    Cfg([BasicBlock([], [], false, NO_BOUND, 0, 0),
         BasicBlock(WitnessInsts(unwritten, profile.unchecked, r), if profile.enters then profile.parameters else [], false, NO_BOUND, 0, 0),
         BasicBlock([], profile.parameters, false, NO_BOUND, 0, 0)],
        [1], body, WitnessValues(profile, if unwritten == [] then 0 else 1, body, r), false)
  }

  lemma WitnessIsAccepted(profile: Profile, unwritten: seq<nat>, r: nat)
    requires forall p <- profile.parameters :: profile.taken < p < r
    requires profile.taken < r
    requires forall p <- unwritten :: profile.enters && (1 <= p <= profile.taken || p in profile.parameters)
    ensures var cfg := Witness(profile, unwritten, r);
            InRange(cfg) && Accepted(cfg) && Consistent(cfg) && HasProfile(cfg, profile)
  {
    hide WitnessInsts, WitnessValues;
    WitnessChecks(profile, unwritten, r);
    WitnessFits(profile, unwritten, r);
  }

  lemma WitnessChecks(profile: Profile, unwritten: seq<nat>, r: nat)
    requires forall p <- profile.parameters :: profile.taken < p < r
    requires profile.taken < r
    requires forall p <- unwritten :: profile.enters && (1 <= p <= profile.taken || p in profile.parameters)
    ensures var cfg := Witness(profile, unwritten, r); InRange(cfg) && Accepted(cfg)
  {
    var cfg := Witness(profile, unwritten, r);
    forall path | Leads(cfg, path, 1)
      ensures 1 in path
    {
      assert path[|path| - 1] in path;
    }
    assert 1 in DominatorsOf(cfg, 1);
    WitnessSees(profile, unwritten, r, DominatorsOf(cfg, 1));
    hide DominatorsOf, WitnessValues, IsVisible;
    var insts, at := cfg.blocks[1].insts, if unwritten == [] then 0 else 1;
    forall i | 0 <= i < |insts|
      ensures AcceptedInst(cfg, 1, i)
    {
      WitnessInst(unwritten, profile.unchecked, r, i);
      hide WitnessInsts, Checked;
    }
    assert insts[|insts| - 1] == Ret(0, HERE);
    assert AcceptedBlock(cfg, 1);
  }

  lemma WitnessInst(unwritten: seq<nat>, unchecked: bool, r: nat, i: nat)
    requires i < |WitnessInsts(unwritten, unchecked, r)|
    ensures var insts, at := WitnessInsts(unwritten, unchecked, r), if unwritten == [] then 0 else 1;
            && insts[i].at == HERE && Targets(insts[i]) == [] && !insts[i].Region? && HasReceiver(insts[i])
            && (IsTerminator(insts[i]) ==> i == |insts| - 1)
            && Checked(insts[i]) == if i < at then unwritten else if unchecked && i == at + 1 then [r] else []
  {
  }

  lemma WitnessSees(profile: Profile, unwritten: seq<nat>, r: nat, dominators: set<nat>)
    requires 1 in dominators && profile.taken < r && forall p <- profile.parameters :: profile.taken < p < r
    requires forall p <- unwritten :: profile.enters && (1 <= p <= profile.taken || p in profile.parameters)
    ensures var cfg := Witness(profile, unwritten, r);
            && (forall p <- unwritten :: IsVisible(cfg, dominators, p, 1, 0))
            && (profile.unchecked ==> IsVisible(cfg, dominators, r, 1, if unwritten == [] then 1 else 2))
  {
    hide WitnessInsts;
  }

  lemma WitnessFits(profile: Profile, unwritten: seq<nat>, r: nat)
    requires forall p <- profile.parameters :: profile.taken < p < r
    requires profile.taken < r
    ensures var cfg := Witness(profile, unwritten, r); InRange(cfg) && Consistent(cfg) && HasProfile(cfg, profile)
  {
    hide WitnessValues, WitnessInsts;
    var cfg := Witness(profile, unwritten, r);
    WitnessOwns(profile, unwritten, r);
    WitnessTakes(profile, unwritten, r);
    WitnessPasses(profile, unwritten, r);
    assert 1 in cfg.order;
    var insts := cfg.blocks[1].insts;
    if profile.unchecked {
      var i :| 0 <= i < |insts| && PassesUnchecked(insts[i]);
      assert PassesUnchecked(cfg.blocks[1].insts[i]);
    }
  }

  lemma WitnessTakes(profile: Profile, unwritten: seq<nat>, r: nat)
    requires profile.taken < r && forall p <- profile.parameters :: profile.taken < p < r
    ensures ParametersOf(Witness(profile, unwritten, r)) == Arguments(profile.taken)
  {
    hide WitnessInsts;
  }

  lemma WitnessPasses(profile: Profile, unwritten: seq<nat>, r: nat)
    ensures var insts := WitnessInsts(unwritten, profile.unchecked, r);
            (exists i | 0 <= i < |insts| :: PassesUnchecked(insts[i])) <==> profile.unchecked
  {
    if profile.unchecked {
      assert PassesUnchecked(WitnessInsts(unwritten, true, r)[if unwritten == [] then 1 else 2]);
    }
  }

  lemma WitnessOwns(profile: Profile, unwritten: seq<nat>, r: nat)
    requires forall p <- profile.parameters :: profile.taken < p < r
    requires profile.taken < r
    ensures Consistent(Witness(profile, unwritten, r))
  {
    var cfg := Witness(profile, unwritten, r);
    var at := if unwritten == [] then 0 else 1;
    WitnessWrites(unwritten, r);
    hide WitnessInsts;
    forall value | value in cfg.values
      ensures Owned(cfg, value)
    {
      if profile.unchecked && value in {r, r + 1} {
        assert cfg.values[value] == Result(1, if value == r then at else at + 2);
      }
    }
  }

  lemma WitnessWrites(unwritten: seq<nat>, r: nat)
    ensures var insts, at := WitnessInsts(unwritten, true, r), if unwritten == [] then 0 else 1;
            at + 2 < |insts| && Writes(insts[at]) == r && Writes(insts[at + 2]) == r + 1
  {
  }

  /** A constant stops no run. */
  ghost predicate ConstantsGoOn<S(!new)>(m: Meaning<S>) {
    forall inst: Inst, s: S {:trigger m.compute(inst, s)} :: inst.Compute? && inst.opcode == Const ==> m.compute(inst, s).Next?
  }

  /** The accepted CFGs that show the same of what the verifier does not look at all run safely if
      and only if what they show is complete. */
  lemma CompletenessDecides<S(!new)>(m: Meaning<S>, profile: Profile, given: nat, s: S)
    requires ConstantsGoOn(m) && forall p <- profile.parameters :: profile.taken < p
    ensures AllRunSafely(m, profile, given, s) <==> CompleteProfile(profile, given)
  {
    if CompleteProfile(profile, given) {
      forall cfg: Cfg | InRange(cfg) && Accepted(cfg) && Consistent(cfg) && HasProfile(cfg, profile)
        ensures RunsSafely(m, cfg, given, s)
      {
        AcceptedRunsAreSafe(m, cfg, given, s);
      }
    } else if !profile.enters {
      IncompleteRuns(m, profile, given, s, []);
    } else if given < profile.taken {
      IncompleteRuns(m, profile, given, s, [given + 1]);
    } else if p :| p in profile.parameters && given < p {
      IncompleteRuns(m, profile, given, s, [p]);
    } else {
      IncompleteRuns(m, profile, given, s, []);
    }
  }

  /** A number past all of these. */
  function Past(values: seq<nat>, least: nat): (r: nat)
    ensures least < r && forall value <- values :: value < r
  {
    if values == [] then least + 1
    else
      assert forall value <- values :: value == values[0] || value in values[1..];
      Past(values[1..], if values[0] < least then least else values[0])
  }

  lemma IncompleteRuns<S(!new)>(m: Meaning<S>, profile: Profile, given: nat, s: S, unwritten: seq<nat>)
    requires ConstantsGoOn(m) && forall p <- profile.parameters :: profile.taken < p
    requires forall p <- unwritten :: given < p && profile.enters && (p <= profile.taken || p in profile.parameters)
    requires unwritten != [] || profile.unchecked || !profile.enters
    ensures !AllRunSafely(m, profile, given, s)
  {
    var r := Past(profile.parameters, profile.taken + given);
    var cfg := Witness(profile, unwritten, r);
    WitnessIsAccepted(profile, unwritten, r);
    WitnessIsNotSafe(m, profile, given, s, unwritten, r);
  }

  lemma WitnessIsNotSafe<S(!new)>(m: Meaning<S>, profile: Profile, given: nat, s: S, unwritten: seq<nat>, r: nat)
    requires ConstantsGoOn(m) && given < r
    requires forall p <- unwritten :: given < p && profile.enters
    requires unwritten != [] || profile.unchecked || !profile.enters
    ensures !RunsSafely(m, Witness(profile, unwritten, r), given, s)
  {
    var cfg := Witness(profile, unwritten, r);
    var c := Called(cfg, given, s);
    if !profile.enters {
      assert !Safe(cfg, Steps(Watched(m), cfg.blocks, c, 0));
    } else if unwritten != [] {
      assert unwritten[0] in Reads(cfg.blocks[1].insts[0]);
      assert !Safe(cfg, Steps(Watched(m), cfg.blocks, c, 0));
    } else {
      CallsTooEarly(m, cfg, given, s, r);
    }
  }

  lemma CallsTooEarly<S(!new)>(m: Meaning<S>, cfg: Cfg, given: nat, s: S, r: nat)
    requires ConstantsGoOn(m) && given < r && cfg.body == 1 && 1 < |cfg.blocks| && 1 < |cfg.blocks[1].insts|
    requires cfg.blocks[1].insts[0] == Compute(Const, [], r, 0, HERE)
    requires cfg.blocks[1].insts[1] == Compute(VCall(0), [r, r + 1], 0, 0, HERE)
    ensures !RunsSafely(m, cfg, given, s)
  {
    var c := Called(cfg, given, s);
    var constant, call := cfg.blocks[1].insts[0], cfg.blocks[1].insts[1];
    assert m.compute(constant, s).Next?;
    var d := Step(Watched(m), cfg.blocks, c);
    assert d == At(1, 1, (m.compute(constant, s).s, Arguments(given) + {r}), map[]);
    hide Step, Watched, ConstantsGoOn;
    assert Steps(Watched(m), cfg.blocks, d, 0) == d;
    assert Steps(Watched(m), cfg.blocks, c, 1) == d;
    assert Reads(call)[1] == r + 1;
    assert r + 1 !in Arguments(given) + {r};
    assert !Safe(cfg, d);
  }

  /** The input the missing test lets through: the verifier accepts a `vcall` without a signature
      whose second argument is given back only after it, and a run reads that argument unwritten,
      in a function whose entry takes nothing and whose call gives all it asks for. */
  lemma UncheckedCallIsAccepted<S(!new)>(m: Meaning<S>, taken: nat, s: S)
    requires ConstantsGoOn(m)
    ensures var cfg := Witness(Profile(taken, [], true, true), [], taken + 1);
            InRange(cfg) && Accepted(cfg) && Consistent(cfg) && EntryTakesNothing(cfg) && !RunsSafely(m, cfg, taken, s)
  {
    hide Witness, Accepted, Consistent, RunsSafely, HasProfile;
    var profile := Profile(taken, [], true, true);
    WitnessIsAccepted(profile, [], taken + 1);
    WitnessIsNotSafe(m, profile, taken, s, [], taken + 1);
    UncheckedCallIs(taken);
  }

  lemma UncheckedCallIs(taken: nat)
    ensures var cfg, r := Witness(Profile(taken, [], true, true), [], taken + 1), taken + 1;
            && InRange(cfg) && EntryTakesNothing(cfg)
            && cfg.blocks[1].insts ==
               [Compute(Const, [], r, 0, HERE), Compute(VCall(0), [r, r + 1], 0, 0, HERE), Compute(Const, [], r + 1, 0, HERE), Ret(0, HERE)]
  {
  }
}
