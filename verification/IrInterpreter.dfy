/** The CFG's meaning: the interpreter's run loop, one instruction a step.

    What an instruction computes is a parameter, `Meaning`, over any state `S` (a frame's values
    and the memory, say): whatever is proved here holds for every one of them.
  */
module Interpreter {
  import opened Ir

  /** An instruction goes on, or stops the program (an access outside a block, a division by
      zero). */
  datatype Effect<S> = Next(s: S) | Stop(s: S)

  datatype Meaning<!S> = Meaning(
    compute: (Inst, S) -> Effect<S>,
    value: (nat, S) -> nat,
    pass: (seq<nat>, seq<nat>, S) -> S)

  /** How a run ends: with a value given back, stopped at an instruction, stopped at a loop that
      went round more than its bound, off the end of a block, or at an opcode a CFG cannot run. */
  datatype Result<S> =
    | Left(value: nat, s: S)
    | Halted(inst: Inst, s: S)
    | Exceeded(bound: U32, s: S)
    | RanOff(s: S)
    | CannotRun(inst: Inst, s: S)

  datatype Performed<S> = Goes(s: S) | Ends(result: Result<S>)

  /** What the two forms have in common. */
  function Perform<S>(m: Meaning<S>, inst: Inst, s: S): Performed<S>
    requires IsCommon(inst)
  {
    match inst
    case Compute(_, _, _, _, _) => (match m.compute(inst, s) case Next(s') => Goes(s') case Stop(s') => Ends(Halted(inst, s')))
    case Ret(value, _) => Ends(Left(if value == 0 then 0 else m.value(value, s), s))
    case Abort(_, _) => Ends(Halted(inst, s))
  }

  datatype Config<S> =
    | At(block: nat, index: nat, s: S, turns: map<nat, nat>)
    | Done(result: Result<S>)

  /** A header never counted has gone round no times. */
  function TurnsOf(turns: map<nat, nat>, header: nat): nat {
    if header in turns then turns[header] else 0
  }

  /** The headers of the loops around a block, from `loop` out by `outer`. Every `outer` there is
      leads to a block made before; one that did not would end the walk here. */
  function LoopsAround(blocks: seq<BasicBlock>, loop: nat): seq<nat> {
    if loop == 0 || |blocks| <= loop then []
    else if blocks[loop].outer < loop then [loop] + LoopsAround(blocks, blocks[loop].outer)
    else [loop]
  }

  /** Into a block: a header counts the turns of its loop, from 0 each time it is come to from
      outside, and stops the run at the one past its bound. */
  function Enter<S>(blocks: seq<BasicBlock>, from: nat, to: nat, s: S, turns: map<nat, nat>): Config<S> {
    if |blocks| <= to then Done(RanOff(s))
    else if !blocks[to].header then At(to, 0, s, turns)
    else if |blocks| <= from || to !in LoopsAround(blocks, blocks[from].loop) then At(to, 0, s, turns[to := 0])
    else
      var turn := (TurnsOf(turns, to) + 1) % TURN_LIMIT;
      if blocks[to].bound != NO_BOUND && turn > blocks[to].bound then Done(Exceeded(blocks[to].bound, s))
      else At(to, 0, s, turns[to := turn])
  }

  /** A `br` reads every argument before it writes any parameter. */
  function Pass<S>(m: Meaning<S>, blocks: seq<BasicBlock>, to: nat, arguments: seq<nat>, s: S): S {
    if |blocks| <= to || blocks[to].parameters == [] then s
    else m.pass(blocks[to].parameters, arguments, s)
  }

  function Chosen(cases: seq<Case>, value: nat, otherwise: nat): nat {
    if cases == [] then otherwise
    else if cases[0].constant == value then cases[0].target
    else Chosen(cases[1..], value, otherwise)
  }

  function Step<S>(m: Meaning<S>, blocks: seq<BasicBlock>, c: Config<S>): Config<S> {
    match c
    case Done(_) => c
    case At(b, i, s, turns) =>
      if |blocks| <= b || |blocks[b].insts| <= i then Done(RanOff(s))
      else match blocks[b].insts[i]
        case Br(target, arguments, _) => Enter(blocks, b, target, Pass(m, blocks, target, arguments, s), turns)
        case CondBr(condition, chosen, otherwise, _) =>
          Enter(blocks, b, if m.value(condition, s) != 0 then chosen else otherwise, s, turns)
        case Switch(value, otherwise, cases, _) =>
          Enter(blocks, b, Chosen(cases, m.value(value, s), otherwise), s, turns)
        case Region(_, _) => Done(CannotRun(blocks[b].insts[i], s))
        case inst => (match Perform(m, inst, s) case Goes(s') => At(b, i + 1, s', turns) case Ends(result) => Done(result))
  }

  function Steps<S>(m: Meaning<S>, blocks: seq<BasicBlock>, c: Config<S>, n: nat): Config<S>
    decreases n
  {
    if n == 0 then c else Steps(m, blocks, Step(m, blocks, c), n - 1)
  }

  /** A call comes to the entry from no block. */
  function Start<S>(entry: nat, s: S): Config<S> {
    At(entry, 0, s, map[])
  }

  lemma {:induction false} StepsAdd<S>(m: Meaning<S>, blocks: seq<BasicBlock>, c: Config<S>, a: nat, b: nat)
    ensures Steps(m, blocks, c, a + b) == Steps(m, blocks, Steps(m, blocks, c, a), b)
    decreases a
  {
    if a != 0 {
      StepsAdd(m, blocks, Step(m, blocks, c), a - 1, b);
    }
  }

  lemma {:induction false} DoneStays<S>(m: Meaning<S>, blocks: seq<BasicBlock>, c: Config<S>, n: nat)
    requires c.Done?
    ensures Steps(m, blocks, c, n) == c
    decreases n
  {
    if n != 0 {
      DoneStays(m, blocks, c, n - 1);
    }
  }

  /** A run ends one way at most. */
  lemma OneEnd<S>(m: Meaning<S>, blocks: seq<BasicBlock>, c: Config<S>, a: nat, b: nat)
    requires Steps(m, blocks, c, a).Done?
    ensures a <= b ==> Steps(m, blocks, c, b) == Steps(m, blocks, c, a)
    ensures Steps(m, blocks, c, b).Done? ==> Steps(m, blocks, c, b) == Steps(m, blocks, c, a)
  {
    if a <= b {
      StepsAdd(m, blocks, c, a, b - a);
      DoneStays(m, blocks, Steps(m, blocks, c, a), b - a);
    } else if Steps(m, blocks, c, b).Done? {
      StepsAdd(m, blocks, c, b, a - b);
      DoneStays(m, blocks, Steps(m, blocks, c, b), a - b);
    }
  }
}
