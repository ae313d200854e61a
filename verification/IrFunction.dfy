/** The IR's data types: one function's instructions, in the structured form and as a CFG.

    An instruction keeps what the passes below ask about: what it reads, the value it
    writes, where it may go next, and where in the source it came from. Values, blocks
    and regions are numbers, and 0 is 'none' in each of them.
  */
module Ir {

  type U32 = n: nat | n <= 0xffff_ffff

  /** A loop with no bound written. */
  const NO_BOUND: U32 := 0xffff_ffff

  /** A counter of turns is a u32, and wraps here. */
  const TURN_LIMIT: nat := 0x1_0000_0000

  /** An offset no instruction of a checked program has. */
  const NO_OFFSET: nat := 0xffff_ffff

  datatype Position = Position(file: nat, offset: nat)

  /** What a `Compute` does. Jumps, regions and the two ways of leaving are instructions of
      their own below. A `vcall` names the signature it calls with, 0 for none. */
  datatype Opcode =
    | Const | Null | Addr | Size
    | Add | Sub | Mul | SDiv | UDiv | SRem | URem | SMulHi | UMulHi
    | And | Or | Xor | Shl | LShr | AShr | Neg | Not
    | FAdd | FSub | FMul | FDiv | FNeg
    | Eq | Ne | SLt | SLe | SGt | SGe | ULt | ULe | UGt | UGe
    | FEq | FNe | FLt | FLe | FGt | FGe
    | Trunc | ZExt | SExt | SIToFP | UIToFP | FPToSI | FPToUI | FPExt | FPTrunc
    | PtrToInt | IntToPtr
    | Select
    | Slot | Load | Store | Copy | Field | Index | CheckIndex | Upcast | Downcast
    | Call | CallIndirect | VCall(signature: nat)
    | VolatileLoad | VolatileStore | Fence

  datatype Case = Case(constant: nat, target: nat)

  datatype RegionKind = BlockRegion | IfRegion | LoopRegion | BreakRegion | ContinueRegion

  /** A list of instructions has any of these: that the structured form has no jump and a CFG no
      region's opcode is for the verifier to say. */
  datatype Inst =
    | Compute(opcode: Opcode, operands: seq<nat>, result: nat, extra: nat, at: Position)
    | Ret(value: nat, at: Position)
    | Abort(message: nat, at: Position)
    | Br(target: nat, arguments: seq<nat>, at: Position)
    | CondBr(condition: nat, chosen: nat, otherwise: nat, at: Position)
    | Switch(value: nat, otherwise: nat, cases: seq<Case>, at: Position)
    | Region(kind: RegionKind, at: Position)

  /** The opcode table's `terminator` column. */
  predicate IsTerminator(inst: Inst) {
    !inst.Compute? && (inst.Region? ==> inst.kind == BreakRegion || inst.kind == ContinueRegion)
  }

  /** The two ways of leaving a function, and everything that computes: what the structured
      form and the CFG have in common. */
  predicate IsCommon(inst: Inst) {
    inst.Compute? || inst.Ret? || inst.Abort?
  }

  function Reads(inst: Inst): seq<nat> {
    match inst
    case Compute(_, operands, _, _, _) => operands
    case Ret(value, _) => if value == 0 then [] else [value]
    case Abort(_, _) => []
    case Br(_, arguments, _) => arguments
    case CondBr(condition, _, _, _) => [condition]
    case Switch(value, _, _, _) => [value]
    case Region(_, _) => []
  }

  /** A `vcall` without a signature that passes more than its receiver. */
  predicate PassesUnchecked(inst: Inst) {
    inst.Compute? && inst.opcode == VCall(0) && 1 < |inst.operands|
  }

  /** What the verifier looks at of what an instruction reads: all of it, but of a `vcall` without
      a signature only the receiver. */
  function Checked(inst: Inst): seq<nat> {
    if PassesUnchecked(inst) then inst.operands[..1] else Reads(inst)
  }

  predicate HasReceiver(inst: Inst) {
    inst.Compute? && inst.opcode.VCall? ==> inst.operands != []
  }

  /** The value an instruction writes, 0 for none. */
  function Writes(inst: Inst): nat {
    if inst.Compute? then inst.result else 0
  }

  function CaseTargets(cases: seq<Case>): (targets: seq<nat>) {
    seq(|cases|, i requires 0 <= i < |cases| => cases[i].target)
  }

  /** Every block a jump names, in the order the verifier lists them. */
  function Targets(inst: Inst): seq<nat> {
    match inst
    case Br(target, _, _) => [target]
    case CondBr(_, chosen, otherwise, _) => [chosen, otherwise]
    case Switch(_, otherwise, cases, _) => [otherwise] + CaseTargets(cases)
    case _ => []
  }

  /** The structured form. A block's instructions are a linked list, so each node names the
      one after it, and a region owns the list of its body (an `if`, of its two sides). */
  datatype Code =
    | End
    | Plain(inst: Inst, next: Code)
    | Block(region: nat, body: Code, at: Position, next: Code)
    | If(region: nat, condition: nat, chosen: Code, hasElse: bool, otherwise: Code, at: Position, next: Code)
    | Loop(region: nat, bound: U32, body: Code, at: Position, next: Code)
    | Break(region: nat, at: Position, next: Code)
    | Continue(region: nat, at: Position, next: Code)

  /** A CFG block. A loop's header carries its bound; every block knows the innermost loop it
      is in, and a header also the loop around its own. */
  datatype BasicBlock = BasicBlock(
    insts: seq<Inst>, parameters: seq<nat>, header: bool, bound: U32, loop: nat, outer: nat)

  /** What a value is: a parameter of the function, what the instruction at this place gives
      back, or a parameter of a block. */
  datatype Value =
    | Parameter
    | Result(block: nat, index: nat)
    | BlockParameter(block: nat)

  /** A CFG: its blocks by number, the order they are printed in (the entry first), the block a
      call comes to, and who owns each value. */
  datatype Cfg = Cfg(
    blocks: seq<BasicBlock>, order: seq<nat>, body: nat, values: map<nat, Value>, realTime: bool)

  predicate IsParameter(value: nat, count: nat) {
    1 <= value <= count
  }

  /** The values a function starts with, which are its parameters. */
  function Parameters(count: nat): (values: map<nat, Value>)
    ensures forall v: nat :: v in values <==> 1 <= v <= count
    ensures forall v <- values :: values[v] == Parameter
  {
    map v: nat | v <= count && IsParameter(v, count) :: Parameter
  }

  /** A structured function: its parameters are the values 1 to `parameters`. */
  datatype Structured = Structured(parameters: nat, body: Code, realTime: bool)

  datatype Function =
    | InStructuredForm(structured: Structured)
    | InCfgForm(cfg: Cfg)
}
