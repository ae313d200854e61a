/** From the structured form to the CFG.

    `IrFlattener` is the pass: it walks a list of instructions and updates the blocks it is
    building. What it does to its fields is `FlattenCode`, a function on their values, which is
    what the properties of the pass are proved about.
  */
module Flattener {
  import opened Ir

  /** A region being flattened: the block after it, and a loop's header (0 for any other). */
  datatype Frame = Frame(region: nat, after: nat, top: nat)

  /** A region around an instruction, and whether it is a loop. */
  datatype Around = Around(region: nat, isLoop: bool)

  function AroundOf(frames: seq<Frame>): (around: seq<Around>)
    ensures |around| == |frames|
  {
    seq(|frames|, i requires 0 <= i < |frames| => Around(frames[i].region, frames[i].top != 0))
  }

  /** The verifier's rule for `break` and `continue`: the region named is around the jump, and a
      `continue` names a loop. A structured block also holds no jump of the CFG form. */
  predicate WellScoped(code: Code, around: seq<Around>) {
    match code
    case End => true
    case Plain(inst, next) => IsCommon(inst) && WellScoped(next, around)
    case Block(region, body, _, next) =>
      && WellScoped(body, around + [Around(region, false)])
      && WellScoped(next, around)
    case If(region, _, chosen, hasElse, otherwise, _, next) =>
      && WellScoped(chosen, around + [Around(region, false)])
      && (hasElse ==> WellScoped(otherwise, around + [Around(region, false)]))
      && WellScoped(next, around)
    case Loop(region, _, body, _, next) =>
      && WellScoped(body, around + [Around(region, true)])
      && WellScoped(next, around)
    case Break(region, _, next) =>
      Encloses(around, region) && WellScoped(next, around)
    case Continue(region, _, next) =>
      Encloses(around, region) && Innermost(around, region).isLoop && WellScoped(next, around)
  }

  predicate Encloses(around: seq<Around>, region: nat) {
    exists i :: 0 <= i < |around| && around[i].region == region
  }

  function Innermost(around: seq<Around>, region: nat): Around
    requires Encloses(around, region)
  {
    var last := around[|around| - 1];
    if last.region == region then last else Innermost(around[..|around| - 1], region)
  }

  /** The innermost frame of a region. */
  function FrameOf(frames: seq<Frame>, region: nat): (frame: Frame)
    requires Encloses(AroundOf(frames), region)
    ensures frame in frames && frame.region == region
    ensures Innermost(AroundOf(frames), region) == Around(region, frame.top != 0)
  {
    var last := frames[|frames| - 1];
    var before := frames[..|frames| - 1];
    assert AroundOf(before) == AroundOf(frames)[..|frames| - 1];
    assert AroundOf(frames)[|frames| - 1] == Around(last.region, last.top != 0);
    if last.region == region then last else FrameOf(before, region)
  }

  /** The fields of the pass, as one value. */
  datatype Flattening = Flattening(
    blocks: seq<BasicBlock>, order: seq<nat>, values: map<nat, Value>, body: nat,
    current: nat, loop: nat, frames: seq<Frame>, jumpsTo: seq<nat>)
  {
    /** Every number in the fields names a block there is. */
    predicate Valid() {
      && |jumpsTo| == |blocks|
      && current < |blocks| && loop < |blocks| && body < |blocks|
      && (forall frame <- frames :: frame.after < |blocks| && frame.top < |blocks|)
    }

    /** `make_block`: the new block's number is the old count. */
    function Made(): (f: Flattening)
      requires Valid()
      ensures f.Valid()
    {
      this.(blocks := blocks + [BasicBlock([], [], false, NO_BOUND, loop, 0)], jumpsTo := jumpsTo + [0])
    }

    predicate Ended()
      requires Valid()
    {
      var insts := blocks[current].insts;
      insts != [] && IsTerminator(insts[|insts| - 1])
    }

    /** Nothing has ended the block being written, and it can be come to. */
    predicate Falls()
      requires Valid()
    {
      !Ended() && !(blocks[current].insts == [] && jumpsTo[current] == 0 && current != body)
    }

    function Closed(): (f: Flattening)
      requires Valid()
      ensures f.Valid()
    {
      if current != 0 && |order| > 1 && blocks[current].insts == [] && jumpsTo[current] == 0
      then this.(order := order[..|order| - 1]) else this
    }

    function Placed(block: nat): (f: Flattening)
      requires Valid() && block < |blocks|
      ensures f.Valid()
    {
      var made := blocks[block].(loop := if blocks[block].header then block else loop);
      Closed().(blocks := blocks[block := made], order := Closed().order + [block], current := block)
    }

    function Appended(inst: Inst): (f: Flattening)
      requires Valid()
      ensures f.Valid()
    {
      this.(blocks := blocks[current := blocks[current].(insts := blocks[current].insts + [inst])])
    }

    /** `copy`: the value the instruction gives back is now owned by the copy. */
    function Copied(inst: Inst): (f: Flattening)
      requires Valid()
      ensures f.Valid()
    {
      if Writes(inst) == 0 then Appended(inst)
      else Appended(inst).(values := values[Writes(inst) := Result(current, |blocks[current].insts|)])
    }

    function Jumped(target: nat, at: Position): (f: Flattening)
      requires Valid() && target < |blocks|
      ensures f.Valid()
    {
      Appended(Br(target, [], at)).(jumpsTo := jumpsTo[target := jumpsTo[target] + 1])
    }

    function Branched(condition: nat, chosen: nat, otherwise: nat, at: Position): (f: Flattening)
      requires Valid() && chosen < |blocks| && otherwise < |blocks|
      ensures f.Valid()
    {
      var counted := jumpsTo[chosen := jumpsTo[chosen] + 1];
      Appended(CondBr(condition, chosen, otherwise, at))
        .(jumpsTo := counted[otherwise := counted[otherwise] + 1])
    }

    /** A loop's header, which is its own innermost loop. */
    function Headed(top: nat, limit: U32): (f: Flattening)
      requires Valid() && top < |blocks|
      ensures f.Valid()
    {
      this.(blocks := blocks[top := blocks[top].(header := true, bound := limit, loop := top, outer := loop)])
    }

    function Opened(frame: Frame): (f: Flattening)
      requires Valid() && frame.after < |blocks| && frame.top < |blocks|
      ensures f.Valid()
    {
      this.(frames := frames + [frame])
    }

    /** The end of a region's list: on to `target`, when the block being written goes on. */
    function Joined(target: nat, at: Position): (f: Flattening)
      requires Valid() && target < |blocks|
      ensures f.Valid()
    {
      if Falls() then Jumped(target, at) else this
    }

    function Popped(): (f: Flattening)
      requires Valid() && frames != []
      ensures f.Valid()
    {
      this.(frames := frames[..|frames| - 1])
    }

    function Looping(header: nat): (f: Flattening)
      requires Valid() && header < |blocks|
      ensures f.Valid()
    {
      this.(loop := header)
    }
  }

  /** Into a `block`'s body. */
  function IntoBlock(f: Flattening, region: nat): (g: Flattening)
    requires f.Valid()
    ensures g.Valid() && |g.blocks| == |f.blocks| + 1 && g.loop == f.loop && g.body == f.body
    ensures g.frames == f.frames + [Frame(region, |f.blocks|, 0)]
  {
    f.Made().Opened(Frame(region, |f.blocks|, 0))
  }

  /** Into an `if`'s first side. With an `else` its block is the one after the first side's, and
      the block after the region the third; without, the second, which the branch names. */
  function IntoIf(f: Flattening, region: nat, condition: nat, hasElse: bool, at: Position): (g: Flattening)
    requires f.Valid()
    ensures g.Valid() && g.loop == f.loop && g.body == f.body
    ensures |g.blocks| == |f.blocks| + (if hasElse then 3 else 2)
    ensures g.frames == f.frames + [Frame(region, AfterIf(f, hasElse), 0)]
  {
    var made := if hasElse then f.Made().Made().Made() else f.Made().Made();
    made.Branched(condition, |f.blocks|, |f.blocks| + 1, at)
        .Opened(Frame(region, AfterIf(f, hasElse), 0))
        .Placed(|f.blocks|)
  }

  function AfterIf(f: Flattening, hasElse: bool): nat {
    if hasElse then |f.blocks| + 2 else |f.blocks| + 1
  }

  /** Into a `loop`'s body: the header, then the block after it. */
  function IntoLoop(f: Flattening, region: nat, bound: U32, at: Position): (g: Flattening)
    requires f.Valid()
    ensures g.Valid() && |g.blocks| == |f.blocks| + 2 && g.loop == |f.blocks| && g.body == f.body
    ensures g.frames == f.frames + [Frame(region, |f.blocks| + 1, |f.blocks|)]
  {
    var top := |f.blocks|;
    f.Made().Made().Headed(top, bound).Jumped(top, at)
     .Opened(Frame(region, top + 1, top)).Looping(top).Placed(top)
  }

  /** Out of a region: on to `target`, and the block after the region is the one being written. */
  function OutOf(g: Flattening, target: nat, after: nat, loop: nat, at: Position): (h: Flattening)
    requires g.Valid() && g.frames != [] && target < |g.blocks| && after < |g.blocks| && loop < |g.blocks|
    ensures h.Valid() && h.frames == g.frames[..|g.frames| - 1] && h.loop == loop
    ensures |h.blocks| == |g.blocks| && h.body == g.body && h.current == after
  {
    g.Joined(target, at).Looping(loop).Popped().Placed(after)
  }

  /** From the end of an `if`'s first side to its `else`. */
  function IntoElse(g: Flattening, otherwise: nat, after: nat, at: Position): (h: Flattening)
    requires g.Valid() && otherwise < |g.blocks| && after < |g.blocks|
    ensures h.Valid() && h.frames == g.frames && h.loop == g.loop && |h.blocks| == |g.blocks| && h.body == g.body
    ensures h.current == otherwise
  {
    g.Joined(after, at).Placed(otherwise)
  }

  lemma AroundPush(frames: seq<Frame>, frame: Frame)
    ensures AroundOf(frames + [frame]) == AroundOf(frames) + [Around(frame.region, frame.top != 0)]
  {
  }

  /** What flattening a list of instructions does to the fields of the pass. */
  function FlattenCode(f: Flattening, code: Code): (g: Flattening)
    requires f.Valid() && 0 < |f.blocks| && WellScoped(code, AroundOf(f.frames))
    ensures Across(f, g)
    decreases code, 2
  {
    if code == End then f else FlattenCode(FlattenHead(f, code), code.next)
  }

  /** What the first of them does. */
  function FlattenHead(f: Flattening, code: Code): (g: Flattening)
    requires code != End && f.Valid() && 0 < |f.blocks| && WellScoped(code, AroundOf(f.frames))
    ensures Across(f, g)
    decreases code, 1
  {
    match code
    case Plain(inst, _) => f.Copied(inst)
    case Block(_, _, _, _) => AcrossBlock(f, code)
    case If(_, _, _, _, _, _, _) => AcrossIf(f, code)
    case Loop(_, _, _, _, _) => AcrossLoop(f, code)
    case Break(region, at, _) => f.Jumped(FrameOf(f.frames, region).after, at)
    case Continue(region, at, _) => f.Jumped(FrameOf(f.frames, region).top, at)
  }

  /** What any list of instructions leaves as it was. */
  predicate Across(f: Flattening, g: Flattening) {
    && g.Valid() && |f.blocks| <= |g.blocks|
    && g.frames == f.frames && g.loop == f.loop && g.body == f.body
  }

  function AcrossBlock(f: Flattening, code: Code): (g: Flattening)
    requires code.Block? && f.Valid() && 0 < |f.blocks| && WellScoped(code, AroundOf(f.frames))
    ensures Across(f, g)
    decreases code, 0, 1
  {
    OutOf(InBlock(f, code), |f.blocks|, |f.blocks|, f.loop, code.at)
  }

  /** At the end of a `block`'s body. */
  function InBlock(f: Flattening, code: Code): (g: Flattening)
    requires code.Block? && f.Valid() && 0 < |f.blocks| && WellScoped(code, AroundOf(f.frames))
    ensures WellScoped(code.body, AroundOf(IntoBlock(f, code.region).frames))
    ensures Across(IntoBlock(f, code.region), g)
    decreases code, 0, 0
  {
    AroundPush(f.frames, Frame(code.region, |f.blocks|, 0));
    FlattenCode(IntoBlock(f, code.region), code.body)
  }

  function AcrossIf(f: Flattening, code: Code): (g: Flattening)
    requires code.If? && f.Valid() && 0 < |f.blocks| && WellScoped(code, AroundOf(f.frames))
    ensures Across(f, g)
    decreases code, 0
  {
    OutOf(BothSides(f, code), AfterIf(f, code.hasElse), AfterIf(f, code.hasElse), f.loop, code.at)
  }

  /** At the end of an `if`'s first side. */
  function FirstSide(f: Flattening, code: Code): (g: Flattening)
    requires code.If? && f.Valid() && 0 < |f.blocks| && WellScoped(code, AroundOf(f.frames))
    ensures WellScoped(code.chosen, AroundOf(IntoIf(f, code.region, code.condition, code.hasElse, code.at).frames))
    ensures Across(IntoIf(f, code.region, code.condition, code.hasElse, code.at), g)
    decreases code, 0, 0, 0
  {
    AroundPush(f.frames, Frame(code.region, AfterIf(f, code.hasElse), 0));
    FlattenCode(IntoIf(f, code.region, code.condition, code.hasElse, code.at), code.chosen)
  }

  /** At the end of its last side. */
  function BothSides(f: Flattening, code: Code): (g: Flattening)
    requires code.If? && f.Valid() && 0 < |f.blocks| && WellScoped(code, AroundOf(f.frames))
    ensures Across(IntoIf(f, code.region, code.condition, code.hasElse, code.at), g)
    decreases code, 0, 0, 2
  {
    if code.hasElse then FlattenCode(SecondSide(f, code), code.otherwise) else FirstSide(f, code)
  }

  /** At the start of its `else`. */
  function SecondSide(f: Flattening, code: Code): (g: Flattening)
    requires code.If? && code.hasElse && f.Valid() && 0 < |f.blocks| && WellScoped(code, AroundOf(f.frames))
    ensures Across(IntoIf(f, code.region, code.condition, code.hasElse, code.at), g)
    ensures WellScoped(code.otherwise, AroundOf(g.frames))
    decreases code, 0, 0, 1
  {
    AroundPush(f.frames, Frame(code.region, AfterIf(f, code.hasElse), 0));
    IntoElse(FirstSide(f, code), |f.blocks| + 1, AfterIf(f, code.hasElse), code.at)
  }

  function AcrossLoop(f: Flattening, code: Code): (g: Flattening)
    requires code.Loop? && f.Valid() && 0 < |f.blocks| && WellScoped(code, AroundOf(f.frames))
    ensures Across(f, g)
    decreases code, 0, 1
  {
    OutOf(InLoop(f, code), |f.blocks|, |f.blocks| + 1, f.loop, code.at)
  }

  /** At the end of a `loop`'s body. */
  function InLoop(f: Flattening, code: Code): (g: Flattening)
    requires code.Loop? && f.Valid() && 0 < |f.blocks| && WellScoped(code, AroundOf(f.frames))
    ensures WellScoped(code.body, AroundOf(IntoLoop(f, code.region, code.bound, code.at).frames))
    ensures Across(IntoLoop(f, code.region, code.bound, code.at), g)
    decreases code, 0, 0
  {
    AroundPush(f.frames, Frame(code.region, |f.blocks| + 1, |f.blocks|));
    FlattenCode(IntoLoop(f, code.region, code.bound, code.at), code.body)
  }

  /** The entry, placed and empty. */
  function Begun(parameters: nat): (f: Flattening)
    ensures f.Valid() && f.frames == [] && f.current == 1 && |f.blocks| == 2
  {
    var empty := BasicBlock([], [], false, NO_BOUND, 0, 0);
    Flattening([empty, empty], [1], Parameters(parameters), 1, 1, 0, [], [0, 0])
  }

  predicate Flattenable(function_: Structured) {
    WellScoped(function_.body, [])
  }

  /** The state of the pass when the body has been walked. */
  function Walked(function_: Structured): (f: Flattening)
    requires Flattenable(function_)
    ensures f.Valid() && 2 <= |f.blocks| && f.frames == []
  {
    assert AroundOf([]) == [];
    FlattenCode(Begun(function_.parameters), function_.body)
  }

  function Flatten(function_: Structured): Cfg
    requires Flattenable(function_)
  {
    var f := Walked(function_).Closed();
    Cfg(f.blocks, f.order, f.body, f.values, function_.realTime)
  }

  class IrFlattener {
    var blocks: seq<BasicBlock>
    var order: seq<nat>
    var values: map<nat, Value>
    var body: nat
    var current: nat
    var loop: nat
    var frames: seq<Frame>
    var jumpsTo: seq<nat>

    function Now(): Flattening
      reads this
    {
      Flattening(blocks, order, values, body, current, loop, frames, jumpsTo)
    }

    constructor ()
      ensures Now() == Flattening([], [], map[], 0, 0, 0, [], [])
    {
      blocks, order, values, body := [], [], map[], 0;
      current, loop, frames, jumpsTo := 0, 0, [], [];
    }

    method MakeBlock() returns (id: nat)
      requires Now().Valid()
      modifies this
      ensures Now() == old(Now()).Made() && id == old(|blocks|)
    {
      id := |blocks|;
      blocks := blocks + [BasicBlock([], [], false, NO_BOUND, loop, 0)];
      jumpsTo := jumpsTo + [0];
    }

    method Close()
      requires Now().Valid()
      modifies this`order
      ensures Now() == old(Now()).Closed()
    {
      if current != 0 && |order| > 1 && blocks[current].insts == [] && jumpsTo[current] == 0 {
        order := order[..|order| - 1];
      }
    }

    method Place(block: nat)
      requires Now().Valid() && block < |blocks|
      modifies this
      ensures Now() == old(Now()).Placed(block)
    {
      Close();
      blocks := blocks[block := blocks[block].(loop := if blocks[block].header then block else loop)];
      order := order + [block];
      current := block;
    }

    method Append(inst: Inst)
      requires Now().Valid()
      modifies this`blocks
      ensures Now() == old(Now()).Appended(inst)
    {
      blocks := blocks[current := blocks[current].(insts := blocks[current].insts + [inst])];
    }

    method CopyOf(inst: Inst)
      requires Now().Valid()
      modifies this
      ensures Now() == old(Now()).Copied(inst)
    {
      var index := |blocks[current].insts|;
      Append(inst);
      if Writes(inst) != 0 {
        values := values[Writes(inst) := Result(current, index)];
      }
    }

    method Jump(target: nat, at: Position)
      requires Now().Valid() && target < |blocks|
      modifies this
      ensures Now() == old(Now()).Jumped(target, at)
    {
      jumpsTo := jumpsTo[target := jumpsTo[target] + 1];
      Append(Br(target, [], at));
    }

    method Branch(condition: nat, chosen: nat, otherwise: nat, at: Position)
      requires Now().Valid() && chosen < |blocks| && otherwise < |blocks|
      modifies this
      ensures Now() == old(Now()).Branched(condition, chosen, otherwise, at)
    {
      jumpsTo := jumpsTo[chosen := jumpsTo[chosen] + 1];
      jumpsTo := jumpsTo[otherwise := jumpsTo[otherwise] + 1];
      Append(CondBr(condition, chosen, otherwise, at));
    }

    method FallThrough(target: nat, at: Position)
      requires Now().Valid() && target < |blocks|
      modifies this
      ensures Now() == old(Now()).Joined(target, at)
    {
      if Now().Falls() {
        Jump(target, at);
      }
    }

    /** Looked for from the innermost out. */
    method FindFrame(region: nat) returns (frame: Frame)
      requires Encloses(AroundOf(frames), region)
      ensures frame == FrameOf(frames, region)
    {
      var i := |frames|;
      assert frames[..i] == frames;
      while frames[i - 1].region != region
        invariant 0 < i <= |frames|
        invariant Encloses(AroundOf(frames[..i]), region)
        invariant FrameOf(frames[..i], region) == FrameOf(frames, region)
        decreases i
      {
        ghost var before := frames[..i];
        assert before[..|before| - 1] == frames[..i - 1];
        assert before[|before| - 1] == frames[i - 1];
        StepOut(before, region);
        i := i - 1;
      }
      frame := frames[i - 1];
      assert frames[..i][i - 1] == frame;
    }

    method FlattenBlock(code: Code)
      requires Now().Valid() && 0 < |blocks| && WellScoped(code, AroundOf(frames))
      modifies this
      ensures Now() == FlattenCode(old(Now()), code)
      decreases code, 2
    {
      var c := code;
      while c != End
        invariant Now().Valid() && 0 < |blocks|
        invariant frames == old(frames) && WellScoped(c, AroundOf(frames))
        invariant c == code || c < code
        invariant FlattenCode(Now(), c) == FlattenCode(old(Now()), code)
        decreases c
      {
        FlattenInst(c);
        c := c.next;
      }
    }

    method FlattenInst(c: Code)
      requires c != End && Now().Valid() && 0 < |blocks| && WellScoped(c, AroundOf(frames))
      modifies this
      ensures Now() == FlattenHead(old(Now()), c)
      decreases c, 1
    {
      match c {
        case Plain(inst, _) =>
          CopyOf(inst);

        case Block(_, _, _, _) =>
          FlattenRegion(c);

        case If(_, _, _, _, _, _, _) =>
          FlattenIf(c);

        case Loop(_, _, _, _, _) =>
          FlattenLoop(c);

        case Break(region, at, _) =>
          var frame := FindFrame(region);
          Jump(frame.after, at);

        case Continue(region, at, _) =>
          var frame := FindFrame(region);
          Jump(frame.top, at);
      }
    }

    method FlattenRegion(code: Code)
      requires code.Block? && Now().Valid() && 0 < |blocks| && WellScoped(code, AroundOf(frames))
      modifies this
      ensures Now() == AcrossBlock(old(Now()), code)
      decreases code, 0
    {
      AroundPush(frames, Frame(code.region, |blocks|, 0));
      var after := MakeBlock();
      frames := frames + [Frame(code.region, after, 0)];
      FlattenBlock(code.body);
      Leave(after, after, loop, code.at);
    }

    method FlattenIf(code: Code)
      requires code.If? && Now().Valid() && 0 < |blocks| && WellScoped(code, AroundOf(frames))
      modifies this
      ensures Now() == AcrossIf(old(Now()), code)
      decreases code, 0
    {
      hide FlattenCode, IntoIf, IntoElse, OutOf;
      ghost var f := Now();
      AroundPush(frames, Frame(code.region, AfterIf(f, code.hasElse), 0));
      var otherwise, after := EnterIf(code.region, code.condition, code.hasElse, code.at);
      FlattenBlock(code.chosen);
      assert Now() == FirstSide(f, code);
      if otherwise != 0 {
        EnterElse(otherwise, after, code.at);
        assert Now() == SecondSide(f, code);
        FlattenBlock(code.otherwise);
      }
      assert Now() == BothSides(f, code);
      Leave(after, after, loop, code.at);
    }

    method EnterElse(otherwise: nat, after: nat, at: Position)
      requires Now().Valid() && otherwise < |blocks| && after < |blocks|
      modifies this
      ensures Now() == IntoElse(old(Now()), otherwise, after, at)
    {
      FallThrough(after, at);
      Place(otherwise);
    }

    method EnterIf(region: nat, condition: nat, hasElse: bool, at: Position) returns (otherwise: nat, after: nat)
      requires Now().Valid() && 0 < |blocks|
      modifies this
      ensures Now() == IntoIf(old(Now()), region, condition, hasElse, at)
      ensures after == AfterIf(old(Now()), hasElse)
      ensures otherwise == if hasElse then old(|blocks|) + 1 else 0
    {
      var chosen := MakeBlock();
      otherwise := 0;
      if hasElse {
        otherwise := MakeBlock();
      }
      after := MakeBlock();
      Branch(condition, chosen, if otherwise != 0 then otherwise else after, at);
      frames := frames + [Frame(region, after, 0)];
      Place(chosen);
    }

    method FlattenLoop(code: Code)
      requires code.Loop? && Now().Valid() && 0 < |blocks| && WellScoped(code, AroundOf(frames))
      modifies this
      ensures Now() == AcrossLoop(old(Now()), code)
      decreases code, 0
    {
      AroundPush(frames, Frame(code.region, |blocks| + 1, |blocks|));
      var around := loop;
      var top, after := EnterLoop(code.region, code.bound, code.at);
      FlattenBlock(code.body);
      Leave(top, after, around, code.at);
    }

    method EnterLoop(region: nat, bound: U32, at: Position) returns (top: nat, after: nat)
      requires Now().Valid() && 0 < |blocks|
      modifies this
      ensures Now() == IntoLoop(old(Now()), region, bound, at)
      ensures top == old(|blocks|) && after == top + 1
    {
      var around := loop;
      top := MakeBlock();
      after := MakeBlock();
      blocks := blocks[top := blocks[top].(header := true, bound := bound, loop := top, outer := around)];
      Jump(top, at);
      frames := frames + [Frame(region, after, top)];
      loop := top;
      Place(top);
    }

    /** The end of a region: on to `target` if its list goes on, and `after` is placed. */
    method Leave(target: nat, after: nat, around: nat, at: Position)
      requires Now().Valid() && frames != [] && target < |blocks| && after < |blocks| && around < |blocks|
      modifies this
      ensures Now() == OutOf(old(Now()), target, after, around, at)
    {
      FallThrough(target, at);
      loop := around;
      frames := frames[..|frames| - 1];
      Place(after);
    }

    method FlattenFunction(function_: Function) returns (flat: Function)
      requires function_.InStructuredForm? ==> Flattenable(function_.structured)
      modifies this
      ensures function_.InCfgForm? ==> flat == function_
      ensures function_.InStructuredForm? ==> flat == InCfgForm(Flatten(function_.structured))
    {
      if function_.InCfgForm? {
        return function_;
      }
      blocks, order := [BasicBlock([], [], false, NO_BOUND, 0, 0)], [];
      values := Parameters(function_.structured.parameters);
      body, current, loop, frames, jumpsTo := 0, 0, 0, [], [0];
      body := MakeBlock();
      Place(body);
      assert Now() == Begun(function_.structured.parameters);
      assert AroundOf(frames) == [];
      FlattenBlock(function_.structured.body);
      Close();
      flat := InCfgForm(Cfg(blocks, order, body, values, function_.structured.realTime));
    }
  }

  lemma StepOut(frames: seq<Frame>, region: nat)
    requires Encloses(AroundOf(frames), region) && frames[|frames| - 1].region != region
    ensures Encloses(AroundOf(frames[..|frames| - 1]), region)
    ensures FrameOf(frames, region) == FrameOf(frames[..|frames| - 1], region)
  {
    assert AroundOf(frames[..|frames| - 1]) == AroundOf(frames)[..|frames| - 1];
  }
}
