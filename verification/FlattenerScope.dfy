/** The structured form's scope rule becomes dominance.

    `scopes` gives each block the values in scope where it starts. Every jump goes to a block
    with no more in scope than where it is written, so what is in scope at a block was written on
    every way to it.
  */
module FlattenerScope {
  import opened Ir
  import opened Flattener
  import opened FlattenerOrder
  import opened Verifier
  import opened VerifierSoundness

  /** The verifier's checks of a structured list: a place in the source for everything, the operands
      it looks at visible where they are read -- `visible` is what was given back before, here or around it,
      and the parameters -- nothing after a terminator, and in real-time code a bound on every
      loop. */
  predicate Verified(code: Code, visible: set<nat>, realTime: bool)
    decreases code, 1
  {
    code == End || (VerifiedHead(code, visible, realTime) && Verified(code.next, SeenAfter(code, visible), realTime))
  }

  predicate VerifiedHead(code: Code, visible: set<nat>, realTime: bool)
    requires code != End
    decreases code, 0
  {
    match code
    case Plain(inst, next) =>
      && IsCommon(inst) && Placeable(inst.at) && HasReceiver(inst) && (forall value <- Checked(inst) :: value in visible)
      && (IsTerminator(inst) ==> next == End)
    case Block(_, body, at, _) => Placeable(at) && Verified(body, visible, realTime)
    case If(_, condition, chosen, hasElse, otherwise, at, _) =>
      && Placeable(at) && condition in visible && Verified(chosen, visible, realTime)
      && (hasElse ==> Verified(otherwise, visible, realTime))
    case Loop(_, bound, body, at, _) =>
      Placeable(at) && (realTime ==> bound != NO_BOUND) && Verified(body, visible, realTime)
    case Break(_, at, next) => Placeable(at) && next == End
    case Continue(_, at, next) => Placeable(at) && next == End
  }

  /** What an instruction gives back is visible after it, and nothing given back inside a region
      is visible outside. */
  function SeenAfter(code: Code, visible: set<nat>): set<nat> {
    if code.Plain? then visible + Given(code.inst) else visible
  }

  predicate Placeable(at: Position) {
    at.offset != NO_OFFSET
  }

  function Given(inst: Inst): set<nat> {
    if Writes(inst) == 0 then {} else {Writes(inst)}
  }

  /** The values a list gives back, at any depth. */
  function Defined(code: Code): set<nat>
    decreases code, 1
  {
    if code == End then {} else DefinedHead(code) + Defined(code.next)
  }

  function DefinedHead(code: Code): set<nat>
    requires code != End
    decreases code, 0
  {
    match code
    case Plain(inst, _) => Given(inst)
    case Block(_, body, _, _) => Defined(body)
    case If(_, _, chosen, hasElse, otherwise, _, _) => Defined(chosen) + if hasElse then Defined(otherwise) else {}
    case Loop(_, _, body, _, _) => Defined(body)
    case _ => {}
  }

  /** Each value has one owner: no instruction gives back a value already `taken`. */
  predicate Fresh(code: Code, taken: set<nat>)
    decreases code, 1
  {
    code == End || (FreshHead(code, taken) && Fresh(code.next, taken + DefinedHead(code)))
  }

  predicate FreshHead(code: Code, taken: set<nat>)
    requires code != End
    decreases code, 0
  {
    match code
    case Plain(inst, _) => Given(inst) !! taken
    case Block(_, body, _, _) => Fresh(body, taken)
    case If(_, _, chosen, hasElse, otherwise, _, _) =>
      Fresh(chosen, taken) && (hasElse ==> Fresh(otherwise, taken + Defined(chosen)))
    case Loop(_, _, body, _, _) => Fresh(body, taken)
    case _ => true
  }

  /** A structured function the verifier reports nothing about. */
  predicate VerifiedFunction(function_: Structured) {
    && Flattenable(function_)
    && Verified(function_.body, Parameters(function_.parameters).Keys, function_.realTime)
    && Fresh(function_.body, Parameters(function_.parameters).Keys)
  }

  ghost predicate InScope(f: Flattening, scopes: seq<set<nat>>, block: nat, index: nat, value: nat)
    requires block < |scopes|
  {
    || value in scopes[block]
    || (value in f.values && f.values[value].Result? && f.values[value].block == block && f.values[value].index < index)
  }

  ghost predicate Fits(f: Flattening, scopes: seq<set<nat>>, block: nat, index: nat)
    requires f.Valid() && |scopes| == |f.blocks| && block < |f.blocks| && index < |f.blocks[block].insts|
  {
    var inst := f.blocks[block].insts[index];
    && Placeable(inst.at) && HasReceiver(inst) && !inst.Switch? && !inst.Region? && (inst.Br? ==> inst.arguments == [])
    && (forall value <- Checked(inst) :: InScope(f, scopes, block, index, value))
    && (forall target <- Targets(inst) :: Leaves(f, scopes, block, index, target))
  }

  ghost predicate Leaves(f: Flattening, scopes: seq<set<nat>>, block: nat, index: nat, target: nat)
    requires f.Valid() && |scopes| == |f.blocks| && block < |f.blocks|
  {
    && 1 < target < |f.blocks| && 0 < f.jumpsTo[target]
    && (forall value <- scopes[target] :: InScope(f, scopes, block, index, value))
  }

  /** Values a block starts with are written elsewhere. */
  ghost predicate StartsRight(f: Flattening, scopes: seq<set<nat>>, block: nat, realTime: bool)
    requires f.Valid() && |scopes| == |f.blocks| && block < |f.blocks|
  {
    && f.blocks[block].parameters == []
    && (f.blocks[block].header && realTime ==> f.blocks[block].bound != NO_BOUND)
    && (forall value <- scopes[block] :: value in f.values && (f.values[value].Result? ==> f.values[value].block != block))
    && (block == f.body ==> forall value <- scopes[block] :: value in f.values && f.values[value] == Parameter)
  }

  ghost predicate OwnedBy(f: Flattening, value: nat)
    requires value in f.values
  {
    var owner := f.values[value];
    && value != 0 && !owner.BlockParameter?
    && (owner.Result? ==>
          && owner.block < |f.blocks| && owner.index < |f.blocks[owner.block].insts|
          && Writes(f.blocks[owner.block].insts[owner.index]) == value)
  }

  ghost predicate Scoped(f: Flattening, scopes: seq<set<nat>>, realTime: bool) {
    && f.Valid() && |scopes| == |f.blocks|
    && (forall b {:trigger f.blocks[b]} :: 0 <= b < |f.blocks| ==> StartsRight(f, scopes, b, realTime))
    && (forall b, i {:trigger f.blocks[b].insts[i]} :: 0 <= b < |f.blocks| && 0 <= i < |f.blocks[b].insts| ==> Fits(f, scopes, b, i))
    && (forall value <- f.values :: OwnedBy(f, value))
  }

  /** What is visible is in scope where the next instruction goes. */
  ghost predicate Sees(f: Flattening, scopes: seq<set<nat>>, visible: set<nat>)
    requires f.Valid() && |scopes| == |f.blocks|
  {
    forall value <- visible :: value in f.values && InScope(f, scopes, f.current, |f.blocks[f.current].insts|, value)
  }

  /** The regions around go on with no more than is visible. */
  ghost predicate Framed(f: Flattening, scopes: seq<set<nat>>, visible: set<nat>)
    requires f.Valid() && |scopes| == |f.blocks|
  {
    forall frame <- f.frames ::
      && 1 < frame.after && scopes[frame.after] <= visible
      && (frame.top != 0 ==> 1 < frame.top && scopes[frame.top] <= visible)
  }

  ghost predicate KeepsValues(f: Flattening, g: Flattening) {
    forall value <- f.values :: value in g.values && g.values[value] == f.values[value]
  }

  /** From `f` to `g` instructions are written and counted, and what was there still fits. */
  lemma StillFits(f: Flattening, scopes: seq<set<nat>>, g: Flattening, more: seq<set<nat>>, b: nat, i: nat)
    requires f.Valid() && |scopes| == |f.blocks| && g.Valid() && |more| == |g.blocks| && |f.blocks| <= |g.blocks|
    requires scopes == more[..|scopes|] && KeepsValues(f, g)
    requires b < |f.blocks| && i < |f.blocks[b].insts| <= |g.blocks[b].insts| && g.blocks[b].insts[i] == f.blocks[b].insts[i]
    requires forall t {:trigger g.jumpsTo[t]} :: 0 <= t < |f.blocks| ==> f.jumpsTo[t] <= g.jumpsTo[t]
    requires Fits(f, scopes, b, i)
    ensures Fits(g, more, b, i)
  {
    var inst := f.blocks[b].insts[i];
    forall target | target in Targets(inst)
      ensures Leaves(g, more, b, i, target)
    {
      assert Leaves(f, scopes, b, i, target);
      assert more[target] == scopes[target] && more[b] == scopes[b];
    }
    assert more[b] == scopes[b];
  }

  lemma MadeScoped(f: Flattening, scopes: seq<set<nat>>, realTime: bool, visible: set<nat>)
    requires Scoped(f, scopes, realTime) && visible <= f.values.Keys
    ensures Scoped(f.Made(), scopes + [visible], realTime)
  {
    var g, more := f.Made(), scopes + [visible];
    forall b, i | 0 <= b < |g.blocks| && 0 <= i < |g.blocks[b].insts|
      ensures Fits(g, more, b, i)
    {
      assert b < |f.blocks| && g.blocks[b] == f.blocks[b] && Fits(f, scopes, b, i);
      StillFits(f, scopes, g, more, b, i);
    }
    forall b | 0 <= b < |g.blocks|
      ensures StartsRight(g, more, b, realTime)
    {
      if b < |f.blocks| {
        assert StartsRight(f, scopes, b, realTime) && more[b] == scopes[b] && g.blocks[b] == f.blocks[b];
      } else {
        forall value | value in visible
          ensures value in f.values && (f.values[value].Result? ==> f.values[value].block != b)
        {
          assert OwnedBy(f, value);
        }
      }
    }
    forall value | value in g.values
      ensures OwnedBy(g, value)
    {
      assert OwnedBy(f, value);
    }
  }

  /** Writing an instruction that reads what is visible and leaves for no more than that. */
  lemma AppendedScoped(f: Flattening, scopes: seq<set<nat>>, realTime: bool, visible: set<nat>, inst: Inst, g: Flattening)
    requires Scoped(f, scopes, realTime) && Sees(f, scopes, visible) && g.Valid()
    requires g.blocks == f.Appended(inst).blocks && g.body == f.body
    requires Given(inst) !! f.values.Keys
    requires g.values == if Writes(inst) == 0 then f.values else f.values[Writes(inst) := Result(f.current, |f.blocks[f.current].insts|)]
    requires forall t {:trigger g.jumpsTo[t]} :: 0 <= t < |f.blocks| ==> f.jumpsTo[t] <= g.jumpsTo[t]
    requires Placeable(inst.at) && HasReceiver(inst) && !inst.Switch? && !inst.Region? && (inst.Br? ==> inst.arguments == [])
    requires forall value <- Checked(inst) :: value in visible
    requires forall target <- Targets(inst) :: 1 < target < |f.blocks| && 0 < g.jumpsTo[target] && scopes[target] <= visible
    ensures Scoped(g, scopes, realTime)
  {
    var here := |f.blocks[f.current].insts|;
    assert KeepsValues(f, g);
    forall b, i | 0 <= b < |g.blocks| && 0 <= i < |g.blocks[b].insts|
      ensures Fits(g, scopes, b, i)
    {
      if b == f.current && i == here {
        assert g.blocks[b].insts[i] == inst;
        forall target | target in Targets(inst)
          ensures Leaves(g, scopes, b, i, target)
        {
        }
      } else {
        assert i < |f.blocks[b].insts| && g.blocks[b].insts[i] == f.blocks[b].insts[i];
        assert Fits(f, scopes, b, i);
        StillFits(f, scopes, g, scopes, b, i);
      }
    }
    forall b | 0 <= b < |g.blocks|
      ensures StartsRight(g, scopes, b, realTime)
    {
      assert StartsRight(f, scopes, b, realTime);
    }
    OwnersStay(f, scopes, realTime, inst, g);
  }

  lemma OwnersStay(f: Flattening, scopes: seq<set<nat>>, realTime: bool, inst: Inst, g: Flattening)
    requires Scoped(f, scopes, realTime) && g.Valid()
    requires g.blocks == f.Appended(inst).blocks
    requires g.values == if Writes(inst) == 0 then f.values else f.values[Writes(inst) := Result(f.current, |f.blocks[f.current].insts|)]
    ensures forall value <- g.values :: OwnedBy(g, value)
  {
    forall value | value in g.values
      ensures OwnedBy(g, value)
    {
      var owner := g.values[value];
      if value in f.values && owner == f.values[value] {
        assert OwnedBy(f, value);
        if owner.Result? {
          assert g.blocks[owner.block].insts[owner.index] == f.blocks[owner.block].insts[owner.index];
        }
      }
    }
  }

  /** Fields the scopes do not look at. */
  lemma RelabelledScoped(f: Flattening, scopes: seq<set<nat>>, realTime: bool, g: Flattening)
    requires Scoped(f, scopes, realTime) && g.Valid() && |g.blocks| == |f.blocks|
    requires g.values == f.values && g.jumpsTo == f.jumpsTo && g.body == f.body
    requires forall b {:trigger g.blocks[b]} :: 0 <= b < |f.blocks| ==>
               && g.blocks[b].insts == f.blocks[b].insts && g.blocks[b].parameters == f.blocks[b].parameters
               && (g.blocks[b].header && realTime ==> g.blocks[b].bound != NO_BOUND)
    ensures Scoped(g, scopes, realTime)
  {
    forall b, i | 0 <= b < |g.blocks| && 0 <= i < |g.blocks[b].insts|
      ensures Fits(g, scopes, b, i)
    {
      assert g.blocks[b].insts[i] == f.blocks[b].insts[i];
      assert Fits(f, scopes, b, i);
      StillFits(f, scopes, g, scopes, b, i);
    }
    forall b | 0 <= b < |g.blocks|
      ensures StartsRight(g, scopes, b, realTime)
    {
      assert StartsRight(f, scopes, b, realTime);
    }
    forall value | value in g.values
      ensures OwnedBy(g, value)
    {
      assert OwnedBy(f, value);
    }
  }

  lemma JumpedScoped(f: Flattening, scopes: seq<set<nat>>, realTime: bool, visible: set<nat>, target: nat, at: Position)
    requires Scoped(f, scopes, realTime) && Sees(f, scopes, visible) && 1 < target < |f.blocks|
    requires scopes[target] <= visible && Placeable(at)
    ensures Scoped(f.Jumped(target, at), scopes, realTime) && Sees(f.Jumped(target, at), scopes, visible)
  {
    AppendedScoped(f, scopes, realTime, visible, Br(target, [], at), f.Jumped(target, at));
  }

  /** Out of a region, from where `visible` is in scope. */
  lemma MovedScoped(f: Flattening, scopes: seq<set<nat>>, realTime: bool, visible: set<nat>, target: nat, at: Position, g: Flattening, after: nat)
    requires Scoped(f, scopes, realTime) && Sees(f, scopes, visible) && 1 < target < |f.blocks|
    requires scopes[target] <= visible && Placeable(at)
    requires after < |f.blocks| && scopes[after] == visible && g.Valid() && |g.blocks| == |f.blocks|
    requires var j := f.Joined(target, at);
             && g.values == j.values && g.jumpsTo == j.jumpsTo && g.body == j.body && g.current == after
             && (forall b {:trigger g.blocks[b]} :: 0 <= b < |j.blocks| ==>
                   g.blocks[b] == j.blocks[b] || g.blocks[b] == j.blocks[b].(loop := g.blocks[b].loop))
    ensures Scoped(g, scopes, realTime) && Sees(g, scopes, visible)
  {
    var j := f.Joined(target, at);
    if f.Falls() {
      JumpedScoped(f, scopes, realTime, visible, target, at);
    }
    forall b | 0 <= b < |j.blocks|
      ensures j.blocks[b].header && realTime ==> j.blocks[b].bound != NO_BOUND
    {
      assert StartsRight(j, scopes, b, realTime);
    }
    RelabelledScoped(j, scopes, realTime, g);
  }

  lemma OutOfScoped(f: Flattening, scopes: seq<set<nat>>, realTime: bool, visible: set<nat>, target: nat, after: nat, loop: nat, at: Position)
    requires Scoped(f, scopes, realTime) && Sees(f, scopes, visible) && 1 < target < |f.blocks| && Placeable(at)
    requires f.frames != [] && after < |f.blocks| && loop < |f.blocks|
    requires scopes[target] <= visible && scopes[after] == visible
    ensures var g := OutOf(f, target, after, loop, at);
            Scoped(g, scopes, realTime) && Sees(g, scopes, visible) && g.values == f.values
  {
    hide Scoped, Sees;
    ScopesMatch(f, scopes, realTime);
    MovedScoped(f, scopes, realTime, visible, target, at, OutOf(f, target, after, loop, at), after);
  }

  lemma {:induction false} FlattenCodeScoped(f: Flattening, scopes: seq<set<nat>>, visible: set<nat>, code: Code, realTime: bool)
      returns (more: seq<set<nat>>)
    requires 1 < |f.blocks| && WellScoped(code, AroundOf(f.frames))
    requires Scoped(f, scopes, realTime) && Sees(f, scopes, visible) && Framed(f, scopes, visible)
    requires Verified(code, visible, realTime) && Fresh(code, f.values.Keys)
    ensures Walks(f, scopes, visible, FlattenCode(f, code), more, realTime)
    ensures FlattenCode(f, code).values.Keys == f.values.Keys + Defined(code)
    decreases code, 2
  {
    hide Fits, StartsRight, OwnedBy, FlattenHead, VerifiedHead, FreshHead, InScope, AroundOf, WellScoped;
    CodeUnfolds(code, AroundOf(f.frames));
    if code == End {
      more := scopes;
    } else {
      var g := FlattenHead(f, code);
      var between := FlattenHeadScoped(f, scopes, visible, code, realTime);
      var seen := SeenAfter(code, visible);
      FramedStays(f, scopes, visible, g, between, seen);
      more := FlattenCodeScoped(g, between, seen, code.next, realTime);
      WalksOn(f, scopes, visible, g, between, seen, FlattenCode(f, code), more, realTime);
    }
  }

  lemma CodeUnfolds(code: Code, around: seq<Around>)
    requires WellScoped(code, around)
    ensures code != End ==> WellScoped(code.next, around)
  {
  }

  /** From `f` to `g`, with the scopes of the blocks made on the way. */
  ghost predicate Walks(f: Flattening, scopes: seq<set<nat>>, visible: set<nat>, g: Flattening, more: seq<set<nat>>, realTime: bool) {
    && |scopes| <= |more| && more[..|scopes|] == scopes
    && Scoped(g, more, realTime) && Sees(g, more, visible) && KeepsValues(f, g)
  }

  lemma WalksOn(f: Flattening, scopes: seq<set<nat>>, visible: set<nat>, g: Flattening, between: seq<set<nat>>, seen: set<nat>,
                h: Flattening, more: seq<set<nat>>, realTime: bool)
    requires Walks(f, scopes, seen, g, between, realTime) && Walks(g, between, seen, h, more, realTime) && visible <= seen
    ensures Walks(f, scopes, visible, h, more, realTime)
  {
    assert more[..|scopes|] == between[..|scopes|];
  }

  lemma FramedStays(f: Flattening, scopes: seq<set<nat>>, visible: set<nat>, g: Flattening, more: seq<set<nat>>, seen: set<nat>)
    requires f.Valid() && |scopes| == |f.blocks| && Framed(f, scopes, visible) && visible <= seen
    requires g.Valid() && |more| == |g.blocks| && |scopes| <= |more| && more[..|scopes|] == scopes && g.frames == f.frames
    ensures Framed(g, more, seen)
  {
    forall frame | frame in g.frames
      ensures 1 < frame.after && more[frame.after] <= seen && (frame.top != 0 ==> 1 < frame.top && more[frame.top] <= seen)
    {
      assert more[frame.after] == scopes[frame.after] && more[frame.top] == scopes[frame.top];
    }
  }

  lemma {:induction false} FlattenHeadScoped(f: Flattening, scopes: seq<set<nat>>, visible: set<nat>, code: Code, realTime: bool)
      returns (more: seq<set<nat>>)
    requires code != End && 1 < |f.blocks| && WellScoped(code, AroundOf(f.frames))
    requires Scoped(f, scopes, realTime) && Sees(f, scopes, visible) && Framed(f, scopes, visible)
    requires VerifiedHead(code, visible, realTime) && FreshHead(code, f.values.Keys)
    ensures Walks(f, scopes, SeenAfter(code, visible), FlattenHead(f, code), more, realTime)
    ensures FlattenHead(f, code).values.Keys == f.values.Keys + DefinedHead(code)
    decreases code, 1
  {
    hide Scoped, Sees, Framed, AcrossBlock, AcrossIf, AcrossLoop, Walks, Verified, Fresh;
    match code
    case Plain(_, _) => more := PlainScoped(f, scopes, visible, code, realTime);
    case Block(_, _, _, _) => more := BlockScoped(f, scopes, visible, code, realTime);
    case If(_, _, _, _, _, _, _) => more := IfScoped(f, scopes, visible, code, realTime);
    case Loop(_, _, _, _, _) => more := LoopScoped(f, scopes, visible, code, realTime);
    case Break(region, at, _) => more := LeavesScoped(f, scopes, visible, FrameOf(f.frames, region).after, at, realTime, FrameOf(f.frames, region));
    case Continue(region, at, _) => more := LeavesScoped(f, scopes, visible, FrameOf(f.frames, region).top, at, realTime, FrameOf(f.frames, region));
  }

  lemma PlainScoped(f: Flattening, scopes: seq<set<nat>>, visible: set<nat>, code: Code, realTime: bool) returns (more: seq<set<nat>>)
    requires code.Plain? && Scoped(f, scopes, realTime) && Sees(f, scopes, visible)
    requires VerifiedHead(code, visible, realTime) && FreshHead(code, f.values.Keys)
    ensures Walks(f, scopes, SeenAfter(code, visible), f.Copied(code.inst), more, realTime)
    ensures f.Copied(code.inst).values.Keys == f.values.Keys + DefinedHead(code)
  {
    hide Fits, StartsRight, OwnedBy, Verified;
    more := scopes;
    AppendedScoped(f, scopes, realTime, visible, code.inst, f.Copied(code.inst));
  }

  /** To where one of the regions around goes on. */
  lemma LeavesScoped(f: Flattening, scopes: seq<set<nat>>, visible: set<nat>, target: nat, at: Position, realTime: bool, frame: Frame)
      returns (more: seq<set<nat>>)
    requires Scoped(f, scopes, realTime) && Sees(f, scopes, visible) && Framed(f, scopes, visible) && Placeable(at)
    requires frame in f.frames && (target == frame.after || (target == frame.top && frame.top != 0))
    ensures target < |f.blocks| && Walks(f, scopes, visible, f.Jumped(target, at), more, realTime)
    ensures f.Jumped(target, at).values == f.values
  {
    hide Fits, StartsRight, OwnedBy;
    more := scopes;
    JumpedScoped(f, scopes, realTime, visible, target, at);
  }

  lemma OpenedScoped(f: Flattening, scopes: seq<set<nat>>, realTime: bool, visible: set<nat>, frame: Frame)
    requires Scoped(f, scopes, realTime) && Sees(f, scopes, visible) && Framed(f, scopes, visible)
    requires 1 < frame.after < |f.blocks| && frame.top < |f.blocks| && scopes[frame.after] == visible
    requires frame.top != 0 ==> 1 < frame.top && scopes[frame.top] == visible
    ensures Scoped(f.Opened(frame), scopes, realTime) && Sees(f.Opened(frame), scopes, visible) && Framed(f.Opened(frame), scopes, visible)
  {
    RelabelledLikewise(f, scopes, realTime, f.Opened(frame));
  }

  lemma RelabelledLikewise(f: Flattening, scopes: seq<set<nat>>, realTime: bool, g: Flattening)
    requires Scoped(f, scopes, realTime) && g.Valid() && g.blocks == f.blocks
    requires g.values == f.values && g.jumpsTo == f.jumpsTo && g.body == f.body
    ensures Scoped(g, scopes, realTime)
  {
    forall b | 0 <= b < |f.blocks|
      ensures f.blocks[b].header && realTime ==> f.blocks[b].bound != NO_BOUND
    {
      assert StartsRight(f, scopes, b, realTime);
    }
    RelabelledScoped(f, scopes, realTime, g);
  }

  lemma MadeLikewise(f: Flattening, scopes: seq<set<nat>>, realTime: bool, visible: set<nat>)
    requires Scoped(f, scopes, realTime) && Sees(f, scopes, visible) && Framed(f, scopes, visible)
    ensures Scoped(f.Made(), scopes + [visible], realTime)
    ensures Sees(f.Made(), scopes + [visible], visible) && Framed(f.Made(), scopes + [visible], visible)
  {
    MadeScoped(f, scopes, realTime, visible);
    FramedStays(f, scopes, visible, f.Made(), scopes + [visible], visible);
  }

  lemma {:induction false} BlockScoped(f: Flattening, scopes: seq<set<nat>>, visible: set<nat>, code: Code, realTime: bool)
      returns (more: seq<set<nat>>)
    requires code.Block? && 1 < |f.blocks| && WellScoped(code, AroundOf(f.frames))
    requires Scoped(f, scopes, realTime) && Sees(f, scopes, visible) && Framed(f, scopes, visible)
    requires VerifiedHead(code, visible, realTime) && FreshHead(code, f.values.Keys)
    ensures Walks(f, scopes, visible, AcrossBlock(f, code), more, realTime)
    ensures AcrossBlock(f, code).values.Keys == f.values.Keys + Defined(code.body)
    decreases code, 0
  {
    hide Fits, StartsRight, OwnedBy, FlattenCode, InScope, Verified, WellScoped, OutOf;
    var after := |f.blocks|;
    var f1, more1 := IntoBlock(f, code.region), scopes + [visible];
    MadeLikewise(f, scopes, realTime, visible);
    OpenedScoped(f.Made(), more1, realTime, visible, Frame(code.region, after, 0));
    AroundPush(f.frames, Frame(code.region, after, 0));
    var inner := InBlock(f, code);
    more := FlattenCodeScoped(f1, more1, visible, code.body, realTime);
    assert more[after] == visible;
    OutOfScoped(inner, more, realTime, visible, after, after, f.loop, code.at);
  }

  lemma {:induction false} IfScoped(f: Flattening, scopes: seq<set<nat>>, visible: set<nat>, code: Code, realTime: bool)
      returns (more: seq<set<nat>>)
    requires code.If? && 1 < |f.blocks| && WellScoped(code, AroundOf(f.frames))
    requires Scoped(f, scopes, realTime) && Sees(f, scopes, visible) && Framed(f, scopes, visible)
    requires VerifiedHead(code, visible, realTime) && FreshHead(code, f.values.Keys)
    ensures Walks(f, scopes, visible, AcrossIf(f, code), more, realTime)
    ensures AcrossIf(f, code).values.Keys == f.values.Keys + DefinedHead(code)
    decreases code, 0, 2
  {
    hide Scoped, Sees, Framed, IntoIf, FirstSide, SecondSide, FlattenCode, WellScoped, Verified, Fresh, OutOf;
    var after := AfterIf(f, code.hasElse);
    ScopesMatch(f, scopes, realTime);
    more := FirstSideScoped(f, scopes, visible, code, realTime);
    if code.hasElse {
      more := SecondSideScoped(f, scopes, more, visible, code, realTime);
    }
    OutOfScoped(BothSides(f, code), more, realTime, visible, after, after, f.loop, code.at);
  }

  lemma {:induction false} FirstSideScoped(f: Flattening, scopes: seq<set<nat>>, visible: set<nat>, code: Code, realTime: bool)
      returns (more: seq<set<nat>>)
    requires code.If? && 1 < |f.blocks| && WellScoped(code, AroundOf(f.frames))
    requires Scoped(f, scopes, realTime) && Sees(f, scopes, visible) && Framed(f, scopes, visible)
    requires VerifiedHead(code, visible, realTime) && FreshHead(code, f.values.Keys)
    ensures Walks(f, scopes, visible, FirstSide(f, code), more, realTime)
    ensures |f.blocks| + 1 < |more| && more[|f.blocks| + 1] == visible
    ensures AfterIf(f, code.hasElse) < |more| && more[AfterIf(f, code.hasElse)] == visible
    ensures FirstSide(f, code).values.Keys == f.values.Keys + Defined(code.chosen)
    decreases code, 0, 0
  {
    hide Scoped, Sees, Framed, IntoIf;
    var n, after := |f.blocks|, AfterIf(f, code.hasElse);
    ScopesMatch(f, scopes, realTime);
    var more1 := IntoIfScoped(f, scopes, visible, code, realTime);
    AroundPush(f.frames, Frame(code.region, after, 0));
    more := FlattenCodeScoped(IntoIf(f, code.region, code.condition, code.hasElse, code.at), more1, visible, code.chosen, realTime);
    assert more[n + 1] == more1[n + 1] == visible && more[after] == more1[after] == visible;
    assert more[..|scopes|] == more1[..|scopes|];
  }

  lemma ScopesMatch(f: Flattening, scopes: seq<set<nat>>, realTime: bool)
    requires Scoped(f, scopes, realTime)
    ensures f.Valid() && |scopes| == |f.blocks|
  {
  }

  lemma {:induction false} SecondSideScoped(f: Flattening, scopes: seq<set<nat>>, first: seq<set<nat>>, visible: set<nat>,
                                            code: Code, realTime: bool)
      returns (more: seq<set<nat>>)
    requires code.If? && code.hasElse && f.Valid() && 1 < |f.blocks| == |scopes| && WellScoped(code, AroundOf(f.frames))
    requires Framed(f, scopes, visible)
    requires VerifiedHead(code, visible, realTime) && FreshHead(code, f.values.Keys)
    requires Walks(f, scopes, visible, FirstSide(f, code), first, realTime)
    requires |f.blocks| + 2 < |first| && first[|f.blocks| + 1] == visible && first[|f.blocks| + 2] == visible
    requires FirstSide(f, code).values.Keys == f.values.Keys + Defined(code.chosen)
    ensures Walks(f, scopes, visible, BothSides(f, code), more, realTime)
    ensures |f.blocks| + 2 < |more| && more[|f.blocks| + 2] == visible
    ensures BothSides(f, code).values.Keys == f.values.Keys + DefinedHead(code)
    decreases code, 0, 1
  {
    hide Scoped, Sees, Framed, FirstSide, WellScoped, IntoElse, Verified, Fresh;
    var n := |f.blocks|;
    var second := SecondSide(f, code);
    ScopesMatch(FirstSide(f, code), first, realTime);
    SecondSideMoved(FirstSide(f, code), first, visible, n + 1, n + 2, code.at, realTime);
    SecondSideFramed(f, scopes, first, visible, code);
    more := FlattenCodeScoped(second, first, visible, code.otherwise, realTime);
    assert more[n + 2] == first[n + 2];
    assert more[..|scopes|] == first[..|scopes|];
  }

  lemma SecondSideMoved(first: Flattening, scopes: seq<set<nat>>, visible: set<nat>, otherwise: nat, after: nat, at: Position, realTime: bool)
    requires Scoped(first, scopes, realTime) && Sees(first, scopes, visible) && Placeable(at)
    requires 1 < otherwise < |first.blocks| && 1 < after < |first.blocks| && scopes[otherwise] == visible && scopes[after] == visible
    ensures var second := IntoElse(first, otherwise, after, at);
            Scoped(second, scopes, realTime) && Sees(second, scopes, visible) && second.values == first.values
  {
    hide Fits, StartsRight, OwnedBy;
    MovedScoped(first, scopes, realTime, visible, after, at, IntoElse(first, otherwise, after, at), otherwise);
  }

  lemma SecondSideFramed(f: Flattening, scopes: seq<set<nat>>, first: seq<set<nat>>, visible: set<nat>, code: Code)
    requires code.If? && code.hasElse && f.Valid() && 1 < |f.blocks| == |scopes| && WellScoped(code, AroundOf(f.frames))
    requires Framed(f, scopes, visible)
    requires |scopes| <= |first| && first[..|scopes|] == scopes && |first| == |SecondSide(f, code).blocks|
    requires |f.blocks| + 2 < |first| && first[|f.blocks| + 2] == visible
    ensures Framed(SecondSide(f, code), first, visible)
  {
    hide FirstSide, WellScoped;
    var second := SecondSide(f, code);
    assert second.frames == f.frames + [Frame(code.region, |f.blocks| + 2, 0)];
    forall frame | frame in second.frames
      ensures 1 < frame.after && first[frame.after] <= visible
      ensures frame.top != 0 ==> 1 < frame.top && first[frame.top] <= visible
    {
      if frame in f.frames {
        assert first[frame.after] == scopes[frame.after] && first[frame.top] == scopes[frame.top];
      }
    }
  }

  lemma IntoIfScoped(f: Flattening, scopes: seq<set<nat>>, visible: set<nat>, code: Code, realTime: bool)
      returns (more: seq<set<nat>>)
    requires code.If? && 1 < |f.blocks| && VerifiedHead(code, visible, realTime)
    requires Scoped(f, scopes, realTime) && Sees(f, scopes, visible) && Framed(f, scopes, visible)
    ensures var g := IntoIf(f, code.region, code.condition, code.hasElse, code.at);
            && |more| == |g.blocks| && more[..|scopes|] == scopes
            && (forall i {:trigger more[i]} :: |scopes| <= i < |more| ==> more[i] == visible)
            && Scoped(g, more, realTime) && Sees(g, more, visible) && Framed(g, more, visible) && g.values == f.values
  {
    hide Fits, StartsRight, OwnedBy;
    var n, after := |f.blocks|, AfterIf(f, code.hasElse);
    MadeLikewise(f, scopes, realTime, visible);
    MadeLikewise(f.Made(), scopes + [visible], realTime, visible);
    var made;
    made, more := f.Made().Made(), scopes + [visible] + [visible];
    if code.hasElse {
      MadeLikewise(made, more, realTime, visible);
      made, more := made.Made(), more + [visible];
    }
    hide Scoped, Sees, Framed, Flattening.Branched, Flattening.Opened, Flattening.Placed;
    BranchedScoped(made, more, realTime, visible, code, n, after);
  }

  lemma BranchedScoped(made: Flattening, scopes: seq<set<nat>>, realTime: bool, visible: set<nat>, code: Code, n: nat, after: nat)
    requires code.If? && VerifiedHead(code, visible, realTime)
    requires Scoped(made, scopes, realTime) && Sees(made, scopes, visible) && Framed(made, scopes, visible)
    requires 1 < n && n + 1 < |made.blocks| && 1 < after < |made.blocks|
    requires scopes[n] == visible && scopes[n + 1] == visible && scopes[after] == visible
    ensures var g := made.Branched(code.condition, n, n + 1, code.at).Opened(Frame(code.region, after, 0)).Placed(n);
            Scoped(g, scopes, realTime) && Sees(g, scopes, visible) && Framed(g, scopes, visible) && g.values == made.values
  {
    hide Fits, StartsRight, OwnedBy, Verified;
    var branched := made.Branched(code.condition, n, n + 1, code.at);
    AppendedScoped(made, scopes, realTime, visible, CondBr(code.condition, n, n + 1, code.at), branched);
    FramedStays(made, scopes, visible, branched, scopes, visible);
    OpenedScoped(branched, scopes, realTime, visible, Frame(code.region, after, 0));
    PlacedScoped(branched.Opened(Frame(code.region, after, 0)), scopes, realTime, visible, n);
  }

  lemma PlacedScoped(f: Flattening, scopes: seq<set<nat>>, realTime: bool, visible: set<nat>, block: nat)
    requires Scoped(f, scopes, realTime) && Framed(f, scopes, visible) && block < |f.blocks| && scopes[block] == visible
    ensures var g := f.Placed(block); Scoped(g, scopes, realTime) && Sees(g, scopes, visible) && Framed(g, scopes, visible)
  {
    var g := f.Placed(block);
    forall b | 0 <= b < |f.blocks|
      ensures f.blocks[b].header && realTime ==> f.blocks[b].bound != NO_BOUND
    {
      assert StartsRight(f, scopes, b, realTime);
    }
    RelabelledScoped(f, scopes, realTime, g);
    assert StartsRight(f, scopes, block, realTime);
  }

  lemma {:induction false} LoopScoped(f: Flattening, scopes: seq<set<nat>>, visible: set<nat>, code: Code, realTime: bool)
      returns (more: seq<set<nat>>)
    requires code.Loop? && 1 < |f.blocks| && WellScoped(code, AroundOf(f.frames))
    requires Scoped(f, scopes, realTime) && Sees(f, scopes, visible) && Framed(f, scopes, visible)
    requires VerifiedHead(code, visible, realTime) && FreshHead(code, f.values.Keys)
    ensures Walks(f, scopes, visible, AcrossLoop(f, code), more, realTime)
    ensures AcrossLoop(f, code).values.Keys == f.values.Keys + Defined(code.body)
    decreases code, 0
  {
    hide Fits, StartsRight, OwnedBy, FlattenCode, InScope, Verified, WellScoped, OutOf, IntoLoop;
    var top, after := |f.blocks|, |f.blocks| + 1;
    var more1 := scopes + [visible] + [visible];
    IntoLoopScoped(f, scopes, visible, code, realTime);
    AroundPush(f.frames, Frame(code.region, after, top));
    var inner := InLoop(f, code);
    more := FlattenCodeScoped(IntoLoop(f, code.region, code.bound, code.at), more1, visible, code.body, realTime);
    assert more[after] == visible && more[top] == visible;
    OutOfScoped(inner, more, realTime, visible, top, after, f.loop, code.at);
  }

  lemma HeadedScoped(f: Flattening, scopes: seq<set<nat>>, realTime: bool, top: nat, bound: U32)
    requires Scoped(f, scopes, realTime) && top < |f.blocks| && (realTime ==> bound != NO_BOUND)
    ensures f.Valid() && Scoped(f.Headed(top, bound), scopes, realTime)
  {
    var headed := f.Headed(top, bound);
    forall b | 0 <= b < |f.blocks|
      ensures headed.blocks[b].header && realTime ==> headed.blocks[b].bound != NO_BOUND
    {
      assert StartsRight(f, scopes, b, realTime);
    }
    RelabelledScoped(f, scopes, realTime, headed);
  }

  lemma IntoLoopScoped(f: Flattening, scopes: seq<set<nat>>, visible: set<nat>, code: Code, realTime: bool)
    requires code.Loop? && 1 < |f.blocks| && VerifiedHead(code, visible, realTime)
    requires Scoped(f, scopes, realTime) && Sees(f, scopes, visible) && Framed(f, scopes, visible)
    ensures var g, more := IntoLoop(f, code.region, code.bound, code.at), scopes + [visible] + [visible];
            Scoped(g, more, realTime) && Sees(g, more, visible) && Framed(g, more, visible) && g.values == f.values
  {
    var top, frame := |f.blocks|, Frame(code.region, |f.blocks| + 1, |f.blocks|);
    MadeLikewise(f, scopes, realTime, visible);
    MadeLikewise(f.Made(), scopes + [visible], realTime, visible);
    var made, more := f.Made().Made(), scopes + [visible] + [visible];
    var headed := made.Headed(top, code.bound);
    HeadedScoped(made, more, realTime, top, code.bound);
    hide Scoped;
    JumpedScoped(headed, more, realTime, visible, top, code.at);
    var jumped := headed.Jumped(top, code.at);
    FramedStays(made, more, visible, jumped, more, visible);
    OpenedScoped(jumped, more, realTime, visible, frame);
    var entered := jumped.Opened(frame).Looping(top);
    RelabelledLikewise(jumped.Opened(frame), more, realTime, entered);
    PlacedScoped(entered, more, realTime, visible, top);
  }
}
