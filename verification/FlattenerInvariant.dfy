/** What the flattener keeps while it walks a list of instructions. */
module FlattenerInvariant {
  import opened Ir
  import opened Flattener
  import opened Interpreter

  /** The headers of the loops around, innermost first. */
  function HeadersOf(frames: seq<Frame>): seq<nat> {
    if frames == [] then []
    else
      var last := frames[|frames| - 1];
      (if last.top != 0 then [last.top] else []) + HeadersOf(frames[..|frames| - 1])
  }

  lemma HeadersPush(frames: seq<Frame>, frame: Frame)
    ensures HeadersOf(frames + [frame]) == (if frame.top != 0 then [frame.top] else []) + HeadersOf(frames)
  {
    assert (frames + [frame])[..|frames|] == frames;
  }

  lemma {:induction false} HeaderIsAround(frames: seq<Frame>, frame: Frame)
    requires frame in frames && frame.top != 0
    ensures frame.top in HeadersOf(frames)
  {
    if frame != frames[|frames| - 1] {
      HeaderIsAround(frames[..|frames| - 1], frame);
    }
  }

  /** The blocks the regions around will go on in are made and not yet written; and following
      `loop` and then `outer`, from the block being written, comes to exactly the headers of the
      loops around it, innermost first. */
  ghost predicate Inv(f: Flattening) {
    && f.Valid() && 0 < f.current && 0 < f.body
    && f.blocks[f.current].loop == f.loop
    && LoopsAround(f.blocks, f.loop) == HeadersOf(f.frames)
    && (forall frame <- f.frames :: Waiting(f, frame))
  }

  ghost predicate Waiting(f: Flattening, frame: Frame)
    requires f.Valid() && frame.after < |f.blocks| && frame.top < |f.blocks|
  {
    && 0 < frame.after && frame.after != f.current
    && f.blocks[frame.after].insts == [] && !f.blocks[frame.after].header
    && f.blocks[frame.after].parameters == []
    && (frame.top != 0 ==> f.blocks[frame.top].header && f.blocks[frame.top].parameters == [])
  }

  /** From `f` to `g` only the block that was being written grows, and new ones are made. */
  ghost predicate Extends(f: Flattening, g: Flattening)
    requires f.Valid() && g.Valid()
  {
    && |f.blocks| <= |g.blocks|
    && (g.current == f.current || |f.blocks| <= g.current)
    && (forall b {:trigger g.blocks[b]} :: 0 <= b < |f.blocks| && b != f.current ==> g.blocks[b] == f.blocks[b])
    && f.blocks[f.current].insts <= g.blocks[f.current].insts
    && g.blocks[f.current] == f.blocks[f.current].(insts := g.blocks[f.current].insts)
    && (forall b {:trigger g.jumpsTo[b]} :: 0 <= b < |f.blocks| ==> f.jumpsTo[b] <= g.jumpsTo[b])
  }

  /** Every block of `blocks` is the start of the same block of `final`. */
  ghost predicate Grows(blocks: seq<BasicBlock>, final: seq<BasicBlock>) {
    && |blocks| <= |final|
    && (forall b {:trigger final[b]} :: 0 <= b < |blocks| ==> GrowsBlock(blocks[b], final[b]))
  }

  ghost predicate GrowsBlock(block: BasicBlock, final: BasicBlock) {
    && block.insts <= final.insts
    && final.parameters == block.parameters && final.header == block.header
    && final.bound == block.bound && final.outer == block.outer
    && (block.insts != [] ==> final.loop == block.loop)
  }

  lemma GrowsTransitive(first: seq<BasicBlock>, second: seq<BasicBlock>, third: seq<BasicBlock>)
    requires Grows(first, second) && Grows(second, third)
    ensures Grows(first, third)
  {
    forall b | 0 <= b < |first|
      ensures GrowsBlock(first[b], third[b])
    {
      assert GrowsBlock(first[b], second[b]) && GrowsBlock(second[b], third[b]);
    }
  }

  lemma ExtendsGrows(f: Flattening, g: Flattening)
    requires f.Valid() && g.Valid() && Extends(f, g)
    ensures Grows(f.blocks, g.blocks)
  {
  }

  lemma ExtendsTransitive(f: Flattening, g: Flattening, h: Flattening)
    requires f.Valid() && g.Valid() && h.Valid() && Extends(f, g) && Extends(g, h)
    ensures Extends(f, h)
  {
  }

  /** The loops around a block are read off links that never change. */
  lemma {:induction false} SameLoopsAround(blocks: seq<BasicBlock>, final: seq<BasicBlock>, loop: nat)
    requires Grows(blocks, final) && loop < |blocks|
    ensures LoopsAround(blocks, loop) == LoopsAround(final, loop)
    decreases loop
  {
    if loop != 0 {
      assert GrowsBlock(blocks[loop], final[loop]);
      if blocks[loop].outer < loop {
        SameLoopsAround(blocks, final, blocks[loop].outer);
      }
    }
  }

  lemma {:induction false} FlattenCodeKeeps(f: Flattening, code: Code)
    requires Inv(f) && WellScoped(code, AroundOf(f.frames))
    ensures Inv(FlattenCode(f, code)) && Extends(f, FlattenCode(f, code))
    decreases code, 2
  {
    if code != End {
      var g := FlattenHead(f, code);
      FlattenHeadKeeps(f, code);
      FlattenCodeKeeps(g, code.next);
      ExtendsTransitive(f, g, FlattenCode(g, code.next));
    }
  }

  lemma {:induction false} FlattenHeadKeeps(f: Flattening, code: Code)
    requires code != End && Inv(f) && WellScoped(code, AroundOf(f.frames))
    ensures Inv(FlattenHead(f, code)) && Extends(f, FlattenHead(f, code))
    decreases code, 1
  {
    hide Inv, Extends, AcrossBlock, AcrossIf, AcrossLoop;
    match code
    case Plain(inst, _) => CopiedKeeps(f, inst);
    case Block(_, _, _, _) => BlockKeeps(f, code);
    case If(_, _, _, _, _, _, _) => IfKeeps(f, code);
    case Loop(_, _, _, _, _) => LoopKeeps(f, code);
    case Break(region, at, _) => JumpedKeeps(f, FrameOf(f.frames, region), FrameOf(f.frames, region).after, at);
    case Continue(region, at, _) => JumpedKeeps(f, FrameOf(f.frames, region), FrameOf(f.frames, region).top, at);
  }

  lemma CopiedKeeps(f: Flattening, inst: Inst)
    requires Inv(f)
    ensures Inv(f.Copied(inst)) && Extends(f, f.Copied(inst))
  {
    hide Inv, Extends;
    assert f.Valid() by { IsValid(f); }
    AppendKeeps(f, f.Copied(inst));
  }

  lemma JumpedKeeps(f: Flattening, frame: Frame, target: nat, at: Position)
    requires Inv(f) && frame in f.frames && (target == frame.after || target == frame.top)
    ensures target < |f.blocks| && Inv(f.Jumped(target, at)) && Extends(f, f.Jumped(target, at))
  {
    hide Inv, Extends;
    IsValid(f);
    AppendKeeps(f, f.Jumped(target, at));
  }

  lemma IsValid(f: Flattening)
    requires Inv(f)
    ensures f.Valid()
  {
  }

  /** Writing one more instruction, and counting the jumps it makes. */
  lemma AppendKeeps(f: Flattening, g: Flattening)
    requires Inv(f) && g.Valid()
    requires |g.blocks| == |f.blocks| && g.current == f.current
    requires g.frames == f.frames && g.loop == f.loop && g.body == f.body
    requires exists inst :: g.blocks == f.Appended(inst).blocks
    requires forall b {:trigger g.jumpsTo[b]} :: 0 <= b < |f.blocks| ==> f.jumpsTo[b] <= g.jumpsTo[b]
    ensures Inv(g) && Extends(f, g)
  {
    var inst :| g.blocks == f.Appended(inst).blocks;
    SameLoopsAround(f.blocks, g.blocks, f.loop);
  }

  lemma {:induction false} BlockKeeps(f: Flattening, code: Code)
    requires code.Block? && Inv(f) && WellScoped(code, AroundOf(f.frames))
    ensures Inv(InBlock(f, code)) && Grows(InBlock(f, code).blocks, AcrossBlock(f, code).blocks)
    ensures Inv(AcrossBlock(f, code)) && Extends(f, AcrossBlock(f, code))
    decreases code, 0
  {
    AroundPush(f.frames, Frame(code.region, |f.blocks|, 0));
    var g := IntoBlock(f, code.region);
    IntoBlockKeeps(f, code.region);
    FlattenCodeKeeps(g, code.body);
    OutOfKeeps(f, g, InBlock(f, code), |f.blocks|, |f.blocks|, code.at);
  }

  lemma {:induction false} FirstSideKeeps(f: Flattening, code: Code)
    requires code.If? && Inv(f) && WellScoped(code, AroundOf(f.frames))
    ensures var g := IntoIf(f, code.region, code.condition, code.hasElse, code.at);
            && Inv(g) && Extends(f, g) && Inv(FirstSide(f, code)) && Extends(g, FirstSide(f, code))
    decreases code, 0, 0
  {
    AroundPush(f.frames, Frame(code.region, AfterIf(f, code.hasElse), 0));
    IntoIfKeeps(f, code.region, code.condition, code.hasElse, code.at);
    FlattenCodeKeeps(IntoIf(f, code.region, code.condition, code.hasElse, code.at), code.chosen);
  }

  lemma {:induction false} SecondSideKeeps(f: Flattening, code: Code)
    requires code.If? && code.hasElse && Inv(f) && WellScoped(code, AroundOf(f.frames))
    ensures Inv(SecondSide(f, code)) && Extends(f, SecondSide(f, code))
    ensures Grows(FirstSide(f, code).blocks, SecondSide(f, code).blocks)
    ensures SecondSide(f, code).blocks[AfterIf(f, true)] == BasicBlock([], [], false, NO_BOUND, f.loop, 0)
    decreases code, 0, 1
  {
    hide LoopsAround, HeadersOf, FlattenCode, WellScoped, Waiting, IntoIf, IntoElse;
    var g := IntoIf(f, code.region, code.condition, code.hasElse, code.at);
    FirstSideKeeps(f, code);
    IntoIfKeeps(f, code.region, code.condition, code.hasElse, code.at);
    IntoIfGoesTo(f, code);
    IntoElseKeeps(f, g, FirstSide(f, code), AfterIf(f, true), code.at);
    IntoElseMoves(FirstSide(f, code), |f.blocks| + 1, AfterIf(f, true), code.at);
  }

  lemma IntoIfGoesTo(f: Flattening, code: Code)
    requires code.If? && code.hasElse && Inv(f)
    ensures IntoIf(f, code.region, code.condition, true, code.at).current == |f.blocks|
  {
  }

  lemma {:induction false} IfKeeps(f: Flattening, code: Code)
    requires code.If? && Inv(f) && WellScoped(code, AroundOf(f.frames))
    ensures Inv(BothSides(f, code)) && Grows(BothSides(f, code).blocks, AcrossIf(f, code).blocks)
    ensures Inv(AcrossIf(f, code)) && Extends(f, AcrossIf(f, code))
    decreases code, 0, 2
  {
    var after := AfterIf(f, code.hasElse);
    var g := IntoIf(f, code.region, code.condition, code.hasElse, code.at);
    FirstSideKeeps(f, code);
    IntoIfKeeps(f, code.region, code.condition, code.hasElse, code.at);
    if code.hasElse {
      SecondSideKeeps(f, code);
      FlattenCodeKeeps(SecondSide(f, code), code.otherwise);
      OutOfKeeps(f, SecondSide(f, code), BothSides(f, code), after, after, code.at);
    } else {
      OutOfKeeps(f, g, FirstSide(f, code), after, after, code.at);
    }
  }

  lemma {:induction false} LoopKeeps(f: Flattening, code: Code)
    requires code.Loop? && Inv(f) && WellScoped(code, AroundOf(f.frames))
    ensures Inv(InLoop(f, code)) && Grows(InLoop(f, code).blocks, AcrossLoop(f, code).blocks)
    ensures Inv(AcrossLoop(f, code)) && Extends(f, AcrossLoop(f, code))
    decreases code, 0
  {
    hide LoopsAround, HeadersOf, FlattenCode, WellScoped, IntoLoop, OutOf, Waiting;
    IntoLoopAfter(f, code);
    var g, inner := IntoLoop(f, code.region, code.bound, code.at), InLoop(f, code);
    IntoLoopKeeps(f, code.region, code.bound, code.at);
    FlattenCodeKeeps(g, code.body);
    OutOfKeeps(f, g, inner, |f.blocks|, |f.blocks| + 1, code.at);
  }

  lemma IntoLoopAfter(f: Flattening, code: Code)
    requires code.Loop? && Inv(f)
    ensures var g := IntoLoop(f, code.region, code.bound, code.at);
            g.current == |f.blocks| && g.blocks[|f.blocks| + 1] == BasicBlock([], [], false, NO_BOUND, f.loop, 0)
  {
  }

  lemma IntoBlockKeeps(f: Flattening, region: nat)
    requires Inv(f)
    ensures Inv(IntoBlock(f, region)) && Extends(f, IntoBlock(f, region))
  {
    HeadersPush(f.frames, Frame(region, |f.blocks|, 0));
    SameLoopsAround(f.blocks, IntoBlock(f, region).blocks, f.loop);
  }

  lemma IntoIfKeeps(f: Flattening, region: nat, condition: nat, hasElse: bool, at: Position)
    requires Inv(f)
    ensures Inv(IntoIf(f, region, condition, hasElse, at)) && Extends(f, IntoIf(f, region, condition, hasElse, at))
    ensures var g := IntoIf(f, region, condition, hasElse, at);
            forall b :: |f.blocks| < b < |g.blocks| ==> g.blocks[b] == BasicBlock([], [], false, NO_BOUND, f.loop, 0)
  {
    hide HeadersOf, LoopsAround;
    var g := IntoIf(f, region, condition, hasElse, at);
    IntoIfWrites(f, region, condition, hasElse, at);
    hide IntoIf;
    HeadersPush(f.frames, Frame(region, AfterIf(f, hasElse), 0));
    OpenedKeeps(f, g, Frame(region, AfterIf(f, hasElse), 0));
  }

  /** A region's frame is pushed: its blocks are new, and what was there is as it was. */
  lemma OpenedKeeps(f: Flattening, g: Flattening, frame: Frame)
    requires Inv(f) && g.Valid() && Extends(f, g) && g.frames == f.frames + [frame]
    requires |f.blocks| <= g.current && 0 < g.body && Waiting(g, frame)
    requires g.blocks[g.current].loop == g.loop && LoopsAround(g.blocks, g.loop) == HeadersOf(g.frames)
    ensures Inv(g)
  {
    hide LoopsAround, HeadersOf;
    forall other <- g.frames
      ensures Waiting(g, other)
    {
      if other in f.frames {
        assert Waiting(f, other);
      }
    }
  }

  lemma IntoIfWrites(f: Flattening, region: nat, condition: nat, hasElse: bool, at: Position)
    requires Inv(f)
    ensures var g := IntoIf(f, region, condition, hasElse, at);
            && Extends(f, g) && g.current == |f.blocks| && g.blocks[g.current].loop == g.loop
            && Waiting(g, Frame(region, AfterIf(f, hasElse), 0))
            && LoopsAround(g.blocks, g.loop) == LoopsAround(f.blocks, f.loop)
            && forall b :: |f.blocks| < b < |g.blocks| ==> g.blocks[b] == BasicBlock([], [], false, NO_BOUND, f.loop, 0)
  {
    hide HeadersOf, LoopsAround;
    SameLoopsAround(f.blocks, IntoIf(f, region, condition, hasElse, at).blocks, f.loop);
  }

  lemma IntoLoopKeeps(f: Flattening, region: nat, bound: U32, at: Position)
    requires Inv(f)
    ensures Inv(IntoLoop(f, region, bound, at)) && Extends(f, IntoLoop(f, region, bound, at))
  {
    hide HeadersOf, LoopsAround;
    var g := IntoLoop(f, region, bound, at);
    IntoLoopWrites(f, region, bound, at);
    hide IntoLoop;
    HeadersPush(f.frames, Frame(region, |f.blocks| + 1, |f.blocks|));
    OpenedKeeps(f, g, Frame(region, |f.blocks| + 1, |f.blocks|));
  }

  lemma IntoLoopWrites(f: Flattening, region: nat, bound: U32, at: Position)
    requires Inv(f)
    ensures var g := IntoLoop(f, region, bound, at);
            && Extends(f, g) && g.current == |f.blocks| && g.blocks[g.current].loop == g.loop
            && Waiting(g, Frame(region, |f.blocks| + 1, |f.blocks|))
            && LoopsAround(g.blocks, g.loop) == [|f.blocks|] + LoopsAround(f.blocks, f.loop)
  {
    hide HeadersOf, LoopsAround;
    var g := IntoLoop(f, region, bound, at);
    SameLoopsAround(f.blocks, g.blocks, f.loop);
    LoopsThrough(g.blocks, |f.blocks|, f.loop);
  }

  lemma LoopsThrough(blocks: seq<BasicBlock>, loop: nat, outer: nat)
    requires 0 < loop < |blocks| && blocks[loop].outer == outer && outer < loop
    ensures LoopsAround(blocks, loop) == [loop] + LoopsAround(blocks, outer)
  {
  }

  /** From `g` to `h` a jump may be written, and `after`, which was empty, is placed. */
  ghost predicate Moves(g: Flattening, h: Flattening, after: nat)
    requires g.Valid() && h.Valid() && after < |g.blocks|
  {
    && |h.blocks| == |g.blocks| && h.current == after && h.body == g.body
    && (forall b {:trigger h.blocks[b]} :: 0 <= b < |g.blocks| && b != g.current && b != after ==> h.blocks[b] == g.blocks[b])
    && g.blocks[g.current].insts <= h.blocks[g.current].insts
    && h.blocks[g.current] == g.blocks[g.current].(insts := h.blocks[g.current].insts)
    && h.blocks[after] == g.blocks[after].(loop := h.loop)
    && (forall b {:trigger h.jumpsTo[b]} :: 0 <= b < |g.blocks| ==> g.jumpsTo[b] <= h.jumpsTo[b])
  }

  lemma JoinedMoves(g: Flattening, target: nat, at: Position)
    requires g.Valid() && target < |g.blocks|
    ensures var j := g.Joined(target, at);
            && j.(blocks := g.blocks, jumpsTo := g.jumpsTo) == g
            && (exists inst :: j.blocks == g.Appended(inst).blocks || j.blocks == g.blocks)
            && (forall b {:trigger j.jumpsTo[b]} :: 0 <= b < |g.blocks| ==> g.jumpsTo[b] <= j.jumpsTo[b])
  {
    assert g.Joined(target, at).blocks in {g.blocks, g.Appended(Br(target, [], at)).blocks};
  }

  lemma OutOfMoves(g: Flattening, target: nat, after: nat, loop: nat, at: Position)
    requires g.Valid() && g.frames != [] && target < |g.blocks| && after < |g.blocks| && loop < |g.blocks|
    requires after != g.current && !g.blocks[after].header
    ensures Moves(g, OutOf(g, target, after, loop, at), after)
  {
    JoinedMoves(g, target, at);
  }

  lemma IntoElseMoves(g: Flattening, otherwise: nat, after: nat, at: Position)
    requires g.Valid() && otherwise < |g.blocks| && after < |g.blocks|
    requires otherwise != g.current && !g.blocks[otherwise].header
    ensures Moves(g, IntoElse(g, otherwise, after, at), otherwise)
  {
    JoinedMoves(g, after, at);
  }

  /** Moving to a block made since `f`, within the loops `f` was in. */
  lemma MovesKeeps(f: Flattening, inner: Flattening, h: Flattening, after: nat)
    requires Inv(f) && inner.Valid() && h.Valid() && Extends(f, inner)
    requires 0 < inner.body && |f.blocks| <= after < |inner.blocks| && after != inner.current
    requires Moves(inner, h, after)
    requires inner.blocks[after].insts == [] && h.loop < |inner.blocks|
    ensures Extends(f, h) && Grows(inner.blocks, h.blocks) && Grows(f.blocks, h.blocks)
    ensures h.loop == f.loop && h.frames == f.frames ==> Inv(h)
  {
    assert Grows(inner.blocks, h.blocks);
    ExtendsGrows(f, inner);
    GrowsTransitive(f.blocks, inner.blocks, h.blocks);
    SameLoopsAround(f.blocks, h.blocks, f.loop);
  }

  /** To an `else`: its block is one made when the `if` was met, and still empty. */
  lemma IntoElseKeeps(f: Flattening, g: Flattening, first: Flattening, after: nat, at: Position)
    requires Inv(f) && Inv(g) && Inv(first) && Extends(f, g) && Extends(g, first)
    requires first.frames == g.frames && first.loop == g.loop == f.loop && first.body == g.body == f.body
    requires |f.blocks| + 2 < |g.blocks| && g.current == |f.blocks| && after < |g.blocks|
    requires g.blocks[|f.blocks| + 1] == BasicBlock([], [], false, NO_BOUND, f.loop, 0)
    requires forall frame <- g.frames :: frame.after != |f.blocks| + 1
    ensures Inv(IntoElse(first, |f.blocks| + 1, after, at))
    ensures Extends(f, IntoElse(first, |f.blocks| + 1, after, at))
    ensures Grows(first.blocks, IntoElse(first, |f.blocks| + 1, after, at).blocks)
  {
    var otherwise := |f.blocks| + 1;
    var h := IntoElse(first, otherwise, after, at);
    ExtendsTransitive(f, g, first);
    IntoElseMoves(first, otherwise, after, at);
    MovesKeeps(f, first, h, otherwise);
    StillWaiting(first, h, otherwise);
  }

  lemma StillWaiting(first: Flattening, h: Flattening, otherwise: nat)
    requires Inv(first) && h.Valid() && otherwise < |first.blocks| && Moves(first, h, otherwise)
    requires Grows(first.blocks, h.blocks) && h.frames == first.frames && h.loop == first.loop
    requires 0 < otherwise && !first.blocks[otherwise].header
    requires forall frame <- first.frames :: frame.after != otherwise
    ensures Inv(h)
  {
    SameLoopsAround(first.blocks, h.blocks, first.loop);
  }

  /** Out of a region whose body was walked from `g` to `inner`. */
  lemma OutOfKeeps(f: Flattening, g: Flattening, inner: Flattening, target: nat, after: nat, at: Position)
    requires Inv(f) && Inv(g) && Inv(inner) && Extends(f, g) && Extends(g, inner)
    requires inner.frames == g.frames && inner.body == g.body == f.body
    requires |f.blocks| <= after < |g.blocks| && target < |g.blocks| && after != g.current
    requires |g.frames| == |f.frames| + 1 && g.frames[..|f.frames|] == f.frames
    requires g.blocks[after].insts == [] && !g.blocks[after].header
    ensures Inv(OutOf(inner, target, after, f.loop, at)) && Extends(f, OutOf(inner, target, after, f.loop, at))
    ensures Grows(inner.blocks, OutOf(inner, target, after, f.loop, at).blocks)
  {
    ExtendsTransitive(f, g, inner);
    OutOfMoves(inner, target, after, f.loop, at);
    MovesKeeps(f, inner, OutOf(inner, target, after, f.loop, at), after);
  }
}
