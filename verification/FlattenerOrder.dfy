/** Where the flattener's blocks end up: every block is in the order, or was dropped with nothing
    in it and no jump to it, and every block in the order ends in its only terminator. */
module FlattenerOrder {
  import opened Ir
  import opened Flattener

  /** `pending` are the blocks made and not yet placed. */
  ghost predicate Orderly(f: Flattening, pending: set<nat>) {
    && f.Valid() && |f.order| > 0 && f.order[0] == f.body == 1
    && f.order[|f.order| - 1] == f.current && f.blocks[0].insts == [] && NoRepeats(f.order)
    && (forall i {:trigger f.order[i]} :: 0 < i < |f.order| ==> 1 < f.order[i] < |f.blocks|)
    && (forall b <- pending :: 1 < b < |f.blocks|)
    && (forall b {:trigger f.blocks[b]} :: 1 <= b < |f.blocks| ==> Accounted(f, pending, b))
    && (forall frame <- f.frames :: frame.after in pending && (frame.top != 0 ==> 0 < f.jumpsTo[frame.top]))
    && (forall b {:trigger f.blocks[b]} :: 0 <= b < |f.blocks| ==> OneTerminator(f.blocks[b].insts))
    && (forall b <- f.order :: b != f.current ==> Terminated(f.blocks[b].insts))
  }

  ghost predicate Accounted(f: Flattening, pending: set<nat>, b: nat)
    requires f.Valid() && b < |f.blocks|
  {
    if b in pending then f.blocks[b].insts == [] && b !in f.order
    else b in f.order || (f.blocks[b].insts == [] && f.jumpsTo[b] == 0)
  }

  /** Nothing follows a terminator. */
  predicate OneTerminator(insts: seq<Inst>) {
    forall i {:trigger insts[i]} :: 0 <= i < |insts| - 1 ==> !IsTerminator(insts[i])
  }

  predicate Terminated(insts: seq<Inst>) {
    insts != [] && IsTerminator(insts[|insts| - 1])
  }

  lemma CurrentInOrder(f: Flattening, pending: set<nat>)
    requires Orderly(f, pending)
    ensures f.current in f.order && 0 < f.current && f.current !in pending && 1 in f.order
    ensures |f.order| == 1 <==> f.current == 1
  {
    assert f.order[0] in f.order && f.order[|f.order| - 1] in f.order;
    assert Accounted(f, pending, f.current);
  }

  lemma MadeOrderly(f: Flattening, pending: set<nat>)
    requires Orderly(f, pending)
    ensures Orderly(f.Made(), pending + {|f.blocks|})
  {
    var g := f.Made();
    forall b | 1 <= b < |g.blocks|
      ensures Accounted(g, pending + {|f.blocks|}, b)
    {
      assert b < |f.blocks| ==> Accounted(f, pending, b);
    }
  }

  /** Writing an instruction, after which only jumps to blocks still waiting are more. */
  lemma AppendedOrderly(f: Flattening, pending: set<nat>, inst: Inst, g: Flattening)
    requires Orderly(f, pending) && !f.Ended() && g.Valid()
    requires g.blocks == f.Appended(inst).blocks && g.order == f.order && g.current == f.current && g.body == f.body
    requires g.frames == f.frames
    requires forall b {:trigger g.jumpsTo[b]} :: 0 <= b < |f.blocks| ==>
               f.jumpsTo[b] <= g.jumpsTo[b] && (g.jumpsTo[b] == f.jumpsTo[b] || b in pending || b in f.order)
    ensures Orderly(g, pending)
  {
    CurrentInOrder(f, pending);
    AppendOne(f.blocks[f.current].insts, inst);
    forall b | 1 <= b < |g.blocks|
      ensures Accounted(g, pending, b)
    {
      assert Accounted(f, pending, b);
    }
  }

  lemma AppendOne(insts: seq<Inst>, inst: Inst)
    requires OneTerminator(insts) && !Terminated(insts)
    ensures OneTerminator(insts + [inst])
  {
    forall i | 0 <= i < |insts|
      ensures !IsTerminator((insts + [inst])[i])
    {
      assert (insts + [inst])[i] == insts[i];
    }
  }

  lemma JumpedOrderly(f: Flattening, pending: set<nat>, target: nat, at: Position)
    requires Orderly(f, pending) && !f.Ended() && 0 < target < |f.blocks|
    requires target in pending || 0 < f.jumpsTo[target]
    ensures Orderly(f.Jumped(target, at), pending) && f.Jumped(target, at).Ended() && 0 < f.Jumped(target, at).jumpsTo[target]
  {
    assert Accounted(f, pending, target);
    AppendedOrderly(f, pending, Br(target, [], at), f.Jumped(target, at));
  }

  lemma BranchedOrderly(f: Flattening, pending: set<nat>, condition: nat, chosen: nat, otherwise: nat, at: Position)
    requires Orderly(f, pending) && !f.Ended() && chosen in pending && otherwise in pending
    ensures Orderly(f.Branched(condition, chosen, otherwise, at), pending) && f.Branched(condition, chosen, otherwise, at).Ended()
  {
    AppendedOrderly(f, pending, CondBr(condition, chosen, otherwise, at), f.Branched(condition, chosen, otherwise, at));
  }

  /** A block is placed when the one before it is ended, or is dead and dropped. */
  lemma PlacedOrderly(f: Flattening, pending: set<nat>, block: nat)
    requires Orderly(f, pending) && !f.Falls() && block in pending
    requires forall frame <- f.frames :: frame.after != block
    ensures Orderly(f.Placed(block), pending - {block})
    ensures f.Placed(block).blocks[block].insts == []
  {
    var g, closed := f.Placed(block), f.Closed();
    ClosedOrder(f, pending);
    assert Accounted(f, pending, block);
    assert g.order == closed.order + [block];
    assert forall b :: b in g.order <==> b in closed.order || b == block;
    assert block !in closed.order;
    assert g.jumpsTo == f.jumpsTo;
    assert forall b {:trigger g.blocks[b]} :: 0 <= b < |g.blocks| ==> g.blocks[b].insts == f.blocks[b].insts;
    forall b | 1 <= b < |g.blocks|
      ensures Accounted(g, pending - {block}, b)
    {
      assert Accounted(f, pending, b);
    }
  }

  /** The block that was being written leaves the order when it is dead, and no other does. */
  lemma ClosedOrder(f: Flattening, pending: set<nat>)
    requires Orderly(f, pending) && !f.Falls()
    ensures var order := f.Closed().order;
            && order != [] && order[0] == 1 && NoRepeats(order)
            && (forall i {:trigger order[i]} :: 0 < i < |order| ==> 1 < order[i] < |f.blocks|)
            && (forall b <- order :: b in f.order && Terminated(f.blocks[b].insts))
            && (forall b <- f.order :: b in order || (f.blocks[b].insts == [] && f.jumpsTo[b] == 0))
  {
    var order := f.Closed().order;
    CurrentInOrder(f, pending);
    if |order| < |f.order| {
      assert f.order == order + [f.current];
      DroppedOnce(f, pending);
    }
  }

  /** A block is in the order once, so it can leave it. */
  lemma DroppedOnce(f: Flattening, pending: set<nat>)
    requires Orderly(f, pending) && |f.order| > 1
    ensures f.current !in f.order[..|f.order| - 1]
  {
  }

  predicate NoRepeats(order: seq<nat>) {
    forall i, j {:trigger order[i], order[j]} :: 0 <= i < j < |order| ==> order[i] != order[j]
  }

  /** In a block nothing follows a terminator: the verifier's rule, in either form. */
  predicate NothingFollows(code: Code) {
    match code
    case End => true
    case Plain(inst, next) => (IsTerminator(inst) ==> next == End) && NothingFollows(next)
    case Block(_, body, _, next) => NothingFollows(body) && NothingFollows(next)
    case If(_, _, chosen, hasElse, otherwise, _, next) =>
      NothingFollows(chosen) && (hasElse ==> NothingFollows(otherwise)) && NothingFollows(next)
    case Loop(_, _, body, _, next) => NothingFollows(body) && NothingFollows(next)
    case Break(_, _, next) => next == End
    case Continue(_, _, next) => next == End
  }

  /** The end of a list: its block is ended, or dead. */
  lemma JoinedOrderly(f: Flattening, pending: set<nat>, target: nat, at: Position)
    requires Orderly(f, pending) && 0 < target < |f.blocks|
    requires target in pending || 0 < f.jumpsTo[target]
    ensures Orderly(f.Joined(target, at), pending) && !f.Joined(target, at).Falls()
  {
    if f.Falls() {
      JumpedOrderly(f, pending, target, at);
    }
  }

  lemma OutOfOrderly(g: Flattening, pending: set<nat>, target: nat, after: nat, loop: nat, at: Position)
    requires Orderly(g, pending) && g.frames != [] && loop < |g.blocks| && after in pending && 0 < target < |g.blocks|
    requires target in pending || 0 < g.jumpsTo[target]
    requires forall frame <- g.frames[..|g.frames| - 1] :: frame.after != after
    ensures Orderly(OutOf(g, target, after, loop, at), pending - {after})
    ensures OutOf(g, target, after, loop, at).blocks[after].insts == []
  {
    JoinedOrderly(g, pending, target, at);
    var j := g.Joined(target, at).Looping(loop).Popped();
    assert Orderly(j, pending) by {
      forall b | 1 <= b < |j.blocks|
        ensures Accounted(j, pending, b)
      {
        assert Accounted(g.Joined(target, at), pending, b);
      }
    }
    PlacedOrderly(j, pending, after);
  }

  lemma IntoBlockOrderly(f: Flattening, pending: set<nat>, region: nat)
    requires Orderly(f, pending)
    ensures Orderly(IntoBlock(f, region), pending + {|f.blocks|})
    ensures !f.Ended() ==> !IntoBlock(f, region).Ended()
  {
    MadeOrderly(f, pending);
    OpenedOrderly(f.Made(), pending + {|f.blocks|}, Frame(region, |f.blocks|, 0));
  }

  lemma OpenedOrderly(f: Flattening, pending: set<nat>, frame: Frame)
    requires Orderly(f, pending) && frame.after in pending && frame.top < |f.blocks|
    requires frame.top != 0 ==> 0 < f.jumpsTo[frame.top]
    ensures Orderly(f.Opened(frame), pending)
  {
    forall b | 1 <= b < |f.blocks|
      ensures Accounted(f.Opened(frame), pending, b)
    {
      assert Accounted(f, pending, b);
    }
  }

  lemma IntoIfOrderly(f: Flattening, pending: set<nat>, region: nat, condition: nat, hasElse: bool, at: Position)
    requires Orderly(f, pending) && !f.Ended()
    ensures var more := if hasElse then {|f.blocks| + 1, |f.blocks| + 2} else {|f.blocks| + 1};
            Orderly(IntoIf(f, region, condition, hasElse, at), pending + more)
    ensures !IntoIf(f, region, condition, hasElse, at).Ended()
  {
    hide Accounted, OneTerminator, NoRepeats, Terminated;
    var n := |f.blocks|;
    var after := AfterIf(f, hasElse);
    MadeOrderly(f, pending);
    MadeOrderly(f.Made(), pending + {n});
    var made, all := f.Made().Made(), pending + {n} + {n + 1};
    if hasElse {
      MadeOrderly(made, all);
      made, all := made.Made(), all + {n + 2};
    }
    BranchIntoOrderly(made, all, condition, n, n + 1, Frame(region, after, 0), at);
    assert all - {n} == pending + if hasElse then {n + 1, n + 2} else {n + 1};
  }

  lemma BranchIntoOrderly(f: Flattening, pending: set<nat>, condition: nat, chosen: nat, otherwise: nat, frame: Frame, at: Position)
    requires Orderly(f, pending) && !f.Ended() && chosen in pending && otherwise in pending
    requires frame.after in pending && frame.after != chosen && frame.top == 0
    requires forall other <- f.frames :: other.after != chosen
    ensures var g := f.Branched(condition, chosen, otherwise, at).Opened(frame).Placed(chosen);
            Orderly(g, pending - {chosen}) && !g.Ended()
  {
    BranchedOrderly(f, pending, condition, chosen, otherwise, at);
    var branched := f.Branched(condition, chosen, otherwise, at);
    OpenedOrderly(branched, pending, frame);
    PlacedOrderly(branched.Opened(frame), pending, chosen);
  }

  /** Fields the order does not look at. */
  lemma RelabelledOrderly(f: Flattening, pending: set<nat>, g: Flattening)
    requires Orderly(f, pending) && g.Valid() && |g.blocks| == |f.blocks|
    requires g.order == f.order && g.current == f.current && g.body == f.body && g.frames == f.frames && g.jumpsTo == f.jumpsTo
    requires forall b {:trigger g.blocks[b]} :: 0 <= b < |f.blocks| ==> g.blocks[b].insts == f.blocks[b].insts
    ensures Orderly(g, pending) && g.Ended() == f.Ended()
  {
    forall b | 1 <= b < |g.blocks|
      ensures Accounted(g, pending, b)
    {
      assert Accounted(f, pending, b);
    }
  }

  lemma IntoLoopOrderly(f: Flattening, pending: set<nat>, region: nat, bound: U32, at: Position)
    requires Orderly(f, pending) && !f.Ended()
    ensures Orderly(IntoLoop(f, region, bound, at), pending + {|f.blocks| + 1})
    ensures !IntoLoop(f, region, bound, at).Ended() && 0 < IntoLoop(f, region, bound, at).jumpsTo[|f.blocks|]
  {
    hide Accounted, OneTerminator, NoRepeats, Terminated, Flattening.Opened, Flattening.Looping, Flattening.Placed;
    var top := |f.blocks|;
    var all := pending + {top} + {top + 1};
    MadeOrderly(f, pending);
    MadeOrderly(f.Made(), pending + {top});
    HeadedOrderly(f.Made().Made(), all, top, bound, Frame(region, top + 1, top), at);
    assert all - {top} == pending + {top + 1};
  }

  lemma HeadedOrderly(f: Flattening, pending: set<nat>, top: nat, bound: U32, frame: Frame, at: Position)
    requires Orderly(f, pending) && !f.Ended() && top in pending && frame.after in pending && frame.after != top == frame.top
    requires forall other <- f.frames :: other.after != top
    ensures var g := f.Headed(top, bound).Jumped(top, at).Opened(frame).Looping(top).Placed(top);
            Orderly(g, pending - {top}) && !g.Ended() && 0 < g.jumpsTo[top]
  {
    var headed := f.Headed(top, bound);
    RelabelledOrderly(f, pending, headed);
    JumpedOrderly(headed, pending, top, at);
    IntoBodyOrderly(headed.Jumped(top, at), pending, frame);
  }

  lemma IntoBodyOrderly(f: Flattening, pending: set<nat>, frame: Frame)
    requires Orderly(f, pending) && f.Ended() && frame.after in pending && frame.top in pending
    requires frame.after != frame.top && 0 < f.jumpsTo[frame.top]
    requires forall other <- f.frames :: other.after != frame.top
    ensures var g := f.Opened(frame).Looping(frame.top).Placed(frame.top);
            Orderly(g, pending - {frame.top}) && !g.Ended()
  {
    OpenedOrderly(f, pending, frame);
    var entered := f.Opened(frame).Looping(frame.top);
    RelabelledOrderly(f.Opened(frame), pending, entered);
    PlacedOrderly(entered, pending, frame.top);
  }

  lemma IntoElseOrderly(g: Flattening, pending: set<nat>, otherwise: nat, after: nat, at: Position)
    requires Orderly(g, pending) && otherwise in pending && after in pending && otherwise != after
    requires forall frame <- g.frames :: frame.after != otherwise
    ensures Orderly(IntoElse(g, otherwise, after, at), pending - {otherwise}) && !IntoElse(g, otherwise, after, at).Ended()
  {
    JoinedOrderly(g, pending, after, at);
    PlacedOrderly(g.Joined(after, at), pending, otherwise);
  }

  lemma {:induction false} FlattenCodeOrderly(f: Flattening, pending: set<nat>, code: Code)
    requires Orderly(f, pending) && WellScoped(code, AroundOf(f.frames)) && NothingFollows(code)
    requires code != End ==> !f.Ended()
    ensures Orderly(FlattenCode(f, code), pending)
    decreases code, 2
  {
    if code != End {
      FlattenHeadOrderly(f, pending, code);
      FlattenCodeOrderly(FlattenHead(f, code), pending, code.next);
    }
  }

  lemma {:induction false} FlattenHeadOrderly(f: Flattening, pending: set<nat>, code: Code)
    requires code != End && Orderly(f, pending) && WellScoped(code, AroundOf(f.frames)) && NothingFollows(code)
    requires !f.Ended()
    ensures Orderly(FlattenHead(f, code), pending)
    ensures code.next != End ==> !FlattenHead(f, code).Ended()
    decreases code, 1
  {
    hide OneTerminator, NoRepeats, Terminated, AcrossBlock, AcrossIf, AcrossLoop;
    match code
    case Plain(inst, _) => AppendedOrderly(f, pending, inst, f.Copied(inst));
    case Block(_, _, _, _) => BlockOrderly(f, pending, code);
    case If(_, _, _, _, _, _, _) => IfOrderly(f, pending, code);
    case Loop(_, _, _, _, _) => LoopOrderly(f, pending, code);
    case Break(region, at, _) => JumpedOrderly(f, pending, FrameOf(f.frames, region).after, at);
    case Continue(region, at, _) => JumpedOrderly(f, pending, FrameOf(f.frames, region).top, at);
  }

  lemma {:induction false} BlockOrderly(f: Flattening, pending: set<nat>, code: Code)
    requires code.Block? && Orderly(f, pending) && WellScoped(code, AroundOf(f.frames)) && NothingFollows(code) && !f.Ended()
    ensures Orderly(AcrossBlock(f, code), pending) && !AcrossBlock(f, code).Ended()
    decreases code, 0
  {
    hide Accounted, OneTerminator, NoRepeats, Terminated, FlattenCode;
    var after := |f.blocks|;
    IntoBlockOrderly(f, pending, code.region);
    AroundPush(f.frames, Frame(code.region, after, 0));
    FlattenCodeOrderly(IntoBlock(f, code.region), pending + {after}, code.body);
    assert InBlock(f, code).frames[..|f.frames|] == f.frames;
    OutOfOrderly(InBlock(f, code), pending + {after}, after, after, f.loop, code.at);
    assert pending + {after} - {after} == pending;
  }

  lemma {:induction false} IfOrderly(f: Flattening, pending: set<nat>, code: Code)
    requires code.If? && Orderly(f, pending) && WellScoped(code, AroundOf(f.frames)) && NothingFollows(code) && !f.Ended()
    ensures Orderly(AcrossIf(f, code), pending) && !AcrossIf(f, code).Ended()
    decreases code, 0, 2
  {
    hide Accounted, OneTerminator, NoRepeats, IntoIf, FlattenCode, WellScoped, NothingFollows;
    var after := AfterIf(f, code.hasElse);
    SidesOrderly(f, pending, code);
    var sides := BothSides(f, code);
    assert sides.frames[..|f.frames|] == f.frames;
    OutOfOrderly(sides, pending + {after}, after, after, f.loop, code.at);
    assert pending + {after} - {after} == pending;
  }

  lemma {:induction false} SidesOrderly(f: Flattening, pending: set<nat>, code: Code)
    requires code.If? && Orderly(f, pending) && WellScoped(code, AroundOf(f.frames)) && NothingFollows(code) && !f.Ended()
    ensures Orderly(BothSides(f, code), pending + {AfterIf(f, code.hasElse)})
    decreases code, 0, 1
  {
    hide Accounted, OneTerminator, NoRepeats, Terminated, IntoElse, FlattenCode, IntoIf;
    var n, after := |f.blocks|, AfterIf(f, code.hasElse);
    FirstSideOrderly(f, pending, code);
    if code.hasElse {
      var all := pending + {n + 1, n + 2};
      assert SecondSide(f, code) == IntoElse(FirstSide(f, code), n + 1, after, code.at);
      IntoElseOrderly(FirstSide(f, code), all, n + 1, after, code.at);
      assert all - {n + 1} == pending + {after};
      FlattenCodeOrderly(SecondSide(f, code), pending + {after}, code.otherwise);
    }
  }

  lemma {:induction false} FirstSideOrderly(f: Flattening, pending: set<nat>, code: Code)
    requires code.If? && Orderly(f, pending) && WellScoped(code, AroundOf(f.frames)) && NothingFollows(code) && !f.Ended()
    ensures Orderly(FirstSide(f, code), pending + if code.hasElse then {|f.blocks| + 1, |f.blocks| + 2} else {|f.blocks| + 1})
    decreases code, 0, 0
  {
    hide Accounted, OneTerminator, NoRepeats, Terminated, IntoIf;
    IntoIfOrderly(f, pending, code.region, code.condition, code.hasElse, code.at);
    AroundPush(f.frames, Frame(code.region, AfterIf(f, code.hasElse), 0));
    FlattenCodeOrderly(IntoIf(f, code.region, code.condition, code.hasElse, code.at),
                       pending + if code.hasElse then {|f.blocks| + 1, |f.blocks| + 2} else {|f.blocks| + 1}, code.chosen);
  }

  lemma {:induction false} LoopOrderly(f: Flattening, pending: set<nat>, code: Code)
    requires code.Loop? && Orderly(f, pending) && WellScoped(code, AroundOf(f.frames)) && NothingFollows(code) && !f.Ended()
    ensures Orderly(AcrossLoop(f, code), pending) && !AcrossLoop(f, code).Ended()
    decreases code, 0
  {
    hide Accounted, OneTerminator, NoRepeats, Terminated, IntoLoop, FlattenCode, OutOf;
    var top, after := |f.blocks|, |f.blocks| + 1;
    var f1 := IntoLoop(f, code.region, code.bound, code.at);
    IntoLoopOrderly(f, pending, code.region, code.bound, code.at);
    AroundPush(f.frames, Frame(code.region, after, top));
    FlattenCodeOrderly(f1, pending + {after}, code.body);
    LastFrame(InLoop(f, code).frames, f.frames, Frame(code.region, after, top));
    OutOfOrderly(InLoop(f, code), pending + {after}, top, after, f.loop, code.at);
    assert pending + {after} - {after} == pending;
  }

  lemma LastFrame(inside: seq<Frame>, frames: seq<Frame>, frame: Frame)
    requires inside == frames + [frame]
    ensures frame in inside && inside[..|frames|] == frames
  {
  }

  /** When the body has been walked no block is waiting. */
  lemma WalkedOrderly(function_: Structured)
    requires Flattenable(function_) && NothingFollows(function_.body)
    ensures Orderly(Walked(function_), {})
  {
    var f := Begun(function_.parameters);
    assert AroundOf([]) == [];
    assert Accounted(f, {}, 1);
    FlattenCodeOrderly(f, {}, function_.body);
  }
}
