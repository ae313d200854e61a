/** What flattening a verified function gives.

    `FlattenIsAccepted`: the verifier accepts the CFG of a function it accepted if and only if the
    function's body cannot fall off its end, which is read off the structured form (`FallsOff`).
    With the soundness of acceptance, `VerifiedFunctionsRunSafely` follows.
  */
module FlattenerVerified {
  import opened Ir
  import opened Interpreter
  import opened Flattener
  import opened FlattenerInvariant
  import opened FlattenerOrder
  import opened FlattenerScope
  import opened Verifier
  import opened VerifierSoundness

  /** Whether a `break` of this region is written in the list, in no region of the same number
      inside it. */
  predicate Breaks(code: Code, region: nat) {
    match code
    case End => false
    case Plain(_, next) => Breaks(next, region)
    case Block(own, body, _, next) => (own != region && Breaks(body, region)) || Breaks(next, region)
    case If(own, _, chosen, hasElse, otherwise, _, next) =>
      || (own != region && (Breaks(chosen, region) || (hasElse && Breaks(otherwise, region))))
      || Breaks(next, region)
    case Loop(own, _, body, _, next) => (own != region && Breaks(body, region)) || Breaks(next, region)
    case Break(own, _, next) => own == region || Breaks(next, region)
    case Continue(_, _, next) => Breaks(next, region)
  }

  /** Whether the end of a list can be come to, when its start can if `live`: a `block` is gone on
      from when its body is or a `break` of it is written, an `if` also when it has no `else`, and
      a loop only by its `break`. */
  predicate FallsOff(code: Code, live: bool)
    decreases code, 1
  {
    if code == End then live else FallsOff(code.next, FallsOffHead(code, live))
  }

  predicate FallsOffHead(code: Code, live: bool)
    requires code != End
    decreases code, 0
  {
    match code
    case Plain(inst, _) => !IsTerminator(inst)
    case Block(region, body, _, _) => FallsOff(body, live) || Breaks(body, region)
    case If(region, _, chosen, hasElse, otherwise, _, _) =>
      || !hasElse || FallsOff(chosen, true) || FallsOff(otherwise, true)
      || Breaks(chosen, region) || Breaks(otherwise, region)
    case Loop(region, _, body, _, _) => Breaks(body, region)
    case Break(_, _, _) => false
    case Continue(_, _, _) => false
  }

  /** `target` is where a `break` of `region` goes, if `live`, and no other jump written now. */
  ghost predicate GoesTo(frames: seq<Frame>, target: nat, region: nat, live: bool) {
    forall own :: Encloses(AroundOf(frames), own) ==>
      && (FrameOf(frames, own).after == target <==> live && own == region)
      && FrameOf(frames, own).top != target
  }

  lemma GoesToInside(frames: seq<Frame>, target: nat, region: nat, live: bool, frame: Frame)
    requires GoesTo(frames, target, region, live) && frame.after != target && frame.top != target
    ensures GoesTo(frames + [frame], target, region, live && frame.region != region)
  {
    var inside := frames + [frame];
    assert inside[..|frames|] == frames;
    forall own | Encloses(AroundOf(inside), own)
      ensures FrameOf(inside, own).after == target <==> live && frame.region != region && own == region
      ensures FrameOf(inside, own).top != target
    {
      if own != frame.region {
        StepOut(inside, own);
      }
    }
  }

  /** The frame just pushed is the one its own `break` goes to. */
  lemma GoesToOwn(frames: seq<Frame>, frame: Frame)
    requires forall other <- frames :: other.after != frame.after && other.top != frame.after
    requires frame.top != frame.after
    ensures GoesTo(frames + [frame], frame.after, frame.region, true)
  {
    var inside := frames + [frame];
    assert inside[..|frames|] == frames;
    forall own | Encloses(AroundOf(inside), own)
      ensures FrameOf(inside, own).after == frame.after <==> own == frame.region
      ensures FrameOf(inside, own).top != frame.after
    {
      if own != frame.region {
        StepOut(inside, own);
      }
    }
  }

  /** A list writes jumps to a waiting block exactly when it holds a `break` that goes there. */
  lemma {:induction false} JumpsCounted(f: Flattening, code: Code, target: nat, region: nat, live: bool)
    requires f.Valid() && 0 < |f.blocks| && WellScoped(code, AroundOf(f.frames)) && 0 < target < |f.blocks|
    requires GoesTo(f.frames, target, region, live)
    ensures f.jumpsTo[target] <= FlattenCode(f, code).jumpsTo[target]
    ensures f.jumpsTo[target] < FlattenCode(f, code).jumpsTo[target] <==> live && Breaks(code, region)
    decreases code, 2
  {
    hide FlattenHead, AroundOf, GoesTo;
    if code != End {
      HeadCounted(f, code, target, region, live);
      JumpsCounted(FlattenHead(f, code), code.next, target, region, live);
    }
  }

  predicate BreaksHead(code: Code, region: nat)
    requires code != End
  {
    match code
    case Block(own, body, _, _) => own != region && Breaks(body, region)
    case If(own, _, chosen, hasElse, otherwise, _, _) =>
      own != region && (Breaks(chosen, region) || (hasElse && Breaks(otherwise, region)))
    case Loop(own, _, body, _, _) => own != region && Breaks(body, region)
    case Break(own, _, _) => own == region
    case _ => false
  }

  lemma {:induction false} HeadCounted(f: Flattening, code: Code, target: nat, region: nat, live: bool)
    requires code != End && f.Valid() && 0 < |f.blocks| && WellScoped(code, AroundOf(f.frames)) && 0 < target < |f.blocks|
    requires GoesTo(f.frames, target, region, live)
    ensures var g := FlattenHead(f, code);
            && f.jumpsTo[target] <= g.jumpsTo[target]
            && (f.jumpsTo[target] < g.jumpsTo[target] <==> live && BreaksHead(code, region))
    ensures Breaks(code, region) <==> BreaksHead(code, region) || Breaks(code.next, region)
    decreases code, 1
  {
    hide AcrossBlock, AcrossIf, AcrossLoop;
    match code
    case Block(_, _, _, _) => BlockCounted(f, code, target, region, live);
    case If(_, _, _, _, _, _, _) => IfCounted(f, code, target, region, live);
    case Loop(_, _, _, _, _) => LoopCounted(f, code, target, region, live);
    case Plain(_, _) =>
    case Break(_, _, _) =>
    case Continue(_, _, _) =>
  }

  lemma {:induction false} BlockCounted(f: Flattening, code: Code, target: nat, region: nat, live: bool)
    requires code.Block? && f.Valid() && 0 < |f.blocks| && WellScoped(code, AroundOf(f.frames)) && 0 < target < |f.blocks|
    requires GoesTo(f.frames, target, region, live)
    ensures var g := AcrossBlock(f, code);
            && f.jumpsTo[target] <= g.jumpsTo[target]
            && (f.jumpsTo[target] < g.jumpsTo[target] <==> live && BreaksHead(code, region))
    decreases code, 0
  {
    hide FlattenCode, WellScoped, GoesTo;
    var inner := InBlock(f, code);
    GoesToInside(f.frames, target, region, live, Frame(code.region, |f.blocks|, 0));
    JumpsCounted(IntoBlock(f, code.region), code.body, target, region, live && code.region != region);
    assert inner == FlattenCode(IntoBlock(f, code.region), code.body);
  }

  lemma IntoIfCounts(f: Flattening, region: nat, condition: nat, hasElse: bool, at: Position, target: nat)
    requires f.Valid() && target < |f.blocks|
    ensures IntoIf(f, region, condition, hasElse, at).jumpsTo[target] == f.jumpsTo[target]
  {
  }

  lemma IntoLoopCounts(f: Flattening, region: nat, bound: U32, at: Position, target: nat)
    requires f.Valid() && target < |f.blocks|
    ensures IntoLoop(f, region, bound, at).jumpsTo[target] == f.jumpsTo[target]
  {
  }

  lemma IntoElseCounts(g: Flattening, otherwise: nat, after: nat, at: Position, target: nat)
    requires g.Valid() && otherwise < |g.blocks| && after < |g.blocks| && target < |g.blocks| && target != after
    ensures IntoElse(g, otherwise, after, at).jumpsTo[target] == g.jumpsTo[target]
  {
  }

  lemma OutOfCounts(g: Flattening, next: nat, after: nat, loop: nat, at: Position, target: nat)
    requires g.Valid() && g.frames != [] && next < |g.blocks| && after < |g.blocks| && loop < |g.blocks|
    requires target < |g.blocks| && target != next
    ensures OutOf(g, next, after, loop, at).jumpsTo[target] == g.jumpsTo[target]
  {
  }

  lemma {:induction false} IfCounted(f: Flattening, code: Code, target: nat, region: nat, live: bool)
    requires code.If? && f.Valid() && 0 < |f.blocks| && WellScoped(code, AroundOf(f.frames)) && 0 < target < |f.blocks|
    requires GoesTo(f.frames, target, region, live)
    ensures var g := AcrossIf(f, code);
            && f.jumpsTo[target] <= g.jumpsTo[target]
            && (f.jumpsTo[target] < g.jumpsTo[target] <==> live && BreaksHead(code, region))
    decreases code, 0
  {
    hide FlattenCode, WellScoped, GoesTo, IntoIf, IntoElse, OutOf, Breaks;
    var into, first, inside := IntoIf(f, code.region, code.condition, code.hasElse, code.at), FirstSide(f, code), live && code.region != region;
    IntoIfCounts(f, code.region, code.condition, code.hasElse, code.at, target);
    GoesToInside(f.frames, target, region, live, Frame(code.region, AfterIf(f, code.hasElse), 0));
    JumpsCounted(IntoIf(f, code.region, code.condition, code.hasElse, code.at), code.chosen, target, region, inside);
    assert first == FlattenCode(into, code.chosen);
    OutOfCounts(BothSides(f, code), AfterIf(f, code.hasElse), AfterIf(f, code.hasElse), f.loop, code.at, target);
    if code.hasElse {
      IntoElseCounts(first, |f.blocks| + 1, AfterIf(f, true), code.at, target);
      JumpsCounted(SecondSide(f, code), code.otherwise, target, region, inside);
    }
  }

  lemma {:induction false} LoopCounted(f: Flattening, code: Code, target: nat, region: nat, live: bool)
    requires code.Loop? && f.Valid() && 0 < |f.blocks| && WellScoped(code, AroundOf(f.frames)) && 0 < target < |f.blocks|
    requires GoesTo(f.frames, target, region, live)
    ensures var g := AcrossLoop(f, code);
            && f.jumpsTo[target] <= g.jumpsTo[target]
            && (f.jumpsTo[target] < g.jumpsTo[target] <==> live && BreaksHead(code, region))
    decreases code, 0
  {
    hide FlattenCode, WellScoped, GoesTo, IntoLoop, OutOf, Breaks;
    var inner := InLoop(f, code);
    IntoLoopCounts(f, code.region, code.bound, code.at, target);
    OutOfCounts(inner, |f.blocks|, |f.blocks| + 1, f.loop, code.at, target);
    GoesToInside(f.frames, target, region, live, Frame(code.region, |f.blocks| + 1, |f.blocks|));
    JumpsCounted(IntoLoop(f, code.region, code.bound, code.at), code.body, target, region, live && code.region != region);
  }

  /** The pass goes on from a list exactly when the list can be fallen off. */
  lemma {:induction false} FallsExactly(f: Flattening, code: Code)
    requires Inv(f) && f.body == 1 && 2 <= |f.blocks| && WellScoped(code, AroundOf(f.frames))
    ensures FlattenCode(f, code).Falls() == FallsOff(code, f.Falls())
    decreases code, 2
  {
    hide FlattenHead, WellScoped, AroundOf, Waiting, FallsOffHead;
    if code != End {
      HeadFallsExactly(f, code);
      FallsExactly(FlattenHead(f, code), code.next);
    }
  }

  lemma {:induction false} HeadFallsExactly(f: Flattening, code: Code)
    requires code != End && Inv(f) && f.body == 1 && 2 <= |f.blocks| && WellScoped(code, AroundOf(f.frames))
    ensures FlattenHead(f, code).Falls() == FallsOffHead(code, f.Falls())
    ensures WellScoped(code.next, AroundOf(f.frames)) && Inv(FlattenHead(f, code))
    decreases code, 1
  {
    hide AcrossBlock, AcrossIf, AcrossLoop, Waiting, FallsOff, Breaks;
    FlattenHeadKeeps(f, code);
    match code
    case Block(_, _, _, _) => BlockFallsExactly(f, code);
    case If(_, _, _, _, _, _, _) => IfFallsExactly(f, code);
    case Loop(_, _, _, _, _) => LoopFallsExactly(f, code);
    case Plain(_, _) =>
    case Break(_, _, _) =>
    case Continue(_, _, _) =>
  }

  /** The block after a region is gone on in when something jumps to it. */
  lemma OutOfFalls(g: Flattening, target: nat, after: nat, loop: nat, at: Position)
    requires g.Valid() && g.frames != [] && target < |g.blocks| && 1 < after < |g.blocks| && loop < |g.blocks|
    requires g.body == 1 && g.blocks[after].insts == [] && g.current != after
    ensures OutOf(g, target, after, loop, at).Falls() <==> 0 < g.jumpsTo[after] || (target == after && g.Falls())
  {
  }

  lemma {:induction false} BlockFallsExactly(f: Flattening, code: Code)
    requires code.Block? && Inv(f) && f.body == 1 && 2 <= |f.blocks| && WellScoped(code, AroundOf(f.frames))
    ensures AcrossBlock(f, code).Falls() == FallsOffHead(code, f.Falls())
    decreases code, 0
  {
    hide FlattenCode, WellScoped, GoesTo, OutOf, Breaks, FallsOff, Waiting;
    var after := |f.blocks|;
    var f1, inner := IntoBlock(f, code.region), InBlock(f, code);
    IntoBlockKeeps(f, code.region);
    FlattenCodeKeeps(f1, code.body);
    GoesToOwn(f.frames, Frame(code.region, after, 0));
    JumpsCounted(f1, code.body, after, code.region, true);
    FallsExactly(f1, code.body);
    OutOfFalls(inner, after, after, f.loop, code.at);
  }

  lemma {:induction false} LoopFallsExactly(f: Flattening, code: Code)
    requires code.Loop? && Inv(f) && f.body == 1 && 2 <= |f.blocks| && WellScoped(code, AroundOf(f.frames))
    ensures AcrossLoop(f, code).Falls() == FallsOffHead(code, f.Falls())
    decreases code, 0
  {
    hide FlattenCode, WellScoped, GoesTo, OutOf, Breaks, FallsOff, Waiting, LoopsAround;
    var after := |f.blocks| + 1;
    var f1, inner := IntoLoop(f, code.region, code.bound, code.at), InLoop(f, code);
    IntoLoopKeeps(f, code.region, code.bound, code.at);
    FlattenCodeKeeps(f1, code.body);
    GoesToOwn(f.frames, Frame(code.region, after, |f.blocks|));
    JumpsCounted(f1, code.body, after, code.region, true);
    OutOfFalls(inner, |f.blocks|, after, f.loop, code.at);
  }

  lemma {:induction false} IfFallsExactly(f: Flattening, code: Code)
    requires code.If? && Inv(f) && f.body == 1 && 2 <= |f.blocks| && WellScoped(code, AroundOf(f.frames))
    ensures AcrossIf(f, code).Falls() == FallsOffHead(code, f.Falls())
    decreases code, 0, 2
  {
    hide FlattenCode, WellScoped, GoesTo, OutOf, Breaks, FallsOff, Waiting, IntoIf, FirstSide, SecondSide, BothSides;
    var after := AfterIf(f, code.hasElse);
    IfKeeps(f, code);
    SidesFall(f, code);
    OutOfFalls(BothSides(f, code), after, after, f.loop, code.at);
  }

  lemma {:induction false} SidesFall(f: Flattening, code: Code)
    requires code.If? && Inv(f) && f.body == 1 && 2 <= |f.blocks| && WellScoped(code, AroundOf(f.frames))
    ensures var sides, after := BothSides(f, code), AfterIf(f, code.hasElse);
            && (0 < sides.jumpsTo[after] || sides.Falls() <==> FallsOffHead(code, f.Falls()))
            && sides.blocks[after].insts == [] && sides.current != after
    decreases code, 0, 1
  {
    hide FlattenCode, WellScoped, GoesTo, Waiting, LoopsAround, HeadersOf, IntoIf, IntoElse, FallsOff, Breaks, Extends;
    var n, after := |f.blocks|, AfterIf(f, code.hasElse);
    var f1, first := IntoIf(f, code.region, code.condition, code.hasElse, code.at), FirstSide(f, code);
    FirstSideKeeps(f, code);
    IntoIfBegins(f, code);
    GoesToOwn(f.frames, Frame(code.region, after, 0));
    JumpsCounted(f1, code.chosen, after, code.region, true);
    if code.hasElse {
      ElseFalls(f, code);
    } else {
      AfterStaysEmpty(f1, first, after);
    }
  }

  lemma AfterStaysEmpty(g: Flattening, later: Flattening, b: nat)
    requires g.Valid() && later.Valid() && Extends(g, later) && b < |g.blocks| && b != g.current && g.blocks[b].insts == []
    ensures later.blocks[b].insts == [] && later.current != b
  {
  }

  /** The branch is there, and the blocks it may go on in are empty. */
  lemma IntoIfBegins(f: Flattening, code: Code)
    requires code.If? && Inv(f) && 2 <= |f.blocks|
    ensures var g, after := IntoIf(f, code.region, code.condition, code.hasElse, code.at), AfterIf(f, code.hasElse);
            && g.Falls() && g.current == |f.blocks| && g.blocks[after].insts == [] && g.blocks[|f.blocks| + 1].insts == []
            && 0 < g.jumpsTo[|f.blocks| + 1] && (code.hasElse ==> g.jumpsTo[after] == 0)
            && forall frame <- f.frames :: frame.after < |f.blocks| && frame.top < |f.blocks|
  {
    hide LoopsAround, HeadersOf;
  }

  lemma {:induction false} ElseFalls(f: Flattening, code: Code)
    requires code.If? && code.hasElse && Inv(f) && f.body == 1 && 2 <= |f.blocks| && WellScoped(code, AroundOf(f.frames))
    ensures var sides, after := BothSides(f, code), AfterIf(f, true);
            && (0 < sides.jumpsTo[after] || sides.Falls() <==> FallsOffHead(code, f.Falls()))
            && sides.blocks[after].insts == [] && sides.current != after
    decreases code, 0, 0
  {
    hide FlattenCode, WellScoped, GoesTo, Waiting, LoopsAround, HeadersOf, IntoIf, IntoElse, FallsOff, Breaks, Extends;
    var n, after := |f.blocks|, AfterIf(f, true);
    var f1, first, second := IntoIf(f, code.region, code.condition, true, code.at), FirstSide(f, code), SecondSide(f, code);
    FirstSideKeeps(f, code);
    SecondSideKeeps(f, code);
    IntoIfBegins(f, code);
    AfterStaysEmpty(f1, first, after);
    AfterStaysEmpty(f1, first, n + 1);
    GoesToOwn(f.frames, Frame(code.region, after, 0));
    JumpsCounted(f1, code.chosen, after, code.region, true);
    JumpsStay(f1, first, n + 1);
    FallsExactly(f1, code.chosen);
    IntoElseBegins(first, n + 1, after, code.at);
    FallsExactly(second, code.otherwise);
    JumpsCounted(second, code.otherwise, after, code.region, true);
    FlattenCodeKeeps(second, code.otherwise);
    AfterStaysEmpty(second, BothSides(f, code), after);
  }

  lemma JumpsStay(g: Flattening, later: Flattening, b: nat)
    requires g.Valid() && later.Valid() && Extends(g, later) && b < |g.blocks|
    ensures g.jumpsTo[b] <= later.jumpsTo[b]
  {
  }

  /** The `else` is gone on in, and a first side that is come off the end of counts a jump. */
  lemma IntoElseBegins(first: Flattening, otherwise: nat, after: nat, at: Position)
    requires first.Valid() && otherwise < |first.blocks| && after < |first.blocks| && otherwise != after
    requires otherwise != first.current && after != first.current
    requires first.blocks[otherwise].insts == [] && 0 < first.jumpsTo[otherwise] && first.blocks[after].insts == []
    ensures var h := IntoElse(first, otherwise, after, at);
            && h.Falls() && h.current == otherwise && h.blocks[after].insts == []
            && h.jumpsTo[after] == first.jumpsTo[after] + if first.Falls() then 1 else 0
  {
  }

  /** What a verified function's flattening is made of. */
  ghost predicate Made(f: Flattening, scopes: seq<set<nat>>, cfg: Cfg) {
    && Orderly(f, {}) && Scoped(f, scopes, cfg.realTime)
    && cfg.blocks == f.blocks && cfg.order == f.Closed().order && cfg.values == f.values && cfg.body == f.body
  }

  lemma FlattenMakes(function_: Structured) returns (f: Flattening, scopes: seq<set<nat>>)
    requires VerifiedFunction(function_)
    ensures f == Walked(function_) && Made(f, scopes, Flatten(function_))
    ensures f.Falls() == FallsOff(function_.body, true)
  {
    var start := Begun(function_.parameters);
    f := Walked(function_);
    assert AroundOf([]) == [];
    VerifiedNothingFollows(function_.body, Parameters(function_.parameters).Keys, function_.realTime);
    WalkedOrderly(function_);
    var given := Parameters(function_.parameters).Keys;
    BegunScoped(function_.parameters, function_.realTime);
    scopes := FlattenCodeScoped(start, [{}, given], given, function_.body, function_.realTime);
    FallsExactly(start, function_.body);
  }

  /** Where the pass begins only the parameters are in scope, and none at 'no block'. */
  lemma BegunScoped(parameters: nat, realTime: bool)
    ensures Scoped(Begun(parameters), [{}, Parameters(parameters).Keys], realTime)
    ensures Sees(Begun(parameters), [{}, Parameters(parameters).Keys], Parameters(parameters).Keys)
  {
    var f, scopes := Begun(parameters), [{}, Parameters(parameters).Keys];
    forall b | 0 <= b < |f.blocks|
      ensures StartsRight(f, scopes, b, realTime)
    {
    }
    forall value | value in f.values
      ensures OwnedBy(f, value)
    {
      assert f.values[value] == Parameter;
    }
  }

  lemma {:induction false} VerifiedNothingFollows(code: Code, visible: set<nat>, realTime: bool)
    requires Verified(code, visible, realTime)
    ensures NothingFollows(code)
  {
    match code
    case End =>
    case Plain(_, next) => VerifiedNothingFollows(next, SeenAfter(code, visible), realTime);
    case Block(_, body, _, next) =>
      VerifiedNothingFollows(body, visible, realTime);
      VerifiedNothingFollows(next, visible, realTime);
    case If(_, _, chosen, hasElse, otherwise, _, next) =>
      VerifiedNothingFollows(chosen, visible, realTime);
      if hasElse {
        VerifiedNothingFollows(otherwise, visible, realTime);
      }
      VerifiedNothingFollows(next, visible, realTime);
    case Loop(_, _, body, _, next) =>
      VerifiedNothingFollows(body, visible, realTime);
      VerifiedNothingFollows(next, visible, realTime);
    case Break(_, _, _) =>
    case Continue(_, _, _) =>
  }

  /** Only a dead block leaves the order. */
  lemma StaysInOrder(f: Flattening, b: nat)
    requires Orderly(f, {}) && 0 < b < |f.blocks| && (f.blocks[b].insts != [] || 0 < f.jumpsTo[b])
    ensures b in f.Closed().order
  {
    assert Accounted(f, {}, b);
    CurrentInOrder(f, {});
    if f.Closed().order != f.order {
      assert f.order == f.Closed().order + [f.current];
    }
  }

  lemma OrderIsRight(f: Flattening, scopes: seq<set<nat>>, cfg: Cfg)
    requires Made(f, scopes, cfg)
    ensures InRange(cfg) && Consistent(cfg) && Enters(cfg) && EntryTakesNothing(cfg)
    ensures forall b <- cfg.order :: b in f.order && 0 < b < |f.blocks|
    ensures !f.Falls() ==> forall b <- cfg.order :: Terminated(f.blocks[b].insts)
  {
    CurrentInOrder(f, {});
    assert forall b <- f.order :: 0 < b < |f.blocks| by {
      forall b | b in f.order
        ensures 0 < b < |f.blocks|
      {
        var i :| 0 <= i < |f.order| && f.order[i] == b;
      }
    }
    assert cfg.order[0] == f.order[0];
    assert StartsRight(f, scopes, 1, cfg.realTime);
    forall value | value in cfg.values
      ensures Owned(cfg, value)
    {
      assert OwnedBy(f, value);
    }
    if !f.Falls() {
      ClosedOrder(f, {});
    }
  }

  /** What is in scope where a block starts is written by a block on every way to it. */
  lemma {:induction false} ScopeIsOnPath(f: Flattening, scopes: seq<set<nat>>, cfg: Cfg, path: seq<nat>, value: nat)
    requires Made(f, scopes, cfg) && InRange(cfg) && cfg.order != [] && cfg.order[0] == f.body
    requires forall b <- cfg.order :: b in f.order && 0 < b < |f.blocks|
    requires IsPath(cfg, path) && path[|path| - 1] < |scopes| && value in scopes[path[|path| - 1]]
    ensures value in f.values && (f.values[value].Result? ==> f.values[value].block in path)
    decreases |path|
  {
    hide IsEdge, InScope, Made;
    var block := path[|path| - 1];
    if |path| == 1 {
      EntryScope(f, scopes, cfg, value);
    } else {
      PathBefore(cfg, path);
      var before, from := path[..|path| - 1], path[|path| - 2];
      EdgeScope(f, scopes, cfg, from, block, value);
      if value in scopes[from] {
        ScopeIsOnPath(f, scopes, cfg, before, value);
      } else {
        assert from in path;
      }
    }
  }

  lemma EntryScope(f: Flattening, scopes: seq<set<nat>>, cfg: Cfg, value: nat)
    requires Made(f, scopes, cfg) && f.body < |scopes| && value in scopes[f.body]
    ensures value in f.values && f.values[value] == Parameter
  {
    assert StartsRight(f, scopes, f.body, cfg.realTime);
  }

  /** What a block starts with was in scope where it was jumped to from. */
  lemma EdgeScope(f: Flattening, scopes: seq<set<nat>>, cfg: Cfg, from: nat, block: nat, value: nat)
    requires Made(f, scopes, cfg) && IsEdge(cfg, from, block) && block < |scopes| && value in scopes[block]
    ensures from < |scopes| && (value in scopes[from] || (value in f.values && f.values[value].Result? && f.values[value].block == from))
  {
    hide Orderly;
    var last := |f.blocks[from].insts| - 1;
    assert Fits(f, scopes, from, last);
    assert Leaves(f, scopes, from, last, block);
  }

  /** The scope rule is dominance: what a list could read where it was, the CFG can read there. */
  lemma ScopeIsDominance(f: Flattening, scopes: seq<set<nat>>, cfg: Cfg, block: nat, index: nat, value: nat)
    requires Made(f, scopes, cfg) && InRange(cfg) && cfg.order != [] && cfg.order[0] == f.body
    requires forall b <- cfg.order :: b in f.order && 0 < b < |f.blocks|
    requires block in cfg.order && InScope(f, scopes, block, index, value)
    ensures IsVisible(cfg, DominatorsOf(cfg, block), value, block, index)
  {
    assert StartsRight(f, scopes, block, cfg.realTime);
    assert value in f.values;
    assert OwnedBy(f, value);
    var owner := f.values[value];
    if owner.Result? && owner.block != block {
      assert value in scopes[block];
      forall path | Leads(cfg, path, block)
        ensures owner.block in path
      {
        ScopeIsOnPath(f, scopes, cfg, path, value);
      }
      assert owner.block != 0;
      StaysInOrder(f, owner.block);
    }
  }

  lemma InstIsAccepted(f: Flattening, scopes: seq<set<nat>>, cfg: Cfg, block: nat, index: nat)
    requires Made(f, scopes, cfg) && InRange(cfg) && cfg.order != [] && cfg.order[0] == f.body
    requires forall b <- cfg.order :: b in f.order && 0 < b < |f.blocks|
    requires block in cfg.order && index < |f.blocks[block].insts|
    ensures AcceptedInst(cfg, block, index)
    ensures cfg.order[0] !in Targets(f.blocks[block].insts[index])
  {
    var inst := f.blocks[block].insts[index];
    assert Fits(f, scopes, block, index);
    assert OneTerminator(f.blocks[block].insts);
    forall value | value in Checked(inst)
      ensures IsVisible(cfg, DominatorsOf(cfg, block), value, block, index)
    {
      ScopeIsDominance(f, scopes, cfg, block, index, value);
    }
    forall target | target in Targets(inst)
      ensures AcceptedTarget(cfg, inst, target) && target != cfg.order[0]
    {
      assert Leaves(f, scopes, block, index, target);
      StaysInOrder(f, target);
      assert StartsRight(f, scopes, target, cfg.realTime);
    }
  }

  /** The verifier accepts what a function it accepted flattens to, if and only if the body cannot
      fall off its end. */
  lemma FlattenIsAccepted(function_: Structured)
    requires VerifiedFunction(function_)
    ensures InRange(Flatten(function_)) && Consistent(Flatten(function_))
    ensures Enters(Flatten(function_)) && EntryTakesNothing(Flatten(function_))
    ensures Accepted(Flatten(function_)) <==> !FallsOff(function_.body, true)
  {
    var cfg := Flatten(function_);
    var f, scopes := FlattenMakes(function_);
    OrderIsRight(f, scopes, cfg);
    assert cfg.order[0] == f.body;
    if f.Falls() {
      LastIsNotAccepted(f, scopes, cfg);
    } else {
      forall block | block in cfg.order
        ensures AcceptedBlock(cfg, block)
      {
        forall i | 0 <= i < |f.blocks[block].insts|
          ensures AcceptedInst(cfg, block, i) && cfg.order[0] !in Targets(f.blocks[block].insts[i])
        {
          InstIsAccepted(f, scopes, cfg, block, i);
        }
        assert StartsRight(f, scopes, block, cfg.realTime);
      }
    }
  }

  lemma LastIsNotAccepted(f: Flattening, scopes: seq<set<nat>>, cfg: Cfg)
    requires Made(f, scopes, cfg) && InRange(cfg) && f.Falls()
    ensures !Accepted(cfg)
  {
    CurrentInOrder(f, {});
    assert f.current in cfg.order && !AcceptedBlock(cfg, f.current);
  }

  /** Every `vcall` has a signature, or passes only its receiver. */
  predicate Signed(code: Code) {
    match code
    case End => true
    case Plain(inst, next) => !PassesUnchecked(inst) && Signed(next)
    case Block(_, body, _, next) => Signed(body) && Signed(next)
    case If(_, _, chosen, hasElse, otherwise, _, next) => Signed(chosen) && (hasElse ==> Signed(otherwise)) && Signed(next)
    case Loop(_, _, body, _, next) => Signed(body) && Signed(next)
    case Break(_, _, next) => Signed(next)
    case Continue(_, _, next) => Signed(next)
  }

  /** Every instruction of a list is admitted, and the branch and the jumps its regions will be
      written as, each where in the source its region is. */
  ghost predicate Admitted(code: Code, admits: Inst -> bool) {
    match code
    case End => true
    case Plain(inst, next) => admits(inst) && Admitted(next, admits)
    case Block(_, body, at, next) => AdmitsJump(admits, at) && Admitted(body, admits) && Admitted(next, admits)
    case If(_, condition, chosen, hasElse, otherwise, at, next) =>
      && AdmitsBranch(admits, condition, at) && AdmitsJump(admits, at) && Admitted(chosen, admits)
      && (hasElse ==> Admitted(otherwise, admits)) && Admitted(next, admits)
    case Loop(_, _, body, at, next) => AdmitsJump(admits, at) && Admitted(body, admits) && Admitted(next, admits)
    case Break(_, at, next) => AdmitsJump(admits, at) && Admitted(next, admits)
    case Continue(_, at, next) => AdmitsJump(admits, at) && Admitted(next, admits)
  }

  ghost predicate AdmitsBranch(admits: Inst -> bool, condition: nat, at: Position) {
    forall chosen, otherwise :: admits(CondBr(condition, chosen, otherwise, at))
  }

  ghost predicate AdmitsJump(admits: Inst -> bool, at: Position) {
    forall target :: admits(Br(target, [], at))
  }

  /** Every instruction written is admitted, and no value but the function's own parameters is one. */
  ghost predicate Admits(f: Flattening, admits: Inst -> bool, taken: nat) {
    && (forall b, i {:trigger f.blocks[b].insts[i]} ::
          0 <= b < |f.blocks| && 0 <= i < |f.blocks[b].insts| ==> admits(f.blocks[b].insts[i]))
    && (forall value <- f.values :: f.values[value] == Parameter ==> value <= taken)
  }

  /** Flattening writes the list's own instructions and jumps. */
  lemma {:induction false} FlattenCodeAdmits(f: Flattening, code: Code, admits: Inst -> bool, taken: nat)
    requires f.Valid() && 0 < |f.blocks| && WellScoped(code, AroundOf(f.frames)) && Admitted(code, admits) && Admits(f, admits, taken)
    ensures Admits(FlattenCode(f, code), admits, taken)
    decreases code, 2
  {
    hide FlattenHead, Admits, WellScoped;
    if code != End {
      FlattenHeadAdmits(f, code, admits, taken);
      FlattenCodeAdmits(FlattenHead(f, code), code.next, admits, taken);
    }
  }

  lemma {:induction false} FlattenHeadAdmits(f: Flattening, code: Code, admits: Inst -> bool, taken: nat)
    requires code != End && f.Valid() && 0 < |f.blocks| && WellScoped(code, AroundOf(f.frames)) && Admitted(code, admits) && Admits(f, admits, taken)
    ensures Admits(FlattenHead(f, code), admits, taken)
    ensures WellScoped(code.next, AroundOf(FlattenHead(f, code).frames)) && Admitted(code.next, admits)
    decreases code, 1
  {
    hide AcrossBlock, AcrossIf, AcrossLoop, Admits;
    match code
    case Block(_, _, _, _) => BlockAdmits(f, code, admits, taken);
    case If(_, _, _, _, _, _, _) => IfAdmits(f, code, admits, taken);
    case Loop(_, _, _, _, _) => LoopAdmits(f, code, admits, taken);
    case Plain(inst, _) => CopiedAdmits(f, inst, admits, taken);
    case Break(region, at, _) => JumpedAdmits(f, FrameOf(f.frames, region).after, at, admits, taken);
    case Continue(region, at, _) => JumpedAdmits(f, FrameOf(f.frames, region).top, at, admits, taken);
  }

  lemma CopiedAdmits(f: Flattening, inst: Inst, admits: Inst -> bool, taken: nat)
    requires f.Valid() && Admits(f, admits, taken) && admits(inst)
    ensures Admits(f.Copied(inst), admits, taken)
  {
  }

  lemma JumpedAdmits(f: Flattening, target: nat, at: Position, admits: Inst -> bool, taken: nat)
    requires f.Valid() && Admits(f, admits, taken) && AdmitsJump(admits, at) && target < |f.blocks|
    ensures Admits(f.Jumped(target, at), admits, taken)
  {
    assert admits(Br(target, [], at));
  }

  lemma {:induction false} BlockAdmits(f: Flattening, code: Code, admits: Inst -> bool, taken: nat)
    requires code.Block? && f.Valid() && 0 < |f.blocks| && WellScoped(code, AroundOf(f.frames)) && Admitted(code, admits) && Admits(f, admits, taken)
    ensures Admits(AcrossBlock(f, code), admits, taken)
    decreases code, 0
  {
    hide FlattenCode, OutOf, WellScoped;
    var inner := InBlock(f, code);
    assert Admits(IntoBlock(f, code.region), admits, taken);
    hide Admits;
    FlattenCodeAdmits(IntoBlock(f, code.region), code.body, admits, taken);
    OutOfAdmits(inner, |f.blocks|, |f.blocks|, f.loop, code.at, admits, taken);
  }

  lemma {:induction false} LoopAdmits(f: Flattening, code: Code, admits: Inst -> bool, taken: nat)
    requires code.Loop? && f.Valid() && 0 < |f.blocks| && WellScoped(code, AroundOf(f.frames)) && Admitted(code, admits) && Admits(f, admits, taken)
    ensures Admits(AcrossLoop(f, code), admits, taken)
    decreases code, 0
  {
    hide FlattenCode, OutOf, WellScoped;
    var inner := InLoop(f, code);
    assert Admits(IntoLoop(f, code.region, code.bound, code.at), admits, taken);
    hide Admits, IntoLoop;
    FlattenCodeAdmits(IntoLoop(f, code.region, code.bound, code.at), code.body, admits, taken);
    OutOfAdmits(inner, |f.blocks|, |f.blocks| + 1, f.loop, code.at, admits, taken);
  }

  lemma {:induction false} IfAdmits(f: Flattening, code: Code, admits: Inst -> bool, taken: nat)
    requires code.If? && f.Valid() && 0 < |f.blocks| && WellScoped(code, AroundOf(f.frames)) && Admitted(code, admits) && Admits(f, admits, taken)
    ensures Admits(AcrossIf(f, code), admits, taken)
    decreases code, 0
  {
    hide FlattenCode, IntoIf, OutOf, IntoElse, Admits, WellScoped;
    var after, first := AfterIf(f, code.hasElse), FirstSide(f, code);
    IntoIfAdmits(f, code, admits, taken);
    FlattenCodeAdmits(IntoIf(f, code.region, code.condition, code.hasElse, code.at), code.chosen, admits, taken);
    assert Admits(FirstSide(f, code), admits, taken);
    if code.hasElse {
      IntoElseAdmits(FirstSide(f, code), |f.blocks| + 1, after, code.at, admits, taken);
      FlattenCodeAdmits(SecondSide(f, code), code.otherwise, admits, taken);
    }
    OutOfAdmits(BothSides(f, code), after, after, f.loop, code.at, admits, taken);
  }

  lemma IntoIfAdmits(f: Flattening, code: Code, admits: Inst -> bool, taken: nat)
    requires code.If? && f.Valid() && Admits(f, admits, taken) && AdmitsBranch(admits, code.condition, code.at)
    ensures Admits(IntoIf(f, code.region, code.condition, code.hasElse, code.at), admits, taken)
  {
    assert admits(CondBr(code.condition, |f.blocks|, |f.blocks| + 1, code.at));
  }

  lemma OutOfAdmits(g: Flattening, target: nat, after: nat, loop: nat, at: Position, admits: Inst -> bool, taken: nat)
    requires g.Valid() && g.frames != [] && target < |g.blocks| && after < |g.blocks| && loop < |g.blocks|
    requires Admits(g, admits, taken) && AdmitsJump(admits, at)
    ensures Admits(OutOf(g, target, after, loop, at), admits, taken)
  {
    assert admits(Br(target, [], at));
  }

  lemma IntoElseAdmits(g: Flattening, otherwise: nat, after: nat, at: Position, admits: Inst -> bool, taken: nat)
    requires g.Valid() && otherwise < |g.blocks| && after < |g.blocks|
    requires Admits(g, admits, taken) && AdmitsJump(admits, at)
    ensures Admits(IntoElse(g, otherwise, after, at), admits, taken)
  {
    assert admits(Br(after, [], at));
  }

  /** From source to run: a verified function that calls with signatures and whose body cannot fall
      off its end, called with all its arguments, reads only what was written, runs off no block
      and comes to no region, on every way through its CFG. */
  lemma VerifiedFunctionsRunSafely<S>(m: Meaning<S>, function_: Structured, given: nat, s: S)
    requires VerifiedFunction(function_) && !FallsOff(function_.body, true)
    requires Signed(function_.body) && function_.parameters <= given
    ensures RunsSafely(m, Flatten(function_), given, s)
  {
    hide Admits, FlattenCode, Signed;
    var cfg := Flatten(function_);
    FlattenIsAccepted(function_);
    FlattenIsComplete(function_, given);
    AcceptedRunsAreSafe(m, cfg, given, s);
  }

  /** A call of a signature, or of the receiver alone. */
  predicate CallsChecked(inst: Inst) {
    !PassesUnchecked(inst)
  }

  lemma {:induction false} SignedIsAdmitted(code: Code)
    requires Signed(code)
    ensures Admitted(code, CallsChecked)
  {
    match code
    case End =>
    case Plain(_, next) => SignedIsAdmitted(next);
    case Block(_, body, _, next) =>
      SignedIsAdmitted(body);
      SignedIsAdmitted(next);
    case If(_, _, chosen, hasElse, otherwise, _, next) =>
      SignedIsAdmitted(chosen);
      if hasElse {
        SignedIsAdmitted(otherwise);
      }
      SignedIsAdmitted(next);
    case Loop(_, _, body, _, next) =>
      SignedIsAdmitted(body);
      SignedIsAdmitted(next);
    case Break(_, _, next) => SignedIsAdmitted(next);
    case Continue(_, _, next) => SignedIsAdmitted(next);
  }

  /** What is admitted of a function's list, and of the jumps of its regions, is admitted of its CFG. */
  lemma FlattenAdmits(function_: Structured, admits: Inst -> bool)
    requires Flattenable(function_) && Admitted(function_.body, admits)
    ensures Admits(Walked(function_), admits, function_.parameters)
    ensures forall b, i {:trigger Flatten(function_).blocks[b].insts[i]} ::
              0 <= b < |Flatten(function_).blocks| && 0 <= i < |Flatten(function_).blocks[b].insts| ==> admits(Flatten(function_).blocks[b].insts[i])
  {
    hide FlattenCode, Admitted;
    assert AroundOf([]) == [];
    BegunAdmits(function_.parameters, admits);
    FlattenCodeAdmits(Begun(function_.parameters), function_.body, admits, function_.parameters);
  }

  lemma BegunAdmits(parameters: nat, admits: Inst -> bool)
    ensures Admits(Begun(parameters), admits, parameters)
  {
  }

  lemma FlattenIsComplete(function_: Structured, given: nat)
    requires VerifiedFunction(function_) && Signed(function_.body) && function_.parameters <= given
    ensures InRange(Flatten(function_)) && Complete(Flatten(function_), given)
  {
    hide FlattenCode, Signed, FallsOff, Accepted, Made, Admits, Complete, Admitted;
    var f, scopes := FlattenMakes(function_);
    SignedIsAdmitted(function_.body);
    FlattenAdmits(function_, CallsChecked);
    MadeIsComplete(f, scopes, Flatten(function_), function_.parameters, given);
  }

  lemma MadeIsComplete(f: Flattening, scopes: seq<set<nat>>, cfg: Cfg, parameters: nat, given: nat)
    requires Made(f, scopes, cfg) && Admits(f, CallsChecked, parameters) && parameters <= given
    ensures InRange(cfg) && Complete(cfg, given)
  {
    hide Orderly;
    OrderIsRight(f, scopes, cfg);
    assert StartsRight(f, scopes, f.body, cfg.realTime);
    forall value | value in ParametersOf(cfg)
      ensures value in Arguments(given)
    {
      assert OwnedBy(f, value);
    }
  }
}
