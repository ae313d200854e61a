/** Flattening preserves meaning.

    The main result is `FlattenPreserves`: a structured function ends a way exactly when the CFG
    it flattens to ends that way, in the same state -- a value given back, a stop or an abort at
    the same instruction, a loop past its bound, or off the end -- and so one of them runs for
    ever exactly when the other does.
  */
module FlattenerMeaning {
  import opened Ir
  import opened Flattener
  import opened FlattenerInvariant
  import opened Interpreter
  import opened StructuredMeaning

  /** Where the next instruction goes. */
  function Here<S>(f: Flattening, s: S, turns: map<nat, nat>): Config<S>
    requires f.Valid()
  {
    At(f.current, |f.blocks[f.current].insts|, s, turns)
  }

  /** The headers there were before have counted the same. */
  ghost predicate SameTurns(f: Flattening, turns: map<nat, nat>, later: map<nat, nat>) {
    forall h {:trigger TurnsOf(later, h)} :: 0 <= h < |f.blocks| ==> TurnsOf(later, h) == TurnsOf(turns, h)
  }

  /** In `n` steps from `start` the CFG does what the code flattened from `f` to `g` does. */
  ghost predicate Simulates<S>(m: Meaning<S>, final: seq<BasicBlock>, start: Config<S>, f: Flattening, g: Flattening,
                               outcome: Outcome<S>, turns: map<nat, nat>, fuel: nat, n: nat, from: nat, later: map<nat, nat>)
    requires f.Valid() && g.Valid() && |f.blocks| <= |g.blocks|
  {
    var end := Steps(m, final, start, n);
    match outcome
    case Fall(s) => end == Here(g, s, later) && g.Falls() && SameTurns(f, turns, later)
    case Broke(region, s) =>
      && Encloses(AroundOf(f.frames), region) && SameTurns(f, turns, later)
      && end == At(FrameOf(f.frames, region).after, 0, s, later)
      && 0 < g.jumpsTo[FrameOf(f.frames, region).after]
    case Continued(region, s) =>
      && Encloses(AroundOf(f.frames), region) && SameTurns(f, turns, later) && 0 < n
      && FrameOf(f.frames, region).top != 0 && from < |final|
      && FrameOf(f.frames, region).top in LoopsAround(final, final[from].loop)
      && end == Enter(final, from, FrameOf(f.frames, region).top, s, later)
    case Ended(result) => end == Done(result)
    case Unfinished(_) => end.At? && fuel <= n
  }

  /** Taking the jump written at the end of the block being written. */
  lemma TakesJump<S>(m: Meaning<S>, final: seq<BasicBlock>, g: Flattening, target: nat, at: Position, s: S, turns: map<nat, nat>)
    requires Inv(g) && target < |g.blocks| && Grows(g.Jumped(target, at).blocks, final)
    requires final[target].parameters == []
    ensures Step(m, final, Here(g, s, turns)) == Enter(final, g.current, target, s, turns)
    ensures g.current < |final| && LoopsAround(final, final[g.current].loop) == LoopsAround(g.blocks, g.loop)
  {
    var j := g.Jumped(target, at);
    var insts := g.blocks[g.current].insts;
    assert GrowsBlock(j.blocks[g.current], final[g.current]);
    assert j.blocks[g.current].insts[|insts|] == Br(target, [], at);
    assert Grows(g.blocks, j.blocks);
    GrowsTransitive(g.blocks, j.blocks, final);
    SameLoopsAround(g.blocks, final, g.loop);
  }

  /** The jump a region's end writes is there when its list has been left for `after`, which is
      empty. */
  ghost predicate Joins(g: Flattening, h: Flattening, target: nat, after: nat, at: Position)
    requires g.Valid() && h.Valid() && target < |g.blocks|
  {
    && |g.blocks| <= |h.blocks| && after < |h.blocks|
    && Grows(g.blocks, h.blocks) && (g.Falls() ==> Grows(g.Jumped(target, at).blocks, h.blocks))
    && h.blocks[after].insts == [] && !h.blocks[after].header && h.blocks[after].parameters == []
    && (forall b {:trigger h.jumpsTo[b]} :: 0 <= b < |g.blocks| ==> g.jumpsTo[b] <= h.jumpsTo[b])
    && (g.Falls() ==> 0 < h.jumpsTo[target])
  }

  lemma OutOfJoins(g: Flattening, target: nat, after: nat, loop: nat, at: Position)
    requires g.Valid() && g.frames != [] && target < |g.blocks| && after < |g.blocks| && loop < |g.blocks|
    requires after != g.current && g.blocks[after].insts == [] && !g.blocks[after].header && g.blocks[after].parameters == []
    ensures Joins(g, OutOf(g, target, after, loop, at), target, after, at)
  {
  }

  /** From one side of an `if` to the other, and out of it later. */
  lemma ElseJoins(g: Flattening, otherwise: nat, after: nat, at: Position, h: Flattening)
    requires g.Valid() && otherwise < |g.blocks| && after < |g.blocks| && h.Valid()
    requires otherwise != g.current && g.blocks[otherwise].insts == [] && !g.blocks[otherwise].header
    requires var second := IntoElse(g, otherwise, after, at);
             && Grows(second.blocks, h.blocks)
             && (forall b {:trigger h.jumpsTo[b]} :: 0 <= b < |g.blocks| ==> second.jumpsTo[b] <= h.jumpsTo[b])
    requires h.blocks[after].insts == [] && !h.blocks[after].header && h.blocks[after].parameters == []
    ensures Joins(g, h, after, after, at)
  {
    var second := IntoElse(g, otherwise, after, at);
    assert Grows(g.Joined(after, at).blocks, second.blocks);
    GrowsTransitive(g.Joined(after, at).blocks, second.blocks, h.blocks);
    assert Grows(g.blocks, g.Joined(after, at).blocks);
    GrowsTransitive(g.blocks, g.Joined(after, at).blocks, h.blocks);
  }

  /** A list is its head and then the rest. */
  lemma ThenNext<S>(m: Meaning<S>, final: seq<BasicBlock>, start: Config<S>, f: Flattening, g: Flattening, h: Flattening,
                    outcome: Outcome<S>, turns: map<nat, nat>, fuel: nat, n: nat, from: nat, later: map<nat, nat>)
    requires f.Valid() && g.Valid() && h.Valid() && |f.blocks| <= |g.blocks| && Extends(g, h)
    requires Simulates(m, final, start, f, g, outcome, turns, fuel, n, from, later)
    requires !outcome.Fall?
    ensures Simulates(m, final, start, f, h, outcome, turns, fuel, n, from, later)
  {
  }

  lemma AndThen<S>(m: Meaning<S>, final: seq<BasicBlock>, start: Config<S>, f: Flattening, g: Flattening, h: Flattening,
                   middle: Config<S>, outcome: Outcome<S>, turns: map<nat, nat>, between: map<nat, nat>, fuel: nat,
                   less: nat, k: nat, n: nat, from: nat, later: map<nat, nat>)
    requires f.Valid() && g.Valid() && h.Valid() && |f.blocks| <= |g.blocks| <= |h.blocks|
    requires g.frames == f.frames && SameTurns(f, turns, between) && fuel <= k + less
    requires Steps(m, final, start, k) == middle
    requires Simulates(m, final, middle, g, h, outcome, between, less, n, from, later)
    ensures Simulates(m, final, start, f, h, outcome, turns, fuel, k + n, from, later)
  {
    StepsAdd(m, final, start, k, n);
  }

  lemma {:induction false} SimulatesCode<S>(m: Meaning<S>, final: seq<BasicBlock>, f: Flattening, code: Code, s: S,
                                            turns: map<nat, nat>, fuel: nat)
      returns (n: nat, from: nat, later: map<nat, nat>)
    requires Inv(f) && f.Falls() && WellScoped(code, AroundOf(f.frames))
    requires Grows(FlattenCode(f, code).blocks, final)
    ensures Simulates(m, final, Here(f, s, turns), f, FlattenCode(f, code), Exec(m, code, s, fuel), turns, fuel, n, from, later)
    decreases fuel, code, 5
  {
    hide FlattenHead, Waiting, Extends, Grows, ExecHead;
    if code == End {
      n, from, later := 0, 0, turns;
      return;
    }
    var g := FlattenHead(f, code);
    var h := FlattenCode(g, code.next);
    FlattenHeadKeeps(f, code);
    FlattenCodeKeeps(g, code.next);
    ExtendsGrows(g, h);
    GrowsTransitive(g.blocks, h.blocks, final);
    n, from, later := SimulatesHead(m, final, f, code, s, turns, fuel);
    var first := ExecHead(m, code, s, fuel);
    if first.Fall? {
      var k, between := n, later;
      n, from, later := SimulatesCode(m, final, g, code.next, first.s, between, fuel);
      AndThen(m, final, Here(f, s, turns), f, g, h, Here(g, first.s, between), Exec(m, code.next, first.s, fuel),
              turns, between, fuel, fuel, k, n, from, later);
      n := k + n;
    } else {
      ThenNext(m, final, Here(f, s, turns), f, g, h, first, turns, fuel, n, from, later);
    }
  }

  lemma {:induction false} SimulatesHead<S>(m: Meaning<S>, final: seq<BasicBlock>, f: Flattening, code: Code, s: S,
                                            turns: map<nat, nat>, fuel: nat)
      returns (n: nat, from: nat, later: map<nat, nat>)
    requires code != End && Inv(f) && f.Falls() && WellScoped(code, AroundOf(f.frames))
    requires Grows(FlattenHead(f, code).blocks, final)
    ensures Simulates(m, final, Here(f, s, turns), f, FlattenHead(f, code), ExecHead(m, code, s, fuel), turns, fuel, n, from, later)
    decreases fuel, code, 4
  {
    hide Waiting, LoopsAround, Grows;
    match code
    case Plain(inst, _) => n, from, later := SimulatesPlain(m, final, f, inst, code, s, turns, fuel);
    case Block(_, _, _, _) => n, from, later := SimulatesBlock(m, final, f, code, s, turns, fuel);
    case If(_, _, _, _, _, _, _) => n, from, later := SimulatesIf(m, final, f, code, s, turns, fuel);
    case Loop(_, _, _, _, _) => n, from, later := SimulatesLoop(m, final, f, code, s, turns, fuel);
    case Break(region, at, _) => n, from, later := SimulatesBreak(m, final, f, region, at, s, turns, fuel);
    case Continue(region, at, _) => n, from, later := SimulatesContinue(m, final, f, region, at, s, turns, fuel);
  }

  lemma SimulatesPlain<S>(m: Meaning<S>, final: seq<BasicBlock>, f: Flattening, inst: Inst, code: Code, s: S,
                          turns: map<nat, nat>, fuel: nat)
      returns (n: nat, from: nat, later: map<nat, nat>)
    requires Inv(f) && f.Falls() && IsCommon(inst) && Grows(f.Copied(inst).blocks, final)
    requires code.Plain? && code.inst == inst
    ensures Simulates(m, final, Here(f, s, turns), f, f.Copied(inst), ExecHead(m, code, s, fuel), turns, fuel, n, from, later)
  {
    n, from, later := 1, 0, turns;
    var insts := f.blocks[f.current].insts;
    var g := f.Copied(inst);
    assert GrowsBlock(g.blocks[f.current], final[f.current]);
    assert g.blocks[f.current].insts == insts + [inst];
    assert final[f.current].insts[|insts|] == inst;
    assert Steps(m, final, Here(f, s, turns), 1) == Step(m, final, Here(f, s, turns)) by {
      assert Steps(m, final, Step(m, final, Here(f, s, turns)), 0) == Step(m, final, Here(f, s, turns));
    }
  }

  lemma OneStep<S>(m: Meaning<S>, final: seq<BasicBlock>, c: Config<S>)
    ensures Steps(m, final, c, 1) == Step(m, final, c)
  {
    assert Steps(m, final, Step(m, final, c), 0) == Step(m, final, c);
  }

  lemma SimulatesBreak<S>(m: Meaning<S>, final: seq<BasicBlock>, f: Flattening, region: nat, at: Position, s: S,
                          turns: map<nat, nat>, fuel: nat)
      returns (n: nat, from: nat, later: map<nat, nat>)
    requires Inv(f) && Encloses(AroundOf(f.frames), region)
    requires Grows(f.Jumped(FrameOf(f.frames, region).after, at).blocks, final)
    ensures Simulates(m, final, Here(f, s, turns), f, f.Jumped(FrameOf(f.frames, region).after, at), Broke(region, s),
                      turns, fuel, n, from, later)
  {
    n, from, later := 1, f.current, turns;
    var frame := FrameOf(f.frames, region);
    assert Waiting(f, frame);
    assert GrowsBlock(f.Jumped(frame.after, at).blocks[frame.after], final[frame.after]);
    TakesJump(m, final, f, frame.after, at, s, turns);
    OneStep(m, final, Here(f, s, turns));
  }

  lemma SimulatesContinue<S>(m: Meaning<S>, final: seq<BasicBlock>, f: Flattening, region: nat, at: Position, s: S,
                             turns: map<nat, nat>, fuel: nat)
      returns (n: nat, from: nat, later: map<nat, nat>)
    requires Inv(f) && Encloses(AroundOf(f.frames), region) && Innermost(AroundOf(f.frames), region).isLoop
    requires Grows(f.Jumped(FrameOf(f.frames, region).top, at).blocks, final)
    ensures Simulates(m, final, Here(f, s, turns), f, f.Jumped(FrameOf(f.frames, region).top, at), Continued(region, s),
                      turns, fuel, n, from, later)
  {
    hide LoopsAround, HeadersOf, Enter;
    n, from, later := 1, f.current, turns;
    var frame := FrameOf(f.frames, region);
    assert Waiting(f, frame);
    HeaderIsAround(f.frames, frame);
    assert GrowsBlock(f.Jumped(frame.top, at).blocks[frame.top], final[frame.top]);
    TakesJump(m, final, f, frame.top, at, s, turns);
    OneStep(m, final, Here(f, s, turns));
  }

  /** A `block`, or one side of an `if`, that was walked from `f1` to `inner`. */
  lemma LeavesRegion<S>(m: Meaning<S>, final: seq<BasicBlock>, start: Config<S>, f: Flattening, f1: Flattening,
                        inner: Flattening, h: Flattening, region: nat, after: nat, at: Position, outcome: Outcome<S>,
                        s: S, turns: map<nat, nat>, fuel: nat, k: nat, n: nat, from: nat, later: map<nat, nat>)
      returns (total: nat)
    requires f.Valid() && f1.Valid() && Inv(inner) && h.Valid()
    requires |f.blocks| <= |f1.blocks| <= |inner.blocks| && |f.blocks| <= after < |inner.blocks|
    requires inner.frames == f1.frames == f.frames + [Frame(region, after, 0)]
    requires Steps(m, final, start, k) == Here(f1, s, turns)
    requires Simulates(m, final, Here(f1, s, turns), f1, inner, outcome, turns, fuel, n, from, later)
    requires Joins(inner, h, after, after, at) && Grows(h.blocks, final) && h.current == after
    ensures Simulates(m, final, start, f, h, AfterRegion(region, outcome), turns, fuel, total, from, later)
  {
    hide Grows, LoopsAround, Steps, Enter, Waiting, HeadersOf;
    total := k + n;
    StepsAdd(m, final, start, k, n);
    AroundPush(f.frames, Frame(region, after, 0));
    if outcome.Fall? {
      JoinsFalling(m, final, inner, h, after, after, at, outcome.s, later);
      StepsAdd(m, final, start, total, 1);
      total := total + 1;
    } else {
      BreaksOut(m, final, start, f, f1, inner, h, Frame(region, after, 0), outcome, turns, fuel, total, from, later);
    }
  }

  /** Falling off the end of a list goes to the block its jump names. */
  lemma JoinsFalling<S>(m: Meaning<S>, final: seq<BasicBlock>, inner: Flattening, h: Flattening, target: nat, after: nat,
                        at: Position, s: S, turns: map<nat, nat>)
    requires Inv(inner) && h.Valid() && target < |inner.blocks| && inner.Falls()
    requires Joins(inner, h, target, after, at) && Grows(h.blocks, final) && h.blocks[target].parameters == []
    ensures Steps(m, final, Here(inner, s, turns), 1) == Enter(final, inner.current, target, s, turns)
    ensures inner.current < |final|
    ensures LoopsAround(final, final[inner.current].loop) == LoopsAround(inner.blocks, inner.loop)
    ensures target == after ==> Enter(final, inner.current, target, s, turns) == At(after, 0, s, turns)
  {
    GrowsTransitive(inner.Jumped(target, at).blocks, h.blocks, final);
    assert GrowsBlock(h.blocks[target], final[target]);
    TakesJump(m, final, inner, target, at, s, turns);
    OneStep(m, final, Here(inner, s, turns));
  }

  /** Leaving a region any other way than off its end. */
  lemma BreaksOut<S>(m: Meaning<S>, final: seq<BasicBlock>, start: Config<S>, f: Flattening, f1: Flattening,
                     inner: Flattening, h: Flattening, frame: Frame, outcome: Outcome<S>,
                     turns: map<nat, nat>, fuel: nat, n: nat, from: nat, later: map<nat, nat>)
    requires f.Valid() && f1.Valid() && inner.Valid() && h.Valid()
    requires |f.blocks| <= |f1.blocks| <= |inner.blocks| && |inner.blocks| <= |h.blocks|
    requires frame.after < |inner.blocks|
    requires f1.frames == f.frames + [frame]
    requires Simulates(m, final, start, f1, inner, outcome, turns, fuel, n, from, later)
    requires !outcome.Fall? && !(outcome.Continued? && outcome.region == frame.region && frame.top != 0)
    requires forall b {:trigger h.jumpsTo[b]} :: 0 <= b < |inner.blocks| ==> inner.jumpsTo[b] <= h.jumpsTo[b]
    requires h.current == frame.after && h.blocks[frame.after].insts == []
    ensures Simulates(m, final, start, f, h, AfterRegion(frame.region, outcome), turns, fuel, n, from, later)
  {
    AroundPush(f.frames, frame);
    assert f1.frames[..|f.frames|] == f.frames;
    if (outcome.Broke? || outcome.Continued?) && outcome.region != frame.region {
      StepOut(f1.frames, outcome.region);
    }
  }

  lemma {:induction false} SimulatesBlock<S>(m: Meaning<S>, final: seq<BasicBlock>, f: Flattening, code: Code, s: S,
                                             turns: map<nat, nat>, fuel: nat)
      returns (n: nat, from: nat, later: map<nat, nat>)
    requires code.Block? && Inv(f) && f.Falls() && WellScoped(code, AroundOf(f.frames))
    requires Grows(AcrossBlock(f, code).blocks, final)
    ensures Simulates(m, final, Here(f, s, turns), f, AcrossBlock(f, code), ExecHead(m, code, s, fuel), turns, fuel, n, from, later)
    decreases fuel, code, 3
  {
    hide OutOf, FlattenCode, LoopsAround;
    var after := |f.blocks|;
    var f1, inner, h := IntoBlock(f, code.region), InBlock(f, code), AcrossBlock(f, code);
    BlockKeeps(f, code);
    IntoBlockKeeps(f, code.region);
    FlattenCodeKeeps(f1, code.body);
    GrowsTransitive(inner.blocks, h.blocks, final);
    OutOfJoins(inner, after, after, f.loop, code.at);
    n, from, later := SimulatesCode(m, final, f1, code.body, s, turns, fuel);
    n := LeavesRegion(m, final, Here(f, s, turns), f, f1, inner, h, code.region, after, code.at,
                      Exec(m, code.body, s, fuel), s, turns, fuel, 0, n, from, later);
  }

  /** The branch an `if` writes. */
  lemma TakesBranch<S>(m: Meaning<S>, final: seq<BasicBlock>, f: Flattening, code: Code, s: S, turns: map<nat, nat>)
    requires code.If? && Inv(f)
    requires var g := IntoIf(f, code.region, code.condition, code.hasElse, code.at); Grows(g.blocks, final)
    ensures Step(m, final, Here(f, s, turns))
         == At(if m.value(code.condition, s) != 0 then |f.blocks| else |f.blocks| + 1, 0, s, turns)
  {
    var g := IntoIf(f, code.region, code.condition, code.hasElse, code.at);
    var insts := f.blocks[f.current].insts;
    assert GrowsBlock(g.blocks[f.current], final[f.current]);
    assert g.blocks[f.current].insts[|insts|] == CondBr(code.condition, |f.blocks|, |f.blocks| + 1, code.at);
    assert GrowsBlock(g.blocks[|f.blocks|], final[|f.blocks|]);
    assert GrowsBlock(g.blocks[|f.blocks| + 1], final[|f.blocks| + 1]);
  }

  lemma {:induction false} SimulatesIf<S>(m: Meaning<S>, final: seq<BasicBlock>, f: Flattening, code: Code, s: S,
                                          turns: map<nat, nat>, fuel: nat)
      returns (n: nat, from: nat, later: map<nat, nat>)
    requires code.If? && Inv(f) && f.Falls() && WellScoped(code, AroundOf(f.frames))
    requires Grows(AcrossIf(f, code).blocks, final)
    ensures Simulates(m, final, Here(f, s, turns), f, AcrossIf(f, code), ExecHead(m, code, s, fuel), turns, fuel, n, from, later)
    decreases fuel, code, 3
  {
    IfJoins(f, code);
    n, from, later := SimulatesSides(m, final, f, IntoIf(f, code.region, code.condition, code.hasElse, code.at),
                                     FirstSide(f, code), if code.hasElse then SecondSide(f, code) else FirstSide(f, code),
                                     BothSides(f, code), AcrossIf(f, code), code, s, turns, fuel);
  }

  /** An `if` entered at `f1`, its first side walked to `first`, its second from `second` to
      `sides`, and left at `h`. */
  ghost predicate IfShape(f: Flattening, f1: Flattening, first: Flattening, second: Flattening, sides: Flattening,
                          h: Flattening, code: Code)
    requires code.If?
  {
    var after := AfterIf(f, code.hasElse);
    && Inv(f1) && Inv(first) && Inv(sides) && h.Valid()
    && |f.blocks| <= |f1.blocks| <= |first.blocks| <= |sides.blocks| && after < |f1.blocks|
    && f1.frames == first.frames == sides.frames == f.frames + [Frame(code.region, after, 0)]
    && f1.current == |f.blocks| && f1.blocks[f1.current].insts == [] && f1.Falls()
    && Grows(f1.blocks, h.blocks) && Joins(first, h, after, after, code.at) && Joins(sides, h, after, after, code.at)
    && h.current == after
    && WellScoped(code.chosen, AroundOf(f1.frames)) && first == FlattenCode(f1, code.chosen)
    && if code.hasElse then
         && Inv(second) && second.frames == f1.frames && |f1.blocks| <= |second.blocks| <= |sides.blocks|
         && second.current == |f.blocks| + 1 && second.blocks[second.current].insts == [] && second.Falls()
         && WellScoped(code.otherwise, AroundOf(second.frames)) && sides == FlattenCode(second, code.otherwise)
       else
         h.Falls()
  }

  lemma {:induction false} SimulatesSides<S>(m: Meaning<S>, final: seq<BasicBlock>, f: Flattening, f1: Flattening, first: Flattening,
                                             second: Flattening, sides: Flattening, h: Flattening, code: Code, s: S,
                                             turns: map<nat, nat>, fuel: nat)
      returns (n: nat, from: nat, later: map<nat, nat>)
    requires code.If? && Inv(f)
    requires f1 == IntoIf(f, code.region, code.condition, code.hasElse, code.at)
    requires IfShape(f, f1, first, second, sides, h, code) && Grows(h.blocks, final)
    ensures Simulates(m, final, Here(f, s, turns), f, h, ExecHead(m, code, s, fuel), turns, fuel, n, from, later)
    decreases fuel, code, 2
  {
    hide FlattenCode, Grows, Waiting, WellScoped, LoopsAround, HeadersOf, IntoIf;
    var after := AfterIf(f, code.hasElse);
    GrowsTransitive(f1.blocks, h.blocks, final);
    TakesBranch(m, final, f, code, s, turns);
    OneStep(m, final, Here(f, s, turns));
    if m.value(code.condition, s) != 0 {
      n, from, later := SimulatesSide(m, final, f, f1, first, h, code, code.chosen, s, turns, fuel);
    } else if code.hasElse {
      n, from, later := SimulatesSide(m, final, f, second, sides, h, code, code.otherwise, s, turns, fuel);
    } else {
      n, from, later := 1, 0, turns;
    }
  }

  /** One side of an `if`, once its branch was taken. */
  lemma {:induction false} SimulatesSide<S>(m: Meaning<S>, final: seq<BasicBlock>, f: Flattening, f1: Flattening, inner: Flattening,
                                            h: Flattening, code: Code, side: Code, s: S, turns: map<nat, nat>, fuel: nat)
      returns (n: nat, from: nat, later: map<nat, nat>)
    requires code.If? && side < code && f.Valid() && Inv(f1) && Inv(inner) && h.Valid() && f1.Falls()
    requires |f.blocks| <= |f1.blocks| <= |inner.blocks| && AfterIf(f, code.hasElse) < |inner.blocks|
    requires f1.frames == f.frames + [Frame(code.region, AfterIf(f, code.hasElse), 0)]
    requires WellScoped(side, AroundOf(f1.frames)) && inner == FlattenCode(f1, side)
    requires Joins(inner, h, AfterIf(f, code.hasElse), AfterIf(f, code.hasElse), code.at) && h.current == AfterIf(f, code.hasElse)
    requires Grows(h.blocks, final)
    requires Steps(m, final, Here(f, s, turns), 1) == Here(f1, s, turns)
    ensures Simulates(m, final, Here(f, s, turns), f, h, AfterRegion(code.region, Exec(m, side, s, fuel)), turns, fuel, n, from, later)
    decreases fuel, code, 1
  {
    var after := AfterIf(f, code.hasElse);
    GrowsTransitive(inner.blocks, h.blocks, final);
    n, from, later := SimulatesCode(m, final, f1, side, s, turns, fuel);
    n := LeavesRegion(m, final, Here(f, s, turns), f, f1, inner, h, code.region, after, code.at,
                      Exec(m, side, s, fuel), s, turns, fuel, 1, n, from, later);
  }

  lemma IfJoins(f: Flattening, code: Code)
    requires code.If? && Inv(f) && WellScoped(code, AroundOf(f.frames))
    ensures IfShape(f, IntoIf(f, code.region, code.condition, code.hasElse, code.at), FirstSide(f, code),
                    if code.hasElse then SecondSide(f, code) else FirstSide(f, code), BothSides(f, code), AcrossIf(f, code), code)
  {
    hide OutOf, FlattenCode, WellScoped, LoopsAround, HeadersOf, Waiting, IntoElse, IntoIf;
    var after := AfterIf(f, code.hasElse);
    IntoIfStarts(f, code);
    var f1, h := IntoIf(f, code.region, code.condition, code.hasElse, code.at), AcrossIf(f, code);
    var first, sides := FirstSide(f, code), BothSides(f, code);
    FirstSideKeeps(f, code);
    IntoIfKeeps(f, code.region, code.condition, code.hasElse, code.at);
    IfKeeps(f, code);
    ExtendsGrows(f1, first);
    if code.hasElse {
      SecondSideStarts(f, code);
      SecondSideJoins(f, code);
    } else {
      OutOfJoins(sides, after, after, f.loop, code.at);
      GrowsTransitive(f1.blocks, first.blocks, h.blocks);
    }
  }

  /** The branch names both blocks an `if` may go on in. */
  lemma IntoIfStarts(f: Flattening, code: Code)
    requires code.If? && Inv(f)
    ensures var f1 := IntoIf(f, code.region, code.condition, code.hasElse, code.at);
            && f1.current == |f.blocks| && f1.blocks[f1.current].insts == [] && f1.Falls()
            && 0 < f1.jumpsTo[|f.blocks| + 1]
  {
  }

  /** The `else` is gone on in, since the branch names it. */
  lemma SecondSideStarts(f: Flattening, code: Code)
    requires code.If? && code.hasElse && Inv(f) && WellScoped(code, AroundOf(f.frames))
    ensures var second := SecondSide(f, code);
            && Inv(second) && second.current == |f.blocks| + 1 && second.blocks[second.current].insts == [] && second.Falls()
    ensures var first := FirstSide(f, code);
            first.current != |f.blocks| + 1 && first.blocks[|f.blocks| + 1].insts == [] && !first.blocks[|f.blocks| + 1].header
  {
    hide OutOf, FlattenCode, WellScoped, LoopsAround, HeadersOf, Waiting;
    var f1, first := IntoIf(f, code.region, code.condition, true, code.at), FirstSide(f, code);
    FirstSideKeeps(f, code);
    SecondSideKeeps(f, code);
    IntoIfKeeps(f, code.region, code.condition, true, code.at);
    assert 0 < f1.jumpsTo[|f.blocks| + 1] <= first.jumpsTo[|f.blocks| + 1];
  }

  /** Out of the `else`. */
  lemma ElseLeaves(f: Flattening, code: Code)
    requires code.If? && code.hasElse && Inv(f) && WellScoped(code, AroundOf(f.frames))
    ensures var h, second, after := AcrossIf(f, code), SecondSide(f, code), AfterIf(f, true);
            && Joins(BothSides(f, code), h, after, after, code.at) && Grows(second.blocks, h.blocks)
            && |second.blocks| <= |BothSides(f, code).blocks|
            && (forall b {:trigger h.jumpsTo[b]} :: 0 <= b < |second.blocks| ==> second.jumpsTo[b] <= h.jumpsTo[b])
  {
    hide OutOf, FlattenCode, WellScoped, LoopsAround, Waiting, IntoElse, IntoIf;
    var after, second, sides := AfterIf(f, true), SecondSide(f, code), BothSides(f, code);
    SecondSideKeeps(f, code);
    SecondSideStarts(f, code);
    FlattenCodeKeeps(second, code.otherwise);
    ExtendsGrows(second, sides);
    OutOfJoins(sides, after, after, f.loop, code.at);
    GrowsTransitive(second.blocks, sides.blocks, AcrossIf(f, code).blocks);
  }

  lemma SecondSideJoins(f: Flattening, code: Code)
    requires code.If? && code.hasElse && Inv(f) && WellScoped(code, AroundOf(f.frames))
    ensures var h, after := AcrossIf(f, code), AfterIf(f, true);
            && Joins(FirstSide(f, code), h, after, after, code.at) && Joins(BothSides(f, code), h, after, after, code.at)
            && Grows(IntoIf(f, code.region, code.condition, code.hasElse, code.at).blocks, h.blocks)
            && |FirstSide(f, code).blocks| <= |BothSides(f, code).blocks|
  {
    hide FlattenCode, WellScoped, LoopsAround, HeadersOf, Waiting, IntoElse, IntoIf, Grows, Extends, OutOf;
    var after := AfterIf(f, true);
    var f1, h := IntoIf(f, code.region, code.condition, true, code.at), AcrossIf(f, code);
    var first := FirstSide(f, code);
    FirstSideKeeps(f, code);
    SecondSideStarts(f, code);
    IntoIfKeeps(f, code.region, code.condition, true, code.at);
    ElseLeaves(f, code);
    ElseJoins(first, |f.blocks| + 1, after, code.at, h);
    ExtendsGrows(f1, first);
    GrowsTransitive(f1.blocks, first.blocks, h.blocks);
  }

  lemma {:induction false} SimulatesLoop<S>(m: Meaning<S>, final: seq<BasicBlock>, f: Flattening, code: Code, s: S,
                                            turns: map<nat, nat>, fuel: nat)
      returns (n: nat, from: nat, later: map<nat, nat>)
    requires code.Loop? && Inv(f) && f.Falls() && WellScoped(code, AroundOf(f.frames))
    requires Grows(AcrossLoop(f, code).blocks, final)
    ensures Simulates(m, final, Here(f, s, turns), f, AcrossLoop(f, code), ExecHead(m, code, s, fuel), turns, fuel, n, from, later)
    decreases fuel, code, 3
  {
    hide FlattenCode, Grows, IntoLoop, OutOf, WellScoped;
    var top := |f.blocks|;
    var f1, inner, h := IntoLoop(f, code.region, code.bound, code.at), InLoop(f, code), AcrossLoop(f, code);
    LoopJoins(f, code);
    GrowsTransitive(f1.blocks, h.blocks, final);
    IntoLoopJumps(m, final, f, code, s, turns);
    n, from, later := SimulatesRounds(m, final, f, f1, inner, h, code, 0, s, turns[top := 0], fuel);
    OneStep(m, final, Here(f, s, turns));
    AndThen(m, final, Here(f, s, turns), f, f, h, At(top, 0, s, turns[top := 0]), ExecLoop(m, code.region, code.bound, code.body, 0, s, fuel),
            turns, turns[top := 0], fuel, fuel, 1, n, from, later);
    n := 1 + n;
  }

  /** Coming to a loop from outside it: its header has turned no times. */
  lemma IntoLoopJumps<S>(m: Meaning<S>, final: seq<BasicBlock>, f: Flattening, code: Code, s: S, turns: map<nat, nat>)
    requires code.Loop? && Inv(f) && Grows(IntoLoop(f, code.region, code.bound, code.at).blocks, final)
    ensures Step(m, final, Here(f, s, turns)) == At(|f.blocks|, 0, s, turns[|f.blocks| := 0])
  {
    var top := |f.blocks|;
    var f1 := IntoLoop(f, code.region, code.bound, code.at);
    var insts := f.blocks[f.current].insts;
    assert GrowsBlock(f1.blocks[f.current], final[f.current]);
    assert f1.blocks[f.current].insts[|insts|] == Br(top, [], code.at);
    assert GrowsBlock(f1.blocks[top], final[top]);
    IntoLoopKeeps(f, code.region, code.bound, code.at);
    ExtendsGrows(f, f1);
    GrowsTransitive(f.blocks, f1.blocks, final);
    SameLoopsAround(f.blocks, final, f.loop);
    LoopsAreBelow(f.blocks, f.loop);
  }

  lemma {:induction false} LoopsAreBelow(blocks: seq<BasicBlock>, loop: nat)
    ensures forall header <- LoopsAround(blocks, loop) :: header < |blocks|
    decreases loop
  {
    if loop != 0 && loop < |blocks| && blocks[loop].outer < loop {
      LoopsAreBelow(blocks, blocks[loop].outer);
    }
  }

  /** A loop entered at `f1`, its body walked to `inner`, and left at `h`. */
  ghost predicate LoopShape(f: Flattening, f1: Flattening, inner: Flattening, h: Flattening, code: Code)
    requires code.Loop?
  {
    var top, after := |f.blocks|, |f.blocks| + 1;
    && f.Valid() && Inv(f1) && Inv(inner) && h.Valid()
    && |f.blocks| <= |f1.blocks| <= |inner.blocks| && after < |f1.blocks|
    && f1.frames == inner.frames == f.frames + [Frame(code.region, after, top)]
    && f1.current == top && f1.blocks[top].insts == [] && f1.Falls()
    && Joins(inner, h, top, after, code.at) && h.current == after
    && h.blocks[top].header && h.blocks[top].bound == code.bound && h.blocks[top].parameters == []
    && top in LoopsAround(inner.blocks, inner.loop)
    && WellScoped(code.body, AroundOf(f1.frames)) && inner == FlattenCode(f1, code.body)
  }

  lemma LoopJoins(f: Flattening, code: Code)
    requires code.Loop? && Inv(f) && WellScoped(code, AroundOf(f.frames))
    ensures LoopShape(f, IntoLoop(f, code.region, code.bound, code.at), InLoop(f, code), AcrossLoop(f, code), code)
    ensures Grows(IntoLoop(f, code.region, code.bound, code.at).blocks, AcrossLoop(f, code).blocks)
  {
    hide IntoLoop, OutOf, FlattenCode, WellScoped, Extends, Grows, Joins, LoopShape, Waiting, LoopsAround, HeadersOf;
    var top, after := |f.blocks|, |f.blocks| + 1;
    var f1, inner := IntoLoop(f, code.region, code.bound, code.at), InLoop(f, code);
    LoopKeeps(f, code);
    IntoLoopKeeps(f, code.region, code.bound, code.at);
    IntoLoopShape(f, code.region, code.bound, code.at);
    FlattenCodeKeeps(f1, code.body);
    OutOfJoins(inner, top, after, f.loop, code.at);
    LoopHasShape(f, f1, inner, AcrossLoop(f, code), code);
  }

  lemma IntoLoopShape(f: Flattening, region: nat, bound: U32, at: Position)
    requires Inv(f)
    ensures var g, top := IntoLoop(f, region, bound, at), |f.blocks|;
            && g.current == top && g.blocks[top] == BasicBlock([], [], true, bound, top, f.loop)
            && g.blocks[top + 1] == BasicBlock([], [], false, NO_BOUND, f.loop, 0) && g.Falls()
  {
  }

  lemma LoopHasShape(f: Flattening, f1: Flattening, inner: Flattening, h: Flattening, code: Code)
    requires code.Loop? && f.Valid() && Inv(f1) && Inv(inner) && h.Valid() && Extends(f1, inner)
    requires var top := |f.blocks|;
             && |f1.blocks| == top + 2 && f1.current == top && f1.Falls()
             && f1.blocks[top] == BasicBlock([], [], true, code.bound, top, f.loop)
             && f1.frames == inner.frames == f.frames + [Frame(code.region, top + 1, top)]
             && Joins(inner, h, top, top + 1, code.at) && h.current == top + 1
    requires 0 < |f.blocks|
    requires WellScoped(code.body, AroundOf(f1.frames)) && inner == FlattenCode(f1, code.body)
    ensures LoopShape(f, f1, inner, h, code) && Grows(f1.blocks, h.blocks)
  {
    var top := |f.blocks|;
    ExtendsGrows(f1, inner);
    GrowsTransitive(f1.blocks, inner.blocks, h.blocks);
    assert GrowsBlock(f1.blocks[top], h.blocks[top]);
    var frame := Frame(code.region, top + 1, top);
    assert inner.frames[|f.frames|] == frame;
    HeaderIsAround(inner.frames, frame);
    assert Waiting(inner, frame);
  }

  /** From a loop's header, having gone round `rounds` times. */
  lemma {:induction false} SimulatesRounds<S>(m: Meaning<S>, final: seq<BasicBlock>, f: Flattening, f1: Flattening, inner: Flattening,
                                              h: Flattening, code: Code, rounds: nat, s: S, turns: map<nat, nat>, fuel: nat)
      returns (n: nat, from: nat, later: map<nat, nat>)
    requires code.Loop? && LoopShape(f, f1, inner, h, code) && Grows(h.blocks, final)
    requires TurnsOf(turns, |f.blocks|) == rounds % TURN_LIMIT && (code.bound != NO_BOUND ==> rounds <= code.bound)
    ensures Simulates(m, final, At(|f.blocks|, 0, s, turns), f, h, ExecLoop(m, code.region, code.bound, code.body, rounds, s, fuel),
                      turns, fuel, n, from, later)
    decreases fuel, code, 2
  {
    hide FlattenCode, WellScoped, Waiting, Grows, LoopsAround, HeadersOf, Steps;
    var top, after := |f.blocks|, |f.blocks| + 1;
    var start := At(top, 0, s, turns);
    GrowsTransitive(inner.blocks, h.blocks, final);
    n, from, later := SimulatesCode(m, final, f1, code.body, s, turns, fuel);
    var once := Exec(m, code.body, s, fuel);
    if GoesRound(code.region, once) {
      n := GoesToHeader(m, final, f, f1, inner, h, code, once, rounds, s, turns, fuel, n, from, later);
      if !(code.bound != NO_BOUND && rounds + 1 > code.bound) && fuel != 0 {
        var k, between := n, later[top := (rounds + 1) % TURN_LIMIT];
        n, from, later := SimulatesRounds(m, final, f, f1, inner, h, code, rounds + 1, once.s, between, fuel - 1);
        AndThen(m, final, start, f, f, h, At(top, 0, once.s, between), ExecLoop(m, code.region, code.bound, code.body, rounds + 1, once.s, fuel - 1),
                turns, between, fuel, fuel - 1, k, n, from, later);
        n := k + n;
      }
    } else {
      BreaksOut(m, final, start, f, f1, inner, h, Frame(code.region, after, top), once, turns, fuel, n, from, later);
    }
  }

  /** The end of a round, or a `continue`, comes to the header from inside: it counts a turn, and
      a turn past the bound ends the run. */
  lemma GoesToHeader<S>(m: Meaning<S>, final: seq<BasicBlock>, f: Flattening, f1: Flattening, inner: Flattening, h: Flattening,
                        code: Code, once: Outcome<S>, rounds: nat, s: S, turns: map<nat, nat>, fuel: nat,
                        n: nat, from: nat, later: map<nat, nat>)
      returns (total: nat)
    requires code.Loop? && LoopShape(f, f1, inner, h, code) && Grows(h.blocks, final)
    requires TurnsOf(turns, |f.blocks|) == rounds % TURN_LIMIT && (code.bound != NO_BOUND ==> rounds <= code.bound)
    requires GoesRound(code.region, once)
    requires Simulates(m, final, At(|f.blocks|, 0, s, turns), f1, inner, once, turns, fuel, n, from, later)
    ensures 0 < total && SameTurns(f, turns, later[|f.blocks| := (rounds + 1) % TURN_LIMIT])
    ensures Steps(m, final, At(|f.blocks|, 0, s, turns), total) ==
            if code.bound != NO_BOUND && rounds + 1 > code.bound then Done(Exceeded(code.bound, once.s))
            else At(|f.blocks|, 0, once.s, later[|f.blocks| := (rounds + 1) % TURN_LIMIT])
  {
    hide Grows, FlattenCode, WellScoped, Enter, Waiting, HeadersOf, Steps;
    var top := |f.blocks|;
    var start := At(top, 0, s, turns);
    total := n;
    TurnsKept(f, turns, later, top, (rounds + 1) % TURN_LIMIT);
    assert TurnsOf(later, top) == TurnsOf(turns, top);
    if once.Fall? {
      JoinsFalling(m, final, inner, h, top, top + 1, code.at, once.s, later);
      StepsAdd(m, final, start, n, 1);
      total := n + 1;
      CountsATurn(final, h, code, inner.current, top, rounds, once.s, later);
    } else {
      var frame := Frame(code.region, top + 1, top);
      AroundPush(f.frames, frame);
      assert f1.frames[|f.frames|] == frame;
      CountsATurn(final, h, code, from, top, rounds, once.s, later);
    }
  }

  lemma CountsATurn<S>(final: seq<BasicBlock>, h: Flattening, code: Code, from: nat, top: nat, rounds: nat, s: S, turns: map<nat, nat>)
    requires code.Loop? && top < |h.blocks| && Grows(h.blocks, final)
    requires h.blocks[top].header && h.blocks[top].bound == code.bound
    requires from < |final| && top in LoopsAround(final, final[from].loop)
    requires TurnsOf(turns, top) == rounds % TURN_LIMIT && (code.bound != NO_BOUND ==> rounds <= code.bound)
    ensures Enter(final, from, top, s, turns) ==
            if code.bound != NO_BOUND && rounds + 1 > code.bound then Done(Exceeded(code.bound, s))
            else At(top, 0, s, turns[top := (rounds + 1) % TURN_LIMIT])
  {
    assert GrowsBlock(h.blocks[top], final[top]);
    TurnWraps(rounds);
  }

  lemma TurnWraps(rounds: nat)
    ensures (rounds % TURN_LIMIT + 1) % TURN_LIMIT == (rounds + 1) % TURN_LIMIT
    ensures rounds < NO_BOUND ==> (rounds + 1) % TURN_LIMIT == rounds + 1
  {
  }

  /** Counting a turn of a header made since `f` leaves the ones before alone. */
  lemma TurnsKept(f: Flattening, turns: map<nat, nat>, later: map<nat, nat>, top: nat, turn: nat)
    requires SameTurns(f, turns, later) && |f.blocks| <= top
    ensures SameTurns(f, turns, later[top := turn])
  {
    forall h | 0 <= h < |f.blocks|
      ensures TurnsOf(later[top := turn], h) == TurnsOf(turns, h)
    {
      assert TurnsOf(later, h) == TurnsOf(turns, h);
    }
  }

  /** Falling off the end of the body runs off the end of the function. */
  ghost predicate ComesTo<S>(outcome: Outcome<S>, result: Result<S>) {
    outcome == Ended(result) || (outcome.Fall? && result == RanOff(outcome.s))
  }

  ghost predicate StructuredEnds<S>(m: Meaning<S>, function_: Structured, s: S, result: Result<S>) {
    exists fuel: nat :: ComesTo(Exec(m, function_.body, s, fuel), result)
  }

  ghost predicate CfgEnds<S>(m: Meaning<S>, cfg: Cfg, s: S, result: Result<S>) {
    exists n: nat :: Steps(m, cfg.blocks, Start(cfg.body, s), n) == Done(result)
  }

  /** A CFG's run has one end. */
  lemma EndsOnce<S>(m: Meaning<S>, cfg: Cfg, s: S, result: Result<S>)
    requires CfgEnds(m, cfg, s, result)
    ensures forall other :: CfgEnds(m, cfg, s, other) ==> other == result
  {
    var start := Start(cfg.body, s);
    var n: nat :| Steps(m, cfg.blocks, start, n) == Done(result);
    forall other | CfgEnds(m, cfg, s, other)
      ensures other == result
    {
      var k: nat :| Steps(m, cfg.blocks, start, k) == Done(other);
      OneEnd(m, cfg.blocks, start, n, k);
    }
  }

  /** With any fuel, the CFG gets as far as the structured form does. */
  lemma SimulatesFunction<S>(m: Meaning<S>, function_: Structured, s: S, fuel: nat) returns (n: nat)
    requires Flattenable(function_)
    ensures var outcome, end := Exec(m, function_.body, s, fuel), Steps(m, Flatten(function_).blocks, Start(Flatten(function_).body, s), n);
            if outcome.Unfinished? then end.At? && fuel <= n
            else end.Done? && ComesTo(outcome, end.result)
  {
    var f, g := Begun(function_.parameters), Walked(function_);
    assert AroundOf([]) == [];
    assert Grows(g.blocks, g.blocks);
    assert Here(f, s, map[]) == Start(g.body, s);
    var from, later;
    n, from, later := SimulatesCode(m, g.blocks, f, function_.body, s, map[], fuel);
    var outcome := Exec(m, function_.body, s, fuel);
    if outcome.Fall? {
      StepsAdd(m, g.blocks, Here(f, s, map[]), n, 1);
      OneStep(m, g.blocks, Here(g, outcome.s, later));
      n := n + 1;
    }
  }

  /** A structured function ends a way exactly when its CFG does. */
  lemma FlattenPreserves<S>(m: Meaning<S>, function_: Structured, s: S, result: Result<S>)
    requires Flattenable(function_)
    ensures StructuredEnds(m, function_, s, result) <==> CfgEnds(m, Flatten(function_), s, result)
  {
    var cfg := Flatten(function_);
    var start := Start(cfg.body, s);
    if StructuredEnds(m, function_, s, result) {
      var fuel: nat :| ComesTo(Exec(m, function_.body, s, fuel), result);
      var n := SimulatesFunction(m, function_, s, fuel);
      assert Steps(m, cfg.blocks, start, n) == Done(result);
    }
    if CfgEnds(m, cfg, s, result) {
      var k: nat :| Steps(m, cfg.blocks, start, k) == Done(result);
      var n := SimulatesFunction(m, function_, s, k + 1);
      OneEnd(m, cfg.blocks, start, k, n);
      assert ComesTo(Exec(m, function_.body, s, k + 1), result);
    }
  }

  ghost predicate AlwaysUnfinished<S>(m: Meaning<S>, function_: Structured, s: S) {
    forall fuel: nat :: Exec(m, function_.body, s, fuel).Unfinished?
  }

  ghost predicate RunsForEver<S>(m: Meaning<S>, cfg: Cfg, s: S) {
    forall n: nat :: Steps(m, cfg.blocks, Start(cfg.body, s), n).At?
  }

  /** So one of them runs for ever exactly when the other does: a structured function that is
      unfinished whatever the fuel, and a CFG still running after any number of steps. */
  lemma FlattenPreservesDivergence<S>(m: Meaning<S>, function_: Structured, s: S)
    requires Flattenable(function_)
    ensures AlwaysUnfinished(m, function_, s) <==> RunsForEver(m, Flatten(function_), s)
  {
    var cfg := Flatten(function_);
    var start := Start(cfg.body, s);
    if fuel: nat :| !Exec(m, function_.body, s, fuel).Unfinished? {
      var n := SimulatesFunction(m, function_, s, fuel);
      assert !Steps(m, cfg.blocks, start, n).At?;
    } else if k: nat :| !Steps(m, cfg.blocks, start, k).At? {
      var n := SimulatesFunction(m, function_, s, k + 1);
      OneEnd(m, cfg.blocks, start, k, n);
      assert !Exec(m, function_.body, s, k + 1).Unfinished?;
    }
  }
}
