/** Real-time code ends.

    In real-time code the verifier asks for a bound on every loop. `RealTimeFunctionsEnd`: a
    structured function it reports nothing about ends, whatever its instructions do, and so does its
    CFG. Of a CFG the verifier asks it of headers only, and not that every way back is to a header:
    `RealTimeCfgsEnd` is that an accepted one ends if every way back in its order is, and
    `UncountedIsAccepted` one that is accepted, has another way back, and runs for ever.
  */
module RealTime {
  import opened Ir
  import opened Interpreter
  import opened StructuredMeaning
  import opened Flattener
  import opened FlattenerMeaning
  import opened FlattenerScope
  import opened Verifier
  import opened VerifierSoundness

  // ----- The structured form -----

  /** How often the loops of a list go round, at most, on the way down. */
  function MostTurns(code: Code): nat {
    match code
    case End => 0
    case Plain(_, next) => MostTurns(next)
    case Block(_, body, _, next) => MostTurns(body) + MostTurns(next)
    case If(_, _, chosen, _, otherwise, _, next) => MostTurns(chosen) + MostTurns(otherwise) + MostTurns(next)
    case Loop(_, bound, body, _, next) => bound + MostTurns(body) + MostTurns(next)
    case Break(_, _, next) => MostTurns(next)
    case Continue(_, _, next) => MostTurns(next)
  }

  lemma {:induction false} BoundedEnds<S>(m: Meaning<S>, code: Code, visible: set<nat>, s: S, fuel: nat)
    requires Verified(code, visible, true) && MostTurns(code) <= fuel
    ensures !Exec(m, code, s, fuel).Unfinished?
    decreases fuel, code, 2
  {
    if code != End {
      BoundedHeadEnds(m, code, visible, s, fuel);
      var head := ExecHead(m, code, s, fuel);
      if head.Fall? {
        BoundedEnds(m, code.next, SeenAfter(code, visible), head.s, fuel);
      }
    }
  }

  lemma {:induction false} BoundedHeadEnds<S>(m: Meaning<S>, code: Code, visible: set<nat>, s: S, fuel: nat)
    requires code != End && VerifiedHead(code, visible, true) && MostTurns(code) - MostTurns(code.next) <= fuel
    ensures !ExecHead(m, code, s, fuel).Unfinished?
    decreases fuel, code, 1
  {
    match code
    case Block(_, body, _, _) => BoundedEnds(m, body, visible, s, fuel);
    case If(_, _, chosen, hasElse, otherwise, _, _) =>
      BoundedEnds(m, chosen, visible, s, fuel);
      if hasElse {
        BoundedEnds(m, otherwise, visible, s, fuel);
      }
    case Loop(region, bound, body, _, _) => BoundedRoundsEnd(m, region, bound, body, visible, 0, s, fuel);
    case _ =>
  }

  lemma {:induction false} BoundedRoundsEnd<S>(m: Meaning<S>, region: nat, bound: U32, body: Code, visible: set<nat>, turns: nat, s: S, fuel: nat)
    requires bound != NO_BOUND && Verified(body, visible, true) && turns <= bound && bound - turns + MostTurns(body) <= fuel
    ensures !ExecLoop(m, region, bound, body, turns, s, fuel).Unfinished?
    decreases fuel, body, 3
  {
    BoundedEnds(m, body, visible, s, fuel);
    var once := Exec(m, body, s, fuel);
    if GoesRound(region, once) && turns < bound {
      BoundedRoundsEnd(m, region, bound, body, visible, turns + 1, once.s, fuel - 1);
    }
  }

  /** A verified function of real-time code ends, and its CFG does, whatever its instructions do. */
  lemma RealTimeFunctionsEnd<S>(m: Meaning<S>, function_: Structured, s: S)
    requires VerifiedFunction(function_) && function_.realTime
    ensures !AlwaysUnfinished(m, function_, s) && !RunsForEver(m, Flatten(function_), s)
  {
    hide Flatten, RunsForEver;
    BoundedEnds(m, function_.body, Parameters(function_.parameters).Keys, s, MostTurns(function_.body));
    FlattenPreservesDivergence(m, function_, s);
  }

  // ----- The CFG -----

  /** Where a block comes in an order. */
  function PlaceOf(order: seq<nat>, block: nat): (place: nat)
    ensures place <= |order| && (block in order <==> place < |order|)
    ensures place < |order| ==> order[place] == block
  {
    if order == [] then 0 else if order[0] == block then 0 else 1 + PlaceOf(order[1..], block)
  }

  /** Back to the header of a loop the jump is in. */
  predicate GoesRoundTo(cfg: Cfg, from: nat, to: nat)
    requires from < |cfg.blocks| && to < |cfg.blocks|
  {
    cfg.blocks[to].header && to in LoopsAround(cfg.blocks, cfg.blocks[from].loop)
  }

  /** Every jump that does not go on in the order goes back to such a header. */
  predicate CountsEveryWayBack(cfg: Cfg)
    requires InRange(cfg)
  {
    forall from <- cfg.order, to <- cfg.order :: to in Successors(cfg, from) ==>
      PlaceOf(cfg.order, from) < PlaceOf(cfg.order, to) || GoesRoundTo(cfg, from, to)
  }

  /** What is asked of the CFG. */
  ghost predicate Asked(cfg: Cfg) {
    && InRange(cfg) && Accepted(cfg) && cfg.realTime && CountsEveryWayBack(cfg)
  }

  /** Where a block starts. */
  ghost predicate Starts<S>(cfg: Cfg, c: Config<S>) {
    c.At? && c.index == 0 && c.block in cfg.order
  }

  /** A block's instructions end the run, or go into a successor. */
  lemma {:induction false} BlockEnds<S>(m: Meaning<S>, cfg: Cfg, c: Config<S>) returns (n: nat, to: nat, s: S)
    requires InRange(cfg) && Accepted(cfg) && c.At? && c.block in cfg.order
    ensures var d := Steps(m, cfg.blocks, c, n);
            d.Done? || (to in cfg.order && to in Successors(cfg, c.block) && d == Enter(cfg.blocks, c.block, to, s, c.turns))
    decreases |cfg.blocks[c.block].insts| - c.index
  {
    hide Accepted, Enter, Successors, Perform;
    n, to, s := 1, 0, c.s;
    var insts, next := cfg.blocks[c.block].insts, Step(m, cfg.blocks, c);
    assert Steps(m, cfg.blocks, c, 1) == Steps(m, cfg.blocks, next, 0) == next;
    if c.index < |insts| && next.At? {
      if IsTerminator(insts[c.index]) {
        to, s := TerminatorEnters(m, cfg, c);
      } else {
        n, to, s := BlockEnds(m, cfg, next);
        n := n + 1;
      }
    }
  }

  /** The turns a header has left, and one more if it was come to past its bound. */
  function TurnsLeft(cfg: Cfg, block: nat, turns: map<nat, nat>): nat {
    if |cfg.blocks| <= block || !cfg.blocks[block].header then 0
    else if TurnsOf(turns, block) <= cfg.blocks[block].bound then cfg.blocks[block].bound - TurnsOf(turns, block)
    else cfg.blocks[block].bound + 1
  }

  /** The headers before a place, other than one, have turned as often. */
  ghost predicate SameBefore(cfg: Cfg, place: nat, turns: map<nat, nat>, later: map<nat, nat>, but: nat) {
    forall other <- cfg.order :: PlaceOf(cfg.order, other) < place && other != but ==> TurnsOf(later, other) == TurnsOf(turns, other)
  }

  /** Back before a place, to a header with fewer turns left. */
  ghost predicate CameBack(cfg: Cfg, place: nat, turns: map<nat, nat>, block: nat, later: map<nat, nat>) {
    && PlaceOf(cfg.order, block) < place && SameBefore(cfg, place, turns, later, block)
    && TurnsLeft(cfg, block, later) < TurnsLeft(cfg, block, turns)
  }

  /** On to this place or a later one, no header before it having turned. */
  ghost predicate WentOn(cfg: Cfg, place: nat, turns: map<nat, nat>, block: nat, later: map<nat, nat>) {
    && place <= PlaceOf(cfg.order, block) && SameBefore(cfg, place, turns, later, block)
  }

  lemma EntersCounting<S>(cfg: Cfg, from: nat, to: nat, s: S, turns: map<nat, nat>)
    requires Asked(cfg) && from in cfg.order && to in cfg.order && to in Successors(cfg, from)
    ensures var (d, place) := (Enter(cfg.blocks, from, to, s, turns), PlaceOf(cfg.order, from) + 1);
            d.Done? || (Starts(cfg, d) && (WentOn(cfg, place, turns, d.block, d.turns) || CameBack(cfg, place, turns, d.block, d.turns)))
  {
    hide LoopsAround, Accepted, Enter, Successors;
    var d, place := Enter(cfg.blocks, from, to, s, turns), PlaceOf(cfg.order, from) + 1;
    EntersOne(cfg, from, to, s, turns);
    if d.At? && PlaceOf(cfg.order, to) < place {
      assert GoesRoundTo(cfg, from, to);
      HeaderIsBounded(cfg, to);
    }
  }

  lemma EntersOne<S>(cfg: Cfg, from: nat, to: nat, s: S, turns: map<nat, nat>)
    requires from < |cfg.blocks| && to < |cfg.blocks|
    ensures var d := Enter(cfg.blocks, from, to, s, turns);
            d.At? ==>
              && d.block == to && d.index == 0
              && (forall other: nat :: other != to ==> TurnsOf(d.turns, other) == TurnsOf(turns, other))
              && (GoesRoundTo(cfg, from, to) && cfg.blocks[to].bound != NO_BOUND ==> TurnsLeft(cfg, to, d.turns) < TurnsLeft(cfg, to, turns))
  {
    hide LoopsAround;
    var turn := TurnsOf(turns, to);
    if turn <= cfg.blocks[to].bound < NO_BOUND {
      assert (turn + 1) % TURN_LIMIT == turn + 1;
    }
  }

  lemma HeaderIsBounded(cfg: Cfg, block: nat)
    requires InRange(cfg) && Accepted(cfg) && cfg.realTime && block in cfg.order && cfg.blocks[block].header
    ensures cfg.blocks[block].bound != NO_BOUND
  {
    assert AcceptedBlock(cfg, block);
  }

  /** After one block, or back from the places after this one. */
  ghost predicate Progressed(cfg: Cfg, place: nat, turns: map<nat, nat>, block: nat, later: map<nat, nat>) {
    block in cfg.order && (WentOn(cfg, place + 1, turns, block, later) || CameBack(cfg, place + 1, turns, block, later))
  }

  lemma FewerTurnsLeft(cfg: Cfg, place: nat, turns: map<nat, nat>, block: nat, later: map<nat, nat>)
    requires Progressed(cfg, place, turns, block, later) && place <= PlaceOf(cfg.order, block)
    ensures if PlaceOf(cfg.order, block) == place then TurnsLeft(cfg, cfg.order[place], later) < TurnsLeft(cfg, cfg.order[place], turns)
            else TurnsLeft(cfg, cfg.order[place], later) <= TurnsLeft(cfg, cfg.order[place], turns)
  {
    FirstPlace(cfg.order, place);
  }

  lemma {:induction false} FirstPlace(order: seq<nat>, place: nat)
    requires place < |order|
    ensures PlaceOf(order, order[place]) <= place
  {
    if order[0] != order[place] {
      FirstPlace(order[1..], place - 1);
    }
  }

  lemma CameBackThrough(cfg: Cfg, place: nat, turns: map<nat, nat>, between: nat, some: map<nat, nat>, block: nat, later: map<nat, nat>)
    requires Progressed(cfg, place, turns, between, some) && place <= PlaceOf(cfg.order, between)
    requires block in cfg.order && CameBack(cfg, place, some, block, later)
    ensures CameBack(cfg, place, turns, block, later)
  {
  }

  lemma CameBackBefore(cfg: Cfg, place: nat, turns: map<nat, nat>, block: nat, later: map<nat, nat>)
    requires Progressed(cfg, place, turns, block, later) && PlaceOf(cfg.order, block) < place
    ensures CameBack(cfg, place, turns, block, later)
  {
  }

  lemma ComesBefore<S>(cfg: Cfg, place: nat, turns: map<nat, nat>, d: Config<S>)
    requires d.At? && CameBack(cfg, place, turns, d.block, d.turns)
    ensures PlaceOf(cfg.order, d.block) < place
  {
  }

  /** From a block of this place or a later one a run ends, or comes back to an earlier one. */
  lemma {:induction false} LeavesPlaces<S>(m: Meaning<S>, cfg: Cfg, place: nat, c: Config<S>) returns (n: nat)
    requires Asked(cfg) && Starts(cfg, c) && place <= PlaceOf(cfg.order, c.block)
    ensures var d := Steps(m, cfg.blocks, c, n);
            d.Done? || (Starts(cfg, d) && CameBack(cfg, place, c.turns, d.block, d.turns))
    decreases |cfg.order| - place, TurnsLeft(cfg, cfg.order[place], c.turns), if PlaceOf(cfg.order, c.block) == place then 1 else 0
  {
    hide Step, Steps, Accepted, CountsEveryWayBack, Successors, SameBefore, TurnsLeft, CameBack, WentOn;
    if place < PlaceOf(cfg.order, c.block) {
      n := LeavesPlaces(m, cfg, place + 1, c);
      if Steps(m, cfg.blocks, c, n).At? {
        ComesBefore(cfg, place + 1, c.turns, Steps(m, cfg.blocks, c, n));
      }
    } else {
      var to, s;
      n, to, s := BlockEnds(m, cfg, c);
      if Steps(m, cfg.blocks, c, n).At? {
        EntersCounting(cfg, c.block, to, s, c.turns);
      }
    }
    var d := Steps(m, cfg.blocks, c, n);
    if d.At? {
      assert Progressed(cfg, place, c.turns, d.block, d.turns);
      if place <= PlaceOf(cfg.order, d.block) {
        FewerTurnsLeft(cfg, place, c.turns, d.block, d.turns);
        var rest := LeavesPlaces(m, cfg, place, d);
        StepsAdd(m, cfg.blocks, c, n, rest);
        var e := Steps(m, cfg.blocks, d, rest);
        if e.At? {
          CameBackThrough(cfg, place, c.turns, d.block, d.turns, e.block, e.turns);
        }
        n := n + rest;
      } else {
        CameBackBefore(cfg, place, c.turns, d.block, d.turns);
      }
    }
  }

  /** Whatever its instructions do. */
  lemma RealTimeCfgsEnd<S>(m: Meaning<S>, cfg: Cfg, s: S)
    requires Asked(cfg) && Enters(cfg)
    ensures !RunsForEver(m, cfg, s)
  {
    hide Accepted, CountsEveryWayBack, Steps;
    var start: Config<S> := Start(cfg.body, s);
    assert cfg.order[0] in cfg.order;
    var n := LeavesPlaces(m, cfg, 0, start);
    assert !Steps(m, cfg.blocks, start, n).At?;
  }

  /** A block that jumps to itself and is no loop's header. */
  function Uncounted(): Cfg {
    var jump, empty := [Br(2, [], Position(0, 0))], BasicBlock([], [], false, NO_BOUND, 0, 0);
    Cfg([empty, empty.(insts := jump), empty.(insts := jump)], [1, 2], 1, map[], true)
  }

  /** The verifier has nothing to say of it, and it runs for ever. */
  lemma UncountedIsAccepted<S>(m: Meaning<S>, s: S)
    ensures var cfg := Uncounted(); InRange(cfg) && Accepted(cfg) && Enters(cfg) && cfg.realTime
    ensures !CountsEveryWayBack(Uncounted()) && RunsForEver(m, Uncounted(), s)
  {
    var cfg := Uncounted();
    assert LoopsAround(cfg.blocks, 0) == [];
    assert 2 in cfg.order && 2 in Successors(cfg, 2) && !GoesRoundTo(cfg, 2, 2);
    forall n: nat
      ensures Steps(m, cfg.blocks, Start(cfg.body, s), n).At?
    {
      Spinning(m, s, n);
    }
  }

  lemma {:induction false} Spinning<S>(m: Meaning<S>, s: S, n: nat)
    ensures Steps(m, Uncounted().blocks, Start(1, s), n) == if n == 0 then Start(1, s) else At(2, 0, s, map[])
    decreases n
  {
    var blocks := Uncounted().blocks;
    if n == 0 {
    } else {
      Spinning(m, s, n - 1);
      StepsAdd(m, blocks, Start(1, s), n - 1, 1);
      var c := Steps(m, blocks, Start(1, s), n - 1);
      assert Steps(m, blocks, c, 1) == Steps(m, blocks, Step(m, blocks, c), 0) == Step(m, blocks, c);
    }
  }
}
