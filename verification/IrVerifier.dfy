/** The verifier's checks of a CFG, and the dominators they ask for.

    `ComputeDominators` is the textbook iteration over sets; what it leaves is path dominance,
    for every block and exactly. `VerifyCfg` reports nothing exactly when the CFG is `Accepted`.
  */
module Verifier {
  import opened Ir

  function Successors(cfg: Cfg, block: nat): seq<nat> {
    if block < |cfg.blocks| && cfg.blocks[block].insts != []
    then Targets(cfg.blocks[block].insts[|cfg.blocks[block].insts| - 1])
    else []
  }

  /** Every block of the order is one of the function's. */
  predicate InRange(cfg: Cfg) {
    forall block <- cfg.order :: block < |cfg.blocks|
  }

  predicate IsEdge(cfg: Cfg, from: nat, to: nat) {
    from in cfg.order && to in Successors(cfg, from)
  }

  /** A way through the CFG, from the entry. */
  ghost predicate IsPath(cfg: Cfg, path: seq<nat>) {
    && cfg.order != [] && path != [] && path[0] == cfg.order[0]
    && (forall i {:trigger path[i]} :: 0 < i < |path| ==> IsEdge(cfg, path[i - 1], path[i]))
  }

  ghost predicate Leads(cfg: Cfg, path: seq<nat>, block: nat) {
    IsPath(cfg, path) && path[|path| - 1] == block
  }

  /** No way from the entry to `second` misses `first`. */
  ghost predicate Dominates(cfg: Cfg, first: nat, second: nat) {
    forall path :: Leads(cfg, path, second) ==> first in path
  }

  /** The blocks that dominate a block. Nothing leads to an unreachable one, so every block
      does. */
  ghost function DominatorsOf(cfg: Cfg, block: nat): set<nat> {
    set first | first in cfg.order && Dominates(cfg, first, block)
  }

  lemma PathSteps(cfg: Cfg, path: seq<nat>, to: nat)
    requires IsPath(cfg, path) && IsEdge(cfg, path[|path| - 1], to)
    ensures Leads(cfg, path + [to], to)
  {
  }

  lemma PathBefore(cfg: Cfg, path: seq<nat>)
    requires IsPath(cfg, path) && 1 < |path|
    ensures Leads(cfg, path[..|path| - 1], path[|path| - 2]) && IsEdge(cfg, path[|path| - 2], path[|path| - 1])
  {
    assert path[|path| - 1] == path[|path| - 1];
  }

  /** What dominates a block, other than itself, dominates everything it can be come to from. */
  lemma DominatesThrough(cfg: Cfg, first: nat, from: nat, to: nat)
    requires Dominates(cfg, first, to) && first != to && IsEdge(cfg, from, to)
    ensures Dominates(cfg, first, from)
  {
    forall path | Leads(cfg, path, from)
      ensures first in path
    {
      PathSteps(cfg, path, to);
      assert first in path + [to];
    }
  }

  predicate InSet(dominators: seq<set<nat>>, block: nat, first: nat) {
    block < |dominators| && first in dominators[block]
  }

  /** One round's answer for a block: itself, and what every way into it agrees on. */
  predicate Agreed(cfg: Cfg, dominators: seq<set<nat>>, first: nat, block: nat)
    requires InRange(cfg) && |dominators| == |cfg.blocks|
  {
    first == block || forall from <- cfg.order :: IsEdge(cfg, from, block) ==> first in dominators[from]
  }

  /** Sets that have not lost a dominator, and that no round makes larger. */
  ghost predicate Shrinking(cfg: Cfg, dominators: seq<set<nat>>)
    requires InRange(cfg)
  {
    && cfg.order != [] && |dominators| == |cfg.blocks|
    && cfg.order[0] in cfg.order && dominators[cfg.order[0]] == {cfg.order[0]}
    && (forall b, first {:trigger first in dominators[b]} :: b in cfg.order && first in dominators[b] ==> first in cfg.order)
    && (forall b, first {:trigger Dominates(cfg, first, b)} ::
          b in cfg.order && first in cfg.order && Dominates(cfg, first, b) ==> first in dominators[b])
    && (forall b, first {:trigger Agreed(cfg, dominators, first, b)} ::
          b in cfg.order && b != cfg.order[0] && first in cfg.order && Agreed(cfg, dominators, first, b) ==> first in dominators[b])
  }

  /** Sets a round leaves as they are. */
  ghost predicate Settled(cfg: Cfg, dominators: seq<set<nat>>, block: nat)
    requires InRange(cfg) && |dominators| == |cfg.blocks|
  {
    block < |cfg.blocks| &&
    forall first {:trigger Agreed(cfg, dominators, first, block)} :: first in dominators[block] ==> Agreed(cfg, dominators, first, block)
  }

  /** The start: the entry by itself, every other block by all of them. */
  lemma StartShrinks(cfg: Cfg, dominators: seq<set<nat>>, inOrder: set<nat>)
    requires InRange(cfg) && cfg.order != [] && |dominators| == |cfg.blocks|
    requires inOrder == set b | b in cfg.order
    requires forall b :: 0 <= b < |dominators| ==> dominators[b] == if b == cfg.order[0] then {cfg.order[0]} else inOrder
    ensures Shrinking(cfg, dominators)
  {
    var entry := cfg.order[0];
    assert entry in cfg.order;
    forall first | first in cfg.order && Dominates(cfg, first, entry)
      ensures first in dominators[entry]
    {
      assert Leads(cfg, [entry], entry);
      assert first in [entry];
    }
  }

  /** Taking one block's new set keeps all that. */
  lemma RoundShrinks(cfg: Cfg, dominators: seq<set<nat>>, block: nat, next: set<nat>)
    requires InRange(cfg) && Shrinking(cfg, dominators) && block in cfg.order && block != cfg.order[0]
    requires forall first :: first in next <==> first in cfg.order && Agreed(cfg, dominators, first, block)
    ensures next <= dominators[block] && Shrinking(cfg, dominators[block := next])
  {
    hide Dominates, IsEdge, Leads;
    var after := dominators[block := next];
    forall first | first in cfg.order && Dominates(cfg, first, block)
      ensures first in next
    {
      if first != block {
        forall from | from in cfg.order && IsEdge(cfg, from, block)
          ensures first in dominators[from]
        {
          DominatesThrough(cfg, first, from, block);
        }
      }
      assert Agreed(cfg, dominators, first, block);
    }
    forall b, first | b in cfg.order && b != cfg.order[0] && first in cfg.order && Agreed(cfg, after, first, b)
      ensures first in after[b]
    {
      assert Agreed(cfg, dominators, first, b);
    }
    forall b, first | b in cfg.order && first in cfg.order && Dominates(cfg, first, b)
      ensures first in after[b]
    {
    }
  }

  /** What a settled set holds is on every path to its block. */
  lemma {:induction false} SettledIsOnPath(cfg: Cfg, dominators: seq<set<nat>>, first: nat, path: seq<nat>)
    requires InRange(cfg) && Shrinking(cfg, dominators)
    requires forall b <- cfg.order :: b != cfg.order[0] ==> Settled(cfg, dominators, b)
    requires IsPath(cfg, path) && path[|path| - 1] in cfg.order && first in dominators[path[|path| - 1]]
    ensures first in path
    decreases |path|
  {
    var block := path[|path| - 1];
    if block == cfg.order[0] {
      assert first == path[0];
    } else {
      PathBefore(cfg, path);
      assert Agreed(cfg, dominators, first, block);
      if first != block {
        SettledIsOnPath(cfg, dominators, first, path[..|path| - 1]);
      }
    }
  }

  lemma SettledIsDominance(cfg: Cfg, dominators: seq<set<nat>>, block: nat)
    requires InRange(cfg) && Shrinking(cfg, dominators) && block in cfg.order
    requires forall b <- cfg.order :: b != cfg.order[0] ==> Settled(cfg, dominators, b)
    ensures dominators[block] == DominatorsOf(cfg, block)
  {
    forall first | first in dominators[block]
      ensures Dominates(cfg, first, block)
    {
      forall path | Leads(cfg, path, block)
        ensures first in path
      {
        SettledIsOnPath(cfg, dominators, first, path);
      }
    }
  }

  /** How many dominators the sets hold: a round that changes one takes some away. */
  ghost function Total(dominators: seq<set<nat>>): nat {
    if dominators == [] then 0 else |dominators[0]| + Total(dominators[1..])
  }

  lemma {:induction false} TotalFalls(dominators: seq<set<nat>>, block: nat, next: set<nat>)
    requires block < |dominators| && next < dominators[block]
    ensures Total(dominators[block := next]) < Total(dominators)
  {
    if block == 0 {
      SmallerSet(next, dominators[0]);
      assert dominators[0 := next][1..] == dominators[1..];
    } else {
      TotalFalls(dominators[1..], block - 1, next);
      assert dominators[block := next][1..] == dominators[1..][block - 1 := next];
    }
  }

  lemma SmallerSet(small: set<nat>, large: set<nat>)
    requires small < large
    ensures |small| < |large|
  {
    var one :| one in large && one !in small;
    SubsetSize(small, large - {one});
  }

  lemma {:induction false} SubsetSize(small: set<nat>, large: set<nat>)
    requires small <= large
    ensures |small| <= |large|
  {
    if one :| one in small {
      SubsetSize(small - {one}, large - {one});
    }
  }

  /** The checks of one CFG instruction: a place in the source, no region's opcode, nothing after a
      terminator, the operands looked at visible where they are read, and jumps to blocks there
      are, with the arguments they take. */
  ghost predicate AcceptedInst(cfg: Cfg, block: nat, index: nat)
    requires InRange(cfg) && block in cfg.order && index < |cfg.blocks[block].insts|
  {
    var inst := cfg.blocks[block].insts[index];
    && inst.at.offset != NO_OFFSET && !inst.Region? && HasReceiver(inst)
    && (IsTerminator(inst) ==> index == |cfg.blocks[block].insts| - 1)
    && (forall value <- Checked(inst) :: IsVisible(cfg, DominatorsOf(cfg, block), value, block, index))
    && AcceptedTargets(cfg, inst)
  }

  predicate AcceptedTargets(cfg: Cfg, inst: Inst)
    requires InRange(cfg)
  {
    forall target <- Targets(inst) :: AcceptedTarget(cfg, inst, target)
  }

  /** A CFG asks the dominator tree: `dominators` are the block's. */
  predicate IsVisible(cfg: Cfg, dominators: set<nat>, value: nat, block: nat, index: nat) {
    && value != 0 && value in cfg.values
    && match cfg.values[value]
       case Parameter => true
       case BlockParameter(owner) => owner in dominators
       case Result(defined, at) => if defined == block then at < index else defined in dominators
  }

  ghost predicate AcceptedBlock(cfg: Cfg, block: nat)
    requires InRange(cfg) && block in cfg.order
  {
    var insts := cfg.blocks[block].insts;
    && insts != [] && IsTerminator(insts[|insts| - 1])
    && (cfg.blocks[block].header && cfg.realTime ==> cfg.blocks[block].bound != NO_BOUND)
    && cfg.order[0] !in Successors(cfg, block)
    && (forall i {:trigger AcceptedInst(cfg, block, i)} :: 0 <= i < |insts| ==> AcceptedInst(cfg, block, i))
  }

  ghost predicate Accepted(cfg: Cfg)
    requires InRange(cfg)
  {
    forall block <- cfg.order :: AcceptedBlock(cfg, block)
  }

  datatype Problem =
    | EmptyBlock(block: nat)
    | NoBound(block: nat)
    | NotATerminator(block: nat)
    | JumpsToTheEntry(block: nat)
    | NoPosition(block: nat, index: nat)
    | RegionInACfg(block: nat, index: nat)
    | SomethingFollows(block: nat, index: nat)
    | NoReceiver(block: nat, index: nat)
    | NotVisible(block: nat, index: nat, value: nat)
    | NoSuchBlock(block: nat, index: nat, target: nat)
    | WrongArguments(block: nat, index: nat, target: nat)

  class IrVerifier {
    var inOrder: set<nat>
    var dominators: seq<set<nat>>
    var errors: seq<Problem>

    constructor ()
      ensures errors == []
    {
      inOrder, dominators, errors := {}, [], [];
    }

    /** Every block's predecessors. */
    method PredecessorsOf(cfg: Cfg) returns (predecessors: seq<seq<nat>>)
      requires InRange(cfg)
      ensures |predecessors| == |cfg.blocks|
      ensures forall to, from :: 0 <= to < |cfg.blocks| ==> (from in predecessors[to] <==> IsEdge(cfg, from, to))
    {
      predecessors := seq(|cfg.blocks|, _ => []);
      for i := 0 to |cfg.order|
        invariant |predecessors| == |cfg.blocks|
        invariant forall to, from :: 0 <= to < |cfg.blocks| ==>
                    (from in predecessors[to] <==> from in cfg.order[..i] && to in Successors(cfg, from))
      {
        var block := cfg.order[i];
        var targets := Successors(cfg, block);
        for j := 0 to |targets|
          invariant |predecessors| == |cfg.blocks|
          invariant forall to, from :: 0 <= to < |cfg.blocks| ==>
                      (from in predecessors[to] <==>
                        (from in cfg.order[..i] && to in Successors(cfg, from)) || (from == block && to in targets[..j]))
        {
          if targets[j] < |predecessors| {
            predecessors := predecessors[targets[j] := predecessors[targets[j]] + [block]];
          }
        }
        assert targets[..|targets|] == targets;
        assert cfg.order[..i + 1] == cfg.order[..i] + [block];
      }
      assert cfg.order[..|cfg.order|] == cfg.order;
    }

    method ComputeDominators(cfg: Cfg)
      requires InRange(cfg) && inOrder == set b | b in cfg.order
      modifies this`dominators
      ensures |dominators| == |cfg.blocks|
      ensures forall block <- cfg.order :: dominators[block] == DominatorsOf(cfg, block)
    {
      var all := inOrder;
      dominators := seq(|cfg.blocks|, _ => all);
      if |cfg.order| == 0 {
        return;
      }
      var predecessors := PredecessorsOf(cfg);
      var entry := cfg.order[0];
      assert entry in cfg.order;
      dominators := dominators[entry := {entry}];
      StartShrinks(cfg, dominators, inOrder);
      var changed := true;
      while changed
        invariant Shrinking(cfg, dominators)
        invariant !changed ==> forall b <- cfg.order :: b != entry ==> Settled(cfg, dominators, b)
        decreases Total(dominators), changed
      {
        changed := Round(cfg, predecessors);
      }
      forall block | block in cfg.order
        ensures dominators[block] == DominatorsOf(cfg, block)
      {
        SettledIsDominance(cfg, dominators, block);
      }
    }

    method Round(cfg: Cfg, predecessors: seq<seq<nat>>) returns (changed: bool)
      requires InRange(cfg) && inOrder == (set b | b in cfg.order) && Shrinking(cfg, dominators)
      requires |predecessors| == |cfg.blocks|
      requires forall to, from :: 0 <= to < |cfg.blocks| ==> (from in predecessors[to] <==> IsEdge(cfg, from, to))
      modifies this`dominators
      ensures Shrinking(cfg, dominators)
      ensures changed ==> Total(dominators) < old(Total(dominators))
      ensures !changed ==> dominators == old(dominators)
      ensures !changed ==> forall b <- cfg.order :: b != cfg.order[0] ==> Settled(cfg, dominators, b)
    {
      var entry := cfg.order[0];
      changed := false;
      for i := 0 to |cfg.order|
        invariant Shrinking(cfg, dominators)
        invariant changed ==> Total(dominators) < old(Total(dominators))
        invariant !changed ==> dominators == old(dominators)
        invariant !changed ==> forall j :: 0 <= j < i && cfg.order[j] != entry ==> Settled(cfg, dominators, cfg.order[j])
      {
        var block := cfg.order[i];
        if block == entry {
          continue;
        }
        var next := NextSet(cfg, predecessors, block);
        RoundShrinks(cfg, dominators, block, next);
        if next != dominators[block] {
          TotalFalls(dominators, block, next);
          dominators := dominators[block := next];
          changed := true;
        }
      }
    }

    method NextSet(cfg: Cfg, predecessors: seq<seq<nat>>, block: nat) returns (next: set<nat>)
      requires InRange(cfg) && inOrder == (set b | b in cfg.order) && |dominators| == |cfg.blocks|
      requires |predecessors| == |cfg.blocks| && block in cfg.order
      requires forall to, from :: 0 <= to < |cfg.blocks| ==> (from in predecessors[to] <==> IsEdge(cfg, from, to))
      ensures forall first :: first in next <==> first in cfg.order && Agreed(cfg, dominators, first, block)
    {
      next := inOrder;
      var ways := predecessors[block];
      for k := 0 to |ways|
        invariant forall first :: first in next <==>
                    first in cfg.order && forall j {:trigger ways[j]} :: 0 <= j < k ==> InSet(dominators, ways[j], first)
      {
        assert ways[k] in ways && IsEdge(cfg, ways[k], block);
        next := next * dominators[ways[k]];
      }
      forall first
        ensures first in next + {block} <==> first in cfg.order && Agreed(cfg, dominators, first, block)
      {
        if first in next {
          forall from <- cfg.order | IsEdge(cfg, from, block)
            ensures first in dominators[from]
          {
            assert from in ways;
            var j :| 0 <= j < |ways| && ways[j] == from;
            assert InSet(dominators, ways[j], first);
          }
        }
        if first != block && first in cfg.order && Agreed(cfg, dominators, first, block) {
          forall j | 0 <= j < |ways|
            ensures InSet(dominators, ways[j], first)
          {
            assert ways[j] in ways;
            assert IsEdge(cfg, ways[j], block);
          }
        }
      }
      next := next + {block};
    }

    method VerifyCfg(cfg: Cfg)
      requires InRange(cfg)
      modifies this
      ensures errors == [] <==> Accepted(cfg)
    {
      hide AcceptedBlock, DominatorsOf;
      errors := [];
      inOrder := set b | b in cfg.order;
      ComputeDominators(cfg);
      for i := 0 to |cfg.order|
        invariant |dominators| == |cfg.blocks|
        invariant forall block <- cfg.order :: dominators[block] == DominatorsOf(cfg, block)
        invariant inOrder == set b | b in cfg.order
        invariant errors == [] <==> forall j :: 0 <= j < i ==> AcceptedBlock(cfg, cfg.order[j])
      {
        VerifyBlock(cfg, cfg.order[i]);
      }
    }

    method VerifyBlock(cfg: Cfg, block: nat)
      requires InRange(cfg) && block in cfg.order && inOrder == set b | b in cfg.order
      requires |dominators| == |cfg.blocks| && dominators[block] == DominatorsOf(cfg, block)
      modifies this`errors
      ensures errors == [] <==> old(errors) == [] && AcceptedBlock(cfg, block)
    {
      var entry := cfg.blocks[block];
      if entry.insts == [] {
        errors := errors + [EmptyBlock(block)];
        return;
      }
      if entry.header && cfg.realTime && entry.bound == NO_BOUND {
        errors := errors + [NoBound(block)];
      }
      if !IsTerminator(entry.insts[|entry.insts| - 1]) {
        errors := errors + [NotATerminator(block)];
      }
      ghost var clear := errors == [];
      for i := 0 to |entry.insts|
        invariant errors == [] <==> clear && (forall k :: 0 <= k < i ==> AcceptedInst(cfg, block, k))
                                    && (i == |entry.insts| ==> cfg.order[0] !in Successors(cfg, block))
      {
        VerifyInst(cfg, block, i);
        if i == |entry.insts| - 1 {
          var targets := Successors(cfg, block);
          for j := 0 to |targets|
            invariant errors == [] <==> clear && (forall k :: 0 <= k <= i ==> AcceptedInst(cfg, block, k))
                                        && cfg.order[0] !in targets[..j]
          {
            if targets[j] == cfg.order[0] {
              errors := errors + [JumpsToTheEntry(block)];
            }
          }
          assert targets[..|targets|] == targets;
        }
      }
    }

    method VerifyInst(cfg: Cfg, block: nat, index: nat)
      requires InRange(cfg) && block in cfg.order && inOrder == set b | b in cfg.order
      requires index < |cfg.blocks[block].insts|
      requires |dominators| == |cfg.blocks| && dominators[block] == DominatorsOf(cfg, block)
      modifies this`errors
      ensures errors == [] <==> old(errors) == [] && AcceptedInst(cfg, block, index)
    {
      var inst := cfg.blocks[block].insts[index];
      if inst.at.offset == NO_OFFSET {
        errors := errors + [NoPosition(block, index)];
      }
      if inst.Region? {
        errors := errors + [RegionInACfg(block, index)];
        return;
      }
      if IsTerminator(inst) && index != |cfg.blocks[block].insts| - 1 {
        errors := errors + [SomethingFollows(block, index)];
      }
      if !HasReceiver(inst) {
        errors := errors + [NoReceiver(block, index)];
      }
      VerifyOperands(cfg, block, index);
      VerifyTargets(cfg, block, index);
    }

    method VerifyOperands(cfg: Cfg, block: nat, index: nat)
      requires InRange(cfg) && block in cfg.order && block < |dominators|
      requires index < |cfg.blocks[block].insts|
      modifies this`errors
      ensures errors == [] <==> old(errors) == []
                                && forall value <- Checked(cfg.blocks[block].insts[index]) ::
                                     IsVisible(cfg, dominators[block], value, block, index)
    {
      var values := Checked(cfg.blocks[block].insts[index]);
      for i := 0 to |values|
        invariant errors == [] <==> old(errors) == [] && forall k :: 0 <= k < i ==> IsVisible(cfg, dominators[block], values[k], block, index)
      {
        if !IsVisible(cfg, dominators[block], values[i], block, index) {
          errors := errors + [NotVisible(block, index, values[i])];
        }
      }
    }

    method VerifyTargets(cfg: Cfg, block: nat, index: nat)
      requires InRange(cfg) && block in cfg.order && inOrder == set b | b in cfg.order
      requires index < |cfg.blocks[block].insts|
      modifies this`errors
      ensures errors == [] <==> old(errors) == [] && AcceptedTargets(cfg, cfg.blocks[block].insts[index])
    {
      var inst := cfg.blocks[block].insts[index];
      var targets := Targets(inst);
      for i := 0 to |targets|
        invariant errors == [] <==> old(errors) == [] && forall k :: 0 <= k < i ==> AcceptedTarget(cfg, inst, targets[k])
      {
        if targets[i] !in inOrder {
          errors := errors + [NoSuchBlock(block, index, targets[i])];
        } else if !AcceptedTarget(cfg, inst, targets[i]) {
          errors := errors + [WrongArguments(block, index, targets[i])];
        }
      }
    }
  }

  predicate AcceptedTarget(cfg: Cfg, inst: Inst, target: nat)
    requires InRange(cfg)
  {
    && target in cfg.order
    && (if inst.Br? then |inst.arguments| == |cfg.blocks[target].parameters| else cfg.blocks[target].parameters == [])
  }
}
