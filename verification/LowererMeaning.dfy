/** The lowered code follows the meaning of the statements it was lowered from. */
module LowererMeaning {
  import opened Ir
  import opened Interpreter
  import opened StructuredMeaning
  import opened Lowerer
  import opened HaardSource
  import Flattener

  /** A frame's values, its slots and flags, and what has happened. */
  datatype Machine = Machine(values: map<nat, nat>, memory: map<nat, nat>, trace: Trace)

  function Held(cells: map<nat, nat>, at: nat): nat {
    if at in cells then cells[at] else 0
  }

  /** What the instructions the lowerer emits do; the functions called answer as they will. */
  function Did(answers: Answers, inst: Inst, s: Machine): Machine
    requires inst.Compute?
  {
    match inst.opcode
    case Call =>
      if inst.operands == [] then
        s.(values := s.values[inst.result := answers(Answer(inst.extra), s.trace)], trace := s.trace + [Called(inst.extra)])
      else
        s.(trace := s.trace + [if inst.extra % 2 == CONSTRUCTOR then Built(inst.extra / 2) else Destroyed(inst.extra / 2)])
    case Const => s.(values := s.values[inst.result := inst.extra])
    case Addr => s.(values := s.values[inst.result := answers(Address(inst.extra), s.trace)])
    case Load => if |inst.operands| != 1 then s else s.(values := s.values[inst.result := Held(s.memory, inst.operands[0])])
    case Store => if |inst.operands| != 2 then s else s.(memory := s.memory[inst.operands[1] := Held(s.values, inst.operands[0])])
    case Not => if |inst.operands| != 1 then s else s.(values := s.values[inst.result := if Held(s.values, inst.operands[0]) == 0 then 1 else 0])
    case _ => s
  }

  function Does(answers: Answers): Meaning<Machine> {
    Meaning(
      (inst: Inst, s: Machine) => Next(if inst.Compute? then Did(answers, inst, s) else s),
      (value: nat, s: Machine) => Held(s.values, value),
      (parameters: seq<nat>, arguments: seq<nat>, s: Machine) => s)
  }

  lemma {:induction false} ExecConcat<S>(m: Meaning<S>, first: Code, second: Code, s: S, fuel: nat)
    ensures var one := Exec(m, first, s, fuel);
            Exec(m, Concat(first, second), s, fuel) == if one.Fall? then Exec(m, second, one.s, fuel) else one
    decreases first
  {
    if first != End {
      var both := Concat(first, second);
      assert both.next == Concat(first.next, second);
      HeadOnly(m, first, both, s, fuel);
      var head := ExecHead(m, first, s, fuel);
      if head.Fall? {
        ExecConcat(m, first.next, second, head.s, fuel);
      }
    }
  }

  lemma {:induction false} ConcatScoped(first: Code, second: Code, around: seq<Flattener.Around>)
    requires Flattener.WellScoped(first, around) && Flattener.WellScoped(second, around)
    ensures Flattener.WellScoped(Concat(first, second), around)
    decreases first
  {
    if first != End {
      ConcatScoped(first.next, second, around);
    }
  }

  /** What the head of a list does, whatever follows it. */
  lemma HeadOnly<S>(m: Meaning<S>, code: Code, other: Code, s: S, fuel: nat)
    requires code != End && other != End && other == code.(next := other.next)
    ensures ExecHead(m, code, s, fuel) == ExecHead(m, other, s, fuel)
  {
  }

  lemma ExecPlain(answers: Answers, inst: Inst, next: Code, s: Machine, fuel: nat)
    requires inst.Compute?
    ensures Exec(Does(answers), Plain(inst, next), s, fuel) == Exec(Does(answers), next, Did(answers, inst, s), fuel)
  {
    assert ExecHead(Does(answers), Plain(inst, next), s, fuel) == Fall(Did(answers, inst, s));
  }

  lemma ExecEnd(answers: Answers, s: Machine, fuel: nat)
    ensures Exec(Does(answers), End, s, fuel) == Fall(s)
  {
  }

  lemma ExecCalling(answers: Answers, function_: nat, value: nat, next: Code, s: Machine, fuel: nat)
    ensures Exec(Does(answers), Plain(Calling(function_, value), next), s, fuel)
         == Exec(Does(answers), next, s.(values := s.values[value := answers(Answer(function_), s.trace)], trace := s.trace + [Called(function_)]), fuel)
  {
    ExecPlain(answers, Calling(function_, value), next, s, fuel);
  }

  lemma ExecBuilding(answers: Answers, object_: nat, place: nat, next: Code, s: Machine, fuel: nat)
    ensures Exec(Does(answers), Plain(Building(object_, place), next), s, fuel)
         == Exec(Does(answers), next, s.(trace := s.trace + [Built(object_)]), fuel)
  {
    ExecPlain(answers, Building(object_, place), next, s, fuel);
  }

  lemma ExecDestroying(answers: Answers, object_: nat, place: nat, next: Code, s: Machine, fuel: nat)
    ensures Exec(Does(answers), Plain(Destroying(object_, place), next), s, fuel)
         == Exec(Does(answers), next, s.(trace := s.trace + [Destroyed(object_)]), fuel)
  {
    ExecPlain(answers, Destroying(object_, place), next, s, fuel);
  }

  lemma ExecConstant(answers: Answers, bits: nat, value: nat, next: Code, s: Machine, fuel: nat)
    ensures Exec(Does(answers), Plain(Constant(bits, value), next), s, fuel)
         == Exec(Does(answers), next, s.(values := s.values[value := bits]), fuel)
  {
    ExecPlain(answers, Constant(bits, value), next, s, fuel);
  }

  lemma ExecAddressOf(answers: Answers, object_: nat, place: nat, value: nat, next: Code, s: Machine, fuel: nat)
    ensures Exec(Does(answers), Plain(AddressOf(object_, place, value), next), s, fuel)
         == Exec(Does(answers), next, s.(values := s.values[value := answers(Address(object_), s.trace)]), fuel)
  {
    ExecPlain(answers, AddressOf(object_, place, value), next, s, fuel);
  }

  lemma ExecStoring(answers: Answers, value: nat, slot: nat, next: Code, s: Machine, fuel: nat)
    ensures Exec(Does(answers), Plain(Storing(value, slot), next), s, fuel)
         == Exec(Does(answers), next, s.(memory := s.memory[slot := Held(s.values, value)]), fuel)
  {
    ExecPlain(answers, Storing(value, slot), next, s, fuel);
  }

  lemma ExecLoading(answers: Answers, slot: nat, value: nat, next: Code, s: Machine, fuel: nat)
    ensures Exec(Does(answers), Plain(Loading(slot, value), next), s, fuel)
         == Exec(Does(answers), next, s.(values := s.values[value := Held(s.memory, slot)]), fuel)
  {
    ExecPlain(answers, Loading(slot, value), next, s, fuel);
  }

  lemma ExecNegating(answers: Answers, of: nat, value: nat, next: Code, s: Machine, fuel: nat)
    ensures Exec(Does(answers), Plain(Negating(of, value), next), s, fuel)
         == Exec(Does(answers), next, s.(values := s.values[value := if Held(s.values, of) == 0 then 1 else 0]), fuel)
  {
    ExecPlain(answers, Negating(of, value), next, s, fuel);
  }

  lemma ExecSlot(answers: Answers, value: nat, next: Code, s: Machine, fuel: nat)
    ensures Exec(Does(answers), Plain(SlotAt(value), next), s, fuel) == Exec(Does(answers), next, s, fuel)
  {
    ExecPlain(answers, SlotAt(value), next, s, fuel);
  }

  /** An `if` with no `else`, whose body comes to its end. */
  lemma ExecIf(answers: Answers, region: nat, test: nat, body: Code, next: Code, s: Machine, t: Machine, fuel: nat)
    requires if Held(s.values, test) != 0 then Exec(Does(answers), body, s, fuel) == Fall(t) else t == s
    ensures Exec(Does(answers), If(region, test, body, false, End, HERE, next), s, fuel) == Exec(Does(answers), next, t, fuel)
  {
    assert ExecHead(Does(answers), If(region, test, body, false, End, HERE, next), s, fuel) == Fall(t);
  }

  // ----- Cleanups -----

  predicate Live(one: Cleanup, memory: map<nat, nat>) {
    one.flag == 0 || Held(memory, one.flag) != 0
  }

  /** The objects registered that are there, in the order they were registered. */
  function LiveOf(cleanups: seq<Cleanup>, memory: map<nat, nat>): seq<nat> {
    if cleanups == [] then []
    else
      var last := cleanups[|cleanups| - 1];
      LiveOf(cleanups[..|cleanups| - 1], memory) + if Live(last, memory) then [last.object_] else []
  }

  /** Each flag is one object's, and was given before `next`. */
  predicate Flagged(cleanups: seq<Cleanup>, next: nat) {
    && (forall i {:trigger cleanups[i]} :: 0 <= i < |cleanups| ==> cleanups[i].flag < next)
    && (forall i, j {:trigger cleanups[i], cleanups[j]} :: 0 <= i < j < |cleanups| && cleanups[i].flag != 0 ==> cleanups[i].flag != cleanups[j].flag)
  }

  predicate HasFlag(cleanups: seq<Cleanup>, flag: nat) {
    flag != 0 && exists i :: 0 <= i < |cleanups| && cleanups[i].flag == flag
  }

  ghost predicate SameBelow(cells: map<nat, nat>, later: map<nat, nat>, next: nat) {
    forall k {:trigger Held(later, k)} :: 0 <= k < next ==> Held(later, k) == Held(cells, k)
  }

  /** From `s` to `t` the flags of these cleanups are cleared, and no other cell changes. */
  ghost predicate Clears(s: Machine, t: Machine, cleanups: seq<Cleanup>) {
    forall k {:trigger Held(t.memory, k)} :: k >= 0 ==> Held(t.memory, k) == if HasFlag(cleanups, k) then 0 else Held(s.memory, k)
  }

  lemma {:induction false} LiveOfSame(cleanups: seq<Cleanup>, memory: map<nat, nat>, later: map<nat, nat>)
    requires forall i {:trigger cleanups[i]} :: 0 <= i < |cleanups| ==> Live(cleanups[i], memory) == Live(cleanups[i], later)
    ensures LiveOf(cleanups, memory) == LiveOf(cleanups, later)
    decreases |cleanups|
  {
    if cleanups != [] {
      LiveOfSame(cleanups[..|cleanups| - 1], memory, later);
    }
  }

  lemma {:induction false} LiveOfConcat(first: seq<Cleanup>, second: seq<Cleanup>, memory: map<nat, nat>)
    ensures LiveOf(first + second, memory) == LiveOf(first, memory) + LiveOf(second, memory)
    decreases |second|
  {
    if second == [] {
      assert first + second == first;
    } else {
      var all := first + second;
      assert all[..|all| - 1] == first + second[..|second| - 1];
      LiveOfConcat(first, second[..|second| - 1], memory);
    }
  }

  lemma EndOneRuns(answers: Answers, l: Lowering, one: Cleanup, s: Machine, fuel: nat) returns (t: Machine)
    requires one.flag < l.next
    ensures Exec(Does(answers), EndOne(l, one).code, s, fuel) == Fall(t)
    ensures t.trace == s.trace + if Live(one, s.memory) then [Destroyed(one.object_)] else []
    ensures SameBelow(s.values, t.values, l.next) && Clears(s, t, [one])
  {
    hide Exec, ExecHead, Does, Clears, HasFlag;
    if one.flag == 0 {
      t := s.(trace := s.trace + [Destroyed(one.object_)]);
      ExecDestroying(answers, one.object_, one.place, End, s, fuel);
    } else {
      var test, zero := l.next, l.next + 1;
      var loaded := s.(values := s.values[test := Held(s.memory, one.flag)]);
      var body := Plain(Destroying(one.object_, one.place), Two(Constant(0, zero), Storing(zero, one.flag)));
      ExecLoading(answers, one.flag, test, If(l.regions, test, body, false, End, HERE, End), s, fuel);
      t := if Live(one, s.memory) then EndedByFlag(loaded, one, zero) else loaded;
      if Live(one, s.memory) {
        EndsByFlag(answers, one, zero, loaded, fuel);
      }
      ExecIf(answers, l.regions, test, body, End, loaded, t, fuel);
    }
    ExecEnd(answers, t, fuel);
    ClearsOne(s, t, one);
  }

  function EndedByFlag(s: Machine, one: Cleanup, zero: nat): Machine {
    Machine(s.values[zero := 0], s.memory[one.flag := 0], s.trace + [Destroyed(one.object_)])
  }

  lemma EndsByFlag(answers: Answers, one: Cleanup, zero: nat, s: Machine, fuel: nat)
    ensures Exec(Does(answers), Plain(Destroying(one.object_, one.place), Two(Constant(0, zero), Storing(zero, one.flag))), s, fuel)
         == Fall(EndedByFlag(s, one, zero))
  {
    hide Exec, ExecHead, Does;
    var destroyed := s.(trace := s.trace + [Destroyed(one.object_)]);
    ExecDestroying(answers, one.object_, one.place, Two(Constant(0, zero), Storing(zero, one.flag)), s, fuel);
    ExecConstant(answers, 0, zero, Plain(Storing(zero, one.flag), End), destroyed, fuel);
    ExecStoring(answers, zero, one.flag, End, destroyed.(values := destroyed.values[zero := 0]), fuel);
    ExecEnd(answers, EndedByFlag(s, one, zero), fuel);
  }

  lemma ClearsOne(s: Machine, t: Machine, one: Cleanup)
    requires t.memory == s.memory || t.memory == s.memory[one.flag := 0]
    requires one.flag == 0 ==> t.memory == s.memory
    requires one.flag != 0 ==> Held(t.memory, one.flag) == 0
    ensures Clears(s, t, [one])
  {
    assert [one][0] == one;
  }

  lemma {:induction false} EndAllRuns(answers: Answers, l: Lowering, cleanups: seq<Cleanup>, s: Machine, fuel: nat) returns (t: Machine)
    requires Flagged(cleanups, l.next)
    ensures Exec(Does(answers), EndAll(l, cleanups).code, s, fuel) == Fall(t)
    ensures t.trace == s.trace + LastFirst(LiveOf(cleanups, s.memory))
    ensures SameBelow(s.values, t.values, l.next) && Clears(s, t, cleanups)
    decreases |cleanups|
  {
    hide Exec, Does, EndOne, Clears, Live, LastFirst;
    if cleanups == [] {
      t := s;
      ExecEnd(answers, s, fuel);
      ClearsNone(s);
    } else {
      var before, one := cleanups[..|cleanups| - 1], cleanups[|cleanups| - 1];
      var last := EndOne(l, one);
      var u := EndOneRuns(answers, l, one, s, fuel);
      t := EndAllRuns(answers, last.l, before, u, fuel);
      ExecConcat(Does(answers), last.code, EndAll(last.l, before).code, s, fuel);
      OthersStayLive(s, u, before, one);
      ClearsMore(s, u, t, before, one);
      assert cleanups == before + [one];
      OneMoreEnds(s.trace, LiveOf(before, s.memory), one, s.memory);
    }
  }

  lemma ClearsNone(s: Machine)
    ensures Clears(s, s, []) && s.trace == s.trace + LastFirst([])
  {
  }

  lemma OneMoreEnds(trace: Trace, live: seq<nat>, one: Cleanup, memory: map<nat, nat>)
    ensures trace + (if Live(one, memory) then [Destroyed(one.object_)] else []) + LastFirst(live)
         == trace + LastFirst(live + if Live(one, memory) then [one.object_] else [])
  {
    if Live(one, memory) {
      LastFirstOneMore(live, one.object_);
    } else {
      assert live + [] == live;
    }
  }

  lemma OthersStayLive(s: Machine, u: Machine, before: seq<Cleanup>, one: Cleanup)
    requires Clears(s, u, [one])
    requires forall i {:trigger before[i]} :: 0 <= i < |before| && before[i].flag != 0 ==> before[i].flag != one.flag
    ensures LiveOf(before, s.memory) == LiveOf(before, u.memory)
  {
    forall i | 0 <= i < |before|
      ensures Live(before[i], s.memory) == Live(before[i], u.memory)
    {
      assert Held(u.memory, before[i].flag) == if HasFlag([one], before[i].flag) then 0 else Held(s.memory, before[i].flag);
    }
    LiveOfSame(before, s.memory, u.memory);
  }

  lemma LastFirstOneMore(objects: seq<nat>, last: nat)
    ensures LastFirst(objects + [last]) == [Destroyed(last)] + LastFirst(objects)
  {
    assert (objects + [last])[..|objects|] == objects;
  }

  lemma ClearsMore(s: Machine, u: Machine, t: Machine, before: seq<Cleanup>, one: Cleanup)
    requires Clears(s, u, [one]) && Clears(u, t, before)
    ensures Clears(s, t, before + [one])
  {
    var all := before + [one];
    forall k | k >= 0
      ensures Held(t.memory, k) == if HasFlag(all, k) then 0 else Held(s.memory, k)
    {
      assert Held(u.memory, k) == if HasFlag([one], k) then 0 else Held(s.memory, k);
      if HasFlag(before, k) {
        var i :| 0 <= i < |before| && before[i].flag == k;
        assert all[i].flag == k;
      } else if HasFlag([one], k) {
        assert all[|before|].flag == k;
      } else {
        NoFlagOfEither(before, one, k);
      }
    }
  }

  lemma NoFlagOfEither(before: seq<Cleanup>, one: Cleanup, k: nat)
    requires !HasFlag(before, k) && !HasFlag([one], k)
    ensures !HasFlag(before + [one], k)
  {
    assert [one][0].flag == one.flag;
  }

  /** Every cleanup of a block's scope is a local's, made on every path. */
  predicate Plainly(cleanups: seq<Cleanup>) {
    forall one <- cleanups :: one.flag == 0
  }

  predicate AllPlain(scopes: seq<Scope>) {
    forall scope <- scopes :: Plainly(scope.cleanups)
  }

  function ObjectsOf(cleanups: seq<Cleanup>): seq<nat> {
    seq(|cleanups|, i requires 0 <= i < |cleanups| => cleanups[i].object_)
  }

  lemma {:induction false} PlainIsLive(cleanups: seq<Cleanup>, memory: map<nat, nat>)
    requires Plainly(cleanups)
    ensures LiveOf(cleanups, memory) == ObjectsOf(cleanups) && Flagged(cleanups, 1)
    ensures forall k :: !HasFlag(cleanups, k)
    decreases |cleanups|
  {
    assert forall i {:trigger cleanups[i]} :: 0 <= i < |cleanups| ==> cleanups[i] in cleanups;
    if cleanups != [] {
      var before := cleanups[..|cleanups| - 1];
      assert forall one <- before :: one in cleanups;
      PlainIsLive(before, memory);
      assert ObjectsOf(cleanups) == ObjectsOf(before) + [cleanups[|cleanups| - 1].object_];
    }
  }

  /** What leaving scopes ends, the innermost first. */
  function Unwound(scopes: seq<Scope>, depth: nat): Trace {
    if |scopes| <= depth then [] else LastFirst(ObjectsOf(scopes[|scopes| - 1].cleanups)) + Unwound(scopes[..|scopes| - 1], depth)
  }

  lemma {:induction false} EndScopesRuns(answers: Answers, l: Lowering, scopes: seq<Scope>, depth: nat, s: Machine, fuel: nat)
      returns (t: Machine)
    requires AllPlain(scopes) && 0 < l.next
    ensures Exec(Does(answers), EndScopes(l, scopes, depth).code, s, fuel) == Fall(t)
    ensures t.trace == s.trace + Unwound(scopes, depth)
    ensures SameBelow(s.values, t.values, l.next) && Clears(s, t, [])
    decreases |scopes|
  {
    hide Exec, Does, EndAll, LiveOf, LastFirst;
    t := s;
    ExecEnd(answers, s, fuel);
    if |scopes| > depth {
      var last, before := scopes[|scopes| - 1], scopes[..|scopes| - 1];
      assert last in scopes;
      PlainIsLive(last.cleanups, s.memory);
      var inner := EndAll(l, last.cleanups);
      var u := EndAllRuns(answers, l, last.cleanups, s, fuel);
      t := EndScopesRuns(answers, inner.l, before, depth, u, fuel);
      ExecConcat(Does(answers), inner.code, EndScopes(inner.l, before, depth).code, s, fuel);
      NoFlags(s, u, t, last.cleanups);
    }
  }

  lemma NoFlags(s: Machine, u: Machine, t: Machine, cleanups: seq<Cleanup>)
    requires Clears(s, u, cleanups) && Clears(u, t, []) && (forall k :: !HasFlag(cleanups, k))
    ensures Clears(s, t, [])
  {
    forall k | k >= 0
      ensures Held(t.memory, k) == if HasFlag([], k) then 0 else Held(s.memory, k)
    {
      assert Held(u.memory, k) == Held(s.memory, k);
    }
  }

  // ----- Expressions -----

  /** Only cells numbered from `from` to `to` change. */
  ghost predicate Touches(s: Machine, t: Machine, from: nat, to: nat) {
    && SameBelow(s.values, t.values, from)
    && (forall k {:trigger Held(t.memory, k)} :: 0 <= k < from || to <= k ==> Held(t.memory, k) == Held(s.memory, k))
  }

  lemma TouchesMore(s: Machine, u: Machine, t: Machine, from: nat, between: nat, other: nat, to: nat)
    requires Touches(s, u, from, between) && Touches(u, t, other, to) && from <= other && between <= to && from <= between
    ensures Touches(s, t, from, to)
  {
    forall k | 0 <= k < from
      ensures Held(t.values, k) == Held(s.values, k)
    {
      assert Held(u.values, k) == Held(s.values, k);
    }
    forall k | 0 <= k < from || to <= k
      ensures Held(t.memory, k) == Held(s.memory, k)
    {
      assert Held(u.memory, k) == Held(s.memory, k);
    }
  }

  function Cleanups(l: Lowering): seq<Cleanup>
    requires l.scopes != []
  {
    l.scopes[|l.scopes| - 1].cleanups
  }

  function FlagsOf(cleanups: seq<Cleanup>): seq<nat> {
    if cleanups == [] then []
    else
      var last := cleanups[|cleanups| - 1];
      FlagsOf(cleanups[..|cleanups| - 1]) + if last.flag == 0 then [] else [last.flag]
  }

  lemma {:induction false} FlagsOfConcat(first: seq<Cleanup>, second: seq<Cleanup>)
    ensures FlagsOf(first + second) == FlagsOf(first) + FlagsOf(second)
    decreases |second|
  {
    if second == [] {
      assert first + second == first;
    } else {
      var all := first + second;
      assert all[..|all| - 1] == first + second[..|second| - 1];
      FlagsOfConcat(first, second[..|second| - 1]);
    }
  }

  lemma {:induction false} FlagsOfHas(cleanups: seq<Cleanup>, flag: nat)
    ensures flag in FlagsOf(cleanups) <==> HasFlag(cleanups, flag)
    decreases |cleanups|
  {
    if cleanups != [] {
      var before, last := cleanups[..|cleanups| - 1], cleanups[|cleanups| - 1];
      FlagsOfHas(before, flag);
      assert cleanups == before + [last];
      if HasFlag(before, flag) {
        var i :| 0 <= i < |before| && before[i].flag == flag;
        assert cleanups[i].flag == flag;
      }
    }
  }

  /** Flags given in order, from `from` to `to`. */
  predicate Given(cleanups: seq<Cleanup>, from: nat, to: nat) {
    && (forall i {:trigger cleanups[i]} :: 0 <= i < |cleanups| && cleanups[i].flag != 0 ==> from <= cleanups[i].flag < to)
    && (forall i, j {:trigger cleanups[i], cleanups[j]} ::
          0 <= i < j < |cleanups| && cleanups[i].flag != 0 ==> cleanups[i].flag != cleanups[j].flag)
  }

  predicate AllFlagged(cleanups: seq<Cleanup>) {
    forall i {:trigger cleanups[i]} :: 0 <= i < |cleanups| ==> cleanups[i].flag != 0
  }

  /** The cleanups an expression registers: each with a flag of its own on the right side of an
      `and` or an `or`, the flags being the ones asked for. */
  ghost predicate Registers(l: Lowering, later: Lowering, more: seq<Cleanup>)
    requires l.scopes != [] && later.scopes != []
  {
    && Cleanups(later) == Cleanups(l) + more && later.flags == l.flags + FlagsOf(more)
    && l.next <= later.next && Given(more, l.next, later.next)
    && (l.conditional > 0 ==> AllFlagged(more))
  }

  lemma GivenBoth(first: seq<Cleanup>, second: seq<Cleanup>, from: nat, between: nat, to: nat)
    requires Given(first, from, between) && Given(second, between, to) && from <= between <= to
    ensures Given(first + second, from, to)
  {
    var all := first + second;
    forall i, j | 0 <= i < j < |all| && all[i].flag != 0
      ensures all[i].flag != all[j].flag
    {
      if j < |first| {
        assert first[i].flag != first[j].flag;
      } else if i < |first| {
        assert first[i].flag < between && (second[j - |first|].flag == 0 || between <= second[j - |first|].flag);
      } else {
        assert second[i - |first|].flag != second[j - |first|].flag;
      }
    }
  }

  lemma RegistersBoth(l: Lowering, between: Lowering, later: Lowering, first: seq<Cleanup>, second: seq<Cleanup>)
    requires l.scopes != [] && between.scopes != [] && later.scopes != []
    requires Registers(l, between, first) && Registers(between, later, second)
    requires l.conditional > 0 ==> between.conditional > 0
    ensures Registers(l, later, first + second)
  {
    hide Given, FlagsOf, AllFlagged;
    FlagsOfConcat(first, second);
    GivenBoth(first, second, l.next, between.next, later.next);
    AllFlaggedBoth(first, second);
    assert Cleanups(l) + (first + second) == Cleanups(l) + first + second;
  }

  lemma AllFlaggedBoth(first: seq<Cleanup>, second: seq<Cleanup>)
    ensures AllFlagged(first) && AllFlagged(second) ==> AllFlagged(first + second)
  {
  }

  lemma {:induction false} ExprRegisters(l: Lowering, e: Expr) returns (more: seq<Cleanup>)
    requires l.scopes != [] && 0 < l.next
    ensures Registers(l, LowerExpr(l, e).l, more)
    decreases e, 1
  {
    match e
    case Call(_) =>
      more := [];
      assert Cleanups(l) == Cleanups(l) + more;
    case Temporary(object_) => more := TemporaryRegisters(l, object_);
    case Both(first, second) =>
      var one := LowerExpr(l, first);
      var some := ExprRegisters(l, first);
      var others := ExprRegisters(one.l, second);
      RegistersBoth(l, one.l, LowerExpr(one.l, second).l, some, others);
      more := some + others;
    case Logical(_, _, _) => more := LogicalRegisters(l, e);
  }

  lemma TemporaryRegisters(l: Lowering, object_: nat) returns (more: seq<Cleanup>)
    requires l.scopes != [] && 0 < l.next
    ensures Registers(l, LowerExpr(l, Temporary(object_)).l, more)
    ensures more == [Cleanup(object_, l.next, if l.conditional > 0 then l.next + 2 else 0)]
  {
    more := [Cleanup(object_, l.next, if l.conditional > 0 then l.next + 2 else 0)];
    assert more[..0] == [];
    assert FlagsOf(more) == FlagsOf([]) + if l.conditional > 0 then [l.next + 2] else [];
  }

  lemma {:induction false} LogicalRegisters(l: Lowering, e: Expr) returns (more: seq<Cleanup>)
    requires l.scopes != [] && 0 < l.next && e.Logical?
    ensures Registers(l, LowerExpr(l, e).l, more)
    decreases e, 0
  {
    hide Given, FlagsOf, AllFlagged, LowerExpr, Registers;
    var begun := WithSlot(l);
    var left := LowerExpr(begun, e.left);
    var tested := LogicalRight(left.l, e.isAnd);
    var right := LowerExpr(tested, e.right);
    var later := LowerLogical(l, e).l;
    var some := ExprRegisters(begun, e.left);
    var others := ExprRegisters(tested, e.right);
    RegistersMoved(begun, l, left.l, tested, some);
    RegistersMoved(tested, tested, right.l, later, others);
    RegistersBoth(l, tested, later, some, others);
    more := some + others;
    assert LowerExpr(l, e) == LowerLogical(l, e) by { LogicalIsLogical(l, e); }
  }

  lemma LogicalIsLogical(l: Lowering, e: Expr)
    requires l.scopes != [] && e.Logical?
    ensures LowerExpr(l, e) == LowerLogical(l, e)
  {
  }

  lemma RegistersMoved(l: Lowering, wide: Lowering, later: Lowering, end: Lowering, more: seq<Cleanup>)
    requires l.scopes != [] && later.scopes != [] && Registers(l, later, more)
    requires wide.scopes == l.scopes && wide.flags == l.flags && wide.next <= l.next
    requires end.scopes == later.scopes && end.flags == later.flags && later.next <= end.next
    requires wide.conditional > 0 ==> l.conditional > 0
    ensures Registers(wide, end, more)
  {
  }

  // ----- Running expressions -----

  /** Flags not set, in the cells of these cleanups. */
  ghost predicate Unset(cleanups: seq<Cleanup>, memory: map<nat, nat>) {
    forall i {:trigger cleanups[i]} :: 0 <= i < |cleanups| ==> Held(memory, cleanups[i].flag) == 0 || cleanups[i].flag == 0
  }

  lemma UnsetIsDead(cleanups: seq<Cleanup>, memory: map<nat, nat>)
    requires Unset(cleanups, memory) && AllFlagged(cleanups)
    ensures LiveOf(cleanups, memory) == []
    decreases |cleanups|
  {
    if cleanups != [] {
      UnsetIsDead(cleanups[..|cleanups| - 1], memory);
    }
  }

  /** Cells outside the cleanups' flags changed, so the same objects are there. */
  lemma LiveKept(cleanups: seq<Cleanup>, s: Machine, t: Machine, from: nat, to: nat, low: nat, high: nat)
    requires Given(cleanups, low, high) && Touches(s, t, from, to) && (high <= from || to <= low)
    ensures LiveOf(cleanups, t.memory) == LiveOf(cleanups, s.memory)
    ensures Unset(cleanups, s.memory) ==> Unset(cleanups, t.memory)
  {
    forall i | 0 <= i < |cleanups|
      ensures Live(cleanups[i], s.memory) == Live(cleanups[i], t.memory)
      ensures cleanups[i].flag != 0 ==> Held(t.memory, cleanups[i].flag) == Held(s.memory, cleanups[i].flag)
    {
    }
    LiveOfSame(cleanups, s.memory, t.memory);
  }

  /** What an expression registers, its flags not set yet. */
  ghost predicate Ready(l: Lowering, e: Expr, more: seq<Cleanup>, s: Machine)
    requires l.scopes != []
  {
    0 < l.next && Registers(l, LowerExpr(l, e).l, more) && Unset(more, s.memory)
  }

  /** The code gives the expression's value, leaves its trace, and of what it registered exactly
      the temporaries it built are there. */
  ghost predicate Follows(answers: Answers, l: Lowering, e: Expr, more: seq<Cleanup>, s: Machine, t: Machine)
    requires l.scopes != []
  {
    var p, r := LowerExpr(l, e), Eval(answers, e, s.trace);
    && t.trace == r.trace && l.next <= p.value < p.l.next && Held(t.values, p.value) == r.value
    && LiveOf(more, t.memory) == r.built && Touches(s, t, l.next, p.l.next)
  }

  lemma {:induction false} ExprRuns(answers: Answers, l: Lowering, e: Expr, more: seq<Cleanup>, s: Machine, fuel: nat) returns (t: Machine)
    requires l.scopes != [] && Ready(l, e, more, s)
    ensures Exec(Does(answers), LowerExpr(l, e).code, s, fuel) == Fall(t)
    ensures Follows(answers, l, e, more, s, t)
    decreases e, 1
  {
    match e
    case Call(function_) =>
      hide Exec, Does;
      t := s.(values := s.values[l.next := answers(Answer(function_), s.trace)], trace := s.trace + [Called(function_)]);
      ExecCalling(answers, function_, l.next, End, s, fuel);
      ExecEnd(answers, t, fuel);
    case Temporary(object_) => t := TemporaryRuns(answers, l, object_, more, s, fuel);
    case Both(first, second) => t := BothRuns(answers, l, e, more, s, fuel);
    case Logical(_, _, _) => t := LogicalRuns(answers, l, e, more, s, fuel);
  }

  lemma TemporaryRuns(answers: Answers, l: Lowering, object_: nat, more: seq<Cleanup>, s: Machine, fuel: nat) returns (t: Machine)
    requires l.scopes != [] && Ready(l, Temporary(object_), more, s)
    ensures Exec(Does(answers), LowerExpr(l, Temporary(object_)).code, s, fuel) == Fall(t)
    ensures Follows(answers, l, Temporary(object_), more, s, t)
  {
    hide Exec, Does;
    var registered := TemporaryRegisters(l, object_);
    SameTail(Cleanups(l), more, registered);
    var p := LowerExpr(l, Temporary(object_));
    var addressed := s.(values := s.values[l.next + 1 := answers(Address(object_), s.trace)]);
    var built := addressed.(trace := s.trace + [Built(object_)]);
    ExecAddressOf(answers, object_, l.next, l.next + 1, p.code.next, s, fuel);
    ExecBuilding(answers, object_, l.next, p.code.next.next, addressed, fuel);
    if l.conditional > 0 {
      var flag, one := l.next + 2, l.next + 4;
      var counted := built.(values := built.values[one := 1]);
      t := counted.(memory := counted.memory[flag := 1]);
      ExecConstant(answers, 1, one, Plain(Storing(one, flag), End), built, fuel);
      ExecStoring(answers, one, flag, End, counted, fuel);
    } else {
      t := built;
    }
    ExecEnd(answers, t, fuel);
    assert more[..0] == [];
    assert LiveOf(more, t.memory) == LiveOf([], t.memory) + [object_];
  }

  /** The cleanups of two expressions, one after the other. */
  lemma ReadyBoth(l: Lowering, first: Expr, second: Expr, more: seq<Cleanup>, s: Machine)
      returns (some: seq<Cleanup>, others: seq<Cleanup>)
    requires l.scopes != [] && Ready(l, Both(first, second), more, s)
    ensures more == some + others && Ready(l, first, some, s)
    ensures Registers(LowerExpr(l, first).l, LowerExpr(LowerExpr(l, first).l, second).l, others) && Unset(others, s.memory)
  {
    hide Given, FlagsOf, AllFlagged;
    var one := LowerExpr(l, first);
    some := ExprRegisters(l, first);
    others := ExprRegisters(one.l, second);
    assert Cleanups(l) + (some + others) == Cleanups(l) + some + others;
    SameTail(Cleanups(l), more, some + others);
    UnsetParts(some, others, s.memory);
  }

  lemma SameTail(prefix: seq<Cleanup>, first: seq<Cleanup>, second: seq<Cleanup>)
    requires prefix + first == prefix + second
    ensures first == second
  {
    assert (prefix + first)[|prefix|..] == first && (prefix + second)[|prefix|..] == second;
  }

  lemma UnsetParts(some: seq<Cleanup>, others: seq<Cleanup>, memory: map<nat, nat>)
    requires Unset(some + others, memory)
    ensures Unset(some, memory) && Unset(others, memory)
  {
    var all := some + others;
    assert forall i :: 0 <= i < |some| ==> some[i] == all[i];
    assert forall i :: 0 <= i < |others| ==> others[i] == all[|some| + i];
  }

  lemma {:induction false} BothRuns(answers: Answers, l: Lowering, e: Expr, more: seq<Cleanup>, s: Machine, fuel: nat) returns (t: Machine)
    requires l.scopes != [] && e.Both? && Ready(l, e, more, s)
    ensures Exec(Does(answers), LowerExpr(l, e).code, s, fuel) == Fall(t)
    ensures Follows(answers, l, e, more, s, t)
    decreases e, 0
  {
    hide Exec, Does, Given, FlagsOf, AllFlagged, Unset, Touches;
    var one := LowerExpr(l, e.first);
    var two := LowerExpr(one.l, e.second);
    var some, others := ReadyBoth(l, e.first, e.second, more, s);
    var u := ExprRuns(answers, l, e.first, some, s, fuel);
    LiveKept(others, s, u, l.next, one.l.next, one.l.next, two.l.next);
    t := ExprRuns(answers, one.l, e.second, others, u, fuel);
    ExecConcat(Does(answers), one.code, two.code, s, fuel);
    LiveKept(some, u, t, one.l.next, two.l.next, l.next, one.l.next);
    LiveOfConcat(some, others, t.memory);
    TouchesMore(s, u, t, l.next, one.l.next, one.l.next, two.l.next);
  }

  lemma ReadyLogical(l: Lowering, e: Expr, more: seq<Cleanup>, s: Machine) returns (some: seq<Cleanup>, others: seq<Cleanup>)
    requires l.scopes != [] && e.Logical? && Ready(l, e, more, s)
    ensures var left := LowerExpr(WithSlot(l), e.left);
            && more == some + others && Ready(WithSlot(l), e.left, some, s)
            && Registers(LogicalRight(left.l, e.isAnd), LowerExpr(LogicalRight(left.l, e.isAnd), e.right).l, others)
            && Unset(others, s.memory) && AllFlagged(others)
  {
    hide Given, FlagsOf, AllFlagged, LowerExpr, Unset;
    var begun := WithSlot(l);
    var left := LowerExpr(begun, e.left);
    var tested := LogicalRight(left.l, e.isAnd);
    some := ExprRegisters(begun, e.left);
    others := ExprRegisters(tested, e.right);
    LogicalIsLogical(l, e);
    assert Cleanups(l) + (some + others) == Cleanups(l) + some + others;
    SameTail(Cleanups(l), more, some + others);
    UnsetParts(some, others, s.memory);
  }

  /** At the branch: the left side has run, its value is the answer so far, and an `or` has it
      negated. */
  function AtBranch(u: Machine, answer: nat, left: Piece, isAnd: bool): Machine {
    var stored := u.(memory := u.memory[answer := Held(u.values, left.value)]);
    if isAnd then stored
    else stored.(values := stored.values[left.l.next := if Held(u.values, left.value) == 0 then 1 else 0])
  }

  lemma LogicalBranches(answers: Answers, l: Lowering, e: Expr, s: Machine, u: Machine, t: Machine, fuel: nat)
    requires l.scopes != [] && e.Logical?
    requires var left := LowerExpr(WithSlot(l), e.left);
             var right := LowerExpr(LogicalRight(left.l, e.isAnd), e.right);
             && Exec(Does(answers), left.code, s, fuel) == Fall(u)
             && if (Held(u.values, left.value) != 0) == e.isAnd
                then Exec(Does(answers), Concat(right.code, One(Storing(right.value, l.next))), AtBranch(u, l.next, left, e.isAnd), fuel) == Fall(t)
                else t == AtBranch(u, l.next, left, e.isAnd)
    ensures var p := LowerLogical(l, e);
            Exec(Does(answers), p.code, s, fuel) == Fall(t.(values := t.values[p.value := Held(t.memory, l.next)]))
  {
    hide Exec, Does, LowerExpr;
    var left := LowerExpr(WithSlot(l), e.left);
    var right := LowerExpr(LogicalRight(left.l, e.isAnd), e.right);
    var test := if e.isAnd then left.value else left.l.next;
    var body := Concat(right.code, One(Storing(right.value, l.next)));
    var last := One(Loading(l.next, right.l.next));
    var region := If(left.l.regions, test, body, false, End, HERE, last);
    var rest := if e.isAnd then region else Plain(Negating(left.value, left.l.next), region);
    ExecConcat(Does(answers), left.code, Plain(Storing(left.value, l.next), rest), s, fuel);
    ExecStoring(answers, left.value, l.next, rest, u, fuel);
    var stored := u.(memory := u.memory[l.next := Held(u.values, left.value)]);
    if !e.isAnd {
      ExecNegating(answers, left.value, left.l.next, region, stored, fuel);
    }
    ExecIf(answers, left.l.regions, test, body, last, AtBranch(u, l.next, left, e.isAnd), t, fuel);
    ExecLoading(answers, l.next, right.l.next, End, t, fuel);
    ExecEnd(answers, t.(values := t.values[right.l.next := Held(t.memory, l.next)]), fuel);
  }

  lemma {:induction false} LogicalRuns(answers: Answers, l: Lowering, e: Expr, more: seq<Cleanup>, s: Machine, fuel: nat) returns (t: Machine)
    requires l.scopes != [] && e.Logical? && Ready(l, e, more, s)
    ensures Exec(Does(answers), LowerExpr(l, e).code, s, fuel) == Fall(t)
    ensures Follows(answers, l, e, more, s, t)
    decreases e, 0, 1
  {
    hide Exec, Does, Given, FlagsOf, AllFlagged, Unset, Touches, LowerExpr, LiveOf;
    var left := LowerExpr(WithSlot(l), e.left);
    var some, others := ReadyLogical(l, e, more, s);
    LogicalIsLogical(l, e);
    var u := ExprRuns(answers, WithSlot(l), e.left, some, s, fuel);
    var branch := AtBranch(u, l.next, left, e.isAnd);
    BranchTouches(l, s, u, left, e.isAnd);
    var tested := LogicalRight(left.l, e.isAnd);
    var right := LowerExpr(tested, e.right);
    LiveKept(others, s, u, l.next + 1, left.l.next, tested.next, right.l.next);
    LiveKept(others, u, branch, l.next, l.next + 1, tested.next, right.l.next);
    LiveKept(some, u, branch, l.next, l.next + 1, l.next + 1, left.l.next);
    if (Held(u.values, left.value) != 0) == e.isAnd {
      t := TakesRight(answers, l, e, some, others, s, u, fuel);
    } else {
      t := SkipsRight(answers, l, e, some, others, s, u, fuel);
    }
    LiveOfConcat(some, others, t.memory);
  }

  /** The left side ran from `s` to `u`. */
  ghost predicate LeftRan(answers: Answers, l: Lowering, e: Expr, some: seq<Cleanup>, others: seq<Cleanup>, s: Machine, u: Machine, fuel: nat)
    requires l.scopes != [] && e.Logical?
  {
    var left := LowerExpr(WithSlot(l), e.left);
    var tested := LogicalRight(left.l, e.isAnd);
    var branch := AtBranch(u, l.next, left, e.isAnd);
    && 0 < l.next && Exec(Does(answers), left.code, s, fuel) == Fall(u)
    && l.next < left.value < left.l.next
    && Given(some, l.next + 1, left.l.next) && Registers(tested, LowerExpr(tested, e.right).l, others)
    && Unset(others, branch.memory) && AllFlagged(others)
    && Touches(s, branch, l.next, left.l.next)
  }

  lemma {:induction false} TakesRight(answers: Answers, l: Lowering, e: Expr, some: seq<Cleanup>, others: seq<Cleanup>, s: Machine, u: Machine,
                                      fuel: nat) returns (t: Machine)
    requires l.scopes != [] && e.Logical? && LeftRan(answers, l, e, some, others, s, u, fuel)
    requires (Held(u.values, LowerExpr(WithSlot(l), e.left).value) != 0) == e.isAnd
    ensures var left, p := LowerExpr(WithSlot(l), e.left), LowerLogical(l, e);
            var r, branch := Eval(answers, e.right, u.trace), AtBranch(u, l.next, left, e.isAnd);
            && Exec(Does(answers), p.code, s, fuel) == Fall(t) && t.trace == r.trace && Held(t.values, p.value) == r.value
            && LiveOf(some, t.memory) == LiveOf(some, branch.memory) && LiveOf(others, t.memory) == r.built
            && Touches(s, t, l.next, p.l.next)
    decreases e, 0, 0
  {
    hide Exec, Does, FlagsOf, AllFlagged, Unset, Touches, LowerExpr, LiveOf, Given;
    var answer := l.next;
    var left := LowerExpr(WithSlot(l), e.left);
    var tested := LogicalRight(left.l, e.isAnd);
    var right := LowerExpr(tested, e.right);
    var branch := AtBranch(u, answer, left, e.isAnd);
    var w := ExprRuns(answers, tested, e.right, others, branch, fuel);
    var stored := w.(memory := w.memory[answer := Held(w.values, right.value)]);
    RightStores(answers, right, answer, branch, w, fuel);
    LogicalBranches(answers, l, e, s, u, stored, fuel);
    t := stored.(values := stored.values[right.l.next := Held(stored.memory, answer)]);
    RightTouches(answer, s, branch, w, t, left.l.next, tested.next, right.l.next, Held(stored.memory, answer), Held(w.values, right.value));
    LiveKept(some, branch, w, tested.next, right.l.next, answer + 1, left.l.next);
    LiveKept(some, w, t, answer, answer + 1, answer + 1, left.l.next);
    LiveKept(others, w, t, answer, answer + 1, tested.next, right.l.next);
  }

  lemma SkipsRight(answers: Answers, l: Lowering, e: Expr, some: seq<Cleanup>, others: seq<Cleanup>, s: Machine, u: Machine, fuel: nat)
      returns (t: Machine)
    requires l.scopes != [] && e.Logical? && LeftRan(answers, l, e, some, others, s, u, fuel)
    requires (Held(u.values, LowerExpr(WithSlot(l), e.left).value) != 0) != e.isAnd
    ensures var left, p := LowerExpr(WithSlot(l), e.left), LowerLogical(l, e);
            var branch := AtBranch(u, l.next, left, e.isAnd);
            && Exec(Does(answers), p.code, s, fuel) == Fall(t) && t.trace == u.trace
            && Held(t.values, p.value) == Held(u.values, left.value)
            && LiveOf(some, t.memory) == LiveOf(some, branch.memory) && LiveOf(others, t.memory) == []
            && Touches(s, t, l.next, p.l.next)
  {
    hide Exec, Does, FlagsOf, AllFlagged, Unset, Touches, LowerExpr, LiveOf, Given;
    var left := LowerExpr(WithSlot(l), e.left);
    var tested := LogicalRight(left.l, e.isAnd);
    var right := LowerExpr(tested, e.right);
    var branch := AtBranch(u, l.next, left, e.isAnd);
    LogicalBranches(answers, l, e, s, u, branch, fuel);
    t := branch.(values := branch.values[right.l.next := Held(branch.memory, l.next)]);
    SkipTouches(s, branch, t, l.next, left.l.next, right.l.next, Held(branch.memory, l.next));
    UnsetIsDead(others, branch.memory);
  }

  lemma SkipTouches(s: Machine, branch: Machine, t: Machine, answer: nat, left: nat, right: nat, v: nat)
    requires answer < left <= right && Touches(s, branch, answer, left)
    requires t == branch.(values := branch.values[right := v])
    ensures Touches(s, t, answer, right + 1)
  {
    forall k | 0 <= k < answer
      ensures Held(t.values, k) == Held(s.values, k)
    {
      assert Held(branch.values, k) == Held(s.values, k);
    }
  }

  lemma RightStores(answers: Answers, right: Piece, answer: nat, s: Machine, w: Machine, fuel: nat)
    requires Exec(Does(answers), right.code, s, fuel) == Fall(w)
    ensures Exec(Does(answers), Concat(right.code, One(Storing(right.value, answer))), s, fuel)
         == Fall(w.(memory := w.memory[answer := Held(w.values, right.value)]))
  {
    hide Exec, Does;
    ExecConcat(Does(answers), right.code, One(Storing(right.value, answer)), s, fuel);
    ExecStoring(answers, right.value, answer, End, w, fuel);
    ExecEnd(answers, w.(memory := w.memory[answer := Held(w.values, right.value)]), fuel);
  }

  lemma BranchTouches(l: Lowering, s: Machine, u: Machine, left: Piece, isAnd: bool)
    requires Touches(s, u, l.next + 1, left.l.next) && l.next < left.l.next
    ensures Touches(s, AtBranch(u, l.next, left, isAnd), l.next, left.l.next)
    ensures Touches(u, AtBranch(u, l.next, left, isAnd), l.next, l.next + 1)
  {
    forall k | 0 <= k < l.next || left.l.next <= k
      ensures Held(AtBranch(u, l.next, left, isAnd).memory, k) == Held(s.memory, k)
    {
      assert Held(u.memory, k) == Held(s.memory, k);
    }
    forall k | 0 <= k < l.next
      ensures Held(AtBranch(u, l.next, left, isAnd).values, k) == Held(s.values, k)
    {
      assert Held(u.values, k) == Held(s.values, k);
    }
  }

  lemma RightTouches(answer: nat, s: Machine, branch: Machine, w: Machine, t: Machine, left: nat, tested: nat, right: nat, v: nat, a: nat)
    requires answer < left <= tested <= right
    requires Touches(s, branch, answer, left) && Touches(branch, w, tested, right)
    requires t == Machine(w.values[right := v], w.memory[answer := a], w.trace)
    ensures Touches(s, t, answer, right + 1) && Touches(w, t, answer, answer + 1)
  {
    TouchesMore(s, branch, w, answer, left, tested, right);
    forall k | 0 <= k < answer
      ensures Held(t.values, k) == Held(s.values, k)
    {
      assert Held(w.values, k) == Held(s.values, k);
    }
    forall k | 0 <= k < answer || right + 1 <= k
      ensures Held(t.memory, k) == Held(s.memory, k)
    {
      assert Held(w.memory, k) == Held(s.memory, k);
    }
  }
}
