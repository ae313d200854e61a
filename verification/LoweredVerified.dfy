/** What is lowered is what the verifier asks for.

    Slots, flags and the places of objects are hoisted to the function's entry, so that whatever region
    reads one sees it. `LoweredIsVerified`: the structured verifier reports nothing about a lowered
    function. So its CFG is accepted and every run of it is safe, if and only if the body cannot be
    fallen off (`LoweredIsAccepted`), which a function that gives nothing back never can; and the run
    that is safe is the one that follows the statements (`LoweredRunsSafely`).
  */
module LoweredVerified {
  import opened Ir
  import opened Lowerer
  import HaardSource
  import LowererMeaning
  import CleanupBalance
  import Flattener
  import FlattenerMeaning
  import Interpreter
  import Verifier
  import VerifierSoundness
  import opened FlattenerScope
  import opened FlattenerVerified

  // ----- Lists of instructions -----

  /** The values a list's own instructions give back. */
  function SeenIn(code: Code): set<nat> {
    if code == End then {} else (if code.Plain? then Given(code.inst) else {}) + SeenIn(code.next)
  }

  lemma {:induction false} VerifiedMore(code: Code, visible: set<nat>, wider: set<nat>)
    requires Verified(code, visible, false) && visible <= wider
    ensures Verified(code, wider, false)
    decreases code, 1
  {
    if code != End {
      HeadVerifiedMore(code, visible, wider);
      VerifiedMore(code.next, SeenAfter(code, visible), SeenAfter(code, wider));
    }
  }

  lemma {:induction false} HeadVerifiedMore(code: Code, visible: set<nat>, wider: set<nat>)
    requires code != End && VerifiedHead(code, visible, false) && visible <= wider
    ensures VerifiedHead(code, wider, false)
    decreases code, 0
  {
    match code
    case Block(_, body, _, _) => VerifiedMore(body, visible, wider);
    case If(_, _, chosen, hasElse, otherwise, _, _) =>
      VerifiedMore(chosen, visible, wider);
      if hasElse {
        VerifiedMore(otherwise, visible, wider);
      }
    case Loop(_, _, body, _, _) => VerifiedMore(body, visible, wider);
    case _ =>
  }

  lemma {:induction false} FreshApart(code: Code, taken: set<nat>, more: set<nat>)
    requires Fresh(code, taken) && Defined(code) !! more
    ensures Fresh(code, taken + more)
    decreases code, 1
  {
    if code != End {
      HeadFreshApart(code, taken, more);
      FreshApart(code.next, taken + DefinedHead(code), more);
      assert taken + DefinedHead(code) + more == taken + more + DefinedHead(code);
    }
  }

  lemma {:induction false} HeadFreshApart(code: Code, taken: set<nat>, more: set<nat>)
    requires code != End && FreshHead(code, taken) && DefinedHead(code) !! more
    ensures FreshHead(code, taken + more)
    decreases code, 0
  {
    match code
    case Block(_, body, _, _) => FreshApart(body, taken, more);
    case If(_, _, chosen, hasElse, otherwise, _, _) =>
      FreshApart(chosen, taken, more);
      if hasElse {
        FreshApart(otherwise, taken + Defined(chosen), more);
        assert taken + Defined(chosen) + more == taken + more + Defined(chosen);
      }
    case Loop(_, _, body, _, _) => FreshApart(body, taken, more);
    case _ =>
  }

  lemma {:induction false} ConcatDefines(first: Code, second: Code)
    ensures Defined(Concat(first, second)) == Defined(first) + Defined(second)
    decreases first
  {
    if first == End {
      assert {} + Defined(second) == Defined(second);
    } else {
      hide DefinedHead;
      var both := Concat(first, second);
      assert both == first.(next := Concat(first.next, second));
      ConcatDefines(first.next, second);
      SameHead(first, both, {});
    }
  }

  lemma {:induction false} ConcatSees(first: Code, second: Code)
    ensures SeenIn(Concat(first, second)) == SeenIn(first) + SeenIn(second)
    decreases first
  {
    if first == End {
      assert {} + SeenIn(second) == SeenIn(second);
    } else {
      hide Given;
      ConcatSees(first.next, second);
      assert Concat(first, second) == first.(next := Concat(first.next, second));
    }
  }

  lemma {:induction false} ConcatStops(first: Code, second: Code)
    ensures Signed(first) && Signed(second) ==> Signed(Concat(first, second))
    ensures Stops(Concat(first, second)) == if second == End then Stops(first) else Stops(second)
    decreases first
  {
    if first != End {
      hide Signed, Stops;
      var both := Concat(first, second);
      assert both == first.(next := Concat(first.next, second));
      ConcatStops(first.next, second);
      HeadSigned(first, both);
      StopsAfter(first, second);
    }
  }

  lemma HeadSigned(code: Code, other: Code)
    requires code != End && other != End && other == code.(next := other.next)
    ensures Signed(code) ==> Signed(code.next)
    ensures Signed(code) && Signed(other.next) ==> Signed(other)
  {
  }

  lemma StopsAfter(first: Code, second: Code)
    requires first != End
    requires Stops(Concat(first.next, second)) == if second == End then Stops(first.next) else Stops(second)
    ensures Stops(Concat(first, second)) == if second == End then Stops(first) else Stops(second)
  {
    if first.next == End {
      assert Concat(first.next, second) == second;
    }
  }

  /** What is asked of the head does not look at what follows, but after a terminator. */
  lemma SameHead(code: Code, other: Code, values: set<nat>)
    requires code != End && other != End && other == code.(next := other.next)
    ensures FreshHead(code, values) == FreshHead(other, values) && DefinedHead(code) == DefinedHead(other)
    ensures SeenAfter(code, values) == SeenAfter(other, values)
    ensures VerifiedHead(code, values, false) && (other.next == End || !Stops(code.(next := End))) ==> VerifiedHead(other, values, false)
  {
  }

  lemma {:induction false} ConcatFresh(first: Code, second: Code, taken: set<nat>)
    requires Fresh(first, taken) && Fresh(second, taken + Defined(first))
    ensures Fresh(Concat(first, second), taken)
    decreases first
  {
    if first == End {
      assert taken + {} == taken;
    } else {
      var after := taken + DefinedHead(first);
      assert after + Defined(first.next) == taken + Defined(first);
      ConcatFresh(first.next, second, after);
      SameHead(first, Concat(first, second), taken);
    }
  }

  /** The second list sees what the first gives back; after a terminator there is none. */
  lemma {:induction false} ConcatVerified(first: Code, second: Code, visible: set<nat>)
    requires Verified(first, visible, false) && Verified(second, visible + SeenIn(first), false)
    requires Stops(first) ==> second == End
    ensures Verified(Concat(first, second), visible, false)
    decreases first
  {
    if first == End {
      assert visible + {} == visible;
    } else {
      var after := SeenAfter(first, visible);
      assert after + SeenIn(first.next) == visible + SeenIn(first);
      ConcatVerified(first.next, second, after);
      SameHead(first, Concat(first, second), visible);
    }
  }

  // ----- Numbers -----

  function SlotsOf(l: Lowering): set<nat> {
    set slot <- l.slots
  }

  /** The values the entry gives back: the slots, and the zeros the flags are cleared with. */
  function Hoisted(l: Lowering): set<nat> {
    SlotsOf(l) + ZerosOf(l.flags)
  }

  function ZerosOf(flags: seq<nat>): set<nat> {
    if flags == [] then {} else ZerosOf(flags[..|flags| - 1]) + {flags[|flags| - 1] + 1}
  }

  lemma {:induction false} ZerosHave(flags: seq<nat>, flag: nat)
    ensures flag in flags <==> flag + 1 in ZerosOf(flags)
    decreases |flags|
  {
    if flags != [] {
      var before, last := flags[..|flags| - 1], flags[|flags| - 1];
      ZerosHave(before, flag);
      assert flags == before + [last];
    }
  }

  ghost predicate Orderly(l: Lowering) {
    && 0 < l.next && (forall value <- Hoisted(l) :: 0 < value < l.next)
    && (forall i, j {:trigger l.slots[i], l.slots[j]} :: 0 <= i < j < |l.slots| ==> l.slots[i] != l.slots[j])
    && (forall i, j {:trigger l.flags[i], l.flags[j]} :: 0 <= i < j < |l.flags| ==> l.flags[i] != l.flags[j])
    && (forall flag <- l.flags :: flag in l.slots && flag + 1 !in l.slots)
  }

  /** Every cleanup is of an object in a slot, behind a flag that is one. */
  ghost predicate InSlots(cleanups: seq<Cleanup>, slots: seq<nat>) {
    forall one <- cleanups :: one.place in slots && (one.flag == 0 || one.flag in slots)
  }

  ghost predicate Placed(l: Lowering) {
    forall scope <- l.scopes :: InSlots(scope.cleanups, l.slots)
  }

  /** What is hoisted between is numbered between. */
  ghost predicate Grown(l: Lowering, later: Lowering) {
    && Orderly(l) && Orderly(later) && l.next <= later.next
    && SlotsOf(l) <= SlotsOf(later) && Hoisted(l) <= Hoisted(later)
    && (forall value <- Hoisted(later) :: value in Hoisted(l) || l.next <= value)
  }

  /** The code emitted from `l` to `later`, where `seen` can be read: it gives back values numbered
      between, each once and none of the hoisted ones, and reads what it sees and slots. */
  ghost predicate Sound(l: Lowering, later: Lowering, code: Code, seen: set<nat>) {
    && Grown(l, later) && Signed(code) && Fresh(code, {})
    && (forall value <- Defined(code) :: l.next <= value < later.next && value !in Hoisted(later))
    && Verified(code, SlotsOf(later) + seen, false)
  }

  ghost predicate SameNumbers(l: Lowering, later: Lowering) {
    l.slots == later.slots && l.flags == later.flags && l.next <= later.next
  }

  lemma GrownThrough(l: Lowering, m: Lowering, n: Lowering, later: Lowering)
    requires Grown(l, m) && SameNumbers(m, n) && Grown(n, later)
    ensures Grown(l, later)
  {
  }

  lemma SoundNone(l: Lowering, later: Lowering, seen: set<nat>)
    requires Orderly(l) && SameNumbers(l, later)
    ensures Sound(l, later, End, seen)
  {
  }

  lemma SoundConcat(l: Lowering, m: Lowering, n: Lowering, later: Lowering, first: Code, second: Code, seen: set<nat>)
    requires Sound(l, m, first, seen) && SameNumbers(m, n) && Sound(n, later, second, seen + SeenIn(first))
    requires Stops(first) ==> second == End
    ensures Sound(l, later, Concat(first, second), seen)
  {
    hide Signed, Verified, Fresh, Defined, SeenIn, Stops;
    GrownThrough(l, m, n, later);
    ConcatDefines(first, second);
    ConcatStops(first, second);
    assert Defined(first) !! Defined(second);
    BothFresh(first, second);
    var visible := SlotsOf(later) + seen;
    VerifiedMore(first, SlotsOf(m) + seen, visible);
    assert SlotsOf(later) + (seen + SeenIn(first)) == visible + SeenIn(first);
    ConcatVerified(first, second, visible);
  }

  lemma BothFresh(first: Code, second: Code)
    requires Fresh(first, {}) && Fresh(second, {}) && Defined(first) !! Defined(second)
    ensures Fresh(Concat(first, second), {})
  {
    FreshApart(second, {}, Defined(first));
    assert {} + Defined(first) == Defined(first);
    ConcatFresh(first, second, {});
  }

  /** With numbers given out after, and more to see. */
  lemma SoundWider(l: Lowering, m: Lowering, code: Code, seen: set<nat>, later: Lowering, more: set<nat>)
    requires Sound(l, m, code, seen) && SameNumbers(m, later) && seen <= more
    ensures Sound(l, later, code, more)
  {
    VerifiedMore(code, SlotsOf(m) + seen, SlotsOf(later) + more);
  }

  /** One instruction. */
  lemma SoundOne(l: Lowering, later: Lowering, inst: Inst, seen: set<nat>)
    requires Orderly(l) && SameNumbers(l, later) && inst.Compute? && !inst.opcode.VCall? && inst.at == HERE
    requires forall value <- inst.operands :: value in SlotsOf(l) || value in seen
    requires inst.result == 0 || l.next <= inst.result < later.next
    ensures Sound(l, later, One(inst), seen)
  {
    assert Checked(inst) == inst.operands;
    assert Defined(One(inst)) == Given(inst);
    assert Verified(End, SeenAfter(One(inst), SlotsOf(later) + seen), false);
  }

  lemma SeenInOne(inst: Inst)
    ensures SeenIn(One(inst)) == Given(inst)
  {
    assert SeenIn(End) == {};
  }

  /** An instruction before code that may read what it gives back. */
  lemma SoundThen(l: Lowering, m: Lowering, later: Lowering, inst: Inst, rest: Code, seen: set<nat>)
    requires Orderly(l) && SameNumbers(l, m) && inst.Compute? && !inst.opcode.VCall? && inst.at == HERE
    requires forall value <- inst.operands :: value in SlotsOf(l) || value in seen
    requires inst.result == 0 || l.next <= inst.result < m.next
    requires Sound(m, later, rest, seen + Given(inst))
    ensures Sound(l, later, Plain(inst, rest), seen)
    ensures Stops(Plain(inst, rest)) == Stops(rest) && SeenIn(Plain(inst, rest)) == Given(inst) + SeenIn(rest)
  {
    hide Sound;
    SoundOne(l, m, inst, seen);
    SeenInOne(inst);
    assert !Stops(One(inst));
    SoundConcat(l, m, m, later, One(inst), rest, seen);
    assert Concat(One(inst), rest) == Plain(inst, rest);
    ConcatSees(One(inst), rest);
    ConcatStops(One(inst), rest);
  }

  /** A region without an `else`, entered on a value that is seen. */
  lemma SoundIf(l: Lowering, later: Lowering, region: nat, test: nat, body: Code, seen: set<nat>)
    requires Sound(l, later, body, seen) && (test in seen || test in SlotsOf(later))
    ensures Sound(l, later, If(region, test, body, false, End, HERE, End), seen)
    ensures !Stops(If(region, test, body, false, End, HERE, End))
  {
    var code := If(region, test, body, false, End, HERE, End);
    assert Defined(code) == Defined(body);
    assert FreshHead(code, {}) && Fresh(End, {} + DefinedHead(code));
    assert Verified(End, SeenAfter(code, SlotsOf(later) + seen), false);
  }

  /** One with both sides. */
  lemma SoundSides(l: Lowering, m: Lowering, later: Lowering, region: nat, test: nat, chosen: Code, otherwise: Code, seen: set<nat>)
    requires Sound(l, m, chosen, seen) && Sound(m, later, otherwise, seen) && (test in seen || test in SlotsOf(later))
    ensures Sound(l, later, If(region, test, chosen, true, otherwise, HERE, End), seen)
    ensures !Stops(If(region, test, chosen, true, otherwise, HERE, End))
  {
    hide Verified, Fresh, Defined, Signed, Stops;
    GrownThrough(l, m, m, later);
    VerifiedMore(chosen, SlotsOf(m) + seen, SlotsOf(later) + seen);
    assert Defined(chosen) !! Defined(otherwise);
    SidesAreFresh(region, test, chosen, otherwise, SlotsOf(later) + seen);
  }

  lemma SidesAreFresh(region: nat, test: nat, chosen: Code, otherwise: Code, visible: set<nat>)
    requires Fresh(chosen, {}) && Fresh(otherwise, {}) && Defined(chosen) !! Defined(otherwise)
    requires Verified(chosen, visible, false) && Verified(otherwise, visible, false) && test in visible
    ensures var code := If(region, test, chosen, true, otherwise, HERE, End);
            && Fresh(code, {}) && Defined(code) == Defined(chosen) + Defined(otherwise) && Verified(code, visible, false)
            && (Signed(chosen) && Signed(otherwise) ==> Signed(code)) && !Stops(code)
  {
    var code := If(region, test, chosen, true, otherwise, HERE, End);
    FreshApart(otherwise, {}, Defined(chosen));
    assert {} + Defined(chosen) == Defined(chosen);
    assert Defined(code) == Defined(chosen) + Defined(otherwise);
    assert FreshHead(code, {}) && Fresh(End, {} + DefinedHead(code));
    assert Verified(End, SeenAfter(code, visible), false);
  }

  /** A loop without a bound, or a block. */
  lemma SoundRegion(l: Lowering, later: Lowering, region: nat, body: Code, seen: set<nat>)
    requires Sound(l, later, body, seen)
    ensures Sound(l, later, Loop(region, NO_BOUND, body, HERE, End), seen) && Sound(l, later, Block(region, body, HERE, End), seen)
    ensures !Stops(Loop(region, NO_BOUND, body, HERE, End))
  {
    var loop, block := Loop(region, NO_BOUND, body, HERE, End), Block(region, body, HERE, End);
    assert Defined(loop) == Defined(body);
    assert Defined(block) == Defined(body);
    assert FreshHead(loop, {}) && FreshHead(block, {}) && Fresh(End, {} + DefinedHead(loop)) && Fresh(End, {} + DefinedHead(block));
    assert Verified(End, SeenAfter(loop, SlotsOf(later) + seen), false) && Verified(End, SeenAfter(block, SlotsOf(later) + seen), false);
  }

  /** A jump at the end of a list. */
  lemma SoundJump(l: Lowering, later: Lowering, code: Code, seen: set<nat>)
    requires Orderly(l) && SameNumbers(l, later)
    requires code.Break? || code.Continue? || (code.Plain? && code.inst.Ret? && (code.inst.value == 0 || code.inst.value in seen))
    requires code.next == End && (if code.Plain? then code.inst.at else code.at) == HERE
    ensures Sound(l, later, code, seen) && Stops(code)
  {
    SameIsGrown(l, later);
    hide Orderly, Grown;
    var visible := SlotsOf(later) + seen;
    assert Defined(code) == {};
    assert Fresh(code, {});
    assert VerifiedHead(code, visible, false);
    assert Verified(code.next, SeenAfter(code, visible), false);
    assert Signed(code);
  }

  lemma SameIsGrown(l: Lowering, later: Lowering)
    requires Orderly(l) && SameNumbers(l, later)
    ensures Grown(l, later)
  {
    assert Hoisted(later) == Hoisted(l);
  }

  /** The code is sound and goes on to what follows. */
  ghost predicate GoesOn(l: Lowering, p: Piece, seen: set<nat>) {
    Sound(l, p.l, p.code, seen) && !Stops(p.code)
  }

  // ----- Cleanups -----

  lemma EndOneIsSound(l: Lowering, one: Cleanup)
    requires Orderly(l) && InSlots([one], l.slots)
    ensures GoesOn(l, EndOne(l, one), {})
  {
    hide Sound, Orderly, Stops;
    assert one in [one];
    if one.flag == 0 {
      SoundOne(l, l, Destroying(one.object_, one.place), {});
      NeverStops(EndOne(l, one).code);
    } else {
      var test, zero := l.next, l.next + 1;
      var p, tested := EndOne(l, one), l.(next := l.next + 1);
      var body := Plain(Destroying(one.object_, one.place), Two(Constant(0, zero), Storing(zero, one.flag)));
      NumbersGo(l, tested);
      var seen := {} + Given(Loading(one.flag, test));
      BodyIsSound(tested, p.l, one, zero, seen);
      SoundIf(tested, p.l, l.regions, test, body, seen);
      SoundThen(l, tested, p.l, Loading(one.flag, test), If(l.regions, test, body, false, End, HERE, End), {});
    }
  }

  lemma NumbersGo(l: Lowering, later: Lowering)
    requires Orderly(l) && SameNumbers(l, later)
    ensures Orderly(later) && 0 < l.next
  {
  }

  /** The object ends and its flag is cleared. */
  lemma BodyIsSound(l: Lowering, later: Lowering, one: Cleanup, zero: nat, seen: set<nat>)
    requires Orderly(l) && SameNumbers(l, later) && l.next == zero < later.next && one.place in l.slots && one.flag in l.slots
    ensures Sound(l, later, Plain(Destroying(one.object_, one.place), Two(Constant(0, zero), Storing(zero, one.flag))), seen)
  {
    hide Sound, Orderly, Stops;
    NumbersGo(l, later);
    var cleared := Two(Constant(0, zero), Storing(zero, one.flag));
    SoundOne(later, later, Storing(zero, one.flag), seen + Given(Destroying(one.object_, one.place)) + Given(Constant(0, zero)));
    SoundThen(l, later, later, Constant(0, zero), One(Storing(zero, one.flag)), seen + Given(Destroying(one.object_, one.place)));
    SoundThen(l, l, later, Destroying(one.object_, one.place), cleared, seen);
  }

  lemma NeverStops(code: Code)
    requires code.Plain? && code.inst.Compute? && code.next == End
    ensures !Stops(code)
  {
  }

  lemma {:induction false} EndAllIsSound(l: Lowering, cleanups: seq<Cleanup>)
    requires Orderly(l) && InSlots(cleanups, l.slots)
    ensures GoesOn(l, EndAll(l, cleanups), {})
    decreases |cleanups|
  {
    hide Sound, Orderly, EndOne;
    if cleanups == [] {
      SoundNone(l, l, {});
    } else {
      var one, before := cleanups[|cleanups| - 1], cleanups[..|cleanups| - 1];
      var last := EndOne(l, one);
      NumbersGo(l, last.l);
      EndOneIsSound(l, one);
      EndAllIsSound(last.l, before);
      var rest := EndAll(last.l, before);
      SoundWider(last.l, rest.l, rest.code, {}, rest.l, {} + SeenIn(last.code));
      SoundConcat(l, last.l, last.l, rest.l, last.code, rest.code, {});
      ConcatStops(last.code, rest.code);
    }
  }

  ghost predicate AllInSlots(scopes: seq<Scope>, slots: seq<nat>) {
    forall scope <- scopes :: InSlots(scope.cleanups, slots)
  }

  lemma {:induction false} EndScopesIsSound(l: Lowering, scopes: seq<Scope>, depth: nat)
    requires Orderly(l) && AllInSlots(scopes, l.slots)
    ensures GoesOn(l, EndScopes(l, scopes, depth), {})
    decreases |scopes|
  {
    hide Sound, Orderly, EndAll, InSlots;
    if |scopes| <= depth {
      SoundNone(l, l, {});
    } else {
      var last, before := scopes[|scopes| - 1], scopes[..|scopes| - 1];
      var inner := EndAll(l, last.cleanups);
      NumbersGo(l, inner.l);
      EndAllIsSound(l, last.cleanups);
      EndScopesIsSound(inner.l, before, depth);
      var outer := EndScopes(inner.l, before, depth);
      SoundWider(inner.l, outer.l, outer.code, {}, outer.l, {} + SeenIn(inner.code));
      SoundConcat(l, inner.l, inner.l, outer.l, inner.code, outer.code, {});
      ConcatStops(inner.code, outer.code);
    }
  }

  // ----- Expressions -----

  lemma SlotIsOrderly(l: Lowering)
    requires Orderly(l)
    ensures Orderly(WithSlot(l)) && Grown(l, WithSlot(l)) && 0 < l.next && l.next in WithSlot(l).slots
    ensures Hoisted(WithSlot(l)) == Hoisted(l) + {l.next}
  {
    hide ZerosOf;
    var later := WithSlot(l);
    assert later.slots[|l.slots|] == l.next;
    assert SlotsOf(later) == SlotsOf(l) + {l.next};
    forall flag <- later.flags
      ensures flag in later.slots && flag + 1 !in later.slots
    {
      ZerosHave(l.flags, flag);
      assert flag + 1 in Hoisted(l);
    }
  }

  lemma OneMoreZero(flags: seq<nat>, flag: nat)
    ensures ZerosOf(flags + [flag]) == ZerosOf(flags) + {flag + 1}
  {
    assert (flags + [flag])[..|flags|] == flags;
  }

  /** A flag is a slot and a zero. */
  lemma FlagIsOrderly(l: Lowering, later: Lowering)
    requires Orderly(l) && later.slots == l.slots + [l.next] && later.flags == l.flags + [l.next] && l.next + 2 <= later.next
    ensures Orderly(later) && Grown(l, later) && 0 < l.next && l.next in later.slots
    ensures Hoisted(later) == Hoisted(l) + {l.next, l.next + 1}
  {
    OneMoreZero(l.flags, l.next);
    hide ZerosOf;
    assert later.slots[|l.slots|] == l.next && later.flags[|l.flags|] == l.next;
    assert SlotsOf(later) == SlotsOf(l) + {l.next};
    assert l.next + 1 !in l.slots by { assert l.next + 1 !in Hoisted(l); }
    forall flag <- later.flags
      ensures flag in later.slots && flag + 1 !in later.slots
    {
      ZerosHave(l.flags, flag);
      assert flag in l.flags ==> flag + 1 in Hoisted(l);
    }
    forall i, j | 0 <= i < j < |later.flags|
      ensures later.flags[i] != later.flags[j]
    {
      assert later.flags[i] in l.slots && later.flags[i] in SlotsOf(l);
    }
  }

  lemma StillInSlots(cleanups: seq<Cleanup>, slots: seq<nat>, more: seq<nat>)
    requires InSlots(cleanups, slots) && forall slot <- slots :: slot in more
    ensures InSlots(cleanups, more)
  {
  }

  lemma StillPlaced(l: Lowering, later: Lowering)
    requires Placed(l) && later.scopes == l.scopes && SlotsOf(l) <= SlotsOf(later)
    ensures Placed(later)
  {
    forall scope <- later.scopes
      ensures InSlots(scope.cleanups, later.slots)
    {
      assert forall slot <- l.slots :: slot in SlotsOf(l);
      StillInSlots(scope.cleanups, l.slots, later.slots);
    }
  }

  lemma RegisteredPlaced(l: Lowering, at: nat, one: Cleanup)
    requires Placed(l) && at < |l.scopes| && one.place in l.slots && (one.flag == 0 || one.flag in l.slots)
    ensures Placed(Register(l, at, one))
  {
    forall scope <- Register(l, at, one).scopes
      ensures InSlots(scope.cleanups, l.slots)
    {
      assert l.scopes[at] in l.scopes;
      if scope !in l.scopes {
        assert scope.cleanups == l.scopes[at].cleanups + [one];
      }
    }
  }

  lemma AddedIsSound(l: Lowering, object_: nat, place: nat, local: bool)
    requires l.scopes != [] && Orderly(l) && Placed(l) && place in l.slots
    ensures var kept := AddCleanup(l, object_, place, local); GoesOn(l, kept, {}) && Placed(kept.l)
  {
    hide Sound, Orderly, Placed, Stops;
    var at := if local then ScopeOf(l.scopes, |l.scopes| - 1) else |l.scopes| - 1;
    var kept := AddCleanup(l, object_, place, local);
    if l.conditional > 0 && !local {
      var flag, one := l.next, l.next + 2;
      var flagged := l.(next := l.next + 3, slots := l.slots + [flag], flags := l.flags + [flag]);
      FlagIsOrderly(l, flagged);
      assert forall slot <- l.slots :: slot in SlotsOf(l) && slot in flagged.slots;
      StillPlaced(l, flagged);
      RegisteredPlaced(flagged, at, Cleanup(object_, place, flag));
      SetsFlag(l, flagged, kept.l, flag, one);
    } else {
      RegisteredPlaced(l, at, Cleanup(object_, place, 0));
      SoundNone(l, kept.l, {});
      EndGoesOn();
    }
  }

  lemma EndGoesOn()
    ensures !Stops(End) && SeenIn(End) == {}
  {
  }

  /** The flag is set: its cell is hoisted, and the 1 is not. */
  lemma SetsFlag(l: Lowering, flagged: Lowering, later: Lowering, flag: nat, one: nat)
    requires Orderly(l) && flag == l.next && one == l.next + 2
    requires flagged == l.(next := l.next + 3, slots := l.slots + [flag], flags := l.flags + [flag])
    requires SameNumbers(flagged, later) && later.next == flagged.next
    ensures Sound(l, later, Two(Constant(1, one), Storing(one, flag)), {}) && !Stops(Two(Constant(1, one), Storing(one, flag)))
  {
    var between := flagged.(next := one);
    FlagIsOrderly(l, between);
    SetsFlagBetween(between, later, flag, one);
    Before(l, between, later, Two(Constant(1, one), Storing(one, flag)), {});
  }

  lemma SetsFlagBetween(l: Lowering, later: Lowering, flag: nat, one: nat)
    requires Orderly(l) && flag in l.slots && one == l.next && SameNumbers(l, later) && one < later.next
    ensures Sound(l, later, Two(Constant(1, one), Storing(one, flag)), {}) && !Stops(Two(Constant(1, one), Storing(one, flag)))
  {
    hide Sound, Stops, Orderly;
    NumbersGo(l, later);
    SoundOne(later, later, Storing(one, flag), {} + Given(Constant(1, one)));
    NeverStops(One(Storing(one, flag)));
    SoundThen(l, later, later, Constant(1, one), One(Storing(one, flag)), {});
  }

  /** What is hoisted before the code. */
  lemma Before(l: Lowering, m: Lowering, later: Lowering, code: Code, seen: set<nat>)
    requires Grown(l, m) && Sound(m, later, code, seen)
    ensures Sound(l, later, code, seen)
  {
    GrownThrough(l, m, m, later);
  }

  /** The code gives the value, and more that follows it sees it. */
  ghost predicate GivesValue(l: Lowering, p: Piece) {
    GoesOn(l, p, {}) && p.value in SeenIn(p.code) && Placed(p.l)
  }

  /** Numbers given out before the code, to nothing that is hoisted. */
  lemma SoundFrom(l: Lowering, m: Lowering, later: Lowering, code: Code, seen: set<nat>)
    requires Orderly(l) && SameNumbers(l, m) && Sound(m, later, code, seen)
    ensures Sound(l, later, code, seen)
  {
  }

  lemma SoundGrows(l: Lowering, later: Lowering, code: Code, seen: set<nat>)
    requires Sound(l, later, code, seen)
    ensures Orderly(l) && Orderly(later) && SlotsOf(l) <= SlotsOf(later) && l.next <= later.next && 0 < l.next
  {
  }

  lemma {:induction false} ExprIsSound(l: Lowering, e: Expr)
    requires l.scopes != [] && Orderly(l) && Placed(l)
    ensures GivesValue(l, LowerExpr(l, e))
    decreases e, 1
  {
    match e
    case Call(function_) => CallIsSound(l, function_);
    case Temporary(object_) => TemporaryIsSound(l, object_);
    case Both(first, second) => BothIsSound(l, e);
    case Logical(_, _, _) => LogicalIsSound(l, e);
  }

  lemma CallIsSound(l: Lowering, function_: nat)
    requires l.scopes != [] && Orderly(l) && Placed(l)
    ensures GivesValue(l, LowerExpr(l, HaardSource.Call(function_)))
  {
    hide Sound, Orderly, Placed;
    var p := LowerExpr(l, HaardSource.Call(function_));
    NumbersGo(l, p.l);
    SoundOne(l, p.l, Calling(function_, l.next), {});
    SeenInOne(Calling(function_, l.next));
    StillPlaced(l, p.l);
  }

  lemma TemporaryIsSound(l: Lowering, object_: nat)
    requires l.scopes != [] && Orderly(l) && Placed(l)
    ensures GivesValue(l, LowerExpr(l, HaardSource.Temporary(object_)))
  {
    hide Sound, Orderly, Placed, Stops, AddCleanup, SeenIn, Hoisted;
    var with_, placed := WithSlot(l), WithSlot(l).(next := l.next + 2);
    var place, value := l.next, l.next + 1;
    SlotIsOrderly(l);
    NumbersGo(with_, placed);
    assert Placed(placed) by { assert forall slot <- l.slots :: slot in placed.slots; StillPlaced(l, placed); }
    AddedIsSound(placed, object_, place, false);
    var kept := AddCleanup(placed, object_, place, false);
    var address, build := AddressOf(object_, place, value), Building(object_, place);
    SoundWider(placed, kept.l, kept.code, {}, kept.l, {} + Given(address) + Given(build));
    SoundThen(placed, placed, kept.l, build, kept.code, {} + Given(address));
    SoundThen(with_, placed, kept.l, address, Plain(build, kept.code), {});
    Before(l, with_, kept.l, Plain(address, Plain(build, kept.code)), {});
  }

  lemma {:induction false} BothIsSound(l: Lowering, e: Expr)
    requires l.scopes != [] && Orderly(l) && Placed(l) && e.Both?
    ensures GivesValue(l, LowerExpr(l, e))
    decreases e, 0
  {
    hide Sound, Orderly, Placed, Stops, SeenIn;
    var one := LowerExpr(l, e.first);
    ExprIsSound(l, e.first);
    SoundGrows(l, one.l, one.code, {});
    ExprIsSound(one.l, e.second);
    var two := LowerExpr(one.l, e.second);
    SoundWider(one.l, two.l, two.code, {}, two.l, {} + SeenIn(one.code));
    SoundConcat(l, one.l, one.l, two.l, one.code, two.code, {});
    ConcatStops(one.code, two.code);
    ConcatSees(one.code, two.code);
  }

  lemma {:induction false} LogicalIsSound(l: Lowering, e: Expr)
    requires l.scopes != [] && Orderly(l) && Placed(l) && e.Logical?
    ensures GivesValue(l, LowerExpr(l, e))
    decreases e, 0
  {
    hide Sound, Orderly, Placed, Stops, SeenIn, Hoisted;
    var begun := WithSlot(l);
    var left := LowerExpr(begun, e.left);
    var tested := LogicalRight(left.l, e.isAnd);
    var right := LowerExpr(tested, e.right);
    SlotIsOrderly(l);
    assert Placed(begun) by { assert forall slot <- l.slots :: slot in begun.slots; StillPlaced(l, begun); }
    ExprIsSound(begun, e.left);
    SoundGrows(begun, left.l, left.code, {});
    NumbersGo(left.l, tested);
    StillPlaced(left.l, tested);
    ExprIsSound(tested, e.right);
    SoundGrows(tested, right.l, right.code, {});
    assert l.next in right.l.slots by { assert l.next in SlotsOf(begun); }
    RegionIsSound(l, e, left, right);
  }

  /** The left side, its store, the branch, and the load. */
  lemma RegionIsSound(l: Lowering, e: Expr, left: Piece, right: Piece)
    requires l.scopes != [] && Orderly(l) && e.Logical? && left == LowerExpr(WithSlot(l), e.left)
    requires right == LowerExpr(LogicalRight(left.l, e.isAnd), e.right) && l.next in right.l.slots
    requires GivesValue(WithSlot(l), left) && GivesValue(LogicalRight(left.l, e.isAnd), right)
    ensures GivesValue(l, LowerExpr(l, e))
  {
    hide Sound, Orderly, Placed, Stops, SeenIn, Hoisted, LowerExpr;
    var p := LowerLogical(l, e);
    assert LowerExpr(l, e) == p by { LowererMeaning.LogicalIsLogical(l, e); }
    var begun, tested := WithSlot(l), LogicalRight(left.l, e.isAnd);
    SlotIsOrderly(l);
    SoundGrows(begun, left.l, left.code, {});
    SoundGrows(tested, right.l, right.code, {});
    NumbersGo(right.l, p.l);
    StillPlaced(right.l, p.l);
    var test := if e.isAnd then left.value else left.l.next;
    var store, negate := Storing(left.value, l.next), Negating(left.value, left.l.next);
    var base := {} + SeenIn(left.code);
    var seen := if e.isAnd then base + Given(store) else base + Given(store) + Given(negate);
    var region := BranchIsSound(tested, right, p.l, left.l.regions, test, l.next, seen);
    var rest := if e.isAnd then region else Plain(negate, region);
    if e.isAnd {
      SoundFrom(left.l, tested, p.l, region, seen);
    } else {
      SoundThen(left.l, tested, p.l, negate, region, base + Given(store));
    }
    assert l.next in SlotsOf(left.l) by { assert l.next in SlotsOf(begun); }
    SoundThen(left.l, left.l, p.l, store, rest, base);
    SoundConcat(begun, left.l, left.l, p.l, left.code, Plain(store, rest), {});
    ConcatStops(left.code, Plain(store, rest));
    ConcatSees(left.code, Plain(store, rest));
    Before(l, begun, p.l, p.code, {});
  }

  lemma BranchIsSound(l: Lowering, right: Piece, later: Lowering, region: nat, test: nat, answer: nat, seen: set<nat>) returns (code: Code)
    requires GivesValue(l, right) && later.slots == right.l.slots && later.flags == right.l.flags && later.next == right.l.next + 1
    requires test in seen && answer in right.l.slots
    ensures code == If(region, test, Concat(right.code, One(Storing(right.value, answer))), false, End, HERE, One(Loading(answer, right.l.next)))
    ensures Sound(l, later, code, seen) && !Stops(code) && right.l.next in SeenIn(code)
  {
    hide Sound, Orderly, Stops;
    SoundGrows(l, right.l, right.code, {});
    var store, load := Storing(right.value, answer), Loading(answer, right.l.next);
    var body := Concat(right.code, One(store));
    SoundWider(l, right.l, right.code, {}, right.l, seen);
    SoundOne(right.l, right.l, store, seen + SeenIn(right.code));
    SoundConcat(l, right.l, right.l, right.l, right.code, One(store), seen);
    var branch := If(region, test, body, false, End, HERE, End);
    SoundIf(l, right.l, region, test, body, seen);
    SoundOne(right.l, later, load, seen + SeenIn(branch));
    SoundConcat(l, right.l, right.l, later, branch, One(load), seen);
    code := Concat(branch, One(load));
    NeverStops(One(load));
    SeenInOne(load);
    ConcatStops(branch, One(load));
    ConcatSees(branch, One(load));
  }

  // ----- Statements -----

  lemma OpenedPlaced(l: Lowering, statement: bool)
    requires Orderly(l) && Placed(l)
    ensures Orderly(OpenScope(l, statement)) && Placed(OpenScope(l, statement)) && SameNumbers(l, OpenScope(l, statement))
  {
  }

  lemma PoppedPlaced(l: Lowering)
    requires l.scopes != [] && Orderly(l) && Placed(l)
    ensures Orderly(PopScope(l)) && Placed(PopScope(l))
  {
  }

  lemma PlacedScopes(l: Lowering, depth: nat)
    requires Orderly(l) && Placed(l)
    ensures GoesOn(l, RunCleanups(l, depth), {}) && Orderly(RunCleanups(l, depth).l) && Placed(RunCleanups(l, depth).l)
  {
    hide Sound, Orderly, Stops, EndScopes;
    EndScopesIsSound(l, l.scopes, depth);
    SoundGrows(l, RunCleanups(l, depth).l, RunCleanups(l, depth).code, {});
  }

  lemma CloseIsSound(l: Lowering, stopped: bool)
    requires l.scopes != [] && Orderly(l) && Placed(l)
    ensures GoesOn(l, CloseScope(l, stopped), {}) && Placed(CloseScope(l, stopped).l)
    ensures stopped ==> CloseScope(l, stopped).code == End
  {
    hide Sound, Orderly, Placed, Stops, RunCleanups;
    var closed := CloseScope(l, stopped);
    if stopped {
      PoppedPlaced(l);
      SoundNone(l, closed.l, {});
      EndGoesOn();
    } else {
      var ended := RunCleanups(l, |l.scopes| - 1);
      PlacedScopes(l, |l.scopes| - 1);
      PoppedPlaced(ended.l);
      SoundWider(l, ended.l, ended.code, {}, closed.l, {});
    }
  }

  /** Code and then a scope's end. */
  lemma SoundClosed(l: Lowering, inside: Lowering, code: Code, stopped: bool)
    requires inside.scopes != [] && Sound(l, inside, code, {}) && Placed(inside) && (Stops(code) ==> stopped)
    ensures var closed := CloseScope(inside, stopped);
            && Sound(l, closed.l, Concat(code, closed.code), {}) && Placed(closed.l)
            && (!Stops(code) ==> !Stops(Concat(code, closed.code))) && SeenIn(code) <= SeenIn(Concat(code, closed.code))
  {
    hide Sound, Orderly, Placed, Stops, CloseScope, SeenIn;
    SoundGrows(l, inside, code, {});
    CloseIsSound(inside, stopped);
    var closed := CloseScope(inside, stopped);
    SoundWider(inside, closed.l, closed.code, {}, closed.l, {} + SeenIn(code));
    SoundConcat(l, inside, inside, closed.l, code, closed.code, {});
    ConcatStops(code, closed.code);
    ConcatSees(code, closed.code);
  }

  lemma WholeIsSound(l: Lowering, e: Expr)
    requires Orderly(l) && Placed(l)
    ensures GivesValue(l, LowerWhole(l, e))
  {
    hide Sound, Orderly, Placed, Stops, CloseScope, SeenIn, LowerExpr;
    var begun := OpenScope(l, true);
    OpenedPlaced(l, true);
    ExprIsSound(begun, e);
    var given := LowerExpr(begun, e);
    SoundClosed(begun, given.l, given.code, false);
    SoundFrom(l, begun, LowerWhole(l, e).l, LowerWhole(l, e).code, {});
  }

  /** A statement's code is sound, and its cleanups are of objects in slots. */
  ghost predicate StmtSound(l: Lowering, p: Piece) {
    Sound(l, p.l, p.code, {}) && Placed(p.l)
  }

  /** One piece after another. */
  lemma StmtsSound(l: Lowering, one: Piece, m: Lowering, two: Piece)
    requires StmtSound(l, one) && !Stops(one.code) && SameNumbers(one.l, m) && Sound(m, two.l, two.code, {})
    ensures Sound(l, two.l, Concat(one.code, two.code), {})
    ensures Stops(Concat(one.code, two.code)) == (two.code != End && Stops(two.code))
  {
    hide Sound, Stops, SeenIn;
    SoundWider(m, two.l, two.code, {}, two.l, {} + SeenIn(one.code));
    SoundConcat(l, one.l, m, two.l, one.code, two.code, {});
    ConcatStops(one.code, two.code);
  }

  lemma {:induction false} ListIsSound(l: Lowering, body: Stmts)
    requires Lowerable(l, body) && Orderly(l) && Placed(l)
    ensures StmtSound(l, LowerStmts(l, body))
    decreases body, 1
  {
    hide Sound, Orderly, Placed, Stops, LowerOne;
    match body
    case Nothing => SoundNone(l, l, {});
    case Then(first, rest) =>
      var one := LowerOne(l, first);
      OneIsSound(l, first);
      if !Stops(one.code) {
        SoundGrows(l, one.l, one.code, {});
        ListIsSound(one.l, rest);
        StmtsSound(l, one, one.l, LowerStmts(one.l, rest));
      }
  }

  lemma {:induction false} BlockIsSound(l: Lowering, body: Stmts)
    requires HaardSource.InLoops(body, l.loops != []) && Orderly(l) && Placed(l)
    ensures StmtSound(l, LowerBlock(l, body))
    decreases body, 2
  {
    hide Sound, Orderly, Placed, Stops, LowerStmts, CloseScope;
    var begun := OpenScope(l, false);
    OpenedPlaced(l, false);
    var inside := LowerStmts(begun, body);
    ListIsSound(begun, body);
    SoundClosed(begun, inside.l, inside.code, Stops(inside.code));
    SoundFrom(l, begun, LowerBlock(l, body).l, LowerBlock(l, body).code, {});
  }

  lemma {:induction false} OneIsSound(l: Lowering, first: Stmt)
    requires InBlock(l) && HaardSource.InLoopsOne(first, l.loops != []) && Orderly(l) && Placed(l)
    ensures StmtSound(l, LowerOne(l, first))
    decreases first, 1
  {
    hide Sound, Orderly, Placed, Stops, LowerWhole, LowerBlock, LowerIf, LowerWhile, LowerFor, LowerReturn, LowerLet, RunCleanups;
    match first
    case Evaluate(given) => WholeIsSound(l, given);
    case Let(object_, given) => LetIsSound(l, object_, given);
    case BlockOf(body) => BlockIsSound(l, body);
    case IfElse(_, _, _, _) => IfIsSound(l, first);
    case While(_, _, _) => WhileIsSound(l, first);
    case For(_, _, _, _, _) => ForIsSound(l, first);
    case Return(hasValue, given) => ReturnIsSound(l, hasValue, given);
    case BreakLoop =>
      var around := l.loops[|l.loops| - 1];
      JumpIsSound(l, around.depth, Break(around.broken, HERE, End));
    case ContinueLoop =>
      var around := l.loops[|l.loops| - 1];
      JumpIsSound(l, around.depth, if around.continueBreaks then Break(around.continued, HERE, End) else Continue(around.continued, HERE, End));
  }

  lemma JumpIsSound(l: Lowering, depth: nat, jump: Code)
    requires Orderly(l) && Placed(l) && (jump.Break? || jump.Continue?) && jump.next == End && jump.at == HERE
    ensures var ended := RunCleanups(l, depth); StmtSound(l, Piece(ended.l, Concat(ended.code, jump), 0))
  {
    hide Sound, Orderly, Placed, Stops, RunCleanups;
    var ended := RunCleanups(l, depth);
    PlacedScopes(l, depth);
    SoundJump(ended.l, ended.l, jump, {});
    StmtsSound(l, ended, ended.l, Piece(ended.l, jump, 0));
  }

  lemma LetIsSound(l: Lowering, object_: nat, given: Expr)
    requires InBlock(l) && Orderly(l) && Placed(l)
    ensures StmtSound(l, LowerLet(l, object_, given)) && !Stops(LowerLet(l, object_, given).code)
  {
    hide Sound, Orderly, Placed, Stops, CloseScope, SeenIn, LowerExpr, AddCleanup, Hoisted;
    var placed := WithSlot(l);
    var begun := OpenScope(placed, true);
    SlotIsOrderly(l);
    assert Placed(placed) by { assert forall slot <- l.slots :: slot in placed.slots; StillPlaced(l, placed); }
    OpenedPlaced(placed, true);
    ExprIsSound(begun, given);
    var value := LowerExpr(begun, given);
    SoundGrows(begun, value.l, value.code, {});
    assert l.next in value.l.slots by { assert l.next in SlotsOf(begun); }
    LetRegisters(placed, value.l, object_, l.next);
    AddedIsSound(value.l, object_, l.next, true);
    var kept := AddCleanup(value.l, object_, l.next, true);
    var build := Building(object_, l.next);
    assert kept.code == End;
    SoundThen(value.l, value.l, kept.l, build, End, {}) by { SoundWider(value.l, kept.l, End, {}, kept.l, {} + Given(build)); }
    SoundClosed(value.l, kept.l, Plain(build, End), false) by { NeverStops(Plain(build, End)); }
    var closed := CloseScope(kept.l, false);
    var rest := Piece(closed.l, Concat(Plain(build, End), closed.code), 0);
    StmtsSound(begun, value, value.l, rest);
    var p := LowerLet(l, object_, given);
    assert Concat(kept.code, closed.code) == closed.code && rest.code == Plain(build, closed.code);
    SoundFrom(placed, begun, p.l, p.code, {});
    Before(l, placed, p.l, p.code, {});
  }

  lemma ReturnIsSound(l: Lowering, hasValue: bool, given: Expr)
    requires Orderly(l) && Placed(l)
    ensures StmtSound(l, LowerReturn(l, hasValue, given))
  {
    hide Sound, Orderly, Placed, Stops, SeenIn, LowerExpr, RunCleanups;
    var begun := OpenScope(l, true);
    OpenedPlaced(l, true);
    var value := if hasValue then LowerExpr(begun, given) else Piece(begun, End, 0);
    if hasValue {
      ExprIsSound(begun, given);
    } else {
      SoundNone(begun, begun, {});
      EndGoesOn();
    }
    SoundGrows(begun, value.l, value.code, {});
    PlacedScopes(value.l, 0);
    var ended := RunCleanups(value.l, 0);
    var ret := Plain(Ret(value.value, HERE), End);
    var p := LowerReturn(l, hasValue, given);
    PoppedPlaced(ended.l);
    var seen := {} + SeenIn(value.code);
    SoundWider(value.l, ended.l, ended.code, {}, ended.l, seen);
    SoundJump(ended.l, p.l, ret, seen + SeenIn(ended.code));
    SoundConcat(value.l, ended.l, ended.l, p.l, ended.code, ret, seen);
    SoundConcat(begun, value.l, value.l, p.l, value.code, Concat(ended.code, ret), {});
    SoundFrom(l, begun, p.l, p.code, {});
  }

  /** With more regions, and other loops. */
  lemma StillOrderly(l: Lowering, later: Lowering)
    requires Orderly(l) && Placed(l) && SameNumbers(l, later) && later.scopes == l.scopes
    ensures Orderly(later) && Placed(later)
  {
    NumbersGo(l, later);
    StillPlaced(l, later);
  }

  lemma {:induction false} IfIsSound(l: Lowering, s: Stmt)
    requires s.IfElse? && l.scopes != [] && HaardSource.InLoopsOne(s, l.loops != []) && Orderly(l) && Placed(l)
    ensures StmtSound(l, LowerIf(l, s))
    decreases s, 0
  {
    hide Sound, Orderly, Placed, Stops, SeenIn, LowerWhole, LowerBlock;
    var test := LowerWhole(l, s.test);
    WholeIsSound(l, s.test);
    SoundGrows(l, test.l, test.code, {});
    var inside := test.l.(regions := test.l.regions + 1);
    StillOrderly(test.l, inside);
    BlockIsSound(inside, s.chosen);
    var chosen := LowerBlock(inside, s.chosen);
    SoundGrows(inside, chosen.l, chosen.code, {});
    var seen := {} + SeenIn(test.code);
    var p := LowerIf(l, s);
    SoundWider(inside, chosen.l, chosen.code, {}, chosen.l, seen);
    if s.hasElse {
      BlockIsSound(chosen.l, s.otherwise);
      var otherwise := LowerBlock(chosen.l, s.otherwise);
      SoundWider(chosen.l, otherwise.l, otherwise.code, {}, otherwise.l, seen);
      SoundSides(inside, chosen.l, p.l, test.l.regions, test.value, chosen.code, otherwise.code, seen);
    } else {
      SoundIf(inside, p.l, test.l.regions, test.value, chosen.code, seen);
    }
    var region := If(test.l.regions, test.value, chosen.code, s.hasElse, if s.hasElse then LowerBlock(chosen.l, s.otherwise).code else End, HERE, End);
    SoundConcat(l, test.l, inside, p.l, test.code, region, {});
  }

  lemma TestIsSound(l: Lowering, hasTest: bool, test: Expr, loop: nat)
    requires Orderly(l) && Placed(l)
    ensures StmtSound(l, LowerTest(l, hasTest, test, loop)) && !Stops(LowerTest(l, hasTest, test, loop).code)
  {
    hide Sound, Orderly, Placed, Stops, SeenIn, LowerWhole;
    var p := LowerTest(l, hasTest, test, loop);
    if hasTest {
      var whole := LowerWhole(l, test);
      WholeIsSound(l, test);
      SoundGrows(l, whole.l, whole.code, {});
      StillOrderly(whole.l, p.l);
      var negate, leave, seen := Negating(whole.value, whole.l.next), Break(loop, HERE, End), {} + SeenIn(whole.code);
      SoundJump(p.l, p.l, leave, seen + Given(negate));
      SoundIf(p.l, p.l, whole.l.regions, whole.l.next, leave, seen + Given(negate));
      var branch := If(whole.l.regions, whole.l.next, leave, false, End, HERE, End);
      SoundThen(whole.l, p.l, p.l, negate, branch, seen);
      SoundConcat(l, whole.l, whole.l, p.l, whole.code, Plain(negate, branch), {});
      ConcatStops(whole.code, Plain(negate, branch));
    } else {
      SoundNone(l, l, {});
      EndGoesOn();
    }
  }

  lemma {:induction false} WhileIsSound(l: Lowering, s: Stmt)
    requires s.While? && l.scopes != [] && HaardSource.InLoopsOne(s, l.loops != []) && Orderly(l) && Placed(l)
    ensures StmtSound(l, LowerWhile(l, s))
    decreases s, 0
  {
    hide Sound, Orderly, Placed, Stops, LowerTest, LowerBlock;
    var loop, begun := l.regions, l.(regions := l.regions + 1);
    StillOrderly(l, begun);
    var test := LowerTest(begun, s.hasTest, s.test, loop);
    TestIsSound(begun, s.hasTest, s.test, loop);
    SoundGrows(begun, test.l, test.code, {});
    var inside := test.l.(loops := l.loops + [LoopAround(loop, loop, false, |l.scopes|)]);
    StillOrderly(test.l, inside);
    BlockIsSound(inside, s.body);
    var body := LowerBlock(inside, s.body);
    SoundGrows(inside, body.l, body.code, {});
    StmtsSound(begun, test, inside, body);
    var p := LowerWhile(l, s);
    StillOrderly(body.l, p.l);
    SoundWider(begun, body.l, Concat(test.code, body.code), {}, p.l, {});
    SoundRegion(begun, p.l, loop, Concat(test.code, body.code), {});
    SoundFrom(l, begun, p.l, p.code, {});
  }

  lemma {:induction false} StepsAreSound(l: Lowering, steps: Exprs)
    requires Orderly(l) && Placed(l)
    ensures StmtSound(l, LowerSteps(l, steps))
    decreases steps
  {
    hide Sound, Orderly, Placed, Stops, LowerWhole;
    match steps
    case NoMore => SoundNone(l, l, {});
    case More(first, rest) =>
      var one := LowerWhole(l, first);
      WholeIsSound(l, first);
      SoundGrows(l, one.l, one.code, {});
      StepsAreSound(one.l, rest);
      StmtsSound(l, one, one.l, LowerSteps(one.l, rest));
  }

  lemma {:induction false} RoundsAreSound(l: Lowering, s: Stmt)
    requires s.For? && l.scopes != [] && HaardSource.InLoops(s.body, true) && Orderly(l) && Placed(l)
    ensures StmtSound(l, LowerRounds(l, s)) && !Stops(LowerRounds(l, s).code)
    decreases s.body, 3
  {
    hide Sound, Orderly, Placed, Stops, LowerTest, LowerBlock, LowerSteps;
    var loop, begun := l.regions, l.(regions := l.regions + 1);
    StillOrderly(l, begun);
    var test := LowerTest(begun, s.hasTest, s.test, loop);
    TestIsSound(begun, s.hasTest, s.test, loop);
    SoundGrows(begun, test.l, test.code, {});
    var block := test.l.regions;
    var inside := test.l.(regions := test.l.regions + 1, loops := l.loops + [LoopAround(loop, block, true, |l.scopes|)]);
    StillOrderly(test.l, inside);
    BlockIsSound(inside, s.body);
    var body := LowerBlock(inside, s.body);
    SoundGrows(inside, body.l, body.code, {});
    var after := body.l.(loops := l.loops);
    StillOrderly(body.l, after);
    StepsAreSound(after, s.steps);
    var steps := LowerSteps(after, s.steps);
    SoundGrows(after, steps.l, steps.code, {});
    BlockAndSteps(inside, body, after, steps, block);
    var rounds := Piece(steps.l, Block(block, body.code, HERE, steps.code), 0);
    StmtsSound(begun, test, inside, rounds);
    SoundRegion(begun, steps.l, loop, Concat(test.code, rounds.code), {});
    SoundFrom(l, begun, steps.l, LowerRounds(l, s).code, {});
  }

  lemma BlockAndSteps(l: Lowering, body: Piece, after: Lowering, steps: Piece, block: nat)
    requires StmtSound(l, body) && SameNumbers(body.l, after) && Sound(after, steps.l, steps.code, {})
    ensures Sound(l, steps.l, Block(block, body.code, HERE, steps.code), {})
  {
    hide Sound, Stops;
    SoundRegion(l, body.l, block, body.code, {});
    var first := Block(block, body.code, HERE, End);
    BlockGoesOn(block, body.code);
    StmtsSound(l, Piece(body.l, first, 0), after, steps);
    assert Concat(first, steps.code) == Block(block, body.code, HERE, steps.code);
  }

  lemma BlockGoesOn(block: nat, body: Code)
    ensures !Stops(Block(block, body, HERE, End))
  {
  }

  /** What a `for` declares goes on to the loop. */
  lemma {:induction false} HeadsComeOn(l: Lowering, head: Stmts)
    requires Lowerable(l, head) && HaardSource.Heads(head) && Orderly(l) && Placed(l)
    ensures !Stops(LowerStmts(l, head).code)
    decreases head
  {
    hide Sound, Orderly, Placed, Stops, LowerLet, LowerWhole;
    match head
    case Nothing => EndGoesOn();
    case Then(first, rest) =>
      if first.Let? {
        LetIsSound(l, first.object_, first.given);
      } else {
        WholeIsSound(l, first.given);
      }
      var one := LowerOne(l, first);
      SoundGrows(l, one.l, one.code, {});
      HeadsComeOn(one.l, rest);
      ConcatStops(one.code, LowerStmts(one.l, rest).code);
  }

  lemma {:induction false} ForIsSound(l: Lowering, s: Stmt)
    requires s.For? && l.scopes != [] && HaardSource.InLoopsOne(s, l.loops != []) && Orderly(l) && Placed(l)
    ensures StmtSound(l, LowerFor(l, s))
    decreases s, 0
  {
    hide Sound, Orderly, Placed, Stops, LowerStmts, LowerRounds, CloseScope;
    HeadsInLoops(s.head, l.loops != []);
    var begun := OpenScope(l, false);
    OpenedPlaced(l, false);
    ListIsSound(begun, s.head);
    var head := LowerStmts(begun, s.head);
    SoundGrows(begun, head.l, head.code, {});
    HeadsComeOn(begun, s.head);
    RoundsAreSound(head.l, s);
    var loop := LowerRounds(head.l, s);
    SoundClosed(head.l, loop.l, loop.code, false);
    var closed := CloseScope(loop.l, false);
    var p := LowerFor(l, s);
    StmtsSound(begun, head, head.l, Piece(closed.l, Concat(loop.code, closed.code), 0));
    SoundFrom(l, begun, p.l, p.code, {});
  }

  // ----- A function -----

  ghost predicate Distinct(values: seq<nat>) {
    forall i, j {:trigger values[i], values[j]} :: 0 <= i < j < |values| ==> values[i] != values[j]
  }

  function ValuesOf(values: seq<nat>): set<nat> {
    set value <- values
  }

  /** An instruction put before a list that may read what it gives back. */
  lemma FirstGives(inst: Inst, later: Code, visible: set<nat>)
    requires inst.Compute? && !inst.opcode.VCall? && inst.at == HERE && forall value <- inst.operands :: value in visible
    requires Verified(later, visible + Given(inst), false) && Fresh(later, {}) && Signed(later) && !Stops(later)
    requires Given(inst) !! Defined(later)
    ensures var code := Plain(inst, later);
            && Verified(code, visible, false) && Fresh(code, {}) && Signed(code) && !Stops(code)
            && Defined(code) == Given(inst) + Defined(later) && SeenIn(code) == Given(inst) + SeenIn(later)
  {
    var code := Plain(inst, later);
    FreshApart(later, {}, Given(inst));
    assert {} + Given(inst) == Given(inst);
    assert Checked(inst) == inst.operands;
    assert VerifiedHead(code, visible, false) && SeenAfter(code, visible) == visible + Given(inst);
    assert FreshHead(code, {}) && DefinedHead(code) == Given(inst);
  }

  /** The entry gives back each slot once. */
  lemma {:induction false} SlotsAreSound(slots: seq<nat>)
    requires Distinct(slots) && forall slot <- slots :: 0 < slot
    ensures var code := SlotsCode(slots);
            && Verified(code, {}, false) && Fresh(code, {}) && Signed(code) && !Stops(code)
            && Defined(code) == ValuesOf(slots) && SeenIn(code) == ValuesOf(slots)
    decreases |slots|
  {
    if slots != [] {
      hide Verified, Fresh, Signed, Stops, Defined, SeenIn;
      var first, rest := slots[0], slots[1..];
      OneValueMore(slots);
      hide Distinct, ValuesOf;
      SlotsAreSound(rest);
      VerifiedMore(SlotsCode(rest), {}, {} + Given(SlotAt(first)));
      FirstGives(SlotAt(first), SlotsCode(rest), {});
    }
  }

  lemma OneValueMore(values: seq<nat>)
    requires values != [] && Distinct(values)
    ensures ValuesOf(values) == {values[0]} + ValuesOf(values[1..]) && values[0] !in ValuesOf(values[1..])
    ensures Distinct(values[1..]) && forall value <- values[1..] :: value in values
  {
    assert values == [values[0]] + values[1..];
  }

  /** And clears each flag with a zero of its own. */
  lemma {:induction false} FlagsAreSound(flags: seq<nat>, visible: set<nat>)
    requires Distinct(flags) && forall flag <- flags :: flag in visible
    ensures var code := FlagsCode(flags);
            && Verified(code, visible, false) && Fresh(code, {}) && Signed(code) && !Stops(code) && Defined(code) == ZerosOf(flags)
    decreases |flags|
  {
    if flags != [] {
      hide Verified, Fresh, Signed, Stops, Defined, SeenIn;
      var before, last := flags[..|flags| - 1], flags[|flags| - 1];
      assert last !in before;
      FlagsAreSound(before, visible);
      ZerosHave(before, last);
      ClearsOne(last, FlagsCode(before), visible, ZerosOf(before));
    }
  }

  lemma ClearsOne(flag: nat, later: Code, visible: set<nat>, zeros: set<nat>)
    requires flag in visible && flag + 1 !in zeros
    requires Verified(later, visible, false) && Fresh(later, {}) && Signed(later) && !Stops(later) && Defined(later) == zeros
    ensures var code := Plain(Constant(0, flag + 1), Plain(Storing(flag + 1, flag), later));
            && Verified(code, visible, false) && Fresh(code, {}) && Signed(code) && !Stops(code) && Defined(code) == zeros + {flag + 1}
  {
    hide Verified, Fresh, Signed, Stops, Defined, SeenIn;
    var clear, store := Constant(0, flag + 1), Storing(flag + 1, flag);
    assert Given(store) == {} && Given(clear) == {flag + 1};
    VerifiedMore(later, visible, visible + Given(clear) + Given(store));
    FirstGives(store, later, visible + Given(clear));
    FirstGives(clear, Plain(store, later), visible);
  }

  /** The body, and the return that is added. */
  function Ended(lowered: Piece, givesBack: bool): Code {
    if !Stops(lowered.code) && !givesBack then Concat(lowered.code, Plain(Ret(0, HERE), End)) else lowered.code
  }

  lemma EndedIsSound(lowered: Piece, givesBack: bool)
    requires Sound(BEGUN, lowered.l, lowered.code, {})
    ensures Sound(BEGUN, lowered.l, Ended(lowered, givesBack), {})
  {
    hide Sound, Stops, SeenIn;
    SoundGrows(BEGUN, lowered.l, lowered.code, {});
    if !Stops(lowered.code) && !givesBack {
      var ret := Plain(Ret(0, HERE), End);
      SoundJump(lowered.l, lowered.l, ret, {} + SeenIn(lowered.code));
      SoundConcat(BEGUN, lowered.l, lowered.l, lowered.l, lowered.code, ret, {});
    }
  }

  lemma NothingYet()
    ensures Orderly(BEGUN) && Placed(BEGUN)
  {
  }

  /** The slots, the flags and the body: what is hoisted is seen by all that follows. */
  lemma EntryIsSound(l: Lowering, code: Code)
    requires Sound(BEGUN, l, code, {})
    ensures var whole := Concat(SlotsCode(l.slots), Concat(FlagsCode(l.flags), code));
            Verified(whole, {}, false) && Fresh(whole, {}) && Signed(whole)
  {
    hide Verified, Fresh, Signed, Stops, Defined, SeenIn, ZerosOf, SlotsCode, FlagsCode;
    var slots, flags := SlotsCode(l.slots), FlagsCode(l.flags);
    assert ValuesOf(l.slots) == SlotsOf(l);
    assert forall slot <- l.slots :: slot in Hoisted(l);
    SlotsAreSound(l.slots);
    FlagsAreSound(l.flags, SlotsOf(l));
    var both := Concat(flags, code);
    VerifiedMore(code, SlotsOf(l) + {}, SlotsOf(l) + SeenIn(flags));
    ConcatVerified(flags, code, SlotsOf(l));
    assert Defined(flags) !! Defined(code);
    BothFresh(flags, code);
    ConcatDefines(flags, code);
    ConcatStops(flags, code);
    assert {} + SeenIn(slots) == SlotsOf(l);
    ConcatVerified(slots, both, {});
    ZerosMiss(l);
    BothFresh(slots, both);
    ConcatStops(slots, both);
  }

  lemma ZerosMiss(l: Lowering)
    requires Orderly(l)
    ensures SlotsOf(l) !! ZerosOf(l.flags)
  {
    hide ZerosOf;
    forall value | value in SlotsOf(l)
      ensures value !in ZerosOf(l.flags)
    {
      assert value in Hoisted(l);
      ZerosHave(l.flags, value - 1);
    }
  }

  /** The verifier reports nothing about a lowered function. */
  lemma LoweredIsVerified(body: Stmts, givesBack: bool)
    requires IsFunction(body)
    ensures VerifiedFunction(LowerFunction(body, givesBack)) && Signed(LowerFunction(body, givesBack).body)
  {
    hide Verified, Fresh, Signed, Stops, LowerBlock, SlotsCode, FlagsCode, Sound, Orderly, Placed;
    var lowered := LowerBlock(BEGUN, body);
    NothingYet();
    BlockIsSound(BEGUN, body);
    EndedIsSound(lowered, givesBack);
    EntryIsSound(lowered.l, Ended(lowered, givesBack));
    CleanupBalance.LoweredIsFlattenable(body, givesBack);
    assert Parameters(0).Keys == {};
  }

  // ----- Its runs -----

  /** A list that stops is not fallen off. */
  lemma {:induction false} StopsFallsNot(code: Code, live: bool)
    requires Stops(code)
    ensures !FallsOff(code, live)
    decreases code
  {
    if code.next != End {
      StopsFallsNot(code.next, FallsOffHead(code, live));
    }
  }

  /** The verifier accepts the CFG of a lowered function, whose every run is then safe, if and only if
      the body cannot be fallen off; and that of a function that gives nothing back never can. */
  lemma LoweredIsAccepted(body: Stmts, givesBack: bool)
    requires IsFunction(body)
    ensures Verifier.InRange(CleanupBalance.LoweredCfg(body, givesBack))
    ensures Verifier.Accepted(CleanupBalance.LoweredCfg(body, givesBack)) <==> !FallsOff(LowerFunction(body, givesBack).body, true)
    ensures !givesBack ==> !FallsOff(LowerFunction(body, givesBack).body, true)
  {
    hide LowerFunction, Flattener.Flatten, VerifiedFunction, Signed, FallsOff;
    var function_ := LowerFunction(body, givesBack);
    LoweredIsVerified(body, givesBack);
    CleanupBalance.LoweredIsFlattenable(body, givesBack);
    FlattenIsAccepted(function_);
    if !givesBack {
      NothingGivenStops(body);
      StopsFallsNot(function_.body, true);
    }
  }

  lemma NothingGivenStops(body: Stmts)
    requires IsFunction(body)
    ensures Stops(LowerFunction(body, false).body)
  {
    hide Stops, LowerBlock;
    var lowered := LowerBlock(BEGUN, body);
    var ret := Plain(Ret(0, HERE), End);
    RetStops(ret);
    ConcatStops(lowered.code, ret);
    var all := Ended(lowered, false);
    EndGoesOn();
    ConcatStops(FlagsCode(lowered.l.flags), all);
    ConcatEnds(FlagsCode(lowered.l.flags), all);
    ConcatStops(SlotsCode(lowered.l.slots), Concat(FlagsCode(lowered.l.flags), all));
  }

  lemma RetStops(code: Code)
    requires code.Plain? && code.inst.Ret? && code.next == End
    ensures Stops(code)
  {
  }

  lemma ConcatEnds(first: Code, second: Code)
    requires second != End
    ensures Concat(first, second) != End
  {
  }

  /** A run that ends has given a value back as the statements do, and everything it read was written. */
  lemma LoweredRunsSafely(answers: HaardSource.Answers, body: Stmts, givesBack: bool, result: Interpreter.Result<LowererMeaning.Machine>)
      returns (fuel: nat)
    requires IsFunction(body) && !FallsOff(LowerFunction(body, givesBack).body, true)
    requires FlattenerMeaning.CfgEnds(LowererMeaning.Does(answers), CleanupBalance.LoweredCfg(body, givesBack), CleanupBalance.NOTHING_BUILT, result)
    ensures VerifierSoundness.RunsSafely(LowererMeaning.Does(answers), CleanupBalance.LoweredCfg(body, givesBack), 0, CleanupBalance.NOTHING_BUILT)
    ensures result.Left?
    ensures var (way, trace) := HaardSource.RunBlock(answers, body, [], fuel);
            && result.s.trace == trace && (if way.Returns? then result.value == way.value else way.GoesOn? && !givesBack && result.value == 0)
  {
    hide LowerFunction, Flattener.Flatten, VerifiedFunction, Signed, FallsOff, LowererMeaning.Does, HaardSource.RunBlock, VerifierSoundness.RunsSafely;
    hide FlattenerMeaning.CfgEnds;
    var m, function_ := LowererMeaning.Does(answers), LowerFunction(body, givesBack);
    LoweredIsVerified(body, givesBack);
    CleanupBalance.LoweredIsFlattenable(body, givesBack);
    assert function_.parameters == 0 by { NoParameters(body, givesBack); }
    VerifiedFunctionsRunSafely(m, function_, 0, CleanupBalance.NOTHING_BUILT);
    fuel := CleanupBalance.EveryRunFollows(answers, body, givesBack, result);
    RunsOffNothing(m, CleanupBalance.LoweredCfg(body, givesBack), CleanupBalance.NOTHING_BUILT, result);
  }

  lemma NoParameters(body: Stmts, givesBack: bool)
    requires IsFunction(body)
    ensures LowerFunction(body, givesBack).parameters == 0
  {
  }

  lemma RunsOffNothing<S>(m: Interpreter.Meaning<S>, cfg: Cfg, s: S, result: Interpreter.Result<S>)
    requires VerifierSoundness.RunsSafely(m, cfg, 0, s) && FlattenerMeaning.CfgEnds(m, cfg, s, result)
    ensures !result.RanOff?
  {
    hide Interpreter.Steps;
    var n: nat :| Interpreter.Steps(m, cfg.blocks, Interpreter.Start(cfg.body, s), n) == Interpreter.Done(result);
    VerifierSoundness.WatchingIsFaithful(m, cfg.blocks, VerifierSoundness.Called(cfg, 0, s), n);
    assert VerifierSoundness.Safe(cfg, Interpreter.Steps(VerifierSoundness.Watched(m), cfg.blocks, VerifierSoundness.Called(cfg, 0, s), n));
  }
}
