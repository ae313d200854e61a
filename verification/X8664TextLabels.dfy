/** The labels of a function's text: each instruction's own, in order and past those before, and each
    block's, so that every one is written once.
  */
module X8664TextLabels {
  import Ir
  import FlattenerOrder
  import opened Words
  import opened IrArithmetic
  import opened X8664Machine
  import opened X8664Labels
  import opened X8664Writer

  // ----- Every label is written once -----

  function OwnLabels(from: nat, count: nat): seq<Line> {
    seq(count, k requires 0 <= k => Label(from + 1 + k))
  }

  lemma SignedDivisionLabels(remainder: bool, divide: nat, end: nat)
    ensures Has(SignedDivisionText(remainder, divide, end), [Label(divide), Label(end)])
  {
    hide Has, LabelsIn, Forward;
    var move := if remainder then [MoveRdx] else [];
    assert [Label(end)] + [] == [Label(end)] && [] + [Label(end)] == [Label(end)];
    HasNone([]);
    HasLabel(end, [], []);
    HasNone(move);
    HasBoth(move, [Label(end)], [], [Label(end)]);
    var last := move + [Label(end)];
    HasNone([Cqo]);
    HasNone([IdivRcx]);
    HasBoth([IdivRcx], last, [], [Label(end)]);
    HasBoth([Cqo], [IdivRcx] + last, [], [Label(end)]);
    var divides := [Cqo] + ([IdivRcx] + last);
    HasLabel(divide, divides, [Label(end)]);
    var both := [Label(divide), Label(end)];
    assert [Label(divide)] + [Label(end)] == both;
    HasJump(Jump(end), [Label(divide)] + divides, both);
    var one := [if remainder then Clear(Rax) else Neg];
    HasNone(one);
    HasBoth(one, [Jump(end)] + ([Label(divide)] + divides), [], both);
    HasJump(JumpIf(NotEqual, divide), one + ([Jump(end)] + ([Label(divide)] + divides)), both);
    HasNone([CompareWith(Rcx, TWO64 - 1)]);
    HasBoth([CompareWith(Rcx, TWO64 - 1)], [JumpIf(NotEqual, divide)] + (one + ([Jump(end)] + ([Label(divide)] + divides))), [], both);
    assert [] + both == both;
  }

  lemma BitsShiftLabels(op: Operator, inRange: nat, end: nat)
    ensures Has(BitsShiftText(op, inRange, end), [Label(inRange), Label(end)])
  {
    hide Has, LabelsIn, Forward;
    var shift, both := [if op == Shl then ShlCl else ShrCl], [Label(inRange), Label(end)];
    assert [Label(end)] + [] == [Label(end)] && [] + [Label(end)] == [Label(end)];
    HasNone([]);
    HasLabel(end, [], []);
    HasNone(shift);
    HasBoth(shift, [Label(end)], [], [Label(end)]);
    assert [Label(inRange)] + [Label(end)] == both;
    HasLabel(inRange, shift + [Label(end)], [Label(end)]);
    var shifts := [Label(inRange)] + (shift + [Label(end)]);
    HasJump(Jump(end), shifts, both);
    HasNone([Clear(Rax)]);
    HasBoth([Clear(Rax)], [Jump(end)] + shifts, [], both);
    assert [] + both == both;
    HasJump(JumpIf(BelowEqual, inRange), [Clear(Rax)] + ([Jump(end)] + shifts), both);
    HasNone([CompareWith(Rcx, 63)]);
    HasBoth([CompareWith(Rcx, 63)], [JumpIf(BelowEqual, inRange)] + ([Clear(Rax)] + ([Jump(end)] + shifts)), [], both);
  }

  lemma SignedShiftLabels(w: Width, inRange: nat)
    ensures Has(SignedShiftText(w, inRange), [Label(inRange)])
  {
    hide Has, LabelsIn, Forward;
    var one := [Label(inRange)];
    HasNone([SarCl]);
    HasLabel(inRange, [SarCl], []);
    assert [Label(inRange)] + [] == one && [] + one == one;
    HasNone([Immediate(Rcx, 63)]);
    HasBoth([Immediate(Rcx, 63)], [Label(inRange)] + [SarCl], [], one);
    var counts := [Immediate(Rcx, 63)] + ([Label(inRange)] + [SarCl]);
    HasJump(JumpIf(BelowEqual, inRange), counts, one);
    HasNone([CompareWith(Rcx, 63)]);
    HasBoth([CompareWith(Rcx, 63)], [JumpIf(BelowEqual, inRange)] + counts, [], one);
    HasNone(WidenText(Rax, w));
    HasBoth(WidenText(Rax, w), [CompareWith(Rcx, 63)] + ([JumpIf(BelowEqual, inRange)] + counts), [], one);
  }

  lemma BinaryLabels(op: Operator, w: Width, a: nat, b: nat, result: nat, labels: nat)
    requires op != UMulHi && op != SMulHi
    ensures Has(BinaryText(op, w, a, b, result, labels), OwnLabels(labels, LabelsOf(op)))
  {
    hide Has, LabelsIn, Forward, SignedDivisionText, BitsShiftText, SignedShiftText;
    var own := OwnLabels(labels, LabelsOf(op));
    HasNone(LoadsText(a, b));
    HasNone(EndText(w, result));
    if IsDivision(op) {
      DivisionLabels(op, w, a, b, result, labels);
    } else if IsShift(op) {
      var lines := if op == AShr then SignedShiftText(w, labels + 1) else BitsShiftText(op, labels + 1, labels + 2);
      SignedShiftLabels(w, labels + 1);
      BitsShiftLabels(op, labels + 1, labels + 2);
      assert own == if op == AShr then [Label(labels + 1)] else [Label(labels + 1), Label(labels + 2)];
      HasBoth(lines, EndText(w, result), own, []);
      HasBoth(LoadsText(a, b), lines + EndText(w, result), [], own + []);
      assert [] + (own + []) == own;
    } else {
      HasNone(PlainText(op, w, a, b, result));
      assert own == [];
    }
  }

  lemma DivisionLabels(op: Operator, w: Width, a: nat, b: nat, result: nat, labels: nat)
    requires IsDivision(op)
    ensures Has(DivisionText(op, w, a, b, result, labels), OwnLabels(labels, LabelsOf(op)))
  {
    hide Has, LabelsIn, Forward, SignedDivisionText;
    var own := OwnLabels(labels, LabelsOf(op));
    var quotient, end := QuotientText(op, w, labels), EndText(w, result);
    if op == SDiv || op == SRem {
      var divides, both := SignedDivisionText(op == SRem, labels + 1, labels + 2), [Label(labels + 1), Label(labels + 2)];
      SignedDivisionLabels(op == SRem, labels + 1, labels + 2);
      HasNone(WidenText(Rcx, w));
      HasNone(WidenText(Rax, w));
      HasBoth(WidenText(Rcx, w), divides, [], both);
      assert [] + both == both == own;
      HasBoth(WidenText(Rax, w), WidenText(Rcx, w) + divides, [], both);
    } else {
      HasNone(quotient);
      assert own == [];
    }
    HasNone(end);
    HasBoth(quotient, end, own, []);
    assert own + [] == own && [] + own == own;
    HasNone([AbortIfEqual]);
    HasBoth([AbortIfEqual], quotient + end, [], own);
    HasNone([Test(Rcx)]);
    HasBoth([Test(Rcx)], [AbortIfEqual] + (quotient + end), [], own);
    HasNone(LoadsText(a, b));
    HasBoth(LoadsText(a, b), [Test(Rcx)] + ([AbortIfEqual] + (quotient + end)), [], own);
  }

  lemma OtherLabels(types: Types, inst: Ir.Inst, labels: nat)
    requires inst.Compute? && Typed(types, inst) && !KindOf(types, inst).Binary?
    ensures Has(ComputeText(types, inst, labels), [])
  {
    hide Has;
    var values := inst.operands;
    match KindOf(types, inst)
    case Constant(bits) => HasNone(ConstantText(bits, inst.result));
    case Comparison(condition) => ComparisonHasNone(condition, types(values[0]), values[0], values[1], inst.result);
    case OneOperand(op) => UnaryHasNone(op, types(inst.result), values[0], inst.result);
    case Choice => HasNone(SelectText(values[0], values[1], values[2], inst.result));
  }

  lemma ComparisonHasNone(condition: Condition, w: Width, a: nat, b: nat, result: nat)
    ensures Has(ComparisonText(condition, w, a, b, result), [])
  {
    HasNone(ComparisonText(condition, w, a, b, result));
  }

  lemma UnaryHasNone(op: Unary, w: Width, a: nat, result: nat)
    ensures Has(UnaryText(op, w, a, result), [])
  {
    HasNone(UnaryText(op, w, a, result));
  }

  lemma InstLabels(types: Types, inst: Ir.Inst, labels: nat)
    requires Written(types, inst)
    ensures Has(InstText(types, inst, labels), OwnLabels(labels, Taken(types, inst)))
  {
    hide Has, LabelsIn, Forward, BinaryText, ComparisonText, UnaryText, SelectText, ConstantText, LabelsOf;
    assert OwnLabels(labels, 0) == [];
    match inst
    case Compute(_, _, _, _, _) =>
      if KindOf(types, inst).Binary? {
        var values := inst.operands;
        BinaryLabels(KindOf(types, inst).op, types(values[0]), values[0], values[1], inst.result, labels);
      } else {
        OtherLabels(types, inst, labels);
      }
    case Br(target, _, _) => HasNone([JumpToBlock(target)]);
    case CondBr(condition, chosen, otherwise, _) => HasNone(BranchText(condition, chosen, otherwise));
    case Ret(value, _) => HasNone(ReturnText(value));
  }

  lemma OwnLabelsAdd(from: nat, first: nat, second: nat)
    ensures OwnLabels(from, first) + OwnLabels(from + first, second) == OwnLabels(from, first + second)
  {
  }

  lemma {:induction false} InstsLabels(types: Types, insts: seq<Ir.Inst>, labels: nat)
    requires AllWritten(types, insts)
    ensures LabelsIn(InstsText(types, insts, labels)) == OwnLabels(labels, TakenBy(types, insts))
  {
    hide Written, Taken, OwnLabels, InstText, LabelsIn;
    if insts != [] {
      var taken, left := Taken(types, insts[0]), TakenBy(types, insts[1..]);
      var first, rest := InstText(types, insts[0], labels), InstsText(types, insts[1..], labels + taken);
      InstLabels(types, insts[0], labels);
      InstsLabels(types, insts[1..], labels + taken);
      LabelsOfBoth(first, rest);
      OwnLabelsAdd(labels, taken, left);
    } else {
      LabelsOfNone();
      NoLabels(labels);
    }
  }

  lemma NoLabels(from: nat)
    ensures OwnLabels(from, 0) == []
  {
  }

  /** Labels of an instruction's own past `from`, and blocks' of this order, each once. */
  ghost predicate Labelled(labels: seq<Line>, from: nat, order: seq<nat>) {
    && Once(labels)
    && (forall one <- labels :: if one.Label? then one.name > from else one.BlockLabel? && one.block in order)
  }

  lemma {:induction false} BlocksLabels(types: Types, blocks: seq<Ir.BasicBlock>, order: seq<nat>, labels: nat)
    requires HasText(types, blocks, order) && FlattenerOrder.NoRepeats(order)
    ensures Labelled(LabelsIn(BlocksText(types, blocks, order, labels)), labels, order)
  {
    hide AllWritten, LabelsIn, Labelled, InstsText, TakenBy, OwnLabels, FlattenerOrder.NoRepeats;
    if order == [] {
      LabelsOfNone();
      NoneLabelled(labels, order);
    } else {
      NoRepeatsAfter(order);
      assert order[0] in order;
      var insts := blocks[order[0]].insts;
      var taken := TakenBy(types, insts);
      var own, rest := InstsText(types, insts, labels), BlocksText(types, blocks, order[1..], labels + taken);
      InstsLabels(types, insts, labels);
      BlocksLabels(types, blocks, order[1..], labels + taken);
      LabelsOfBoth(own, rest);
      LabelsOfBlock(order[0], own + rest);
      LabelledBlock(labels, taken, order, LabelsIn(rest));
    }
  }

  lemma NoneLabelled(from: nat, order: seq<nat>)
    ensures Labelled([], from, order)
  {
  }

  lemma NoRepeatsAfter(order: seq<nat>)
    requires FlattenerOrder.NoRepeats(order) && order != []
    ensures FlattenerOrder.NoRepeats(order[1..])
  {
  }

  lemma LabelsOfNone()
    ensures LabelsIn([]) == []
  {
  }

  lemma LabelsOfBlock(block: nat, rest: Text)
    ensures LabelsIn([BlockLabel(block)] + rest) == [BlockLabel(block)] + LabelsIn(rest)
  {
    assert ([BlockLabel(block)] + rest)[1..] == rest;
  }

  lemma LabelledBlock(labels: nat, taken: nat, order: seq<nat>, rest: seq<Line>)
    requires order != [] && FlattenerOrder.NoRepeats(order) && Labelled(rest, labels + taken, order[1..])
    ensures Labelled([BlockLabel(order[0])] + (OwnLabels(labels, taken) + rest), labels, order)
  {
    var own := OwnLabels(labels, taken);
    var all := [BlockLabel(order[0])] + (own + rest);
    forall i, j | 0 <= i < j < |all|
      ensures all[i] != all[j]
    {
      if 1 + taken <= i {
        assert all[i] == rest[i - 1 - taken] && all[j] == rest[j - 1 - taken];
      } else if 1 + taken <= j {
        assert all[j] == rest[j - 1 - taken] && all[j] in rest;
      }
    }
    forall one | one in all
      ensures if one.Label? then one.name > labels else one.BlockLabel? && one.block in order
    {
      if one in rest && one.BlockLabel? {
        assert one.block in order[1..];
      }
    }
  }
}
