/** The builder's instruction lists: each block's instructions linked both ways by their numbers,
    written at the end of a block and, for the slots of a frame, moved to the top of the body.

    `lists` says what each block holds, in order, and the links always agree with it.
  */
module Builder {

  /** What the lists and the regions ask of an opcode. */
  datatype Kind =
    | SlotOp | ConstOp | StoreOp | BlockOp | IfOp | LoopOp | BreakOp | ContinueOp | BrOp | CondBrOp | SwitchOp | RetOp | AbortOp
    | OtherOp

  predicate EndsItsBlock(opcode: Kind) {
    opcode in {BreakOp, ContinueOp, BrOp, CondBrOp, SwitchOp, RetOp, AbortOp}
  }

  /** An instruction and its links; 0 is none. */
  datatype Instruction = Instruction(
    opcode: Kind, result: nat, a: nat, b: nat, c: nat, extra: nat, block: nat, previous: nat, next: nat)

  datatype Block = Block(first: nat, last: nat, region: nat)

  // ----- Lists -----

  function First(list: seq<nat>): nat {
    if list == [] then 0 else list[0]
  }

  function Last(list: seq<nat>): nat {
    if list == [] then 0 else list[|list| - 1]
  }

  ghost predicate IsLink(instructions: seq<Instruction>, list: seq<nat>, k: nat, block: nat)
    requires k < |list|
  {
    && 0 < list[k] < |instructions|
    && instructions[list[k]].block == block
    && instructions[list[k]].previous == (if k == 0 then 0 else list[k - 1])
    && instructions[list[k]].next == (if k + 1 < |list| then list[k + 1] else 0)
  }

  ghost predicate NoRepeats(list: seq<nat>) {
    forall i, j {:trigger list[i], list[j]} :: 0 <= i < j < |list| ==> list[i] != list[j]
  }

  /** A block's links are its list. */
  ghost predicate IsLinked(instructions: seq<Instruction>, entry: Block, list: seq<nat>, block: nat) {
    && entry.first == First(list) && entry.last == Last(list) && NoRepeats(list)
    && (forall k :: 0 <= k < |list| ==> IsLink(instructions, list, k, block))
  }

  ghost predicate AllLinked(instructions: seq<Instruction>, blocks: seq<Block>, lists: seq<seq<nat>>) {
    && |lists| == |blocks| && 0 < |blocks| && 0 < |instructions| && lists[0] == []
    && (forall b :: 0 <= b < |lists| ==> IsLinked(instructions, blocks[b], lists[b], b))
  }

  ghost predicate IsListed(instructions: seq<Instruction>, lists: seq<seq<nat>>, id: nat)
    requires id < |instructions|
  {
    instructions[id].block < |lists| && id in lists[instructions[id].block]
  }

  /** Every instruction is in its block's list. */
  ghost predicate AllListed(instructions: seq<Instruction>, lists: seq<seq<nat>>) {
    forall id :: 0 < id < |instructions| ==> IsListed(instructions, lists, id)
  }

  function Without(list: seq<nat>, id: nat): seq<nat> {
    if list == [] then [] else if list[0] == id then list[1..] else [list[0]] + Without(list[1..], id)
  }

  /** After `after`, or first when it is 0. */
  function With(list: seq<nat>, id: nat, after: nat): seq<nat> {
    if after == 0 || list == [] then [id] + list
    else if list[0] == after then [after, id] + list[1..]
    else [list[0]] + With(list[1..], id, after)
  }

  lemma NoRepeatsAfter(list: seq<nat>, k: nat)
    requires NoRepeats(list) && 0 < k < |list|
    ensures NoRepeats(list[1..]) && list[1..][k - 1] == list[k] && list[0] != list[k]
  {
    var rest := list[1..];
    assert forall i {:trigger rest[i]} :: 0 <= i < |rest| ==> rest[i] == list[i + 1];
  }

  lemma SplitFirst(list: seq<nat>, k: nat)
    requires 0 < k <= |list|
    ensures list[..k] == [list[0]] + list[1..][..k - 1] && list[k..] == list[1..][k - 1..]
  {
  }

  lemma Grouped(one: seq<nat>, first: seq<nat>, middle: seq<nat>, second: seq<nat>)
    ensures one + (first + middle + second) == one + first + middle + second
    ensures one + (first + second) == one + first + second
  {
  }

  lemma FirstWith(list: seq<nat>, id: nat)
    requires list != [] && 0 < list[0]
    ensures With(list, id, list[0]) == list[..1] + [id] + list[1..]
  {
    assert list[..1] == [list[0]];
    assert [list[0], id] == [list[0]] + [id];
  }

  lemma {:induction false} WithoutAt(list: seq<nat>, k: nat)
    requires NoRepeats(list) && k < |list|
    ensures Without(list, list[k]) == list[..k] + list[k + 1..]
    decreases |list|
  {
    hide NoRepeats;
    if k > 0 {
      var rest, one := list[1..], [list[0]];
      NoRepeatsAfter(list, k);
      WithoutAt(rest, k - 1);
      SplitFirst(list, k);
      SplitFirst(list, k + 1);
      Grouped(one, rest[..k - 1], [], rest[k..]);
    }
  }

  lemma {:induction false} WithAt(list: seq<nat>, id: nat, k: nat)
    requires NoRepeats(list) && k < |list| && 0 < list[k]
    ensures With(list, id, list[k]) == list[..k + 1] + [id] + list[k + 1..]
    decreases |list|
  {
    hide NoRepeats;
    if k > 0 {
      var rest, one := list[1..], [list[0]];
      NoRepeatsAfter(list, k);
      WithAt(rest, id, k - 1);
      SplitFirst(list, k + 1);
      Grouped(one, rest[..k], [id], rest[k..]);
    } else {
      FirstWith(list, id);
    }
  }

  // ----- Moving -----

  datatype Links = Links(instructions: seq<Instruction>, blocks: seq<Block>)

  /** An instruction's links point at something. */
  predicate Points(l: Links, id: nat) {
    && id < |l.instructions| && l.instructions[id].previous < |l.instructions|
    && l.instructions[id].next < |l.instructions| && l.instructions[id].block < |l.blocks|
  }

  /** What points at an instruction points past it. */
  function Unlinked(l: Links, id: nat): (r: Links)
    requires Points(l, id)
    ensures |r.instructions| == |l.instructions| && |r.blocks| == |l.blocks|
  {
    var one := l.instructions[id];
    var back := if one.previous != 0 then l.(instructions := l.instructions[one.previous := l.instructions[one.previous].(next := one.next)])
                else l.(blocks := l.blocks[one.block := l.blocks[one.block].(first := one.next)]);
    if one.next != 0 then back.(instructions := back.instructions[one.next := back.instructions[one.next].(previous := one.previous)])
    else back.(blocks := back.blocks[one.block := back.blocks[one.block].(last := one.previous)])
  }

  function Following(l: Links, target: nat, after: nat): nat
    requires target < |l.blocks| && after < |l.instructions|
  {
    if after != 0 then l.instructions[after].next else l.blocks[target].first
  }

  function LinkedAfter(l: Links, id: nat, target: nat, after: nat): (r: Links)
    requires id < |l.instructions| && target < |l.blocks| && after < |l.instructions| && Following(l, target, after) < |l.instructions|
    ensures |r.instructions| == |l.instructions| && |r.blocks| == |l.blocks|
  {
    var next := Following(l, target, after);
    var here := l.(instructions := l.instructions[id := l.instructions[id].(block := target, previous := after, next := next)]);
    var back := if after != 0 then here.(instructions := here.instructions[after := here.instructions[after].(next := id)])
                else here.(blocks := here.blocks[target := here.blocks[target].(first := id)]);
    if next != 0 then back.(instructions := back.instructions[next := back.instructions[next].(previous := id)])
    else back.(blocks := back.blocks[target := back.blocks[target].(last := id)])
  }

  /** In no list, and its place left to be said. */
  ghost predicate IsFree(lists: seq<seq<nat>>, id: nat) {
    forall b :: 0 <= b < |lists| ==> id !in lists[b]
  }

  lemma ListedPoints(l: Links, lists: seq<seq<nat>>, b: nat, k: nat)
    requires AllLinked(l.instructions, l.blocks, lists) && b < |lists| && k < |lists[b]|
    ensures Points(l, lists[b][k]) && IsLink(l.instructions, lists[b], k, b)
    ensures k > 0 ==> IsLink(l.instructions, lists[b], k - 1, b)
    ensures k + 1 < |lists[b]| ==> IsLink(l.instructions, lists[b], k + 1, b)
  {
    assert IsLinked(l.instructions, l.blocks[b], lists[b], b);
    assert IsLink(l.instructions, lists[b], k, b);
    assert k > 0 ==> IsLink(l.instructions, lists[b], k - 1, b);
    assert k + 1 < |lists[b]| ==> IsLink(l.instructions, lists[b], k + 1, b);
  }

  lemma UnlinkKeepsOther(l: Links, lists: seq<seq<nat>>, b: nat, k: nat, other: nat)
    requires AllLinked(l.instructions, l.blocks, lists) && b < |lists| && k < |lists[b]| && other < |lists| && other != b
    ensures Points(l, lists[b][k])
    ensures var r := Unlinked(l, lists[b][k]); IsLinked(r.instructions, r.blocks[other], lists[other], other)
  {
    ListedPoints(l, lists, b, k);
    var list := lists[b];
    var r := Unlinked(l, list[k]);
    assert IsLinked(l.instructions, l.blocks[other], lists[other], other);
    forall j | 0 <= j < |lists[other]|
      ensures IsLink(r.instructions, lists[other], j, other)
    {
      assert IsLink(l.instructions, lists[other], j, other);
    }
  }

  lemma UnlinkKeepsOwn(l: Links, lists: seq<seq<nat>>, b: nat, k: nat)
    requires AllLinked(l.instructions, l.blocks, lists) && b < |lists| && k < |lists[b]|
    ensures Points(l, lists[b][k])
    ensures var r := Unlinked(l, lists[b][k]); IsLinked(r.instructions, r.blocks[b], lists[b][..k] + lists[b][k + 1..], b)
  {
    ListedPoints(l, lists, b, k);
    var list := lists[b];
    var r, less := Unlinked(l, list[k]), list[..k] + list[k + 1..];
    assert IsLinked(l.instructions, l.blocks[b], list, b);
    assert forall j {:trigger less[j]} :: 0 <= j < |less| ==> less[j] == if j < k then list[j] else list[j + 1];
    forall j | 0 <= j < |less|
      ensures IsLink(r.instructions, less, j, b)
    {
      assert IsLink(l.instructions, list, if j < k then j else j + 1, b);
    }
  }

  /** Taking one out of its list. */
  lemma UnlinkKeeps(l: Links, lists: seq<seq<nat>>, b: nat, k: nat)
    requires AllLinked(l.instructions, l.blocks, lists) && b < |lists| && k < |lists[b]|
    ensures Points(l, lists[b][k])
    ensures var id, r := lists[b][k], Unlinked(l, lists[b][k]);
            && AllLinked(r.instructions, r.blocks, lists[b := Without(lists[b], id)])
            && IsFree(lists[b := Without(lists[b], id)], id)
  {
    hide Unlinked, IsLinked, Without;
    ListedPoints(l, lists, b, k);
    var id, r, less := lists[b][k], Unlinked(l, lists[b][k]), lists[b := Without(lists[b], lists[b][k])];
    forall other | 0 <= other < |less|
      ensures IsLinked(r.instructions, r.blocks[other], less[other], other) && id !in less[other]
    {
      if other != b {
        UnlinkKeepsOther(l, lists, b, k, other);
        NotInAnother(l, lists, b, k, other);
      } else {
        UnlinksOwn(l, lists, b, k);
      }
    }
    NothingAtNone(l, lists, b, k);
  }

  lemma UnlinksOwn(l: Links, lists: seq<seq<nat>>, b: nat, k: nat)
    requires AllLinked(l.instructions, l.blocks, lists) && b < |lists| && k < |lists[b]|
    ensures Points(l, lists[b][k])
    ensures var id, r := lists[b][k], Unlinked(l, lists[b][k]);
            IsLinked(r.instructions, r.blocks[b], Without(lists[b], id), b) && id !in Without(lists[b], id)
  {
    assert IsLinked(l.instructions, l.blocks[b], lists[b], b);
    WithoutAt(lists[b], k);
    UnlinkKeepsOwn(l, lists, b, k);
  }

  lemma NothingAtNone(l: Links, lists: seq<seq<nat>>, b: nat, k: nat)
    requires AllLinked(l.instructions, l.blocks, lists) && b < |lists| && k < |lists[b]|
    ensures 0 < b && lists[b := Without(lists[b], lists[b][k])][0] == []
  {
  }

  lemma NotInAnother(l: Links, lists: seq<seq<nat>>, b: nat, k: nat, other: nat)
    requires AllLinked(l.instructions, l.blocks, lists) && b < |lists| && k < |lists[b]| && other < |lists| && other != b
    ensures lists[b][k] !in lists[other]
  {
    ListedPoints(l, lists, b, k);
    if lists[b][k] in lists[other] {
      var j :| 0 <= j < |lists[other]| && lists[other][j] == lists[b][k];
      ListedPoints(l, lists, other, j);
    }
  }

  /** Putting one that is in no list into one. */
  lemma LinkKeeps(l: Links, lists: seq<seq<nat>>, id: nat, target: nat, after: nat)
    requires AllLinked(l.instructions, l.blocks, lists) && IsFree(lists, id) && 0 < id < |l.instructions|
    requires 0 < target < |lists| && (after == 0 || after in lists[target])
    ensures after < |l.instructions| && Following(l, target, after) < |l.instructions|
    ensures var r := LinkedAfter(l, id, target, after);
            AllLinked(r.instructions, r.blocks, lists[target := With(lists[target], id, after)])
  {
    hide NoRepeats, IsLink;
    var list := lists[target];
    assert IsLinked(l.instructions, l.blocks[target], list, target);
    var k := 0;
    if after != 0 {
      var at :| 0 <= at < |list| && list[at] == after;
      ListedPoints(l, lists, target, at);
      WithAt(list, id, at);
      k := at + 1;
    }
    if list != [] {
      ListedPoints(l, lists, target, 0);
    }
    LinkKeepsOwn(l, lists, id, target, k);
    assert With(list, id, after) == list[..k] + [id] + list[k..];
    var r, more := LinkedAfter(l, id, target, after), lists[target := With(list, id, after)];
    forall other | 0 <= other < |more|
      ensures IsLinked(r.instructions, r.blocks[other], more[other], other)
    {
      if other != target {
        LinkKeepsOther(l, lists, id, target, k, other);
      }
    }
  }

  lemma InsertedNoRepeats(list: seq<nat>, k: nat, id: nat)
    requires NoRepeats(list) && id !in list && k <= |list|
    ensures var more := list[..k] + [id] + list[k..];
            && NoRepeats(more)
            && (forall j {:trigger more[j]} :: 0 <= j < |more| ==> more[j] == if j < k then list[j] else if j == k then id else list[j - 1])
  {
  }

  lemma LinkKeepsOwn(l: Links, lists: seq<seq<nat>>, id: nat, target: nat, k: nat)
    requires AllLinked(l.instructions, l.blocks, lists) && IsFree(lists, id) && 0 < id < |l.instructions|
    requires 0 < target < |lists| && k <= |lists[target]|
    ensures var list, after := lists[target], if k == 0 then 0 else lists[target][k - 1];
            && after < |l.instructions| && Following(l, target, after) < |l.instructions|
            && var r := LinkedAfter(l, id, target, after);
               IsLinked(r.instructions, r.blocks[target], list[..k] + [id] + list[k..], target)
  {
    var list, after := lists[target], if k == 0 then 0 else lists[target][k - 1];
    assert id !in list;
    var more := list[..k] + [id] + list[k..];
    LinkEnds(l, lists, id, target, k);
    var r := LinkedAfter(l, id, target, after);
    forall j | 0 <= j < |more|
      ensures IsLink(r.instructions, more, j, target)
    {
      LinkAt(l, lists, id, target, k, j);
    }
  }

  lemma LinkEnds(l: Links, lists: seq<seq<nat>>, id: nat, target: nat, k: nat)
    requires AllLinked(l.instructions, l.blocks, lists) && IsFree(lists, id) && 0 < id < |l.instructions|
    requires 0 < target < |lists| && k <= |lists[target]|
    ensures var list, after := lists[target], if k == 0 then 0 else lists[target][k - 1];
            && after < |l.instructions| && Following(l, target, after) < |l.instructions|
            && var r, more := LinkedAfter(l, id, target, after), list[..k] + [id] + list[k..];
               NoRepeats(more) && r.blocks[target].first == First(more) && r.blocks[target].last == Last(more)
  {
    var list := lists[target];
    assert IsLinked(l.instructions, l.blocks[target], list, target);
    InsertedNoRepeats(list, k, id);
    hide NoRepeats;
    if k > 0 {
      ListedPoints(l, lists, target, k - 1);
    }
    if k < |list| {
      ListedPoints(l, lists, target, k);
    }
  }

  lemma LinkAt(l: Links, lists: seq<seq<nat>>, id: nat, target: nat, k: nat, j: nat)
    requires AllLinked(l.instructions, l.blocks, lists) && IsFree(lists, id) && 0 < id < |l.instructions|
    requires 0 < target < |lists| && k <= |lists[target]| && j <= |lists[target]|
    requires var after := if k == 0 then 0 else lists[target][k - 1]; after < |l.instructions| && Following(l, target, after) < |l.instructions|
    ensures var list, after := lists[target], if k == 0 then 0 else lists[target][k - 1];
            IsLink(LinkedAfter(l, id, target, after).instructions, list[..k] + [id] + list[k..], j, target)
  {
    hide LinkedAfter;
    var list := lists[target];
    var more := list[..k] + [id] + list[k..];
    InsertedNoRepeats(list, k, id);
    assert IsLinked(l.instructions, l.blocks[target], list, target);
    assert id !in list;
    LinkInserted(l, lists, id, target, k, more, j);
  }

  lemma LinkInserted(l: Links, lists: seq<seq<nat>>, id: nat, target: nat, k: nat, more: seq<nat>, j: nat)
    requires AllLinked(l.instructions, l.blocks, lists) && 0 < id < |l.instructions| && 0 < target < |lists| && id !in lists[target]
    requires k <= |lists[target]| && |more| == |lists[target]| + 1 && j < |more| && more[k] == id && NoRepeats(lists[target])
    requires forall i {:trigger more[i]} :: 0 <= i < |more| && i != k ==> more[i] == lists[target][if i < k then i else i - 1]
    ensures var after := if k == 0 then 0 else lists[target][k - 1];
            && after < |l.instructions| && Following(l, target, after) < |l.instructions|
            && IsLink(LinkedAfter(l, id, target, after).instructions, more, j, target)
  {
    hide LinkedAfter, AllLinked, NoRepeats, IsLink;
    FollowingIs(l, lists, target, k);
    if j == k {
      LinkOwn(l, lists, id, target, k, more);
    } else {
      LinkOther(l, lists, id, target, k, more, j, if j < k then j else j - 1);
    }
  }

  /** What follows the place `k` of a list. */
  lemma FollowingIs(l: Links, lists: seq<seq<nat>>, target: nat, k: nat)
    requires AllLinked(l.instructions, l.blocks, lists) && 0 < target < |lists| && k <= |lists[target]|
    ensures var after := if k == 0 then 0 else lists[target][k - 1];
            && target < |l.blocks| && after < |l.instructions|
            && Following(l, target, after) == (if k < |lists[target]| then lists[target][k] else 0) < |l.instructions|
  {
    assert IsLinked(l.instructions, l.blocks[target], lists[target], target);
    if k > 0 {
      ListedPoints(l, lists, target, k - 1);
    }
    if k < |lists[target]| {
      ListedPoints(l, lists, target, k);
    }
  }

  lemma LinkOwn(l: Links, lists: seq<seq<nat>>, id: nat, target: nat, k: nat, more: seq<nat>)
    requires AllLinked(l.instructions, l.blocks, lists) && 0 < id < |l.instructions| && 0 < target < |lists| && id !in lists[target]
    requires k <= |lists[target]| && |more| == |lists[target]| + 1 && k < |more| && more[k] == id && NoRepeats(lists[target])
    requires forall i {:trigger more[i]} :: 0 <= i < |more| && i != k ==> more[i] == lists[target][if i < k then i else i - 1]
    ensures var after := if k == 0 then 0 else lists[target][k - 1];
            && after < |l.instructions| && Following(l, target, after) < |l.instructions|
            && IsLink(LinkedAfter(l, id, target, after).instructions, more, k, target)
  {
    hide LinkedAfter, AllLinked, NoRepeats;
    FollowingIs(l, lists, target, k);
    Apart(l, lists, id, target, k);
    LinkedSaysOf(l, id, target, if k == 0 then 0 else lists[target][k - 1], id);
  }

  lemma Apart(l: Links, lists: seq<seq<nat>>, id: nat, target: nat, k: nat)
    requires AllLinked(l.instructions, l.blocks, lists) && 0 < target < |lists| && k <= |lists[target]|
    requires 0 < id && id !in lists[target] && NoRepeats(lists[target])
    ensures 0 < k ==> 0 < lists[target][k - 1] != id
    ensures k < |lists[target]| ==> 0 < lists[target][k] != id && (0 < k ==> lists[target][k - 1] != lists[target][k])
  {
    if k > 0 {
      ListedPoints(l, lists, target, k - 1);
    }
    if k < |lists[target]| {
      ListedPoints(l, lists, target, k);
    }
  }

  lemma LinkOther(l: Links, lists: seq<seq<nat>>, id: nat, target: nat, k: nat, more: seq<nat>, j: nat, was: nat)
    requires AllLinked(l.instructions, l.blocks, lists) && 0 < id < |l.instructions| && 0 < target < |lists| && id !in lists[target]
    requires k <= |lists[target]| && |more| == |lists[target]| + 1 && j < |more| && more[k] == id && NoRepeats(lists[target])
    requires forall i {:trigger more[i]} :: 0 <= i < |more| && i != k ==> more[i] == lists[target][if i < k then i else i - 1]
    requires j != k && was == if j < k then j else j - 1
    ensures var after := if k == 0 then 0 else lists[target][k - 1];
            && after < |l.instructions| && Following(l, target, after) < |l.instructions|
            && IsLink(LinkedAfter(l, id, target, after).instructions, more, j, target)
  {
    hide LinkedAfter, AllLinked;
    var list, after := lists[target], if k == 0 then 0 else lists[target][k - 1];
    FollowingIs(l, lists, target, k);
    Apart(l, lists, id, target, k);
    ListedPoints(l, lists, target, was);
    assert more[j] == list[was];
    assert list[was] == after <==> was + 1 == k;
    assert list[was] == Following(l, target, after) <==> was == k;
    LinkedSaysOf(l, id, target, after, list[was]);
  }

  /** What linking writes, instruction by instruction. */
  lemma LinkedSaysOf(l: Links, id: nat, target: nat, after: nat, other: nat)
    requires id < |l.instructions| && target < |l.blocks| && after < |l.instructions| && Following(l, target, after) < |l.instructions|
    requires after != id && Following(l, target, after) != id && (after == 0 || after != Following(l, target, after))
    requires 0 < other < |l.instructions|
    ensures var next, was := Following(l, target, after), l.instructions[other];
            LinkedAfter(l, id, target, after).instructions[other] ==
            if other == id then was.(block := target, previous := after, next := next)
            else if other == after then was.(next := id)
            else if other == next then was.(previous := id)
            else was
  {
  }

  lemma LinkKeepsOther(l: Links, lists: seq<seq<nat>>, id: nat, target: nat, k: nat, other: nat)
    requires AllLinked(l.instructions, l.blocks, lists) && IsFree(lists, id) && 0 < id < |l.instructions|
    requires 0 < target < |lists| && k <= |lists[target]| && other < |lists| && other != target
    ensures var after := if k == 0 then 0 else lists[target][k - 1];
            && after < |l.instructions| && Following(l, target, after) < |l.instructions|
            && var r := LinkedAfter(l, id, target, after); IsLinked(r.instructions, r.blocks[other], lists[other], other)
  {
    var after := if k == 0 then 0 else lists[target][k - 1];
    assert IsLinked(l.instructions, l.blocks[target], lists[target], target);
    assert IsLinked(l.instructions, l.blocks[other], lists[other], other);
    if k > 0 {
      ListedPoints(l, lists, target, k - 1);
    }
    if k < |lists[target]| {
      ListedPoints(l, lists, target, k);
    }
    var r := LinkedAfter(l, id, target, after);
    assert id !in lists[other];
    forall j | 0 <= j < |lists[other]|
      ensures IsLink(r.instructions, lists[other], j, other)
    {
      assert IsLink(l.instructions, lists[other], j, other);
    }
  }

  lemma {:induction false} WithHolds(list: seq<nat>, id: nat, after: nat)
    requires after == 0 || after in list
    ensures forall other :: other in With(list, id, after) <==> other == id || other in list
    decreases |list|
  {
    if after != 0 && list != [] && list[0] != after {
      WithHolds(list[1..], id, after);
    }
  }

  lemma {:induction false} WithoutHolds(list: seq<nat>, id: nat)
    requires NoRepeats(list)
    ensures forall other :: other in Without(list, id) <==> other != id && other in list
    decreases |list|
  {
    if list != [] {
      var rest := list[1..];
      assert forall k {:trigger rest[k]} :: 0 <= k < |rest| ==> rest[k] == list[k + 1];
      if list[0] != id {
        WithoutHolds(rest, id);
      }
    }
  }

  /** What an instruction says, but for where it is. */
  function What(one: Instruction): Instruction {
    one.(block := 0, previous := 0, next := 0)
  }

  ghost predicate SaysTheSame(before: seq<Instruction>, after: seq<Instruction>) {
    |before| <= |after| && forall id {:trigger after[id]} :: 0 <= id < |before| ==> What(after[id]) == What(before[id])
  }

  /** Moving an instruction leaves every other where it was. */
  lemma Moved(l: Links, lists: seq<seq<nat>>, id: nat, target: nat, after: nat)
    requires AllLinked(l.instructions, l.blocks, lists) && AllListed(l.instructions, lists)
    requires 0 < id < |l.instructions| && 0 < target < |lists| && after != id && (after == 0 || after in lists[target])
    ensures Points(l, id)
    ensures var from, r := l.instructions[id].block, Unlinked(l, id);
            && after < |r.instructions| && Following(r, target, after) < |r.instructions|
            && var less, m := lists[from := Without(lists[from], id)], LinkedAfter(r, id, target, after);
               var more := less[target := With(less[target], id, after)];
               && AllLinked(m.instructions, m.blocks, more) && AllListed(m.instructions, more)
               && SaysTheSame(l.instructions, m.instructions) && |m.instructions| == |l.instructions|
               && (forall other :: 0 <= other < |l.instructions| && other != id ==> m.instructions[other].block == l.instructions[other].block)
               && (forall b :: 0 <= b < |l.blocks| ==> m.blocks[b].region == l.blocks[b].region)
  {
    hide AllLinked, Unlinked, LinkedAfter, IsFree, SaysTheSame, AllListed, NoRepeats;
    var from := l.instructions[id].block;
    ListedOnce(l, lists, id);
    var k :| 0 <= k < |lists[from]| && lists[from][k] == id;
    UnlinkKeeps(l, lists, from, k);
    UnlinkedSays(l, id);
    WithoutHolds(lists[from], id);
    var r, less := Unlinked(l, id), lists[from := Without(lists[from], id)];
    LinkKeeps(r, less, id, target, after);
    LinkedSays(r, id, target, after);
    WithHolds(less[target], id, after);
    var m, more := LinkedAfter(r, id, target, after), less[target := With(less[target], id, after)];
    MovedListed(l, lists, id, from, target, m, more);
    SaysStill(l.instructions, r.instructions, m.instructions);
  }

  lemma ListedOnce(l: Links, lists: seq<seq<nat>>, id: nat)
    requires AllLinked(l.instructions, l.blocks, lists) && AllListed(l.instructions, lists) && 0 < id < |l.instructions|
    ensures l.instructions[id].block < |lists| == |l.blocks| && id in lists[l.instructions[id].block] && NoRepeats(lists[l.instructions[id].block])
  {
    assert IsListed(l.instructions, lists, id);
    var from := l.instructions[id].block;
    assert IsLinked(l.instructions, l.blocks[from], lists[from], from);
  }

  lemma UnlinkedSays(l: Links, id: nat)
    requires Points(l, id)
    ensures var r := Unlinked(l, id);
            && SaysTheSame(l.instructions, r.instructions)
            && (forall other :: 0 <= other < |l.instructions| ==> r.instructions[other].block == l.instructions[other].block)
            && (forall b :: 0 <= b < |l.blocks| ==> r.blocks[b].region == l.blocks[b].region)
  {
  }

  lemma LinkedSays(l: Links, id: nat, target: nat, after: nat)
    requires id < |l.instructions| && target < |l.blocks| && after < |l.instructions| && Following(l, target, after) < |l.instructions|
    ensures var r := LinkedAfter(l, id, target, after);
            && SaysTheSame(l.instructions, r.instructions) && r.instructions[id].block == target
            && (forall other :: 0 <= other < |l.instructions| && other != id ==> r.instructions[other].block == l.instructions[other].block)
            && (forall b :: 0 <= b < |l.blocks| ==> r.blocks[b].region == l.blocks[b].region)
  {
  }

  lemma SaysStill(first: seq<Instruction>, second: seq<Instruction>, third: seq<Instruction>)
    requires SaysTheSame(first, second) && SaysTheSame(second, third)
    ensures SaysTheSame(first, third)
  {
    forall id | 0 <= id < |first|
      ensures What(third[id]) == What(first[id])
    {
      assert What(second[id]) == What(first[id]);
    }
  }

  lemma MovedListed(l: Links, lists: seq<seq<nat>>, id: nat, from: nat, target: nat, m: Links, more: seq<seq<nat>>)
    requires AllListed(l.instructions, lists) && |more| == |lists| && |m.instructions| == |l.instructions|
    requires target < |more| && from < |more| && id < |m.instructions|
    requires m.instructions[id].block == target && id in more[target]
    requires forall other :: 0 <= other < |l.instructions| && other != id ==> m.instructions[other].block == l.instructions[other].block
    requires forall b, other :: 0 <= b < |lists| && other in lists[b] && other != id ==> other in more[b]
    ensures AllListed(m.instructions, more)
  {
    forall other | 0 < other < |m.instructions|
      ensures IsListed(m.instructions, more, other)
    {
      assert IsListed(l.instructions, lists, other);
    }
  }

  // ----- Writing -----

  /** A new instruction is in no list yet, and the links of the others stand. */
  lemma OneMore(l: Links, lists: seq<seq<nat>>, one: Instruction)
    requires AllLinked(l.instructions, l.blocks, lists)
    ensures AllLinked(l.instructions + [one], l.blocks, lists) && IsFree(lists, |l.instructions|)
  {
    var more := l.instructions + [one];
    forall b | 0 <= b < |lists|
      ensures IsLinked(more, l.blocks[b], lists[b], b) && |l.instructions| !in lists[b]
    {
      assert IsLinked(l.instructions, l.blocks[b], lists[b], b);
      forall k | 0 <= k < |lists[b]|
        ensures IsLink(more, lists[b], k, b) && lists[b][k] != |l.instructions|
      {
        assert IsLink(l.instructions, lists[b], k, b);
      }
    }
  }

  lemma {:induction false} WithLast(list: seq<nat>, id: nat)
    requires NoRepeats(list) && 0 !in list
    ensures With(list, id, Last(list)) == list + [id]
  {
    if list != [] {
      assert list[|list| - 1] in list;
      WithAt(list, id, |list| - 1);
    }
  }

  lemma ListOf(l: Links, lists: seq<seq<nat>>, block: nat)
    requires AllLinked(l.instructions, l.blocks, lists) && block < |lists|
    ensures NoRepeats(lists[block]) && 0 !in lists[block] && l.blocks[block].last == Last(lists[block])
    ensures forall id <- lists[block] :: 0 < id < |l.instructions| && l.instructions[id].block == block
    ensures lists[block] != [] ==> IsLink(l.instructions, lists[block], |lists[block]| - 1, block)
  {
    assert IsLinked(l.instructions, l.blocks[block], lists[block], block);
    forall id <- lists[block]
      ensures 0 < id < |l.instructions| && l.instructions[id].block == block
    {
      var k :| 0 <= k < |lists[block]| && lists[block][k] == id;
      assert IsLink(l.instructions, lists[block], k, block);
    }
  }

  /** At the end of a block. */
  lemma Appended(l: Links, lists: seq<seq<nat>>, block: nat, one: Instruction)
    requires AllLinked(l.instructions, l.blocks, lists) && AllListed(l.instructions, lists) && 0 < block < |lists|
    requires one.block == block && one.previous == l.blocks[block].last && one.next == 0
    ensures var made, last := |l.instructions|, l.blocks[block].last;
            && last < made
            && var more := if last != 0 then (l.instructions + [one])[last := l.instructions[last].(next := made)] else l.instructions + [one];
               var first := if last != 0 then l.blocks[block].first else made;
               var blocks := l.blocks[block := Block(first, made, l.blocks[block].region)];
               && AllLinked(more, blocks, lists[block := lists[block] + [made]])
               && AllListed(more, lists[block := lists[block] + [made]])
               && SaysTheSame(l.instructions, more) && more[made] == one
               && (forall id :: 0 <= id < made ==> more[id].block == l.instructions[id].block)
  {
    var made, last := |l.instructions|, l.blocks[block].last;
    ListOf(l, lists, block);
    OneMore(l, lists, one);
    var room := Links(l.instructions + [one], l.blocks);
    LinkKeeps(room, lists, made, block, last);
    WithLast(lists[block], made);
    assert lists[block] == [] ==> l.blocks[block].first == 0 by { assert IsLinked(l.instructions, l.blocks[block], lists[block], block); }
    var r, more := LinkedAfter(room, made, block, last), lists[block := lists[block] + [made]];
    forall id | 0 < id < |r.instructions|
      ensures IsListed(r.instructions, more, id)
    {
      if id < made {
        assert IsListed(l.instructions, lists, id);
      }
    }
    if last != 0 {
      assert Following(room, block, last) == 0;
      assert r.instructions == (l.instructions + [one])[last := l.instructions[last].(next := made)];
      assert r.blocks == l.blocks[block := Block(l.blocks[block].first, made, l.blocks[block].region)];
    } else {
      assert r.instructions == l.instructions + [one];
      assert r.blocks == l.blocks[block := Block(made, made, l.blocks[block].region)];
    }
  }

  // ----- The builder -----

  datatype Opened = Opened(region: nat, block: nat)

  /** The body starts with the slots, then with each flag's zero and the store of it, the last
      flag's first; what was written there comes after. */
  ghost predicate IsHoisted(list: seq<nat>, slots: seq<nat>, clears: seq<nat>, rest: seq<nat>) {
    list == slots + clears + rest
  }

  lemma HoistedStill(list: seq<nat>, slots: seq<nat>, clears: seq<nat>, rest: seq<nat>, made: nat)
    requires IsHoisted(list, slots, clears, rest)
    ensures IsHoisted(list + [made], slots, clears, rest + [made])
  {
  }

  lemma BlocksAsMany(l: Links, lists: seq<seq<nat>>)
    requires AllLinked(l.instructions, l.blocks, lists)
    ensures |lists| == |l.blocks| && 0 < |l.instructions|
  {
  }

  ghost predicate AreSlots(instructions: seq<Instruction>, slots: seq<nat>) {
    forall id <- slots :: 0 < id < |instructions| && instructions[id].opcode == SlotOp
  }

  /** A zero and its store, for each flag, the last one first. */
  ghost predicate AreCleared(instructions: seq<Instruction>, clears: seq<nat>, flags: seq<nat>)
    decreases |flags|
  {
    if flags == [] then clears == []
    else
      && |clears| >= 2 && IsCleared(instructions, clears[0], clears[1], flags[|flags| - 1])
      && AreCleared(instructions, clears[2..], flags[..|flags| - 1])
  }

  predicate IsCleared(instructions: seq<Instruction>, zero: nat, written: nat, flag: nat) {
    && 0 < zero < |instructions| && 0 < written < |instructions|
    && instructions[zero].opcode == ConstOp && instructions[zero].extra == 0
    && instructions[written].opcode == StoreOp && instructions[written].a == instructions[zero].result && instructions[written].b == flag
  }

  lemma StillSlots(before: seq<Instruction>, after: seq<Instruction>, slots: seq<nat>)
    requires AreSlots(before, slots) && SaysTheSame(before, after)
    ensures AreSlots(after, slots)
  {
    forall id <- slots
      ensures 0 < id < |after| && after[id].opcode == SlotOp
    {
      assert What(after[id]) == What(before[id]);
    }
  }

  lemma {:induction false} StillCleared(before: seq<Instruction>, after: seq<Instruction>, clears: seq<nat>, flags: seq<nat>)
    requires AreCleared(before, clears, flags) && SaysTheSame(before, after)
    ensures AreCleared(after, clears, flags)
    decreases |flags|
  {
    if flags != [] {
      assert What(after[clears[0]]) == What(before[clears[0]]) && What(after[clears[1]]) == What(before[clears[1]]);
      StillCleared(before, after, clears[2..], flags[..|flags| - 1]);
    }
  }

  lemma {:induction false} WithoutLast(list: seq<nat>, id: nat)
    requires id !in list
    ensures Without(list + [id], id) == list
    decreases |list|
  {
    if list != [] {
      assert (list + [id])[1..] == list[1..] + [id];
      WithoutLast(list[1..], id);
    }
  }

  /** After the first part of a list. */
  lemma WithBetween(first: seq<nat>, second: seq<nat>, id: nat)
    requires NoRepeats(first + second) && 0 !in first + second
    ensures With(first + second, id, Last(first)) == first + [id] + second
  {
    if first != [] {
      var list, k := first + second, |first| - 1;
      assert list[k] == first[k] && list[k] in list;
      WithAt(list, id, k);
      assert list[..k + 1] == first && list[k + 1..] == second;
    } else {
      assert first + second == second;
    }
  }

  /** Each open region is in the block it was opened in, and holds the block written next. */
  ghost predicate Nests(l: Links, body: nat, opens: seq<Opened>, block: nat) {
    && (if opens == [] then block == body else opens[0].block == body)
    && (forall i {:trigger opens[i]} :: 0 <= i < |opens| ==> IsOpen(l, opens, block, i))
    && (forall i, j {:trigger opens[i], opens[j]} :: 0 <= i < j < |opens| ==> opens[i].region < opens[j].region)
  }

  ghost predicate IsOpen(l: Links, opens: seq<Opened>, block: nat, i: nat)
    requires i < |opens|
  {
    var inside := if i + 1 < |opens| then opens[i + 1].block else block;
    && 0 < opens[i].region < |l.instructions| && 0 < opens[i].block < |l.blocks|
    && l.instructions[opens[i].region].block == opens[i].block
    && 0 < inside < |l.blocks| && l.blocks[inside].region == opens[i].region
    && (l.instructions[opens[i].region].extra == inside || l.instructions[opens[i].region].c == inside)
  }

  /** Regions stay open while nothing they are made of changes. */
  lemma StillNests(l: Links, m: Links, body: nat, opens: seq<Opened>, block: nat)
    requires Nests(l, body, opens, block) && |l.blocks| <= |m.blocks| && SaysTheSame(l.instructions, m.instructions)
    requires forall b :: 0 <= b < |l.blocks| ==> m.blocks[b].region == l.blocks[b].region
    requires forall one <- opens :: one.region < |l.instructions| ==> m.instructions[one.region].block == l.instructions[one.region].block
    ensures Nests(m, body, opens, block)
  {
    forall i | 0 <= i < |opens|
      ensures IsOpen(m, opens, block, i)
    {
      assert IsOpen(l, opens, block, i);
      assert opens[i] in opens;
      assert What(m.instructions[opens[i].region]) == What(l.instructions[opens[i].region]);
    }
  }

  lemma OpenWasThere(l: Links, body: nat, opens: seq<Opened>, block: nat)
    requires Nests(l, body, opens, block)
    ensures forall one <- opens :: 0 < one.region < |l.instructions| && 0 < one.block < |l.blocks|
  {
    forall one <- opens
      ensures 0 < one.region < |l.instructions| && 0 < one.block < |l.blocks|
    {
      var i :| 0 <= i < |opens| && opens[i] == one;
      assert IsOpen(l, opens, block, i);
    }
  }

  /** What there was is still there, and says the same. */
  ghost predicate Kept(l: Links, m: Links) {
    && |l.blocks| <= |m.blocks| && SaysTheSame(l.instructions, m.instructions)
    && (forall b :: 0 <= b < |l.blocks| ==> m.blocks[b].region == l.blocks[b].region)
    && (forall id :: 0 <= id < |l.instructions| ==> m.instructions[id].block == l.instructions[id].block)
  }

  lemma NestsInMore(l: Links, m: Links, body: nat, opens: seq<Opened>, block: nat)
    requires Nests(l, body, opens, block) && Kept(l, m)
    ensures Nests(m, body, opens, block)
  {
    StillNests(l, m, body, opens, block);
  }

  lemma SaysOne(before: seq<Instruction>, after: seq<Instruction>, id: nat)
    requires SaysTheSame(before, after) && id < |before|
    ensures What(after[id]) == What(before[id])
  {
  }

  lemma LastIsThere(first: seq<nat>, list: seq<nat>)
    requires first <= list && 0 !in list
    ensures Last(first) == 0 || Last(first) in list
  {
    if first != [] {
      assert list[|first| - 1] == first[|first| - 1];
    }
  }

  /** No list but the body's is changed. */
  predicate OnlyBody(before: seq<seq<nat>>, after: seq<seq<nat>>, body: nat) {
    |before| == |after| && forall b :: 0 <= b < |before| && b != body ==> after[b] == before[b]
  }

  predicate IsRegion(opcode: Kind) {
    opcode == BlockOp || opcode == IfOp || opcode == LoopOp
  }

  /** A region's bodies are not what hoisted instructions say, nor links. */
  predicate DiffersInBodies(before: seq<Instruction>, after: seq<Instruction>, region: nat) {
    && region < |before| == |after| && IsRegion(before[region].opcode)
    && after == before[region := before[region].(extra := after[region].extra, c := after[region].c)]
  }

  lemma {:induction false} BodiesAreOther(before: seq<Instruction>, after: seq<Instruction>, region: nat, slots: seq<nat>, clears: seq<nat>, flags: seq<nat>)
    requires DiffersInBodies(before, after, region) && AreSlots(before, slots) && AreCleared(before, clears, flags)
    ensures AreSlots(after, slots) && AreCleared(after, clears, flags)
    decreases |flags|
  {
    if flags != [] {
      BodiesAreOther(before, after, region, slots, clears[2..], flags[..|flags| - 1]);
    }
  }

  lemma BodiesAreNoLinks(before: seq<Instruction>, after: seq<Instruction>, region: nat, blocks: seq<Block>, lists: seq<seq<nat>>)
    requires DiffersInBodies(before, after, region) && AllLinked(before, blocks, lists) && AllListed(before, lists)
    ensures AllLinked(after, blocks, lists) && AllListed(after, lists)
  {
    forall b | 0 <= b < |lists|
      ensures IsLinked(after, blocks[b], lists[b], b)
    {
      assert IsLinked(before, blocks[b], lists[b], b);
      forall k | 0 <= k < |lists[b]|
        ensures IsLink(after, lists[b], k, b)
      {
        assert IsLink(before, lists[b], k, b);
      }
    }
    forall id | 0 < id < |after|
      ensures IsListed(after, lists, id)
    {
      assert IsListed(before, lists, id);
    }
  }

  lemma BlockMore(l: Links, lists: seq<seq<nat>>, region: nat)
    requires AllLinked(l.instructions, l.blocks, lists) && AllListed(l.instructions, lists)
    ensures AllLinked(l.instructions, l.blocks + [Block(0, 0, region)], lists + [[]]) && AllListed(l.instructions, lists + [[]])
  {
    forall b | 0 <= b <= |lists|
      ensures IsLinked(l.instructions, (l.blocks + [Block(0, 0, region)])[b], (lists + [[]])[b], b)
    {
      assert b < |lists| ==> IsLinked(l.instructions, l.blocks[b], lists[b], b);
    }
    forall id | 0 < id < |l.instructions|
      ensures IsListed(l.instructions, lists + [[]], id)
    {
      assert IsListed(l.instructions, lists, id);
    }
  }

  lemma KeptSays(l: Links, m: Links)
    requires Kept(l, m)
    ensures SaysTheSame(l.instructions, m.instructions)
  {
  }

  /** Where nothing that was there is changed, what was so of it is so. */
  lemma KeptStill(before: Links, after: Links, body: nat, opens: seq<Opened>, block: nat,
                  slots: seq<nat>, clears: seq<nat>, flags: seq<nat>)
    requires Kept(before, after) && Nests(before, body, opens, block)
    requires AreSlots(before.instructions, slots) && AreCleared(before.instructions, clears, flags)
    ensures Nests(after, body, opens, block) && SaysTheSame(before.instructions, after.instructions)
    ensures AreSlots(after.instructions, slots) && AreCleared(after.instructions, clears, flags)
  {
    hide SaysTheSame, Nests, AreSlots, AreCleared, Kept;
    NestsInMore(before, after, body, opens, block);
    KeptSays(before, after);
    StillSlots(before.instructions, after.instructions, slots);
    StillCleared(before.instructions, after.instructions, clears, flags);
  }

  class IrBuilder {
    var instructions: seq<Instruction>
    var blocks: seq<Block>
    var values: nat
    var body: nat
    var block: nat
    var lastEntrySlot: nat
    var opens: seq<Opened>
    ghost var lists: seq<seq<nat>>
    ghost var slots: seq<nat>
    ghost var clears: seq<nat>
    ghost var flags: seq<nat>
    ghost var rest: seq<nat>

    ghost function Now(): Links
      reads this
    {
      Links(instructions, blocks)
    }

    ghost predicate Sound()
      reads this
    {
      && AllLinked(instructions, blocks, lists) && AllListed(instructions, lists)
      && 0 < body < |blocks| == |lists| && 0 < block < |blocks|
      && AreSlots(instructions, slots) && AreCleared(instructions, clears, flags)
      && lastEntrySlot == Last(slots) && Nests(Now(), body, opens, block)
    }

    ghost predicate Valid()
      reads this
    {
      Sound() && IsHoisted(lists[body], slots, clears, rest)
    }

    constructor ()
      ensures Valid() && lists == [[], []] && slots == [] && clears == [] && flags == [] && rest == [] && opens == []
    {
      instructions := [Instruction(OtherOp, 0, 0, 0, 0, 0, 0, 0, 0)];
      blocks := [Block(0, 0, 0), Block(0, 0, 0)];
      values, body, block, lastEntrySlot, opens := 1, 1, 1, 0, [];
      lists, slots, clears, flags, rest := [[], []], [], [], [], [];
    }

    /** Linked at the end of its block. */
    method Append(one: Instruction)
      requires AllLinked(instructions, blocks, lists) && AllListed(instructions, lists) && 0 < one.block < |blocks|
      requires one.previous == blocks[one.block].last && one.next == 0
      modifies this`instructions, this`blocks, this`lists
      ensures AllLinked(instructions, blocks, lists) && AllListed(instructions, lists)
      ensures |instructions| == old(|instructions|) + 1 && instructions[old(|instructions|)] == one
      ensures Kept(old(Now()), Now()) && |blocks| == old(|blocks|) == old(|lists|)
      ensures lists == old(lists)[one.block := old(lists)[one.block] + [old(|instructions|)]]
    {
      hide AllLinked, AllListed, SaysTheSame;
      ghost var before := Now();
      BlocksAsMany(before, lists);
      Appended(before, lists, one.block, one);
      var made, last := |instructions|, blocks[one.block].last;
      instructions := instructions + [one];
      if last != 0 {
        instructions := instructions[last := instructions[last].(next := made)];
      } else {
        blocks := blocks[one.block := blocks[one.block].(first := made)];
      }
      blocks := blocks[one.block := blocks[one.block].(last := made)];
      assert instructions == if last != 0 then (before.instructions + [one])[last := before.instructions[last].(next := made)] else before.instructions + [one];
      assert blocks == before.blocks[one.block := Block(if last != 0 then before.blocks[one.block].first else made, made, before.blocks[one.block].region)];
      lists := lists[one.block := lists[one.block] + [made]];
    }

    /** At the end of the block being written. */
    method Emit(opcode: Kind, a: nat, b: nat, c: nat, extra: nat, givesBack: bool) returns (made: nat)
      requires Valid()
      modifies this`instructions, this`blocks, this`values, this`lists, this`rest
      ensures Valid() && made == old(|instructions|) && |instructions| == made + 1 && |blocks| == old(|blocks|)
      ensures What(instructions[made]) == Instruction(opcode, if givesBack then old(values) else 0, a, b, c, extra, 0, 0, 0)
      ensures instructions[made].block == block && values == old(values) + if givesBack then 1 else 0
      ensures SaysTheSame(old(instructions), instructions)
      ensures lists == old(lists)[block := old(lists)[block] + [made]]
      ensures rest == if block == body then old(rest) + [made] else old(rest)
    {
      hide AllLinked, AllListed, Nests, Kept, SaysTheSame, IsHoisted, Last, First, AreSlots, AreCleared, IsLinked, IsListed, NoRepeats;
      ghost var before := Now();
      made := |instructions|;
      var result := 0;
      if givesBack {
        result := values;
        values := values + 1;
      }
      BlocksAsMany(before, lists);
      if block == body {
        HoistedStill(lists[body], slots, clears, rest, made);
        rest := rest + [made];
      }
      Append(Instruction(opcode, result, a, b, c, extra, block, blocks[block].last, 0));
      KeptStill(before, Now(), body, opens, block, slots, clears, flags);
    }

    /** What points at an instruction points past it. */
    method Unlink(id: nat)
      requires Points(Now(), id)
      modifies this`instructions, this`blocks
      ensures Now() == Unlinked(old(Now()), id)
    {
      var one := instructions[id];
      if one.previous != 0 {
        instructions := instructions[one.previous := instructions[one.previous].(next := one.next)];
      } else {
        blocks := blocks[one.block := blocks[one.block].(first := one.next)];
      }
      if one.next != 0 {
        instructions := instructions[one.next := instructions[one.next].(previous := one.previous)];
      } else {
        blocks := blocks[one.block := blocks[one.block].(last := one.previous)];
      }
    }

    method LinkAfter(id: nat, target: nat, after: nat)
      requires id < |instructions| && target < |blocks| && after < |instructions| && Following(Now(), target, after) < |instructions|
      modifies this`instructions, this`blocks
      ensures Now() == LinkedAfter(old(Now()), id, target, after)
    {
      var following := if after != 0 then instructions[after].next else blocks[target].first;
      instructions := instructions[id := instructions[id].(block := target, previous := after, next := following)];
      if after != 0 {
        instructions := instructions[after := instructions[after].(next := id)];
      } else {
        blocks := blocks[target := blocks[target].(first := id)];
      }
      if following != 0 {
        instructions := instructions[following := instructions[following].(previous := id)];
      } else {
        blocks := blocks[target := blocks[target].(last := id)];
      }
    }

    /** Out of the block it was appended to, and into its place in another. */
    method MoveAfter(id: nat, target: nat, after: nat)
      requires AllLinked(instructions, blocks, lists) && AllListed(instructions, lists)
      requires 0 < id < |instructions| && 0 < target < |blocks| && after != id && (after == 0 || after in lists[target])
      modifies this`instructions, this`blocks, this`lists
      ensures AllLinked(instructions, blocks, lists) && AllListed(instructions, lists)
      ensures |blocks| == old(|blocks|) && |instructions| == old(|instructions|)
      ensures old(instructions)[id].block < old(|lists|)
      ensures lists == var less := old(lists)[old(instructions)[id].block := Without(old(lists)[old(instructions)[id].block], id)];
                       less[target := With(less[target], id, after)]
      ensures SaysTheSame(old(instructions), instructions)
      ensures forall other :: 0 <= other < |instructions| && other != id ==> instructions[other].block == old(instructions)[other].block
      ensures forall b :: 0 <= b < |blocks| ==> blocks[b].region == old(blocks)[b].region
    {
      hide AllLinked, AllListed, SaysTheSame, Unlinked, LinkedAfter, With, Without;
      ghost var before := Now();
      ListedOnce(before, lists, id);
      Moved(before, lists, id, target, after);
      ghost var from := instructions[id].block;
      Unlink(id);
      LinkAfter(id, target, after);
      lists := lists[from := Without(lists[from], id)];
      lists := lists[target := With(lists[target], id, after)];
    }

    /** In the body after `after`, or first. */
    method EmitAfter(opcode: Kind, a: nat, b: nat, extra: nat, givesBack: bool, after: nat) returns (made: nat)
      requires Valid() && (after == 0 || after in lists[body])
      modifies this`instructions, this`blocks, this`values, this`lists, this`rest
      ensures Sound() && made == old(|instructions|) && |instructions| == made + 1
      ensures What(instructions[made]) == Instruction(opcode, if givesBack then old(values) else 0, a, b, 0, extra, 0, 0, 0)
      ensures values == old(values) + if givesBack then 1 else 0
      ensures SaysTheSame(old(instructions), instructions)
      ensures body < |old(lists)| && lists == old(lists)[body := With(old(lists)[body], made, after)] && rest == old(rest)
    {
      hide AllLinked, AllListed, Nests, SaysTheSame, IsHoisted, Last, AreSlots, AreCleared, With, Without;
      ghost var before, listed := Now(), lists;
      BlocksAsMany(before, lists);
      OpenWasThere(before, body, opens, block);
      ListOf(before, lists, block);
      ListOf(before, lists, body);
      made := Emit(opcode, a, b, 0, extra, givesBack);
      ghost var emitted := Now();
      WithoutLast(listed[block], made);
      assert after == 0 || after in lists[body];
      MoveAfter(made, body, after);
      assert listed[block := listed[block] + [made]][block := listed[block]] == listed;
      rest := old(rest);
      StillSlots(emitted.instructions, instructions, slots);
      StillCleared(emitted.instructions, instructions, clears, flags);
      StillNests(emitted, Now(), body, opens, block);
      assert What(instructions[made]) == What(emitted.instructions[made]) by { SaysOne(emitted.instructions, instructions, made); }
      SaysStill(before.instructions, emitted.instructions, instructions);
    }

    /** Between the first part of the body and the rest. */
    method Hoist(opcode: Kind, a: nat, b: nat, givesBack: bool, after: nat, ghost first: seq<nat>, ghost second: seq<nat>)
        returns (made: nat)
      requires Valid() && lists[body] == first + second && after == Last(first)
      modifies this`instructions, this`blocks, this`values, this`lists, this`rest
      ensures Sound() && made == old(|instructions|) && |instructions| == made + 1 && 0 < made
      ensures What(instructions[made]) == Instruction(opcode, if givesBack then old(values) else 0, a, b, 0, 0, 0, 0, 0)
      ensures values == old(values) + (if givesBack then 1 else 0) && SaysTheSame(old(instructions), instructions)
      ensures body < |old(lists)| && lists == old(lists)[body := first + [made] + second] && rest == old(rest)
    {
      hide AllLinked, AllListed, Nests, SaysTheSame, AreSlots, AreCleared, With, IsHoisted;
      ghost var before := Now();
      BlocksAsMany(before, lists);
      ListOf(before, lists, body);
      LastIsThere(first, lists[body]);
      WithBetween(first, second, |instructions|);
      made := EmitAfter(opcode, a, b, 0, givesBack, after);
    }

    /** After the slots already there. */
    method EntrySlot() returns (slot: nat)
      requires Valid()
      modifies this
      ensures Valid() && slot == old(values) && SaysTheSame(old(instructions), instructions)
      ensures slots == old(slots) + [old(|instructions|)] && |instructions| > old(|instructions|)
      ensures instructions[old(|instructions|)].result == slot
      ensures OnlyBody(old(lists), lists, body)
      ensures clears == old(clears) && flags == old(flags) && rest == old(rest)
      ensures body == old(body) && block == old(block) && opens == old(opens)
    {
      hide AllLinked, AllListed, Nests, SaysTheSame, AreCleared;
      assert slots + (clears + rest) == lists[body];
      var made := Hoist(SlotOp, 0, 0, true, lastEntrySlot, slots, clears + rest);
      lastEntrySlot := made;
      slots := slots + [made];
      slot := instructions[made].result;
      assert lists[body] == slots + clears + rest;
    }

    /** A slot that starts at zero. */
    method EntryFlag() returns (flag: nat)
      requires Valid()
      modifies this
      ensures Valid() && flag == old(values) && SaysTheSame(old(instructions), instructions)
      ensures slots == old(slots) + [old(|instructions|)] && |instructions| > old(|instructions|)
      ensures instructions[old(|instructions|)].result == flag
      ensures OnlyBody(old(lists), lists, body)
      ensures flags == old(flags) + [flag] && |clears| == |old(clears)| + 2 && clears[2..] == old(clears) && rest == old(rest)
      ensures body == old(body) && block == old(block) && opens == old(opens)
    {
      hide AllLinked, AllListed, Nests, SaysTheSame, AreSlots, AreCleared, IsHoisted;
      ghost var start := instructions;
      flag := EntrySlot();
      ghost var slotted := instructions;
      StoreZero(flag);
      SaysOne(slotted, instructions, old(|instructions|));
      SaysStill(start, slotted, instructions);
    }

    /** A zero and its store, before those of the other flags. */
    method StoreZero(flag: nat)
      requires Valid()
      modifies this
      ensures Valid() && SaysTheSame(old(instructions), instructions) && |instructions| >= old(|instructions|)
      ensures flags == old(flags) + [flag] && |clears| == |old(clears)| + 2 && clears[2..] == old(clears) && rest == old(rest)
      ensures OnlyBody(old(lists), lists, body)
      ensures slots == old(slots) && body == old(body) && block == old(block) && opens == old(opens)
    {
      hide AllLinked, AllListed, Nests, SaysTheSame, AreSlots, AreCleared;
      ghost var start, cleared, flagged, after := instructions, clears, flags, rest;
      assert slots + (cleared + after) == lists[body];
      var zero := Hoist(ConstOp, 0, 0, true, lastEntrySlot, slots, cleared + after);
      ghost var zeroed := instructions;
      clears, flags, rest := [], [], [zero] + (cleared + after);
      NoneCleared(instructions);
      assert lists[body] == slots + [] + rest;
      assert lists[body] == (slots + [zero]) + (cleared + after);
      var written := Hoist(StoreOp, instructions[zero].result, flag, false, zero, slots + [zero], cleared + after);
      SaysOne(zeroed, instructions, zero);
      SaysStill(start, zeroed, instructions);
      StillCleared(start, instructions, cleared, flagged);
      OneCleared(instructions, zero, written, flag, cleared, flagged);
      clears, flags, rest := [zero, written] + cleared, flagged + [flag], after;
      assert lists[body] == slots + clears + rest;
    }

    // ----- Regions -----

    method AddBlock(region: nat) returns (made: nat)
      requires Valid()
      modifies this`blocks, this`lists
      ensures Valid() && made == old(|blocks|) && blocks == old(blocks) + [Block(0, 0, region)] && lists == old(lists) + [[]]
    {
      hide AllLinked, AllListed, Nests, AreSlots, AreCleared;
      ghost var before := Now();
      BlockMore(before, lists, region);
      made := |blocks|;
      blocks := blocks + [Block(0, 0, region)];
      lists := lists + [[]];
      SaysItself(instructions);
      NestsInMore(before, Now(), body, opens, block);
    }

    /** Into a region's body. */
    method Begin(opcode: Kind, a: nat, c: nat) returns (region: nat)
      requires Valid() && IsRegion(opcode)
      modifies this
      ensures Valid() && region == old(|instructions|) && opens == old(opens) + [Opened(region, old(block))]
      ensures block == old(|blocks|) && |blocks| == block + 1 && |instructions| == region + 1
      ensures instructions[region].opcode == opcode && instructions[region].a == a && instructions[region].c == c
      ensures instructions[region].extra == block && lists[block] == []
      ensures lists[..block] == old(lists)[old(block) := old(lists)[old(block)] + [region]]
      ensures slots == old(slots) && clears == old(clears) && flags == old(flags)
      ensures rest == if old(block) == body then old(rest) + [region] else old(rest)
      ensures body == old(body)
    {
      hide AllLinked, AllListed, AreSlots, AreCleared, SaysTheSame, Nests, IsHoisted, Last;
      OpenWasThere(Now(), body, opens, block);
      BlocksAsMany(Now(), lists);
      region := Emit(opcode, a, 0, c, 0, false);
      assert forall i {:trigger opens[i]} :: 0 <= i < |opens| ==> opens[i] in opens;
      var inside := AddBlock(region);
      ghost var added, around := Now(), block;
      instructions := instructions[region := instructions[region].(extra := inside)];
      RegionOpens(added, Now(), lists, body, opens, around, region, inside, slots, clears, flags);
      opens := opens + [Opened(region, block)];
      block := inside;
    }

    method BeginElse()
      requires Valid() && opens != [] && opens[|opens| - 1].region < |instructions|
      requires instructions[opens[|opens| - 1].region].opcode == IfOp
      modifies this`instructions, this`blocks, this`lists, this`block
      ensures Valid() && block == old(|blocks|) && |blocks| == block + 1 && lists == old(lists) + [[]]
      ensures blocks[block].region == opens[|opens| - 1].region
      ensures instructions == var region := opens[|opens| - 1].region; old(instructions)[region := old(instructions)[region].(c := block)]
    {
      hide AllLinked, AllListed, AreSlots, AreCleared, Nests, IsHoisted;
      var region := opens[|opens| - 1].region;
      var otherwise := AddBlock(region);
      ghost var added := Now();
      instructions := instructions[region := instructions[region].(c := otherwise)];
      BodiesAreOther(added.instructions, instructions, region, slots, clears, flags);
      BodiesAreNoLinks(added.instructions, instructions, region, blocks, lists);
      ElseIsInside(added, Now(), body, opens, block, otherwise);
      block := otherwise;
    }

    /** Back to the block the region was opened in. */
    method End()
      requires Valid() && opens != []
      modifies this`block, this`opens
      ensures Valid() && block == old(opens)[|old(opens)| - 1].block && opens == old(opens)[..|old(opens)| - 1]
    {
      hide AllLinked, AllListed, AreSlots, AreCleared, Nests, IsHoisted;
      Closed(Now(), body, opens, block);
      block := opens[|opens| - 1].block;
      opens := opens[..|opens| - 1];
    }

    /** Whether nothing more may be written in this block. */
    method Ended() returns (ended: bool)
      requires Valid()
      ensures ended <==> lists[block] != [] && Last(lists[block]) < |instructions| && EndsItsBlock(instructions[Last(lists[block])].opcode)
    {
      ListOf(Now(), lists, block);
      var last := blocks[block].last;
      ended := last != 0 && EndsItsBlock(instructions[last].opcode);
    }
  }

  lemma SaysItself(instructions: seq<Instruction>)
    ensures SaysTheSame(instructions, instructions)
  {
  }

  /** A region's number for its body written, and the region opened. */
  lemma RegionOpens(before: Links, after: Links, lists: seq<seq<nat>>, body: nat, opens: seq<Opened>, block: nat, region: nat, inside: nat,
                    slots: seq<nat>, clears: seq<nat>, flags: seq<nat>)
    requires AllLinked(before.instructions, before.blocks, lists) && AllListed(before.instructions, lists)
    requires Nests(before, body, opens, block) && 0 < block < |before.blocks| && after.blocks == before.blocks
    requires AreSlots(before.instructions, slots) && AreCleared(before.instructions, clears, flags)
    requires 0 < region < |before.instructions| && before.instructions[region].block == block && IsRegion(before.instructions[region].opcode)
    requires forall i {:trigger opens[i]} :: 0 <= i < |opens| ==> opens[i].region < region
    requires 0 < inside < |after.blocks| && after.blocks[inside].region == region
    requires after.instructions == before.instructions[region := before.instructions[region].(extra := inside)]
    ensures AllLinked(after.instructions, after.blocks, lists) && AllListed(after.instructions, lists)
    ensures AreSlots(after.instructions, slots) && AreCleared(after.instructions, clears, flags)
    ensures Nests(after, body, opens + [Opened(region, block)], inside)
  {
    hide AllLinked, AllListed, AreSlots, AreCleared, Nests;
    BodiesAreOther(before.instructions, after.instructions, region, slots, clears, flags);
    BodiesAreNoLinks(before.instructions, after.instructions, region, before.blocks, lists);
    OpensOneMore(before, after, body, opens, block, Opened(region, block), inside);
  }

  lemma OpensOneMore(before: Links, after: Links, body: nat, opens: seq<Opened>, block: nat, one: Opened, inside: nat)
    requires Nests(before, body, opens, block) && 0 < block < |before.blocks| && after.blocks == before.blocks
    requires one.block == block && 0 < one.region < |before.instructions| && before.instructions[one.region].block == block
    requires forall i {:trigger opens[i]} :: 0 <= i < |opens| ==> opens[i].region < one.region
    requires 0 < inside < |after.blocks| && after.blocks[inside].region == one.region
    requires after.instructions == before.instructions[one.region := before.instructions[one.region].(extra := inside)]
    ensures Nests(after, body, opens + [one], inside)
  {
    var more := opens + [one];
    forall i | 0 <= i < |more|
      ensures IsOpen(after, more, inside, i)
    {
      if i < |opens| {
        assert IsOpen(before, opens, block, i);
      }
    }
  }

  lemma ElseIsInside(before: Links, after: Links, body: nat, opens: seq<Opened>, block: nat, otherwise: nat)
    requires Nests(before, body, opens, block) && opens != [] && after.blocks == before.blocks
    requires var region := opens[|opens| - 1].region;
             && region < |before.instructions| && 0 < otherwise < |after.blocks| && after.blocks[otherwise].region == region
             && after.instructions == before.instructions[region := before.instructions[region].(c := otherwise)]
    ensures Nests(after, body, opens, otherwise)
  {
    forall i | 0 <= i < |opens|
      ensures IsOpen(after, opens, otherwise, i)
    {
      assert IsOpen(before, opens, block, i);
    }
  }

  lemma Closed(l: Links, body: nat, opens: seq<Opened>, block: nat)
    requires Nests(l, body, opens, block) && opens != []
    ensures var last := |opens| - 1; Nests(l, body, opens[..last], opens[last].block) && 0 < opens[last].block < |l.blocks|
  {
    var last := |opens| - 1;
    assert IsOpen(l, opens, block, last);
    forall i | 0 <= i < last
      ensures IsOpen(l, opens[..last], opens[last].block, i)
    {
      assert IsOpen(l, opens, block, i);
    }
  }

  lemma NoneCleared(instructions: seq<Instruction>)
    ensures AreCleared(instructions, [], [])
  {
  }

  lemma OneCleared(instructions: seq<Instruction>, zero: nat, written: nat, flag: nat, clears: seq<nat>, flags: seq<nat>)
    requires AreCleared(instructions, clears, flags) && IsCleared(instructions, zero, written, flag)
    ensures AreCleared(instructions, [zero, written] + clears, flags + [flag])
  {
    assert ([zero, written] + clears)[2..] == clears && (flags + [flag])[..|flags|] == flags;
  }
}
