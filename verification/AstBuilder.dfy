/** The syntax tree's nodes, linked by their numbers -- each to its first child and its next
    sibling -- and copying a subtree of them.
  */
module AstBuilders {

  /** 0 is no node. */
  datatype Node = Node(kind: nat, token: nat, children: nat, sibling: nat)

  datatype Tree = Tree(kind: nat, token: nat, children: Forest)

  datatype Forest = NoMore | More(first: Tree, rest: Forest)

  // ----- What the links hold -----

  /** The node is the root of this tree. */
  predicate IsTree(nodes: seq<Node>, node: nat, t: Tree)
    decreases t
  {
    && 0 < node < |nodes| && nodes[node].kind == t.kind && nodes[node].token == t.token
    && IsForest(nodes, nodes[node].children, t.children)
  }

  /** The node and its siblings after it are the roots of these trees. */
  predicate IsForest(nodes: seq<Node>, first: nat, f: Forest)
    decreases f
  {
    match f
    case NoMore => first == 0
    case More(t, rest) => IsTree(nodes, first, t) && IsForest(nodes, nodes[first].sibling, rest)
  }

  function Size(t: Tree): nat {
    1 + SizeOf(t.children)
  }

  function SizeOf(f: Forest): nat {
    if f == NoMore then 0 else Size(f.first) + SizeOf(f.rest)
  }

  /** A copy, in nodes of its own: its root first, then its children's, one after another. */
  predicate IsCopy(nodes: seq<Node>, at: nat, t: Tree)
    decreases t, 0
  {
    && 0 < at && at + Size(t) <= |nodes| && nodes[at].kind == t.kind && nodes[at].token == t.token
    && nodes[at].children == (if t.children == NoMore then 0 else at + 1)
    && AreCopies(nodes, at + 1, t.children)
  }

  predicate AreCopies(nodes: seq<Node>, at: nat, f: Forest)
    decreases f, 1
  {
    f.More? ==>
      && IsCopy(nodes, at, f.first)
      && nodes[at].sibling == (if f.rest == NoMore then 0 else at + Size(f.first))
      && AreCopies(nodes, at + Size(f.first), f.rest)
  }

  /** A copy is the tree it is a copy of. */
  lemma {:induction false} CopyIsTree(nodes: seq<Node>, at: nat, t: Tree)
    requires IsCopy(nodes, at, t)
    ensures IsTree(nodes, at, t)
    decreases t, 0
  {
    CopiesAreForest(nodes, at + 1, t.children);
  }

  lemma {:induction false} CopiesAreForest(nodes: seq<Node>, at: nat, f: Forest)
    requires AreCopies(nodes, at, f)
    ensures IsForest(nodes, if f == NoMore then 0 else at, f)
    decreases f, 1
  {
    if f.More? {
      CopyIsTree(nodes, at, f.first);
      CopiesAreForest(nodes, at + Size(f.first), f.rest);
    }
  }

  /** A copy stays one while its nodes do, but for its root's sibling. */
  lemma {:induction false} CopyStays(nodes: seq<Node>, later: seq<Node>, at: nat, t: Tree)
    requires IsCopy(nodes, at, t) && |nodes| <= |later| && later[at].(sibling := 0) == nodes[at].(sibling := 0)
    requires forall i :: at < i < at + Size(t) ==> later[i] == nodes[i]
    ensures IsCopy(later, at, t)
    decreases t, 0
  {
    CopiesStay(nodes, later, at + 1, t.children);
  }

  lemma {:induction false} CopiesStay(nodes: seq<Node>, later: seq<Node>, at: nat, f: Forest)
    requires AreCopies(nodes, at, f) && |nodes| <= |later|
    requires forall i :: at <= i < at + SizeOf(f) && i < |nodes| ==> later[i] == nodes[i]
    ensures AreCopies(later, at, f)
    decreases f, 1
  {
    if f.More? {
      CopyStays(nodes, later, at, f.first);
      CopiesStay(nodes, later, at + Size(f.first), f.rest);
    }
  }

  lemma {:induction false} TreeStays(nodes: seq<Node>, later: seq<Node>, node: nat, t: Tree)
    requires IsTree(nodes, node, t) && nodes <= later
    ensures IsTree(later, node, t)
    decreases t, 0
  {
    ForestStays(nodes, later, nodes[node].children, t.children);
  }

  lemma {:induction false} ForestStays(nodes: seq<Node>, later: seq<Node>, first: nat, f: Forest)
    requires IsForest(nodes, first, f) && nodes <= later
    ensures IsForest(later, first, f)
    decreases f, 1
  {
    if f.More? {
      TreeStays(nodes, later, first, f.first);
      ForestStays(nodes, later, nodes[first].sibling, f.rest);
    }
  }

  // ----- Lists of children -----

  /** A node and its siblings after it. */
  predicate IsList(nodes: seq<Node>, first: nat, list: seq<nat>)
    decreases |list|
  {
    if list == [] then first == 0 else 0 < first < |nodes| && list[0] == first && IsList(nodes, nodes[first].sibling, list[1..])
  }

  predicate AllIn(nodes: seq<Node>, list: seq<nat>) {
    forall k {:trigger list[k]} :: 0 <= k < |list| ==> 0 < list[k] < |nodes|
  }

  /** A child at the end of its parent's list. */
  function Added(nodes: seq<Node>, parent: nat, list: seq<nat>, child: nat): seq<Node>
    requires parent < |nodes| && AllIn(nodes, list)
    ensures |Added(nodes, parent, list, child)| == |nodes|
  {
    if list == [] then nodes[parent := nodes[parent].(children := child)]
    else nodes[list[|list| - 1] := nodes[list[|list| - 1]].(sibling := child)]
  }

  lemma {:induction false} ListInRange(nodes: seq<Node>, first: nat, list: seq<nat>)
    requires IsList(nodes, first, list)
    ensures AllIn(nodes, list)
    ensures list != [] ==> nodes[list[|list| - 1]].sibling == 0
    decreases |list|
  {
    if list != [] {
      ListInRange(nodes, nodes[first].sibling, list[1..]);
      assert forall k {:trigger list[k]} :: 0 < k < |list| ==> list[k] == list[1..][k - 1];
    }
  }

  /** It is in the list then, after the others. */
  lemma {:induction false} AddedIsListed(nodes: seq<Node>, first: nat, list: seq<nat>, child: nat)
    requires IsList(nodes, first, list) && list != [] && 0 < child < |nodes| && child !in list && nodes[child].sibling == 0
    requires forall i, j {:trigger list[i], list[j]} :: 0 <= i < j < |list| ==> list[i] != list[j]
    ensures list[|list| - 1] < |nodes|
    ensures IsList(nodes[list[|list| - 1] := nodes[list[|list| - 1]].(sibling := child)], first, list + [child])
    decreases |list|
  {
    ListInRange(nodes, first, list);
    var last := list[|list| - 1];
    var later := nodes[last := nodes[last].(sibling := child)];
    if |list| == 1 {
      assert (list + [child])[1..] == [child];
      assert IsList(later, child, [child]) by {
        assert [child][1..] == [];
      }
    } else {
      assert list[0] != last;
      AddedIsListed(nodes, nodes[first].sibling, list[1..], child);
      assert (list + [child])[1..] == list[1..] + [child];
    }
  }

  /** However many children a parent has, none among them, the new one comes after them. */
  lemma ChildIsAdded(nodes: seq<Node>, parent: nat, list: seq<nat>, child: nat)
    requires parent < |nodes| && IsList(nodes, nodes[parent].children, list) && parent !in list
    requires 0 < child < |nodes| && child !in list && nodes[child].sibling == 0
    requires forall i, j {:trigger list[i], list[j]} :: 0 <= i < j < |list| ==> list[i] != list[j]
    ensures AllIn(nodes, list)
    ensures var later := Added(nodes, parent, list, child); IsList(later, later[parent].children, list + [child])
  {
    ListInRange(nodes, nodes[parent].children, list);
    var later := Added(nodes, parent, list, child);
    if list == [] {
      assert [child][1..] == [] && list + [child] == [child];
    } else {
      AddedIsListed(nodes, nodes[parent].children, list, child);
      assert list[|list| - 1] in list;
    }
  }

  class AstBuilder {
    var nodes: seq<Node>

    ghost predicate Valid()
      reads this
    {
      0 < |nodes|
    }

    constructor ()
      ensures Valid() && |nodes| == 1
    {
      nodes := [Node(0, 0, 0, 0)];
    }

    method MakeNode(kind: nat, token: nat) returns (made: nat)
      requires Valid()
      modifies this
      ensures Valid() && made == old(|nodes|) && nodes == old(nodes) + [Node(kind, token, 0, 0)]
    {
      made := |nodes|;
      nodes := nodes + [Node(kind, token, 0, 0)];
    }

    /** The end of the list, looked up. */
    method LastChildOf(parent: nat, ghost list: seq<nat>) returns (last: nat)
      requires parent < |nodes| && IsList(nodes, nodes[parent].children, list)
      ensures last == if list == [] then 0 else list[|list| - 1]
    {
      last := nodes[parent].children;
      if last == 0 {
        return;
      }
      ghost var rest := list;
      while nodes[last].sibling != 0
        invariant rest != [] && IsList(nodes, last, rest) && rest[|rest| - 1] == list[|list| - 1]
        decreases |rest|
      {
        rest := rest[1..];
        last := nodes[last].sibling;
      }
    }

    /** `last` is the last child, or 0 when the caller does not know it; either way the same list
        is built. */
    method AddChild(parent: nat, last: nat, child: nat, ghost list: seq<nat>) returns (end: nat)
      requires parent < |nodes| && IsList(nodes, nodes[parent].children, list)
      requires last == 0 || (list != [] && last == list[|list| - 1])
      modifies this
      ensures AllIn(old(nodes), list)
      ensures nodes == if child == 0 then old(nodes) else Added(old(nodes), parent, list, child)
      ensures end == if child == 0 then last else child
    {
      ListInRange(nodes, nodes[parent].children, list);
      if child == 0 {
        return last;
      }
      if last == 0 {
        AddLastChild(parent, child, list);
      } else {
        nodes := nodes[last := nodes[last].(sibling := child)];
      }
      end := child;
    }

    method AddLastChild(parent: nat, child: nat, ghost list: seq<nat>)
      requires parent < |nodes| && IsList(nodes, nodes[parent].children, list) && AllIn(nodes, list)
      modifies this
      ensures nodes == Added(old(nodes), parent, list, child)
    {
      var last := LastChildOf(parent, list);
      if last == 0 {
        nodes := nodes[parent := nodes[parent].(children := child)];
      } else {
        nodes := nodes[last := nodes[last].(sibling := child)];
      }
    }

    /** A copy in new nodes; every node there was is left as it is. */
    method Clone(node: nat, ghost t: Tree) returns (copy: nat)
      requires Valid() && (node == 0 || IsTree(nodes, node, t))
      modifies this
      ensures Valid() && old(nodes) <= nodes
      ensures node == 0 ==> copy == 0 && nodes == old(nodes)
      ensures node != 0 ==> copy == old(|nodes|) && |nodes| == copy + Size(t) && IsCopy(nodes, copy, t) && nodes[copy].sibling == 0
      decreases t
    {
      hide IsCopy, AreCopies, IsList, AllIn, Roots, Appended, IsTree, IsForest;
      if node == 0 {
        return 0;
      }
      TreeUnfolds(nodes, node, t);
      var kind, token := nodes[node].kind, nodes[node].token;
      copy := MakeNode(kind, token);
      var last, child := 0, nodes[node].children;
      ghost var done, rest := NoMore, t.children;
      NoneCopied(nodes, copy + 1, rest);
      while child != 0
        invariant old(nodes) <= nodes && |nodes| == copy + 1 + SizeOf(done)
        invariant IsForest(old(nodes), child, rest) && (rest == t.children || rest < t.children)
        invariant t.children == Appended(done, rest)
        invariant nodes[copy] == Node(kind, token, if done == NoMore then 0 else copy + 1, 0)
        invariant AreCopies(nodes, copy + 1, done)
        invariant last == LastOf(Roots(copy + 1, done))
        decreases rest
      {
        ForestUnfolds(old(nodes), child, rest);
        TreeStays(old(nodes), nodes, child, rest.first);
        ghost var before, list := nodes, Roots(copy + 1, done);
        var made := Clone(child, rest.first);
        CopiesStay(before, nodes, copy + 1, done);
        CopiesAreList(nodes, copy + 1, done);
        RootsAreInside(copy + 1, done);
        ghost var cloned := nodes;
        last := AddChild(copy, last, made, list);
        OneMoreCopy(cloned, nodes, copy, done, rest.first);
        AppendedAgain(done, rest.first, rest.rest);
        child := nodes[child].sibling;
        done, rest := Appended(done, More(rest.first, NoMore)), rest.rest;
      }
      ForestUnfolds(old(nodes), child, rest);
      AppendedNothing(done);
      CopyUnfolds(nodes, copy, t);
    }
  }

  lemma TreeUnfolds(nodes: seq<Node>, node: nat, t: Tree)
    requires IsTree(nodes, node, t)
    ensures 0 < node < |nodes| && nodes[node].kind == t.kind && nodes[node].token == t.token
    ensures IsForest(nodes, nodes[node].children, t.children)
  {
  }

  lemma ForestUnfolds(nodes: seq<Node>, first: nat, f: Forest)
    requires IsForest(nodes, first, f)
    ensures first == 0 <==> f == NoMore
    ensures f.More? ==> first < |nodes| && IsTree(nodes, first, f.first) && IsForest(nodes, nodes[first].sibling, f.rest)
  {
  }

  lemma NoneCopied(nodes: seq<Node>, at: nat, rest: Forest)
    ensures AreCopies(nodes, at, NoMore) && Appended(NoMore, rest) == rest && LastOf(Roots(at, NoMore)) == 0
  {
  }

  lemma CopyUnfolds(nodes: seq<Node>, at: nat, t: Tree)
    requires 0 < at && at + Size(t) <= |nodes|
    requires nodes[at] == Node(t.kind, t.token, if t.children == NoMore then 0 else at + 1, 0) && AreCopies(nodes, at + 1, t.children)
    ensures IsCopy(nodes, at, t)
  {
  }

  function Appended(f: Forest, rest: Forest): Forest {
    if f == NoMore then rest else More(f.first, Appended(f.rest, rest))
  }

  lemma {:induction false} AppendedNothing(f: Forest)
    ensures Appended(f, NoMore) == f
  {
    if f.More? {
      AppendedNothing(f.rest);
    }
  }

  /** Where the roots of copies are. */
  function Roots(at: nat, f: Forest): seq<nat>
    decreases f
  {
    if f == NoMore then [] else [at] + Roots(at + Size(f.first), f.rest)
  }

  function LastOf(list: seq<nat>): nat {
    if list == [] then 0 else list[|list| - 1]
  }

  lemma {:induction false} CopiesAreList(nodes: seq<Node>, at: nat, f: Forest)
    requires AreCopies(nodes, at, f)
    ensures IsList(nodes, if f == NoMore then 0 else at, Roots(at, f))
    decreases f
  {
    if f.More? {
      CopiesAreList(nodes, at + Size(f.first), f.rest);
    }
  }

  lemma {:induction false} RootsAreInside(at: nat, f: Forest)
    ensures f.More? ==> Roots(at, f) != [] && at <= LastOf(Roots(at, f)) < at + SizeOf(f)
    ensures f == NoMore <==> Roots(at, f) == []
    decreases f
  {
    if f.More? {
      RootsAreInside(at + Size(f.first), f.rest);
    }
  }

  lemma {:induction false} AppendedSize(f: Forest, t: Tree)
    ensures SizeOf(Appended(f, More(t, NoMore))) == SizeOf(f) + Size(t)
  {
    if f.More? {
      AppendedSize(f.rest, t);
    }
  }

  lemma {:induction false} LastAppended(at: nat, f: Forest, t: Tree)
    ensures LastOf(Roots(at, Appended(f, More(t, NoMore)))) == at + SizeOf(f)
    decreases f
  {
    if f.More? {
      LastAppended(at + Size(f.first), f.rest, t);
      RootsAreInside(at + Size(f.first), Appended(f.rest, More(t, NoMore)));
    }
  }

  /** The last copy's sibling is the next one. */
  lemma {:induction false} CopiesAppended(nodes: seq<Node>, later: seq<Node>, at: nat, f: Forest, t: Tree)
    requires f.More? && AreCopies(nodes, at, f) && IsCopy(nodes, at + SizeOf(f), t) && nodes[at + SizeOf(f)].sibling == 0
    requires LastOf(Roots(at, f)) < |nodes|
    requires later == nodes[LastOf(Roots(at, f)) := nodes[LastOf(Roots(at, f))].(sibling := at + SizeOf(f))]
    ensures AreCopies(later, at, Appended(f, More(t, NoMore)))
    decreases f
  {
    var next := at + Size(f.first);
    RootsAreInside(at, f);
    RootsAreInside(next, f.rest);
    assert LastOf(Roots(at, f)) == if f.rest == NoMore then at else LastOf(Roots(next, f.rest));
    CopyStays(nodes, later, at, f.first);
    if f.rest == NoMore {
      CopyStays(nodes, later, next, t);
    } else {
      CopiesAppended(nodes, later, next, f.rest, t);
      assert next + SizeOf(f.rest) == at + SizeOf(f);
    }
  }

  /** One child more, cloned after the others and linked. */
  lemma OneMoreCopy(nodes: seq<Node>, later: seq<Node>, copy: nat, done: Forest, t: Tree)
    requires copy < |nodes| && AreCopies(nodes, copy + 1, done) && AllIn(nodes, Roots(copy + 1, done))
    requires var made := copy + 1 + SizeOf(done);
             && IsCopy(nodes, made, t) && nodes[made].sibling == 0
             && later == Added(nodes, copy, Roots(copy + 1, done), made)
    ensures AreCopies(later, copy + 1, Appended(done, More(t, NoMore)))
    ensures SizeOf(Appended(done, More(t, NoMore))) == SizeOf(done) + Size(t)
    ensures LastOf(Roots(copy + 1, Appended(done, More(t, NoMore)))) == copy + 1 + SizeOf(done)
    ensures later[copy] == if done == NoMore then nodes[copy].(children := copy + 1) else nodes[copy]
    ensures forall i :: 0 <= i < copy ==> later[i] == nodes[i]
  {
    AppendedSize(done, t);
    LastAppended(copy + 1, done, t);
    RootsAreInside(copy + 1, done);
    if done == NoMore {
      CopyStays(nodes, later, copy + 1, t);
    } else {
      CopiesAppended(nodes, later, copy + 1, done, t);
    }
  }

  /** However often the rest is taken apart, one by one it is the same. */
  lemma {:induction false} AppendedAgain(f: Forest, t: Tree, rest: Forest)
    ensures Appended(Appended(f, More(t, NoMore)), rest) == Appended(f, More(t, rest))
  {
    if f.More? {
      AppendedAgain(f.rest, t, rest);
    }
  }
}
