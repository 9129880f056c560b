/**
 * Depth-first flattening of a materialised tree (`toFlatTrees` of the comment
 * repository, reused by the task service for category scopes).
 *
 * A tree node carries its record and its ordered children. Flattening visits
 * the forest in pre-order, stamps every record with its depth and drops the
 * nested `children`: the emitted `Flat` record has no children field at all.
 */
module TreeFlatten {

  /** A materialised node: the record and its children in sibling order. */
  datatype Tree<T> = Tree(item: T, children: seq<Tree<T>>)

  /** An emitted record: the node's own data and its depth, without children. */
  datatype Flat<T> = Flat(item: T, depth: int)

  /** Number of nodes in a forest. */
  function Size<T>(trees: seq<Tree<T>>): nat
  {
    if trees == [] then 0 else 1 + Size(trees[0].children) + Size(trees[1..])
  }

  /** Number of nodes in one tree, the root included. */
  function TreeSize<T>(t: Tree<T>): nat
  {
    1 + Size(t.children)
  }

  /** The records of a forest, counted with multiplicity. */
  function Nodes<T>(trees: seq<Tree<T>>): multiset<T>
  {
    if trees == [] then multiset{}
    else multiset{trees[0].item} + Nodes(trees[0].children) + Nodes(trees[1..])
  }

  /** The top-level records of a forest, in sibling order. */
  function Items<T>(trees: seq<Tree<T>>): (r: seq<T>)
    ensures |r| == |trees|
    ensures forall i :: 0 <= i < |trees| ==> r[i] == trees[i].item
  {
    seq(|trees|, i requires 0 <= i < |trees| => trees[i].item)
  }

  /** The records of a flattened list, depth dropped. */
  function Records<T>(s: seq<Flat<T>>): multiset<T>
  {
    if s == [] then multiset{} else multiset{s[0].item} + Records(s[1..])
  }

  /** The records of a flattened list that sit at depth `d`, in list order. */
  function AtDepth<T>(s: seq<Flat<T>>, d: int): seq<T>
  {
    if s == [] then []
    else (if s[0].depth == d then [s[0].item] else []) + AtDepth(s[1..], d)
  }

  /**
   * Pre-order flattening of a forest whose top-level nodes get depth `depth`
   * (comment.repository.ts:118-127). Every node is emitted once, so the list
   * is as long as the forest has nodes.
   */
  function Flatten<T>(trees: seq<Tree<T>>, depth: int): (r: seq<Flat<T>>)
    ensures |r| == Size(trees)
  {
    if trees == [] then []
    else [Flat(trees[0].item, depth)] + Flatten(trees[0].children, depth + 1) + Flatten(trees[1..], depth)
  }

  /** The flattening of one tree: its root, then its children one level deeper. */
  function FlattenTree<T>(t: Tree<T>, depth: int): seq<Flat<T>>
  {
    [Flat(t.item, depth)] + Flatten(t.children, depth + 1)
  }

  /**
   * `toFlatTrees`: a loop over the forest that pushes each node and then the
   * flattening of its children, recursively (comment.repository.ts:118-127).
   */
  method ToFlatTrees<T>(trees: seq<Tree<T>>, depth: int) returns (data: seq<Flat<T>>)
    ensures data == Flatten(trees, depth)
    decreases trees
  {
    data := [];
    for i := 0 to |trees|
      invariant data == Flatten(trees[..i], depth)
    {
      var item := trees[i];
      ghost var before := data;
      data := data + [Flat(item.item, depth)];
      var children := ToFlatTrees(item.children, depth + 1);
      data := data + children;
      FlattenOne(item, depth);
      assert data == before + Flatten([item], depth);
      assert trees[..i + 1] == trees[..i] + [item];
      FlattenAppend(trees[..i], [item], depth);
    }
    assert trees[..|trees|] == trees;
  }

  /** Every record of a flattening sits at the starting depth or deeper. */
  lemma {:induction false} FlattenDeeper<T>(trees: seq<Tree<T>>, depth: int)
    ensures forall k :: 0 <= k < |Flatten(trees, depth)| ==> Flatten(trees, depth)[k].depth >= depth
  {
    if trees != [] {
      var head := [Flat(trees[0].item, depth)];
      var c := Flatten(trees[0].children, depth + 1);
      var r := Flatten(trees[1..], depth);
      FlattenDeeper(trees[0].children, depth + 1);
      FlattenDeeper(trees[1..], depth);
      var s := head + c + r;
      assert Flatten(trees, depth) == s;
      forall k | 0 <= k < |s| ensures s[k].depth >= depth {
        if k == 0 {
          assert s[k] == head[0];
        } else if k < 1 + |c| {
          assert s[k] == c[k - 1];
        } else {
          assert s[k] == r[k - 1 - |c|];
        }
      }
    }
  }

  /** Flattening distributes over concatenation of forests. */
  lemma {:induction false} FlattenAppend<T>(a: seq<Tree<T>>, b: seq<Tree<T>>, depth: int)
    ensures Flatten(a + b, depth) == Flatten(a, depth) + Flatten(b, depth)
  {
    if a == [] {
      assert a + b == b;
    } else {
      assert (a + b)[0] == a[0];
      assert (a + b)[1..] == a[1..] + b;
      FlattenAppend(a[1..], b, depth);
    }
  }

  /** Node counts add up over concatenation of forests. */
  lemma {:induction false} SizeAppend<T>(a: seq<Tree<T>>, b: seq<Tree<T>>)
    ensures Size(a + b) == Size(a) + Size(b)
  {
    FlattenAppend(a, b, 0);
  }

  /** A one-tree forest flattens to its root followed by its children one level deeper. */
  lemma FlattenOne<T>(t: Tree<T>, depth: int)
    ensures Flatten([t], depth) == [Flat(t.item, depth)] + Flatten(t.children, depth + 1)
  {
    assert [t][0] == t && [t][1..] == [];
  }

  /** A one-tree forest flattens to that tree's flattening. */
  lemma FlattenSingle<T>(t: Tree<T>, depth: int)
    ensures Flatten([t], depth) == FlattenTree(t, depth)
  {
    assert [t][1..] == [];
  }

  /**
   * The subtree of the `i`-th top-level node is emitted as one contiguous
   * block, right after the blocks of its earlier siblings and before those of
   * its later ones: sibling order is kept (comment.repository.ts:120-125).
   */
  lemma {:induction false} FlattenBlock<T>(trees: seq<Tree<T>>, depth: int, i: nat)
    requires i < |trees|
    ensures Size(trees[..i]) + TreeSize(trees[i]) <= Size(trees)
    ensures Flatten(trees, depth)[Size(trees[..i])..Size(trees[..i]) + TreeSize(trees[i])]
            == FlattenTree(trees[i], depth)
  {
    var pre, mid, post := trees[..i], [trees[i]], trees[i + 1..];
    assert trees == pre + mid + post;
    FlattenAppend(pre + mid, post, depth);
    FlattenAppend(pre, mid, depth);
    FlattenSingle(trees[i], depth);
  }

  /** Every node of the forest is emitted exactly once (comment.repository.ts:118-127). */
  lemma {:induction false} FlattenRecords<T>(trees: seq<Tree<T>>, depth: int)
    ensures Records(Flatten(trees, depth)) == Nodes(trees)
  {
    if trees != [] {
      var c := Flatten(trees[0].children, depth + 1);
      var r := Flatten(trees[1..], depth);
      RecordsAppend([Flat(trees[0].item, depth)] + c, r);
      RecordsAppend([Flat(trees[0].item, depth)], c);
      FlattenRecords(trees[0].children, depth + 1);
      FlattenRecords(trees[1..], depth);
    }
  }

  lemma {:induction false} RecordsAppend<T>(a: seq<Flat<T>>, b: seq<Flat<T>>)
    ensures Records(a + b) == Records(a) + Records(b)
  {
    if a == [] {
      assert a + b == b;
    } else {
      assert (a + b)[1..] == a[1..] + b;
      RecordsAppend(a[1..], b);
    }
  }

  lemma {:induction false} AtDepthAppend<T>(a: seq<Flat<T>>, b: seq<Flat<T>>, d: int)
    ensures AtDepth(a + b, d) == AtDepth(a, d) + AtDepth(b, d)
  {
    if a == [] {
      assert a + b == b;
    } else {
      var head := if a[0].depth == d then [a[0].item] else [];
      assert (a + b)[0] == a[0] && (a + b)[1..] == a[1..] + b;
      assert AtDepth(a + b, d) == head + AtDepth(a[1..] + b, d);
      AtDepthAppend(a[1..], b, d);
      assert AtDepth(a, d) == head + AtDepth(a[1..], d);
    }
  }

  lemma {:induction false} AtDepthNone<T>(s: seq<Flat<T>>, d: int)
    requires forall k :: 0 <= k < |s| ==> s[k].depth > d
    ensures AtDepth(s, d) == []
  {
    if s != [] {
      AtDepthNone(s[1..], d);
    }
  }

  /**
   * Reading the flattened list at the starting depth gives back exactly the
   * top-level nodes, in sibling order: they get the `depth` argument and all
   * their descendants sit deeper (comment.repository.ts:118,121,125).
   */
  lemma {:induction false} FlattenTopLevel<T>(trees: seq<Tree<T>>, depth: int)
    ensures AtDepth(Flatten(trees, depth), depth) == Items(trees)
  {
    if trees != [] {
      var head := [Flat(trees[0].item, depth)];
      var c := Flatten(trees[0].children, depth + 1);
      var r := Flatten(trees[1..], depth);
      AtDepthAppend(head + c, r, depth);
      AtDepthAppend(head, c, depth);
      FlattenDeeper(trees[0].children, depth + 1);
      AtDepthNone(c, depth);
      assert AtDepth(head, depth) == [trees[0].item];
      FlattenTopLevel(trees[1..], depth);
      assert Items(trees) == [trees[0].item] + Items(trees[1..]);
    }
  }

  /** Consecutive records never go more than one level deeper. */
  ghost predicate Steps<T>(s: seq<Flat<T>>)
  {
    forall k :: 0 < k < |s| ==> s[k].depth <= s[k - 1].depth + 1
  }

  lemma StepsAppend<T>(a: seq<Flat<T>>, b: seq<Flat<T>>)
    requires Steps(a) && Steps(b)
    requires a != [] && b != [] ==> b[0].depth <= a[|a| - 1].depth + 1
    ensures Steps(a + b)
  {
    var s := a + b;
    forall k | 0 < k < |s|
      ensures s[k].depth <= s[k - 1].depth + 1
    {
      if k < |a| {
        assert s[k] == a[k] && s[k - 1] == a[k - 1];
      } else if k == |a| {
        assert s[k] == b[0] && s[k - 1] == a[|a| - 1];
      } else {
        assert s[k] == b[k - |a|] && s[k - 1] == b[k - 1 - |a|];
      }
    }
  }

  /**
   * The depth profile of a pre-order listing: the first record has the
   * starting depth and each next record is at most one level deeper than the
   * one before it (a child directly follows its parent at depth + 1).
   */
  lemma {:induction false} FlattenSteps<T>(trees: seq<Tree<T>>, depth: int)
    ensures Flatten(trees, depth) != [] ==> Flatten(trees, depth)[0].depth == depth
    ensures Steps(Flatten(trees, depth))
  {
    if trees != [] {
      var head := [Flat(trees[0].item, depth)];
      var c := Flatten(trees[0].children, depth + 1);
      var r := Flatten(trees[1..], depth);
      FlattenSteps(trees[0].children, depth + 1);
      FlattenSteps(trees[1..], depth);
      FlattenDeeper(trees[0].children, depth + 1);
      StepsAppend(head, c);
      StepsAppend(head + c, r);
    }
  }

  /** `p` is a path of sibling indices from a top-level node down to a descendant. */
  ghost predicate IsPath<T>(trees: seq<Tree<T>>, p: seq<nat>)
    decreases p
  {
    p != [] && p[0] < |trees| && (|p| == 1 || IsPath(trees[p[0]].children, p[1..]))
  }

  /** The node a path leads to. */
  ghost function NodeAt<T>(trees: seq<Tree<T>>, p: seq<nat>): Tree<T>
    requires IsPath(trees, p)
    decreases p
  {
    if |p| == 1 then trees[p[0]] else NodeAt(trees[p[0]].children, p[1..])
  }

  /** Where a pre-order walk meets the node a path leads to, counted in nodes. */
  ghost function PositionOf<T>(trees: seq<Tree<T>>, p: seq<nat>): nat
    requires IsPath(trees, p)
    decreases p
  {
    Size(trees[..p[0]]) + (if |p| == 1 then 0 else 1 + PositionOf(trees[p[0]].children, p[1..]))
  }

  /**
   * The node reached by a path of length `n` is emitted with depth
   * `depth + n - 1`: every child is one level below its parent, so a record's
   * depth is its distance from the top level (comment.repository.ts:121,125).
   */
  lemma {:induction false} FlattenAtPath<T>(trees: seq<Tree<T>>, depth: int, p: seq<nat>)
    requires IsPath(trees, p)
    ensures PositionOf(trees, p) < Size(trees)
    ensures Flatten(trees, depth)[PositionOf(trees, p)] == Flat(NodeAt(trees, p).item, depth + |p| - 1)
    decreases p
  {
    var i := p[0];
    var off := Size(trees[..i]);
    if |p| == 1 {
      BlockAt(trees, depth, i, 0);
      assert FlattenTree(trees[i], depth)[0] == Flat(trees[i].item, depth);
      assert PositionOf(trees, p) == off && NodeAt(trees, p) == trees[i];
    } else {
      var q, c := p[1..], trees[i].children;
      FlattenAtPath(c, depth + 1, q);
      var inner := PositionOf(c, q);
      assert PositionOf(trees, p) == off + 1 + inner && NodeAt(trees, p) == NodeAt(c, q);
      ChildInBlock(trees, depth, i, inner);
    }
  }

  /** The `k`-th record of the flattened children of the `i`-th top-level node, read in the whole flattening. */
  lemma ChildInBlock<T>(trees: seq<Tree<T>>, depth: int, i: nat, k: nat)
    requires i < |trees| && k < Size(trees[i].children)
    ensures Size(trees[..i]) + 1 + k < Size(trees)
    ensures Flatten(trees, depth)[Size(trees[..i]) + 1 + k] == Flatten(trees[i].children, depth + 1)[k]
  {
    BlockAt(trees, depth, i, 1 + k);
    var head, c := [Flat(trees[i].item, depth)], Flatten(trees[i].children, depth + 1);
    assert FlattenTree(trees[i], depth) == head + c;
    assert (head + c)[1 + k] == c[k];
  }

  /** The `k`-th record of the `i`-th top-level block, read in the whole flattening. */
  lemma BlockAt<T>(trees: seq<Tree<T>>, depth: int, i: nat, k: nat)
    requires i < |trees| && k < TreeSize(trees[i])
    ensures Size(trees[..i]) + k < Size(trees)
    ensures Flatten(trees, depth)[Size(trees[..i]) + k] == FlattenTree(trees[i], depth)[k]
  {
    FlattenBlock(trees, depth, i);
    var all, off := Flatten(trees, depth), Size(trees[..i]);
    assert all[off..off + TreeSize(trees[i])][k] == all[off + k];
  }

  /**
   * A node is emitted before all its descendants, and they all come before
   * the end of its own block: the whole subtree is emitted before the next
   * sibling (comment.repository.ts:120-125).
   */
  lemma {:induction false} AncestorFirst<T>(trees: seq<Tree<T>>, p: seq<nat>, q: seq<nat>)
    requires p != [] && q != [] && IsPath(trees, p + q)
    ensures IsPath(trees, p)
    ensures PositionOf(trees, p) < PositionOf(trees, p + q)
    ensures PositionOf(trees, p + q) < PositionOf(trees, p) + TreeSize(NodeAt(trees, p))
    decreases p
  {
    var i := (p + q)[0];
    var c := trees[i].children;
    assert i == p[0];
    assert (p + q)[1..] == p[1..] + q;
    if |p| == 1 {
      assert (p + q)[1..] == q;
      FlattenAtPath(c, 0, q);
    } else {
      AncestorFirst(c, p[1..], q);
    }
  }
}
