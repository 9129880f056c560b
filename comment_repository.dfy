/**
 * The comment repository (comment.repository.ts): the comment table, the
 * clause lists its query builders carry, root lookup, and the materialisation
 * of a comment's descendant tree by parent link.
 *
 * A comment is identified by its position in the table; table order is
 * insertion order. The builder's `where` REPLACES every earlier condition and
 * `andWhere` conjoins one more: both are modelled as such.
 */
module CommentRepository {
  import opened Wrappers
  import opened TreeFlatten

  /** A stored comment; `children` and `depth` are not columns (comment.entity.ts:23-77). */
  datatype Comment = Comment(
    id: Id,
    body: string,
    createdAt: int,
    task: Id,
    parent: Option<Id>,
    creator: Option<Id>)

  /** Table positions that exist. */
  ghost predicate InTable(rows: seq<Comment>, s: seq<nat>)
  {
    forall n :: 0 <= n < |s| ==> s[n] < |rows|
  }

  /** Primary keys are unique. */
  ghost predicate UniqueIds(rows: seq<Comment>)
  {
    forall i, j :: 0 <= i < j < |rows| ==> rows[i].id != rows[j].id
  }

  /**
   * Every parent reference names an earlier row of the same task: a parent
   * must exist when its child is saved, a child must belong to its parent's
   * task, and deleting a comment deletes its descendants.
   */
  ghost predicate ParentsEarlier(rows: seq<Comment>)
  {
    forall j :: 0 <= j < |rows| && rows[j].parent.Some? ==>
      exists i :: 0 <= i < j && rows[i].id == rows[j].parent.value && rows[i].task == rows[j].task
  }

  ghost predicate ValidRows(rows: seq<Comment>)
  {
    UniqueIds(rows) && ParentsEarlier(rows)
  }

  /** `rows[j]` lies strictly below a comment whose id is `a`, following parent links. */
  predicate Below(rows: seq<Comment>, a: Id, j: nat)
    requires j < |rows|
    decreases j
  {
    rows[j].parent.Some? &&
    (rows[j].parent.value == a ||
     exists k :: 0 <= k < j && rows[k].id == rows[j].parent.value && Below(rows, a, k))
  }

  /** A WHERE condition a comment query can carry. */
  datatype Cond =
    | ParentIsNull          // `comment.parent IS NULL` (comment.repository.ts:56)
    | TaskIs(task: Id)      // `task.id = :id` or `{ task }`
    | InTreeOf(root: Id)    // the materialized-path range of the descendants builder

  predicate Holds(rows: seq<Comment>, c: Cond, j: nat)
    requires j < |rows|
  {
    match c
    case ParentIsNull => rows[j].parent.None?
    case TaskIs(t) => rows[j].task == t
    case InTreeOf(a) => rows[j].id == a || Below(rows, a, j)
  }

  /** The WHERE part of a query builder: the conjunction of its conditions. */
  datatype Query = Query(conds: seq<Cond>)

  predicate Admits(rows: seq<Comment>, q: Query, j: nat)
    requires j < |rows|
  {
    forall c :: c in q.conds ==> Holds(rows, c, j)
  }

  /** `qb.where(c)`: the new condition replaces all earlier ones. */
  function Where(q: Query, c: Cond): Query
  {
    Query([c])
  }

  /** `qb.andWhere(c)`: the new condition is conjoined to the earlier ones. */
  function AndWhere(q: Query, c: Cond): Query
  {
    Query(q.conds + [c])
  }

  /** The `addQuery` hook a caller hands to the repository. */
  datatype AddQuery = Unchanged | WhereCond(cond: Cond) | AndWhereCond(cond: Cond)

  function Apply(h: AddQuery, q: Query): Query
  {
    match h
    case Unchanged => q
    case WhereCond(c) => Where(q, c)
    case AndWhereCond(c) => AndWhere(q, c)
  }

  /** Replacing: after `where(c)` a row is admitted exactly when `c` holds of it. */
  lemma WhereReplaces(rows: seq<Comment>, q: Query, c: Cond, j: nat)
    requires j < |rows|
    ensures Admits(rows, Where(q, c), j) <==> Holds(rows, c, j)
  {
  }

  /** Conjoining: after `andWhere(c)` a row must meet the old conditions and `c`. */
  lemma AndWhereConjoins(rows: seq<Comment>, q: Query, c: Cond, j: nat)
    requires j < |rows|
    ensures Admits(rows, AndWhere(q, c), j) <==> Admits(rows, q, j) && Holds(rows, c, j)
  {
    assert forall d :: d in q.conds + [c] <==> d in q.conds || d == c;
  }

  /** Strictly increasing positions: table order without repetition. */
  ghost predicate Increasing(s: seq<nat>)
  {
    forall x, y :: 0 <= x < y < |s| ==> s[x] < s[y]
  }

  /** The positions from `from` on whose rows the query admits, in table order. */
  function Matching(rows: seq<Comment>, q: Query, from: nat): (r: seq<nat>)
    requires from <= |rows|
    ensures forall n :: 0 <= n < |r| ==> from <= r[n] < |rows|
    ensures forall k :: k in r <==> from <= k < |rows| && Admits(rows, q, k)
    ensures Increasing(r)
    decreases |rows| - from
  {
    if from == |rows| then []
    else
      var rest := Matching(rows, q, from + 1);
      (if Admits(rows, q, from) then [from] else []) + rest
  }

  /** The positions from `from` on of admitted rows whose parent is `rows[i]`, in table order. */
  function ChildrenOf(rows: seq<Comment>, i: nat, q: Query, from: nat): (r: seq<nat>)
    requires i < |rows| && from <= |rows|
    ensures forall n :: 0 <= n < |r| ==> from <= r[n] < |rows|
    ensures forall k :: k in r <==>
      from <= k < |rows| && rows[k].parent == Some(rows[i].id) && Admits(rows, q, k)
    ensures Increasing(r)
    decreases |rows| - from
  {
    if from == |rows| then []
    else
      var rest := ChildrenOf(rows, i, q, from + 1);
      (if rows[from].parent == Some(rows[i].id) && Admits(rows, q, from) then [from] else []) + rest
  }

  /** `ORDER BY comment.createdAt ASC`, ties kept in table order (comment.repository.ts:28). */
  predicate CreatedBefore(rows: seq<Comment>, a: nat, b: nat)
    requires a < |rows| && b < |rows|
  {
    rows[a].createdAt < rows[b].createdAt || (rows[a].createdAt == rows[b].createdAt && a < b)
  }

  ghost predicate OrderedByCreated(rows: seq<Comment>, s: seq<nat>)
    requires InTable(rows, s)
  {
    forall x, y :: 0 <= x < y < |s| ==> CreatedBefore(rows, s[x], s[y])
  }

  /** Insert position `k`, which precedes every position of `s` in the table, in front of the first row created no earlier. */
  function InsertByCreated(rows: seq<Comment>, k: nat, s: seq<nat>): (r: seq<nat>)
    requires k < |rows| && InTable(rows, s) && OrderedByCreated(rows, s)
    requires forall n :: 0 <= n < |s| ==> k < s[n]
    ensures multiset(r) == multiset(s) + multiset{k}
    ensures InTable(rows, r) && OrderedByCreated(rows, r)
  {
    if s == [] || rows[k].createdAt <= rows[s[0]].createdAt then
      [k] + s
    else
      var rest := InsertByCreated(rows, k, s[1..]);
      HeadPrecedes(rows, k, s, rest);
      assert s == [s[0]] + s[1..];
      [s[0]] + rest
  }

  /** The head of an ordered list precedes every element of the list `k` was inserted into. */
  lemma HeadPrecedes(rows: seq<Comment>, k: nat, s: seq<nat>, rest: seq<nat>)
    requires k < |rows| && InTable(rows, s) && OrderedByCreated(rows, s) && s != []
    requires rows[s[0]].createdAt < rows[k].createdAt
    requires InTable(rows, rest) && multiset(rest) == multiset(s[1..]) + multiset{k}
    ensures forall n :: 0 <= n < |rest| ==> CreatedBefore(rows, s[0], rest[n])
  {
    forall n | 0 <= n < |rest| ensures CreatedBefore(rows, s[0], rest[n]) {
      assert rest[n] in multiset(rest);
      if rest[n] != k {
        assert rest[n] in multiset(s[1..]);
        var m :| 0 <= m < |s[1..]| && s[1..][m] == rest[n];
        assert s[m + 1] == rest[n];
      }
    }
  }

  /**
   * Stable insertion sort of table positions by creation time: the order
   * `ORDER BY createdAt ASC` gives rows that come out of the table in order.
   */
  function SortByCreated(rows: seq<Comment>, s: seq<nat>): (r: seq<nat>)
    requires InTable(rows, s) && Increasing(s)
    ensures multiset(r) == multiset(s)
    ensures InTable(rows, r) && OrderedByCreated(rows, r)
  {
    if s == [] then []
    else
      IncreasingTail(s);
      var rest := SortByCreated(rows, s[1..]);
      FirstBelowRest(s, rest);
      assert s == [s[0]] + s[1..];
      InsertByCreated(rows, s[0], rest)
  }

  lemma IncreasingTail(s: seq<nat>)
    requires Increasing(s) && s != []
    ensures Increasing(s[1..])
  {
    forall x, y | 0 <= x < y < |s[1..]| ensures s[1..][x] < s[1..][y] {
      assert s[1..][x] == s[x + 1] && s[1..][y] == s[y + 1];
    }
  }

  lemma FirstBelowRest(s: seq<nat>, rest: seq<nat>)
    requires Increasing(s) && s != [] && multiset(rest) == multiset(s[1..])
    ensures forall n :: 0 <= n < |rest| ==> s[0] < rest[n]
  {
    forall n | 0 <= n < |rest| ensures s[0] < rest[n] {
      assert rest[n] in multiset(s[1..]);
    }
  }

  /** Sequences with the same multiset have the same members. */
  lemma SameMembers(r: seq<nat>, s: seq<nat>)
    requires multiset(r) == multiset(s)
    ensures forall k :: k in r <==> k in s
  {
    forall k ensures k in r <==> k in s {
      assert k in r <==> k in multiset(r);
      assert k in s <==> k in multiset(s);
    }
  }

  /** Rows already in creation order come out of the sort unchanged. */
  lemma {:induction false} SortOfOrderedIsIdentity(rows: seq<Comment>, s: seq<nat>)
    requires InTable(rows, s) && Increasing(s) && OrderedByCreated(rows, s)
    ensures SortByCreated(rows, s) == s
  {
    if s != [] {
      SortOfOrderedIsIdentity(rows, s[1..]);
      assert s == [s[0]] + s[1..];
    }
  }

  /**
   * The tree below `rows[i]`: children are the admitted rows whose parent link
   * names `rows[i]`, attached recursively and ordered by creation time
   * (comment.repository.ts:82-111; TypeORM's tree assembly is abstracted as
   * "attach children by parent link").
   */
  function Materialize(rows: seq<Comment>, i: nat, q: Query): (t: Tree<Comment>)
    requires i < |rows|
    ensures t.item == rows[i] && |t.children| == |Kids(rows, i, q)|
    ensures forall n :: 0 <= n < |t.children| ==> t.children[n] == Materialize(rows, Kids(rows, i, q)[n], q)
    decreases |rows| - i
  {
    var kids := Kids(rows, i, q);
    Tree(rows[i], seq(|kids|, n requires 0 <= n < |kids| => Materialize(rows, kids[n], q)))
  }

  /** The positions of the children `Materialize` attaches below `rows[i]`, in order. */
  function Kids(rows: seq<Comment>, i: nat, q: Query): (r: seq<nat>)
    requires i < |rows|
    ensures InTable(rows, r) && OrderedByCreated(rows, r)
    ensures forall k :: k in r <==>
      i < k < |rows| && rows[k].parent == Some(rows[i].id) && Admits(rows, q, k)
  {
    var c := ChildrenOf(rows, i, q, i + 1);
    var r := SortByCreated(rows, c);
    SameMembers(r, c);
    r
  }

  /** The whole subtree of `rows[i]`, with no condition on its members. */
  function Subtree(rows: seq<Comment>, i: nat): Tree<Comment>
    requires i < |rows|
  {
    Materialize(rows, i, Query([]))
  }

  /**
   * In a valid table, the children attached below a comment are exactly the
   * comments whose parent link names it, in creation order.
   */
  lemma SubtreeChildren(rows: seq<Comment>, i: nat)
    requires ValidRows(rows) && i < |rows|
    ensures forall k :: k in Kids(rows, i, Query([])) <==> 0 <= k < |rows| && rows[k].parent == Some(rows[i].id)
    ensures |Subtree(rows, i).children| == |Kids(rows, i, Query([]))|
    ensures forall n :: 0 <= n < |Kids(rows, i, Query([]))| ==>
      Subtree(rows, i).children[n] == Subtree(rows, Kids(rows, i, Query([]))[n])
  {
    forall k | 0 <= k < |rows| && rows[k].parent == Some(rows[i].id)
      ensures i < k
    {
      var m :| 0 <= m < k && rows[m].id == rows[k].parent.value && rows[m].task == rows[k].task;
      assert m == i;
    }
  }

  /** The query of `findRoots` before the caller's hook: parent IS NULL (comment.repository.ts:54-56). */
  function RootQuery(): Query
  {
    Query([ParentIsNull])
  }

  /**
   * `findRoots`: positions of the rows the root query, as changed by the hook,
   * admits, ordered by creation time (comment.repository.ts:46-59).
   */
  function FindRoots(rows: seq<Comment>, h: AddQuery): (r: seq<nat>)
    ensures InTable(rows, r) && OrderedByCreated(rows, r)
    ensures forall k :: k in r <==> 0 <= k < |rows| && Admits(rows, Apply(h, RootQuery()), k)
  {
    var m := Matching(rows, Apply(h, RootQuery()), 0);
    var r := SortByCreated(rows, m);
    SameMembers(r, m);
    r
  }

  /** The query of the descendants builder before the hook: the materialized-path range of the node. */
  function DescendantsQuery(rows: seq<Comment>, i: nat): Query
    requires i < |rows|
  {
    Query([InTreeOf(rows[i].id)])
  }

  /** `findDescendantsTree` (comment.repository.ts:82-111). */
  function FindDescendantsTree(rows: seq<Comment>, i: nat, h: AddQuery): Tree<Comment>
    requires i < |rows|
  {
    Materialize(rows, i, Apply(h, DescendantsQuery(rows, i)))
  }

  /**
   * `findTrees`: the roots, in root order, each with its descendant tree
   * attached (comment.repository.ts:35-40). The roots are processed one after
   * the other; the source's concurrent lookups do not change the result.
   */
  function FindTrees(rows: seq<Comment>, h: AddQuery): (r: seq<Tree<Comment>>)
    ensures |r| == |FindRoots(rows, h)|
    ensures forall n :: 0 <= n < |r| ==> r[n] == FindDescendantsTree(rows, FindRoots(rows, h)[n], h)
    ensures forall n :: 0 <= n < |r| ==> r[n].item == rows[FindRoots(rows, h)[n]]
  {
    var roots := FindRoots(rows, h);
    seq(|roots|, n requires 0 <= n < |roots| => FindDescendantsTree(rows, roots[n], h))
  }

  /** Two queries that agree on the children of `rows[i]` select the same children. */
  lemma {:induction false} ChildrenOfAgree(rows: seq<Comment>, i: nat, q1: Query, q2: Query, from: nat)
    requires i < |rows| && from <= |rows|
    requires forall k :: from <= k < |rows| && rows[k].parent == Some(rows[i].id) ==>
      (Admits(rows, q1, k) <==> Admits(rows, q2, k))
    ensures ChildrenOf(rows, i, q1, from) == ChildrenOf(rows, i, q2, from)
    decreases |rows| - from
  {
    if from < |rows| {
      ChildrenOfAgree(rows, i, q1, q2, from + 1);
    }
  }

  /** Two queries that agree on the children of `rows[i]` attach the same children, in the same order. */
  lemma KidsAgree(rows: seq<Comment>, i: nat, q1: Query, q2: Query)
    requires i < |rows|
    requires forall k :: i + 1 <= k < |rows| && rows[k].parent == Some(rows[i].id) ==>
      (Admits(rows, q1, k) <==> Admits(rows, q2, k))
    ensures Kids(rows, i, q1) == Kids(rows, i, q2)
  {
    ChildrenOfAgree(rows, i, q1, q2, i + 1);
  }

  /** Trees with the same root and pairwise equal children are equal. */
  lemma SameTree(t1: Tree<Comment>, t2: Tree<Comment>)
    requires t1.item == t2.item && |t1.children| == |t2.children|
    requires forall n :: 0 <= n < |t1.children| ==> t1.children[n] == t2.children[n]
    ensures t1 == t2
  {
    assert t1.children == t2.children;
  }

  /**
   * The materialized-path condition of the descendants builder changes
   * nothing: every row reached by parent links from inside the tree of `a`
   * lies in that tree anyway.
   */
  lemma {:induction false} InTreeClauseRedundant(rows: seq<Comment>, i: nat, a: Id, cs: seq<Cond>)
    requires i < |rows| && (rows[i].id == a || Below(rows, a, i))
    ensures Materialize(rows, i, Query([InTreeOf(a)] + cs)) == Materialize(rows, i, Query(cs))
    decreases |rows| - i
  {
    var q1, q2 := Query([InTreeOf(a)] + cs), Query(cs);
    forall k | i + 1 <= k < |rows| && rows[k].parent == Some(rows[i].id)
      ensures Admits(rows, q1, k) <==> Admits(rows, q2, k)
    {
      assert Below(rows, a, k);
      assert forall c :: c in q1.conds <==> c == InTreeOf(a) || c in cs;
    }
    KidsAgree(rows, i, q1, q2);
    var kids := Kids(rows, i, q1);
    var t1, t2 := Materialize(rows, i, q1), Materialize(rows, i, q2);
    forall n | 0 <= n < |kids|
      ensures t1.children[n] == t2.children[n]
    {
      var k := kids[n];
      assert i < k < |rows| && rows[k].parent == Some(rows[i].id);
      assert Below(rows, a, k);
      InTreeClauseRedundant(rows, k, a, cs);
    }
    SameTree(t1, t2);
  }

  /** In a valid table a comment's children belong to its task. */
  lemma ChildSharesTask(rows: seq<Comment>, i: nat, k: nat)
    requires ValidRows(rows) && i < |rows| && k < |rows| && rows[k].parent == Some(rows[i].id)
    ensures rows[k].task == rows[i].task && i < k
  {
    var m :| 0 <= m < k && rows[m].id == rows[k].parent.value && rows[m].task == rows[k].task;
    assert m == i;
  }

  /**
   * A task condition never prunes the subtree of a comment of that task:
   * every descendant belongs to the same task.
   */
  lemma {:induction false} TaskClauseKeepsSubtree(rows: seq<Comment>, i: nat, t: Id)
    requires ValidRows(rows) && i < |rows| && rows[i].task == t
    ensures Materialize(rows, i, Query([TaskIs(t)])) == Subtree(rows, i)
    decreases |rows| - i
  {
    var q1, q2 := Query([TaskIs(t)]), Query([]);
    forall k | i + 1 <= k < |rows| && rows[k].parent == Some(rows[i].id)
      ensures Admits(rows, q1, k) <==> Admits(rows, q2, k)
    {
      ChildSharesTask(rows, i, k);
    }
    KidsAgree(rows, i, q1, q2);
    var kids := Kids(rows, i, q1);
    var t1, t2 := Materialize(rows, i, q1), Subtree(rows, i);
    forall n | 0 <= n < |kids|
      ensures t1.children[n] == t2.children[n]
    {
      ChildSharesTask(rows, i, kids[n]);
      TaskClauseKeepsSubtree(rows, kids[n], t);
    }
    SameTree(t1, t2);
  }

  /**
   * Whatever task hook the services pass — none, `where` or `andWhere` on the
   * comment's own task — the descendant tree of a comment is its whole subtree.
   */
  lemma DescendantsTreeIsSubtree(rows: seq<Comment>, i: nat, h: AddQuery)
    requires ValidRows(rows) && i < |rows|
    requires h == Unchanged || h == WhereCond(TaskIs(rows[i].task)) || h == AndWhereCond(TaskIs(rows[i].task))
    ensures FindDescendantsTree(rows, i, h) == Subtree(rows, i)
  {
    var a := rows[i].id;
    match h
    case Unchanged =>
      InTreeClauseRedundant(rows, i, a, []);
      assert [InTreeOf(a)] + [] == [InTreeOf(a)];
    case WhereCond(c) =>
      TaskClauseKeepsSubtree(rows, i, rows[i].task);
    case AndWhereCond(c) =>
      InTreeClauseRedundant(rows, i, a, [c]);
      TaskClauseKeepsSubtree(rows, i, rows[i].task);
  }
}
