/**
 * The comment service (comment.service.ts): parent lookup, creation with the
 * parent/task consistency rule, deletion with the cascade the parent foreign
 * key declares, the task filter of the tree view and the flattened listing
 * that feeds pagination.
 */
module CommentService {
  import opened Wrappers
  import opened TreeFlatten
  import opened CommentRepository

  /** The exceptions the service raises. */
  datatype CommentError =
    | ParentNotFound(id: Id)   // EntityNotFoundError from `getParent`
    | ParentInOtherTask        // ForbiddenException from `create`
    | TaskNotFound(id: Id)     // EntityNotFoundError from `findOneOrFail` in `getTask`

  /** `findOne({ where: { id } })`: the position of the row with that id, if any. */
  function FindIndex(rows: seq<Comment>, id: Id): (r: Option<nat>)
    ensures r.Some? ==> r.value < |rows| && rows[r.value].id == id
    ensures r.None? ==> forall j :: 0 <= j < |rows| ==> rows[j].id != id
  {
    if rows == [] then None
    else if rows[|rows| - 1].id == id then Some(|rows| - 1)
    else FindIndex(rows[..|rows| - 1], id)
  }

  /**
   * `getParent(current, id)`: `undefined` when `current === id` or `id` is
   * undefined, `null` when `id` is null, otherwise the position of the comment
   * with that id, or `ParentNotFound` when there is none
   * (comment.service.ts:107-121).
   */
  function GetParent(rows: seq<Comment>, current: Nullable<Id>, id: Nullable<Id>): (r: Result<Nullable<nat>, CommentError>)
    ensures current == id ==> r == Ok(Undefined)
    ensures current != id && id.Null? ==> r == Ok(Null)
    ensures id.Undefined? ==> r == Ok(Undefined)
    ensures r.Err? <==> current != id && id.Defined? && forall j :: 0 <= j < |rows| ==> rows[j].id != id.value
    ensures r.Err? ==> r.error == ParentNotFound(id.value)
    ensures r.Ok? ==> (r.value.Defined? <==> current != id && id.Defined?)
    ensures r.Ok? && r.value.Defined? ==>
      current != id && id.Defined? && r.value.value < |rows| && rows[r.value.value].id == id.value
  {
    if current == id then Ok(Undefined)
    else match id
      case Undefined => Ok(Undefined)
      case Null => Ok(Null)
      case Defined(x) =>
        match FindIndex(rows, x)
        case None => Err(ParentNotFound(x))
        case Some(k) => Ok(Defined(k))
  }

  /** The fields of a validated `CreateCommentDto` (comment.dto.ts:68-104). */
  datatype CreateComment = CreateComment(body: string, task: Id, parent: Nullable<Id>, creator: Nullable<Id>)

  /**
   * `create`: the comment stored by a request, or the exception raised
   * before anything is stored (comment.service.ts:71-83). `tasks` are the
   * ids `findOneOrFail` on the task table can see, `users` the ids
   * `findById` finds; `newId` and `now` are the generated key and creation
   * time.
   */
  function CreateOutcome(rows: seq<Comment>, data: CreateComment, tasks: set<Id>, users: set<Id>, newId: Id, now: int)
    : (r: Result<Comment, CommentError>)
    requires UniqueIds(rows)
    ensures r == Err(ParentInOtherTask) <==>
      data.parent.Defined? && exists k :: 0 <= k < |rows| && rows[k].id == data.parent.value && rows[k].task != data.task
    ensures r.Ok? <==>
      (data.parent.Defined? ==> exists k :: 0 <= k < |rows| && rows[k].id == data.parent.value && rows[k].task == data.task) &&
      data.task in tasks
    ensures (r.Err? && r.error.ParentNotFound?) <==>
      data.parent.Defined? && forall j :: 0 <= j < |rows| ==> rows[j].id != data.parent.value
    ensures r.Err? && r.error.ParentNotFound? ==> r.error.id == data.parent.value
    ensures r == Err(TaskNotFound(data.task)) <==>
      (data.parent.Defined? ==> exists k :: 0 <= k < |rows| && rows[k].id == data.parent.value && rows[k].task == data.task) &&
      data.task !in tasks
    ensures r.Err? && r.error.TaskNotFound? ==> r.error.id == data.task
    ensures r.Ok? ==> r.value.id == newId && r.value.body == data.body && r.value.task == data.task && r.value.createdAt == now
    ensures r.Ok? ==> (r.value.parent.Some? <==> data.parent.Defined?)
    ensures r.Ok? && r.value.parent.Some? ==>
      r.value.parent.value == data.parent.value &&
      exists k :: 0 <= k < |rows| && rows[k].id == data.parent.value && rows[k].task == data.task
    ensures r.Ok? ==> (r.value.creator.Some? <==> data.creator.Defined? && data.creator.value in users)
    ensures r.Ok? && r.value.creator.Some? ==> r.value.creator.value == data.creator.value
  {
    match GetParent(rows, Undefined, data.parent)
    case Err(e) => Err(e)
    case Ok(p) =>
      if p.Defined? && rows[p.value].task != data.task then Err(ParentInOtherTask)
      else
        var creator := if data.creator.Defined? && data.creator.value in users then Some(data.creator.value) else None;
        if data.task !in tasks then Err(TaskNotFound(data.task))
        else Ok(Comment(newId, data.body, now, data.task, if p.Defined? then Some(rows[p.value].id) else None, creator))
  }

  /** A stored comment never gets a parent from another task, and the table stays valid. */
  lemma CreateKeepsValid(rows: seq<Comment>, data: CreateComment, tasks: set<Id>, users: set<Id>, newId: Id, now: int)
    requires ValidRows(rows) && forall j :: 0 <= j < |rows| ==> rows[j].id != newId
    requires CreateOutcome(rows, data, tasks, users, newId, now).Ok?
    ensures ValidRows(rows + [CreateOutcome(rows, data, tasks, users, newId, now).value])
  {
    var rows' := rows + [CreateOutcome(rows, data, tasks, users, newId, now).value];
    forall j | 0 <= j < |rows'| && rows'[j].parent.Some?
      ensures exists i :: 0 <= i < j && rows'[i].id == rows'[j].parent.value && rows'[i].task == rows'[j].task
    {
      if j < |rows| {
        var i :| 0 <= i < j && rows[i].id == rows[j].parent.value && rows[i].task == rows[j].task;
        assert rows'[i] == rows[i];
      } else {
        var i :| 0 <= i < |rows| && rows[i].id == data.parent.value && rows[i].task == data.task;
        assert rows'[i] == rows[i];
      }
    }
  }

  /**
   * A comment is removed when its id is listed or, through the parent foreign
   * key's `ON DELETE CASCADE` (comment.entity.ts:71), when its parent is removed.
   */
  predicate Doomed(rows: seq<Comment>, ids: seq<Id>, j: nat)
    requires j < |rows|
    decreases j
  {
    rows[j].id in ids ||
    (rows[j].parent.Some? &&
     exists k :: 0 <= k < j && rows[k].id == rows[j].parent.value && Doomed(rows, ids, k))
  }

  /** In a valid table, a comment is removed exactly when it is listed or lies below a listed comment. */
  lemma {:induction false} DoomedIsListedOrBelow(rows: seq<Comment>, ids: seq<Id>, j: nat)
    requires ValidRows(rows) && j < |rows|
    ensures Doomed(rows, ids, j) <==> rows[j].id in ids || exists a :: a in ids && Below(rows, a, j)
    decreases j
  {
    if Doomed(rows, ids, j) && rows[j].id !in ids {
      var k :| 0 <= k < j && rows[k].id == rows[j].parent.value && Doomed(rows, ids, k);
      DoomedIsListedOrBelow(rows, ids, k);
      if rows[k].id in ids {
        assert Below(rows, rows[k].id, j);
      } else {
        var a :| a in ids && Below(rows, a, k);
        assert Below(rows, a, j);
      }
    }
    if rows[j].id !in ids && exists a :: a in ids && Below(rows, a, j) {
      var a :| a in ids && Below(rows, a, j);
      if rows[j].parent.value == a {
        var k :| 0 <= k < j && rows[k].id == rows[j].parent.value && rows[k].task == rows[j].task;
        assert Doomed(rows, ids, k);
      } else {
        var k :| 0 <= k < j && rows[k].id == rows[j].parent.value && Below(rows, a, k);
        DoomedIsListedOrBelow(rows, ids, k);
      }
    }
  }

  /** The rows among the first `n` that survive the deletion of `ids`, in table order. */
  function Kept(rows: seq<Comment>, ids: seq<Id>, n: nat): (r: seq<Comment>)
    requires n <= |rows|
  {
    if n == 0 then []
    else Kept(rows, ids, n - 1) + (if Doomed(rows, ids, n - 1) then [] else [rows[n - 1]])
  }

  /** The rows among the first `n` whose id is listed: what `find({ where: { id: In(ids) } })` returns. */
  function Listed(rows: seq<Comment>, ids: seq<Id>, n: nat): (r: seq<Comment>)
    requires n <= |rows|
    ensures forall x :: x in r <==> x in rows[..n] && x.id in ids
  {
    if n == 0 then []
    else
      assert rows[..n] == rows[..n - 1] + [rows[n - 1]];
      Listed(rows, ids, n - 1) + (if rows[n - 1].id in ids then [rows[n - 1]] else [])
  }

  /** Every surviving row of the first `n` is kept. */
  lemma {:induction false} KeptHas(rows: seq<Comment>, ids: seq<Id>, n: nat, k: nat)
    requires k < n <= |rows| && !Doomed(rows, ids, k)
    ensures rows[k] in Kept(rows, ids, n)
  {
    if k < n - 1 {
      KeptHas(rows, ids, n - 1, k);
    }
  }

  /** Every kept row is a surviving row of the first `n`. */
  lemma {:induction false} KeptFrom(rows: seq<Comment>, ids: seq<Id>, n: nat, x: Comment)
    requires n <= |rows| && x in Kept(rows, ids, n)
    ensures exists k :: 0 <= k < n && rows[k] == x && !Doomed(rows, ids, k)
  {
    if x !in Kept(rows, ids, n - 1) {
      assert x == rows[n - 1];
    } else {
      KeptFrom(rows, ids, n - 1, x);
    }
  }

  /** The `n`-th row is kept after the first `n - 1` exactly when it survives. */
  lemma KeptStep(rows: seq<Comment>, ids: seq<Id>, n: nat)
    requires 0 < n <= |rows|
    ensures !Doomed(rows, ids, n - 1) ==> Kept(rows, ids, n) == Kept(rows, ids, n - 1) + [rows[n - 1]]
    ensures Doomed(rows, ids, n - 1) ==> Kept(rows, ids, n) == Kept(rows, ids, n - 1)
  {
  }

  /** The first `n` rows keep what the first `n - 1` kept, and at most the `n`-th row more. */
  lemma KeptGrows(rows: seq<Comment>, ids: seq<Id>, n: nat)
    requires 0 < n <= |rows|
    ensures Kept(rows, ids, n) == Kept(rows, ids, n - 1) || Kept(rows, ids, n) == Kept(rows, ids, n - 1) + [rows[n - 1]]
  {
  }

  /** Deleting keeps the table valid: ids stay unique and no surviving comment loses its parent. */
  lemma KeptIsValid(rows: seq<Comment>, ids: seq<Id>, n: nat)
    requires ValidRows(rows) && n <= |rows|
    ensures ValidRows(Kept(rows, ids, n))
  {
    KeptUnique(rows, ids, n);
    KeptParents(rows, ids, n);
  }

  lemma {:induction false} KeptUnique(rows: seq<Comment>, ids: seq<Id>, n: nat)
    requires UniqueIds(rows) && n <= |rows|
    ensures UniqueIds(Kept(rows, ids, n))
  {
    if n > 0 {
      KeptUnique(rows, ids, n - 1);
      KeptUniqueStep(rows, ids, n - 1);
    }
  }

  lemma KeptUniqueStep(rows: seq<Comment>, ids: seq<Id>, m: nat)
    requires UniqueIds(rows) && m < |rows| && UniqueIds(Kept(rows, ids, m))
    ensures UniqueIds(Kept(rows, ids, m + 1))
  {
    KeptGrows(rows, ids, m + 1);
    KeepOneMoreUnique(rows, ids, m);
  }

  lemma {:induction false} KeptParents(rows: seq<Comment>, ids: seq<Id>, n: nat)
    requires ParentsEarlier(rows) && n <= |rows|
    ensures ParentsEarlier(Kept(rows, ids, n))
  {
    if n > 0 {
      KeptParents(rows, ids, n - 1);
      KeptParentsStep(rows, ids, n - 1);
    }
  }

  lemma KeptParentsStep(rows: seq<Comment>, ids: seq<Id>, m: nat)
    requires ParentsEarlier(rows) && m < |rows| && ParentsEarlier(Kept(rows, ids, m))
    ensures ParentsEarlier(Kept(rows, ids, m + 1))
  {
    KeptStep(rows, ids, m + 1);
    if !Doomed(rows, ids, m) {
      KeepOneMoreParents(rows, ids, m);
    }
  }

  lemma KeepOneMoreUnique(rows: seq<Comment>, ids: seq<Id>, m: nat)
    requires UniqueIds(rows) && m < |rows| && UniqueIds(Kept(rows, ids, m))
    ensures UniqueIds(Kept(rows, ids, m) + [rows[m]])
  {
    var prev := Kept(rows, ids, m);
    var r := prev + [rows[m]];
    forall i | 0 <= i < |prev| ensures prev[i].id != rows[m].id {
      KeptFrom(rows, ids, m, prev[i]);
    }
    forall i, j | 0 <= i < j < |r| ensures r[i].id != r[j].id {
      assert r[i] == prev[i];
      if j < |prev| {
        assert r[j] == prev[j];
      }
    }
  }

  lemma KeepOneMoreParents(rows: seq<Comment>, ids: seq<Id>, m: nat)
    requires ParentsEarlier(rows) && m < |rows| && !Doomed(rows, ids, m)
    requires ParentsEarlier(Kept(rows, ids, m))
    ensures ParentsEarlier(Kept(rows, ids, m) + [rows[m]])
  {
    var prev := Kept(rows, ids, m);
    var x := rows[m];
    var r := prev + [x];
    forall j | 0 <= j < |r| && r[j].parent.Some?
      ensures exists i :: 0 <= i < j && r[i].id == r[j].parent.value && r[i].task == r[j].task
    {
      if j < |prev| {
        var i :| 0 <= i < j && prev[i].id == prev[j].parent.value && prev[i].task == prev[j].task;
        assert r[i] == prev[i] && r[j] == prev[j];
      } else {
        var k :| 0 <= k < m && rows[k].id == x.parent.value && rows[k].task == x.task;
        assert !Doomed(rows, ids, k);
        KeptHas(rows, ids, m, k);
        var i :| 0 <= i < |prev| && prev[i] == rows[k];
        assert r[i] == rows[k] && r[j] == x;
      }
    }
  }

  /** Ids that match no row change nothing. */
  lemma {:induction false} UnknownIdsKeepAll(rows: seq<Comment>, ids: seq<Id>, n: nat)
    requires n <= |rows| && forall j :: 0 <= j < |rows| ==> rows[j].id !in ids
    ensures Kept(rows, ids, n) == rows[..n]
    ensures Listed(rows, ids, n) == []
  {
    if n > 0 {
      UnknownIdsKeepAll(rows, ids, n - 1);
      NothingDoomed(rows, ids, n - 1);
      assert rows[..n] == rows[..n - 1] + [rows[n - 1]];
    }
  }

  lemma {:induction false} NothingDoomed(rows: seq<Comment>, ids: seq<Id>, j: nat)
    requires j < |rows| && forall i :: 0 <= i < |rows| ==> rows[i].id !in ids
    ensures !Doomed(rows, ids, j)
    decreases j
  {
    forall k | 0 <= k < j {
      NothingDoomed(rows, ids, k);
    }
  }

  /** The `addQuery` of `findTrees` as written: `qb.where('task.id = :id')` (comment.service.ts:34). */
  function TreeHookAsWritten(task: Option<Id>): AddQuery
  {
    if task.None? then Unchanged else WhereCond(TaskIs(task.value))
  }

  /** The `addQuery` of `findTrees` as intended: the task condition conjoined, as `paginate` does (comment.service.ts:45-49). */
  function TaskHook(task: Option<Id>): AddQuery
  {
    if task.None? then Unchanged else AndWhereCond(TaskIs(task.value))
  }

  /** `findTrees` as written: with a task, the `where` replaces the root condition. */
  function FindTreesAsWritten(rows: seq<Comment>, task: Option<Id>): seq<Tree<Comment>>
  {
    FindTrees(rows, TreeHookAsWritten(task))
  }

  /**
   * `findTrees` with the task condition conjoined: the root comments, of the
   * given task if there is one, each with its whole subtree
   * (comment.service.ts:31-37).
   */
  function FindCommentTrees(rows: seq<Comment>, task: Option<Id>): (r: seq<Tree<Comment>>)
    ensures forall n :: 0 <= n < |r| ==> r[n].item.parent.None?
    ensures task.Some? ==> forall n :: 0 <= n < |r| ==> r[n].item.task == task.value
  {
    var r := FindTrees(rows, TaskHook(task));
    TaskRootsAreRoots(rows, task);
    r
  }

  /** Every position the task hook lets through the root query is a root of that task. */
  lemma TaskRootsAreRoots(rows: seq<Comment>, task: Option<Id>)
    ensures forall k :: k in FindRoots(rows, TaskHook(task)) ==>
      0 <= k < |rows| && rows[k].parent.None? && (task.Some? ==> rows[k].task == task.value)
  {
    var h := TaskHook(task);
    forall k | k in FindRoots(rows, h)
      ensures 0 <= k < |rows| && rows[k].parent.None? && (task.Some? ==> rows[k].task == task.value)
    {
      assert Admits(rows, Apply(h, RootQuery()), k);
      if task.Some? {
        AndWhereConjoins(rows, RootQuery(), TaskIs(task.value), k);
      }
      assert ParentIsNull in RootQuery().conds;
    }
  }

  /** Every root comment of the task (of any task, without one) heads a tree, and each tree is its whole subtree. */
  lemma FindCommentTreesComplete(rows: seq<Comment>, task: Option<Id>, k: nat)
    requires ValidRows(rows) && k < |rows| && rows[k].parent.None?
    requires task.Some? ==> rows[k].task == task.value
    ensures exists n :: 0 <= n < |FindCommentTrees(rows, task)| && FindCommentTrees(rows, task)[n] == Subtree(rows, k)
  {
    var h := TaskHook(task);
    var roots := FindRoots(rows, h);
    AndWhereConjoins(rows, RootQuery(), TaskIs(rows[k].task), k);
    assert Admits(rows, Apply(h, RootQuery()), k);
    var n :| 0 <= n < |roots| && roots[n] == k;
    DescendantsTreeIsSubtree(rows, k, h);
    assert FindCommentTrees(rows, task)[n] == FindDescendantsTree(rows, k, h);
  }

  /**
   * As written, a reply of the task is returned as a tree of its own: the
   * root condition is lost, so every comment of the task heads a tree.
   */
  lemma AsWrittenListsReplies(rows: seq<Comment>, t: Id, k: nat)
    requires ValidRows(rows) && k < |rows| && rows[k].task == t && rows[k].parent.Some?
    ensures exists n :: 0 <= n < |FindTreesAsWritten(rows, Some(t))| &&
                        FindTreesAsWritten(rows, Some(t))[n] == Subtree(rows, k) &&
                        FindTreesAsWritten(rows, Some(t))[n].item.parent.Some?
  {
    var h := TreeHookAsWritten(Some(t));
    var roots := FindRoots(rows, h);
    WhereReplaces(rows, RootQuery(), TaskIs(t), k);
    var n :| 0 <= n < |roots| && roots[n] == k;
    DescendantsTreeIsSubtree(rows, k, h);
    assert FindTreesAsWritten(rows, Some(t))[n] == FindDescendantsTree(rows, k, h);
  }

  /** The comment store: the comment table in insertion order. */
  class CommentStore {
    var rows: seq<Comment>

    ghost predicate Valid()
      reads this
    {
      ValidRows(rows)
    }

    constructor()
      ensures rows == [] && Valid()
    {
      rows := [];
    }

    /**
     * `create`: look the parent up, refuse a parent of another task, look the
     * creator and the task up, then store the comment (comment.service.ts:71-83).
     */
    method Create(data: CreateComment, tasks: set<Id>, users: set<Id>, newId: Id, now: int)
      returns (r: Result<Comment, CommentError>)
      requires Valid() && forall j :: 0 <= j < |rows| ==> rows[j].id != newId
      modifies this
      ensures Valid()
      ensures r == CreateOutcome(old(rows), data, tasks, users, newId, now)
      ensures rows == if r.Ok? then old(rows) + [r.value] else old(rows)
    {
      var parent := GetParent(rows, Undefined, data.parent);
      if parent.Err? {
        return Err(parent.error);
      }
      var p := parent.value;
      if p.Defined? && rows[p.value].task != data.task {
        return Err(ParentInOtherTask);
      }
      var creator: Option<Id> := None;
      if data.creator.Defined? && data.creator.value in users {
        creator := Some(data.creator.value);
      }
      if data.task !in tasks {
        return Err(TaskNotFound(data.task));
      }
      var c := Comment(newId, data.body, now, data.task, if p.Defined? then Some(rows[p.value].id) else None, creator);
      CreateKeepsValid(rows, data, tasks, users, newId, now);
      rows := rows + [c];
      r := Ok(c);
    }

    /**
     * `delete`: find the listed comments and remove them; the database
     * removes their descendants with them (comment.service.ts:89-92).
     * Returns the comments found.
     */
    method Delete(ids: seq<Id>) returns (removed: seq<Comment>)
      requires Valid()
      modifies this
      ensures Valid()
      ensures removed == Listed(old(rows), ids, |old(rows)|)
      ensures rows == Kept(old(rows), ids, |old(rows)|)
    {
      var comments := Listed(rows, ids, |rows|);
      KeptIsValid(rows, ids, |rows|);
      rows := Kept(rows, ids, |rows|);
      removed := comments;
    }

    /**
     * `paginate` before the window is cut: the roots (of the task, if one is
     * given), each root's descendant tree under the same condition, flattened
     * in root order (comment.service.ts:43-63).
     */
    method Listing(task: Option<Id>) returns (comments: seq<Flat<Comment>>)
      requires Valid()
      ensures comments == Flatten(FindTrees(rows, TaskHook(task)), 0)
    {
      var addQuery := TaskHook(task);
      var data := FindRoots(rows, addQuery);
      var trees: seq<Tree<Comment>> := [];
      var i := 0;
      while i < |data|
        invariant 0 <= i <= |data|
        invariant trees == FindTrees(rows, addQuery)[..i]
      {
        var c := data[i];
        TakeOneMore(FindTrees(rows, addQuery), i);
        trees := trees + [FindDescendantsTree(rows, c, addQuery)];
        i := i + 1;
      }
      assert trees == FindTrees(rows, addQuery);
      comments := ToFlatTrees(trees, 0);
    }
  }

  /** Taking one more element of a sequence appends that element. */
  lemma TakeOneMore<T>(s: seq<T>, i: nat)
    requires i < |s|
    ensures s[..i + 1] == s[..i] + [s[i]]
  {
  }

  /**
   * The listing holds every comment of each listed tree once: its length is
   * the sum of the subtree sizes, and it is the roots' subtrees flattened one
   * after the other.
   */
  lemma ListingShape(rows: seq<Comment>, task: Option<Id>)
    requires ValidRows(rows)
    ensures |Flatten(FindTrees(rows, TaskHook(task)), 0)| == Size(FindTrees(rows, TaskHook(task)))
    ensures forall n :: 0 <= n < |FindTrees(rows, TaskHook(task))| ==>
      FindTrees(rows, TaskHook(task))[n] == Subtree(rows, FindRoots(rows, TaskHook(task))[n])
    ensures AtDepth(Flatten(FindTrees(rows, TaskHook(task)), 0), 0) == Items(FindTrees(rows, TaskHook(task)))
  {
    var h := TaskHook(task);
    var trees := FindTrees(rows, h);
    var roots := FindRoots(rows, h);
    forall n | 0 <= n < |trees| ensures trees[n] == Subtree(rows, roots[n]) {
      var k := roots[n];
      assert Admits(rows, Apply(h, RootQuery()), k);
      if task.Some? {
        AndWhereConjoins(rows, RootQuery(), TaskIs(task.value), k);
      }
      DescendantsTreeIsSubtree(rows, k, h);
    }
    FlattenTopLevel(trees, 0);
  }
}
