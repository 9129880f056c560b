/**
 * The task service (task.service.ts): detail lookup, creation with its
 * defaults, deletion to and from the trash, restoring from the trash, and
 * the list a query selects. The task table is a sequence of rows in
 * insertion order.
 */
module TaskService {
  import opened Wrappers
  import opened TreeFlatten
  import opened TaskEntity
  import opened TaskQuery
  import opened TaskSubscriber
  import CommentRepository
  import CommentService

  /** The exceptions the service raises. */
  datatype TaskError =
    | NotFound(id: Id)      // EntityNotFoundError from `detail`
    | CreatorMissing        // TypeError: `createUser.username` on a null user
    | EmptyCriteria         // TypeORM refuses `restore([])`

  /** Primary keys are unique. */
  ghost predicate UniqueTaskIds(rows: seq<Task>)
  {
    forall i, j :: 0 <= i < j < |rows| ==> rows[i].id != rows[j].id
  }

  /** The rows a query returns, in table order (ordering the rows is not modelled). */
  function Select(rows: seq<Task>, q: ListQuery): (r: seq<Task>)
    ensures forall t :: t in r <==> t in rows && Admits(q, t)
    ensures |r| <= |rows|
  {
    if rows == [] then []
    else
      assert rows == [rows[0]] + rows[1..];
      (if Admits(q, rows[0]) then [rows[0]] else []) + Select(rows[1..], q)
  }

  /** The id conditions `detail`, `find` and the trash split put on the builder. */
  lemma IdQueries(ids: seq<Id>, t: Task)
    ensures Admits(Where(BaseQuery, IdIn(ids)), t) <==> t.id in ids && !t.Trashed()
    ensures Admits(WithDeleted(Where(BaseQuery, IdIn(ids))), t) <==> t.id in ids
    ensures Admits(AndWhere(WithDeleted(Where(BaseQuery, IdIn(ids))), DeletedNotNull), t) <==> t.id in ids && t.Trashed()
  {
    WhereReplaces(BaseQuery, IdIn(ids), t);
    WhereReplaces(WithDeleted(BaseQuery), IdIn(ids), t);
    assert WithDeleted(Where(BaseQuery, IdIn(ids))) == Where(WithDeleted(BaseQuery), IdIn(ids));
    AndWhereConjoins(WithDeleted(Where(BaseQuery, IdIn(ids))), DeletedNotNull, t);
  }

  /** A query that admits none of the rows selects nothing. */
  lemma {:induction false} SelectNone(rows: seq<Task>, q: ListQuery)
    requires forall t :: t in rows ==> !Admits(q, t)
    ensures Select(rows, q) == []
  {
    if rows != [] {
      assert rows[0] in rows;
      SelectNone(rows[1..], q);
    }
  }

  /** `repository.count()`: the rows not in the trash. */
  function CountActive(rows: seq<Task>): (n: nat)
    ensures n <= |rows|
    ensures n == |Select(rows, BaseQuery)|
  {
    if rows == [] then 0 else (if rows[0].Trashed() then 0 else 1) + CountActive(rows[1..])
  }

  /**
   * `detail(id)`: the row with that id among the rows not in the trash, or
   * `NotFound` (task.service.ts:62-69).
   */
  function Detail(rows: seq<Task>, id: Id): (r: Result<Task, TaskError>)
    ensures r.Ok? ==> r.value in rows && r.value.id == id && !r.value.Trashed()
    ensures r.Err? <==> forall t :: t in rows && !t.Trashed() ==> t.id != id
    ensures r.Err? ==> r.error == NotFound(id)
  {
    var found := Select(rows, Where(BaseQuery, IdIn([id])));
    if found == [] then
      assert forall t :: t in rows && !t.Trashed() ==> t.id != id by {
        forall t | t in rows && !t.Trashed() ensures t.id != id { IdQueries([id], t); }
      }
      Err(NotFound(id))
    else
      assert found[0] in found;
      IdQueries([id], found[0]);
      Ok(found[0])
  }

  /**
   * The fields of a validated `CreateTaskDto` (task.dto.ts:95-199). The DTO
   * also accepts a single category id (`each` on a value that is not an
   * array); `create` stores no categories for it because it is not an array
   * (task.service.ts:85-89), which is the row `categories == None` gives, so
   * that input is represented by `None`. `eminderTime` is not a field here.
   */
  datatype CreateTask = CreateTask(
    title: string,
    body: string,
    publishedAt: Option<string>,
    executionAt: Option<string>,
    creator: Id,
    executor: Option<Id>,
    parent: Option<Id>,
    categories: Option<seq<Id>>)

  /**
   * The row `create` saves, or the error raised before the save
   * (task.service.ts:75-95 with the insert hook of task.subscriber.ts).
   * `users` maps the user ids `findById` finds to their user names,
   * `knownCategories` are the category ids `findBy` finds.
   */
  function NewTask(rows: seq<Task>, data: CreateTask, users: map<Id, string>, knownCategories: set<Id>, newId: Id, now: int)
    : (r: Result<Task, TaskError>)
    ensures r.Err? <==> data.parent.Some? && Detail(rows, data.parent.value).Err?
    ensures r.Err? ==> r.error == NotFound(data.parent.value)
    ensures r.Ok? ==> r.value.id == newId && !r.value.Trashed() && r.value.createdAt == now
    ensures r.Ok? ==> r.value.title == data.title && r.value.body == data.body
    ensures r.Ok? ==> r.value.publishedAt == data.publishedAt && r.value.executionAt == data.executionAt
    ensures r.Ok? ==> r.value.serialNumber == SerialFor(CountActive(rows))
    ensures r.Ok? ==> (r.value.isRoot <==> data.parent.None?)
    ensures r.Ok? ==> (r.value.creator.Some? <==> data.creator in users)
    ensures r.Ok? && r.value.creator.Some? ==> r.value.creator.value == data.creator
    ensures r.Ok? && data.executor.None? ==> r.value.executor == r.value.creator
    ensures r.Ok? && data.executor.Some? ==>
      r.value.executor == (if data.executor.value in users then data.executor else None)
    ensures r.Ok? ==> forall c :: c in r.value.categories <==>
      data.categories.Some? && c in data.categories.value && c in knownCategories
  {
    var createUser := if data.creator in users then Some(data.creator) else None;
    var executorUser := if data.executor.Some? then
                          (if data.executor.value in users then data.executor else None)
                        else createUser;
    var categories := if data.categories.Some? then
                        set c | c in data.categories.value && c in knownCategories
                      else {};
    var parent := if data.parent.Some? then Detail(rows, data.parent.value) else Ok(Task("", "", "", "", None, None, None, false, {}, None, 0, None));
    if parent.Err? then Err(parent.error)
    else
      var parentId := if data.parent.Some? then Some(parent.value.id) else None;
      Ok(Task(newId, AssignedSerial(None, CountActive(rows)), data.title, data.body, executorUser, data.executionAt,
              createUser, RootFlag(parentId, false), categories, data.publishedAt, now, None))
  }

  /** The row `create` saves, assembled from the looked-up parent. */
  lemma NewTaskRow(rows: seq<Task>, data: CreateTask, users: map<Id, string>, knownCategories: set<Id>, newId: Id, now: int,
                   parentId: Option<Id>)
    requires data.parent.None? ==> parentId.None?
    requires data.parent.Some? ==> Detail(rows, data.parent.value).Ok? && parentId == Some(Detail(rows, data.parent.value).value.id)
    ensures NewTask(rows, data, users, knownCategories, newId, now) ==
      Ok(Task(newId, AssignedSerial(None, CountActive(rows)), data.title, data.body,
              if data.executor.Some? then (if data.executor.value in users then data.executor else None)
              else (if data.creator in users then Some(data.creator) else None),
              data.executionAt, if data.creator in users then Some(data.creator) else None,
              RootFlag(parentId, false),
              if data.categories.Some? then set c | c in data.categories.value && c in knownCategories else {},
              data.publishedAt, now, None))
  {
  }

  /** The ids `findOneOrFail` on the task table finds: those of rows not in the trash. */
  function VisibleIds(rows: seq<Task>): (r: set<Id>)
    ensures forall x :: x in r <==> exists t :: t in rows && !t.Trashed() && t.id == x
  {
    set t | t in rows && !t.Trashed() :: t.id
  }

  lemma VisibleNew(rows: seq<Task>, t: Task)
    requires t in rows && !t.Trashed()
    ensures t.id in VisibleIds(rows)
  {
  }

  /** Appending a row with a fresh id keeps ids unique. */
  lemma AppendFresh(rows: seq<Task>, t: Task)
    requires UniqueTaskIds(rows) && forall u :: u in rows ==> u.id != t.id
    ensures UniqueTaskIds(rows + [t])
  {
    var r := rows + [t];
    forall i, j | 0 <= i < j < |r| ensures r[i].id != r[j].id {
      if j == |rows| {
        assert r[i] in rows;
      }
    }
  }

  /** The first comment `create` posts on a new task (task.service.ts:98-101). */
  function FirstCommentBody(username: string): string
  {
    " @" + username + " 创建了任务"
  }

  /** The first comment names no parent and no creator, so it is stored as soon as its task is visible. */
  lemma FirstCommentStored(rows: seq<CommentRepository.Comment>, body: string, task: Id, tasks: set<Id>, users: set<Id>,
                           commentId: Id, now: int)
    requires CommentRepository.UniqueIds(rows) && task in tasks
    ensures CommentService.CreateOutcome(rows, CommentService.CreateComment(body, task, Undefined, Undefined), tasks, users, commentId, now)
      == Ok(CommentRepository.Comment(commentId, body, now, task, None, None))
  {
  }

  /** The rows `find({ where: { id: In(ids) }, withDeleted: true })` returns, in table order. */
  function Found(rows: seq<Task>, ids: seq<Id>): (r: seq<Task>)
    ensures forall t :: t in r <==> t in rows && t.id in ids
  {
    forall t { IdQueries(ids, t); }
    Select(rows, WithDeleted(Where(BaseQuery, IdIn(ids))))
  }

  /** The rows a request lists, before the page window is cut (task.service.ts:52-55). */
  function ListTasks(rows: seq<Task>, o: ListOptions, tree: Tree<Id>): (r: seq<Task>)
    ensures forall t :: t in r <==>
      t in rows && TrashVisible(TrashModeOf(o), t) && PublishVisible(o.isPublished, t) && CategoryVisible(o.category, tree, t)
  {
    var r := Select(rows, BuildListQuery(BaseQuery, o, tree, None));
    forall t | t in rows { ListAdmits(o, tree, None, t); }
    r
  }

  /**
   * The table after `delete(ids, trash)` (task.service.ts:162-176): a listed
   * row is removed for good unless `trash` is set and the row is not yet in
   * the trash, in which case it is moved to the trash at time `now`.
   */
  function AfterDelete(rows: seq<Task>, ids: seq<Id>, trash: bool, now: int): (r: seq<Task>)
    ensures |r| <= |rows|
  {
    if rows == [] then []
    else
      var t := rows[0];
      var head := if t.id !in ids then [t]
                  else if trash && !t.Trashed() then [t.(deletedAt := Some(now))]
                  else [];
      head + AfterDelete(rows[1..], ids, trash, now)
  }

  /** The listed rows already in the trash: removed for good when `trash` is set. */
  function Directs(rows: seq<Task>, ids: seq<Id>): (r: seq<Task>)
    ensures forall t :: t in r <==> t in rows && t.id in ids && t.Trashed()
  {
    forall t { IdQueries(ids, t); }
    Select(rows, AndWhere(WithDeleted(Where(BaseQuery, IdIn(ids))), DeletedNotNull))
  }

  /** The listed rows not in the trash, as `softRemove` returns them: stamped with `now`. */
  function Softs(rows: seq<Task>, ids: seq<Id>, now: int): (r: seq<Task>)
    ensures |r| <= |rows|
    ensures forall n :: 0 <= n < |r| ==> r[n].deletedAt == Some(now)
  {
    if rows == [] then []
    else
      (if rows[0].id in ids && !rows[0].Trashed() then [rows[0].(deletedAt := Some(now))] else [])
      + Softs(rows[1..], ids, now)
  }

  /** What `delete` returns: the removed rows, and with `trash` the hard-removed ones before the soft-removed ones. */
  function DeleteResult(rows: seq<Task>, ids: seq<Id>, trash: bool, now: int): seq<Task>
  {
    if trash then Directs(rows, ids) + Softs(rows, ids, now) else Found(rows, ids)
  }

  /**
   * With `trash`, the listed rows split into those already in the trash and
   * the others: each listed row is in exactly one of the two groups, and
   * together they are as many as the listed rows.
   */
  lemma {:induction false} TrashDeletePartitions(rows: seq<Task>, ids: seq<Id>, now: int)
    requires UniqueTaskIds(rows)
    ensures |Directs(rows, ids)| + |Softs(rows, ids, now)| == |Found(rows, ids)|
    ensures forall t :: t in rows && t.id in ids ==>
      (t in Directs(rows, ids) <==> t.Trashed()) &&
      (t.(deletedAt := Some(now)) in Softs(rows, ids, now) <==> !t.Trashed())
  {
    if rows != [] {
      UniqueTail(rows);
      TrashDeletePartitions(rows[1..], ids, now);
      assert rows == [rows[0]] + rows[1..];
      SelectCons(rows, WithDeleted(Where(BaseQuery, IdIn(ids))));
      SelectCons(rows, AndWhere(WithDeleted(Where(BaseQuery, IdIn(ids))), DeletedNotNull));
      forall t | t in rows && t.id in ids
        ensures t.(deletedAt := Some(now)) in Softs(rows, ids, now) <==> !t.Trashed()
      {
        SoftsMembers(rows, ids, now, t);
      }
    }
  }

  lemma SelectCons(rows: seq<Task>, q: ListQuery)
    requires rows != []
    ensures Select(rows, q) == (if Admits(q, rows[0]) then [rows[0]] else []) + Select(rows[1..], q)
  {
  }

  /** A row's stamped copy is among the soft-removed rows exactly when the row was listed and active. */
  lemma SoftsMembers(rows: seq<Task>, ids: seq<Id>, now: int, t: Task)
    requires UniqueTaskIds(rows) && t in rows && t.id in ids
    ensures t.(deletedAt := Some(now)) in Softs(rows, ids, now) <==> !t.Trashed()
  {
    if t.(deletedAt := Some(now)) in Softs(rows, ids, now) {
      SoftsFrom(rows, ids, now, t.(deletedAt := Some(now)));
      var u :| u in rows && u.id in ids && !u.Trashed() && u.(deletedAt := Some(now)) == t.(deletedAt := Some(now));
      SameIdSameRow(rows, u, t);
    }
    if !t.Trashed() {
      SoftsHas(rows, ids, now, t);
    }
  }

  /** In a table with unique ids, a row is determined by its id. */
  lemma SameIdSameRow(rows: seq<Task>, u: Task, t: Task)
    requires UniqueTaskIds(rows) && u in rows && t in rows && u.id == t.id
    ensures u == t
  {
    var i :| 0 <= i < |rows| && rows[i] == u;
    var j :| 0 <= j < |rows| && rows[j] == t;
  }

  lemma UniqueTail(rows: seq<Task>)
    requires UniqueTaskIds(rows) && rows != []
    ensures UniqueTaskIds(rows[1..])
  {
    var rest := rows[1..];
    forall i, j | 0 <= i < j < |rest| ensures rest[i].id != rest[j].id {
      assert rest[i] == rows[i + 1] && rest[j] == rows[j + 1];
    }
  }

  lemma {:induction false} SoftsFrom(rows: seq<Task>, ids: seq<Id>, now: int, x: Task)
    requires x in Softs(rows, ids, now)
    ensures exists u :: u in rows && u.id in ids && !u.Trashed() && x == u.(deletedAt := Some(now))
  {
    if rows != [] {
      if x !in Softs(rows[1..], ids, now) {
        assert x == rows[0].(deletedAt := Some(now));
      } else {
        SoftsFrom(rows[1..], ids, now, x);
      }
    }
  }

  lemma {:induction false} SoftsHas(rows: seq<Task>, ids: seq<Id>, now: int, t: Task)
    requires t in rows && t.id in ids && !t.Trashed()
    ensures t.(deletedAt := Some(now)) in Softs(rows, ids, now)
  {
    if rows[0] != t {
      SoftsHas(rows[1..], ids, now, t);
    }
  }

  /** The row with id `x`, if the table has one. */
  predicate HasId(rows: seq<Task>, x: Id)
  {
    exists t :: t in rows && t.id == x
  }

  /**
   * Two successive deletes with `trash` take an active row to the trash and
   * then out of the table: it never skips the trash.
   */
  lemma TrashTwice(rows: seq<Task>, ids: seq<Id>, t: Task, now1: int, now2: int)
    requires UniqueTaskIds(rows) && t in rows && t.id in ids && !t.Trashed()
    ensures t.(deletedAt := Some(now1)) in AfterDelete(rows, ids, true, now1)
    ensures !HasId(AfterDelete(AfterDelete(rows, ids, true, now1), ids, true, now2), t.id)
  {
    StampedStays(rows, ids, now1, t);
    var once := AfterDelete(rows, ids, true, now1);
    AfterTrashAllTrashed(rows, ids, now1);
    NoListedLeft(once, ids, now2, t.id);
  }

  lemma {:induction false} StampedStays(rows: seq<Task>, ids: seq<Id>, now: int, t: Task)
    requires t in rows && t.id in ids && !t.Trashed()
    ensures t.(deletedAt := Some(now)) in AfterDelete(rows, ids, true, now)
  {
    if rows[0] != t {
      StampedStays(rows[1..], ids, now, t);
    }
  }

  /** After a delete with `trash`, every listed row left is in the trash. */
  lemma {:induction false} AfterTrashAllTrashed(rows: seq<Task>, ids: seq<Id>, now: int)
    ensures forall u :: u in AfterDelete(rows, ids, true, now) && u.id in ids ==> u.Trashed()
  {
    if rows != [] {
      AfterTrashAllTrashed(rows[1..], ids, now);
    }
  }

  /** A delete with `trash` of rows that are all in the trash leaves no listed row. */
  lemma {:induction false} NoListedLeft(rows: seq<Task>, ids: seq<Id>, now: int, x: Id)
    requires x in ids && forall u :: u in rows && u.id in ids ==> u.Trashed()
    ensures !HasId(AfterDelete(rows, ids, true, now), x)
  {
    if rows != [] {
      NoListedLeft(rows[1..], ids, now, x);
      assert rows[0] in rows;
    }
  }

  /** Without `trash`, every listed row leaves the table and every other row stays as it was. */
  lemma {:induction false} HardDeleteRemovesListed(rows: seq<Task>, ids: seq<Id>, now: int)
    ensures forall t :: t in AfterDelete(rows, ids, false, now) <==> t in rows && t.id !in ids
  {
    if rows != [] {
      HardDeleteRemovesListed(rows[1..], ids, now);
      assert rows == [rows[0]] + rows[1..];
    }
  }

  /** Ids that match no row change nothing, and nothing is returned. */
  lemma {:induction false} UnknownIdsIgnored(rows: seq<Task>, ids: seq<Id>, trash: bool, now: int)
    requires forall t :: t in rows ==> t.id !in ids
    ensures AfterDelete(rows, ids, trash, now) == rows
    ensures DeleteResult(rows, ids, trash, now) == []
  {
    if rows != [] {
      UnknownIdsIgnored(rows[1..], ids, trash, now);
      assert rows == [rows[0]] + rows[1..];
      SoftsNone(rows, ids, now);
    }
    forall t | t in rows ensures !Admits(WithDeleted(Where(BaseQuery, IdIn(ids))), t) {
      IdQueries(ids, t);
    }
    SelectNone(rows, WithDeleted(Where(BaseQuery, IdIn(ids))));
    forall t | t in rows ensures !Admits(AndWhere(WithDeleted(Where(BaseQuery, IdIn(ids))), DeletedNotNull), t) {
      IdQueries(ids, t);
    }
    SelectNone(rows, AndWhere(WithDeleted(Where(BaseQuery, IdIn(ids))), DeletedNotNull));
  }

  lemma {:induction false} SoftsNone(rows: seq<Task>, ids: seq<Id>, now: int)
    requires forall t :: t in rows ==> t.id !in ids
    ensures Softs(rows, ids, now) == []
  {
    if rows != [] {
      SoftsNone(rows[1..], ids, now);
    }
  }

  /** `.map((item) => item.id)`. */
  function IdsOf(s: seq<Task>): (r: seq<Id>)
    ensures |r| == |s|
    ensures forall x :: x in r <==> exists t :: t in s && t.id == x
  {
    if s == [] then [] else
      assert forall t :: t in s <==> t == s[0] || t in s[1..];
      [s[0].id] + IdsOf(s[1..])
  }

  /** The table after `repository.restore(ids)`: listed rows leave the trash, others are unchanged. */
  function Restored(rows: seq<Task>, ids: seq<Id>): (r: seq<Task>)
    ensures |r| == |rows|
    ensures forall n :: 0 <= n < |r| ==> r[n] == (if rows[n].id in ids then rows[n].(deletedAt := None) else rows[n])
  {
    if rows == [] then []
    else [if rows[0].id in ids then rows[0].(deletedAt := None) else rows[0]] + Restored(rows[1..], ids)
  }

  /** Restoring twice is restoring once. */
  lemma RestoreIdempotent(rows: seq<Task>, ids: seq<Id>)
    ensures Restored(Restored(rows, ids), ids) == Restored(rows, ids)
  {
  }

  /** The tree `restore`'s list query is built with: no category is set, so it is not read. */
  const NoScope: Tree<Id> := Tree("", [])

  /**
   * `restore` as written (task.service.ts:182-194): the `length < 0` guard
   * never holds, so an empty id list reaches `repository.restore([])`,
   * which TypeORM refuses.
   */
  function RestoreAsWritten(rows: seq<Task>, ids: seq<Id>): Result<(seq<Task>, seq<Task>), TaskError>
  {
    var trasheds := IdsOf(Found(rows, ids));
    if |trasheds| < 0 then Ok((rows, []))
    else if trasheds == [] then Err(EmptyCriteria)
    else
      var after := Restored(rows, trasheds);
      Ok((after, Select(after, BuildListQueryAsWritten(BaseQuery, NoOptions, NoScope, Some(IdIn(trasheds))))))
  }

  /**
   * `restore` with the empty case returning `[]` as intended: the new table
   * and the rows returned.
   */
  function RestoreOutcome(rows: seq<Task>, ids: seq<Id>): (r: (seq<Task>, seq<Task>))
    ensures r.0 == Restored(rows, ids)
    ensures forall t :: t in r.1 <==> t in r.0 && t.id in ids
    ensures forall t :: t in r.1 ==> !t.Trashed()
  {
    var found := Found(rows, ids);
    var trasheds := IdsOf(found);
    if trasheds == [] then
      RestoreNothing(rows, ids);
      (rows, [])
    else
      var after := Restored(rows, trasheds);
      RestoredSame(rows, ids, trasheds);
      var listed := Select(after, BuildListQuery(BaseQuery, NoOptions, NoScope, Some(IdIn(trasheds))));
      RestoredListed(rows, ids, trasheds, listed);
      (after, listed)
  }

  /** Restoring the ids of the listed rows is restoring the listed ids. */
  lemma RestoredSame(rows: seq<Task>, ids: seq<Id>, trasheds: seq<Id>)
    requires forall x :: x in trasheds <==> exists t :: t in rows && t.id in ids && t.id == x
    ensures Restored(rows, trasheds) == Restored(rows, ids)
  {
    var a, b := Restored(rows, trasheds), Restored(rows, ids);
    forall n | 0 <= n < |rows| ensures a[n] == b[n] {
      assert rows[n] in rows;
    }
  }

  /** With no listed row there is nothing to restore. */
  lemma RestoreNothing(rows: seq<Task>, ids: seq<Id>)
    requires Found(rows, ids) == []
    ensures Restored(rows, ids) == rows
  {
    forall n | 0 <= n < |rows| ensures rows[n].id !in ids {
      assert rows[n] in rows;
      assert rows[n] !in Found(rows, ids);
    }
  }

  /** The restore list holds exactly the listed rows of the restored table, none of them in the trash. */
  lemma RestoredListed(rows: seq<Task>, ids: seq<Id>, trasheds: seq<Id>, listed: seq<Task>)
    requires forall x :: x in trasheds <==> exists t :: t in rows && t.id in ids && t.id == x
    requires listed == Select(Restored(rows, trasheds), BuildListQuery(BaseQuery, NoOptions, NoScope, Some(IdIn(trasheds))))
    ensures forall t :: t in listed <==> t in Restored(rows, ids) && t.id in ids
    ensures forall t :: t in listed ==> !t.Trashed()
  {
    RestoredSame(rows, ids, trasheds);
    var after := Restored(rows, ids);
    forall t | t in after
      ensures Admits(BuildListQuery(BaseQuery, NoOptions, NoScope, Some(IdIn(trasheds))), t) <==> t.id in ids
    {
      RestoreQueryAdmits(trasheds, t);
      RestoredRow(rows, ids, trasheds, t);
    }
  }

  /** The query `restore` lists with: untrashed rows whose id is in `trasheds`. */
  lemma RestoreQueryAdmits(trasheds: seq<Id>, t: Task)
    ensures Admits(BuildListQuery(BaseQuery, NoOptions, NoScope, Some(IdIn(trasheds))), t) <==> t.id in trasheds && !t.Trashed()
  {
    ListAdmits(NoOptions, NoScope, Some(IdIn(trasheds)), t);
  }

  /** A row of the restored table is out of the trash when its id was asked for, and its id was found exactly when asked for. */
  lemma RestoredRow(rows: seq<Task>, ids: seq<Id>, trasheds: seq<Id>, t: Task)
    requires forall x :: x in trasheds <==> exists t :: t in rows && t.id in ids && t.id == x
    requires t in Restored(rows, ids)
    ensures t.id in trasheds <==> t.id in ids
    ensures t.id in ids ==> !t.Trashed()
  {
    var after := Restored(rows, ids);
    var n :| 0 <= n < |after| && after[n] == t;
    assert rows[n] in rows && rows[n].id == t.id;
  }

  /** As written, restoring ids that match no row fails instead of returning nothing. */
  lemma RestoreEmptyFailsAsWritten(rows: seq<Task>, ids: seq<Id>)
    requires forall t :: t in rows ==> t.id !in ids
    ensures RestoreAsWritten(rows, ids) == Err(EmptyCriteria)
    ensures RestoreOutcome(rows, ids) == (rows, [])
  {
    forall t | t in rows ensures !Admits(WithDeleted(Where(BaseQuery, IdIn(ids))), t) {
      IdQueries(ids, t);
    }
    SelectNone(rows, WithDeleted(Where(BaseQuery, IdIn(ids))));
  }

  /**
   * The lookups of `create` and the insert hook (task.service.ts:75-101):
   * the row that is saved, or the error that stops the save.
   */
  method PrepareTask(rows: seq<Task>, data: CreateTask, users: map<Id, string>, knownCategories: set<Id>,
                     newId: Id, now: int)
    returns (r: Result<Task, TaskError>)
    ensures r == NewTask(rows, data, users, knownCategories, newId, now)
  {
    var createUser := if data.creator in users then Some(data.creator) else None;
    var executorUser := if data.executor.Some? then
                          (if data.executor.value in users then data.executor else None)
                        else createUser;
    var categories := if data.categories.Some? then
                        set c | c in data.categories.value && c in knownCategories
                      else {};
    var parentId: Option<Id> := None;
    if data.parent.Some? {
      var parent := Detail(rows, data.parent.value);
      if parent.Err? {
        return Err(parent.error);
      }
      parentId := Some(parent.value.id);
    }
    var draft := new TaskDraft(None, parentId, false);
    BeforeInsert(draft, CountActive(rows));
    var task := Task(newId, draft.serialNumber.value, data.title, data.body, executorUser, data.executionAt,
                     createUser, draft.isRoot, categories, data.publishedAt, now, None);
    NewTaskRow(rows, data, users, knownCategories, newId, now, parentId);
    r := Ok(task);
  }

  /** Posts the first comment of a freshly saved task (task.service.ts:103-109). */
  method PostFirstComment(comments: CommentService.CommentStore, body: string, task: Id, tasks: set<Id>, users: set<Id>,
                          commentId: Id, now: int)
    requires comments.Valid() && task in tasks
    requires forall j :: 0 <= j < |comments.rows| ==> comments.rows[j].id != commentId
    modifies comments
    ensures comments.Valid()
    ensures comments.rows == old(comments.rows) + [CommentRepository.Comment(commentId, body, now, task, None, None)]
  {
    FirstCommentStored(comments.rows, body, task, tasks, users, commentId, now);
    var note := comments.Create(CommentService.CreateComment(body, task, Undefined, Undefined), tasks, users, commentId, now);
  }

  /** The task table, in insertion order. */
  class TaskStore {
    var rows: seq<Task>

    ghost predicate Valid()
      reads this
    {
      UniqueTaskIds(rows)
    }

    constructor()
      ensures rows == [] && Valid()
    {
      rows := [];
    }

    /**
     * `create`: look the creator, executor, categories and parent up, save
     * the row through the insert hook, then post the first comment on it
     * (task.service.ts:75-111). A creator that does not exist fails after
     * the save, when its user name is read.
     */
    method Create(data: CreateTask, users: map<Id, string>, knownCategories: set<Id>, newId: Id, now: int,
                  comments: CommentService.CommentStore, commentId: Id)
      returns (r: Result<Task, TaskError>)
      requires Valid() && comments.Valid()
      requires forall t :: t in rows ==> t.id != newId
      requires forall j :: 0 <= j < |comments.rows| ==> comments.rows[j].id != commentId
      modifies this, comments
      ensures Valid() && comments.Valid()
      ensures NewTask(old(rows), data, users, knownCategories, newId, now).Err? ==>
        r == Err(NewTask(old(rows), data, users, knownCategories, newId, now).error) &&
        rows == old(rows) && comments.rows == old(comments.rows)
      ensures NewTask(old(rows), data, users, knownCategories, newId, now).Ok? ==>
        rows == old(rows) + [NewTask(old(rows), data, users, knownCategories, newId, now).value]
      ensures NewTask(old(rows), data, users, knownCategories, newId, now).Ok? && data.creator !in users ==>
        r == Err(CreatorMissing) && comments.rows == old(comments.rows)
      ensures NewTask(old(rows), data, users, knownCategories, newId, now).Ok? && data.creator in users ==>
        r == Ok(NewTask(old(rows), data, users, knownCategories, newId, now).value) &&
        comments.rows == old(comments.rows) +
          [CommentRepository.Comment(commentId, FirstCommentBody(users[data.creator]), now, newId, None, None)]
    {
      var prepared := PrepareTask(rows, data, users, knownCategories, newId, now);
      if prepared.Err? {
        return Err(prepared.error);
      }
      var task := prepared.value;
      AppendFresh(rows, task);
      rows := rows + [task];
      if data.creator !in users {
        return Err(CreatorMissing);
      }
      var visible := VisibleIds(rows);
      VisibleNew(rows, task);
      var body := FirstCommentBody(users[data.creator]);
      PostFirstComment(comments, body, newId, visible, users.Keys, commentId, now);
      r := Ok(task);
    }

    /**
     * `delete(ids, trash)`: the listed rows, trashed or not, are removed for
     * good; with `trash`, rows not yet in the trash are moved there instead
     * (task.service.ts:162-176). Returns the removed rows.
     */
    method Delete(ids: seq<Id>, trash: bool, now: int) returns (removed: seq<Task>)
      requires Valid()
      modifies this
      ensures Valid()
      ensures rows == AfterDelete(old(rows), ids, trash, now)
      ensures removed == DeleteResult(old(rows), ids, trash, now)
    {
      var items := Found(rows, ids);
      if trash {
        var directs := Directs(rows, ids);
        var softs := Softs(rows, ids, now);
        removed := directs + softs;
      } else {
        removed := items;
      }
      AfterDeleteKeepsIds(rows, ids, trash, now);
      rows := AfterDelete(rows, ids, trash, now);
    }

    /**
     * `restore(ids)` with an empty target list returning `[]`: the listed
     * rows leave the trash and are returned as the default list shows them
     * (task.service.ts:182-194).
     */
    method Restore(ids: seq<Id>) returns (restored: seq<Task>)
      requires Valid()
      modifies this
      ensures Valid()
      ensures (rows, restored) == RestoreOutcome(old(rows), ids)
    {
      var items := Found(rows, ids);
      var trasheds := IdsOf(items);
      if |trasheds| <= 0 {
        restored := [];
        return;
      }
      RestoredKeepsIds(rows, trasheds);
      rows := Restored(rows, trasheds);
      restored := Select(rows, BuildListQuery(BaseQuery, NoOptions, NoScope, Some(IdIn(trasheds))));
    }
  }

  /** Deleting only drops rows or stamps them: ids stay unique. */
  lemma {:induction false} AfterDeleteKeepsIds(rows: seq<Task>, ids: seq<Id>, trash: bool, now: int)
    requires UniqueTaskIds(rows)
    ensures UniqueTaskIds(AfterDelete(rows, ids, trash, now))
    ensures forall u :: u in AfterDelete(rows, ids, trash, now) ==> HasId(rows, u.id)
  {
    if rows != [] {
      var rest := rows[1..];
      UniqueTail(rows);
      AfterDeleteKeepsIds(rest, ids, trash, now);
      var tail := AfterDelete(rest, ids, trash, now);
      forall u | u in tail ensures u.id != rows[0].id {
        var v :| v in rest && v.id == u.id;
        var j :| 0 <= j < |rest| && rest[j] == v;
        assert rows[j + 1] == v;
      }
    }
  }

  /** Restoring changes no id. */
  lemma RestoredKeepsIds(rows: seq<Task>, ids: seq<Id>)
    requires UniqueTaskIds(rows)
    ensures UniqueTaskIds(Restored(rows, ids))
  {
  }

  /**
   * A trashed task lowers the count the insert hook reads, so the next
   * generated serial number repeats one already handed out: the serial
   * depends on the count alone and is not unique.
   */
  lemma SerialRepeatsAfterTrash(rows: seq<Task>, t: Task, now: int)
    requires t in rows && !t.Trashed() && UniqueTaskIds(rows)
    ensures CountActive(AfterDelete(rows, [t.id], true, now)) == CountActive(rows) - 1
    ensures SerialFor(CountActive(AfterDelete(rows, [t.id], true, now))) == SerialFor(CountActive(rows) - 1)
  {
    TrashOneLowersCount(rows, t, now);
  }

  lemma {:induction false} TrashOneLowersCount(rows: seq<Task>, t: Task, now: int)
    requires UniqueTaskIds(rows) && t in rows && !t.Trashed()
    ensures CountActive(AfterDelete(rows, [t.id], true, now)) == CountActive(rows) - 1
  {
    var rest := rows[1..];
    UniqueTail(rows);
    if rows[0] == t {
      forall u | u in rest ensures u.id !in [t.id] {
        var j :| 0 <= j < |rest| && rest[j] == u;
        assert rows[j + 1] == u;
      }
      UnknownIdsIgnored(rest, [t.id], true, now);
    } else {
      var j :| 0 <= j < |rows| && rows[j] == t;
      assert j != 0 && rows[0].id != rows[j].id;
      assert t in rest by { assert rest[j - 1] == t; }
      TrashOneLowersCount(rest, t, now);
    }
  }
}
