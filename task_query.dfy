/**
 * The task list query (task.service.ts:196-267): trash visibility, the
 * publish filter, the ordering switch and the category scope, composed on a
 * query builder whose `where` replaces every earlier condition, `andWhere`
 * conjoins one more, `orderBy` replaces the ordering and `addOrderBy`
 * appends to it.
 */
module TaskQuery {
  import opened Wrappers
  import opened TreeFlatten
  import opened TaskEntity

  /** `SelectTrashMode`: which rows with respect to the trash a list shows. */
  datatype SelectTrashMode = ALL | ONLY | NONE

  /** `TaskOrderType` (constants.ts:4-10). */
  datatype TaskOrderType = CREATED | PUBLISHED | COMMENTCOUNT | SERIALNUMBER | CREATOR

  datatype Column = CreatedAt | PublishedAt | SerialNumber | Creator
  datatype Direction = Asc | Desc
  datatype OrderKey = OrderKey(column: Column, direction: Direction)

  /** A WHERE condition the list builder can carry. */
  datatype TaskCond =
    | DeletedNotNull          // `task.deletedAt is not null`
    | PublishedNotNull        // `{ publishedAt: Not(IsNull()) }`
    | PublishedNull           // `{ publishedAt: IsNull() }`
    | CategoryIn(ids: seq<Id>) // `categories.id IN (:...ids)`
    | IdIn(ids: seq<Id>)       // `andWhereInIds(ids)`

  predicate Holds(c: TaskCond, t: Task)
  {
    match c
    case DeletedNotNull => t.deletedAt.Some?
    case PublishedNotNull => t.publishedAt.Some?
    case PublishedNull => t.publishedAt.None?
    case CategoryIn(ids) => exists k :: k in t.categories && k in ids
    case IdIn(ids) => t.id in ids
  }

  /** A task query builder: trash switch, WHERE conditions (a conjunction) and ORDER BY keys. */
  datatype ListQuery = ListQuery(withDeleted: bool, conds: seq<TaskCond>, order: seq<OrderKey>)

  /** `buildBaseQB` as far as filtering and ordering go: no condition, no ordering, trash hidden. */
  const BaseQuery: ListQuery := ListQuery(false, [], [])

  /** A row the query returns: soft-deleted rows only with `withDeleted`, and every condition holds. */
  predicate Admits(q: ListQuery, t: Task)
  {
    (q.withDeleted || !t.Trashed()) && forall c :: c in q.conds ==> Holds(c, t)
  }

  function WithDeleted(q: ListQuery): ListQuery { q.(withDeleted := true) }
  function Where(q: ListQuery, c: TaskCond): ListQuery { q.(conds := [c]) }
  function AndWhere(q: ListQuery, c: TaskCond): ListQuery { q.(conds := q.conds + [c]) }
  function OrderBy(q: ListQuery, k: OrderKey): ListQuery { q.(order := [k]) }
  function AddOrderBy(q: ListQuery, k: OrderKey): ListQuery { q.(order := q.order + [k]) }

  /** After `where(c)` a row passes the conditions exactly when `c` holds of it. */
  lemma WhereReplaces(q: ListQuery, c: TaskCond, t: Task)
    ensures Admits(Where(q, c), t) <==> (q.withDeleted || !t.Trashed()) && Holds(c, t)
  {
  }

  /** After `andWhere(c)` a row must pass the earlier conditions and `c`. */
  lemma AndWhereConjoins(q: ListQuery, c: TaskCond, t: Task)
    ensures Admits(AndWhere(q, c), t) <==> Admits(q, t) && Holds(c, t)
  {
    assert forall d :: d in q.conds + [c] <==> d in q.conds || d == c;
  }

  /** `queryOrderBy` as written (task.service.ts:236-252). */
  function QueryOrderBy(q: ListQuery, orderBy: Option<TaskOrderType>): ListQuery
  {
    match orderBy
    case Some(CREATED) => OrderBy(q, OrderKey(CreatedAt, Desc))
    case Some(PUBLISHED) => OrderBy(q, OrderKey(PublishedAt, Desc))
    case Some(SERIALNUMBER) => OrderBy(q, OrderKey(SerialNumber, Desc))
    case Some(CREATOR) => OrderBy(q, OrderKey(Creator, Desc))
    case _ =>
      AddOrderBy(OrderBy(OrderBy(q, OrderKey(CreatedAt, Asc)), OrderKey(SerialNumber, Asc)), OrderKey(PublishedAt, Asc))
  }

  /** The key a named order type sorts by, newest or largest first. */
  function SingleKey(o: TaskOrderType): Option<OrderKey>
  {
    match o
    case CREATED => Some(OrderKey(CreatedAt, Desc))
    case PUBLISHED => Some(OrderKey(PublishedAt, Desc))
    case SERIALNUMBER => Some(OrderKey(SerialNumber, Desc))
    case CREATOR => Some(OrderKey(Creator, Desc))
    case COMMENTCOUNT => None
  }

  /**
   * As written, the four named orders give their single descending key and
   * every other value falls back to serial number then publish time: the
   * second `orderBy` discards the creation-time key. Filters are untouched.
   */
  lemma QueryOrderByKeys(q: ListQuery, orderBy: Option<TaskOrderType>)
    ensures QueryOrderBy(q, orderBy).withDeleted == q.withDeleted && QueryOrderBy(q, orderBy).conds == q.conds
    ensures orderBy.Some? && SingleKey(orderBy.value).Some? ==>
      QueryOrderBy(q, orderBy).order == [SingleKey(orderBy.value).value]
    ensures orderBy.None? || SingleKey(orderBy.value).None? ==>
      QueryOrderBy(q, orderBy).order == [OrderKey(SerialNumber, Asc), OrderKey(PublishedAt, Asc)]
    ensures forall k :: k in QueryOrderBy(q, orderBy).order ==> k.column != CreatedAt || k.direction == Desc
  {
  }

  /** `queryOrderBy` with the default chain appended as intended: creation time, then serial number, then publish time. */
  function QueryOrderByIntended(q: ListQuery, orderBy: Option<TaskOrderType>): (r: ListQuery)
    ensures r.withDeleted == q.withDeleted && r.conds == q.conds
    ensures orderBy.Some? && SingleKey(orderBy.value).Some? ==> r.order == [SingleKey(orderBy.value).value]
    ensures orderBy.None? || SingleKey(orderBy.value).None? ==>
      |r.order| == 3 && r.order[0] == OrderKey(CreatedAt, Asc) && r.order[1..] == QueryOrderBy(q, orderBy).order
  {
    match orderBy
    case Some(CREATED) => OrderBy(q, OrderKey(CreatedAt, Desc))
    case Some(PUBLISHED) => OrderBy(q, OrderKey(PublishedAt, Desc))
    case Some(SERIALNUMBER) => OrderBy(q, OrderKey(SerialNumber, Desc))
    case Some(CREATOR) => OrderBy(q, OrderKey(Creator, Desc))
    case _ =>
      AddOrderBy(AddOrderBy(OrderBy(q, OrderKey(CreatedAt, Asc)), OrderKey(SerialNumber, Asc)), OrderKey(PublishedAt, Asc))
  }

  /** The ids of a flattened list, in list order. */
  function FlatIds(s: seq<Flat<Id>>): (r: seq<Id>)
    ensures |r| == |s|
    ensures multiset(r) == Records(s)
  {
    if s == [] then [] else [s[0].item] + FlatIds(s[1..])
  }

  /**
   * `queryByCategory`'s id list: the category itself, then its descendants
   * flattened in pre-order (task.service.ts:259-263). `tree` is the
   * category's descendant tree.
   */
  function CategoryScope(tree: Tree<Id>): (ids: seq<Id>)
    ensures |ids| == TreeSize(tree) && ids[0] == tree.item
  {
    [tree.item] + FlatIds(Flatten(tree.children, 0))
  }

  /** The scope holds every category of the tree, each as often as it occurs, and nothing else. */
  lemma CategoryScopeNodes(tree: Tree<Id>)
    ensures multiset(CategoryScope(tree)) == Nodes([tree])
  {
    FlattenRecords(tree.children, 0);
    assert [tree][1..] == [];
  }

  /** Request options the list builder reads (the filtering part of `QueryTaskDto`). */
  datatype ListOptions = ListOptions(
    category: Option<string>,
    orderBy: Option<TaskOrderType>,
    isPublished: Option<bool>,
    trashed: Option<SelectTrashMode>)

  /** `if (category)`: JavaScript truthiness, so an empty string sets no scope. */
  predicate Truthy(s: Option<string>)
  {
    s.Some? && s.value != ""
  }

  /** `trashed = SelectTrashMode.NONE` when it is undefined. */
  function TrashModeOf(o: ListOptions): SelectTrashMode
  {
    if o.trashed.Some? then o.trashed.value else NONE
  }

  /**
   * `buildListQuery` as written (task.service.ts:202-229): `tree` is the
   * descendant tree of the requested category, `callback` a condition the
   * caller conjoins.
   */
  function BuildListQueryAsWritten(q: ListQuery, o: ListOptions, tree: Tree<Id>, callback: Option<TaskCond>): ListQuery
  {
    var mode := TrashModeOf(o);
    var q1 := if mode == ALL || mode == ONLY then
                (var w := WithDeleted(q); if mode == ONLY then Where(w, DeletedNotNull) else w)
              else q;
    var q2 := if o.isPublished.Some? then
                (if o.isPublished.value then Where(q1, PublishedNotNull) else Where(q1, PublishedNull))
              else q1;
    var q3 := QueryOrderBy(q2, o.orderBy);
    var q4 := if Truthy(o.category) then Where(q3, CategoryIn(CategoryScope(tree))) else q3;
    if callback.Some? then AndWhere(q4, callback.value) else q4
  }

  /** `buildListQuery` with every filter conjoined and the intended default order. */
  function BuildListQuery(q: ListQuery, o: ListOptions, tree: Tree<Id>, callback: Option<TaskCond>): ListQuery
  {
    var mode := TrashModeOf(o);
    var q1 := if mode == ALL || mode == ONLY then
                (var w := WithDeleted(q); if mode == ONLY then AndWhere(w, DeletedNotNull) else w)
              else q;
    var q2 := if o.isPublished.Some? then
                (if o.isPublished.value then AndWhere(q1, PublishedNotNull) else AndWhere(q1, PublishedNull))
              else q1;
    var q3 := QueryOrderByIntended(q2, o.orderBy);
    var q4 := if Truthy(o.category) then AndWhere(q3, CategoryIn(CategoryScope(tree))) else q3;
    if callback.Some? then AndWhere(q4, callback.value) else q4
  }

  /** Trash visibility: NONE shows active rows, ALL every row, ONLY trashed rows. */
  predicate TrashVisible(mode: SelectTrashMode, t: Task)
  {
    match mode
    case NONE => !t.Trashed()
    case ALL => true
    case ONLY => t.Trashed()
  }

  /** Publish filter: `true` keeps published rows, `false` unpublished ones, absent keeps all. */
  predicate PublishVisible(isPublished: Option<bool>, t: Task)
  {
    isPublished.None? || (isPublished.value <==> t.publishedAt.Some?)
  }

  /** Category filter: without a category every row; with one, rows in a category of its tree. */
  predicate CategoryVisible(category: Option<string>, tree: Tree<Id>, t: Task)
  {
    !Truthy(category) || exists k :: k in t.categories && k in CategoryScope(tree)
  }

  /**
   * The list a request asks for: a row is listed exactly when it passes the
   * trash mode, the publish flag, the category scope and the caller's
   * condition.
   */
  lemma {:induction false} ListAdmits(o: ListOptions, tree: Tree<Id>, callback: Option<TaskCond>, t: Task)
    ensures Admits(BuildListQuery(BaseQuery, o, tree, callback), t) <==>
      TrashVisible(TrashModeOf(o), t) && PublishVisible(o.isPublished, t) &&
      CategoryVisible(o.category, tree, t) && (callback.Some? ==> Holds(callback.value, t))
  {
    var mode := TrashModeOf(o);
    var q0 := BaseQuery;
    var q1 := if mode == ALL || mode == ONLY then
                (var w := WithDeleted(q0); if mode == ONLY then AndWhere(w, DeletedNotNull) else w)
              else q0;
    assert Admits(q1, t) <==> TrashVisible(mode, t) by {
      if mode == ONLY { AndWhereConjoins(WithDeleted(q0), DeletedNotNull, t); }
    }
    var q2 := if o.isPublished.Some? then
                (if o.isPublished.value then AndWhere(q1, PublishedNotNull) else AndWhere(q1, PublishedNull))
              else q1;
    assert Admits(q2, t) <==> Admits(q1, t) && PublishVisible(o.isPublished, t) by {
      if o.isPublished.Some? {
        AndWhereConjoins(q1, PublishedNotNull, t);
        AndWhereConjoins(q1, PublishedNull, t);
      }
    }
    var q3 := QueryOrderByIntended(q2, o.orderBy);
    assert Admits(q3, t) <==> Admits(q2, t);
    var q4 := if Truthy(o.category) then AndWhere(q3, CategoryIn(CategoryScope(tree))) else q3;
    assert Admits(q4, t) <==> Admits(q3, t) && CategoryVisible(o.category, tree, t) by {
      if Truthy(o.category) { AndWhereConjoins(q3, CategoryIn(CategoryScope(tree)), t); }
    }
    if callback.Some? {
      AndWhereConjoins(q4, callback.value, t);
    }
  }

  /**
   * As written, asking for the trash together with a publish flag lists
   * active rows too: the publish `where` discards `deletedAt is not null`,
   * and only the publish flag filters.
   */
  lemma OnlyTrashLostAsWritten(isPublished: bool, orderBy: Option<TaskOrderType>, tree: Tree<Id>, t: Task)
    ensures Admits(BuildListQueryAsWritten(BaseQuery, ListOptions(None, orderBy, Some(isPublished), Some(ONLY)), tree, None), t)
      <==> PublishVisible(Some(isPublished), t)
  {
    var q1 := Where(WithDeleted(BaseQuery), DeletedNotNull);
    var c := if isPublished then PublishedNotNull else PublishedNull;
    QueryOrderByKeys(Where(q1, c), orderBy);
    WhereReplaces(q1, c, t);
  }

  /**
   * As written, a category discards the trash condition and the publish
   * flag: only the trash switch and the category scope filter.
   */
  lemma CategoryReplacesFiltersAsWritten(o: ListOptions, tree: Tree<Id>, t: Task)
    requires Truthy(o.category)
    ensures Admits(BuildListQueryAsWritten(BaseQuery, o, tree, None), t) <==>
      (TrashModeOf(o) != NONE || !t.Trashed()) && CategoryVisible(o.category, tree, t)
  {
    var mode := TrashModeOf(o);
    var q1 := if mode == ALL || mode == ONLY then
                (var w := WithDeleted(BaseQuery); if mode == ONLY then Where(w, DeletedNotNull) else w)
              else BaseQuery;
    var q2 := if o.isPublished.Some? then
                (if o.isPublished.value then Where(q1, PublishedNotNull) else Where(q1, PublishedNull))
              else q1;
    QueryOrderByKeys(q2, o.orderBy);
    WhereReplaces(QueryOrderBy(q2, o.orderBy), CategoryIn(CategoryScope(tree)), t);
  }

  /** The options `restore` passes, `{}`: nothing set. */
  const NoOptions: ListOptions := ListOptions(None, None, None, None)

  /** With no options the replacing and the conjoining builders admit the same rows. */
  lemma NoOptionsAgree(tree: Tree<Id>, callback: Option<TaskCond>, t: Task)
    ensures Admits(BuildListQueryAsWritten(BaseQuery, NoOptions, tree, callback), t) <==>
      Admits(BuildListQuery(BaseQuery, NoOptions, tree, callback), t)
  {
  }
}
