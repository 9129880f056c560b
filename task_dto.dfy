/**
 * The task request DTOs (task.dto.ts). `QueryTaskDto` and
 * `CreatByUserIdsDto` are validated without groups, `CreateTaskDto` with
 * the group `create` and `UpdateTaskDto` with the group `update`; under a
 * group only the decorators of that group and those marked `always` take
 * part.
 */
module TaskDto {
  import opened Wrappers
  import opened Validation
  import TaskQuery

  /* ---------------- QueryTaskDto (task.dto.ts:32-89) ---------------- */

  const TrashedRules: seq<Decl> :=
    [ Plain(Constraint(InEnum(TrashModes))),       // :34
      Plain(Conditional(Optional)) ]               // :35
  const CategoryRules: seq<Decl> :=
    [ Plain(Constraint(Exists(CategoryTable))),    // :41
      Plain(Constraint(Uuid)),                     // :44
      Plain(Conditional(Optional)) ]               // :45
  const IsPublishedRules: seq<Decl> :=
    [ Plain(Constraint(IsBoolean)),                // :52
      Plain(Conditional(Optional)) ]               // :53
  const OrderByRules: seq<Decl> :=
    [ Plain(Constraint(InEnum(TaskOrders))),       // :60
      Plain(Conditional(Optional)) ]               // :63
  const QueryTask: Decorators :=
    map[Trashed := TrashedRules, Category := CategoryRules, IsPublished := IsPublishedRules,
        OrderBy := OrderByRules, Page := PageRules, Limit := PageRules]

  /**
   * The `QueryTaskDto` instance built from a query: `isPublished` goes
   * through `toBoolean` (:51), `page` and `limit` through `toNumber` and
   * start at 1 and 10 (:72-88).
   */
  function ReadQueryTask(plain: Object, lib: Library): Object
  {
    var o := plain[Page := PageValue(plain, Page, 1.0, lib)][Limit := PageValue(plain, Limit, 10.0, lib)];
    if IsPublished in plain then o[IsPublished := lib.toBoolean(plain[IsPublished])] else o
  }

  /** An optional enumeration property: absent, null or one of `values`. */
  predicate EnumOrNil(v: Value, values: set<string>)
  {
    IsNil(v) || (v.Text? && v.text in values)
  }

  /** The id of a stored category. */
  predicate CategoryIdAccepted(v: Value, lib: Library)
  {
    v.Text? && lib.isUuid(v.text) && lib.isStored(CategoryTable, v)
  }

  /** The `isPublished` of the instance: what `toBoolean` makes of the text sent, if any. */
  function PublishedValue(plain: Object, lib: Library): Value
  {
    if IsPublished in plain then lib.toBoolean(plain[IsPublished]) else Missing
  }

  lemma EnumPasses(rules: seq<Decl>, p: Key, e: Enum, obj: Object, lib: Library)
    requires rules == [Plain(Constraint(InEnum(e))), Plain(Conditional(Optional))]
    ensures PropertyPasses(rules, obj, p, {}, lib) <==> EnumOrNil(Get(obj, p), EnumValues(e, lib))
  {
    assert CheckOf(rules[0], {}) && GuardOf(rules[1], {});
  }

  lemma CategoryPasses(obj: Object, lib: Library)
    ensures PropertyPasses(CategoryRules, obj, Category, {}, lib) <==>
      IsNil(Get(obj, Category)) || CategoryIdAccepted(Get(obj, Category), lib)
  {
    assert CheckOf(CategoryRules[0], {}) && CheckOf(CategoryRules[1], {});
    assert GuardOf(CategoryRules[2], {});
  }

  lemma IsPublishedPasses(obj: Object, lib: Library)
    ensures PropertyPasses(IsPublishedRules, obj, IsPublished, {}, lib) <==>
      IsNil(Get(obj, IsPublished)) || Get(obj, IsPublished).Flag?
  {
    assert CheckOf(IsPublishedRules[0], {}) && GuardOf(IsPublishedRules[1], {});
  }

  /** What the query validation accepts, property by property. */
  predicate QueryTaskAccepted(plain: Object, lib: Library)
  {
    EnumOrNil(Get(plain, Trashed), lib.trashModes) &&
    (IsNil(Get(plain, Category)) || CategoryIdAccepted(Get(plain, Category), lib)) &&
    (IsNil(PublishedValue(plain, lib)) || PublishedValue(plain, lib).Flag?) &&
    EnumOrNil(Get(plain, OrderBy), TaskOrderValues) &&
    PageAccepted(plain, Page, lib) && PageAccepted(plain, Limit, lib)
  }

  /**
   * A task query passes exactly when `trashed` is absent or a trash mode,
   * `category` absent or the id of a stored category, `isPublished` absent
   * or a boolean after `toBoolean`, `orderBy` absent or a `TaskOrderType`
   * value, and `page` and `limit` not sent or finite numbers of at least 1.
   */
  lemma QueryTaskAccepts(plain: Object, lib: Library)
    ensures Validates(QueryTask, ReadQueryTask(plain, lib), {}, lib) <==> QueryTaskAccepted(plain, lib)
  {
    var obj := ReadQueryTask(plain, lib);
    assert QueryTask.Keys == {Trashed, Category, IsPublished, OrderBy, Page, Limit};
    ReadQueryTaskKeeps(plain, lib);
    EnumPasses(TrashedRules, Trashed, TrashModes, obj, lib);
    CategoryPasses(obj, lib);
    IsPublishedPasses(obj, lib);
    EnumPasses(OrderByRules, OrderBy, TaskOrders, obj, lib);
    PagePasses(plain, obj, Page, 1.0, lib);
    PagePasses(plain, obj, Limit, 10.0, lib);
  }

  /** Reading a query changes only `isPublished`, `page` and `limit`. */
  lemma ReadQueryTaskKeeps(plain: Object, lib: Library)
    ensures Get(ReadQueryTask(plain, lib), Trashed) == Get(plain, Trashed)
    ensures Get(ReadQueryTask(plain, lib), Category) == Get(plain, Category)
    ensures Get(ReadQueryTask(plain, lib), OrderBy) == Get(plain, OrderBy)
    ensures Get(ReadQueryTask(plain, lib), IsPublished) == PublishedValue(plain, lib)
    ensures Get(ReadQueryTask(plain, lib), Page) == PageValue(plain, Page, 1.0, lib)
    ensures Get(ReadQueryTask(plain, lib), Limit) == PageValue(plain, Limit, 10.0, lib)
  {
  }

  /** The string value of each `TaskOrderType` (constants.ts:4-10). */
  function OrderValue(t: TaskQuery.TaskOrderType): (s: string)
    ensures s in TaskOrderValues
  {
    match t
    case CREATED => "createdAt"
    case PUBLISHED => "publishedAt"
    case COMMENTCOUNT => "commentCount"
    case SERIALNUMBER => "serialNumber"
    case CREATOR => "creator"
  }

  /** The `TaskOrderType` a string names, if any. */
  function DecodeOrder(s: string): (r: Option<TaskQuery.TaskOrderType>)
    ensures r.Some? <==> s in TaskOrderValues
    ensures r.Some? ==> OrderValue(r.value) == s
  {
    if s == "createdAt" then Some(TaskQuery.CREATED)
    else if s == "publishedAt" then Some(TaskQuery.PUBLISHED)
    else if s == "commentCount" then Some(TaskQuery.COMMENTCOUNT)
    else if s == "serialNumber" then Some(TaskQuery.SERIALNUMBER)
    else if s == "creator" then Some(TaskQuery.CREATOR)
    else None
  }

  /** Decoding the string value of an order type gives that order type back. */
  lemma OrderValueRoundTrip(t: TaskQuery.TaskOrderType)
    ensures DecodeOrder(OrderValue(t)) == Some(t)
  {
  }

  /**
   * The list options an accepted query hands to the task list:
   * `decodeTrash` maps the string values of `SelectTrashMode` to its members.
   */
  function QueryOptions(plain: Object, lib: Library, decodeTrash: map<string, TaskQuery.SelectTrashMode>): (o: TaskQuery.ListOptions)
    requires decodeTrash.Keys == lib.trashModes && QueryTaskAccepted(plain, lib)
    ensures o.category.Some? <==> !IsNil(Get(plain, Category))
    ensures o.category.Some? ==> Get(plain, Category) == Text(o.category.value)
    ensures o.orderBy.Some? <==> !IsNil(Get(plain, OrderBy))
    ensures o.orderBy.Some? ==> Get(plain, OrderBy) == Text(OrderValue(o.orderBy.value))
    ensures o.isPublished.Some? <==> !IsNil(PublishedValue(plain, lib))
    ensures o.isPublished.Some? ==> PublishedValue(plain, lib) == Flag(o.isPublished.value)
    ensures o.trashed.Some? <==> !IsNil(Get(plain, Trashed))
    ensures o.trashed.Some? ==> Get(plain, Trashed).text in decodeTrash && decodeTrash[Get(plain, Trashed).text] == o.trashed.value
  {
    var category := Get(plain, Category);
    var orderBy := Get(plain, OrderBy);
    var published := PublishedValue(plain, lib);
    var trashed := Get(plain, Trashed);
    TaskQuery.ListOptions(
      if category.Text? then Some(category.text) else None,
      if orderBy.Text? then DecodeOrder(orderBy.text) else None,
      if published.Flag? then Some(published.flag) else None,
      if trashed.Text? then Some(decodeTrash[trashed.text]) else None)
  }

  /** Without options the query passes and asks for the default list: page 1 of 10 rows, trash hidden, default order. */
  lemma EmptyQueryAccepted(lib: Library, decodeTrash: map<string, TaskQuery.SelectTrashMode>)
    requires decodeTrash.Keys == lib.trashModes
    ensures Validates(QueryTask, ReadQueryTask(map[], lib), {}, lib)
    ensures Get(ReadQueryTask(map[], lib), Page) == Num(Finite(1.0))
    ensures Get(ReadQueryTask(map[], lib), Limit) == Num(Finite(10.0))
    ensures QueryTaskAccepted(map[], lib) && QueryOptions(map[], lib, decodeTrash) == TaskQuery.NoOptions
  {
    QueryTaskAccepts(map[], lib);
  }

  /* ---------------- CreateTaskDto (task.dto.ts:94-199) ---------------- */

  const TitleRules: seq<Decl> :=
    [ Always(Constraint(MaxLength(255))),                 // :97-100
      InGroup(Constraint(NotEmpty), "create"),            // :101
      InGroup(Conditional(Optional), "update") ]          // :102
  const BodyRules: seq<Decl> :=
    [ InGroup(Constraint(NotEmpty), "create"),            // :106
      InGroup(Conditional(Optional), "update") ]          // :107
  /** `publishedAt` (:117-119); `executionAt` carries the same decorators (:130-132). */
  const DateRules: seq<Decl> :=
    [ Plain(Constraint(DateString)),
      Always(Conditional(Optional)),
      Plain(Conditional(PublishedAtGiven)) ]
  const ReminderRules: seq<Decl> :=
    [ Plain(Constraint(InEnum(Reminders))),               // :144-148
      Plain(Conditional(Optional)) ]                      // :149
  const CreatorRules: seq<Decl> :=
    [ Always(Constraint(Uuid)),                           // :157-160
      InGroup(Conditional(Optional), "update") ]          // :161
  const ExecutorRules: seq<Decl> :=
    [ Always(Constraint(Uuid)),                           // :169-172
      Always(Conditional(Optional)) ]                     // :173
  const ParentRules: seq<Decl> :=
    [ Plain(Constraint(Uuid)),                            // :179
      Plain(Constraint(IsDefined)) ]                      // :180
  const CategoriesRules: seq<Decl> :=
    [ Decl(Constraint(Exists(CategoryTable)), {}, Some(true), true),  // :187-191
      Decl(Constraint(Uuid), {}, Some(true), true),                   // :192-196
      Always(Conditional(Optional)) ]                                 // :197
  /** `CreateTaskDto`: its text, its timing and its relations to users, tasks and categories. */
  const TaskText: Decorators := map[Title := TitleRules, Body := BodyRules]
  const TaskTiming: Decorators := map[PublishedAt := DateRules, ExecutionAt := DateRules, EminderTime := ReminderRules]
  const TaskRelations: Decorators :=
    map[Creator := CreatorRules, Executor := ExecutorRules, Parent := ParentRules, Categories := CategoriesRules]
  const CreateTask: Decorators := TaskText + TaskTiming + TaskRelations

  /** The instance built from a request body: a `publishedAt` or `executionAt` of `'null'` becomes `null` (:120,133). */
  function ReadTask(plain: Object): Object
  {
    var o := if PublishedAt in plain then plain[PublishedAt := NullFromText(plain[PublishedAt])] else plain;
    if ExecutionAt in plain then o[ExecutionAt := NullFromText(plain[ExecutionAt])] else o
  }

  /** A `categories` value the validator accepts: nil, an array of stored category ids, or a single one. */
  predicate CategoriesAccepted(v: Value, lib: Library)
  {
    IsNil(v) ||
    (v.Items? && forall i :: 0 <= i < |v.items| ==> CategoryIdAccepted(v.items[i], lib)) ||
    (!v.Items? && CategoryIdAccepted(v, lib))
  }

  /** An optional text of at most `max` characters. */
  predicate ShortOrNil(v: Value, max: nat)
  {
    IsNil(v) || (v.Text? && |v.text| <= max)
  }

  /** The two groups the task DTOs are validated with. */
  predicate TaskGroup(groups: set<string>)
  {
    groups == {"create"} || groups == {"update"}
  }

  lemma TitlePasses(obj: Object, groups: set<string>, lib: Library)
    requires TaskGroup(groups)
    ensures groups == {"create"} ==>
      (PropertyPasses(TitleRules, obj, Title, groups, lib) <==>
       Get(obj, Title).Text? && 1 <= |Get(obj, Title).text| <= 255)
    ensures groups == {"update"} ==>
      (PropertyPasses(TitleRules, obj, Title, groups, lib) <==> ShortOrNil(Get(obj, Title), 255))
  {
    assert CheckOf(TitleRules[0], groups);
    if groups == {"create"} {
      assert CheckOf(TitleRules[1], groups) && !GuardOf(TitleRules[2], groups);
    } else {
      assert !CheckOf(TitleRules[1], groups) && GuardOf(TitleRules[2], groups);
    }
  }

  lemma BodyPasses(obj: Object, groups: set<string>, lib: Library)
    requires TaskGroup(groups)
    ensures groups == {"create"} ==>
      (PropertyPasses(BodyRules, obj, Body, groups, lib) <==> !IsNil(Get(obj, Body)) && Get(obj, Body) != Text(""))
    ensures groups == {"update"} ==> PropertyPasses(BodyRules, obj, Body, groups, lib)
  {
    if groups == {"create"} {
      assert CheckOf(BodyRules[0], groups) && !GuardOf(BodyRules[1], groups);
    } else {
      assert !CheckOf(BodyRules[0], groups);
    }
  }

  /** Only an ungrouped `IsDateString`, which takes no part under a group, constrains a date. */
  lemma DatePasses(p: Key, obj: Object, groups: set<string>, lib: Library)
    requires TaskGroup(groups)
    ensures PropertyPasses(DateRules, obj, p, groups, lib)
  {
    assert forall i :: 0 <= i < |DateRules| ==> !CheckOf(DateRules[i], groups) by {
      assert !CheckOf(DateRules[0], groups) && !CheckOf(DateRules[1], groups) && !CheckOf(DateRules[2], groups);
    }
    NothingChecked(DateRules, obj, p, groups, lib);
  }

  lemma ReminderPasses(obj: Object, groups: set<string>, lib: Library)
    requires TaskGroup(groups)
    ensures PropertyPasses(ReminderRules, obj, EminderTime, groups, lib)
  {
    assert forall i :: 0 <= i < |ReminderRules| ==> !CheckOf(ReminderRules[i], groups) by {
      assert !CheckOf(ReminderRules[0], groups) && !CheckOf(ReminderRules[1], groups);
    }
    NothingChecked(ReminderRules, obj, EminderTime, groups, lib);
  }

  lemma CreatorPasses(obj: Object, groups: set<string>, lib: Library)
    requires TaskGroup(groups)
    ensures groups == {"create"} ==>
      (PropertyPasses(CreatorRules, obj, Creator, groups, lib) <==>
       Get(obj, Creator).Text? && lib.isUuid(Get(obj, Creator).text))
    ensures groups == {"update"} ==>
      (PropertyPasses(CreatorRules, obj, Creator, groups, lib) <==> UuidOrNil(Get(obj, Creator), lib))
  {
    assert CheckOf(CreatorRules[0], groups);
    if groups == {"create"} {
      assert !GuardOf(CreatorRules[1], groups);
    } else {
      assert GuardOf(CreatorRules[1], groups);
    }
  }

  lemma ExecutorPasses(obj: Object, groups: set<string>, lib: Library)
    ensures PropertyPasses(ExecutorRules, obj, Executor, groups, lib) <==> UuidOrNil(Get(obj, Executor), lib)
  {
    assert CheckOf(ExecutorRules[0], groups) && GuardOf(ExecutorRules[1], groups);
  }

  lemma ParentPasses(obj: Object, groups: set<string>, lib: Library)
    requires TaskGroup(groups)
    ensures PropertyPasses(ParentRules, obj, Parent, groups, lib)
  {
    assert forall i :: 0 <= i < |ParentRules| ==> !CheckOf(ParentRules[i], groups) by {
      assert !CheckOf(ParentRules[0], groups) && !CheckOf(ParentRules[1], groups);
    }
    NothingChecked(ParentRules, obj, Parent, groups, lib);
  }

  lemma CategoriesPasses(obj: Object, groups: set<string>, lib: Library)
    ensures PropertyPasses(CategoriesRules, obj, Categories, groups, lib) <==>
      CategoriesAccepted(Get(obj, Categories), lib)
  {
    assert CheckOf(CategoriesRules[0], groups) && CheckOf(CategoriesRules[1], groups);
    assert GuardOf(CategoriesRules[2], groups);
  }

  /** What the `create` validation accepts, property by property. */
  predicate CreateTaskAccepted(plain: Object, lib: Library)
  {
    Get(plain, Title).Text? && 1 <= |Get(plain, Title).text| <= 255 &&
    !IsNil(Get(plain, Body)) && Get(plain, Body) != Text("") &&
    Get(plain, Creator).Text? && lib.isUuid(Get(plain, Creator).text) &&
    UuidOrNil(Get(plain, Executor), lib) &&
    CategoriesAccepted(Get(plain, Categories), lib)
  }

  /** Reading a request body changes only `publishedAt` and `executionAt`. */
  lemma ReadTaskKeeps(plain: Object)
    ensures forall p :: p != PublishedAt && p != ExecutionAt ==> Get(ReadTask(plain), p) == Get(plain, p)
  {
  }

  /**
   * A new task passes exactly when its title is a string of 1 to 255
   * characters, its body neither nil nor empty, its creator a UUID, its
   * executor nil or a UUID and its categories nil or stored category ids.
   * `publishedAt`, `executionAt`, `eminderTime` and `parent` are not
   * checked: their decorators name no group and are not marked `always`.
   */
  lemma CreateTaskAccepts(plain: Object, lib: Library)
    ensures Validates(CreateTask, ReadTask(plain), {"create"}, lib) <==> CreateTaskAccepted(plain, lib)
  {
    var obj := ReadTask(plain);
    var groups := {"create"};
    CreateTaskByProperty(obj, groups, lib);
    ReadTaskKeeps(plain);
    TitlePasses(obj, groups, lib);
    BodyPasses(obj, groups, lib);
    CreatorPasses(obj, groups, lib);
    ExecutorPasses(obj, groups, lib);
    CategoriesPasses(obj, groups, lib);
  }

  /** Under either group, `CreateTaskDto` passes when its title, body, creator, executor and categories do. */
  lemma CreateTaskByProperty(obj: Object, groups: set<string>, lib: Library)
    requires TaskGroup(groups)
    ensures Validates(CreateTask, obj, groups, lib) <==>
      PropertyPasses(TitleRules, obj, Title, groups, lib) && PropertyPasses(BodyRules, obj, Body, groups, lib) &&
      PropertyPasses(CreatorRules, obj, Creator, groups, lib) && PropertyPasses(ExecutorRules, obj, Executor, groups, lib) &&
      PropertyPasses(CategoriesRules, obj, Categories, groups, lib)
  {
    CreateTaskProperties(obj, groups, lib);
    DatePasses(PublishedAt, obj, groups, lib);
    DatePasses(ExecutionAt, obj, groups, lib);
    ReminderPasses(obj, groups, lib);
    ParentPasses(obj, groups, lib);
  }

  /** `CreateTaskDto` passes exactly when each of its nine properties does. */
  lemma CreateTaskProperties(obj: Object, groups: set<string>, lib: Library)
    ensures Validates(CreateTask, obj, groups, lib) <==>
      PropertyPasses(TitleRules, obj, Title, groups, lib) && PropertyPasses(BodyRules, obj, Body, groups, lib) &&
      PropertyPasses(DateRules, obj, PublishedAt, groups, lib) && PropertyPasses(DateRules, obj, ExecutionAt, groups, lib) &&
      PropertyPasses(ReminderRules, obj, EminderTime, groups, lib) &&
      PropertyPasses(CreatorRules, obj, Creator, groups, lib) && PropertyPasses(ExecutorRules, obj, Executor, groups, lib) &&
      PropertyPasses(ParentRules, obj, Parent, groups, lib) && PropertyPasses(CategoriesRules, obj, Categories, groups, lib)
  {
    assert TaskText.Keys == {Title, Body} && TaskTiming.Keys == {PublishedAt, ExecutionAt, EminderTime};
    assert TaskRelations.Keys == {Creator, Executor, Parent, Categories};
    ValidatesUnion(TaskText, TaskTiming, obj, groups, lib);
    ValidatesUnion(TaskText + TaskTiming, TaskRelations, obj, groups, lib);
    TaskTextProperties(obj, groups, lib);
    TaskTimingProperties(obj, groups, lib);
    TaskRelationsProperties(obj, groups, lib);
  }

  lemma TaskTextProperties(obj: Object, groups: set<string>, lib: Library)
    ensures Validates(TaskText, obj, groups, lib) <==>
      PropertyPasses(TitleRules, obj, Title, groups, lib) && PropertyPasses(BodyRules, obj, Body, groups, lib)
  {
    ValidatesExtend(map[Title := TitleRules], Body, BodyRules, obj, groups, lib);
    ValidatesExtend(map[], Title, TitleRules, obj, groups, lib);
  }

  lemma TaskTimingProperties(obj: Object, groups: set<string>, lib: Library)
    ensures Validates(TaskTiming, obj, groups, lib) <==>
      PropertyPasses(DateRules, obj, PublishedAt, groups, lib) && PropertyPasses(DateRules, obj, ExecutionAt, groups, lib) &&
      PropertyPasses(ReminderRules, obj, EminderTime, groups, lib)
  {
    ValidatesExtend(map[PublishedAt := DateRules, ExecutionAt := DateRules], EminderTime, ReminderRules, obj, groups, lib);
    ValidatesExtend(map[PublishedAt := DateRules], ExecutionAt, DateRules, obj, groups, lib);
    ValidatesExtend(map[], PublishedAt, DateRules, obj, groups, lib);
  }

  lemma TaskRelationsProperties(obj: Object, groups: set<string>, lib: Library)
    ensures Validates(TaskRelations, obj, groups, lib) <==>
      PropertyPasses(CreatorRules, obj, Creator, groups, lib) && PropertyPasses(ExecutorRules, obj, Executor, groups, lib) &&
      PropertyPasses(ParentRules, obj, Parent, groups, lib) && PropertyPasses(CategoriesRules, obj, Categories, groups, lib)
  {
    var m := map[Creator := CreatorRules, Executor := ExecutorRules, Parent := ParentRules];
    ValidatesExtend(m, Categories, CategoriesRules, obj, groups, lib);
    ValidatesExtend(map[Creator := CreatorRules, Executor := ExecutorRules], Parent, ParentRules, obj, groups, lib);
    ValidatesExtend(map[Creator := CreatorRules], Executor, ExecutorRules, obj, groups, lib);
    ValidatesExtend(map[], Creator, CreatorRules, obj, groups, lib);
  }

  /** Whatever a new task's `publishedAt`, `executionAt`, `eminderTime` and `parent` hold, the `create` verdict is the same. */
  lemma CreateIgnoresUngrouped(plain: Object, lib: Library)
    ensures Validates(CreateTask, ReadTask(plain), {"create"}, lib) <==>
      Validates(CreateTask, ReadTask(plain - {PublishedAt, ExecutionAt, EminderTime, Parent}), {"create"}, lib)
  {
    var bare := plain - {PublishedAt, ExecutionAt, EminderTime, Parent};
    CreateTaskAccepts(plain, lib);
    CreateTaskAccepts(bare, lib);
    UngroupedNotRead(plain, lib);
  }

  lemma UngroupedNotRead(plain: Object, lib: Library)
    ensures CreateTaskAccepted(plain - {PublishedAt, ExecutionAt, EminderTime, Parent}, lib) == CreateTaskAccepted(plain, lib)
  {
    var bare := plain - {PublishedAt, ExecutionAt, EminderTime, Parent};
    assert Get(bare, Title) == Get(plain, Title) && Get(bare, Body) == Get(plain, Body);
    assert Get(bare, Creator) == Get(plain, Creator) && Get(bare, Executor) == Get(plain, Executor);
    assert Get(bare, Categories) == Get(plain, Categories);
  }

  /* ---------------- UpdateTaskDto (task.dto.ts:204-212) ---------------- */

  const IdRules: seq<Decl> :=
    [ InGroup(Constraint(Uuid), "update"),                // :209
      InGroup(Constraint(IsDefined), "update") ]          // :210

  /** `PartialType(CreateTaskDto)` with an `id` of its own (:205). */
  const UpdateTask: Decorators := Partial(CreateTask)[Id := IdRules]

  /** What the `update` validation accepts, property by property. */
  predicate UpdateTaskAccepted(plain: Object, lib: Library)
  {
    Get(plain, Id).Text? && lib.isUuid(Get(plain, Id).text) &&
    ShortOrNil(Get(plain, Title), 255) &&
    UuidOrNil(Get(plain, Creator), lib) &&
    UuidOrNil(Get(plain, Executor), lib) &&
    CategoriesAccepted(Get(plain, Categories), lib)
  }

  lemma IdPasses(obj: Object, lib: Library)
    ensures PropertyPasses(IdRules, obj, Id, {"update"}, lib) <==> Get(obj, Id).Text? && lib.isUuid(Get(obj, Id).text)
  {
    assert CheckOf(IdRules[0], {"update"}) && CheckOf(IdRules[1], {"update"});
  }

  /** Under `update`, the `IsOptional()` that `PartialType` adds names no group and takes no part. */
  lemma PartialPasses(p: Key, obj: Object, lib: Library)
    requires p in CreateTask
    ensures PropertyPasses(UpdateTask[p], obj, p, {"update"}, lib) <==> PropertyPasses(CreateTask[p], obj, p, {"update"}, lib)
  {
    InactiveAppendIgnored(CreateTask[p], Plain(Conditional(Optional)), obj, p, {"update"}, lib);
  }

  /**
   * A task update passes exactly when its id is a UUID, its title nil or a
   * string of at most 255 characters, its creator and executor nil or UUIDs,
   * and its categories nil or stored category ids; the body may be anything,
   * even empty, and the dates, reminder and parent are not checked.
   */
  lemma UpdateTaskAccepts(plain: Object, lib: Library)
    ensures Validates(UpdateTask, ReadTask(plain), {"update"}, lib) <==> UpdateTaskAccepted(plain, lib)
  {
    var obj := ReadTask(plain);
    var groups := {"update"};
    UpdateTaskByProperty(obj, lib);
    CreateTaskByProperty(obj, groups, lib);
    ReadTaskKeeps(plain);
    IdPasses(obj, lib);
    TitlePasses(obj, groups, lib);
    BodyPasses(obj, groups, lib);
    CreatorPasses(obj, groups, lib);
    ExecutorPasses(obj, groups, lib);
    CategoriesPasses(obj, groups, lib);
  }

  /** `UpdateTaskDto` passes when its `id` does and the inherited properties pass as `CreateTaskDto`'s would. */
  lemma UpdateTaskByProperty(obj: Object, lib: Library)
    ensures Validates(UpdateTask, obj, {"update"}, lib) <==>
      PropertyPasses(IdRules, obj, Id, {"update"}, lib) && Validates(CreateTask, obj, {"update"}, lib)
  {
    assert Id !in CreateTask;
    assert UpdateTask.Keys == CreateTask.Keys + {Id};
    forall p | p in CreateTask
      ensures PropertyPasses(UpdateTask[p], obj, p, {"update"}, lib) <==> PropertyPasses(CreateTask[p], obj, p, {"update"}, lib)
    {
      PartialPasses(p, obj, lib);
    }
  }

  /* ---------------- CreatByUserIdsDto (task.dto.ts:214-233) ---------------- */

  const IdsRules: seq<Decl> :=
    [ Decl(Constraint(Uuid), {}, None, true),             // :218-221
      Decl(Constraint(IsDefined), {}, None, true) ]       // :222-225
  const TaskRules: seq<Decl> :=
    [ Plain(Constraint(Uuid)),                            // :231
      Plain(Constraint(IsDefined)) ]                      // :232
  const CreatByUserIds: Decorators := map[Ids := IdsRules, Task := TaskRules]

  /** The instance built from a request body: `ids` starts as an empty array (:226). */
  function ReadCreatByUserIds(plain: Object): Object
  {
    if Ids in plain then plain else plain[Ids := Items([])]
  }

  /** An `ids` value the validator accepts: an array of UUIDs, or a single UUID. */
  predicate IdsAccepted(v: Value, lib: Library)
  {
    (v.Items? && forall i :: 0 <= i < |v.items| ==> v.items[i].Text? && lib.isUuid(v.items[i].text)) ||
    (v.Text? && lib.isUuid(v.text))
  }

  /**
   * The request passes exactly when `task` is a UUID and `ids`, when sent, is
   * an array of UUIDs or a single UUID; an absent `ids` is the empty array
   * and passes.
   */
  lemma CreatByUserIdsAccepts(plain: Object, lib: Library)
    ensures Validates(CreatByUserIds, ReadCreatByUserIds(plain), {}, lib) <==>
      (Ids !in plain || IdsAccepted(plain[Ids], lib)) &&
      Get(plain, Task).Text? && lib.isUuid(Get(plain, Task).text)
  {
    var obj := ReadCreatByUserIds(plain);
    assert CreatByUserIds.Keys == {Ids, Task};
    assert CheckOf(IdsRules[0], {}) && CheckOf(IdsRules[1], {});
    assert CheckOf(TaskRules[0], {}) && CheckOf(TaskRules[1], {});
    assert Get(obj, Task) == Get(plain, Task);
    assert Ids !in plain ==> Get(obj, Ids) == Items([]);
  }
}
