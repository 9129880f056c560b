# lark_todo task and comment core, modelled in Dafny

This project models the content core of the lark_todo task manager, a NestJS
service on TypeORM. It covers:

- **Nested comments.** A task's comments form a forest through their parent
  links. The repository finds the root comments and materialises each root's
  descendant tree. `toFlatTrees` flattens the forest depth-first and stamps
  each record with its depth. The service creates comments (a parent must
  belong to the same task), deletes them (descendants go with them through the
  parent foreign key) and builds the flattened listing that feeds pagination.
- **The task trash lifecycle.** `delete` removes tasks for good or moves them to
  the trash. `restore` takes them out of the trash and lists them again.
  `detail` reports a missing task.
- **The task list query.** `buildListQuery` combines trash visibility, the
  publish flag, the ordering switch and a category scope. The scope is the
  category followed by its flattened descendants.
- **Task creation.** This covers the defaults for executor, categories and
  parent, the insert hook that assigns `"t1000" + count` as the serial number
  and flags root tasks, and the first comment posted on the new task.
- **Request validation.** `QueryTaskDto`, `CreateTaskDto`, `UpdateTaskDto`,
  `CreatByUserIdsDto`, `QueryCommentDto`, `QueryCommentTreeDto` and
  `CreateCommentDto` are modelled as decorator lists. A small model of
  class-validator decides which decorators take part and whether an object
  passes.

Files and modules:

| file | module | what it holds |
|---|---|---|
| wrappers.dfy | Wrappers | `Option`, `Result`, `Nullable` (undefined / null / value), `Id` |
| tree_flatten.dfy | TreeFlatten | the `Tree` / `Flat` datatypes, `Flatten` and the imperative `ToFlatTrees`, pre-order and depth lemmas |
| comment_repository.dfy | CommentRepository | the comment table, `where` / `andWhere` clause lists, `findRoots`, descendant-tree materialisation, `findTrees` |
| comment_service.dfy | CommentService | `getParent`, `create`, `delete` with cascade, the `findTrees` task filter, and the `CommentStore` class with its paginate loop |
| task_entity.dfy | TaskEntity | the stored task row |
| task_query.dfy | TaskQuery | the task list builder: trash mode, publish flag, `queryOrderBy`, category scope |
| task_service.dfy | TaskService | `detail`, `create`, `delete`, `restore`, the list, and the `TaskStore` class |
| task_subscriber.dfy | TaskSubscriber | the `beforeInsert` hook on a `TaskDraft` object |
| validation.dfy | Validation | values after class-transformer, decorators as data, how class-validator applies them |
| task_dto.dfy | TaskDto | the task DTOs and what each accepts |
| comment_dto.dfy | CommentDto | the comment DTOs and what each accepts |

### Modelling choices

- **Query builders are data.** TypeORM's `where` replaces every earlier
  condition; `andWhere` and `andWhereInIds` conjoin one more. `orderBy`
  replaces the ordering; `addOrderBy` appends to it. Both comment and task
  queries are modelled with exactly these semantics, and each kind of query
  has lemmas stating them (`WhereReplaces`, `AndWhereConjoins`).
- **Comment rows are identified by table position.** Table order is insertion
  order. A valid table has:
  - unique ids;
  - every parent link naming an earlier row of the same task.

  `create` keeps both properties and so does the cascading `delete`. Children
  are attached by parent link and ordered by `createdAt` ascending, with ties
  in table order. TypeORM's materialized-path storage is abstracted to this
  rule.
- **Soft deletion.** A task is in the trash when its `deletedAt` is set.
  Queries hide such rows unless `withDeleted` is used. `repository.count()`,
  which the insert hook reads, counts only rows not in the trash.
- **Validation.** It follows class-validator's documented rules:
  - A decorator takes part when it is marked `always`, when no groups are
    given, or when it shares a group with the validation.
  - Under `create` or `update`, decorators that name no group are skipped.
  - When a conditional decorator (`IsOptional`, `ValidateIf`) that takes part
    fails, the property is not checked.
  - `each` applies a constraint to every element of an array.
  - `@Transform` runs only on keys that were sent, so `page = 1` and
    `limit = 10` keep their initializers when absent.
  - `PartialType` adds an ungrouped `IsOptional`.
  - `PickType` keeps only the picked properties.

  The groups are the ones `DtoValidation` names: `create` for `CreateTaskDto`,
  `update` for `UpdateTaskDto`, none for the others.
- **Library checks are parameters.** A `Library` value supplies UUID and date
  formats, the `IsDataExist` lookups, lodash `toNumber`, the `toBoolean`
  helper and the string values of `SelectTrashMode`. Generated ids and
  timestamps are parameters too.
- **Where the code departs from the obvious reading:**
  - TypeORM's `where` replaces earlier conditions, so the filters written in
    `buildListQuery` and in the `findTrees` hook are not conjoined; see
    Findings.
  - `repository.count()` skips trashed rows, so a serial number can repeat
    after a soft delete (`TaskService.SerialRepeatsAfterTrash`).
  - `executionAt`'s `ValidateIf` tests `publishedAt` (task.dto.ts:132), just
    like `publishedAt`'s own. It is modelled as written. Neither decorator
    names a group, so neither takes part under `create` or `update` and the
    slip has no effect.

## Model

| member | source | states |
|---|---|---|
| TreeFlatten.Flatten | src/modules/content/repositories/comment.repository.ts:118-127 | the flattened forest has exactly as many records as the forest has nodes |
| TreeFlatten.ToFlatTrees | src/modules/content/repositories/comment.repository.ts:118-127 | the loop that pushes each node and then the flattening of its children produces exactly the pre-order flattening |
| TreeFlatten.FlattenRecords | src/modules/content/repositories/comment.repository.ts:118-127 | every node of the forest is emitted exactly once (the multiset of emitted records is the multiset of nodes) |
| TreeFlatten.FlattenAppend | src/modules/content/repositories/comment.repository.ts:120-126 | flattening a concatenation of forests is the concatenation of their flattenings |
| TreeFlatten.FlattenBlock | src/modules/content/repositories/comment.repository.ts:120-125 | the i-th top-level subtree is one contiguous block placed after all earlier siblings' blocks: sibling order is kept |
| TreeFlatten.FlattenTopLevel | src/modules/content/repositories/comment.repository.ts:118-125 | the records at the starting depth are exactly the top-level nodes, in sibling order |
| TreeFlatten.FlattenDeeper | src/modules/content/repositories/comment.repository.ts:121-125 | no record is shallower than the depth argument |
| TreeFlatten.FlattenSteps | src/modules/content/repositories/comment.repository.ts:121-125 | the first record has the starting depth and each next record is at most one level deeper than the one before |
| TreeFlatten.FlattenAtPath | src/modules/content/repositories/comment.repository.ts:121-125 | the node reached by a path of n sibling indices is emitted with depth `depth + n - 1`, at its pre-order position |
| TreeFlatten.AncestorFirst | src/modules/content/repositories/comment.repository.ts:120-125 | a node is emitted before each of its descendants, and all of them come before the end of its own block (before its next sibling) |
| CommentRepository.WhereReplaces | src/modules/content/services/comment.service.ts:34 | after `where(c)` a comment is admitted exactly when `c` holds, whatever came before |
| CommentRepository.AndWhereConjoins | src/modules/content/services/comment.service.ts:48 | after `andWhere(c)` a comment is admitted exactly when the earlier conditions and `c` hold |
| CommentRepository.SortByCreated | src/modules/content/repositories/comment.repository.ts:28 | the result is a permutation of the input positions ordered by `createdAt` ascending |
| CommentRepository.InsertByCreated | src/modules/content/repositories/comment.repository.ts:28 | inserting a position into a creation-ordered list adds exactly that position and keeps the order |
| CommentRepository.SortOfOrderedIsIdentity | src/modules/content/repositories/comment.repository.ts:28 | positions already in creation order are left as they are |
| CommentRepository.Kids | src/modules/content/repositories/comment.repository.ts:82-111 | the children attached below a comment are exactly the later admitted rows whose parent link names it, in creation order |
| CommentRepository.Materialize | src/modules/content/repositories/comment.repository.ts:82-111 | the materialised tree has the comment at its root and one child subtree per attached child, in order |
| CommentRepository.SubtreeChildren | src/modules/content/repositories/comment.repository.ts:99-108 | in a valid table, the children of a comment's whole subtree are exactly the comments whose parent link names it |
| CommentRepository.FindRoots | src/modules/content/repositories/comment.repository.ts:46-59 | the roots are exactly the rows the root query, as changed by the caller's hook, admits, ordered by creation time |
| CommentRepository.FindTrees | src/modules/content/repositories/comment.repository.ts:35-40 | one tree per root, in root order, each the root's descendant tree under the same hook and headed by that root |
| CommentRepository.InTreeClauseRedundant | src/modules/content/repositories/comment.repository.ts:87-90 | the descendants builder's tree-range condition prunes nothing below the node |
| CommentRepository.TaskClauseKeepsSubtree | src/modules/content/services/comment.service.ts:45-59 | a task condition never prunes the subtree of a comment of that task |
| CommentRepository.DescendantsTreeIsSubtree | src/modules/content/repositories/comment.repository.ts:82-111 | with no hook, or with the comment's own task added by `where` or `andWhere`, the descendant tree is the comment's whole subtree |
| CommentService.FindIndex | src/modules/content/services/comment.service.ts:112-115 | the position of the row with the id, or none exactly when no row has it |
| CommentService.GetParent | src/modules/content/services/comment.service.ts:107-121 | undefined when `current === id` or `id` is undefined; null when `id` is null; otherwise the position of the row with that id (the result is defined exactly in this case), and `ParentNotFound` exactly when there is none |
| CommentService.CreateOutcome | src/modules/content/services/comment.service.ts:71-83 | succeeds exactly when a named parent exists in the same task and the task is visible; `ParentNotFound` exactly when a named parent does not exist; `ParentInOtherTask` exactly when it exists in another task; `TaskNotFound` exactly when the parent is fine and the task is not visible; on success the comment has the new id, the body, task, time and parent, and the creator only when the user exists, otherwise null |
| CommentService.CreateKeepsValid | src/modules/content/services/comment.service.ts:72-81 | storing a created comment keeps ids unique and every parent link pointing to an earlier comment of the same task |
| CommentService.DoomedIsListedOrBelow | src/modules/content/entities/comment.entity.ts:71-72 | a comment is removed exactly when it is listed or lies below a listed comment (the `ON DELETE CASCADE` parent key) |
| CommentService.Listed | src/modules/content/services/comment.service.ts:90 | the rows found are exactly the rows whose id is listed |
| CommentService.KeptIsValid | src/modules/content/services/comment.service.ts:89-92 | after a delete and its cascade, ids are still unique and no surviving comment has lost its parent |
| CommentService.UnknownIdsKeepAll | src/modules/content/services/comment.service.ts:89-92 | ids that match no comment change nothing and find nothing |
| CommentService.TaskRootsAreRoots | src/modules/content/services/comment.service.ts:45-52 | every root the task hook lets through has no parent and, with a task, belongs to it |
| CommentService.FindCommentTrees | src/modules/content/services/comment.service.ts:31-37 | every returned tree is headed by a root comment, of the requested task when one is given |
| CommentService.FindCommentTreesComplete | src/modules/content/services/comment.service.ts:31-37 | every root comment of the task (of any task without one) heads a returned tree, and that tree is its whole subtree |
| CommentService.AsWrittenListsReplies | src/modules/content/services/comment.service.ts:34 | as written, with a task every reply of that task is returned as a tree of its own |
| CommentService.CommentStore.Create | src/modules/content/services/comment.service.ts:71-83 | the store grows by the created comment exactly when creation succeeds and is unchanged on error; the table stays valid |
| CommentService.CommentStore.Delete | src/modules/content/services/comment.service.ts:89-92 | the found comments are returned; the table keeps exactly the comments not listed and not below a listed one, in order, and stays valid |
| CommentService.CommentStore.Listing | src/modules/content/services/comment.service.ts:43-62 | the index loop over the roots, followed by `toFlatTrees`, yields the flattening of the task-filtered trees in root order |
| CommentService.ListingShape | src/modules/content/services/comment.service.ts:53-63 | the listing is as long as the total size of the trees, each tree is the whole subtree of its root, and the depth-0 records are the roots in order |
| TaskQuery.WhereReplaces | src/modules/content/services/task.service.ts:215-220 | after `where(c)` a task is admitted exactly when `c` holds of it (and, without `withDeleted`, it is not in the trash): earlier conditions are gone |
| TaskQuery.AndWhereConjoins | src/modules/content/services/task.service.ts:190-192 | after `andWhere(c)` a task must pass the earlier conditions and `c` |
| TaskQuery.QueryOrderByKeys | src/modules/content/services/task.service.ts:236-252 | the four named orders give their single descending key; any other value gives serial number then publish time ascending (creation time is discarded); filters are untouched |
| TaskQuery.QueryOrderByIntended | src/modules/content/services/task.service.ts:246-250 | the default order is creation time, then the two keys the written code keeps; the named orders are unchanged |
| TaskQuery.CategoryScope | src/modules/content/services/task.service.ts:259-263 | the scope lists the category first, and it has one id per node of the category tree |
| TaskQuery.CategoryScopeNodes | src/modules/content/services/task.service.ts:260-263 | the scope holds every category of the tree, each as often as it occurs, and nothing else |
| TaskQuery.ListAdmits | src/modules/content/services/task.service.ts:202-229 | with the filters conjoined, a task is listed exactly when it passes the trash mode (NONE: active only; ALL: all; ONLY: trashed only), the publish flag, the category scope and the caller's condition |
| TaskQuery.OnlyTrashLostAsWritten | src/modules/content/services/task.service.ts:209-221 | as written, `trashed=ONLY` with a publish flag lists exactly the tasks matching the flag, trashed or not |
| TaskQuery.CategoryReplacesFiltersAsWritten | src/modules/content/services/task.service.ts:209-226 | as written, with a category a task is listed exactly when it is in the category scope and, unless trashed rows were requested, not in the trash: the publish flag and the trashed-only condition are lost |
| TaskQuery.NoOptionsAgree | src/modules/content/services/task.service.ts:190-192 | with no options the written and the conjoining builders admit the same tasks |
| TaskService.Select | src/modules/content/services/task.service.ts:183-186 | a query returns exactly the rows of the table it admits, and never more rows than the table has |
| TaskService.IdQueries | src/modules/content/services/task.service.ts:163-166 | an id lookup sees active rows only; with `withDeleted` it sees every listed row; adding `deletedAt is not null` leaves only the trashed ones |
| TaskService.CountActive | src/modules/content/subscribers/task.subscriber.ts:24 | the count the hook reads is the number of rows not in the trash |
| TaskService.Detail | src/modules/content/services/task.service.ts:62-69 | an active row with the id, or `NotFound` exactly when there is none |
| TaskService.NewTask | src/modules/content/services/task.service.ts:75-95 | `NotFound` exactly when a named parent is missing; otherwise a new active row with serial `t1000` + active count, root flag set exactly without a parent, creator kept only when the user exists, executor defaulting to the creator, and the categories that exist among those named |
| TaskService.VisibleIds | src/modules/content/services/comment.service.ts:98-100 | the task ids `findOneOrFail` finds are those of rows not in the trash |
| TaskService.FirstCommentStored | src/modules/content/services/task.service.ts:97-101 | the first comment names no parent and no creator, so creating it succeeds whenever its task exists and yields a comment with no parent and no creator |
| TaskService.Found | src/modules/content/services/task.service.ts:163-166 | the rows found with `withDeleted` are exactly the rows whose id is listed, trashed or not |
| TaskService.ListTasks | src/modules/content/services/task.service.ts:52-55 | the rows listed are exactly the rows passing trash mode, publish flag and category scope |
| TaskService.Directs | src/modules/content/services/task.service.ts:168 | the rows removed for good under `trash` are exactly the listed rows already in the trash |
| TaskService.Softs | src/modules/content/services/task.service.ts:169-172 | the soft-removed rows come back stamped with the deletion time |
| TaskService.TrashDeletePartitions | src/modules/content/services/task.service.ts:167-173 | under `trash`, each listed row is in exactly one of the two groups (trashed: removed; active: moved to the trash), and the groups together are as many as the listed rows |
| TaskService.TrashTwice | src/modules/content/services/task.service.ts:167-173 | two successive deletes with `trash` take an active task to the trash and then out of the table; it never skips the trash |
| TaskService.AfterTrashAllTrashed | src/modules/content/services/task.service.ts:167-173 | after a delete with `trash`, every listed row left is in the trash |
| TaskService.HardDeleteRemovesListed | src/modules/content/services/task.service.ts:175 | without `trash`, every listed row leaves the table, trashed or not, and every other row stays |
| TaskService.UnknownIdsIgnored | src/modules/content/services/task.service.ts:163-175 | ids that match no row change nothing and nothing is returned |
| TaskService.AfterDeleteKeepsIds | src/modules/content/services/task.service.ts:162-176 | deleting keeps ids unique and introduces no new id |
| TaskService.IdsOf | src/modules/content/services/task.service.ts:187 | one id per row, and exactly the ids of the rows |
| TaskService.Restored | src/modules/content/services/task.service.ts:189 | listed rows leave the trash; every other row is unchanged |
| TaskService.RestoreIdempotent | src/modules/content/services/task.service.ts:189 | restoring twice is restoring once |
| TaskService.RestoredKeepsIds | src/modules/content/services/task.service.ts:189 | restoring keeps ids unique |
| TaskService.RestoreOutcome | src/modules/content/services/task.service.ts:182-194 | the table after restore is the restored table; the rows returned are exactly its listed rows, none in the trash |
| TaskService.RestoredListed | src/modules/content/services/task.service.ts:190-193 | the list query built with the found ids returns exactly the listed rows of the restored table |
| TaskService.RestoreQueryAdmits | src/modules/content/services/task.service.ts:190-192 | the restore list query admits exactly the untrashed rows whose id was found |
| TaskService.RestoreEmptyFailsAsWritten | src/modules/content/services/task.service.ts:187-189 | as written, restoring ids that match no row fails on the empty criteria; as intended it returns nothing and changes nothing |
| TaskService.PrepareTask | src/modules/content/services/task.service.ts:75-95 | the user, executor, category and parent lookups followed by the insert hook on a draft produce exactly `NewTask` |
| TaskService.PostFirstComment | src/modules/content/services/task.service.ts:97-101 | the comment store gains exactly the first comment, with no parent and no creator, and stays valid |
| TaskService.TaskStore.Create | src/modules/content/services/task.service.ts:75-111 | on a missing parent nothing changes; otherwise the row is appended; a missing creator then fails before any comment is posted; with a creator the first comment names its user name |
| TaskService.TaskStore.Delete | src/modules/content/services/task.service.ts:162-176 | the table becomes `AfterDelete` of the old one (listed rows removed, or under `trash` moved to the trash or removed when already there), the removed rows are returned, and ids stay unique |
| TaskService.TaskStore.Restore | src/modules/content/services/task.service.ts:182-194 | the new table and the returned rows are `RestoreOutcome` of the old table |
| TaskService.SerialRepeatsAfterTrash | src/modules/content/subscribers/task.subscriber.ts:23-25 | trashing an active task lowers the active count by one, so the next generated serial is the one already generated at the lower count |
| TaskSubscriber.Decimal | src/modules/content/subscribers/task.subscriber.ts:24 | a non-empty string of decimal digits with no leading zero |
| TaskSubscriber.DecimalRoundTrip | src/modules/content/subscribers/task.subscriber.ts:24 | reading the digits back gives the count |
| TaskSubscriber.SerialFor | src/modules/content/subscribers/task.subscriber.ts:24 | the serial is `t1000` followed by decimal digits |
| TaskSubscriber.SerialForInjective | src/modules/content/subscribers/task.subscriber.ts:24 | two serials are equal exactly when their counts are |
| TaskSubscriber.AssignedSerial | src/modules/content/subscribers/task.subscriber.ts:23-26 | a present serial is kept; a missing one becomes the generated serial |
| TaskSubscriber.RootFlag | src/modules/content/subscribers/task.subscriber.ts:27-29 | the flag is set exactly when it was set already or there is no parent: it is never cleared |
| TaskSubscriber.BeforeInsert | src/modules/content/subscribers/task.subscriber.ts:21-30 | only the serial number and the root flag of the entity change, to `AssignedSerial` and `RootFlag` |
| Validation.NullFromText | src/modules/content/dtos/task.dto.ts:120 | the text `'null'` becomes null; every other value passes through |
| Validation.ConstraintHolds | src/modules/content/dtos/task.dto.ts:187-196 | with `each`, the check holds of every element of an array; otherwise of the value itself |
| Validation.CanValidate | src/modules/content/dtos/task.dto.ts:117-119 | a property is validated exactly when every condition on it that takes part holds |
| Validation.ChecksPass | src/modules/content/dtos/task.dto.ts:97-103 | exactly when every constraint on the property that takes part holds |
| Validation.NothingChecked | src/modules/content/dtos/task.dto.ts:179-181 | a property none of whose constraints takes part passes, whatever its value |
| Validation.InactiveAppendIgnored | src/modules/content/dtos/task.dto.ts:205 | a decorator that takes no part changes no verdict when appended |
| Validation.Pick | src/modules/content/dtos/comment.dto.ts:62 | the picked class has exactly the kept properties, with their decorators |
| Validation.Partial | src/modules/content/dtos/task.dto.ts:205 | every property keeps its decorators plus one ungrouped `IsOptional` |
| Validation.PagePasses | src/modules/content/dtos/task.dto.ts:72-88 | `page` / `limit` pass exactly when not sent or a finite number of at least 1 after `toNumber` |
| Validation.OptionalUuidPasses | src/modules/content/dtos/comment.dto.ts:29-31 | an `always` `IsUUID` with `IsOptional` accepts nil or a UUID |
| TaskDto.EnumPasses | src/modules/content/dtos/task.dto.ts:34-36 | an optional enumeration accepts nil or one of its string values |
| TaskDto.CategoryPasses | src/modules/content/dtos/task.dto.ts:41-46 | the query `category` accepts nil or the UUID of a stored category |
| TaskDto.IsPublishedPasses | src/modules/content/dtos/task.dto.ts:51-54 | `isPublished` accepts nil or a boolean |
| TaskDto.QueryTaskAccepts | src/modules/content/dtos/task.dto.ts:32-89 | a task query passes exactly when `trashed` and `orderBy` are nil or enumeration values, `category` nil or a stored category id, `isPublished` nil or boolean after `toBoolean`, and `page` / `limit` not sent or at least 1 |
| TaskDto.ReadQueryTaskKeeps | src/modules/content/dtos/task.dto.ts:51-88 | reading a query changes only `isPublished` (`toBoolean`), `page` and `limit` (`toNumber`, defaults 1 and 10) |
| TaskDto.OrderValue | src/modules/content/constants.ts:4-10 | every order type has one of the five string values |
| TaskDto.DecodeOrder | src/modules/content/constants.ts:4-10 | a string decodes exactly when it is one of the five values, and back to the type with that value |
| TaskDto.OrderValueRoundTrip | src/modules/content/constants.ts:4-10 | decoding the value of an order type gives the order type back |
| TaskDto.QueryOptions | src/modules/content/services/task.service.ts:207 | the list options read from an accepted query: each option is set exactly when sent and carries the decoded value |
| TaskDto.EmptyQueryAccepted | src/modules/content/dtos/task.dto.ts:72-88 | an empty query passes with page 1, limit 10 and no list option set |
| TaskDto.TitlePasses | src/modules/content/dtos/task.dto.ts:97-103 | under `create` the title must be 1 to 255 characters; under `update` nil or at most 255 |
| TaskDto.BodyPasses | src/modules/content/dtos/task.dto.ts:106-108 | under `create` the body must be non-nil and non-empty; under `update` anything passes |
| TaskDto.DatePasses | src/modules/content/dtos/task.dto.ts:117-134 | under either group `publishedAt` / `executionAt` always pass: their only constraint names no group |
| TaskDto.ReminderPasses | src/modules/content/dtos/task.dto.ts:144-150 | under either group `eminderTime` always passes |
| TaskDto.CreatorPasses | src/modules/content/dtos/task.dto.ts:157-162 | under `create` the creator must be a UUID; under `update` nil or a UUID |
| TaskDto.ExecutorPasses | src/modules/content/dtos/task.dto.ts:169-174 | the executor accepts nil or a UUID |
| TaskDto.ParentPasses | src/modules/content/dtos/task.dto.ts:179-181 | under either group the parent is not checked |
| TaskDto.CategoriesPasses | src/modules/content/dtos/task.dto.ts:187-198 | categories accept nil, an array of stored category UUIDs, or one such id |
| TaskDto.ReadTaskKeeps | src/modules/content/dtos/task.dto.ts:120-133 | reading a body changes only `publishedAt` and `executionAt` |
| TaskDto.CreateTaskProperties | src/modules/content/dtos/task.dto.ts:94-199 | under any groups, `CreateTaskDto` passes exactly when each of its nine properties does |
| TaskDto.CreateTaskByProperty | src/modules/content/dtos/task.dto.ts:94-199 | under either group only title, body, creator, executor and categories decide |
| TaskDto.CreateTaskAccepts | src/modules/content/dtos/task.dto.ts:94-199 | a new task passes exactly when the title is 1 to 255 characters, the body non-empty, the creator a UUID, the executor nil or a UUID, and the categories nil or stored ids |
| TaskDto.CreateIgnoresUngrouped | src/modules/content/dtos/task.dto.ts:113-181 | dropping `publishedAt`, `executionAt`, `eminderTime` and `parent` never changes the `create` verdict |
| TaskDto.IdPasses | src/modules/content/dtos/task.dto.ts:209-211 | under `update` the id must be a UUID |
| TaskDto.PartialPasses | src/modules/content/dtos/task.dto.ts:205 | under `update` each inherited property passes exactly as in `CreateTaskDto` |
| TaskDto.UpdateTaskByProperty | src/modules/content/dtos/task.dto.ts:204-212 | `UpdateTaskDto` passes exactly when the id passes and the inherited properties pass |
| TaskDto.UpdateTaskAccepts | src/modules/content/dtos/task.dto.ts:204-212 | an update passes exactly when the id is a UUID, the title nil or at most 255, creator and executor nil or UUIDs, and categories nil or stored ids |
| TaskDto.CreatByUserIdsAccepts | src/modules/content/dtos/task.dto.ts:214-234 | passes exactly when `task` is a UUID and `ids`, when sent, is an array of UUIDs or one UUID; absent `ids` default to `[]` |
| CommentDto.QueryCommentAccepts | src/modules/content/dtos/comment.dto.ts:25-56 | a comment query passes exactly when `task` is nil or a UUID and `page` / `limit` are not sent or at least 1 |
| CommentDto.QueryCommentDefaults | src/modules/content/dtos/comment.dto.ts:39-55 | without `page` and `limit` the instance has 1 and 10 and passes whenever `task` does |
| CommentDto.QueryCommentTreeAccepts | src/modules/content/dtos/comment.dto.ts:62 | the tree query has only `task` and passes exactly when it is nil or a UUID |
| CommentDto.BodyPasses | src/modules/content/dtos/comment.dto.ts:69-72 | the body must be a string of 1 to 1000 characters |
| CommentDto.TaskPasses | src/modules/content/dtos/comment.dto.ts:78-80 | the task must be a UUID |
| CommentDto.ParentPasses | src/modules/content/dtos/comment.dto.ts:86-91 | a falsy parent is not checked; any other parent must be the UUID of a stored comment |
| CommentDto.CreateCommentAccepts | src/modules/content/dtos/comment.dto.ts:68-104 | a new comment passes exactly when body, task, parent (after `'null'` became null) and creator pass as above |
| CommentDto.NullTextParentAccepted | src/modules/content/dtos/comment.dto.ts:88-90 | a parent sent as `'null'` becomes null and passes unchecked |

## Left out

- Pagination windows: `paginate` and `manualPaginate` (task.service.ts:54, comment.service.ts:63) live in a database helper module that is not part of this model. The model stops at the list handed to them.
- TaskService.ListTasks: rows come back in table order. The ORDER BY keys are modelled as data (`TaskQuery.QueryOrderBy`) but not applied, because the collation of the ordering columns is the database's.
- TreeFlatten.ToFlatTrees: works on values. It does not model the in-place update of the caller's entities (`depth` set, `children` unset) or aliasing between them.
- CommentRepository.Materialize: TypeORM's materialized-path storage, `createDescendantsQueryBuilder` and `buildChildrenEntityTree` are library code. They are abstracted as "children are the rows whose parent link names the node, in creation order".
- `findDescendants` (comment.repository.ts:66-75) has no caller and orders by an alias that does not exist.
- `update` and `creatByUserIds` of the task service (task.service.ts:113-155) are not modelled; only their request DTOs are. `update` goes through `relation().addAndRemove` and a partial `repository.update`, both library code. `creatByUserIds` fires unawaited `create` calls.
- The historical record written by `create` (task.service.ts:104-108) goes through a thin CRUD service that is not part of this model.
- The category service and category repository are not part of this model. A category's descendant tree is a parameter of the list query.
- The task-to-comment `ON DELETE CASCADE` (comment.entity.ts:46) is not modelled: deleting a task leaves the comment table as it was.
- Concurrency: `Promise.all` in `findTrees` is modelled as sequential processing. The race between `count()` and the insert in the insert hook is not modelled.
- Library checks are parameters: UUID and date formats, `IsDataExist`, lodash `toNumber`, the `toBoolean` helper and the string values of `SelectTrashMode`.
- String lengths count every character. validator.js `isLength`, behind `MaxLength` and `Length`, counts a surrogate pair once, as the model counts one character, but does not count the variation selectors U+FE0E and U+FE0F, which the model counts.
- `DtoValidation`'s whitelisting options are not part of this model. Keys a class does not declare are ignored.
- Dates are opaque strings or integer ordering keys.
- `src/modules/restful/dtos/delete.dto.ts` is not part of this model.
- TaskService.DeleteResult, TaskService.TaskStore.Delete, CommentService.CommentStore.Delete: return the removed rows with their ids. TypeORM's `remove` (task.service.ts:171,175; comment.service.ts:91) clears the primary key of each entity it returns, so the source returns the rows removed for good without ids. The model keeps the ids so the returned rows can be compared with the table.
- TaskService.NewTask, TaskService.CreateTask, TaskEntity.Task: `eminderTime` is not modelled. `create` spreads the request into the saved row (task.service.ts:84), so a sent `eminderTime` is stored in its column (task.entity.ts:116-122). No modelled operation reads it.
- Storage failures, which the services propagate unchanged, are not modelled.

## Findings

| source | as written | input that shows it | evidently intended | confidence | as-written member | corrected member |
|---|---|---|---|---|---|---|
| src/modules/content/services/comment.service.ts:34 | `qb.where('task.id = :id')` replaces the `parent IS NULL` condition of `findRoots` (comment.repository.ts:56) | a task with a root comment r and a reply c to r: `findTrees({ task })` returns c as a tree of its own besides r's tree | conjoin the task condition, as `paginate` does with `andWhere` (comment.service.ts:48) | high (TypeORM `where` semantics); not executed | CommentService.AsWrittenListsReplies | CommentService.FindCommentTrees |
| src/modules/content/services/task.service.ts:211-226 | the `where` calls at :215, :218 and :264 replace earlier conditions | `trashed=ONLY&isPublished=true` lists active published tasks; adding a category also drops the publish flag and the trash condition | every filter conjoined | high (TypeORM `where` semantics); not executed | TaskQuery.OnlyTrashLostAsWritten | TaskQuery.ListAdmits |
| src/modules/content/services/task.service.ts:248-249 | the second `orderBy` replaces the first, so `createdAt ASC` is discarded | no `orderBy`: tasks sort by serial number, then publish time; creation time is ignored | creation time, then serial number, then publish time | medium; not executed | TaskQuery.QueryOrderByKeys | TaskQuery.QueryOrderByIntended |
| src/modules/content/services/task.service.ts:188 | the guard `trasheds.length < 0` never holds | `restore(['x'])` where no task has id `x`: `repository.restore([])` runs, and TypeORM rejects empty criteria | return `[]` when no task is found | medium (depends on TypeORM's empty-criteria check); not executed | TaskService.RestoreEmptyFailsAsWritten | TaskService.RestoreOutcome |
