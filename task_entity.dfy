/** The stored task row (task.entity.ts:65-220): the columns the core reads or writes. */
module TaskEntity {
  import opened Wrappers

  /**
   * A row of `content_tasks`. Users and categories are referred to by id;
   * dates are ordering keys; `deletedAt` is set exactly when the row is in
   * the trash (soft-deleted). The `parent` property is not a column, so a
   * stored row does not carry it.
   */
  datatype Task = Task(
    id: Id,
    serialNumber: string,
    title: string,
    body: string,
    executor: Option<Id>,
    executionAt: Option<string>,
    creator: Option<Id>,
    isRoot: bool,
    categories: set<Id>,
    publishedAt: Option<string>,
    createdAt: int,
    deletedAt: Option<int>)
  {
    predicate Trashed() { deletedAt.Some? }
  }
}
