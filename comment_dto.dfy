/**
 * The comment request DTOs (comment.dto.ts). Each is validated without
 * groups, so every decorator takes part.
 */
module CommentDto {
  import opened Validation

  /** The decorators of `task` on a comment query (comment.dto.ts:29-30). */
  const QueryTaskRules: seq<Decl> := [Always(Constraint(Uuid)), Plain(Conditional(Optional))]

  /** `QueryCommentDto` (comment.dto.ts:25-56). */
  const QueryComment: Decorators := map[Task := QueryTaskRules, Page := PageRules, Limit := PageRules]

  /** The `QueryCommentDto` instance built from a query: `page` and `limit` start at 1 and 10 (comment.dto.ts:43,55). */
  function ReadQueryComment(plain: Object, lib: Library): Object
  {
    plain[Page := PageValue(plain, Page, 1.0, lib)][Limit := PageValue(plain, Limit, 10.0, lib)]
  }

  /**
   * A comment query passes exactly when `task` is absent, null or a UUID, and
   * `page` and `limit` are either not sent or finite numbers of at least 1.
   */
  lemma QueryCommentAccepts(plain: Object, lib: Library)
    ensures Validates(QueryComment, ReadQueryComment(plain, lib), {}, lib) <==>
      UuidOrNil(Get(plain, Task), lib) && PageAccepted(plain, Page, lib) && PageAccepted(plain, Limit, lib)
  {
    var obj := ReadQueryComment(plain, lib);
    PagePasses(plain, obj, Page, 1.0, lib);
    PagePasses(plain, obj, Limit, 10.0, lib);
    OptionalUuidPasses(QueryTaskRules, obj, Task, lib);
    assert Get(obj, Task) == Get(plain, Task);
    assert QueryComment.Keys == {Task, Page, Limit};
  }

  /** With neither `page` nor `limit` sent, the instance carries page 1 and limit 10 and passes whenever its `task` does. */
  lemma QueryCommentDefaults(plain: Object, lib: Library)
    requires Page !in plain && Limit !in plain
    ensures Get(ReadQueryComment(plain, lib), Page) == Num(Finite(1.0))
    ensures Get(ReadQueryComment(plain, lib), Limit) == Num(Finite(10.0))
    ensures Validates(QueryComment, ReadQueryComment(plain, lib), {}, lib) <==> UuidOrNil(Get(plain, Task), lib)
  {
    QueryCommentAccepts(plain, lib);
  }

  /** `QueryCommentTreeDto`: `PickType(QueryCommentDto, ['task'])` (comment.dto.ts:62). */
  const QueryCommentTree: Decorators := Pick(QueryComment, {Task})

  /**
   * A comment tree query carries only `task` (no `page` or `limit`
   * initializer is inherited) and passes exactly when `task` is absent,
   * null or a UUID.
   */
  lemma QueryCommentTreeAccepts(plain: Object, lib: Library)
    ensures QueryCommentTree.Keys == {Task}
    ensures Validates(QueryCommentTree, plain, {}, lib) <==> UuidOrNil(Get(plain, Task), lib)
  {
    assert QueryComment.Keys == {Task, Page, Limit};
    assert QueryCommentTree.Keys == {Task};
    OptionalUuidPasses(QueryTaskRules, plain, Task, lib);
  }

  /** `CreateCommentDto` (comment.dto.ts:68-104), property by property. */
  const BodyRules: seq<Decl> :=
    [ Plain(Constraint(MaxLength(1000))),        // :70
      Plain(Constraint(NotEmpty)) ]              // :71
  const TaskRules: seq<Decl> :=
    [ Always(Constraint(Uuid)),                  // :78
      Plain(Constraint(IsDefined)) ]             // :79
  const ParentRules: seq<Decl> :=
    [ Plain(Constraint(Exists(CommentTable))),   // :86
      Plain(Constraint(Uuid)),                   // :87
      Plain(Conditional(ParentGiven)),           // :88
      Plain(Conditional(Optional)) ]             // :89
  const CreatorRules: seq<Decl> :=
    [ Always(Constraint(Uuid)),                  // :98
      Plain(Conditional(Optional)) ]             // :102
  const CreateComment: Decorators :=
    map[Body := BodyRules, Task := TaskRules, Parent := ParentRules, Creator := CreatorRules]

  /** The `CreateCommentDto` instance built from a request body: a `parent` of `'null'` becomes `null` (comment.dto.ts:90). */
  function ReadCreateComment(plain: Object): Object
  {
    if Parent in plain then plain[Parent := NullFromText(plain[Parent])] else plain
  }

  /** A comment body the validator accepts: a string of 1 to 1000 characters. */
  predicate BodyAccepted(v: Value)
  {
    v.Text? && 1 <= |v.text| <= 1000
  }

  /** A parent the validator accepts: a falsy value (nothing is checked), or a UUID of a stored comment. */
  predicate ParentAccepted(v: Value, lib: Library)
  {
    !Truthy(v) || (v.Text? && lib.isUuid(v.text) && lib.isStored(CommentTable, v))
  }

  lemma BodyPasses(obj: Object, lib: Library)
    ensures PropertyPasses(BodyRules, obj, Body, {}, lib) <==> BodyAccepted(Get(obj, Body))
  {
    assert CheckOf(BodyRules[0], {}) && CheckOf(BodyRules[1], {});
  }

  lemma TaskPasses(obj: Object, lib: Library)
    ensures PropertyPasses(TaskRules, obj, Task, {}, lib) <==> Get(obj, Task).Text? && lib.isUuid(Get(obj, Task).text)
  {
    assert CheckOf(TaskRules[0], {}) && CheckOf(TaskRules[1], {});
  }

  lemma ParentPasses(obj: Object, lib: Library)
    ensures PropertyPasses(ParentRules, obj, Parent, {}, lib) <==> ParentAccepted(Get(obj, Parent), lib)
  {
    assert CheckOf(ParentRules[0], {}) && CheckOf(ParentRules[1], {});
    assert GuardOf(ParentRules[2], {}) && GuardOf(ParentRules[3], {});
  }

  /**
   * A new comment passes exactly when its body is a string of 1 to 1000
   * characters, its task a UUID, its parent (after `'null'` became `null`)
   * falsy or the UUID of a stored comment, and its creator absent, null or a
   * UUID.
   */
  lemma CreateCommentAccepts(plain: Object, lib: Library)
    ensures Validates(CreateComment, ReadCreateComment(plain), {}, lib) <==>
      BodyAccepted(Get(plain, Body)) &&
      Get(plain, Task).Text? && lib.isUuid(Get(plain, Task).text) &&
      ParentAccepted(NullFromText(Get(plain, Parent)), lib) &&
      UuidOrNil(Get(plain, Creator), lib)
  {
    var obj := ReadCreateComment(plain);
    BodyPasses(obj, lib);
    TaskPasses(obj, lib);
    ParentPasses(obj, lib);
    OptionalUuidPasses(CreatorRules, obj, Creator, lib);
    assert Get(obj, Parent) == NullFromText(Get(plain, Parent));
    assert Get(obj, Body) == Get(plain, Body) && Get(obj, Task) == Get(plain, Task) && Get(obj, Creator) == Get(plain, Creator);
    assert CreateComment.Keys == {Body, Task, Parent, Creator};
  }

  /** A `parent` sent as the text `'null'` means no parent: it is stored as `null` and nothing about it is checked. */
  lemma NullTextParentAccepted(plain: Object, lib: Library)
    requires Get(plain, Parent) == Text("null")
    ensures Get(ReadCreateComment(plain), Parent) == NullValue
    ensures PropertyPasses(CreateComment[Parent], ReadCreateComment(plain), Parent, {}, lib)
  {
    ParentPasses(ReadCreateComment(plain), lib);
  }
}
