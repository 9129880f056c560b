/**
 * The request validation the DTO classes declare: a property value after
 * class-transformer has run, the decorators as data (property, rule, groups,
 * `always`, `each`), and how class-validator decides which of them apply and
 * whether an object passes. What the libraries decide and the repository
 * does not show (UUID and date formats, the `IsDataExist` lookup, lodash
 * `toNumber`, the `toBoolean` helper, the string values of `SelectTrashMode`)
 * is a `Library` parameter.
 */
module Validation {
  import opened Wrappers

  /** A JavaScript number: what `toNumber` can produce. */
  datatype JsNumber = NaN | Infinity(negative: bool) | Finite(value: real)

  /** A property value of the object being validated. */
  datatype Value =
    | Missing              // `undefined`: the key was not sent
    | NullValue            // `null`
    | Text(text: string)
    | Num(number: JsNumber)
    | Flag(flag: bool)
    | Items(items: seq<Value>)

  /** The properties the DTO classes declare. */
  datatype Key =
    | Trashed | Category | IsPublished | OrderBy | Page | Limit
    | Title | Body | PublishedAt | ExecutionAt | EminderTime | Creator | Executor | Parent | Categories
    | Id | Ids | Task

  /** The instance handed to the validator: property to value. */
  type Object = map<Key, Value>

  function Get(o: Object, p: Key): Value
  {
    if p in o then o[p] else Missing
  }

  /** lodash `isNil`. */
  predicate IsNil(v: Value)
  {
    v.Missing? || v.NullValue?
  }

  /** JavaScript truthiness. */
  predicate Truthy(v: Value)
  {
    match v
    case Missing => false
    case NullValue => false
    case Text(s) => s != ""
    case Num(n) => n.Infinity? || (n.Finite? && n.value != 0.0)
    case Flag(b) => b
    case Items(_) => true
  }

  /** The `@Transform` of `publishedAt`, `executionAt` and a comment's `parent`: the text `'null'` becomes `null`. */
  function NullFromText(v: Value): (r: Value)
    ensures v == Text("null") ==> r == NullValue
    ensures v != Text("null") ==> r == v
  {
    if v == Text("null") then NullValue else v
  }

  /** The tables an `IsDataExist` constraint looks in. */
  datatype Table = CategoryTable | CommentTable

  /** The enumerations an `IsEnum` constraint names. */
  datatype Enum = TrashModes | TaskOrders | Reminders

  /** What the libraries and the modules outside this model decide. */
  datatype Library = Library(
    isUuid: string -> bool,
    isDateString: string -> bool,
    isStored: (Table, Value) -> bool,
    toNumber: Value -> JsNumber,
    toBoolean: Value -> Value,
    trashModes: set<string>)

  /** The string values of `TaskOrderType` (constants.ts:4-10). */
  const TaskOrderValues: set<string> := {"createdAt", "publishedAt", "commentCount", "serialNumber", "creator"}

  /** The string values of `ReminderOrderType` (constants.ts:15-28). */
  const ReminderValues: set<string> := {"task_termination", "five_minutes", "fifteen_minutes"}

  function EnumValues(e: Enum, lib: Library): set<string>
  {
    match e
    case TrashModes => lib.trashModes
    case TaskOrders => TaskOrderValues
    case Reminders => ReminderValues
  }

  /** A constraint decorator. */
  datatype Check =
    | IsDefined            // `IsDefined`
    | NotEmpty             // `IsNotEmpty`
    | MaxLength(max: nat)  // `MaxLength`
    | Uuid                 // `IsUUID`
    | DateString           // `IsDateString`
    | Exists(table: Table) // `IsDataExist`
    | InEnum(e: Enum)      // `IsEnum`
    | IsNumber             // `IsNumber`, without NaN or infinities
    | Min(min: real)       // `Min`
    | IsBoolean            // `IsBoolean`

  /** A conditional decorator: when its condition fails, the property is not validated at all. */
  datatype Condition =
    | Optional             // `IsOptional`: the value is neither null nor undefined
    | PublishedAtGiven     // `ValidateIf((value) => !isNil(value.publishedAt))`
    | ParentGiven          // `ValidateIf((value) => value.parent !== null && value.parent)`

  datatype Rule = Conditional(cond: Condition) | Constraint(check: Check)

  /** One decorator, with its validation options. */
  datatype Decl = Decl(rule: Rule, groups: set<string>, always: Option<bool>, each: bool)

  /**
   * The decorators of a class, grouped by the property they sit on (as
   * class-validator groups its metadata before validating).
   */
  type Decorators = map<Key, seq<Decl>>

  /** A decorator with no options. */
  function Plain(rule: Rule): Decl
  {
    Decl(rule, {}, None, false)
  }

  /** A decorator with `always: true`. */
  function Always(rule: Rule): Decl
  {
    Decl(rule, {}, Some(true), false)
  }

  /** A decorator with `groups: [g]`. */
  function InGroup(rule: Rule, g: string): Decl
  {
    Decl(rule, {g}, None, false)
  }

  /**
   * Whether a decorator takes part when the object is validated with
   * `groups` (no groups: `{}`): `always` decorators always do; otherwise,
   * with groups given, only decorators sharing one of them; without groups,
   * every decorator.
   */
  predicate Active(d: Decl, groups: set<string>)
  {
    d.always == Some(true) || groups == {} || !(d.groups !! groups)
  }

  function ConditionHolds(c: Condition, obj: Object, v: Value): bool
  {
    match c
    case Optional => !IsNil(v)
    case PublishedAtGiven => !IsNil(Get(obj, PublishedAt))
    case ParentGiven => Get(obj, Parent) != NullValue && Truthy(Get(obj, Parent))
  }

  function CheckHolds(c: Check, v: Value, lib: Library): bool
  {
    match c
    case IsDefined => !IsNil(v)
    case NotEmpty => !IsNil(v) && v != Text("")
    case MaxLength(n) => v.Text? && |v.text| <= n
    case Uuid => v.Text? && lib.isUuid(v.text)
    case DateString => v.Text? && lib.isDateString(v.text)
    case Exists(t) => lib.isStored(t, v)
    case InEnum(e) => v.Text? && v.text in EnumValues(e, lib)
    case IsNumber => v.Num? && v.number.Finite?
    case Min(m) => v.Num? && AtLeast(v.number, m)
    case IsBoolean => v.Flag?
  }

  /** `value >= min` on a JavaScript number: false for NaN, true for positive infinity. */
  predicate AtLeast(n: JsNumber, min: real)
  {
    match n
    case NaN => false
    case Infinity(negative) => !negative
    case Finite(x) => x >= min
  }

  /** A constraint on `v`; with `each`, on every element of an array value instead. */
  function ConstraintHolds(d: Decl, v: Value, lib: Library): (r: bool)
    requires d.rule.Constraint?
    ensures d.each && v.Items? ==> (r <==> forall i :: 0 <= i < |v.items| ==> CheckHolds(d.rule.check, v.items[i], lib))
    ensures !(d.each && v.Items?) ==> (r <==> CheckHolds(d.rule.check, v, lib))
  {
    if d.each && v.Items? then AllItemsHold(d.rule.check, v.items, lib) else CheckHolds(d.rule.check, v, lib)
  }

  function AllItemsHold(c: Check, items: seq<Value>, lib: Library): (r: bool)
    ensures r <==> forall i :: 0 <= i < |items| ==> CheckHolds(c, items[i], lib)
  {
    if items == [] then true else CheckHolds(c, items[0], lib) && AllItemsHold(c, items[1..], lib)
  }

  /** The decorator takes part and is a condition. */
  predicate GuardOf(d: Decl, groups: set<string>)
  {
    Active(d, groups) && d.rule.Conditional?
  }

  /** The decorator takes part and is a constraint. */
  predicate CheckOf(d: Decl, groups: set<string>)
  {
    Active(d, groups) && d.rule.Constraint?
  }

  /** Whether property `p` is validated at all: every condition on it that takes part holds. */
  function CanValidate(decls: seq<Decl>, obj: Object, p: Key, groups: set<string>): (r: bool)
    ensures r <==> forall i :: 0 <= i < |decls| && GuardOf(decls[i], groups) ==>
                              ConditionHolds(decls[i].rule.cond, obj, Get(obj, p))
  {
    if decls == [] then true
    else
      (!GuardOf(decls[0], groups) || ConditionHolds(decls[0].rule.cond, obj, Get(obj, p))) &&
      CanValidate(decls[1..], obj, p, groups)
  }

  /** Whether every constraint on property `p` that takes part holds. */
  function ChecksPass(decls: seq<Decl>, obj: Object, p: Key, groups: set<string>, lib: Library): (r: bool)
    ensures r <==> forall i :: 0 <= i < |decls| && CheckOf(decls[i], groups) ==>
                              ConstraintHolds(decls[i], Get(obj, p), lib)
  {
    if decls == [] then true
    else
      (!CheckOf(decls[0], groups) || ConstraintHolds(decls[0], Get(obj, p), lib)) &&
      ChecksPass(decls[1..], obj, p, groups, lib)
  }

  /** A property passes when a condition skips it or all its constraints hold. */
  predicate PropertyPasses(decls: seq<Decl>, obj: Object, p: Key, groups: set<string>, lib: Library)
  {
    !CanValidate(decls, obj, p, groups) || ChecksPass(decls, obj, p, groups, lib)
  }

  /** A property none of whose constraints takes part always passes. */
  lemma NothingChecked(decls: seq<Decl>, obj: Object, p: Key, groups: set<string>, lib: Library)
    requires forall i :: 0 <= i < |decls| ==> !CheckOf(decls[i], groups)
    ensures PropertyPasses(decls, obj, p, groups, lib)
  {
  }

  /** A decorator that takes no part in a validation changes nothing when appended to a property's decorators. */
  lemma InactiveAppendIgnored(decls: seq<Decl>, d: Decl, obj: Object, p: Key, groups: set<string>, lib: Library)
    requires !Active(d, groups)
    ensures PropertyPasses(decls + [d], obj, p, groups, lib) <==> PropertyPasses(decls, obj, p, groups, lib)
  {
    GuardsAppend(decls, d, obj, p, groups);
    ChecksAppend(decls, d, obj, p, groups, lib);
  }

  lemma {:induction false} GuardsAppend(decls: seq<Decl>, d: Decl, obj: Object, p: Key, groups: set<string>)
    requires !Active(d, groups)
    ensures CanValidate(decls + [d], obj, p, groups) == CanValidate(decls, obj, p, groups)
  {
    if decls == [] {
      assert [d][1..] == [];
    } else {
      assert (decls + [d])[1..] == decls[1..] + [d];
      GuardsAppend(decls[1..], d, obj, p, groups);
    }
  }

  lemma {:induction false} ChecksAppend(decls: seq<Decl>, d: Decl, obj: Object, p: Key, groups: set<string>, lib: Library)
    requires !Active(d, groups)
    ensures ChecksPass(decls + [d], obj, p, groups, lib) == ChecksPass(decls, obj, p, groups, lib)
  {
    if decls == [] {
      assert [d][1..] == [];
    } else {
      assert (decls + [d])[1..] == decls[1..] + [d];
      ChecksAppend(decls[1..], d, obj, p, groups, lib);
    }
  }

  /** The object passes validation: every decorated property passes. */
  predicate Validates(dto: Decorators, obj: Object, groups: set<string>, lib: Library)
  {
    forall p :: p in dto ==> PropertyPasses(dto[p], obj, p, groups, lib)
  }

  /** Decorating one more property adds that property's verdict to the object's. */
  lemma ValidatesExtend(dto: Decorators, k: Key, decls: seq<Decl>, obj: Object, groups: set<string>, lib: Library)
    requires k !in dto
    ensures Validates(dto[k := decls], obj, groups, lib) <==>
      Validates(dto, obj, groups, lib) && PropertyPasses(decls, obj, k, groups, lib)
  {
    var ext := dto[k := decls];
    if Validates(ext, obj, groups, lib) {
      assert k in ext && ext[k] == decls;
      forall p | p in dto
        ensures PropertyPasses(dto[p], obj, p, groups, lib)
      {
        assert p in ext && ext[p] == dto[p];
      }
    }
  }

  /** Two classes' decorators on disjoint properties, taken together, pass exactly when each does. */
  lemma ValidatesUnion(a: Decorators, b: Decorators, obj: Object, groups: set<string>, lib: Library)
    requires a.Keys !! b.Keys
    ensures Validates(a + b, obj, groups, lib) <==> Validates(a, obj, groups, lib) && Validates(b, obj, groups, lib)
  {
    var u := a + b;
    assert forall p :: p in b ==> u[p] == b[p];
    assert forall p :: p in a ==> u[p] == a[p];
  }

  /** The decorators `PickType(dto, keep)` inherits: those of the kept properties. */
  function Pick(dto: Decorators, keep: set<Key>): (r: Decorators)
    ensures r.Keys == dto.Keys * keep
    ensures forall p :: p in r ==> r[p] == dto[p]
  {
    map p | p in dto.Keys * keep :: dto[p]
  }

  /** The decorators of `PartialType(dto)`: those of `dto`, each property with one more `IsOptional()`. */
  function Partial(dto: Decorators): (r: Decorators)
    ensures r.Keys == dto.Keys
    ensures forall p :: p in r ==> r[p] == dto[p] + [Plain(Conditional(Optional))]
  {
    map p | p in dto :: dto[p] + [Plain(Conditional(Optional))]
  }

  /** The decorators of a `page` or `limit` property: `Min(1)`, `IsNumber` and `IsOptional`. */
  const PageRules: seq<Decl> := [Plain(Constraint(Min(1.0))), Plain(Constraint(IsNumber)), Plain(Conditional(Optional))]

  /** The value of a `page` or `limit` property: its initializer when not sent, otherwise `toNumber` of what was sent. */
  function PageValue(plain: Object, key: Key, initial: real, lib: Library): Value
  {
    if key in plain then Num(lib.toNumber(plain[key])) else Num(Finite(initial))
  }

  /** A `page` or `limit` the query accepts: not sent, or a finite number of at least 1. */
  predicate PageAccepted(plain: Object, key: Key, lib: Library)
  {
    key !in plain || (lib.toNumber(plain[key]).Finite? && lib.toNumber(plain[key]).value >= 1.0)
  }

  /** A value an optional `IsUUID` property accepts. */
  predicate UuidOrNil(v: Value, lib: Library)
  {
    IsNil(v) || (v.Text? && lib.isUuid(v.text))
  }

  /** A `page` or `limit` property passes exactly when it was not sent or is a finite number of at least 1. */
  lemma PagePasses(plain: Object, obj: Object, key: Key, initial: real, lib: Library)
    requires initial >= 1.0 && Get(obj, key) == PageValue(plain, key, initial, lib)
    ensures PropertyPasses(PageRules, obj, key, {}, lib) <==> PageAccepted(plain, key, lib)
  {
    assert GuardOf(PageRules[2], {}) && CheckOf(PageRules[0], {}) && CheckOf(PageRules[1], {});
  }

  /** Validated without groups, an `IsUUID` and an `IsOptional` accept nil or a UUID. */
  lemma OptionalUuidPasses(decls: seq<Decl>, obj: Object, p: Key, lib: Library)
    requires decls == [Always(Constraint(Uuid)), Plain(Conditional(Optional))]
    ensures PropertyPasses(decls, obj, p, {}, lib) <==> UuidOrNil(Get(obj, p), lib)
  {
    assert CheckOf(decls[0], {}) && GuardOf(decls[1], {});
  }
}
