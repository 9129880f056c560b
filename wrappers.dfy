/** Small value wrappers shared by every module of the model. */
module Wrappers {

  /** A value that may be absent (`null` or `undefined` where the distinction does not matter). */
  datatype Option<+T> = None | Some(value: T)

  /** A value or the error the operation raised instead. */
  datatype Result<+T, +E> = Ok(value: T) | Err(error: E)

  /**
   * A JavaScript value that distinguishes `undefined` from `null`;
   * the comment service treats the two differently when it looks up a parent.
   */
  datatype Nullable<+T> = Undefined | Null | Defined(value: T) {
    /** lodash `isNil`: true for both `undefined` and `null`. */
    predicate IsNil() { !Defined? }
  }

  /** Identifiers are the UUID strings TypeORM generates. */
  type Id = string
}
