/**
 Values shared by the whole model: Java's nullable references and the
 exceptions the modelled code raises.
 */
module Basics {

  /** A Java reference that may be null: `None` stands for null. */
  datatype Option<+T> = None | Some(value: T)

  /** The exceptions the modelled code throws on a broken precondition. */
  datatype Failure =
    | AssertionFailed   // graphql.Assert.assertNotNull / assertTrue
    | NullPointer       // Objects.requireNonNull, or a null consumer handed to a stream
    | IllegalState      // a single-valued child role holding several children
    | ClassCast         // a child of the wrong node class cast to the expected one

  /** Either the result of a call or the exception it ended with. An exception
      leaves every object unchanged, so an `Err` carries no state: the caller
      keeps the state it had. */
  datatype Result<+T> = Ok(value: T) | Err(error: Failure)
}
