/**
 * The exceptions the core raises, as values.
 * `NonuniqueUsername` and `InvalidEmail` are the two classes of customExceptions.py;
 * the others are the Python built-ins the core raises or lets escape, and
 * `SqlError` stands for an error PostgreSQL reports on a malformed statement.
 */
module Exceptions {
  datatype Error =
    | ValueError
    | RuntimeError
    | TypeError
    | KeyError
    | IndexError
    | InvalidEmail
    | NonuniqueUsername
    | SqlError
}
