/** Failure-carrying results shared by every component of the reconstructor. */
module Wrappers {

  datatype Option<+T> = None | Some(value: T)

  /** The exceptions (and PHP runtime errors) the engine can raise; any of them aborts the run. */
  datatype Error =
    | EmptyDeclaration          // fromDecl on '' or '0'
    | NotAString                // fromDecl on a non-string value
    | UnknownDeclaration        // a leaf that is not a (namespaced) identifier
    | UnmatchedBraces           // a leading '(' without its matching ')'
    | CombinatorPosition        // a combinator at position 0, or text after a group that is not '|'/'&'
    | NoCombinator              // a '(' that is neither leading nor next to a combinator
    | UnknownValueType          // fromValue on a value that is not int, bool, float or string
    | EmptyRemoval              // removeType removed every member
    | UnknownOp                 // an op kind the reconstructor does not handle
    | MissingDeclaredType       // resolveDeclaredType on a non-literal declared type (TypeError)
    | CallOnNonObject           // Expr_Cast_Object calls a method on the integer tag
    | ReturnedFalse             // `return false` from a function declared to return Type (TypeError)

  datatype Result<+T> = Ok(value: T) | Err(error: Error)

  /** Concatenation is associative; stated once so that large proofs need not rediscover it. */
  lemma AppendAssoc<T>(a: seq<T>, b: seq<T>, c: seq<T>)
    ensures (a + b) + c == a + (b + c)
  {
  }
}
