/** The ways an evaluation can fail; in the source each is an uncaught Java exception. */
module Errors {
  import opened Syntax

  datatype Error =
    | UndefinedFunction(name: string)    // a call to an unregistered name
    | UndefinedVariable(name: string)    // a read of a name absent from the top frame
    | BadOperator(op: BinOp)             // the operator switch's default
    | NullUsedAsInt                      // a null value unboxed to `int`
    | TooManyArguments(callee: string)   // more arguments than parameters (list index out of bounds)
    | BadNumber(text: string)            // Integer.parseInt rejected the text
    | MissingMain                        // no declaration named main
    | EmptyStack                         // a frame was needed and the stack had none
    | OutOfFuel                          // the model's bound on calls and loop iterations
}
