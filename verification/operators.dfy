/** The binary operator switch. Both operands have already been evaluated;
    a null operand fails where Java unboxes it. */
module Operators {
  import opened Wrappers
  import opened Syntax
  import opened Errors
  import opened Frames
  import Int32

  /** The operators the switch has a case for. */
  predicate Handled(op: BinOp) {
    !(op.Great? || op.GreatEq? || op.Divide?)
  }

  /** The operators whose result is a truth value. */
  predicate YieldsTruth(op: BinOp) {
    op.Eq? || op.Less? || op.LessEq? || op.And? || op.Or? || op.Xor?
  }

  function Truth(b: bool): int {
    if b then 1 else 0
  }

  /** Non-zero truthiness of a value, as the logical operators read it. */
  predicate NonZero(v: Val) {
    v.Some? && v.value != 0
  }

  function ApplyOp(op: BinOp, a: Val, b: Val): (r: Result<Val, Error>)
    // any operator without a case is an error, whatever the operands
    ensures !Handled(op) ==> r == Err(BadOperator(op))
    // on two integers every handled operator succeeds with an integer
    ensures a.Some? && b.Some? && Handled(op) ==> r.Ok? && r.value.Some?
    // the only other failure is a null operand
    ensures r.Err? && Handled(op) ==> r.error == NullUsedAsInt && (a.None? || b.None?)
    ensures r.Ok? ==> r.value.Some?
    // comparisons and logical operators produce only 0 or 1
    ensures r.Ok? && YieldsTruth(op) ==> r.value.value == 0 || r.value.value == 1
    // equality compares references by value, so two nulls are equal
    ensures op.Eq? ==> r == Ok(Some(Truth(a == b)))
    ensures r.Ok? && op.Less? ==> a.Some? && b.Some? && r.value.value == Truth(a.value < b.value)
    ensures r.Ok? && op.LessEq? ==> a.Some? && b.Some? && r.value.value == Truth(a.value <= b.value)
    // arithmetic wraps to 32 bits
    ensures r.Ok? && op.Plus? ==> a.Some? && b.Some? && r.value.value == Int32.Wrap(a.value + b.value)
    ensures r.Ok? && op.Minus? ==> a.Some? && b.Some? && r.value.value == Int32.Wrap(a.value - b.value)
    ensures r.Ok? && op.Times? ==> a.Some? && b.Some? && r.value.value == Int32.Wrap(a.value * b.value)
    // logical operators over non-zero truthiness
    ensures r.Ok? && op.And? ==> r.value.value == Truth(NonZero(a) && NonZero(b))
    ensures r.Ok? && op.Or? ==> r.value.value == Truth(NonZero(a) || NonZero(b))
    ensures r.Ok? && op.Xor? ==> a.Some? && b.Some? && r.value.value == Truth(NonZero(a) != NonZero(b))
    // the right operand of and/or is not unboxed once the left decides
    ensures op.And? && a == Some(0) ==> r == Ok(Some(0))
    ensures op.Or? && NonZero(a) ==> r == Ok(Some(1))
    // otherwise a null operand of and/or is unboxed, and fails
    ensures op.And? && (a.None? || (NonZero(a) && b.None?)) ==> r == Err(NullUsedAsInt)
    ensures op.Or? && (a.None? || (a == Some(0) && b.None?)) ==> r == Err(NullUsedAsInt)
    // every other handled operator unboxes both operands
    ensures Handled(op) && !op.Eq? && !op.And? && !op.Or? && (a.None? || b.None?) ==> r == Err(NullUsedAsInt)
  {
    match op
    case Eq => Ok(Some(Truth(a == b)))
    case Less =>
      if a.None? || b.None? then Err(NullUsedAsInt) else Ok(Some(Truth(a.value < b.value)))
    case LessEq =>
      if a.None? || b.None? then Err(NullUsedAsInt) else Ok(Some(Truth(a.value <= b.value)))
    case Plus =>
      if a.None? || b.None? then Err(NullUsedAsInt) else Ok(Some(Int32.Wrap(a.value + b.value)))
    case Minus =>
      if a.None? || b.None? then Err(NullUsedAsInt) else Ok(Some(Int32.Wrap(a.value - b.value)))
    case Times =>
      if a.None? || b.None? then Err(NullUsedAsInt) else Ok(Some(Int32.Wrap(a.value * b.value)))
    case And =>
      if a.None? then Err(NullUsedAsInt)
      else if a.value == 0 then Ok(Some(0))
      else if b.None? then Err(NullUsedAsInt)
      else Ok(Some(Truth(b.value != 0)))
    case Or =>
      if a.None? then Err(NullUsedAsInt)
      else if a.value != 0 then Ok(Some(1))
      else if b.None? then Err(NullUsedAsInt)
      else Ok(Some(Truth(b.value != 0)))
    case Xor =>
      if a.None? || b.None? then Err(NullUsedAsInt) else Ok(Some(Truth((a.value != 0) != (b.value != 0))))
    case Great => Err(BadOperator(op))
    case GreatEq => Err(BadOperator(op))
    case Divide => Err(BadOperator(op))
  }
}
