/** The failures of the vector library. Every one of them is an `assert` (or
    `assert.fail`) that throws an `Error` carrying a fixed message; the library
    never catches them, so a failing operation ends with the failure and
    nothing else. */
module Failures {

  datatype Error =
    | ComponentsNotNumbers2  // the Vector2 constructor's check
    | ComponentsNotNumbers3  // the Vector3 constructor's check
    | NotVector2             // assert2DVector with its default message
    | NotVector3             // assert3DVector with its default message
    | FirstNotVector         // Vector2.min / Vector2.max on their first argument
    | DivideByZero           // divide(0)
    | UnexpectedTarget       // from() on a value of no accepted shape
    | OfNotNumber2           // Vector2.of with a non-number x
    | OfNotNumber3           // Vector3.of with a non-number x
  {
    /** The message the thrown Error carries. */
    function Message(): string {
      match this
      case ComponentsNotNumbers2 => "x and y must be a number."
      case ComponentsNotNumbers3 => "arguments X, Y and Z must be a numbers"
      case NotVector2 => "The argument must be a Vector like object {x, y}."
      case NotVector3 => "The argument must be a Vector like object {x, y, z}."
      case FirstNotVector => "The first argument must be a Vector"
      case DivideByZero => "Vector.divide(); Argument is a `zero` value"
      case UnexpectedTarget => "Unexpected type target.Argument must be array or Vector like object."
      case OfNotNumber2 => "X and Y must be a number."
      case OfNotNumber3 => "X, Y and Z must be a number."
    }
  }

  /** The outcome of an operation that may throw. */
  datatype Result<+T> = Ok(value: T) | Err(error: Error)
}
