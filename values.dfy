/** The dynamically typed Python values that flow through the task store
    (database cells, keyword arguments, setter arguments) and the exceptions
    the core raises or catches. */
module Values {
  import opened Text

  datatype Option<+T> = None | Some(value: T)

  /** Why a `ValueError` was raised. */
  datatype Reason =
    | EmptyTitle         // "Task title cannot be empty"
    | EmptyStatus        // "Task status cannot be empty"
    | BadPersonInCharge  // "Person in charge must be a positive integer" / "User ... does not exist"
    | BadCreator         // "Creator must be a positive integer"
    | InvalidStatus      // "Invalid status: ..."
    | BadDueDate         // "Due date must be in YYYY-MM-DD format"
    | BadEditor          // "Editors must be a positive integer or None" / "Editor user ... does not exist"
    | BadTaskId          // "Task ID must be a positive integer"
    | ShortRow           // "Invalid row format. Expected 9 columns, ..."
    | NotANumber         // `int(s)`: "invalid literal for int() with base 10"

  /** The Python exceptions the core raises. */
  datatype Error =
    | ValueError(reason: Reason)
    | TypeError
    | AttributeError
    | IndexError
    | KeyError
    | OverflowError
    | EOFError           // `input()` with nothing left to read

  datatype Result<+T> = Ok(value: T) | Err(error: Error)

  /** A Python value as it reaches the core: `None`, an `int` or a `str`. */
  datatype Value = Null | Int(i: int) | Str(s: string)

  /** Python truthiness of a value (`not v` is `!Truthy(v)`). */
  predicate Truthy(v: Value) {
    match v
    case Null => false
    case Int(i) => i != 0
    case Str(s) => s != ""
  }

  /** `isinstance(v, int) and v > 0`. */
  predicate IsPositiveInt(v: Value) {
    v.Int? && v.i > 0
  }

  /** `f"{v}"`: how Python renders a value inside an f-string. */
  function ValueText(v: Value): string {
    match v
    case Null => "None"
    case Int(i) => IntToString(i)
    case Str(s) => s
  }
}
