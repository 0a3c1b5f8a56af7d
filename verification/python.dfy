/** The Python 2 values and failures the scenario core works with: the scalar
    values a parsed JSON document puts in action fields, their truthiness
    (`if not x`), `str(x)` and `int(x)`, and the exceptions the core raises. */
module Python {
  import Decimal

  datatype Option<+T> = None | Some(value: T)

  /** The exceptions the core raises or lets through, by Python class. */
  datatype Error =
    | ValueError
    | TypeError
    | KeyError(key: string)
    | AttributeError
    | SinkError   // whatever the event manager raised, propagated unchanged

  datatype Result<+T> = Success(value: T) | Failure(error: Error) {
    predicate IsFailure() {
      Failure?
    }

    function PropagateFailure<U>(): Result<U>
      requires Failure?
    {
      Failure(error)
    }

    function Extract(): T
      requires Success?
    {
      value
    }
  }

  /** The outcome of a method that updates an object in place: the object's
      state once the call returns, and the exception it raised, if any. */
  datatype Mutation<+S> = Mutation(state: S, raised: Option<Error>)

  /** An argument the source checks at run time with `not x` and `isinstance`:
      None, an object of some other class (truthy or not), or an instance of
      the expected class. */
  datatype Object<+T> = Null | Alien(truthy: bool) | Instance(value: T) {
    predicate Falsy() {
      Null? || (Alien? && !truthy)
    }
  }

  /** A scalar as held in an action field: None, a bool, an int or a string. */
  datatype Data = DNone | DBool(b: bool) | DInt(n: int) | DStr(s: string)

  /** Python truthiness: `not x` is false exactly for these values. */
  predicate Truthy(v: Data) {
    match v
    case DNone => false
    case DBool(b) => b
    case DInt(n) => n != 0
    case DStr(s) => s != ""
  }

  /** `str(v)`: a string is itself, and an int is written as `"%d" % n` writes it
      (a minus sign for negatives, no plus sign, no leading zeros), a text that
      `int()` reads back as that int. */
  function Str(v: Data): (r: string)
    ensures v.DStr? ==> r == v.s
    ensures v.DNone? ==> r == "None"
    ensures v.DBool? ==> r == (if v.b then "True" else "False")
    ensures v.DInt? ==> r == Decimal.Format(v.n) && Int(DStr(r)) == Success(v.n)
  {
    match v
    case DNone => "None"
    case DBool(b) => if b then "True" else "False"
    case DInt(n) =>
      Decimal.FormatReadsBack(n);
      Decimal.Format(n)
    case DStr(s) => s
  }

  /** `int(v)`: bools count as 0 and 1, strings must be decimal literals. */
  function Int(v: Data): (r: Result<int>)
    ensures v.DNone? ==> r == Failure(TypeError)
    ensures v.DInt? ==> r == Success(v.n)
    ensures v.DBool? ==> r == Success(if v.b then 1 else 0)
    ensures v.DStr? ==> (r.Success? <==> Decimal.IsIntLiteral(v.s))
    ensures v.DStr? && Decimal.IsIntLiteral(v.s) ==> r == Success(Decimal.LiteralValue(v.s))
    ensures v.DStr? && !Decimal.IsIntLiteral(v.s) ==> r == Failure(ValueError)
    ensures r.Failure? ==> r.error == ValueError || r.error == TypeError
  {
    match v
    case DNone => Failure(TypeError)
    case DBool(b) => Success(if b then 1 else 0)
    case DInt(n) => Success(n)
    case DStr(s) =>
      if Decimal.IsIntLiteral(s) then Success(Decimal.LiteralValue(s)) else Failure(ValueError)
  }
}
