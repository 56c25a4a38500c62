/**
 * What the evaluator can raise. `DataEvalError` is the base class of the
 * module's own errors, `EvalSyntaxError` wraps the parser's SyntaxError and
 * `UnsafeSourceError` comes from the walker; the walker can also let through
 * Python's own AttributeError and TypeError, which are outside that hierarchy.
 */
module Errors {

  import opened Wrappers

  /** The `error` argument of the walker's UnsafeSourceError. */
  datatype UnsafeReason = UnsupportedConstruct | StringsMustBeQuoted | CallableNotAllowed

  function Message(r: UnsafeReason): string {
    match r
    case UnsupportedConstruct => "Unsupported source construct"
    case StringsMustBeQuoted => "Strings must be quoted"
    case CallableNotAllowed => "Callable not allowed."
  }

  /** The Python built-in exceptions the walker can raise without wrapping them. */
  datatype HostKind = AttributeError | TypeError

  datatype Error =
    | DataEvalError(sourceType: string)                   // the source was neither a dict nor a string
    | EvalSyntaxError(cause: string)                      // the parser's SyntaxError
    | UnsafeSourceError(reason: UnsafeReason, descr: string)
    | HostException(kind: HostKind)

  datatype ExceptionClass =
    | DataEvalErrorClass
    | EvalSyntaxErrorClass
    | UnsafeSourceErrorClass
    | AttributeErrorClass
    | TypeErrorClass

  function ClassOf(e: Error): ExceptionClass {
    match e
    case DataEvalError(_) => DataEvalErrorClass
    case EvalSyntaxError(_) => EvalSyntaxErrorClass
    case UnsafeSourceError(_, _) => UnsafeSourceErrorClass
    case HostException(AttributeError) => AttributeErrorClass
    case HostException(TypeError) => TypeErrorClass
  }

  /** The direct base class, within the classes modelled here. */
  function BaseOf(c: ExceptionClass): Option<ExceptionClass> {
    match c
    case EvalSyntaxErrorClass => Some(DataEvalErrorClass)
    case UnsafeSourceErrorClass => Some(DataEvalErrorClass)
    case _ => None
  }

  /** How many base classes lie above `c` within the classes modelled here. */
  function Depth(c: ExceptionClass): nat {
    if BaseOf(c).Some? then 1 else 0
  }

  predicate IsSubclass(c: ExceptionClass, base: ExceptionClass)
    decreases Depth(c)
  {
    c == base || (BaseOf(c).Some? && IsSubclass(BaseOf(c).value, base))
  }

  /** Python's `isinstance(e, base)`, which is what `assertRaises(base, ...)` checks. */
  predicate IsInstance(e: Error, base: ExceptionClass) {
    IsSubclass(ClassOf(e), base)
  }

  /** Every error of the module's own is a DataEvalError; the host exceptions are not. */
  lemma DataEvalErrorFamily(e: Error)
    ensures IsInstance(e, DataEvalErrorClass) <==> !e.HostException?
    ensures e.UnsafeSourceError? <==> IsInstance(e, UnsafeSourceErrorClass)
    ensures e.EvalSyntaxError? <==> IsInstance(e, EvalSyntaxErrorClass)
  {
  }
}
