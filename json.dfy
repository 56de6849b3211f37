/** The JSON-like values that the scraping client hands to the service, with
    Python's truthiness, and the outcome of a call that may raise. */
module Json {

  /** A value as Python sees a decoded JSON document.  `Null` is Python's `None`;
      numbers are written as reals so that both `int` and `float` fit. */
  datatype Json =
    | Null
    | Bool(b: bool)
    | Num(n: real)
    | Str(s: string)
    | List(items: seq<Json>)
    | Dict(fields: map<string, Json>)

  /** Python's `bool(v)`: `None`, `False`, zero, `""`, `[]` and `{}` are falsy,
      everything else is truthy. */
  predicate Truthy(v: Json) {
    match v
    case Null => false
    case Bool(b) => b
    case Num(n) => n != 0.0
    case Str(s) => s != ""
    case List(xs) => xs != []
    case Dict(m) => m != map[]
  }

  /** The exceptions the modelled code can raise or let through. */
  datatype Exception =
    | ClientError(message: string)   // anything raised by the scraping client
    | TypeError                      // `in` or `[]` applied to a value that does not support it
    | AttributeError                 // `.split` or `.get` on a value that has no such method

  datatype Option<+T> = None | Some(value: T)

  /** The result of calling code that either returns a value or raises. */
  datatype Outcome<+T> = Returned(value: T) | Raised(error: Exception)

  /** The empty dict `{}`. */
  const EmptyDict: Json := Dict(map[])

  /** `{}` is falsy and every dict with a key is truthy. */
  lemma DictTruthiness(m: map<string, Json>, k: string)
    ensures !Truthy(EmptyDict)
    ensures k in m ==> Truthy(Dict(m))
  {
  }
}
