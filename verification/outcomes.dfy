/** Optional values, results and the errors the collector core can throw.

Swift's `throws` becomes a `Result`, an optional becomes an `Option`, and every
error the core raises or passes through is one case of `Error`.
 */
module Outcomes {

  datatype Option<+T> = None | Some(value: T) {
    predicate IsFailure() {
      None?
    }

    function PropagateFailure<U>(): Option<U>
      requires None?
    {
      None
    }

    function Extract(): T
      requires Some?
    {
      value
    }
  }

  /** Opaque error records of the BigQuery client library. */
  datatype BigQueryError = BigQueryError(reason: string, message: string)
  datatype InsertError = InsertError(index: int, errors: seq<BigQueryError>)

  datatype Error =
    // UserQueryError
    | UnexpectedFailure
    // InvalidUserError
    | UnexpectedType(field: string)
    | UnexpectedName(name: string)
    | InvalidDateFormat(text: string)
    // LastUpdateError
    | NoEntries
    // FireStoreValue.FireStoreValueCodingError
    | ValueDecoding
    // Foundation's DecodingError
    | KeyNotFound(key: string)
    | ValueNotFound
    | TypeMismatch
    | DataCorrupted(key: string)
    | InvalidJson
    // BigQueryInterface.WiltQueryError / WiltInsertError
    | QueryErrors(queryErrors: seq<BigQueryError>)
    | InsertErrors(insertErrors: seq<InsertError>)
    // An error raised by a collaborator the model does not look into
    // (transport failure, database SDK, a fake in a test)
    | External(tag: int)

  /** Failure-compatible, so that `var x :- r;` stands for Swift's `let x = try r`. */
  datatype Result<+T> = Success(value: T) | Failure(error: Error) {
    predicate IsFailure() {
      Failure?
    }

    function PropagateFailure<U>(): Result<U>
      requires Failure?
    {
      Failure(error)
    }

    function Extract(): T
      requires Success?
    {
      value
    }
  }

  /** Index of the first element of `xs` that `f` rejects. */
  function FirstFailure<A, B>(xs: seq<A>, f: A -> Result<B>): (k: nat)
    requires exists i :: 0 <= i < |xs| && f(xs[i]).Failure?
    ensures k < |xs| && f(xs[k]).Failure?
    ensures forall i :: 0 <= i < k ==> f(xs[i]).Success?
  {
    if f(xs[0]).Failure? then 0 else 1 + FirstFailure(xs[1..], f)
  }

  /** `try xs.map(f)` for a throwing `f`: the first error thrown stops the map. */
  function MapAll<A, B>(xs: seq<A>, f: A -> Result<B>): (r: Result<seq<B>>)
    ensures r.Success? <==> forall i :: 0 <= i < |xs| ==> f(xs[i]).Success?
    ensures r.Success? ==> |r.value| == |xs|
    ensures r.Success? ==> forall i :: 0 <= i < |xs| ==> f(xs[i]) == Success(r.value[i])
    ensures r.Failure? ==> r.error == f(xs[FirstFailure(xs, f)]).error
  {
    if xs == [] then Success([])
    else match f(xs[0])
      case Failure(e) => Failure(e)
      case Success(y) =>
        match MapAll(xs[1..], f)
        case Failure(e) => Failure(e)
        case Success(ys) => Success([y] + ys)
  }

  /** Associativity of concatenation, stated once so that inductive proofs
      need not rediscover it by extensionality. */
  lemma AppendAssoc<T>(a: seq<T>, b: seq<T>, c: seq<T>)
    ensures a + (b + c) == (a + b) + c
  {
  }
}
