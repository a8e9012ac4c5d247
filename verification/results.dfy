/** Failure-compatible wrappers and the error kinds raised by the codec.

    Every exception the Python codec can raise on the paths modelled here
    becomes one constructor of `Error`; an operation that may raise returns
    a `Result`, so that `:-` propagates the first failure exactly as the
    source's fail-fast control flow does.
 */
module Results {

  datatype Option<+T> = None | Some(value: T) {
    predicate IsFailure() { None? }

    function PropagateFailure<U>(): Option<U>
      requires None?
    {
      None
    }

    function Extract(): T
      requires Some?
    {
      value
    }
  }

  /** The exceptions of the codec, one constructor per raising site. */
  datatype Error =
    | EmptyPointList                                       // `points[0]` on an empty list
    | DimensionMismatch(expected: nat, index: nat, actual: nat)
    | NotBifiltrationAppearance                            // appearance is not a 2-tuple
    | AppearanceNotScalar(index: nat)                      // `'{:f}'.format(tuple)`
    | TooFewPoints(count: nat)                             // `max(*[x])` with fewer than two entries
    | ShortRow(row: nat)                                   // distance-matrix row shorter than the matrix
    | CornerTooShort                                       // `lower_left[1]` on a shorter tuple
    | BadFloat(token: string)                              // `float(token)` raised
    | BadInt(token: string)                                // `int(token)` raised
    | BadFraction(token: string)                           // `Fraction(token)` raised ValueError
    | ZeroDenominator(token: string)                       // `Fraction(token)` raised ZeroDivisionError
    | BadXiHeader(line: string)                            // `xi[int(line[3])]` raised
    | Unpack(expected: nat, actual: nat)                   // tuple unpacking of a split

  datatype Result<+T> = Ok(value: T) | Err(error: Error) {
    predicate IsFailure() { Err? }

    function PropagateFailure<U>(): Result<U>
      requires Err?
    {
      Err(error)
    }

    function Extract(): T
      requires Ok?
    {
      value
    }
  }

  /** Turns a failed optional conversion into the given error. */
  function Need<T>(o: Option<T>, e: Error): (r: Result<T>)
    ensures r.Ok? <==> o.Some?
    ensures r.Ok? ==> r.value == o.value
    ensures r.Err? ==> r.error == e
  {
    match o
    case Some(v) => Ok(v)
    case None => Err(e)
  }

  /** `read` applied to each element in order, as a loop that appends each
      value and stops at the first failure. */
  function MapRead<A, B>(read: A -> Result<B>, xs: seq<A>): (r: Result<seq<B>>)
    ensures r.Ok? <==> forall i :: 0 <= i < |xs| ==> read(xs[i]).Ok?
    ensures r.Ok? ==> |r.value| == |xs|
    ensures r.Ok? ==> forall i :: 0 <= i < |xs| ==> read(xs[i]) == Ok(r.value[i])
  {
    if |xs| == 0 then Ok([])
    else
      var x :- read(xs[0]);
      var rest :- MapRead(read, xs[1..]);
      Ok([x] + rest)
  }
}
