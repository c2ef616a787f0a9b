/** Failure-carrying values shared by every component, and a few facts about
    sequences that the contracts use. */
module Results {

  datatype Option<+T> = None | Some(value: T)

  /** The exceptions the Python code can raise from the modelled core. */
  datatype Error =
    | UnknownCurrency(name: string)   // KeyError on the currency table
    | MissingAttribute(attr: string)  // KeyError on a listing's attributes
    | MalformedNumber(attr: string)   // ValueError from float() or int()
    | ZeroBuyValue                    // ZeroDivisionError in sellvalue / buyvalue
    | TransportFailure(cause: string) // an exception raised by the HTTP request

  datatype Result<+T> = Ok(value: T) | Err(error: Error)

  /** `a` can be obtained from `b` by deleting elements, keeping the order. */
  ghost predicate IsSubsequence<T>(a: seq<T>, b: seq<T>)
    decreases |b|
  {
    if a == [] then true
    else if b == [] then false
    else (a[0] == b[0] && IsSubsequence(a[1..], b[1..])) || IsSubsequence(a, b[1..])
  }

  /** A subsequence is no longer than the sequence it is taken from. */
  lemma {:induction false} SubsequenceLength<T>(a: seq<T>, b: seq<T>)
    requires IsSubsequence(a, b)
    ensures |a| <= |b|
    decreases |b|
  {
    if a != [] {
      if a[0] == b[0] && IsSubsequence(a[1..], b[1..]) {
        SubsequenceLength(a[1..], b[1..]);
      } else {
        SubsequenceLength(a, b[1..]);
      }
    }
  }

  /** Collecting results in order: all values when every result is a value,
      otherwise the error of the first failure by position. */
  function Collect<T>(xs: seq<Result<T>>): (r: Result<seq<T>>)
    ensures r.Ok? <==> forall i | 0 <= i < |xs| :: xs[i].Ok?
    ensures r.Ok? ==> |r.value| == |xs| && forall i | 0 <= i < |xs| :: xs[i] == Ok(r.value[i])
    ensures r.Err? ==> exists i | 0 <= i < |xs| ::
      && xs[i] == Err(r.error)
      && forall j | 0 <= j < i :: xs[j].Ok?
  {
    if xs == [] then Ok([])
    else
      match xs[0]
      case Err(e) => Err(e)
      case Ok(first) =>
        match Collect(xs[1..])
        case Err(e) =>
          ghost var i :| 0 <= i < |xs| - 1 && xs[1..][i] == Err(e) && forall j | 0 <= j < i :: xs[1..][j].Ok?;
          assert xs[i + 1] == Err(e);
          Err(e)
        case Ok(rest) => Ok([first] + rest)
  }

  function Min(a: int, b: int): int {
    if a <= b then a else b
  }
}
