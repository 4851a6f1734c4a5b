/**
 * Shared vocabulary of the model: optional values, the fatal conditions of
 * the tool, and results that either carry a value or the fault that stopped
 * the process.
 */
module Common {

  datatype Option<+T> = None | Some(value: T)

  /** Every condition on which the tool calls log.Fatalln (or would panic). */
  datatype Fault =
    | BadPort(field: string)                               // strconv.Atoi refused a port field
    | ResolveFailed(host: string)                          // the resolver returned an error
    | NoAddress(host: string)                              // the resolver returned no address (ips[0] would panic)
    | FetchFailed(category: string, host: string, port: int) // the INFO call failed
    | DepthExceeded(host: string, port: int)               // the replica recursion ran past its fuel

  datatype Result<+T> = Ok(value: T) | Err(fault: Fault)

  /** `acc` followed by the value of `r`, or the fault of `r`. */
  function Prepend<T>(acc: seq<T>, r: Result<seq<T>>): Result<seq<T>> {
    match r
    case Ok(v) => Ok(acc + v)
    case Err(e) => Err(e)
  }

  lemma PrependPrepend<T>(a: seq<T>, b: seq<T>, r: Result<seq<T>>)
    ensures Prepend(a, Prepend(b, r)) == Prepend(a + b, r)
  {
    if r.Ok? {
      assert a + (b + r.value) == (a + b) + r.value;
    }
  }

  lemma PrependNothing<T>(r: Result<seq<T>>)
    ensures Prepend([], r) == r
  {
    if r.Ok? {
      assert [] + r.value == r.value;
    }
  }

  /** A pairwise property of two sequences survives putting one more related pair in front. */
  lemma PairwiseCons<A, B>(p: (A, B) -> bool, x: A, xs: seq<A>, y: B, ys: seq<B>)
    requires p(x, y)
    requires |xs| == |ys|
    requires forall j :: 0 <= j < |xs| ==> p(xs[j], ys[j])
    ensures forall j :: 0 <= j < |xs| + 1 ==> p(([x] + xs)[j], ([y] + ys)[j])
  {
    forall j | 0 <= j < |xs| + 1
      ensures p(([x] + xs)[j], ([y] + ys)[j])
    {
      if j > 0 {
        assert ([x] + xs)[j] == xs[j - 1] && ([y] + ys)[j] == ys[j - 1];
      }
    }
  }
}
