/** Failure-compatible wrappers shared by every module of the model. */
module Common {

  datatype Option<T> = None | Some(value: T)

  /** The exceptions the modelled code can raise, plus the few outcomes
      that exist only because of how the model represents its inputs. */
  datatype Error =
    | AssertionError        // a failed `assert` while the registry is built
    | KeyError              // a dictionary lookup of a missing key
    | ValueError            // `raise ValueError`, or numpy refusing an empty choice
    | TypeError             // a bad call: unexpected or repeated keyword, `**None`
    | AttributeError        // a method called on a value that lacks it
    | IndexError            // a list index out of range
    | NotImplementedError   // an unsupported handle type or position
    | FileError             // a model file whose anchor sites cannot be read
    | Unsupported           // a table value of a shape the model does not represent
    | DrawsExhausted        // the rejection loop used up the random draws it was given

  datatype Result<T> = Ok(value: T) | Err(error: Error) {
    predicate IsFailure() { Err? }

    function PropagateFailure<U>(): Result<U>
      requires Err?
    {
      Err(error)
    }

    function Extract(): T
      requires Ok?
    {
      value
    }
  }

  /** No element occurs twice. */
  predicate Distinct<T(==)>(s: seq<T>)
  {
    forall i, j :: 0 <= i < j < |s| ==> s[i] != s[j]
  }

  /** The position of the first occurrence of `x` in `s`. */
  function IndexOf<T(==)>(s: seq<T>, x: T): (k: nat)
    requires x in s
    ensures k < |s| && s[k] == x && x !in s[..k]
  {
    if s[0] == x then 0
    else
      var k := IndexOf(s[1..], x);
      assert s[..k + 1] == [s[0]] + s[1..][..k];
      k + 1
  }
}
