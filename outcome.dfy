/** Values and failures of the Python 2 runtime that the serializer relies on:
    `dict.get` answers (Option), the exceptions the code can raise (Error),
    and the builtin `map` applied to a function that may raise (MapAll). */
module Outcome {

  datatype Option<+T> = None | Some(value: T)

  /** The exceptions the serializer can raise on a malformed record. */
  datatype Error =
    | KeyError(key: string)          // `d[k]` on a dict without key k
    | TypeError(reason: string)      // an operation on a value of the wrong type
    | AttributeError(reason: string) // a method called on a value that lacks it

  /** The outcome of a Python call: a value, or the exception it raised. */
  datatype Result<+T> = Ok(value: T) | Err(error: Error)

  /** Python 2 `map(f, s)`: applies `f` from the first element to the last and
      stops at the first exception, which it propagates. */
  function MapAll<T, U>(s: seq<T>, f: T -> Result<U>): (r: Result<seq<U>>)
    ensures r.Ok? ==> |r.value| == |s|
    ensures |s| > 0 && r.Ok? ==> f(s[|s| - 1]) == Ok(r.value[|s| - 1])
  {
    if |s| == 0 then Ok([])
    else
      match MapAll(s[..|s| - 1], f)
      case Err(e) => Err(e)
      case Ok(us) =>
        match f(s[|s| - 1])
        case Err(e) => Err(e)
        case Ok(u) => Ok(us + [u])
  }

  /** `map` succeeds exactly when `f` succeeds on every element, and then it
      returns one result per element, in order. */
  lemma {:induction false} MapAllOk<T, U>(s: seq<T>, f: T -> Result<U>)
    ensures MapAll(s, f).Ok? <==> forall i :: 0 <= i < |s| ==> f(s[i]).Ok?
    ensures MapAll(s, f).Ok? ==>
      |MapAll(s, f).value| == |s| &&
      forall i :: 0 <= i < |s| ==> MapAll(s, f).value[i] == f(s[i]).value
  {
    if |s| > 0 {
      var init := s[..|s| - 1];
      MapAllOk(init, f);
      assert forall i :: 0 <= i < |init| ==> init[i] == s[i];
    }
  }

  /** When `f` gives `us[i]` for every element `s[i]`, `map` gives `us`. */
  lemma MapAllEach<T, U>(s: seq<T>, f: T -> Result<U>, us: seq<U>)
    requires |us| == |s|
    requires forall i :: 0 <= i < |s| ==> f(s[i]) == Ok(us[i])
    ensures MapAll(s, f) == Ok(us)
  {
    MapAllOk(s, f);
    assert MapAll(s, f).value == us;
  }

  /** When `map` fails, the exception is the one raised by the first element
      on which `f` fails. */
  lemma {:induction false} MapAllFirstError<T, U>(s: seq<T>, f: T -> Result<U>)
    requires MapAll(s, f).Err?
    ensures exists i :: 0 <= i < |s| && f(s[i]) == Err(MapAll(s, f).error) &&
                        forall j :: 0 <= j < i ==> f(s[j]).Ok?
  {
    var init := s[..|s| - 1];
    assert forall i :: 0 <= i < |init| ==> init[i] == s[i];
    if MapAll(init, f).Err? {
      MapAllFirstError(init, f);
    } else {
      MapAllOk(init, f);
      assert f(s[|s| - 1]) == Err(MapAll(s, f).error);
    }
  }

  /** Once a prefix of the input has raised, the whole call raises the same
      exception: the elements after it are never looked at. */
  lemma {:induction false} MapAllPrefixError<T, U>(s: seq<T>, n: nat, f: T -> Result<U>)
    requires n <= |s|
    requires MapAll(s[..n], f).Err?
    ensures MapAll(s, f) == MapAll(s[..n], f)
    decreases |s| - n
  {
    if n < |s| {
      assert s[..n + 1][..n] == s[..n];
      MapAllPrefixError(s, n + 1, f);
    } else {
      assert s[..n] == s;
    }
  }
}
