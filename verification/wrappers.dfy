/** Failure-carrying values shared by every module of the model: Rust's `Option` and `Result`. */
module Wrappers {

  datatype Option<+T> = None | Some(value: T)

  /** Rust's `Result<T, E>`: `Ok` carries the value, `Err` the failure. */
  datatype Result<+T, +E> = Ok(value: T) | Err(error: E)

  /** The `Ok` payloads of a sequence of results, in order. */
  function Oks<T, E>(rs: seq<Result<T, E>>): (r: seq<T>)
    ensures |r| <= |rs|
  {
    if rs == [] then []
    else (if rs[0].Ok? then [rs[0].value] else []) + Oks(rs[1..])
  }

  /** The `Err` payloads of a sequence of results, in order. */
  function Errs<T, E>(rs: seq<Result<T, E>>): (r: seq<E>)
    ensures |r| <= |rs|
  {
    if rs == [] then []
    else (if rs[0].Err? then [rs[0].error] else []) + Errs(rs[1..])
  }

  lemma {:induction false} OksAppend<T, E>(a: seq<Result<T, E>>, b: seq<Result<T, E>>)
    ensures Oks(a + b) == Oks(a) + Oks(b)
  {
    if a == [] {
      assert a + b == b;
    } else {
      assert (a + b)[0] == a[0];
      assert (a + b)[1..] == a[1..] + b;
      OksAppend(a[1..], b);
      assert Oks(a + b) == (if a[0].Ok? then [a[0].value] else []) + Oks(a[1..] + b);
    }
  }

  lemma {:induction false} ErrsAppend<T, E>(a: seq<Result<T, E>>, b: seq<Result<T, E>>)
    ensures Errs(a + b) == Errs(a) + Errs(b)
  {
    if a == [] {
      assert a + b == b;
    } else {
      assert (a + b)[0] == a[0];
      assert (a + b)[1..] == a[1..] + b;
      ErrsAppend(a[1..], b);
      assert Errs(a + b) == (if a[0].Err? then [a[0].error] else []) + Errs(a[1..] + b);
    }
  }

  lemma OneResult<T, E>(x: Result<T, E>)
    ensures Oks([x]) == (if x.Ok? then [x.value] else [])
    ensures Errs([x]) == (if x.Err? then [x.error] else [])
  {
    assert [x][1..] == [];
  }
}
