/** Failure-carrying values. The Rust code aborts the process on every failure
    (`unwrap`, `expect`, `panic!`); the model returns the reason instead, so that
    "the run fails" is a value a contract can talk about. */
module Results {

  datatype Option<+T> = None | Some(value: T)

  datatype Result<+T, +E> = Ok(value: T) | Err(error: E)

  /** The outcome of a step that only changes state. */
  datatype Outcome<+E> = Pass | Fail(error: E)

  /** Sequential composition of two listings: the first failure wins,
      otherwise the listings are concatenated in order. */
  function Then<T, E>(a: Result<seq<T>, E>, b: Result<seq<T>, E>): (r: Result<seq<T>, E>)
    ensures r.Ok? <==> a.Ok? && b.Ok?
    ensures r.Ok? ==> r.value == a.value + b.value
    ensures a.Err? ==> r == a
    ensures a.Ok? && b.Err? ==> r == b
  {
    if a.Err? then a
    else if b.Err? then b
    else Ok(a.value + b.value)
  }

  lemma ThenAssociative<T, E>(a: Result<seq<T>, E>, b: Result<seq<T>, E>, c: Result<seq<T>, E>)
    ensures Then(Then(a, b), c) == Then(a, Then(b, c))
  {
    if a.Ok? && b.Ok? && c.Ok? {
      assert (a.value + b.value) + c.value == a.value + (b.value + c.value);
    }
  }

  lemma ThenUnit<T, E>(a: Result<seq<T>, E>)
    ensures Then(a, Ok([])) == a && Then(Ok([]), a) == a
  {
    if a.Ok? {
      assert a.value + [] == a.value;
      assert [] + a.value == a.value;
    }
  }
}
