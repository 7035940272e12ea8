/**
 * Optional values (C#'s `null`) and results (a value or the exception that
 * replaced it), plus `Collect`, which runs a fallible step over a sequence and
 * stops at the first failure, exactly as an uncaught exception thrown inside a
 * `foreach` loop does.
 */
module Results {

  datatype Option<+T> = None | Some(value: T)

  datatype Result<+R, +E> = Success(value: R) | Failure(error: E)

  /** Applies `f` to every element in order; the first failure wins. */
  function Collect<T, U, E>(xs: seq<T>, f: T -> Result<U, E>): (r: Result<seq<U>, E>)
    ensures r.Success? ==> |r.value| == |xs|
    decreases |xs|
  {
    if xs == [] then Success([])
    else
      match f(xs[0])
      case Failure(e) => Failure(e)
      case Success(y) =>
        match Collect(xs[1..], f)
        case Failure(e) => Failure(e)
        case Success(ys) => Success([y] + ys)
  }

  /**
   * The run succeeds exactly when every step does, and then holds every
   * step's value in order; otherwise its error is that of the first failing step.
   */
  lemma {:induction false} CollectSpec<T, U, E>(xs: seq<T>, f: T -> Result<U, E>)
    ensures var r := Collect(xs, f);
            && (r.Success? <==> forall i :: 0 <= i < |xs| ==> f(xs[i]).Success?)
            && (r.Success? ==> forall i :: 0 <= i < |xs| ==> f(xs[i]) == Success(r.value[i]))
            && (r.Failure? ==>
                  exists i :: 0 <= i < |xs| && f(xs[i]) == Failure(r.error) &&
                              forall j :: 0 <= j < i ==> f(xs[j]).Success?)
    decreases |xs|
  {
    if xs != [] {
      CollectSpec(xs[1..], f);
      var r := Collect(xs, f);
      if f(xs[0]).Success? && Collect(xs[1..], f).Success? {
        assert forall i :: 1 <= i < |xs| ==> xs[i] == xs[1..][i - 1];
      } else if f(xs[0]).Success? {
        var i :| 0 <= i < |xs[1..]| && f(xs[1..][i]) == Failure(r.error) &&
                 forall j :: 0 <= j < i ==> f(xs[1..][j]).Success?;
        assert f(xs[i + 1]) == Failure(r.error);
        assert forall j :: 0 < j < i + 1 ==> f(xs[j]).Success? by {
          assert forall j :: 0 < j < i + 1 ==> xs[j] == xs[1..][j - 1];
        }
      } else {
        assert f(xs[0]) == Failure(r.error);
      }
    }
  }

  /** Collecting a concatenation collects the two halves in order. */
  lemma {:induction false} CollectAppend<T, U, E>(xs: seq<T>, ys: seq<T>, f: T -> Result<U, E>)
    ensures Collect(xs + ys, f) ==
              match Collect(xs, f)
              case Failure(e) => Failure(e)
              case Success(us) =>
                match Collect(ys, f)
                case Failure(e) => Failure(e)
                case Success(vs) => Success(us + vs)
    decreases |xs|
  {
    if xs == [] {
      assert xs + ys == ys;
      match Collect(ys, f)
      case Failure(_) =>
      case Success(vs) => assert [] + vs == vs;
    } else {
      assert (xs + ys)[0] == xs[0];
      assert (xs + ys)[1..] == xs[1..] + ys;
      CollectAppend(xs[1..], ys, f);
      match f(xs[0])
      case Failure(_) =>
      case Success(y) =>
        match Collect(xs[1..], f)
        case Failure(_) =>
        case Success(us) =>
          match Collect(ys, f)
          case Failure(_) =>
          case Success(vs) =>
            assert [y] + (us + vs) == ([y] + us) + vs;
    }
  }

  /** A failure in a prefix is the failure of the whole run. */
  lemma FailureIsFinal<T, U, E>(xs: seq<T>, ys: seq<T>, f: T -> Result<U, E>)
    requires Collect(xs, f).Failure?
    ensures Collect(xs + ys, f) == Collect(xs, f)
  {
    CollectAppend(xs, ys, f);
  }

  /** A chunk that succeeds as a whole extends the results collected so far. */
  lemma ChunkExtends<T, U, E>(done: seq<T>, chunk: seq<T>, f: T -> Result<U, E>, us: seq<U>)
    requires Collect(done, f) == Success(us)
    requires Collect(chunk, f).Success?
    ensures Collect(done + chunk, f) == Success(us + Collect(chunk, f).value)
  {
    CollectAppend(done, chunk, f);
  }

  /** A chunk that fails decides the outcome, whatever follows it. */
  lemma ChunkStops<T, U, E>(done: seq<T>, chunk: seq<T>, rest: seq<T>, f: T -> Result<U, E>, us: seq<U>)
    requires Collect(done, f) == Success(us)
    requires Collect(chunk, f).Failure?
    ensures Collect(done + chunk + rest, f) == Collect(chunk, f)
  {
    CollectAppend(done, chunk, f);
    FailureIsFinal(done + chunk, rest, f);
  }

  /** Once a prefix succeeds and the next step fails, the whole run fails with that step's error. */
  lemma StopsAtFailure<T, U, E>(done: seq<T>, x: T, rest: seq<T>, f: T -> Result<U, E>, us: seq<U>)
    requires Collect(done, f) == Success(us)
    requires f(x).Failure?
    ensures Collect(done + [x] + rest, f) == Failure(f(x).error)
  {
    CollectAppend(done, [x] + rest, f);
    assert done + [x] + rest == done + ([x] + rest);
    assert ([x] + rest)[0] == x;
  }

  /** Appending one successful step extends the collected values by its result. */
  lemma ExtendsOnSuccess<T, U, E>(done: seq<T>, x: T, f: T -> Result<U, E>, us: seq<U>)
    requires Collect(done, f) == Success(us)
    requires f(x).Success?
    ensures Collect(done + [x], f) == Success(us + [f(x).value])
  {
    CollectAppend(done, [x], f);
    assert [x][0] == x && [x][1..] == [];
    assert Collect([x][1..], f) == Success([]);
    assert [f(x).value] + [] == [f(x).value];
  }
}
