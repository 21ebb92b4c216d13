/** The shape of the parser's loop, for any per-line step: the lines are
    taken in order, numbered from `at`, each updating the state, and the
    first line whose step fails aborts the whole run with its error. */
module LineFold {
  import opened Wrappers

  function Fold<S, E>(step: (S, string, nat) -> Result<S, E>, state: S, lines: seq<string>, at: nat)
    : Result<S, E>
    decreases |lines|
  {
    if lines == [] then Ok(state)
    else
      match step(state, lines[0], at)
      case Err(e) => Err(e)
      case Ok(next) => Fold(step, next, lines[1..], at + 1)
  }

  /** Folding a single line is that line's step. */
  lemma FoldOne<S, E>(step: (S, string, nat) -> Result<S, E>, state: S, line: string, at: nat)
    ensures Fold(step, state, [line], at) == step(state, line, at)
  {
    assert [line][1..] == [];
  }

  /** Folding `a + b` is folding `a`, then folding `b` from where `a` ended,
      its first line numbered after the last of `a`. */
  lemma {:induction false} FoldAppend<S, E>(
    step: (S, string, nat) -> Result<S, E>, state: S, a: seq<string>, b: seq<string>, at: nat)
    ensures Fold(step, state, a, at).Err? ==> Fold(step, state, a + b, at) == Fold(step, state, a, at)
    ensures Fold(step, state, a, at).Ok? ==>
              Fold(step, state, a + b, at) == Fold(step, Fold(step, state, a, at).value, b, at + |a|)
    decreases |a|
  {
    if a == [] {
      assert a + b == b;
    } else {
      assert (a + b)[0] == a[0];
      assert (a + b)[1..] == a[1..] + b;
      var r := step(state, a[0], at);
      if r.Ok? {
        FoldAppend(step, r.value, a[1..], b, at + 1);
      }
    }
  }

  /** A failing fold fails on the first line whose step fails: the lines
      before it all succeed, and its error is that line's. */
  lemma {:induction false} FoldFailsAtFirstBadLine<S, E>(
    step: (S, string, nat) -> Result<S, E>, state: S, lines: seq<string>, at: nat)
    requires Fold(step, state, lines, at).Err?
    ensures exists k :: 0 <= k < |lines|
              && Fold(step, state, lines[..k], at).Ok?
              && step(Fold(step, state, lines[..k], at).value, lines[k], at + k)
                   == Fold(step, state, lines, at)
    decreases |lines|
  {
    var r := step(state, lines[0], at);
    if r.Err? {
      assert lines[..0] == [];
    } else {
      FoldFailsAtFirstBadLine(step, r.value, lines[1..], at + 1);
      var k :| 0 <= k < |lines| - 1
                && Fold(step, r.value, lines[1..][..k], at + 1).Ok?
                && step(Fold(step, r.value, lines[1..][..k], at + 1).value, lines[1..][k], at + 1 + k)
                     == Fold(step, r.value, lines[1..], at + 1);
      assert lines[..k + 1][0] == lines[0];
      assert lines[..k + 1][1..] == lines[1..][..k];
      assert lines[k + 1] == lines[1..][k];
    }
  }

  /** Lines whose step leaves the state as it is, however many, change
      nothing. */
  lemma {:induction false} FoldNoOps<S, E>(
    step: (S, string, nat) -> Result<S, E>, state: S, lines: seq<string>, at: nat)
    requires forall k :: 0 <= k < |lines| ==> step(state, lines[k], at + k) == Ok(state)
    ensures Fold(step, state, lines, at) == Ok(state)
    decreases |lines|
  {
    if lines != [] {
      assert step(state, lines[0], at + 0) == Ok(state);
      forall k | 0 <= k < |lines| - 1
        ensures step(state, lines[1..][k], at + 1 + k) == Ok(state)
      {
        assert step(state, lines[k + 1], at + (k + 1)) == Ok(state);
      }
      FoldNoOps(step, state, lines[1..], at + 1);
    }
  }
}
