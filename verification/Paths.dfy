/** Runs of an arbitrary step relation, by their ends, and what carries over from single steps to runs. */
module Paths {

  /** The steps lead from `s` to `u`. */
  ghost predicate Leads<S(!new), T>(moves: (S, T, S) -> bool, s: S, steps: seq<T>, u: S)
    decreases |steps|
  {
    if steps == [] then s == u else exists t :: moves(s, steps[0], t) && Leads(moves, t, steps[1..], u)
  }

  lemma LeadsOne<S(!new), T>(moves: (S, T, S) -> bool, s: S, step: T, u: S)
    requires moves(s, step, u)
    ensures Leads(moves, s, [step], u)
  {
    assert [step][1..] == [] && Leads(moves, u, [], u);
  }

  lemma {:induction false} LeadsThen<S(!new), T>(moves: (S, T, S) -> bool, s: S, a: seq<T>, t: S, b: seq<T>, u: S)
    requires Leads(moves, s, a, t) && Leads(moves, t, b, u)
    ensures Leads(moves, s, a + b, u)
    decreases |a|
  {
    if a == [] {
      assert a + b == b;
    } else {
      var v :| moves(s, a[0], v) && Leads(moves, v, a[1..], t);
      LeadsThen(moves, v, a[1..], t, b, u);
      assert (a + b)[0] == a[0] && (a + b)[1..] == a[1..] + b;
    }
  }

  /** What every step keeps, every run keeps. */
  lemma {:induction false} Kept<S(!new), T(!new)>(
    moves: (S, T, S) -> bool, holds: S -> bool, s: S, steps: seq<T>, u: S)
    requires forall a, t, b :: holds(a) && moves(a, t, b) ==> holds(b)
    requires holds(s) && Leads(moves, s, steps, u)
    ensures holds(u)
    decreases |steps|
  {
    if steps == [] {
    } else {
      var t :| moves(s, steps[0], t) && Leads(moves, t, steps[1..], u);
      Kept(moves, holds, t, steps[1..], u);
    }
  }

  function Flat<T, O>(ops: T -> seq<O>, steps: seq<T>): seq<O> {
    if steps == [] then [] else ops(steps[0]) + Flat(ops, steps[1..])
  }

  /** If every step, seen through `abs`, is a run of another relation, so is every run. */
  lemma {:induction false} Refined<S(!new), T(!new), A(!new), O>(
    moves: (S, T, S) -> bool, coarse: (A, O, A) -> bool, holds: S -> bool, abs: S -> A, ops: T -> seq<O>,
    s: S, steps: seq<T>, u: S)
    requires forall a, t, b :: holds(a) && moves(a, t, b) ==> holds(b) && Leads(coarse, abs(a), ops(t), abs(b))
    requires holds(s) && Leads(moves, s, steps, u)
    ensures holds(u) && Leads(coarse, abs(s), Flat(ops, steps), abs(u))
    decreases |steps|
  {
    if steps == [] {
    } else {
      var t :| moves(s, steps[0], t) && Leads(moves, t, steps[1..], u);
      Refined(moves, coarse, holds, abs, ops, t, steps[1..], u);
      LeadsThen(coarse, abs(s), ops(steps[0]), abs(t), Flat(ops, steps[1..]), abs(u));
    }
  }

  /** From `s`, steps lead to a state that stands for `b`. */
  ghost predicate Matched<S(!new), T(!new), A>(moves: (S, T, S) -> bool, stands: (S, A) -> bool, s: S, b: A) {
    exists steps, u :: Leads(moves, s, steps, u) && stands(u, b)
  }

  /** If every coarse step can be matched, so can every coarse run. */
  lemma {:induction false} Simulated<S(!new), T(!new), A(!new), O(!new)>(
    moves: (S, T, S) -> bool, coarse: (A, O, A) -> bool, stands: (S, A) -> bool, s: S, a: A, ops: seq<O>, b: A)
    returns (steps: seq<T>, u: S)
    requires forall t, c, op, d :: stands(t, c) && coarse(c, op, d) ==> Matched(moves, stands, t, d)
    requires stands(s, a) && Leads(coarse, a, ops, b)
    ensures Leads(moves, s, steps, u) && stands(u, b)
    decreases |ops|
  {
    if ops == [] {
      steps, u := [], s;
    } else {
      var c :| coarse(a, ops[0], c) && Leads(coarse, c, ops[1..], b);
      assert Matched(moves, stands, s, c);
      var first, t :| Leads(moves, s, first, t) && stands(t, c);
      var rest;
      rest, u := Simulated(moves, coarse, stands, t, c, ops[1..], b);
      LeadsThen(moves, s, first, t, rest, u);
      steps := first + rest;
    }
  }

  /** A run that loses a property loses it at some step. */
  lemma {:induction false} Crossing<S(!new), T>(moves: (S, T, S) -> bool, holds: S -> bool, s: S, steps: seq<T>, u: S)
    returns (a: seq<T>, x: S, step: T, y: S, b: seq<T>)
    requires holds(s) && !holds(u) && Leads(moves, s, steps, u)
    ensures Leads(moves, s, a, x) && holds(x) && moves(x, step, y) && !holds(y) && Leads(moves, y, b, u)
    ensures steps == a + [step] + b
    decreases |steps|
  {
    var t :| moves(s, steps[0], t) && Leads(moves, t, steps[1..], u);
    if holds(t) {
      a, x, step, y, b := Crossing(moves, holds, t, steps[1..], u);
      assert steps == [steps[0]] + a + [step] + b;
      LeadsOne(moves, s, steps[0], t);
      LeadsThen(moves, s, [steps[0]], t, a, x);
      a := [steps[0]] + a;
    } else {
      a, x, step, y, b := [], s, steps[0], t, steps[1..];
    }
  }
}
