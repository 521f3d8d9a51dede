/** Sequential consistency: one total order explains every GET and PUT on the key. */
module ScOrder {
  import opened Clock
  import opened Sc
  import opened ScSystem

  /** Clock first, the write before the reads that saw it, then the order things happened in. */
  ghost predicate Before(h: seq<Event>, i: nat, j: nat)
    requires i < |h| && j < |h|
  {
    || Less(h[i].ts, h[j].ts)
    || (h[i].ts == h[j].ts && h[i].Wrote? && !h[j].Wrote?)
    || (h[i].ts == h[j].ts && (h[i].Wrote? <==> h[j].Wrote?) && i < j)
  }

  ghost predicate Indices(order: seq<nat>, n: nat) {
    forall p :: 0 <= p < |order| ==> order[p] < n
  }

  ghost predicate Sorted(h: seq<Event>, order: seq<nat>)
    requires Indices(order, |h|)
  {
    forall p, q :: 0 <= p < q < |order| ==> Before(h, order[p], order[q])
  }

  ghost function Insert(h: seq<Event>, order: seq<nat>, k: nat): (r: seq<nat>)
    requires k < |h| && Indices(order, |h|)
    ensures Indices(r, |h|)
  {
    if order == [] then [k]
    else if Before(h, k, order[0]) then [k] + order
    else [order[0]] + Insert(h, order[1..], k)
  }

  lemma {:induction false} InsertHas(h: seq<Event>, order: seq<nat>, k: nat, i: nat)
    requires k < |h| && Indices(order, |h|)
    ensures i in Insert(h, order, k) <==> i == k || i in order
  {
    if order != [] && !Before(h, k, order[0]) {
      InsertHas(h, order[1..], k, i);
      assert order == [order[0]] + order[1..];
    }
  }

  lemma SortedCons(h: seq<Event>, first: nat, rest: seq<nat>)
    requires first < |h| && Indices(rest, |h|) && Sorted(h, rest)
    requires forall q :: 0 <= q < |rest| ==> Before(h, first, rest[q])
    ensures Sorted(h, [first] + rest)
  {
  }

  lemma {:induction false} InsertSorted(h: seq<Event>, order: seq<nat>, k: nat)
    requires k < |h| && Indices(order, |h|) && Sorted(h, order) && k !in order
    ensures Sorted(h, Insert(h, order, k))
  {
    if order == [] {
    } else {
      if Before(h, k, order[0]) {
        forall q | 0 <= q < |order| ensures Before(h, k, order[q]) {
          assert q > 0 ==> Before(h, order[0], order[q]);
        }
        SortedCons(h, k, order);
      } else {
        var tail := order[1..];
        InsertSorted(h, tail, k);
        var rest := Insert(h, tail, k);
        forall q | 0 <= q < |rest| ensures Before(h, order[0], rest[q]) {
          InsertHas(h, tail, k, rest[q]);
          if rest[q] != k {
            var p :| 0 <= p < |tail| && tail[p] == rest[q];
            assert Before(h, order[0], order[p + 1]);
          }
        }
        SortedCons(h, order[0], rest);
      }
    }
  }

  /** The positions below `n` of the history, sorted. */
  ghost function Order(h: seq<Event>, n: nat): (r: seq<nat>)
    requires n <= |h|
    ensures Indices(r, |h|)
  {
    if n == 0 then [] else Insert(h, Order(h, n - 1), n - 1)
  }

  lemma {:induction false} OrderHas(h: seq<Event>, n: nat, i: nat)
    requires n <= |h|
    ensures i in Order(h, n) <==> i < n
  {
    if n == 0 {
    } else {
      OrderHas(h, n - 1, i);
      InsertHas(h, Order(h, n - 1), n - 1, i);
    }
  }

  lemma {:induction false} OrderSorted(h: seq<Event>, n: nat)
    requires n <= |h|
    ensures Sorted(h, Order(h, n))
  {
    if n == 0 {
    } else {
      OrderSorted(h, n - 1);
      OrderHas(h, n - 1, n - 1);
      InsertSorted(h, Order(h, n - 1), n - 1);
    }
  }

  // ----- Histories of the protocol -----

  /** The value was written earlier in the history, or before it began. */
  ghost predicate WrittenBy(issued: map<Timestamp, Value>, h: seq<Event>, j: nat)
    requires j < |h|
  {
    || (h[j].ts in issued && issued[h[j].ts] == h[j].value)
    || exists i :: 0 <= i < j && h[i] == Wrote(h[j].ts.cid, h[j].ts, h[j].value)
  }

  /** A machine's own events never go back in clock order, and its writes go forward. */
  ghost predicate MachineOrder(h: seq<Event>) {
    forall i, j :: 0 <= i < j < |h| && h[i].m == h[j].m ==>
      AtMost(h[i].ts, h[j].ts) && (h[j].Wrote? ==> Less(h[i].ts, h[j].ts))
  }

  /** What machine `m` does from state `s` on lies at or above its copy, and its writes strictly above. */
  ghost predicate StartsAt(s: System, h: seq<Event>) {
    forall j :: 0 <= j < |h| ==>
      && h[j].m < |s.copies| && AtMost(s.copies[h[j].m].ts, h[j].ts)
      && (h[j].Wrote? ==> h[j].ts.cid == h[j].m && Less(s.copies[h[j].m].ts, h[j].ts))
  }

  ghost predicate Coherent(s: System, h: seq<Event>) {
    && StartsAt(s, h)
    && MachineOrder(h)
    && (forall j :: 0 <= j < |h| ==> h[j].Wrote? || WrittenBy(s.issued, h, j))
  }

  /** Putting an event in front of a coherent history of the state it leads to. */
  lemma Prepend(s: System, t: System, e: Event, h: seq<Event>)
    requires |s.copies| == |t.copies| && Coherent(t, h) && e.m < |s.copies| && e.ts == t.copies[e.m].ts
    requires AtMost(s.copies[e.m].ts, e.ts)
    requires forall m: nat :: m < |s.copies| ==> AtMost(s.copies[m].ts, t.copies[m].ts)
    requires if e.Wrote? then Less(s.copies[e.m].ts, e.ts) && e.ts.cid == e.m && t.issued == s.issued[e.ts := e.value]
             else t.issued == s.issued && e.ts in s.issued && s.issued[e.ts] == e.value
    ensures Coherent(s, [e] + h)
  {
    var g := [e] + h;
    forall j | 0 < j < |g| ensures g[j].Wrote? || WrittenBy(s.issued, g, j) {
      assert g[j] == h[j - 1];
      if !h[j - 1].Wrote? && !(h[j - 1].ts in s.issued && s.issued[h[j - 1].ts] == h[j - 1].value) {
        assert WrittenBy(t.issued, h, j - 1);
        if exists i :: 0 <= i < j - 1 && h[i] == Wrote(h[j - 1].ts.cid, h[j - 1].ts, h[j - 1].value) {
          var i :| 0 <= i < j - 1 && h[i] == Wrote(h[j - 1].ts.cid, h[j - 1].ts, h[j - 1].value);
          assert g[i + 1] == h[i];
        } else {
          assert g[0] == Wrote(g[j].ts.cid, g[j].ts, g[j].value);
        }
      }
    }
  }

  lemma DeliveryCoherent(s: System, t: System, h: seq<Event>)
    requires Coherent(t, h) && |s.copies| == |t.copies| && t.issued == s.issued
    requires forall m: nat :: m < |s.copies| ==> AtMost(s.copies[m].ts, t.copies[m].ts)
    ensures Coherent(s, h)
  {
    forall j | 0 <= j < |h| ensures h[j].Wrote? || WrittenBy(s.issued, h, j) {
      assert h[j].Wrote? || WrittenBy(t.issued, h, j);
    }
  }

  lemma ObservedCoherent(s: System, step: Step, h: seq<Event>)
    requires Safe(s) && Enabled(s, step) && Coherent(Next(s, step), h)
    ensures Coherent(s, Observe(s, step) + h)
  {
    var t := Next(s, step);
    if step.Deliver? {
      assert Observe(s, step) + h == h;
      DeliveryCoherent(s, t, h);
    } else {
      assert CopyOk(s, step.m);
      Prepend(s, t, Observe(s, step)[0], h);
      assert Observe(s, step) == [Observe(s, step)[0]];
    }
  }

  lemma {:induction false} HistoryCoherent(s: System, steps: seq<Step>)
    requires Safe(s) && Runs(s, steps)
    ensures Coherent(s, History(s, steps))
    decreases |steps|
  {
    if steps == [] {
    } else {
      StepSafe(s, steps[0]);
      HistoryCoherent(Next(s, steps[0]), steps[1..]);
      ObservedCoherent(s, steps[0], History(Next(s, steps[0]), steps[1..]));
    }
  }

  // ----- The total order -----

  /** Each machine's events appear in the order the machine made them. */
  ghost predicate ExtendsMachineOrder(h: seq<Event>, order: seq<nat>)
    requires Indices(order, |h|)
  {
    forall p, q :: 0 <= p < q < |order| && h[order[p]].m == h[order[q]].m ==> order[p] < order[q]
  }

  ghost predicate NoWriteIn(h: seq<Event>, order: seq<nat>, from: nat, to: nat)
    requires Indices(order, |h|) && from <= to <= |order|
  {
    forall p :: from <= p < to ==> !h[order[p]].Wrote?
  }

  /** The read at position `q` returns the latest write before it, or the initial value if there is none. */
  ghost predicate ReadsLatest(h: seq<Event>, order: seq<nat>, initial: Value, q: nat)
    requires Indices(order, |h|) && q < |order|
  {
    var e := h[order[q]];
    || (exists p: nat :: p < q && h[order[p]] == Wrote(e.ts.cid, e.ts, e.value) && NoWriteIn(h, order, p + 1, q))
    || (e.ts == ZERO && e.value == initial && NoWriteIn(h, order, 0, q))
  }

  /**
   For every run there is one order of all GETs and PUTs on the key, each exactly once, that extends every
   machine's own order and in which each GET returns the value of the latest earlier PUT.
   */
  lemma SequentiallyConsistent(machines: nat, value: Value, steps: seq<Step>) returns (order: seq<nat>)
    requires machines >= 1 && Runs(Initial(machines, value), steps)
    ensures var h := History(Initial(machines, value), steps);
            && Indices(order, |h|)
            && (forall i: nat :: i < |h| ==> i in order)
            && (forall p, q :: 0 <= p < q < |order| ==> order[p] != order[q])
            && ExtendsMachineOrder(h, order)
            && (forall q: nat :: q < |order| && h[order[q]].Saw? ==> ReadsLatest(h, order, value, q))
  {
    var s := Initial(machines, value);
    var h := History(s, steps);
    InitialSafe(machines, value);
    HistoryCoherent(s, steps);
    order := Order(h, |h|);
    OrderSorted(h, |h|);
    forall i: nat | i < |h| ensures i in order { OrderHas(h, |h|, i); }
    forall p, q | 0 <= p < q < |order| ensures order[p] != order[q] { assert Before(h, order[p], order[q]); }
    forall q: nat | q < |order| && h[order[q]].Saw? ensures ReadsLatest(h, order, value, q) {
      ReadExplained(s, h, order, value, q);
    }
  }

  /** Two writes never share a clock. */
  lemma WritesDistinct(s: System, h: seq<Event>, i: nat, j: nat)
    requires Coherent(s, h) && i < |h| && j < |h| && h[i].Wrote? && h[j].Wrote? && h[i].ts == h[j].ts
    ensures i == j
  {
    assert h[i].m == h[j].m;
  }

  lemma ReadExplained(s: System, h: seq<Event>, order: seq<nat>, initial: Value, q: nat)
    requires Coherent(s, h) && s.issued == map[ZERO := initial]
    requires forall m: nat :: m < |s.copies| ==> s.copies[m].ts == ZERO
    requires Indices(order, |h|) && Sorted(h, order) && (forall i: nat :: i < |h| ==> i in order)
    requires q < |order| && h[order[q]].Saw?
    ensures ReadsLatest(h, order, initial, q)
  {
    var e := h[order[q]];
    assert WrittenBy(s.issued, h, order[q]);
    if e.ts == ZERO && e.value == initial {
      forall p | 0 <= p < q ensures !h[order[p]].Wrote? { assert Before(h, order[p], order[q]); }
    } else {
      var i :| 0 <= i < order[q] && h[i] == Wrote(e.ts.cid, e.ts, e.value);
      assert i in order;
      var p :| 0 <= p < |order| && order[p] == i;
      assert !Before(h, order[q], order[p]);
      forall r | p < r < q ensures !h[order[r]].Wrote? {
        assert Before(h, order[p], order[r]) && Before(h, order[r], order[q]);
        if h[order[r]].Wrote? { WritesDistinct(s, h, i, order[r]); }
      }
    }
  }
}
