/** Processes, priority queues and returned lists of the scheduling lab. */
module Processes {
  import opened Schedules

  /** `id` is the row of the workload the process came from.  The program has no
      such field; it identifies equal rows and is never read by the loops. */
  datatype Process = Process(id: nat, arrival: int, firstRun: int, duration: int, completion: int)

  /** A priority queue holds each process once; `Top` leaves ties open. */
  type Queue = set<Process>

  function ArrivalKey(p: Process): (int, int) { (p.arrival, p.duration) }

  function DurationKey(p: Process): (int, int) { (p.duration, p.arrival) }

  predicate KeyLeq(x: (int, int), y: (int, int)) { x.0 < y.0 || (x.0 == y.0 && x.1 <= y.1) }

  /** The front of a priority queue: no element has a smaller key. */
  method Top(q: Queue, key: Process -> (int, int)) returns (p: Process)
    requires q != {}
    ensures p in q && forall x :: x in q ==> KeyLeq(key(p), key(x))
  {
    p :| p in q;
    var rest := q - {p};
    while rest != {}
      invariant rest <= q && p in q
      invariant forall x :: x in q && x !in rest ==> KeyLeq(key(p), key(x))
    {
      var x :| x in rest;
      if !KeyLeq(key(p), key(x)) { p := x; }
      rest := rest - {x};
    }
  }

  function Fresh(w: seq<Job>, i: nat): Process
    requires i < |w|
  {
    Process(i, w[i].arrival, -1, w[i].duration, -1)
  }

  /** The queue built from the rows of a workload file. */
  method ReadWorkload(w: seq<Job>) returns (q: Queue)
    ensures q == set i | 0 <= i < |w| :: Fresh(w, i)
  {
    q := {};
    for k := 0 to |w|
      invariant q == set i | 0 <= i < k :: Fresh(w, i)
    {
      q := q + {Fresh(w, k)};
    }
  }

  ghost function Ids(q: Queue): set<nat> { set p | p in q :: p.id }

  /** First slot given to `i`, or -1. */
  function FirstRun(s: Schedule, i: nat): int {
    if s == [] then -1
    else
      var f := FirstRun(s[..|s|-1], i);
      if f == -1 && s[|s|-1] == Run(i) then |s| - 1 else f
  }

  // ----- what a returned list says -----

  /** Entry of the returned list: the process ran as `s` says. */
  ghost predicate Completed(w: seq<Job>, s: Schedule, p: Process) {
    && p.id < |w| && p.arrival == w[p.id].arrival
    && p.firstRun == FirstRun(s, p.id)
    && 0 <= p.completion && CompletesAt(w, s, p.id, p.completion)
  }

  ghost predicate DistinctIds(ps: seq<Process>) {
    forall j, k :: 0 <= j < k < |ps| ==> ps[j].id != ps[k].id
  }

  ghost predicate Listed(ps: seq<Process>, i: nat) {
    exists k :: 0 <= k < |ps| && ps[k].id == i
  }

  /** Every row of the workload is returned exactly once, with the times at which
      schedule `s` first ran it and finished it. */
  ghost predicate Outcome(w: seq<Job>, s: Schedule, ps: seq<Process>) {
    && DistinctIds(ps)
    && (forall k :: 0 <= k < |ps| ==> Completed(w, s, ps[k]))
    && forall i :: 0 <= i < |w| ==> Listed(ps, i)
  }

  /** Numerator of the average turnaround. */
  function TotalTurnaround(ps: seq<Process>): int {
    if ps == [] then 0
    else TotalTurnaround(ps[..|ps|-1]) + ps[|ps|-1].completion - ps[|ps|-1].arrival
  }

  lemma {:induction false} TotalTurnaroundAppend(xs: seq<Process>, ys: seq<Process>)
    ensures TotalTurnaround(xs + ys) == TotalTurnaround(xs) + TotalTurnaround(ys)
  {
    if ys == [] { assert xs + ys == xs; } else {
      assert (xs + ys)[..|xs + ys|-1] == xs + ys[..|ys|-1];
      TotalTurnaroundAppend(xs, ys[..|ys|-1]);
    }
  }

  lemma TotalTurnaroundRemove(ps: seq<Process>, k: nat)
    requires k < |ps|
    ensures TotalTurnaround(ps) ==
            TotalTurnaround(ps[..k] + ps[k+1..]) + ps[k].completion - ps[k].arrival
  {
    assert ps == (ps[..k] + [ps[k]]) + ps[k+1..];
    assert (ps[..k] + [ps[k]])[..k] == ps[..k];
    TotalTurnaroundAppend(ps[..k] + [ps[k]], ps[k+1..]);
    TotalTurnaroundAppend(ps[..k], ps[k+1..]);
  }

  ghost predicate Agrees(w: seq<Job>, done: seq<int>, p: Process)
    requires |done| == |w|
  {
    p.id < |w| && p.arrival == w[p.id].arrival && p.completion == done[p.id]
  }

  /** A list that names each row once sums to the turnaround of the rows. */
  lemma {:induction false} ListTurnaround(w: seq<Job>, done: seq<int>, ps: seq<Process>)
    requires |done| == |w| && DistinctIds(ps)
    requires forall k :: 0 <= k < |ps| ==> Agrees(w, done, ps[k])
    requires forall i :: 0 <= i < |w| ==> Listed(ps, i)
    ensures TotalTurnaround(ps) == Turnaround(w, done)
  {
    if ps == [] {
      assert !Listed(ps, 0);
    } else {
      assert Agrees(w, done, ps[0]);
      var n := |w| - 1;
      assert Listed(ps, n);
      var k :| 0 <= k < |ps| && ps[k].id == n;
      var qs := ps[..k] + ps[k+1..];
      RemoveListed(w, done, ps, k);
      ListTurnaround(w[..n], done[..n], qs);
      TotalTurnaroundRemove(ps, k);
      assert Agrees(w, done, ps[k]);
    }
  }

  lemma RemoveListed(w: seq<Job>, done: seq<int>, ps: seq<Process>, k: nat)
    requires 0 < |done| == |w| && DistinctIds(ps)
    requires forall j :: 0 <= j < |ps| ==> Agrees(w, done, ps[j])
    requires k < |ps| && ps[k].id == |w| - 1
    ensures var n, qs := |w| - 1, ps[..k] + ps[k+1..];
            && DistinctIds(qs)
            && (forall j :: 0 <= j < |qs| ==> Agrees(w[..n], done[..n], qs[j]))
            && forall i :: 0 <= i < n && Listed(ps, i) ==> Listed(qs, i)
  {
    var n, qs := |w| - 1, ps[..k] + ps[k+1..];
    forall j | 0 <= j < |qs| ensures Agrees(w[..n], done[..n], qs[j]) {
      var j' := if j < k then j else j + 1;
      assert qs[j] == ps[j'] && Agrees(w, done, ps[j']);
    }
    forall i | 0 <= i < n && Listed(ps, i) ensures Listed(qs, i) {
      var j :| 0 <= j < |ps| && ps[j].id == i;
      assert qs[if j < k then j else j - 1].id == i;
    }
  }

  ghost function DoneTimes(w: seq<Job>, s: Schedule, ps: seq<Process>): (done: seq<int>)
    requires Outcome(w, s, ps)
    ensures CompletionTimes(w, s, done)
    ensures forall k :: 0 <= k < |ps| ==> Agrees(w, done, ps[k])
  {
    seq(|w|, i requires 0 <= i < |w| =>
      assert Listed(ps, i);
      var k :| 0 <= k < |ps| && ps[k].id == i;
      ps[k].completion)
  }

  /** A list produced by a greedy schedule has minimal total turnaround. */
  lemma GreedyOutcomeLeast(w: seq<Job>, s: Schedule, ps: seq<Process>, o: Schedule, done: seq<int>)
    requires Positive(w) && Greedy(w, s) && Outcome(w, s, ps) && CompletionTimes(w, o, done)
    ensures TotalTurnaround(ps) <= Turnaround(w, done)
  {
    var mine := DoneTimes(w, s, ps);
    ListTurnaround(w, mine, ps);
    GreedyTurnaroundLeast(w, s, mine, o, done);
  }

  lemma CompletedGrows(w: seq<Job>, s: Schedule, x: Slot, p: Process)
    requires Completed(w, s, p) && (x.Run? ==> x.id != p.id)
    ensures Completed(w, s + [x], p)
  {
    assert (s + [x])[..|s|] == s;
    assert forall u :: 0 <= u <= |s| ==> (s + [x])[..u] == s[..u];
  }

  lemma GreedyGrows(w: seq<Job>, s: Schedule, x: Slot)
    requires Greedy(w, s) && GreedyChoice(w, s, x)
    ensures Greedy(w, s + [x])
  {
    var s' := s + [x];
    forall t | 0 <= t < |s'| ensures GreedyChoice(w, s'[..t], s'[t]) {
      assert s'[..t] == s[..t];
    }
  }
}
