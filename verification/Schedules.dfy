/** Single-CPU schedules over a workload, one slot per clock tick, and the
    exchange-free optimality argument for shortest-remaining-time scheduling.

    The argument compares two schedules through the *cut* of a vector of
    remaining times, `Cut(v, c)`, the sum of `min(v[i], c)`.  A greedy schedule
    keeps every cut of its vector at or below the same cut of any other
    schedule; the cut at 1 counts unfinished jobs. */
module Schedules {
  import opened Numbers

  /** One row of a workload file. */
  datatype Job = Job(arrival: int, duration: int)

  datatype Slot = Idle | Run(id: nat)

  /** `s[t]` says who is given the CPU during `[t, t+1)`.  Every sequence is a
      schedule: a slot given to a job that has not arrived or has finished is
      simply wasted. */
  type Schedule = seq<Slot>

  ghost predicate Positive(w: seq<Job>) {
    forall i :: 0 <= i < |w| ==> w[i].duration >= 1
  }

  // ----- remaining and completion time -----

  /** Remaining time of job `i` after all slots of `s`. */
  function Rem(w: seq<Job>, s: Schedule, i: nat): int
    requires i < |w|
  {
    if s == [] then w[i].duration
    else
      var t := |s| - 1;
      var r := Rem(w, s[..t], i);
      if s[t] == Run(i) && w[i].arrival <= t && r > 0 then r - 1 else r
  }

  ghost predicate Done(w: seq<Job>, s: Schedule) {
    forall i :: 0 <= i < |w| ==> Rem(w, s, i) <= 0
  }

  /** Number of finished jobs among the first `n`. */
  function FinishedBelow(w: seq<Job>, s: Schedule, n: nat): nat
    requires n <= |w|
  {
    if n == 0 then 0
    else FinishedBelow(w, s, n - 1) + if Rem(w, s, n - 1) <= 0 then 1 else 0
  }

  function Finished(w: seq<Job>, s: Schedule): nat { FinishedBelow(w, s, |w|) }

  /** `t` is the first instant at which job `i` has nothing left to run. */
  ghost predicate CompletesAt(w: seq<Job>, s: Schedule, i: nat, t: nat)
    requires i < |w|
  {
    && t <= |s|
    && Rem(w, s[..t], i) <= 0
    && forall u :: 0 <= u < t ==> Rem(w, s[..u], i) > 0
  }

  /** Sum of turnaround times, given the completion time of each job. */
  function Turnaround(w: seq<Job>, done: seq<int>): int
    requires |done| == |w|
  {
    if w == [] then 0
    else Turnaround(w[..|w|-1], done[..|w|-1]) + done[|w|-1] - w[|w|-1].arrival
  }

  ghost predicate CompletionTimes(w: seq<Job>, s: Schedule, done: seq<int>) {
    && |done| == |w|
    && forall i :: 0 <= i < |w| ==> 0 <= done[i] && CompletesAt(w, s, i, done[i])
  }

  // ----- greedy schedules -----

  ghost predicate Ready(w: seq<Job>, s: Schedule, i: nat)
    requires i < |w|
  {
    w[i].arrival <= |s| && Rem(w, s, i) > 0
  }

  /** The slot following `s` goes to a ready job of least remaining time, and is
      idle only if no job is ready. */
  ghost predicate GreedyChoice(w: seq<Job>, s: Schedule, x: Slot) {
    match x
    case Idle => forall i :: 0 <= i < |w| ==> !Ready(w, s, i)
    case Run(k) =>
      && k < |w| && Ready(w, s, k)
      && forall i :: 0 <= i < |w| && Ready(w, s, i) ==> Rem(w, s, k) <= Rem(w, s, i)
  }

  ghost predicate Greedy(w: seq<Job>, s: Schedule) {
    forall t :: 0 <= t < |s| ==> GreedyChoice(w, s[..t], s[t])
  }

  // ----- cuts of vectors -----

  type Vec = seq<nat>

  function Cut(v: Vec, c: nat): nat {
    if v == [] then 0 else Cut(v[..|v|-1], c) + Min(v[|v|-1], c)
  }

  /** Every cut of `u` is at most the same cut of `v`. */
  ghost predicate Below(u: Vec, v: Vec) {
    |u| == |v| && forall c: nat :: Cut(u, c) <= Cut(v, c)
  }

  lemma {:induction false} CutUpdate(v: Vec, i: nat, x: nat, c: nat)
    requires i < |v|
    ensures Cut(v[i := x], c) == Cut(v, c) - Min(v[i], c) + Min(x, c)
  {
    var n := |v| - 1;
    if i == n {
      assert v[i := x][..n] == v[..n];
    } else {
      assert v[i := x][..n] == v[..n][i := x];
      CutUpdate(v[..n], i, x, c);
    }
  }

  lemma MinScale(x: nat, c: nat, d: nat)
    requires c <= d
    ensures c * Min(x, d) <= d * Min(x, c)
  {
    if x <= c {
      assert c * x <= d * x;
    } else if x <= d {
      assert c * x <= d * c;
    }
  }

  lemma Distribute(k: nat, x: nat, y: nat)
    ensures k * (x + y) == k * x + k * y
  {
  }

  /** A cut grows ever more slowly with its height. */
  lemma {:induction false} CutConcave(v: Vec, c: nat, d: nat)
    requires c <= d
    ensures c * Cut(v, d) <= d * Cut(v, c)
  {
    if v == [] {
    } else {
      var n := |v| - 1;
      CutConcave(v[..n], c, d);
      MinScale(v[n], c, d);
      Distribute(c, Cut(v[..n], d), Min(v[n], d));
      Distribute(d, Cut(v[..n], c), Min(v[n], c));
    }
  }

  /** Below the least non-zero entry a cut only counts non-zero entries. */
  lemma {:induction false} CutFlat(v: Vec, m: nat, c: nat)
    requires 0 < m && c <= m
    requires forall i :: 0 <= i < |v| && v[i] > 0 ==> m <= v[i]
    ensures Cut(v, c) == c * Cut(v, 1)
  {
    if v == [] {
    } else {
      var n := |v| - 1;
      CutFlat(v[..n], m, c);
      assert c * Cut(v, 1) == c * Cut(v[..n], 1) + c * Min(v[n], 1);
    }
  }

  lemma {:induction false} CutZero(v: Vec, c: nat)
    requires forall i :: 0 <= i < |v| ==> v[i] == 0
    ensures Cut(v, c) == 0
  {
    if v != [] {
      CutZero(v[..|v|-1], c);
    }
  }

  lemma ScaledBelow(m: nat, x: int, c: nat)
    requires c < m && m * x <= c
    ensures x <= 0
  {
  }

  /** One unit missing at height `m` costs less than one unit at height `c < m`. */
  lemma Shortfall(c: nat, m: nat, k: nat, high: nat, low: nat)
    requires c < m
    requires m * k - 1 <= high
    requires c * high <= m * low
    ensures c * k <= low
  {
    Scale(c, m * k - 1, high);
    Regroup(c, m, k);
    Deduct(m, c * k, low);
    ScaledBelow(m, c * k - low, c);
  }

  lemma Scale(c: nat, x: int, y: int)
    requires x <= y
    ensures c * x <= c * y
  {
  }

  lemma Regroup(c: int, m: int, k: int)
    ensures c * (m * k - 1) == m * (c * k) - c
  {
  }

  lemma Deduct(m: int, x: int, y: int)
    ensures m * (x - y) == m * x - m * y
  {
  }

  /** One unit taken from the least non-zero entry of `u`, at most one unit taken
      from any entry of `v`: the order is kept. */
  lemma BelowStep(u: Vec, v: Vec, i: nat, v': Vec)
    requires Below(u, v) && i < |u| && u[i] > 0
    requires forall j :: 0 <= j < |u| && u[j] > 0 ==> u[i] <= u[j]
    requires v' == v || exists j :: 0 <= j < |v| && v[j] > 0 && v' == v[j := v[j] - 1]
    ensures Below(u[i := u[i] - 1], v')
  {
    var m := u[i];
    var u' := u[i := m - 1];
    forall c: nat
      ensures Cut(v, c) - 1 <= Cut(v', c)
    {
      if v' != v {
        var j :| 0 <= j < |v| && v[j] > 0 && v' == v[j := v[j] - 1];
        CutUpdate(v, j, v[j] - 1, c);
      }
    }
    forall c: nat
      ensures Cut(u', c) <= Cut(v', c)
    {
      CutUpdate(u, i, m - 1, c);
      if c < m {
        CutFlat(u, m, c);
        CutFlat(u, m, m);
        assert Cut(u, m) <= Cut(v, m);
        CutConcave(v', c, m);
        Shortfall(c, m, Cut(u, 1), Cut(v', m), Cut(v', c));
      } else {
        assert Cut(u, c) <= Cut(v, c);
      }
    }
  }

  /** Filling the same zero entries with the same values keeps the order. */
  lemma {:induction false} CutArrive(u: Vec, v: Vec, u': Vec, v': Vec, c: nat)
    requires |u| == |v| == |u'| == |v'|
    requires forall i :: 0 <= i < |u| ==>
                           (u'[i] == u[i] && v'[i] == v[i]) || (u[i] == 0 == v[i] && u'[i] == v'[i])
    ensures Cut(u', c) - Cut(u, c) == Cut(v', c) - Cut(v, c)
  {
    if u != [] {
      var n := |u| - 1;
      CutArrive(u[..n], v[..n], u'[..n], v'[..n], c);
    }
  }

  // ----- vectors of schedules -----

  function Left(w: seq<Job>, s: Schedule, i: nat): nat
    requires Positive(w) && i < |w|
  {
    RemNat(w, s, i);
    Rem(w, s, i)
  }

  /** Remaining times of the jobs that have arrived by `t`; others count as 0. */
  function Arrived(w: seq<Job>, s: Schedule, t: int): (v: Vec)
    requires Positive(w)
    ensures |v| == |w|
  {
    seq(|w|, i requires 0 <= i < |w| => if w[i].arrival <= t then Left(w, s, i) else 0)
  }

  /** Remaining times of all jobs. */
  function All(w: seq<Job>, s: Schedule): (v: Vec)
    requires Positive(w)
    ensures |v| == |w|
  {
    seq(|w|, i requires 0 <= i < |w| => Left(w, s, i))
  }

  lemma {:induction false} RemNat(w: seq<Job>, s: Schedule, i: nat)
    requires i < |w| && w[i].duration >= 0
    ensures Rem(w, s, i) >= 0
  {
    if s != [] { RemNat(w, s[..|s|-1], i); }
  }

  lemma {:induction false} NotYetArrived(w: seq<Job>, s: Schedule, i: nat)
    requires i < |w| && |s| <= w[i].arrival
    ensures Rem(w, s, i) == w[i].duration
  {
    if s != [] { NotYetArrived(w, s[..|s|-1], i); }
  }

  lemma {:induction false} RemAntitone(w: seq<Job>, s: Schedule, i: nat, t: nat)
    requires i < |w| && t <= |s|
    ensures Rem(w, s, i) <= Rem(w, s[..t], i)
  {
    if t < |s| {
      var p := s[..|s|-1];
      RemAntitone(w, p, i, t);
      assert p[..t] == s[..t];
    } else {
      assert s[..t] == s;
    }
  }

  /** One slot takes at most one unit, from one job that has arrived. */
  lemma AnySlot(w: seq<Job>, s: Schedule, x: Slot)
    requires Positive(w)
    ensures var v, v' := Arrived(w, s, |s|), Arrived(w, s + [x], |s|);
            v' == v || exists j :: 0 <= j < |v| && v[j] > 0 && v' == v[j := v[j] - 1]
  {
    var v, v' := Arrived(w, s, |s|), Arrived(w, s + [x], |s|);
    assert (s + [x])[..|s|] == s;
    if x.Run? && x.id < |w| && w[x.id].arrival <= |s| && Rem(w, s, x.id) > 0 {
      assert v[x.id] > 0;
      forall i | 0 <= i < |w| ensures v'[i] == v[x.id := v[x.id] - 1][i] { }
      assert v' == v[x.id := v[x.id] - 1];
    } else {
      forall i | 0 <= i < |w| ensures v'[i] == v[i] { }
      assert v' == v;
    }
  }

  lemma GreedySlot(w: seq<Job>, s: Schedule, x: Slot)
    requires Positive(w) && GreedyChoice(w, s, x)
    ensures var v, v' := Arrived(w, s, |s|), Arrived(w, s + [x], |s|);
            match x
            case Idle => v' == v && forall i :: 0 <= i < |v| ==> v[i] == 0
            case Run(k) => k < |v| && v[k] > 0 && v' == v[k := v[k] - 1]
                           && forall j :: 0 <= j < |v| && v[j] > 0 ==> v[k] <= v[j]
  {
    assert (s + [x])[..|s|] == s;
    var v, v' := Arrived(w, s, |s|), Arrived(w, s + [x], |s|);
    if x.Idle? {
      forall i | 0 <= i < |w| ensures v[i] == 0 {
        assert !Ready(w, s, i);
        RemNat(w, s, i);
      }
      assert v' == v;
    } else {
      assert v' == v[x.id := v[x.id] - 1];
      forall j | 0 <= j < |v| && v[j] > 0 ensures v[x.id] <= v[j] {
        assert Ready(w, s, j);
      }
    }
  }

  lemma Arrivals(w: seq<Job>, g: Schedule, o: Schedule, t: int, t': int)
    requires Positive(w) && |g| == |o| <= t + 1 && t <= t'
    requires Below(Arrived(w, g, t), Arrived(w, o, t))
    ensures Below(Arrived(w, g, t'), Arrived(w, o, t'))
  {
    var u, v, u', v' := Arrived(w, g, t), Arrived(w, o, t), Arrived(w, g, t'), Arrived(w, o, t');
    forall i | 0 <= i < |w| && u'[i] != u[i]
      ensures u[i] == 0 == v[i] && u'[i] == v'[i]
    {
      NotYetArrived(w, g, i);
      NotYetArrived(w, o, i);
    }
    forall i | 0 <= i < |w| && v'[i] != v[i]
      ensures u[i] == 0 == v[i] && u'[i] == v'[i]
    {
      NotYetArrived(w, g, i);
      NotYetArrived(w, o, i);
    }
    forall c: nat ensures Cut(u', c) <= Cut(v', c) {
      CutArrive(u, v, u', v', c);
      assert Cut(u, c) <= Cut(v, c);
    }
  }

  /** The cut order holds at every instant. */
  lemma {:induction false} GreedyBelow(w: seq<Job>, g: Schedule, o: Schedule)
    requires Positive(w) && Greedy(w, g) && |g| == |o|
    ensures Below(Arrived(w, g, |g|), Arrived(w, o, |o|))
  {
    if g == [] {
      assert Arrived(w, g, 0) == Arrived(w, o, 0);
    } else {
      var t := |g| - 1;
      var g0, o0 := g[..t], o[..t];
      forall k | 0 <= k < t ensures GreedyChoice(w, g0[..k], g0[k]) {
        assert g0[..k] == g[..k];
      }
      GreedyBelow(w, g0, o0);
      assert g == g0 + [g[t]] && o == o0 + [o[t]];
      GreedySlot(w, g0, g[t]);
      AnySlot(w, o0, o[t]);
      var u, v, v' := Arrived(w, g0, t), Arrived(w, o0, t), Arrived(w, o, t);
      if g[t].Idle? {
        forall c: nat ensures Cut(u, c) <= Cut(v', c) { CutZero(u, c); }
      } else {
        BelowStep(u, v, g[t].id, v');
      }
      Arrivals(w, g, o, t, t + 1);
    }
  }

  lemma {:induction false} ArrivedBound(w: seq<Job>, n: nat) returns (t: int)
    requires n <= |w|
    ensures forall i :: 0 <= i < n ==> w[i].arrival <= t
  {
    if n == 0 { t := 0; } else {
      var p := ArrivedBound(w, n - 1);
      t := if p <= w[n-1].arrival then w[n-1].arrival else p;
    }
  }

  lemma {:induction false} CountFinished(w: seq<Job>, s: Schedule, n: nat)
    requires Positive(w) && n <= |w|
    ensures FinishedBelow(w, s, n) == n - Cut(All(w, s)[..n], 1)
  {
    if n > 0 {
      CountFinished(w, s, n - 1);
      assert All(w, s)[..n][..n-1] == All(w, s)[..n-1];
      RemNat(w, s, n - 1);
    }
  }

  /** Equal-length schedules: the greedy one has finished at least as many jobs. */
  lemma GreedyFinishesMost(w: seq<Job>, g: Schedule, o: Schedule)
    requires Positive(w) && Greedy(w, g) && |g| == |o|
    ensures Finished(w, g) >= Finished(w, o)
  {
    GreedyBelow(w, g, o);
    var t := ArrivedBound(w, |w|);
    if t < |g| { t := |g|; }
    Arrivals(w, g, o, |g|, t);
    assert Arrived(w, g, t) == All(w, g) && Arrived(w, o, t) == All(w, o);
    CountFinished(w, g, |w|);
    CountFinished(w, o, |w|);
    assert All(w, g)[..|w|] == All(w, g) && All(w, o)[..|w|] == All(w, o);
  }

  // ----- schedules of different lengths -----

  function Pad(s: Schedule, n: nat): (r: Schedule) {
    s + seq(n, _ => Idle)
  }

  lemma {:induction false} PadRem(w: seq<Job>, s: Schedule, n: nat, i: nat)
    requires i < |w|
    ensures Rem(w, Pad(s, n), i) == Rem(w, s, i)
  {
    if n == 0 {
      assert Pad(s, n) == s;
    } else {
      PadRem(w, s, n - 1, i);
      assert Pad(s, n)[..|s| + n - 1] == Pad(s, n - 1);
    }
  }

  lemma {:induction false} PadFinished(w: seq<Job>, s: Schedule, n: nat, k: nat)
    requires k <= |w|
    ensures FinishedBelow(w, Pad(s, n), k) == FinishedBelow(w, s, k)
  {
    if k > 0 {
      PadFinished(w, s, n, k - 1);
      PadRem(w, s, n, k - 1);
    }
  }

  lemma PadGreedy(w: seq<Job>, g: Schedule, n: nat)
    requires Greedy(w, g) && Done(w, g)
    ensures Greedy(w, Pad(g, n))
  {
    var p := Pad(g, n);
    forall t | 0 <= t < |p| ensures GreedyChoice(w, p[..t], p[t]) {
      if t < |g| {
        assert p[..t] == g[..t];
      } else {
        assert p[..t] == Pad(g, t - |g|);
        forall i | 0 <= i < |w| ensures !Ready(w, p[..t], i) {
          PadRem(w, g, t - |g|, i);
        }
      }
    }
  }

  function Prefix(s: Schedule, t: nat): (r: Schedule) { if t <= |s| then s[..t] else s }

  /** Dominance: at every instant `t`, a finished greedy schedule has finished at
      least as many jobs as any other schedule. */
  lemma Dominance(w: seq<Job>, g: Schedule, o: Schedule, t: nat)
    requires Positive(w) && Greedy(w, g) && Done(w, g)
    ensures Finished(w, Prefix(g, t)) >= Finished(w, Prefix(o, t))
  {
    var g1 := Pad(g, t);
    PadGreedy(w, g, t);
    var gt, ot := g1[..t], Pad(o, t)[..t];
    forall k | 0 <= k < t ensures GreedyChoice(w, gt[..k], gt[k]) {
      assert gt[..k] == g1[..k];
    }
    GreedyFinishesMost(w, gt, ot);
    PrefixPad(w, g, t);
    PrefixPad(w, o, t);
  }

  lemma PrefixPad(w: seq<Job>, s: Schedule, t: nat)
    ensures Finished(w, Pad(s, t)[..t]) == Finished(w, Prefix(s, t))
  {
    if t <= |s| {
      assert Pad(s, t)[..t] == s[..t];
    } else {
      assert Pad(s, t)[..t] == Pad(s, t - |s|);
      PadFinished(w, s, t - |s|, |w|);
    }
  }

  // ----- total turnaround -----

  /** Unfinished jobs summed over the instants before `t`. */
  function Waiting(w: seq<Job>, s: Schedule, t: nat): int {
    if t == 0 then 0 else Waiting(w, s, t - 1) + |w| - Finished(w, Prefix(s, t - 1))
  }

  /** Number of instants before `t` at which job `i` is unfinished. */
  function WaitingOf(w: seq<Job>, s: Schedule, i: nat, t: nat): int
    requires i < |w|
  {
    if t == 0 then 0 else WaitingOf(w, s, i, t - 1) + if Rem(w, Prefix(s, t - 1), i) <= 0 then 0 else 1
  }

  lemma {:induction false} WaitingOfIsCompletion(w: seq<Job>, s: Schedule, i: nat, d: nat, t: nat)
    requires i < |w| && CompletesAt(w, s, i, d)
    ensures WaitingOf(w, s, i, t) == Min(t, d)
  {
    if t > 0 {
      WaitingOfIsCompletion(w, s, i, d, t - 1);
      var p := Prefix(s, t - 1);
      if d <= t - 1 {
        RemAntitone(w, p, i, d);
        assert p[..d] == s[..d];
      }
    }
  }

  function WaitingBelow(w: seq<Job>, s: Schedule, t: nat, n: nat): int
    requires n <= |w|
  {
    if n == 0 then 0 else WaitingBelow(w, s, t, n - 1) + WaitingOf(w, s, n - 1, t)
  }

  lemma {:induction false} WaitingStep(w: seq<Job>, s: Schedule, t: nat, n: nat)
    requires n <= |w| && 0 < t
    ensures WaitingBelow(w, s, t, n) == WaitingBelow(w, s, t - 1, n) + n - FinishedBelow(w, Prefix(s, t - 1), n)
  {
    if n > 0 { WaitingStep(w, s, t, n - 1); }
  }

  lemma {:induction false} WaitingZero(w: seq<Job>, s: Schedule, n: nat)
    requires n <= |w|
    ensures WaitingBelow(w, s, 0, n) == 0
  {
    if n > 0 { WaitingZero(w, s, n - 1); }
  }

  lemma {:induction false} WaitingSum(w: seq<Job>, s: Schedule, t: nat)
    ensures Waiting(w, s, t) == WaitingBelow(w, s, t, |w|)
  {
    if t == 0 { WaitingZero(w, s, |w|); } else {
      WaitingSum(w, s, t - 1);
      WaitingStep(w, s, t, |w|);
    }
  }

  function Arrivals0(w: seq<Job>): int {
    if w == [] then 0 else Arrivals0(w[..|w|-1]) + w[|w|-1].arrival
  }

  lemma {:induction false} TurnaroundBelow(w: seq<Job>, s: Schedule, done: seq<int>, t: nat, n: nat)
    requires CompletionTimes(w, s, done) && |s| <= t && n <= |w|
    ensures Turnaround(w[..n], done[..n]) == WaitingBelow(w, s, t, n) - Arrivals0(w[..n])
  {
    if n > 0 {
      TurnaroundBelow(w, s, done, t, n - 1);
      assert w[..n][..n-1] == w[..n-1] && done[..n][..n-1] == done[..n-1];
      WaitingOfIsCompletion(w, s, n - 1, done[n-1], t);
    }
  }

  /** Total turnaround is the total waiting over any horizon past the end. */
  lemma TurnaroundIsWaiting(w: seq<Job>, s: Schedule, done: seq<int>, t: nat)
    requires CompletionTimes(w, s, done) && |s| <= t
    ensures Turnaround(w, done) == Waiting(w, s, t) - Arrivals0(w)
  {
    TurnaroundBelow(w, s, done, t, |w|);
    assert w[..|w|] == w && done[..|w|] == done;
    WaitingSum(w, s, t);
  }

  lemma {:induction false} WaitingLeast(w: seq<Job>, g: Schedule, o: Schedule, t: nat)
    requires Positive(w) && Greedy(w, g) && Done(w, g)
    ensures Waiting(w, g, t) <= Waiting(w, o, t)
  {
    if t > 0 {
      WaitingLeast(w, g, o, t - 1);
      Dominance(w, g, o, t - 1);
    }
  }

  lemma CompletionTimesDone(w: seq<Job>, s: Schedule, done: seq<int>)
    requires CompletionTimes(w, s, done)
    ensures Done(w, s)
  {
    forall i | 0 <= i < |w| ensures Rem(w, s, i) <= 0 {
      RemAntitone(w, s, i, done[i]);
    }
  }

  /** A greedy schedule has the least total turnaround of all schedules that
      finish every job. */
  lemma GreedyTurnaroundLeast(w: seq<Job>, g: Schedule, doneG: seq<int>, o: Schedule, doneO: seq<int>)
    requires Positive(w) && Greedy(w, g)
    requires CompletionTimes(w, g, doneG) && CompletionTimes(w, o, doneO)
    ensures Turnaround(w, doneG) <= Turnaround(w, doneO)
  {
    var t := |g| + |o|;
    CompletionTimesDone(w, g, doneG);
    TurnaroundIsWaiting(w, g, doneG, t);
    TurnaroundIsWaiting(w, o, doneO, t);
    WaitingLeast(w, g, o, t);
  }
}
