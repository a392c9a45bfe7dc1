/** Shortest job first and first in first out: the non-preemptive tick loops. */
module Batch {
  import opened Schedules
  import opened Processes
  import opened Numbers

  // ----- what the returned lists promise -----

  /** When the CPU becomes free for the `k`-th process of the list. */
  ghost function FreeAt(ps: seq<Process>, k: nat): int
    requires k <= |ps|
  {
    if k == 0 then 0 else ps[k-1].completion
  }

  /** Row `i` is not among the first `k` processes started. */
  ghost predicate Pending(ps: seq<Process>, k: nat, i: nat)
    requires k <= |ps|
  {
    !Listed(ps[..k], i)
  }

  /** The `k`-th process runs to completion from an instant at which the CPU is
      free, and the CPU has not been left free while a pending row had arrived. */
  ghost predicate Prompt(w: seq<Job>, ps: seq<Process>, k: nat)
    requires k < |ps|
  {
    var p := ps[k];
    && p.id < |w| && p.arrival == w[p.id].arrival && p.duration == w[p.id].duration
    && p.completion == p.firstRun + p.duration
    && p.firstRun >= Max(FreeAt(ps, k), p.arrival)
    && forall i :: 0 <= i < |w| && Pending(ps, k, i) ==> p.firstRun <= Max(FreeAt(ps, k), w[i].arrival)
  }

  /** The `k`-th process is a shortest of the pending rows that had arrived. */
  ghost predicate Shortest(w: seq<Job>, ps: seq<Process>, k: nat)
    requires k < |ps|
  {
    forall i :: 0 <= i < |w| && Pending(ps, k, i) && w[i].arrival <= ps[k].firstRun ==>
      KeyLeq(DurationKey(ps[k]), DurationKey(Fresh(w, i)))
  }

  /** A list of distinct rows, each started promptly. */
  ghost predicate PromptList(w: seq<Job>, ps: seq<Process>) {
    && Positive(w) && DistinctIds(ps)
    && forall k :: 0 <= k < |ps| ==> Prompt(w, ps, k)
  }

  ghost predicate AllListed(w: seq<Job>, ps: seq<Process>) {
    forall i :: 0 <= i < |w| ==> Listed(ps, i)
  }

  // ----- the schedule behind a list -----

  function Repeat(x: Slot, m: int): Schedule {
    if m <= 0 then [] else seq(m, _ => x)
  }

  /** Idle until the process starts, then run it for its whole duration. */
  function Extend(s: Schedule, p: Process): Schedule {
    s + Repeat(Idle, p.firstRun - |s|) + Repeat(Run(p.id), p.duration)
  }

  function Build(ps: seq<Process>): Schedule {
    if ps == [] then [] else Extend(Build(ps[..|ps|-1]), ps[|ps|-1])
  }

  lemma {:induction false} RunFor(w: seq<Job>, s: Schedule, i: nat, m: nat, j: nat)
    requires i < |w| && j < |w| && w[i].arrival <= |s| && m <= Rem(w, s, i)
    ensures Rem(w, s + Repeat(Run(i), m), j) == if j == i then Rem(w, s, i) - m else Rem(w, s, j)
  {
    if m == 0 {
      assert s + Repeat(Run(i), m) == s;
    } else {
      RunFor(w, s, i, m - 1, j);
      var s' := s + Repeat(Run(i), m);
      assert s'[..|s'|-1] == s + Repeat(Run(i), m - 1);
    }
  }

  lemma {:induction false} IdleFor(w: seq<Job>, s: Schedule, m: int, j: nat)
    requires j < |w|
    ensures Rem(w, s + Repeat(Idle, m), j) == Rem(w, s, j)
  {
    if m <= 0 {
      assert s + Repeat(Idle, m) == s;
    } else {
      IdleFor(w, s, m - 1, j);
      var s' := s + Repeat(Idle, m);
      assert s'[..|s'|-1] == s + Repeat(Idle, m - 1);
    }
  }

  /** Slots that do not name `j` leave its first run alone; slots that all name
      it set it to their start. */
  lemma {:induction false} FirstRunRepeat(s: Schedule, x: Slot, m: int, j: nat)
    ensures FirstRun(s + Repeat(x, m), j) ==
            if x == Run(j) && m > 0 && FirstRun(s, j) == -1 then |s| else FirstRun(s, j)
  {
    if m <= 0 {
      assert s + Repeat(x, m) == s;
    } else {
      FirstRunRepeat(s, x, m - 1, j);
      var s' := s + Repeat(x, m);
      assert s'[..|s'|-1] == s + Repeat(x, m - 1);
    }
  }

  /** `p` can start at `p.firstRun` after `s` and is untouched by `s`. */
  ghost predicate Startable(w: seq<Job>, s: Schedule, p: Process) {
    && p.id < |w| && |s| <= p.firstRun && w[p.id].arrival <= p.firstRun
    && 0 < p.duration == Rem(w, s, p.id) && FirstRun(s, p.id) == -1
    && p.completion == p.firstRun + p.duration && p.arrival == w[p.id].arrival
  }

  lemma ExtendAt(w: seq<Job>, s: Schedule, p: Process, t: nat, i: nat)
    requires Startable(w, s, p) && |s| <= t <= p.completion && i < |w|
    ensures |Extend(s, p)| == p.completion
    ensures Rem(w, Extend(s, p)[..t], i) ==
            if i == p.id && t > p.firstRun then p.completion - t else Rem(w, s, i)
  {
    if t <= p.firstRun {
      ExtendWaits(w, s, p, t, i);
    } else {
      ExtendRuns(w, s, p, t, i);
    }
  }

  lemma ExtendWaits(w: seq<Job>, s: Schedule, p: Process, t: nat, i: nat)
    requires Startable(w, s, p) && |s| <= t <= p.firstRun && i < |w|
    ensures |Extend(s, p)| == p.completion
    ensures Rem(w, Extend(s, p)[..t], i) == Rem(w, s, i)
  {
    assert Extend(s, p)[..t] == s + Repeat(Idle, t - |s|);
    IdleFor(w, s, t - |s|, i);
  }

  lemma ExtendRuns(w: seq<Job>, s: Schedule, p: Process, t: nat, i: nat)
    requires Startable(w, s, p) && p.firstRun < t <= p.completion && i < |w|
    ensures |Extend(s, p)| == p.completion
    ensures Rem(w, Extend(s, p)[..t], i) == if i == p.id then p.completion - t else Rem(w, s, i)
  {
    var s1 := s + Repeat(Idle, p.firstRun - |s|);
    IdleFor(w, s, p.firstRun - |s|, i);
    IdleFor(w, s, p.firstRun - |s|, p.id);
    assert Extend(s, p)[..t] == s1 + Repeat(Run(p.id), t - p.firstRun);
    RunFor(w, s1, p.id, t - p.firstRun, i);
  }

  lemma ExtendFirstRun(w: seq<Job>, s: Schedule, p: Process, i: nat)
    requires Startable(w, s, p)
    ensures FirstRun(Extend(s, p), i) == if i == p.id then p.firstRun else FirstRun(s, i)
  {
    FirstRunRepeat(s, Idle, p.firstRun - |s|, i);
    FirstRunRepeat(s + Repeat(Idle, p.firstRun - |s|), Run(p.id), p.duration, i);
  }

  lemma ExtendCompletes(w: seq<Job>, s: Schedule, p: Process)
    requires Startable(w, s, p)
    ensures Completed(w, Extend(s, p), p)
  {
    var b := Extend(s, p);
    ExtendFirstRun(w, s, p, p.id);
    ExtendAt(w, s, p, p.completion, p.id);
    forall u | 0 <= u < p.completion ensures Rem(w, b[..u], p.id) > 0 {
      var v := if u < |s| then |s| else u;
      ExtendAt(w, s, p, v, p.id);
      RemAntitone(w, b[..v], p.id, u);
      assert b[..v][..u] == b[..u];
    }
  }

  lemma ExtendKeeps(w: seq<Job>, s: Schedule, p: Process, q: Process)
    requires Startable(w, s, p) && Completed(w, s, q) && q.id != p.id
    ensures Completed(w, Extend(s, p), q)
  {
    var b := Extend(s, p);
    ExtendFirstRun(w, s, p, q.id);
    ExtendAt(w, s, p, p.completion, q.id);
    assert forall u :: 0 <= u <= |s| ==> b[..u] == s[..u];
  }

  lemma PromptPrefix(w: seq<Job>, ps: seq<Process>, n: nat)
    requires PromptList(w, ps) && n <= |ps|
    ensures PromptList(w, ps[..n])
    ensures (forall k :: 0 <= k < |ps| ==> Shortest(w, ps, k)) ==>
              forall k :: 0 <= k < n ==> Shortest(w, ps[..n], k)
  {
    forall k | 0 <= k < n ensures Prompt(w, ps[..n], k) {
      assert ps[..n][..k] == ps[..k];
      assert Prompt(w, ps, k);
    }
    forall k | 0 <= k < n && Shortest(w, ps, k) ensures Shortest(w, ps[..n], k) {
      assert ps[..n][..k] == ps[..k];
    }
  }

  lemma ListedLast(ps: seq<Process>, i: nat)
    requires ps != []
    ensures Listed(ps, i) <==> Listed(ps[..|ps|-1], i) || ps[|ps|-1].id == i
  {
    var n := |ps| - 1;
    if Listed(ps, i) {
      var k :| 0 <= k < |ps| && ps[k].id == i;
      if k < n { assert ps[..n][k].id == i; }
    }
    if Listed(ps[..n], i) {
      var k :| 0 <= k < n && ps[..n][k].id == i;
      assert ps[k].id == i;
    }
  }

  /** After the built schedule, listed rows are done and the rest untouched. */
  lemma {:induction false} BuildRem(w: seq<Job>, ps: seq<Process>, i: nat)
    requires PromptList(w, ps) && i < |w|
    ensures |Build(ps)| == FreeAt(ps, |ps|)
    ensures Rem(w, Build(ps), i) == if Listed(ps, i) then 0 else w[i].duration
    ensures !Listed(ps, i) ==> FirstRun(Build(ps), i) == -1
    decreases |ps|, 0
  {
    if ps != [] {
      var n := |ps| - 1;
      var p, s := ps[n], Build(ps[..n]);
      LastStarts(w, ps);
      PromptPrefix(w, ps, n);
      BuildRem(w, ps[..n], i);
      ListedLast(ps, i);
      ExtendAt(w, s, p, p.completion, i);
      ExtendFirstRun(w, s, p, i);
      assert Build(ps)[..p.completion] == Build(ps);
      assert !Listed(ps[..n], p.id);
    }
  }

  /** The last process of a prompt list can start after the others. */
  lemma {:induction false} LastStarts(w: seq<Job>, ps: seq<Process>)
    requires PromptList(w, ps) && ps != []
    ensures |Build(ps[..|ps|-1])| == FreeAt(ps, |ps| - 1)
    ensures Startable(w, Build(ps[..|ps|-1]), ps[|ps|-1])
    decreases |ps| - 1, 1
  {
    var n := |ps| - 1;
    assert Prompt(w, ps, n);
    PromptPrefix(w, ps, n);
    BuildRem(w, ps[..n], ps[n].id);
    assert !Listed(ps[..n], ps[n].id);
  }

  /** Every entry of a prompt list runs in the built schedule as the list says. */
  lemma {:induction false} BuildCompleted(w: seq<Job>, ps: seq<Process>, k: nat)
    requires PromptList(w, ps) && k < |ps|
    ensures Completed(w, Build(ps), ps[k])
  {
    var n := |ps| - 1;
    LastStarts(w, ps);
    if k == n {
      ExtendCompletes(w, Build(ps[..n]), ps[n]);
    } else {
      PromptPrefix(w, ps, n);
      BuildCompleted(w, ps[..n], k);
      ExtendKeeps(w, Build(ps[..n]), ps[n], ps[k]);
    }
  }

  ghost predicate TogetherArrive(w: seq<Job>) {
    forall i, j :: 0 <= i < |w| && 0 <= j < |w| ==> w[i].arrival == w[j].arrival
  }

  /** The slots added for the last process are greedy choices. */
  lemma LastIsGreedy(w: seq<Job>, ps: seq<Process>, t: nat)
    requires PromptList(w, ps) && ps != [] && TogetherArrive(w) && Shortest(w, ps, |ps| - 1)
    requires |Build(ps[..|ps|-1])| <= t < ps[|ps|-1].completion
    ensures var p := ps[|ps|-1];
            |Build(ps)| == p.completion &&
            GreedyChoice(w, Build(ps)[..t], if t < p.firstRun then Idle else Run(p.id))
  {
    var n := |ps| - 1;
    var p, s := ps[n], Build(ps[..n]);
    assert Prompt(w, ps, n);
    LastStarts(w, ps);
    PromptPrefix(w, ps, n);
    ExtendAt(w, s, p, t, p.id);
    var b := Build(ps)[..t];
    forall i | 0 <= i < |w| && Ready(w, b, i)
      ensures t >= p.firstRun && Rem(w, b, p.id) <= Rem(w, b, i)
    {
      ExtendAt(w, s, p, t, i);
      BuildRem(w, ps[..n], i);
      assert Pending(ps, n, i) || i == p.id;
    }
  }

  /** When all rows arrive together, a shortest-first list follows a greedy
      schedule. */
  lemma {:induction false} BuildGreedy(w: seq<Job>, ps: seq<Process>)
    requires PromptList(w, ps) && TogetherArrive(w)
    requires forall k :: 0 <= k < |ps| ==> Shortest(w, ps, k)
    ensures Greedy(w, Build(ps))
  {
    if ps != [] {
      var n := |ps| - 1;
      PromptPrefix(w, ps, n);
      BuildGreedy(w, ps[..n]);
      LastStarts(w, ps);
      var p, s, b := ps[n], Build(ps[..n]), Build(ps);
      forall t | 0 <= t < |b| ensures GreedyChoice(w, b[..t], b[t]) {
        ExtendAt(w, s, p, |s|, p.id);
        if t < |s| {
          assert b[..t] == s[..t];
        } else {
          LastIsGreedy(w, ps, t);
        }
      }
    }
  }

  /** With equal arrivals, a shortest-first list has the least total turnaround of
      all schedules, preemptive ones included. */
  lemma ShortestFirstOptimal(w: seq<Job>, ps: seq<Process>, o: Schedule, done: seq<int>)
    requires PromptList(w, ps) && AllListed(w, ps) && TogetherArrive(w)
    requires forall k :: 0 <= k < |ps| ==> Shortest(w, ps, k)
    requires CompletionTimes(w, o, done)
    ensures TotalTurnaround(ps) <= Turnaround(w, done)
  {
    BuildGreedy(w, ps);
    forall k | 0 <= k < |ps| ensures Completed(w, Build(ps), ps[k]) {
      BuildCompleted(w, ps, k);
    }
    GreedyOutcomeLeast(w, Build(ps), ps, o, done);
  }

  // ----- the loops -----

  lemma {:induction false} DistinctBound(ps: seq<Process>, ids: set<nat>)
    requires DistinctIds(ps) && forall k :: 0 <= k < |ps| ==> ps[k].id in ids
    ensures |ps| <= |ids|
  {
    if ps != [] {
      var n := |ps| - 1;
      DistinctBound(ps[..n], ids - {ps[n].id});
    }
  }

  lemma AtMostAll(w: seq<Job>, ps: seq<Process>)
    requires PromptList(w, ps)
    ensures |ps| <= |w|
  {
    forall k | 0 <= k < |ps| ensures ps[k].id in Upto(|w|) {
      assert Prompt(w, ps, k);
    }
    DistinctBound(ps, Upto(|w|));
  }

  ghost predicate NotStarted(w: seq<Job>, complete: seq<Process>, p: Process) {
    p.id < |w| && p == Fresh(w, p.id) && !Listed(complete, p.id)
  }

  /** Rows not yet started, as queued, at clock `time`. */
  ghost predicate Queued(w: seq<Job>, time: int, workload: Queue, arrived: Queue, complete: seq<Process>) {
    && workload !! arrived
    && (forall p :: p in workload ==> NotStarted(w, complete, p) && (time == 0 || p.arrival >= time))
    && (forall p :: p in arrived ==> NotStarted(w, complete, p))
    && (forall i :: 0 <= i < |w| ==>
          Fresh(w, i) in workload || Fresh(w, i) in arrived || Listed(complete, i))
  }

  /** Between two iterations. */
  ghost predicate AtTick(w: seq<Job>, time: nat, workload: Queue, arrived: Queue,
                         idle: bool, timeend: int, complete: seq<Process>)
  {
    && PromptList(w, complete) && Queued(w, time, workload, arrived, complete)
    && (forall p :: p in arrived ==> p.arrival < time)
    && (if idle then arrived == {} && FreeAt(complete, |complete|) <= time
        else FreeAt(complete, |complete|) == timeend && time <= timeend)
    && (time == 0 ==> complete == [])
  }

  /** Within an iteration.  If the CPU is free and was already free one tick
      before, nothing pending had arrived by then. */
  ghost predicate Midway(w: seq<Job>, time: nat, workload: Queue, arrived: Queue,
                         idle: bool, timeend: int, complete: seq<Process>)
  {
    && PromptList(w, complete) && Queued(w, time, workload, arrived, complete)
    && (forall p :: p in arrived ==> p.arrival <= time)
    && FreeAt(complete, |complete|) <= (if idle then time else timeend)
    && (time == 0 ==> complete == [])
    && (!idle ==> FreeAt(complete, |complete|) == timeend && time < timeend)
    && (idle && FreeAt(complete, |complete|) < time ==>
          forall p :: p in arrived ==> p.arrival >= time)
  }

  lemma Begin(w: seq<Job>, workload: Queue)
    requires Positive(w) && workload == set i | 0 <= i < |w| :: Fresh(w, i)
    ensures AtTick(w, 0, workload, {}, true, 0, [])
  {
  }

  lemma Tick(w: seq<Job>, time: nat, workload: Queue, arrived: Queue,
             idle: bool, timeend: int, complete: seq<Process>)
    requires AtTick(w, time, workload, arrived, idle, timeend, complete)
    ensures Midway(w, time, workload, arrived, idle || time == timeend, timeend, complete)
  {
  }

  lemma Arrive(w: seq<Job>, time: nat, workload: Queue, arrived: Queue,
               idle: bool, timeend: int, complete: seq<Process>, p: Process)
    requires Midway(w, time, workload, arrived, idle, timeend, complete)
    requires p in workload && p.arrival <= time
    ensures Midway(w, time, workload - {p}, arrived + {p}, idle, timeend, complete)
  {
  }

  ghost function Started(p: Process, time: int): Process {
    p.(firstRun := time, completion := time + p.duration)
  }

  /** Starting a process that has arrived. */
  lemma StartProcess(w: seq<Job>, time: nat, workload: Queue, arrived: Queue,
                     timeend: int, complete: seq<Process>, p: Process)
    requires Midway(w, time, workload, arrived, true, timeend, complete)
    requires forall q :: q in workload ==> q.arrival > time
    requires p in arrived
    ensures var complete' := complete + [Started(p, time)];
            AtTick(w, time + 1, workload, arrived - {p}, false, time + p.duration, complete')
  {
    var n := |complete|;
    var complete' := complete + [Started(p, time)];
    assert complete'[..n] == complete;
    forall i | 0 <= i < |w| && Pending(complete', n, i)
      ensures time <= Max(FreeAt(complete', n), w[i].arrival)
    {
      assert Fresh(w, i) in workload || Fresh(w, i) in arrived;
    }
    assert Prompt(w, complete', n);
    forall k | 0 <= k < n ensures Prompt(w, complete', k) {
      assert complete'[..k] == complete[..k];
      assert Prompt(w, complete, k);
    }
    forall k | 0 <= k < n ensures complete[k].id != p.id {
      assert !Listed(complete, p.id);
    }
    forall i: nat ensures Listed(complete', i) <==> Listed(complete, i) || i == p.id {
      ListedLast(complete', i);
    }
  }

  /** Nothing to start. */
  lemma Continue(w: seq<Job>, time: nat, workload: Queue, arrived: Queue,
                 idle: bool, timeend: int, complete: seq<Process>)
    requires Midway(w, time, workload, arrived, idle, timeend, complete)
    requires forall q :: q in workload ==> q.arrival > time
    requires idle ==> arrived == {}
    ensures AtTick(w, time + 1, workload, arrived, idle, timeend, complete)
  {
  }

  /** The chosen process is a shortest of those that have arrived. */
  lemma ChoseShortest(w: seq<Job>, time: nat, workload: Queue, arrived: Queue,
                      timeend: int, complete: seq<Process>, p: Process)
    requires Midway(w, time, workload, arrived, true, timeend, complete)
    requires forall q :: q in workload ==> q.arrival > time
    requires p in arrived && forall q :: q in arrived ==> KeyLeq(DurationKey(p), DurationKey(q))
    requires forall k :: 0 <= k < |complete| ==> Shortest(w, complete, k)
    ensures var complete' := complete + [Started(p, time)];
            forall k :: 0 <= k < |complete'| ==> Shortest(w, complete', k)
  {
    var n := |complete|;
    var complete' := complete + [Started(p, time)];
    assert complete'[..n] == complete;
    forall k | 0 <= k < n ensures Shortest(w, complete', k) {
      assert complete'[..k] == complete[..k];
      assert Shortest(w, complete, k);
    }
    forall i | 0 <= i < |w| && Pending(complete', n, i) && w[i].arrival <= time
      ensures KeyLeq(DurationKey(p), DurationKey(Fresh(w, i)))
    {
      assert Fresh(w, i) in workload || Fresh(w, i) in arrived;
    }
  }

  /** Shortest job first. */
  method Sjf(w: seq<Job>) returns (complete: seq<Process>)
    requires Positive(w)
    ensures PromptList(w, complete) && AllListed(w, complete)
    ensures forall k :: 0 <= k < |complete| ==> Shortest(w, complete, k)
    ensures TogetherArrive(w) ==>
              forall o: Schedule, done: seq<int> ::
                CompletionTimes(w, o, done) ==> TotalTurnaround(complete) <= Turnaround(w, done)
  {
    complete := [];
    var workload := ReadWorkload(w);
    var arrived: Queue := {};
    var time, timeend := 0, 0;
    var idle := true;
    ghost var last := ArrivedBound(w, |w|);
    Begin(w, workload);
    while true
      invariant 0 <= time && AtTick(w, time, workload, arrived, idle, timeend, complete)
      invariant forall k :: 0 <= k < |complete| ==> Shortest(w, complete, k)
      decreases |w| - |complete|, !idle, (if idle then last else timeend) - time
    {
      AtMostAll(w, complete);
      Tick(w, time, workload, arrived, idle, timeend, complete);
      if idle {
        if workload == {} && arrived == {} { break; }
      } else if time == timeend {
        idle := true;
      }
      workload, arrived := AdmitAll(w, time, workload, arrived, idle, timeend, complete);
      if idle && arrived != {} {
        var p := Top(arrived, DurationKey);
        StartProcess(w, time, workload, arrived, timeend, complete, p);
        ChoseShortest(w, time, workload, arrived, timeend, complete, p);
        arrived := arrived - {p};
        idle := false;
        timeend := time + p.duration;
        complete := complete + [p.(firstRun := time, completion := timeend)];
      } else {
        Continue(w, time, workload, arrived, idle, timeend, complete);
        assert idle ==> forall p :: p in workload ==> time < p.arrival <= last;
      }
      time := time + 1;
    }
    if TogetherArrive(w) {
      forall o: Schedule, done: seq<int> | CompletionTimes(w, o, done)
        ensures TotalTurnaround(complete) <= Turnaround(w, done)
      {
        ShortestFirstOptimal(w, complete, o, done);
      }
    }
  }

  method AdmitAll(ghost w: seq<Job>, time: nat, workload0: Queue, arrived0: Queue,
                  ghost idle: bool, ghost timeend: int, ghost complete: seq<Process>)
    returns (workload: Queue, arrived: Queue)
    requires Midway(w, time, workload0, arrived0, idle, timeend, complete)
    ensures Midway(w, time, workload, arrived, idle, timeend, complete)
    ensures forall p :: p in workload ==> p.arrival > time
    ensures workload == workload0 || arrived != {}
  {
    workload, arrived := workload0, arrived0;
    while workload != {}
      invariant Midway(w, time, workload, arrived, idle, timeend, complete)
      invariant workload == workload0 || arrived != {}
      decreases workload
    {
      var p := Top(workload, ArrivalKey);
      if time >= p.arrival {
        Arrive(w, time, workload, arrived, idle, timeend, complete, p);
        arrived := arrived + {p};
        workload := workload - {p};
      } else {
        break;
      }
    }
  }

  // ----- first in first out -----

  /** The completion times of first in first out: each process starts when it has
      arrived and its predecessor is done. */
  ghost predicate Recurrence(w: seq<Job>, ps: seq<Process>) {
    forall k :: 0 <= k < |ps| ==>
      && ps[k].firstRun == Max(ps[k].arrival, FreeAt(ps, k))
      && ps[k].completion == Max(ps[k].arrival, FreeAt(ps, k)) + ps[k].duration
  }

  ghost predicate InArrivalOrder(ps: seq<Process>) {
    forall j, k :: 0 <= j < k < |ps| ==> KeyLeq(ArrivalKey(ps[j]), ArrivalKey(ps[k]))
  }

  ghost function Elements(q: seq<Process>): Queue { set p | p in q }

  ghost predicate Distinct(q: seq<Process>) {
    forall j, k :: 0 <= j < k < |q| ==> q[j] != q[k]
  }

  /** Started, then waiting, then still to come: in arrival order. */
  ghost predicate Line(complete: seq<Process>, arrived: seq<Process>, workload: Queue) {
    && InArrivalOrder(complete + arrived) && Distinct(arrived)
    && forall p, k :: p in workload && 0 <= k < |complete + arrived| ==>
         KeyLeq(ArrivalKey((complete + arrived)[k]), ArrivalKey(p))
  }

  lemma PromptStarts(w: seq<Job>, ps: seq<Process>, k: nat)
    requires PromptList(w, ps) && k < |ps|
    ensures ps[k].firstRun == Max(ps[k].arrival, FreeAt(ps, k))
    ensures ps[k].completion == Max(ps[k].arrival, FreeAt(ps, k)) + ps[k].duration
  {
    assert Prompt(w, ps, k);
    assert Pending(ps, k, ps[k].id) by {
      forall j | 0 <= j < k ensures ps[..k][j].id != ps[k].id {
        assert ps[..k][j] == ps[j];
      }
    }
  }

  /** Prompt starts are exactly the recurrence. */
  lemma PromptRecurrence(w: seq<Job>, ps: seq<Process>)
    requires PromptList(w, ps)
    ensures Recurrence(w, ps)
  {
    forall k | 0 <= k < |ps|
      ensures ps[k].firstRun == Max(ps[k].arrival, FreeAt(ps, k))
      ensures ps[k].completion == Max(ps[k].arrival, FreeAt(ps, k)) + ps[k].duration
    {
      PromptStarts(w, ps, k);
    }
  }

  lemma LineArrive(complete: seq<Process>, arrived: seq<Process>, workload: Queue, p: Process)
    requires Line(complete, arrived, workload) && p in workload && p !in arrived
    requires forall x :: x in workload ==> KeyLeq(ArrivalKey(p), ArrivalKey(x))
    ensures Line(complete, arrived + [p], workload - {p})
    ensures Elements(arrived + [p]) == Elements(arrived) + {p}
  {
    assert complete + (arrived + [p]) == (complete + arrived) + [p];
  }

  lemma LineStart(complete: seq<Process>, arrived: seq<Process>, workload: Queue, p: Process)
    requires Line(complete, arrived, workload) && arrived != []
    requires ArrivalKey(p) == ArrivalKey(arrived[0])
    ensures Line(complete + [p], arrived[1..], workload)
    ensures Elements(arrived[1..]) == Elements(arrived) - {arrived[0]}
  {
    var xs, ys := complete + arrived, (complete + [p]) + arrived[1..];
    assert |xs| == |ys| && forall k :: 0 <= k < |xs| ==> ArrivalKey(xs[k]) == ArrivalKey(ys[k]);
    forall x | x in Elements(arrived) - {arrived[0]} ensures x in Elements(arrived[1..]) {
      var k :| 0 <= k < |arrived| && arrived[k] == x;
      assert arrived[1..][k-1] == x;
    }
  }

  lemma StartFirst(w: seq<Job>, time: nat, workload: Queue, arrived: seq<Process>,
                   timeend: int, complete: seq<Process>)
    requires Midway(w, time, workload, Elements(arrived), true, timeend, complete)
    requires Line(complete, arrived, workload) && arrived != []
    requires forall q :: q in workload ==> q.arrival > time
    ensures var complete' := complete + [Started(arrived[0], time)];
            && AtTick(w, time + 1, workload, Elements(arrived[1..]), false, time + arrived[0].duration, complete')
            && Line(complete', arrived[1..], workload)
  {
    StartProcess(w, time, workload, Elements(arrived), timeend, complete, arrived[0]);
    LineStart(complete, arrived, workload, Started(arrived[0], time));
  }

  lemma ElementsEmpty(q: seq<Process>)
    ensures Elements(q) == {} <==> q == []
  {
    if q != [] { assert q[0] in Elements(q); }
  }

  ghost predicate MidFifo(w: seq<Job>, time: nat, workload: Queue, arrived: seq<Process>,
                          idle: bool, timeend: int, complete: seq<Process>)
  {
    Midway(w, time, workload, Elements(arrived), idle, timeend, complete) && Line(complete, arrived, workload)
  }

  method AdmitInOrder(ghost w: seq<Job>, time: nat, workload0: Queue, arrived0: seq<Process>,
                      ghost idle: bool, ghost timeend: int, ghost complete: seq<Process>)
    returns (workload: Queue, arrived: seq<Process>)
    requires MidFifo(w, time, workload0, arrived0, idle, timeend, complete)
    ensures MidFifo(w, time, workload, arrived, idle, timeend, complete)
    ensures forall p :: p in workload ==> p.arrival > time
    ensures workload == workload0 || arrived != []
  {
    workload, arrived := workload0, arrived0;
    while workload != {}
      invariant MidFifo(w, time, workload, arrived, idle, timeend, complete)
      invariant workload == workload0 || arrived != []
      decreases workload
    {
      var p := Top(workload, ArrivalKey);
      if time >= p.arrival {
        Arrive(w, time, workload, Elements(arrived), idle, timeend, complete, p);
        assert p !in arrived by { assert p !in Elements(arrived); }
        LineArrive(complete, arrived, workload, p);
        arrived := arrived + [p];
        workload := workload - {p};
      } else {
        break;
      }
    }
  }

  ghost predicate AtFifoTick(w: seq<Job>, time: nat, workload: Queue, arrived: seq<Process>,
                             idle: bool, timeend: int, complete: seq<Process>)
  {
    AtTick(w, time, workload, Elements(arrived), idle, timeend, complete) && Line(complete, arrived, workload)
  }

  method ServeFirst(ghost w: seq<Job>, time: nat, ghost workload: Queue, arrived0: seq<Process>,
                    idle0: bool, timeend0: int, complete0: seq<Process>)
    returns (arrived: seq<Process>, idle: bool, timeend: int, complete: seq<Process>)
    requires MidFifo(w, time, workload, arrived0, idle0, timeend0, complete0)
    requires forall q :: q in workload ==> q.arrival > time
    ensures AtFifoTick(w, time + 1, workload, arrived, idle, timeend, complete)
    ensures |complete| > |complete0|
      || (complete == complete0 && idle == idle0 && timeend == timeend0 && arrived == arrived0
          && (idle ==> arrived == []) && (!idle ==> time < timeend))
  {
    arrived, idle, timeend, complete := arrived0, idle0, timeend0, complete0;
    if idle && arrived != [] {
      StartFirst(w, time, workload, arrived, timeend, complete);
      var p := arrived[0];
      arrived := arrived[1..];
      idle := false;
      timeend := time + p.duration;
      complete := complete + [p.(firstRun := time, completion := timeend)];
    } else {
      ElementsEmpty(arrived);
      Continue(w, time, workload, Elements(arrived), idle, timeend, complete);
    }
  }

  lemma FifoBegins(w: seq<Job>, workload: Queue)
    requires Positive(w) && workload == set i | 0 <= i < |w| :: Fresh(w, i)
    ensures AtFifoTick(w, 0, workload, [], true, 0, [])
  {
    Begin(w, workload);
    assert Elements([]) == {};
  }

  lemma FifoTicks(w: seq<Job>, time: nat, workload: Queue, arrived: seq<Process>,
                  idle: bool, timeend: int, complete: seq<Process>)
    requires AtFifoTick(w, time, workload, arrived, idle, timeend, complete)
    ensures MidFifo(w, time, workload, arrived, idle || time == timeend, timeend, complete)
    ensures idle ==> arrived == []
    ensures |complete| <= |w|
    ensures forall p :: p in workload ==> p.id < |w| && p.arrival == w[p.id].arrival
  {
    Tick(w, time, workload, Elements(arrived), idle, timeend, complete);
    ElementsEmpty(arrived);
    AtMostAll(w, complete);
  }

  lemma FifoEnds(w: seq<Job>, time: nat, timeend: int, complete: seq<Process>)
    requires AtFifoTick(w, time, {}, [], true, timeend, complete)
    ensures PromptList(w, complete) && AllListed(w, complete)
    ensures InArrivalOrder(complete) && Recurrence(w, complete)
  {
    assert complete + [] == complete && Elements([]) == {};
    PromptRecurrence(w, complete);
  }

  /** First in first out. */
  method Fifo(w: seq<Job>) returns (complete: seq<Process>)
    requires Positive(w)
    ensures PromptList(w, complete) && AllListed(w, complete)
    ensures InArrivalOrder(complete) && Recurrence(w, complete)
  {
    complete := [];
    var workload := ReadWorkload(w);
    var arrived: seq<Process> := [];
    var time, timeend := 0, 0;
    var idle := true;
    ghost var last := ArrivedBound(w, |w|);
    FifoBegins(w, workload);
    while true
      invariant 0 <= time && AtFifoTick(w, time, workload, arrived, idle, timeend, complete)
      decreases |w| - |complete|, !idle, (if idle then last else timeend) - time
    {
      FifoTicks(w, time, workload, arrived, idle, timeend, complete);
      if idle {
        if workload == {} && arrived == [] { break; }
      } else if time == timeend {
        idle := true;
      }
      workload, arrived := AdmitInOrder(w, time, workload, arrived, idle, timeend, complete);
      arrived, idle, timeend, complete := ServeFirst(w, time, workload, arrived, idle, timeend, complete);
      time := time + 1;
    }
    FifoEnds(w, time, timeend, complete);
  }
}
