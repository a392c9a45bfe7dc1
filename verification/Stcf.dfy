/** Shortest time to completion first: the preemptive tick loop. */
module Stcf {
  import opened Schedules
  import opened Processes

  // ----- total remaining work, for termination -----

  function Work(w: seq<Job>, s: Schedule, n: nat): nat
    requires Positive(w) && n <= |w|
  {
    if n == 0 then 0 else Work(w, s, n - 1) + Left(w, s, n - 1)
  }

  lemma {:induction false} WorkStep(w: seq<Job>, s: Schedule, x: Slot, n: nat)
    requires Positive(w) && n <= |w|
    ensures Work(w, s + [x], n) <= Work(w, s, n)
    ensures x.Run? && x.id < n && Ready(w, s, x.id) ==> Work(w, s + [x], n) < Work(w, s, n)
  {
    assert (s + [x])[..|s|] == s;
    if n > 0 { WorkStep(w, s, x, n - 1); }
  }

  /** A started or waiting process whose fields agree with the slots of `s`. */
  ghost predicate Tracks(w: seq<Job>, s: Schedule, p: Process) {
    && p.id < |w| && p.arrival == w[p.id].arrival
    && p.firstRun == FirstRun(s, p.id) && p.completion == -1
  }

  ghost predicate Untouched(w: seq<Job>, s: Schedule, workload: Queue) {
    forall p :: p in workload ==>
      p.id < |w| && p == Fresh(w, p.id) && (s == [] || p.arrival >= |s|) && FirstRun(s, p.id) == -1
  }

  ghost predicate Waits(w: seq<Job>, s: Schedule, now: int, arrived: Queue) {
    forall p :: p in arrived ==>
      Tracks(w, s, p) && p.arrival <= now && p.duration == Rem(w, s, p.id) > 0
  }

  /** Every row is in exactly one place; `current` is the running process, if any. */
  ghost predicate Placed(w: seq<Job>, workload: Queue, arrived: Queue, current: set<nat>, complete: seq<Process>) {
    && Ids(arrived) !! current
    && (forall k :: 0 <= k < |complete| ==> complete[k].id !in current)
    && forall i :: 0 <= i < |w| ==>
      i in Ids(workload) || i in Ids(arrived) || i in current || Listed(complete, i)
  }

  ghost predicate Completes(w: seq<Job>, s: Schedule, complete: seq<Process>) {
    DistinctIds(complete) && forall k :: 0 <= k < |complete| ==> Completed(w, s, complete[k])
  }

  /** State between two iterations: `s` holds one slot for each elapsed tick. */
  ghost predicate AtTick(w: seq<Job>, s: Schedule, workload: Queue, arrived: Queue,
                         idle: bool, ongoing: Process, complete: seq<Process>)
  {
    && Positive(w) && Greedy(w, s)
    && Untouched(w, s, workload) && Waits(w, s, |s| - 1, arrived) && Completes(w, s, complete)
    && Placed(w, workload, arrived, if idle then {} else {ongoing.id}, complete)
    && (idle ==> arrived == {})
    && (!idle ==>
          && Tracks(w, s, ongoing) && 0 < |s| && s[|s|-1] == Run(ongoing.id)
          && ongoing.arrival < |s| && ongoing.duration == Rem(w, s, ongoing.id) + 1
          && Rem(w, s[..|s|-1], ongoing.id) == ongoing.duration)
  }

  /** State of one iteration after the running process has been charged. */
  ghost predicate Charged(w: seq<Job>, s: Schedule, workload: Queue, arrived: Queue,
                          idle: bool, ongoing: Process, complete: seq<Process>)
  {
    && Positive(w) && Greedy(w, s)
    && Untouched(w, s, workload) && Waits(w, s, |s|, arrived) && Completes(w, s, complete)
    && Placed(w, workload, arrived, if idle then {} else {ongoing.id}, complete)
    && (!idle ==> Tracks(w, s, ongoing) && ongoing.arrival <= |s|
                  && ongoing.duration == Rem(w, s, ongoing.id) > 0)
  }

  lemma StayIdle(w: seq<Job>, s: Schedule, workload: Queue, arrived: Queue,
                 ongoing: Process, complete: seq<Process>)
    requires AtTick(w, s, workload, arrived, true, ongoing, complete)
    ensures Charged(w, s, workload, arrived, true, ongoing, complete)
  {
  }

  lemma Charge(w: seq<Job>, s: Schedule, workload: Queue, arrived: Queue,
               ongoing: Process, complete: seq<Process>)
    requires AtTick(w, s, workload, arrived, false, ongoing, complete)
    ensures ongoing.duration >= 1 && ongoing.firstRun != -1
    ensures ongoing.duration > 1 ==>
      Charged(w, s, workload, arrived, false, ongoing.(duration := ongoing.duration - 1), complete)
  {
    RemNat(w, s, ongoing.id);
  }

  lemma FinishOngoing(w: seq<Job>, s: Schedule, workload: Queue, arrived: Queue,
                      ongoing: Process, complete: seq<Process>)
    requires AtTick(w, s, workload, arrived, false, ongoing, complete)
    requires ongoing.duration == 1
    ensures Charged(w, s, workload, arrived, true, ongoing,
                    complete + [ongoing.(duration := 0, completion := |s|)])
  {
    var p := ongoing.(duration := 0, completion := |s|);
    var i := ongoing.id;
    assert s[..|s|] == s;
    forall u | 0 <= u < |s| ensures Rem(w, s[..u], i) > 0 {
      RemAntitone(w, s[..|s|-1], i, u);
      assert s[..|s|-1][..u] == s[..u];
    }
    assert Completed(w, s, p);
    var complete' := complete + [p];
    forall j | 0 <= j < |w| && Listed(complete, j) ensures Listed(complete', j) {
      var k :| 0 <= k < |complete| && complete[k].id == j;
      assert complete'[k].id == j;
    }
    assert complete'[|complete|].id == i;
  }

  /** The slot chosen by the dispatch step, from the charged state. */
  ghost function Choice(idle: bool, ongoing: Process): Slot {
    if idle then Idle else Run(ongoing.id)
  }

  lemma ChoiceIsGreedy(w: seq<Job>, s: Schedule, workload: Queue, arrived: Queue,
                       idle: bool, ongoing: Process, complete: seq<Process>)
    requires Charged(w, s, workload, arrived, idle, ongoing, complete)
    requires forall p :: p in workload ==> p.arrival > |s|
    requires if idle then arrived == {} else forall p :: p in arrived ==> ongoing.duration <= p.duration
    ensures GreedyChoice(w, s, Choice(idle, ongoing))
  {
    forall i | 0 <= i < |w| && Ready(w, s, i)
      ensures !idle && ongoing.duration <= Rem(w, s, i)
    {
      if Listed(complete, i) {
        var k :| 0 <= k < |complete| && complete[k].id == i;
        RemAntitone(w, s, i, complete[k].completion);
      }
      assert i in Ids(arrived) || (!idle && i == ongoing.id);
    }
  }

  ghost function Marked(p: Process, now: int): Process {
    if p.firstRun == -1 then p.(firstRun := now) else p
  }

  /** The slot goes to `ongoing`, or stays idle with nothing waiting. */
  lemma Dispatch(w: seq<Job>, s: Schedule, workload: Queue, arrived: Queue,
                 idle: bool, ongoing: Process, complete: seq<Process>)
    requires Charged(w, s, workload, arrived, idle, ongoing, complete)
    requires forall p :: p in workload ==> p.arrival > |s|
    requires if idle then arrived == {} else forall p :: p in arrived ==> ongoing.duration <= p.duration
    ensures GreedyChoice(w, s, Choice(idle, ongoing))
    ensures AtTick(w, s + [Choice(idle, ongoing)], workload, arrived, idle, Marked(ongoing, |s|), complete)
  {
    var x := Choice(idle, ongoing);
    var s' := s + [x];
    assert s'[..|s|] == s;
    ChoiceIsGreedy(w, s, workload, arrived, idle, ongoing, complete);
    GreedyGrows(w, s, x);
    forall k | 0 <= k < |complete| ensures Completed(w, s', complete[k]) {
      CompletedGrows(w, s, x, complete[k]);
    }
    forall p | p in arrived ensures Tracks(w, s', p) && p.duration == Rem(w, s', p.id) {
      assert p.id in Ids(arrived);
    }
  }

  /** Exchanging the running process, if any, for `p` from the queue. */
  lemma Swap(w: seq<Job>, s: Schedule, workload: Queue, arrived: Queue,
             idle: bool, ongoing: Process, complete: seq<Process>, p: Process)
    requires Charged(w, s, workload, arrived, idle, ongoing, complete)
    requires p in arrived
    ensures Charged(w, s, workload, (if idle then arrived else arrived + {ongoing}) - {p}, false, p, complete)
  {
    var a := if idle then arrived else arrived + {ongoing};
    var rest := a - {p};
    assert Ids(rest) !! {p.id} by {
      forall q | q in rest ensures q.id != p.id {
        assert p.id in Ids(arrived);
      }
    }
    forall i | i in Ids(arrived) ensures i in Ids(rest) || i == p.id {
      var q :| q in arrived && q.id == i;
      assert q == p || q in rest;
    }
    if !idle { assert ongoing in rest || ongoing == p; }
    forall k | 0 <= k < |complete| ensures complete[k].id != p.id {
      RemAntitone(w, s, complete[k].id, complete[k].completion);
    }
  }

  lemma Enqueue(w: seq<Job>, s: Schedule, workload: Queue, arrived: Queue,
                idle: bool, ongoing: Process, complete: seq<Process>, p: Process)
    requires Charged(w, s, workload, arrived, idle, ongoing, complete)
    requires p in workload && p.arrival <= |s| && (!idle ==> ongoing.firstRun != -1)
    ensures Charged(w, s, workload - {p}, arrived + {p}, idle, ongoing, complete)
  {
    if s != [] { NotYetArrived(w, s, p.id); }
    forall i | i in Ids(workload) ensures i in Ids(workload - {p}) || i == p.id {
      var q :| q in workload && q.id == i;
      assert q == p || q in workload - {p};
    }
    assert p.id in Ids(arrived + {p});
    forall i | i in Ids(arrived) ensures i in Ids(arrived + {p}) {
      var q :| q in arrived && q.id == i;
      assert q in arrived + {p};
    }
  }

  /** Moves every row that has arrived by `time` to the waiting queue. */
  method Admit(ghost w: seq<Job>, ghost s: Schedule, time: int, workload0: Queue, arrived0: Queue,
               ghost idle: bool, ghost ongoing: Process, ghost complete: seq<Process>)
    returns (workload: Queue, arrived: Queue)
    requires time == |s| && Charged(w, s, workload0, arrived0, idle, ongoing, complete)
    requires !idle ==> ongoing.firstRun != -1
    ensures Charged(w, s, workload, arrived, idle, ongoing, complete)
    ensures forall p :: p in workload ==> p.arrival > time
    ensures workload == workload0 || arrived != {}
  {
    workload, arrived := workload0, arrived0;
    while workload != {}
      invariant Charged(w, s, workload, arrived, idle, ongoing, complete)
      invariant workload == workload0 || arrived != {}
      decreases workload
    {
      var p := Top(workload, ArrivalKey);
      if time >= p.arrival {
        Enqueue(w, s, workload, arrived, idle, ongoing, complete, p);
        arrived := arrived + {p};
        workload := workload - {p};
      } else {
        break;
      }
    }
  }

  /** Gives the next slot to the front of the queue if the CPU is idle or the
      front is shorter than what remains of the running process. */
  method Pick(ghost w: seq<Job>, ghost s: Schedule, time: int, ghost workload: Queue, arrived0: Queue,
              idle0: bool, ongoing0: Process, ghost complete: seq<Process>)
    returns (arrived: Queue, idle: bool, ongoing: Process)
    requires time == |s| && Charged(w, s, workload, arrived0, idle0, ongoing0, complete)
    requires !idle0 ==> ongoing0.firstRun != -1
    requires forall p :: p in workload ==> p.arrival > time
    ensures GreedyChoice(w, s, Choice(idle, ongoing))
    ensures AtTick(w, s + [Choice(idle, ongoing)], workload, arrived, idle, ongoing, complete)
    ensures idle ==> idle0 && arrived0 == {}
  {
    arrived, idle, ongoing := arrived0, idle0, ongoing0;
    if arrived != {} {
      var p := Top(arrived, DurationKey);
      if idle || ongoing.duration > p.duration {
        Swap(w, s, workload, arrived, idle, ongoing, complete, p);
        if !idle { arrived := arrived + {ongoing}; }
        ongoing := p;
        arrived := arrived - {p};
        idle := false;
      }
    }
    Dispatch(w, s, workload, arrived, idle, ongoing, complete);
    if !idle && ongoing.firstRun == -1 {
      ongoing := ongoing.(firstRun := time);
    }
  }

  /** Charges the running process for the slot it had, and retires it when it is done. */
  method Tick(ghost w: seq<Job>, ghost s: Schedule, time: int, ghost workload: Queue, ghost arrived: Queue,
              ongoing0: Process, complete0: seq<Process>)
    returns (idle: bool, ongoing: Process, complete: seq<Process>)
    requires time == |s| && AtTick(w, s, workload, arrived, false, ongoing0, complete0)
    requires forall k :: 0 <= k < |complete0| ==> complete0[k].duration == 0
    ensures Charged(w, s, workload, arrived, idle, ongoing, complete)
    ensures !idle ==> ongoing.firstRun != -1
    ensures forall k :: 0 <= k < |complete| ==> complete[k].duration == 0
  {
    Charge(w, s, workload, arrived, ongoing0, complete0);
    idle, complete := false, complete0;
    ongoing := ongoing0.(duration := ongoing0.duration - 1);
    if ongoing.duration == 0 {
      FinishOngoing(w, s, workload, arrived, ongoing0, complete);
      ongoing := ongoing.(completion := time);
      complete := complete + [ongoing];
      idle := true;
    }
  }

  /** Shortest time to completion first.  `run` is the schedule the loop follows:
      one slot for each value of `time`. */
  method Stcf(w: seq<Job>) returns (complete: seq<Process>, ghost run: Schedule)
    requires Positive(w)
    ensures Outcome(w, run, complete) && Done(w, run)
    ensures forall k :: 0 <= k < |complete| ==> complete[k].duration == 0
    ensures Greedy(w, run)
    ensures forall o: Schedule, t: nat :: Finished(w, Prefix(run, t)) >= Finished(w, Prefix(o, t))
    ensures forall o: Schedule, done: seq<int> ::
              CompletionTimes(w, o, done) ==> TotalTurnaround(complete) <= Turnaround(w, done)
  {
    complete, run := [], [];
    var workload := ReadWorkload(w);
    var arrived: Queue := {};
    var ongoing := Process(0, 0, 0, 0, 0);
    var idle, time := true, 0;
    ghost var last := ArrivedBound(w, |w|);
    Start(w, workload, ongoing);
    while true
      invariant time == |run|
      invariant AtTick(w, run, workload, arrived, idle, ongoing, complete)
      invariant forall k :: 0 <= k < |complete| ==> complete[k].duration == 0
      decreases Work(w, run, |w|), !idle, last - time
    {
      if idle {
        if workload == {} && arrived == {} { break; }
        StayIdle(w, run, workload, arrived, ongoing, complete);
      } else {
        idle, ongoing, complete := Tick(w, run, time, workload, arrived, ongoing, complete);
      }
      workload, arrived := Admit(w, run, time, workload, arrived, idle, ongoing, complete);
      arrived, idle, ongoing := Pick(w, run, time, workload, arrived, idle, ongoing, complete);
      assert idle ==> forall p :: p in workload ==> time < p.arrival <= last;
      WorkStep(w, run, Choice(idle, ongoing), |w|);
      run := run + [Choice(idle, ongoing)];
      time := time + 1;
    }
    Finish(w, run, ongoing, complete);
    Optimal(w, run, complete);
  }

  lemma Optimal(w: seq<Job>, run: Schedule, complete: seq<Process>)
    requires Positive(w) && Greedy(w, run) && Outcome(w, run, complete) && Done(w, run)
    ensures forall o: Schedule, t: nat :: Finished(w, Prefix(run, t)) >= Finished(w, Prefix(o, t))
    ensures forall o: Schedule, done: seq<int> ::
              CompletionTimes(w, o, done) ==> TotalTurnaround(complete) <= Turnaround(w, done)
  {
    forall o: Schedule, t: nat ensures Finished(w, Prefix(run, t)) >= Finished(w, Prefix(o, t)) {
      Dominance(w, run, o, t);
    }
    forall o: Schedule, done: seq<int> | CompletionTimes(w, o, done)
      ensures TotalTurnaround(complete) <= Turnaround(w, done)
    {
      GreedyOutcomeLeast(w, run, complete, o, done);
    }
  }

  lemma Start(w: seq<Job>, workload: Queue, ongoing: Process)
    requires Positive(w) && workload == set i | 0 <= i < |w| :: Fresh(w, i)
    ensures AtTick(w, [], workload, {}, true, ongoing, [])
  {
    forall i | 0 <= i < |w| ensures i in Ids(workload) {
      assert Fresh(w, i) in workload;
    }
  }

  lemma Finish(w: seq<Job>, s: Schedule, ongoing: Process, complete: seq<Process>)
    requires AtTick(w, s, {}, {}, true, ongoing, complete)
    ensures Outcome(w, s, complete) && Done(w, s)
  {
    forall i | 0 <= i < |w| ensures Rem(w, s, i) <= 0 {
      assert Listed(complete, i);
      var k :| 0 <= k < |complete| && complete[k].id == i;
      RemAntitone(w, s, i, complete[k].completion);
    }
  }
}
