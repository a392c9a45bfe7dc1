/** sleep and wakeup: the hand-over from a caller's lock to the process-table lock.
    Any number of processes wait for a condition guarded by lock `lk`, or make it
    true and wake the waiters. */
module SleepWakeup {

  datatype Pc =
    | Idle
    // a waiter: acquire(lk); while (!ready) { give up if killed; sleep(chan, lk) } ...; release(lk)
    | WantLk
    | Test             // holds lk
    | WantTable        // in sleep, holds lk, wants ptable.lock
    | BothLocks        // in sleep, about to release lk
    | Marking          // holds ptable.lock, about to set chan and SLEEPING
    | Asleep           // SLEEPING; the scheduler has released ptable.lock
    | Runnable         // woken; will take ptable.lock from the scheduler
    | Tidying          // holds ptable.lock, chan = 0, about to release it
    | Using            // holds lk and has seen the condition true
    // a waker: acquire(lk); make the condition true; wakeup(chan); release(lk)
    | WantLkToSet
    | Setting          // holds lk
    | WantTableToWake  // in wakeup, holds lk
    | Waking           // in wakeup1, holds both
    | EndWakeup        // about to release ptable.lock
    | Leaving          // about to release lk

  /** Lock owners are process numbers, or NOBODY. */
  datatype State = State(pcs: seq<Pc>, lk: int, table: int, ready: bool)

  const NOBODY := -1

  function Wake(pcs: seq<Pc>): (r: seq<Pc>)
    ensures |r| == |pcs|
  {
    seq(|pcs|, i requires 0 <= i < |pcs| => if pcs[i] == Asleep then Runnable else pcs[i])
  }

  /** What the environment leaves open: a kill, which wakes a sleeper and makes a
      waiter give up, and whether using the condition leaves it true. */
  datatype Choice = Normal | Killed | Consume

  ghost predicate Step(s: State, i: nat, c: Choice, t: State) {
    && i < |s.pcs|
    && match s.pcs[i]
       case Idle => t == Go(s, i, WantLk) || t == Go(s, i, WantLkToSet)
       case WantLk => s.lk == NOBODY && t == Go(s, i, Test).(lk := i)
       case Test =>
         || t == Go(s, i, if s.ready then Using else WantTable)
         || (c == Killed && !s.ready && t == Go(s, i, Idle).(lk := NOBODY))  // gives up
       case WantTable => s.table == NOBODY && t == Go(s, i, BothLocks).(table := i)
       case BothLocks => t == Go(s, i, Marking).(lk := NOBODY)
       case Marking => t == Go(s, i, Asleep).(table := NOBODY)
       case Asleep => c == Killed && s.table == NOBODY && t == Go(s, i, Runnable)
       case Runnable => s.table == NOBODY && t == Go(s, i, Tidying).(table := i)
       case Tidying => t == Go(s, i, WantLk).(table := NOBODY)
       case Using => t == Go(s, i, Idle).(lk := NOBODY, ready := s.ready && c != Consume)
       case WantLkToSet => s.lk == NOBODY && t == Go(s, i, Setting).(lk := i)
       case Setting => t == Go(s, i, WantTableToWake).(ready := true)
       case WantTableToWake => s.table == NOBODY && t == Go(s, i, Waking).(table := i)
       case Waking => t == s.(pcs := Wake(s.pcs)[i := EndWakeup])
       case EndWakeup => t == Go(s, i, Leaving).(table := NOBODY)
       case Leaving => t == Go(s, i, Idle).(lk := NOBODY)
  }

  function Go(s: State, i: nat, pc: Pc): State
    requires i < |s.pcs|
  {
    s.(pcs := s.pcs[i := pc])
  }

  ghost predicate Init(s: State) {
    && s.lk == NOBODY && s.table == NOBODY
    && forall i :: 0 <= i < |s.pcs| ==> s.pcs[i] == Idle
  }

  ghost predicate Run(who: seq<nat>, cs: seq<Choice>, ss: seq<State>) {
    && |who| == |cs| && |ss| == |who| + 1 && Init(ss[0])
    && forall k :: 0 <= k < |who| ==> Step(ss[k], who[k], cs[k], ss[k + 1])
  }

  predicate HasLk(pc: Pc) {
    || pc.Test? || pc.WantTable? || pc.BothLocks? || pc.Using? || pc.Setting?
    || WillWake(pc) || pc.EndWakeup? || pc.Leaving?
  }

  predicate HasTable(pc: Pc) {
    pc.BothLocks? || pc.Marking? || pc.Tidying? || pc.Waking? || pc.EndWakeup?
  }

  /** Has made the condition true and not yet run wakeup1. */
  predicate WillWake(pc: Pc) { pc.WantTableToWake? || pc.Waking? }

  ghost predicate Owns(owner: int, n: nat) { owner == NOBODY || 0 <= owner < n }

  ghost predicate Locks(s: State) {
    && Owns(s.lk, |s.pcs|) && Owns(s.table, |s.pcs|)
    && (forall i :: 0 <= i < |s.pcs| ==> (HasLk(s.pcs[i]) <==> s.lk == i))
    && (forall i :: 0 <= i < |s.pcs| ==> (HasTable(s.pcs[i]) <==> s.table == i))
  }

  /** A waker stands between the condition and anyone asleep or going to sleep. */
  ghost predicate Covered(s: State) {
    s.lk != NOBODY && 0 <= s.lk < |s.pcs| && WillWake(s.pcs[s.lk])
  }

  ghost predicate Sleepers(s: State) {
    s.ready ==> forall i :: 0 <= i < |s.pcs| ==>
      && !s.pcs[i].WantTable? && !s.pcs[i].BothLocks?
      && (s.pcs[i].Marking? || s.pcs[i].Asleep? ==> Covered(s))
  }

  ghost predicate Inv(s: State) { Locks(s) && Sleepers(s) }

  /** One lock taken, released or left alone by process `i`. */
  predicate LockMove(before: int, after: int, i: int, had: bool, has: bool) {
    || (after == before && had == has)
    || (before == NOBODY && after == i && has)
    || (before == i && after == NOBODY && !has)
  }

  lemma LocksKept(s: State, i: nat, t: State)
    requires Locks(s) && i < |s.pcs| == |t.pcs|
    requires forall j :: 0 <= j < |s.pcs| && j != i ==>
               HasLk(t.pcs[j]) == HasLk(s.pcs[j]) && HasTable(t.pcs[j]) == HasTable(s.pcs[j])
    requires LockMove(s.lk, t.lk, i, HasLk(s.pcs[i]), HasLk(t.pcs[i]))
    requires LockMove(s.table, t.table, i, HasTable(s.pcs[i]), HasTable(t.pcs[i]))
    ensures Locks(t)
  {
  }

  lemma StepLocks(s: State, i: nat, c: Choice, t: State)
    requires Inv(s) && Step(s, i, c, t)
    ensures Locks(t)
  {
    assert HasLk(s.pcs[i]) <==> s.lk == i;
    assert HasTable(s.pcs[i]) <==> s.table == i;
    forall j | 0 <= j < |s.pcs| && j != i
      ensures HasLk(t.pcs[j]) == HasLk(s.pcs[j]) && HasTable(t.pcs[j]) == HasTable(s.pcs[j])
    {
    }
    StepMovesLk(s, i, c, t);
    StepMovesTable(s, i, c, t);
    LocksKept(s, i, t);
  }

  lemma StepMovesLk(s: State, i: nat, c: Choice, t: State)
    requires Locks(s) && Step(s, i, c, t)
    ensures LockMove(s.lk, t.lk, i, HasLk(s.pcs[i]), HasLk(t.pcs[i]))
  {
  }

  lemma StepMovesTable(s: State, i: nat, c: Choice, t: State)
    requires Locks(s) && Step(s, i, c, t)
    ensures LockMove(s.table, t.table, i, HasTable(s.pcs[i]), HasTable(t.pcs[i]))
  {
  }

  lemma StepSleepers(s: State, i: nat, c: Choice, t: State)
    requires Inv(s) && Step(s, i, c, t)
    ensures Sleepers(t)
  {
    assert HasLk(s.pcs[i]) <==> s.lk == i;
    match s.pcs[i]
    case Setting =>
      assert Covered(t);
      forall j | 0 <= j < |t.pcs| ensures !t.pcs[j].WantTable? && !t.pcs[j].BothLocks? {
        assert HasLk(s.pcs[j]) <==> s.lk == j;
      }
    case Waking =>
    case WantLk => assert s.ready ==> !Covered(s);
    case WantLkToSet => assert s.ready ==> !Covered(s);
    case _ =>
  }

  lemma StepKeeps(s: State, i: nat, c: Choice, t: State)
    requires Inv(s) && Step(s, i, c, t)
    ensures Inv(t)
  {
    StepLocks(s, i, c, t);
    StepSleepers(s, i, c, t);
  }

  lemma {:induction false} RunKeeps(who: seq<nat>, cs: seq<Choice>, ss: seq<State>, k: nat)
    requires Run(who, cs, ss) && k < |ss|
    ensures Inv(ss[k])
  {
    if k > 0 {
      RunKeeps(who, cs, ss, k - 1);
      assert Step(ss[k-1], who[k-1], cs[k-1], ss[k-1+1]);
      StepKeeps(ss[k-1], who[k-1], cs[k-1], ss[k]);
    }
  }

  /** No lost wake-up: whenever `lk` is free, no process that waits for the condition
      is asleep, or on its way to sleep, while the condition is true. */
  lemma NoLostWakeup(who: seq<nat>, cs: seq<Choice>, ss: seq<State>, k: nat)
    requires Run(who, cs, ss) && k < |ss| && ss[k].lk == NOBODY && ss[k].ready
    ensures forall i :: 0 <= i < |ss[k].pcs| ==>
              !ss[k].pcs[i].Asleep? && !ss[k].pcs[i].Marking? && !ss[k].pcs[i].WantTable? && !ss[k].pcs[i].BothLocks?
  {
    RunKeeps(who, cs, ss, k);
  }

  /** Neither lock is waited for in a cycle: the process holding ptable.lock never
      waits for `lk` while it holds it. */
  lemma TableHolderProceeds(who: seq<nat>, cs: seq<Choice>, ss: seq<State>, k: nat)
    requires Run(who, cs, ss) && k < |ss| && ss[k].table != NOBODY
    ensures 0 <= ss[k].table < |ss[k].pcs|
    ensures exists t :: Step(ss[k], ss[k].table, Normal, t)
  {
    RunKeeps(who, cs, ss, k);
    var s, i := ss[k], ss[k].table;
    var t := match s.pcs[i]
      case BothLocks => Go(s, i, Marking).(lk := NOBODY)
      case Marking => Go(s, i, Asleep).(table := NOBODY)
      case Tidying => Go(s, i, WantLk).(table := NOBODY)
      case Waking => s.(pcs := Wake(s.pcs)[i := EndWakeup])
      case EndWakeup => Go(s, i, Leaving).(table := NOBODY)
      case _ => s;
    assert Step(s, i, Normal, t);
  }
}
