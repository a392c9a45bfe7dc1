/** The process table: fork, exit, wait, kill and the scans behind them. */
module ProcTable {

  datatype RunState = UNUSED | EMBRYO | SLEEPING | RUNNABLE | RUNNING | ZOMBIE

  /** A sleep channel is an address: of process slot `slot`, or of something else. */
  datatype Chan = NoChan | OfProc(slot: int) | Other(address: int)

  /** `parent` is a slot number or NONE. */
  datatype Proc = Proc(state: RunState, pid: int, parent: int, chan: Chan, killed: bool)

  const NONE := -1

  predicate Started(p: Proc) {
    p.state == SLEEPING || p.state == RUNNABLE || p.state == RUNNING || p.state == ZOMBIE
  }

  predicate Alive(p: Proc) { Started(p) && p.state != ZOMBIE }

  // ----- what must hold whenever the table lock is free -----

  /** `forking[c] == p` while process `p` is between allocproc and its last step of
      creating `c`. */
  ghost predicate Family(t: seq<Proc>, init: int, forking: map<int, int>) {
    && 0 <= init < |t| && Alive(t[init])
    && (forall i :: 0 <= i < |t| && Started(t[i]) && i != init ==> HasLiveParent(t, i))
    && (forall i :: 0 <= i < |t| && t[i].state == EMBRYO ==> Embryo(t, forking, i))
    && (forall i :: 0 <= i < |t| && t[i].state == UNUSED ==> t[i].parent == NONE)
    && (forall c :: c in forking ==> 0 <= c < |t| && t[c].state == EMBRYO)
    && t[init].parent == NONE
  }

  ghost predicate HasLiveParent(t: seq<Proc>, i: int)
    requires 0 <= i < |t|
  {
    0 <= t[i].parent < |t| && t[i].parent != i && Alive(t[t[i].parent])
  }

  ghost predicate Embryo(t: seq<Proc>, forking: map<int, int>, i: int)
    requires 0 <= i < |t|
  {
    && i in forking && 0 <= forking[i] < |t| && Alive(t[forking[i]])
    && (t[i].parent == NONE || t[i].parent == forking[i])
  }

  /** No process asleep in wait has a zombie child. */
  ghost predicate NoneMissed(t: seq<Proc>) {
    forall i, z :: 0 <= i < |t| && 0 <= z < |t| && InWait(t, i) ==> !(t[z].state == ZOMBIE && t[z].parent == i)
  }

  ghost predicate InWait(t: seq<Proc>, i: int)
    requires 0 <= i < |t|
  {
    t[i].state == SLEEPING && t[i].chan == OfProc(i)
  }

  /** Pids in use differ from each other and from those already reaped. */
  ghost predicate Pids(t: seq<Proc>, nextpid: int, reaped: seq<int>) {
    && (forall i :: 0 <= i < |t| && t[i].state != UNUSED ==> 0 < t[i].pid < nextpid && t[i].pid !in reaped)
    && (forall i, j :: 0 <= i < |t| && 0 <= j < |t| && i != j && t[i].state != UNUSED && t[j].state != UNUSED ==>
          t[i].pid != t[j].pid)
    && (forall k :: 0 <= k < |reaped| ==> 0 < reaped[k] < nextpid)
    && (forall j, k :: 0 <= j < k < |reaped| ==> reaped[j] != reaped[k])
  }

  // ----- the scans as functions of the table -----

  /** wakeup1: every sleeper on `chan` becomes runnable. */
  function Woken(t: seq<Proc>, chan: Chan): (r: seq<Proc>)
    ensures |r| == |t|
  {
    seq(|t|, i requires 0 <= i < |t| =>
      if t[i].state == SLEEPING && t[i].chan == chan then t[i].(state := RUNNABLE) else t[i])
  }

  /** Children of `cur` are handed to `init`. */
  function Adopted(t: seq<Proc>, cur: int, init: int, n: int): (r: seq<Proc>)
    ensures |r| == |t|
  {
    seq(|t|, i requires 0 <= i < |t| =>
      if i < n && t[i].parent == cur then t[i].(parent := init) else t[i])
  }

  /** The table while exit hands over children: the first `n` slots done, init woken
      if a zombie was among them. */
  function Scanned(t: seq<Proc>, cur: int, init: int, n: int, woke: bool): (r: seq<Proc>)
    ensures |r| == |t|
  {
    if woke then Woken(Adopted(t, cur, init, n), OfProc(init)) else Adopted(t, cur, init, n)
  }

  lemma ScanOne(t: seq<Proc>, cur: int, init: int, i: int, woke: bool)
    requires 0 <= i < |t| && init != cur && (woke <==> ZombieChild(t, cur, i))
    ensures var s := Scanned(t, cur, init, i, woke);
            && (s[i].parent == cur <==> t[i].parent == cur) && (s[i].state == ZOMBIE <==> t[i].state == ZOMBIE)
            && var u := s[i := s[i].(parent := init)];
               && (t[i].parent != cur ==>
                     s == Scanned(t, cur, init, i + 1, woke) && (woke <==> ZombieChild(t, cur, i + 1)))
               && (t[i].parent == cur && t[i].state != ZOMBIE ==>
                     u == Scanned(t, cur, init, i + 1, woke) && (woke <==> ZombieChild(t, cur, i + 1)))
               && (t[i].parent == cur && t[i].state == ZOMBIE ==>
                     Woken(u, OfProc(init)) == Scanned(t, cur, init, i + 1, true) && ZombieChild(t, cur, i + 1))
  {
  }

  /** Some of the first `n` slots is a zombie child of `cur`. */
  ghost predicate ZombieChild(t: seq<Proc>, cur: int, n: int) {
    exists z :: 0 <= z < n <= |t| && t[z].parent == cur && t[z].state == ZOMBIE
  }

  /** The table after exit: the parent is woken, children go to `init`, which is
      woken if one of them is a zombie, and `cur` becomes a zombie. */
  function Exited(t: seq<Proc>, cur: int, init: int, zombies: bool): seq<Proc>
    requires 0 <= cur < |t|
  {
    var u := Adopted(Woken(t, OfProc(t[cur].parent)), cur, init, |t|);
    var v := if zombies then Woken(u, OfProc(init)) else u;
    v[cur := v[cur].(state := ZOMBIE)]
  }

  /** What kill does to a process: it is marked, and woken if it sleeps. */
  function Killed(p: Proc): Proc {
    p.(killed := true, state := if p.state == SLEEPING then RUNNABLE else p.state)
  }

  const FREE := Proc(UNUSED, 0, NONE, NoChan, false)

  /** What exit does to slot `i`. */
  lemma ExitedAt(t: seq<Proc>, cur: int, init: int, zombies: bool, i: int)
    requires 0 <= cur < |t| && 0 <= i < |t| && t[cur].state == RUNNING
    ensures var r := Exited(t, cur, init, zombies);
            && |r| == |t| && r[i].pid == t[i].pid && r[i].chan == t[i].chan && r[i].killed == t[i].killed
            && r[i].parent == (if t[i].parent == cur then init else t[i].parent)
            && r[i].state == (if i == cur then ZOMBIE
                              else if t[i].state == SLEEPING &&
                                  (t[i].chan == OfProc(t[cur].parent) || (zombies && t[i].chan == OfProc(init)))
                              then RUNNABLE else t[i].state)
  {
  }

  lemma ExitFamily(t: seq<Proc>, cur: int, init: int, zombies: bool, forking: map<int, int>)
    requires Family(t, init, forking)
    requires 0 <= cur < |t| && t[cur].state == RUNNING && cur != init
    requires forall c :: c in forking ==> forking[c] != cur
    ensures Family(Exited(t, cur, init, zombies), init, forking)
  {
    var r := Exited(t, cur, init, zombies);
    ExitedAt(t, cur, init, zombies, init);
    forall i | 0 <= i < |t| && Started(r[i]) && i != init ensures HasLiveParent(r, i) {
      ExitedAt(t, cur, init, zombies, i);
      assert HasLiveParent(t, i);
      ExitedAt(t, cur, init, zombies, t[i].parent);
    }
    forall i | 0 <= i < |t| && r[i].state == EMBRYO ensures Embryo(r, forking, i) {
      ExitedAt(t, cur, init, zombies, i);
      assert Embryo(t, forking, i);
      ExitedAt(t, cur, init, zombies, forking[i]);
    }
    forall i | 0 <= i < |t| && r[i].state == UNUSED ensures r[i].parent == NONE {
      ExitedAt(t, cur, init, zombies, i);
    }
    forall c | c in forking ensures r[c].state == EMBRYO {
      ExitedAt(t, cur, init, zombies, c);
    }
  }

  lemma ExitNoneMissed(t: seq<Proc>, cur: int, init: int, zombies: bool, forking: map<int, int>)
    requires Family(t, init, forking) && NoneMissed(t)
    requires 0 <= cur < |t| && t[cur].state == RUNNING && cur != init
    requires zombies <==> ZombieChild(t, cur, |t|)
    ensures NoneMissed(Exited(t, cur, init, zombies))
  {
    var r := Exited(t, cur, init, zombies);
    assert HasLiveParent(t, cur);
    forall i, z | 0 <= i < |t| && 0 <= z < |t| && InWait(r, i) && r[z].state == ZOMBIE ensures r[z].parent != i {
      ExitedAt(t, cur, init, zombies, i);
      ExitedAt(t, cur, init, zombies, z);
      assert InWait(t, i);
      if t[z].state == ZOMBIE && t[z].parent == cur { assert ZombieChild(t, cur, |t|); }
    }
  }

  lemma ExitPids(t: seq<Proc>, cur: int, init: int, zombies: bool, nextpid: int, reaped: seq<int>)
    requires Pids(t, nextpid, reaped)
    requires 0 <= cur < |t| && t[cur].state == RUNNING
    ensures Pids(Exited(t, cur, init, zombies), nextpid, reaped)
  {
    var r := Exited(t, cur, init, zombies);
    forall i | 0 <= i < |t| ensures r[i].pid == t[i].pid && (r[i].state == UNUSED <==> t[i].state == UNUSED) {
      ExitedAt(t, cur, init, zombies, i);
    }
  }

  // ----- the table -----

  datatype WaitOutcome = Reaped(pid: int) | NoChild | Sleeps

  /** A call of a method below is what one process does while it holds the table
      lock; `sleep` in wait gives the lock up in the same step that marks the process
      asleep.  The runs of the table are the sequences of these calls. */
  class Table {
    var proc: array<Proc>
    var init: int
    var nextpid: int
    ghost var forking: map<int, int>
    ghost var reaped: seq<int>

    ghost predicate Valid()
      reads this, proc
    {
      && Family(proc[..], init, forking) && NoneMissed(proc[..]) && Pids(proc[..], nextpid, reaped)
      && 0 < nextpid
    }

    /** After userinit: one runnable process, the first slot. */
    constructor (n: nat)
      requires n > 0
      ensures Valid() && reaped == [] && forking == map[] && fresh(proc)
      ensures proc.Length == n && init == 0 && nextpid == 2
      ensures proc[..] == seq(n, i => if i == 0 then Proc(RUNNABLE, 1, NONE, NoChan, false) else FREE)
    {
      proc := new Proc[n](i => if i == 0 then Proc(RUNNABLE, 1, NONE, NoChan, false) else FREE);
      init, nextpid, forking, reaped := 0, 2, map[], [];
    }

    method Wakeup1(chan: Chan)
      modifies proc
      ensures proc[..] == Woken(old(proc[..]), chan)
    {
      ghost var t := proc[..];
      for i := 0 to proc.Length
        invariant forall k :: 0 <= k < i ==> proc[k] == Woken(t, chan)[k]
        invariant forall k :: i <= k < proc.Length ==> proc[k] == t[k]
      {
        if proc[i].state == SLEEPING && proc[i].chan == chan {
          proc[i] := proc[i].(state := RUNNABLE);
        }
      }
      assert proc[..] == Woken(t, chan);
    }

    /** wakeup on a channel that is not a process slot. */
    method Wakeup(address: int)
      requires Valid()
      modifies proc
      ensures Valid() && proc[..] == Woken(old(proc[..]), Other(address))
    {
      ghost var t := proc[..];
      Wakeup1(Other(address));
      StateChange(t, proc[..], init, forking, nextpid, reaped);
    }

    /** First half of fork. */
    method Allocproc(cur: int) returns (np: int)
      requires Valid() && 0 <= cur < proc.Length && proc[cur].state == RUNNING
      modifies this`nextpid, this`forking, proc
      ensures Valid()
      ensures np == NONE ==>
        unchanged(this) && unchanged(proc) && forall i :: 0 <= i < proc.Length ==> proc[i].state != UNUSED
      ensures np != NONE ==>
        && 0 <= np < proc.Length && old(proc[np].state) == UNUSED
        && proc[..] == old(proc[..])[np := old(proc[np]).(state := EMBRYO, pid := old(nextpid))]
        && nextpid == old(nextpid) + 1 && forking == old(forking)[np := cur]
    {
      np := FindUnused();
      if np == NONE { return; }
      ghost var t := proc[..];
      AllocKeeps(t, np, cur, init, forking, nextpid, reaped);
      proc[np] := proc[np].(state := EMBRYO, pid := nextpid);
      assert proc[..] == t[np := t[np].(state := EMBRYO, pid := nextpid)];
      nextpid := nextpid + 1;
      forking := forking[np := cur];
    }

    /** The first unused slot. */
    method FindUnused() returns (np: int)
      ensures np == NONE ==> forall i :: 0 <= i < proc.Length ==> proc[i].state != UNUSED
      ensures np != NONE ==>
        && 0 <= np < proc.Length && proc[np].state == UNUSED
        && forall i :: 0 <= i < np ==> proc[i].state != UNUSED
    {
      np := 0;
      while np < proc.Length
        invariant 0 <= np <= proc.Length
        invariant forall i :: 0 <= i < np ==> proc[i].state != UNUSED
      {
        if proc[np].state == UNUSED { return; }
        np := np + 1;
      }
      return NONE;
    }

    /** fork gives up: kalloc or copyuvm failed, before the parent is set. */
    method AbandonFork(np: int)
      requires Valid() && np in forking && proc[np].parent == NONE
      modifies this`forking, proc
      ensures Valid() && forking == old(forking) - {np}
      ensures proc[..] == old(proc[..])[np := old(proc[np]).(state := UNUSED)]
    {
      ghost var t := proc[..];
      proc[np] := proc[np].(state := UNUSED);
      forking := forking - {np};
      EndForkKeeps(t, np, UNUSED, init, old(forking), nextpid, reaped);
      assert proc[..] == t[np := proc[np]];
    }

    method SetParent(np: int, cur: int)
      requires Valid() && np in forking && forking[np] == cur
      modifies proc
      ensures Valid() && proc[..] == old(proc[..])[np := old(proc[np]).(parent := cur)]
    {
      ghost var t := proc[..];
      proc[np] := proc[np].(parent := cur);
      SetParentKeeps(t, np, init, forking, nextpid, reaped);
      assert proc[..] == t[np := proc[np]];
    }

    /** Last step of fork. */
    method FinishFork(np: int)
      requires Valid() && np in forking && proc[np].parent == forking[np]
      modifies this`forking, proc
      ensures Valid() && forking == old(forking) - {np}
      ensures proc[..] == old(proc[..])[np := old(proc[np]).(state := RUNNABLE)]
    {
      ghost var t := proc[..];
      proc[np] := proc[np].(state := RUNNABLE);
      forking := forking - {np};
      EndForkKeeps(t, np, RUNNABLE, init, old(forking), nextpid, reaped);
      assert proc[..] == t[np := proc[np]];
    }

    /** exit from wakeup1 of the parent on.  `init` exiting is a panic. */
    method Exit(cur: int) returns (panic: bool)
      requires Valid() && 0 <= cur < proc.Length && proc[cur].state == RUNNING
      requires forall c :: c in forking ==> forking[c] != cur
      modifies proc
      ensures Valid()
      ensures panic <==> cur == init
      ensures panic ==> unchanged(proc)
      ensures !panic ==> proc[..] == Exited(old(proc[..]), cur, init, ZombieChild(old(proc[..]), cur, proc.Length))
    {
      if cur == init { return true; }
      ghost var t := proc[..];
      ghost var zombies := ZombieChild(t, cur, |t|);
      Wakeup1(OfProc(proc[cur].parent));
      ghost var w := proc[..];
      assert ZombieChild(w, cur, |w|) <==> zombies by {
        assert forall i :: 0 <= i < |t| ==>
            w[i].parent == t[i].parent && (w[i].state == ZOMBIE <==> t[i].state == ZOMBIE);
      }
      Reparent(cur);
      proc[cur] := proc[cur].(state := ZOMBIE);
      assert proc[..] == Exited(t, cur, init, zombies);
      ExitFamily(t, cur, init, zombies, forking);
      ExitNoneMissed(t, cur, init, zombies, forking);
      ExitPids(t, cur, init, zombies, nextpid, reaped);
      return false;
    }

    /** Every child of `cur` gets `init` as its parent. */
    method Reparent(cur: int)
      requires init != cur
      modifies proc
      ensures proc[..] == Scanned(old(proc[..]), cur, init, proc.Length, ZombieChild(old(proc[..]), cur, proc.Length))
    {
      ghost var w := proc[..];
      ghost var woke := false;
      assert proc[..] == Scanned(w, cur, init, 0, false);
      var i := 0;
      while i < proc.Length
        invariant 0 <= i <= proc.Length
        invariant woke <==> ZombieChild(w, cur, i)
        invariant proc[..] == Scanned(w, cur, init, i, woke)
      {
        ghost var before, woken := proc[..], woke;
        if proc[i].parent == cur {
          proc[i] := proc[i].(parent := init);
          assert proc[..] == before[i := before[i].(parent := init)];
          if proc[i].state == ZOMBIE {
            Wakeup1(OfProc(init));
            woke := true;
          }
        }
        ScanOne(w, cur, init, i, woken);
        i := i + 1;
      }
    }

    /** One turn of the loop of wait: reap a zombie child, give up or go to sleep. */
    method Wait(cur: int) returns (r: WaitOutcome)
      requires Valid() && 0 <= cur < proc.Length && proc[cur].state == RUNNING
      modifies this`reaped, proc
      ensures Valid()
      ensures r.Reaped? ==>
        && reaped == old(reaped) + [r.pid] && r.pid !in old(reaped)
        && exists z :: 0 <= z < proc.Length && old(proc[z].state) == ZOMBIE && old(proc[z].parent) == cur
             && old(proc[z].pid) == r.pid && proc[..] == old(proc[..])[z := FREE.(chan := old(proc[z].chan))]
      ensures r.NoChild? ==> unchanged(this) && unchanged(proc)
      ensures r.Sleeps? ==>
        && reaped == old(reaped)
        && proc[..] == old(proc[..])[cur := old(proc[cur]).(state := SLEEPING, chan := OfProc(cur))]
      ensures r.Reaped? <==> ZombieChild(old(proc[..]), cur, proc.Length)
      ensures r.NoChild? <==>
        !r.Reaped? && (old(proc[cur].killed) || forall i :: 0 <= i < proc.Length ==> old(proc[i].parent) != cur)
    {
      ghost var t := proc[..];
      var havekids := false;
      for i := 0 to proc.Length
        invariant unchanged(this) && unchanged(proc)
        invariant havekids <==> exists k :: 0 <= k < i && proc[k].parent == cur
        invariant !ZombieChild(t, cur, i)
      {
        if proc[i].parent == cur {
          havekids := true;
          if proc[i].state == ZOMBIE {
            var pid := proc[i].pid;
            ReapKeeps(t, i, init, forking, nextpid, reaped);
            proc[i] := Proc(UNUSED, 0, NONE, proc[i].chan, false);
            reaped := reaped + [pid];
            assert proc[..] == t[i := FREE.(chan := t[i].chan)];
            assert ZombieChild(t, cur, |t|);
            return Reaped(pid);
          }
        }
      }
      if !havekids || proc[cur].killed {
        return NoChild;
      }
      proc[cur] := proc[cur].(chan := OfProc(cur), state := SLEEPING);
      assert proc[..] == t[cur := t[cur].(state := SLEEPING, chan := OfProc(cur))];
      SleepKeeps(t, cur, init, forking, nextpid, reaped);
      return Sleeps;
    }

    /** kill: the first slot with the pid, whatever its state. */
    method Kill(pid: int) returns (found: bool)
      requires Valid()
      modifies proc
      ensures Valid()
      ensures !found ==> unchanged(proc) && forall i :: 0 <= i < proc.Length ==> proc[i].pid != pid
      ensures found ==> exists i ::
        && 0 <= i < proc.Length && old(proc[i].pid) == pid
        && (forall j :: 0 <= j < i ==> old(proc[j].pid) != pid)
        && proc[..] == old(proc[..])[i := Killed(old(proc[i]))]
    {
      ghost var t := proc[..];
      for i := 0 to proc.Length
        invariant unchanged(proc)
        invariant forall j :: 0 <= j < i ==> proc[j].pid != pid
      {
        if proc[i].pid == pid {
          proc[i] := proc[i].(killed := true);
          if proc[i].state == SLEEPING {
            proc[i] := proc[i].(state := RUNNABLE);
          }
          assert proc[..] == t[i := proc[i]];
          StateChange(t, proc[..], init, forking, nextpid, reaped);
          return true;
        }
      }
      return false;
    }

    /** The scheduler picks a runnable process, or a process yields, or it sleeps on
        something other than a process. */
    method Dispatch(i: int, to: RunState, chan: Chan)
      requires Valid() && 0 <= i < proc.Length && !chan.OfProc?
      requires match to
               case RUNNING => proc[i].state == RUNNABLE
               case RUNNABLE => proc[i].state == RUNNING
               case SLEEPING => proc[i].state == RUNNING
               case _ => false
      modifies proc
      ensures Valid()
      ensures var p := old(proc[i]);
              proc[..] == old(proc[..])[i := p.(state := to, chan := if to == SLEEPING then chan else p.chan)]
    {
      ghost var t := proc[..];
      if to == SLEEPING {
        proc[i] := proc[i].(chan := chan);
      }
      proc[i] := proc[i].(state := to);
      assert proc[..] == t[i := proc[i]];
      StateChange(t, proc[..], init, forking, nextpid, reaped);
    }
  }

  // ----- what each step keeps -----

  /** A change among sleeping, runnable and running that puts nobody to sleep in
      wait. */
  lemma StateChange(t: seq<Proc>, r: seq<Proc>, init: int, forking: map<int, int>, nextpid: int, reaped: seq<int>)
    requires Family(t, init, forking) && NoneMissed(t) && Pids(t, nextpid, reaped) && |r| == |t|
    requires forall i :: 0 <= i < |t| ==>
      && r[i].pid == t[i].pid && r[i].parent == t[i].parent
      && (r[i].state == t[i].state || (Alive(r[i]) && Alive(t[i])))
      && (InWait(r, i) ==> InWait(t, i))
    ensures Family(r, init, forking) && NoneMissed(r) && Pids(r, nextpid, reaped)
  {
    forall i | 0 <= i < |r| && Started(r[i]) && i != init ensures HasLiveParent(r, i) {
      assert HasLiveParent(t, i);
    }
    forall i | 0 <= i < |r| && r[i].state == EMBRYO ensures Embryo(r, forking, i) {
      assert Embryo(t, forking, i);
    }
  }

  lemma AllocKeeps(t: seq<Proc>, np: int, cur: int, init: int, forking: map<int, int>, nextpid: int, reaped: seq<int>)
    requires Family(t, init, forking) && NoneMissed(t) && Pids(t, nextpid, reaped) && 0 < nextpid
    requires 0 <= np < |t| && t[np].state == UNUSED && 0 <= cur < |t| && Alive(t[cur])
    ensures var r := t[np := t[np].(state := EMBRYO, pid := nextpid)];
            Family(r, init, forking[np := cur]) && NoneMissed(r) && Pids(r, nextpid + 1, reaped)
  {
    AllocFamily(t, np, cur, init, forking, nextpid);
    AllocPids(t, np, nextpid, reaped);
    var r := t[np := t[np].(state := EMBRYO, pid := nextpid)];
    forall i | 0 <= i < |r| && InWait(r, i) ensures InWait(t, i) { }
  }

  lemma AllocPids(t: seq<Proc>, np: int, nextpid: int, reaped: seq<int>)
    requires Pids(t, nextpid, reaped) && 0 < nextpid && 0 <= np < |t| && t[np].state == UNUSED
    ensures Pids(t[np := t[np].(state := EMBRYO, pid := nextpid)], nextpid + 1, reaped)
  {
  }

  lemma AllocFamily(t: seq<Proc>, np: int, cur: int, init: int, forking: map<int, int>, nextpid: int)
    requires Family(t, init, forking)
    requires 0 <= np < |t| && t[np].state == UNUSED && 0 <= cur < |t| && Alive(t[cur])
    ensures Family(t[np := t[np].(state := EMBRYO, pid := nextpid)], init, forking[np := cur])
  {
    var r := t[np := t[np].(state := EMBRYO, pid := nextpid)];
    forall i | 0 <= i < |r| && Started(r[i]) && i != init ensures HasLiveParent(r, i) {
      assert HasLiveParent(t, i);
    }
    forall i | 0 <= i < |r| && r[i].state == EMBRYO ensures Embryo(r, forking[np := cur], i) {
      if i != np { assert Embryo(t, forking, i); }
    }
  }

  lemma SetParentKeeps(t: seq<Proc>, np: int, init: int, forking: map<int, int>, nextpid: int, reaped: seq<int>)
    requires Family(t, init, forking) && NoneMissed(t) && Pids(t, nextpid, reaped)
    requires np in forking
    ensures var r := t[np := t[np].(parent := forking[np])];
            Family(r, init, forking) && NoneMissed(r) && Pids(r, nextpid, reaped)
  {
    var r := t[np := t[np].(parent := forking[np])];
    forall i | 0 <= i < |r| && Started(r[i]) && i != init ensures HasLiveParent(r, i) {
      assert HasLiveParent(t, i);
    }
    forall i | 0 <= i < |r| && r[i].state == EMBRYO ensures Embryo(r, forking, i) {
      assert Embryo(t, forking, i);
    }
    forall i | 0 <= i < |r| && InWait(r, i) ensures InWait(t, i) { }
  }

  lemma EndForkKeeps(t: seq<Proc>, np: int, to: RunState, init: int, forking: map<int, int>, nextpid: int,
                     reaped: seq<int>)
    requires Family(t, init, forking) && NoneMissed(t) && Pids(t, nextpid, reaped)
    requires np in forking
    requires (to == UNUSED && t[np].parent == NONE) || (to == RUNNABLE && t[np].parent == forking[np])
    ensures var r := t[np := t[np].(state := to)];
            Family(r, init, forking - {np}) && NoneMissed(r) && Pids(r, nextpid, reaped)
  {
    var r := t[np := t[np].(state := to)];
    assert Embryo(t, forking, np);
    forall i | 0 <= i < |r| && Started(r[i]) && i != init ensures HasLiveParent(r, i) {
      if i != np { assert HasLiveParent(t, i); }
    }
    forall i | 0 <= i < |r| && r[i].state == EMBRYO ensures Embryo(r, forking - {np}, i) {
      assert Embryo(t, forking, i);
    }
    forall i | 0 <= i < |r| && InWait(r, i) ensures InWait(t, i) { }
  }

  lemma ReapKeeps(t: seq<Proc>, z: int, init: int, forking: map<int, int>, nextpid: int, reaped: seq<int>)
    requires Family(t, init, forking) && NoneMissed(t) && Pids(t, nextpid, reaped)
    requires 0 <= z < |t| && t[z].state == ZOMBIE
    ensures var r := t[z := FREE.(chan := t[z].chan)];
            Family(r, init, forking) && NoneMissed(r) && Pids(r, nextpid, reaped + [t[z].pid])
  {
    var r := t[z := FREE.(chan := t[z].chan)];
    forall i | 0 <= i < |r| && Started(r[i]) && i != init ensures HasLiveParent(r, i) {
      assert HasLiveParent(t, i);
    }
    forall i | 0 <= i < |r| && r[i].state == EMBRYO ensures Embryo(r, forking, i) {
      assert Embryo(t, forking, i);
    }
    forall i | 0 <= i < |r| && InWait(r, i) ensures InWait(t, i) { }
  }

  lemma SleepKeeps(t: seq<Proc>, cur: int, init: int, forking: map<int, int>, nextpid: int, reaped: seq<int>)
    requires Family(t, init, forking) && NoneMissed(t) && Pids(t, nextpid, reaped)
    requires 0 <= cur < |t| && t[cur].state == RUNNING && !ZombieChild(t, cur, |t|)
    ensures var r := t[cur := t[cur].(state := SLEEPING, chan := OfProc(cur))];
            Family(r, init, forking) && NoneMissed(r) && Pids(r, nextpid, reaped)
  {
    var r := t[cur := t[cur].(state := SLEEPING, chan := OfProc(cur))];
    forall i | 0 <= i < |r| && Started(r[i]) && i != init ensures HasLiveParent(r, i) {
      assert HasLiveParent(t, i);
    }
    forall i | 0 <= i < |r| && r[i].state == EMBRYO ensures Embryo(r, forking, i) {
      assert Embryo(t, forking, i);
    }
    forall i, z | 0 <= i < |r| && 0 <= z < |r| && InWait(r, i) ensures !(r[z].state == ZOMBIE && r[z].parent == i) {
      if i != cur { assert InWait(t, i); }
    }
  }
}
