/** Whole lives of a logged disk: commits, crashes inside commits, recoveries and
    crashes inside recoveries, in any order and any number. */
module LogRuns {
  import opened RedoLog

  datatype State = Up(disk: Disk) | Down(disk: Disk)

  datatype Event =
    | Commit(bs: seq<int>, vals: seq<Block>)
    | CrashInCommit(bs: seq<int>, vals: seq<Block>, writes: nat)
    | CrashInRecovery(writes: nat)
    | Recover

  ghost predicate Step(l: Layout, s: State, e: Event, t: State) {
    && Sound(l, s.disk)
    && match e
       case Commit(bs, vals) =>
         && s.Up? && Txn(l, s.disk, bs, vals)
         && t == Up(CommitAt(l, s.disk, bs, vals, CommitLength(|bs|)))
       case CrashInCommit(bs, vals, k) =>
         && s.Up? && Txn(l, s.disk, bs, vals) && k <= CommitLength(|bs|)
         && t == Down(CommitAt(l, s.disk, bs, vals, k))
       case CrashInRecovery(k) =>
         && s.Down? && k <= RecoverLength(l, s.disk)
         && t == Down(RecoverAt(l, s.disk, k))
       case Recover =>
         && s.Down? && t == Up(RecoverAt(l, s.disk, RecoverLength(l, s.disk)))
  }

  /** `ss` are the states before, between and after the events `es`. */
  ghost predicate Run(l: Layout, es: seq<Event>, ss: seq<State>) {
    && |ss| == |es| + 1
    && forall i :: 0 <= i < |es| ==> Step(l, ss[i], es[i], ss[i + 1])
  }

  /** The meaning of the events: a completed commit takes effect, one cut short
      takes effect as a whole or not at all, and nothing else changes anything. */
  ghost predicate Means(v: map<int, Block>, e: Event, v': map<int, Block>) {
    match e
    case Commit(bs, vals) => |bs| == |vals| && v' == Apply(v, bs, vals)
    case CrashInCommit(bs, vals, _) => |bs| == |vals| && (v' == v || v' == Apply(v, bs, vals))
    case CrashInRecovery(_) => v' == v
    case Recover => v' == v
  }

  ghost predicate Meaning(es: seq<Event>, vs: seq<map<int, Block>>) {
    && |vs| == |es| + 1
    && forall i :: 0 <= i < |es| ==> Means(vs[i], es[i], vs[i + 1])
  }

  /** A machine that is up has nothing left to install. */
  ghost predicate Settled(l: Layout, s: State) {
    Sound(l, s.disk) && (s.Up? ==> Clean(l, s.disk))
  }

  lemma StepMeans(l: Layout, s: State, e: Event, t: State)
    requires Settled(l, s) && Step(l, s, e, t)
    ensures Settled(l, t) && Means(View(l, s.disk), e, View(l, t.disk))
  {
    match e
    case Commit(bs, vals) =>
      CommitAtomic(l, s.disk, bs, vals, CommitLength(|bs|));
    case CrashInCommit(bs, vals, k) => CommitAtomic(l, s.disk, bs, vals, k);
    case CrashInRecovery(k) => RecoverAtomic(l, s.disk, k);
    case Recover => RecoverAtomic(l, s.disk, RecoverLength(l, s.disk));
  }

  ghost function Views(l: Layout, ss: seq<State>): seq<map<int, Block>>
    requires forall i :: 0 <= i < |ss| ==> Sound(l, ss[i].disk)
  {
    seq(|ss|, i requires 0 <= i < |ss| => View(l, ss[i].disk))
  }

  lemma {:induction false} RunSettled(l: Layout, es: seq<Event>, ss: seq<State>, i: nat)
    requires Run(l, es, ss) && Settled(l, ss[0]) && i < |ss|
    ensures Settled(l, ss[i])
  {
    if i > 0 {
      RunSettled(l, es, ss, i - 1);
      StepMeans(l, ss[i-1], es[i-1], ss[i]);
    }
  }

  /** Every life of the disk has the meaning of its events; whenever the machine
      is up, the home blocks themselves hold that meaning. */
  lemma RunMeaning(l: Layout, es: seq<Event>, ss: seq<State>)
    requires Run(l, es, ss) && Settled(l, ss[0])
    ensures forall i :: 0 <= i < |ss| ==> Sound(l, ss[i].disk)
    ensures Meaning(es, Views(l, ss))
    ensures forall i :: 0 <= i < |ss| && ss[i].Up? ==> HomeBlocks(l, ss[i].disk) == Views(l, ss)[i]
  {
    forall i | 0 <= i < |ss| ensures Settled(l, ss[i]) {
      RunSettled(l, es, ss, i);
    }
    forall i | 0 <= i < |es| ensures Means(View(l, ss[i].disk), es[i], View(l, ss[i+1].disk)) {
      StepMeans(l, ss[i], es[i], ss[i+1]);
    }
    forall i | 0 <= i < |ss| && ss[i].Up? ensures HomeBlocks(l, ss[i].disk) == View(l, ss[i].disk) {
      CleanView(l, ss[i].disk);
    }
  }

  /** One commit cut short, any number of recoveries cut short, one recovery that
      finishes: the home blocks are all as before the transaction or all as after. */
  lemma CrashAtomicity(l: Layout, es: seq<Event>, ss: seq<State>)
    requires Run(l, es, ss) && Settled(l, ss[0]) && ss[0].Up?
    requires |es| >= 2 && es[0].CrashInCommit? && es[|es|-1].Recover?
    requires forall i :: 0 < i < |es| - 1 ==> es[i].CrashInRecovery?
    ensures Sound(l, ss[|es|].disk) && |es[0].bs| == |es[0].vals|
    ensures var before, after := HomeBlocks(l, ss[0].disk), HomeBlocks(l, ss[|es|].disk);
            after == if es[0].writes <= |es[0].bs| then before else Apply(before, es[0].bs, es[0].vals)
  {
    RunMeaning(l, es, ss);
    assert Step(l, ss[0], es[0], ss[0 + 1]);
    CommitAtomic(l, ss[0].disk, es[0].bs, es[0].vals, es[0].writes);
    var vs := Views(l, ss);
    QuietAfterCrash(es, vs, |es|);
    CleanView(l, ss[0].disk);
  }

  lemma {:induction false} QuietAfterCrash(es: seq<Event>, vs: seq<map<int, Block>>, i: nat)
    requires Meaning(es, vs) && 1 <= i <= |es|
    requires forall j :: 0 < j < |es| ==> es[j].CrashInRecovery? || es[j].Recover?
    ensures vs[i] == vs[1]
  {
    if i > 1 {
      QuietAfterCrash(es, vs, i - 1);
      assert Means(vs[i-1], es[i-1], vs[i]);
    }
  }
}
