/** The ticket lock: any number of threads, each step one shared access. */
module TicketLock {
  import opened Words

  /** A thread's place in acquire_t, its critical section and release_t.  `no` is the
      ticket as a count, of which `mine` is the word. */
  datatype Pc =
    | Out                       // not using the lock
    | AcqProc                   // holding_t in acquire_t: reads lk->proc
    | AcqTicket                 //   lk->proc was this thread: reads lk->ticket
    | AcqTurn(seen: int)        //   reads lk->turn
    | Draw                      // fetch_and_add
    | Spin(mine: int, ghost no: nat)  // while (lk->turn != currticket)
    | SetProc                   // lk->proc = myproc()
    | Critical
    | RelProc                   // holding_t in release_t: reads lk->proc
    | RelTicket
    | RelTurn(seen: int)
    | Clear                     // lk->proc = 0
    | Advance                   // ++lk->turn

  /** `ticket` and `turn` are words; `draws` and `entries` record who drew tickets and
      who left the spin loop, in order. */
  datatype State = State(ticket: int, turn: int, proc: int, pcs: seq<Pc>,
                         ghost draws: seq<int>, ghost entries: seq<int>)

  datatype Config = Live(s: State) | Panicked(message: string)

  const NOBODY := -1

  ghost function Go(s: State, i: nat, pc: Pc): State
    requires i < |s.pcs|
  {
    s.(pcs := s.pcs[i := pc])
  }

  /** Thread `i` makes one shared access. */
  ghost function Step(word: nat, s: State, i: nat): Config
    requires word > 0 && i < |s.pcs|
  {
    match s.pcs[i]
    case Out => Live(Go(s, i, AcqProc))
    case AcqProc => Live(Go(s, i, if s.proc == i then AcqTicket else Draw))
    case AcqTicket => Live(Go(s, i, AcqTurn(s.ticket)))
    case AcqTurn(v) => if v != s.turn then Panicked("lock already acquired1") else Live(Go(s, i, Draw))
    case Draw =>
      Live(Go(s, i, Spin(s.ticket, |s.draws|)).(ticket := (s.ticket + 1) % word, draws := s.draws + [i]))
    case Spin(v, _) =>
      if s.turn != v then Live(s) else Live(Go(s, i, SetProc).(entries := s.entries + [i]))
    case SetProc => Live(Go(s, i, Critical).(proc := i))
    case Critical => Live(Go(s, i, RelProc))
    case RelProc => if s.proc == i then Live(Go(s, i, RelTicket)) else Panicked("lock already acquired2")
    case RelTicket => Live(Go(s, i, RelTurn(s.ticket)))
    case RelTurn(v) => if v != s.turn then Live(Go(s, i, Clear)) else Panicked("lock already acquired2")
    case Clear => Live(Go(s, i, Advance).(proc := NOBODY))
    case Advance => Live(Go(s, i, Out).(turn := (s.turn + 1) % word))
  }

  ghost predicate Init(s: State) {
    && s.ticket == 0 && s.turn == 0 && s.proc == NOBODY
    && (forall i :: 0 <= i < |s.pcs| ==> s.pcs[i] == Out)
    && s.draws == [] && s.entries == []
  }

  /** Thread `who[k]` makes the `k`-th access; `cs` are the configurations. */
  ghost predicate Run(word: nat, who: seq<nat>, cs: seq<Config>)
    requires word > 0
  {
    && |cs| == |who| + 1 && cs[0].Live? && Init(cs[0].s)
    && forall k :: 0 <= k < |who| ==> Steps(word, cs[k], who[k], cs[k + 1])
  }

  ghost predicate Steps(word: nat, c: Config, i: nat, d: Config)
    requires word > 0
  {
    c.Live? && i < |c.s.pcs| && d == Step(word, c.s, i)
  }

  // ----- the invariant -----

  /** Past the spin loop and not yet past the turn increment. */
  predicate Holds(pc: Pc) {
    pc.SetProc? || Named(pc) || pc.Advance?
  }

  /** Between setting and clearing lk->proc. */
  predicate Named(pc: Pc) {
    pc.Critical? || pc.RelProc? || pc.RelTicket? || pc.RelTurn? || pc.Clear?
  }

  /** `u` turns are over.  The last entry holds the lock, or no one does. */
  ghost predicate Turns(s: State, u: nat) {
    && u <= |s.entries| <= u + 1
    && (forall i :: 0 <= i < |s.pcs| ==> (Holds(s.pcs[i]) <==> |s.entries| == u + 1 && s.entries[u] == i))
    && (|s.entries| == u + 1 ==> 0 <= s.entries[u] < |s.pcs|)
  }

  /** The tickets drawn and not yet entered belong to the spinning threads, one each;
      entries so far are the draws in order. */
  ghost predicate Tickets(word: nat, s: State)
    requires word > 0
  {
    && s.entries <= s.draws
    && (forall k :: |s.entries| <= k < |s.draws| ==> WaitsWith(word, s, k))
    && (forall i :: 0 <= i < |s.pcs| && s.pcs[i].Spin? ==>
          |s.entries| <= s.pcs[i].no < |s.draws| && s.draws[s.pcs[i].no] == i)
  }

  ghost predicate WaitsWith(word: nat, s: State, k: nat)
    requires word > 0 && k < |s.draws|
  {
    0 <= s.draws[k] < |s.pcs| && s.pcs[s.draws[k]] == Spin(k % word, k)
  }

  ghost predicate Owner(s: State) {
    && (s.proc == NOBODY || 0 <= s.proc < |s.pcs|)
    && (forall i :: 0 <= i < |s.pcs| ==> (Named(s.pcs[i]) <==> s.proc == i))
  }

  ghost predicate Reads(s: State) {
    forall i :: 0 <= i < |s.pcs| ==>
      !s.pcs[i].AcqTicket? && !s.pcs[i].AcqTurn? && (s.pcs[i].RelTurn? ==> s.pcs[i].seen != s.turn)
  }

  ghost predicate InvAt(word: nat, s: State, u: nat)
    requires word > 0
  {
    && |s.pcs| < word && Turns(s, u) && Tickets(word, s) && Owner(s) && Reads(s)
    && s.ticket == |s.draws| % word && s.turn == u % word
  }

  ghost predicate Inv(word: nat, s: State)
    requires word > 0
  {
    exists u: nat :: InvAt(word, s, u)
  }

  // ----- every step keeps it -----

  /** Outstanding tickets, the holder's included, are fewer than the word can count. */
  lemma FewOutstanding(word: nat, s: State, u: nat)
    requires word > 0 && InvAt(word, s, u)
    ensures u <= |s.draws| < u + word
  {
    var xs := s.draws[u..];
    forall k | 0 <= k < |xs| ensures 0 <= xs[k] < |s.pcs| {
      if u + k >= |s.entries| { assert WaitsWith(word, s, u + k); }
    }
    forall j, k | 0 <= j < k < |xs| ensures xs[j] != xs[k] {
      assert WaitsWith(word, s, u + k);
      if u + j >= |s.entries| { assert WaitsWith(word, s, u + j); }
    }
    DistinctFew(xs, |s.pcs|);
  }

  /** A spinning thread sees its turn exactly when its ticket is the next one. */
  lemma SpinEnds(word: nat, s: State, u: nat, i: nat)
    requires word > 0 && InvAt(word, s, u) && i < |s.pcs| && s.pcs[i].Spin?
    ensures s.turn == s.pcs[i].mine <==> s.pcs[i].no == u
    ensures s.pcs[i].mine == s.pcs[i].no % word
  {
    var k := s.pcs[i].no;
    assert WaitsWith(word, s, k);
    FewOutstanding(word, s, u);
    if s.turn == s.pcs[i].mine { SameWord(k, u, word); }
  }

  /** A step that moves thread `i` between two places of the same kind. */
  lemma MoveKeeps(word: nat, s: State, u: nat, i: nat, pc: Pc)
    requires word > 0 && InvAt(word, s, u) && i < |s.pcs|
    requires !s.pcs[i].Spin? && !pc.Spin? && !pc.AcqTicket? && !pc.AcqTurn?
    requires Holds(pc) == Holds(s.pcs[i]) && Named(pc) == Named(s.pcs[i])
    requires pc.RelTurn? ==> pc.seen != s.turn
    ensures InvAt(word, Go(s, i, pc), u)
  {
    KeepWaiting(word, s, Go(s, i, pc), i);
  }

  /** Threads other than `i` keep their tickets. */
  lemma KeepWaiting(word: nat, s: State, t: State, i: nat)
    requires word > 0 && Tickets(word, s) && i < |s.pcs| == |t.pcs|
    requires s.draws <= t.draws
    requires forall j :: 0 <= j < |s.pcs| && j != i ==> t.pcs[j] == s.pcs[j]
    ensures forall k :: |s.entries| <= k < |s.draws| && s.draws[k] != i ==> WaitsWith(word, t, k)
    ensures !s.pcs[i].Spin? ==> forall k :: |s.entries| <= k < |s.draws| ==> s.draws[k] != i
  {
    forall k | |s.entries| <= k < |s.draws| ensures s.draws[k] != i ==> WaitsWith(word, t, k) {
      assert WaitsWith(word, s, k);
    }
    if !s.pcs[i].Spin? {
      forall k | |s.entries| <= k < |s.draws| ensures s.draws[k] != i { assert WaitsWith(word, s, k); }
    }
  }

  lemma DrawKeeps(word: nat, s: State, u: nat, i: nat)
    requires word > 0 && InvAt(word, s, u) && i < |s.pcs| && s.pcs[i].Draw?
    ensures InvAt(word, Step(word, s, i).s, u)
  {
    var t := Step(word, s, i).s;
    Increment(|s.draws|, word);
    KeepWaiting(word, s, t, i);
    assert WaitsWith(word, t, |s.draws|);
    assert Tickets(word, t);
  }

  lemma EnterKeeps(word: nat, s: State, u: nat, i: nat)
    requires word > 0 && InvAt(word, s, u) && i < |s.pcs| && s.pcs[i].Spin? && s.turn == s.pcs[i].mine
    ensures InvAt(word, Step(word, s, i).s, u)
  {
    SpinEnds(word, s, u, i);
    var t := Step(word, s, i).s;
    KeepWaiting(word, s, t, i);
    assert |s.entries| == u && s.draws[u] == i;
    forall k | u + 1 <= k < |s.draws| ensures s.draws[k] != i { assert WaitsWith(word, s, k); }
    assert Tickets(word, t);
  }

  /** Setting or clearing the owner's name. */
  lemma NameKeeps(word: nat, s: State, u: nat, i: nat)
    requires word > 0 && InvAt(word, s, u) && i < |s.pcs| && (s.pcs[i].SetProc? || s.pcs[i].Clear?)
    ensures InvAt(word, Step(word, s, i).s, u)
  {
    var t := Step(word, s, i).s;
    KeepWaiting(word, s, t, i);
    assert Tickets(word, t);
  }

  lemma AdvanceKeeps(word: nat, s: State, u: nat, i: nat)
    requires word > 0 && InvAt(word, s, u) && i < |s.pcs| && s.pcs[i].Advance?
    ensures InvAt(word, Step(word, s, i).s, u + 1)
  {
    var t := Step(word, s, i).s;
    Increment(u, word);
    KeepWaiting(word, s, t, i);
    assert Tickets(word, t);
  }

  /** The holder reads a ticket word that differs from the turn word. */
  lemma HolderSeesTicket(word: nat, s: State, u: nat, i: nat)
    requires word > 0 && InvAt(word, s, u) && i < |s.pcs| && Holds(s.pcs[i])
    ensures s.ticket != s.turn
  {
    FewOutstanding(word, s, u);
    if s.ticket == s.turn {
      SameWord(|s.draws|, u, word);
    }
  }

  lemma StepKeeps(word: nat, s: State, i: nat)
    requires word > 0 && Inv(word, s) && i < |s.pcs|
    ensures Step(word, s, i).Live? && Inv(word, Step(word, s, i).s)
  {
    var u: nat :| InvAt(word, s, u);
    match s.pcs[i]
    case Out => MoveKeeps(word, s, u, i, AcqProc);
    case AcqProc => MoveKeeps(word, s, u, i, Draw);
    case Draw => DrawKeeps(word, s, u, i);
    case Spin(v, _) => if s.turn == v { EnterKeeps(word, s, u, i); }
    case SetProc => NameKeeps(word, s, u, i);
    case Critical => MoveKeeps(word, s, u, i, RelProc);
    case RelProc => MoveKeeps(word, s, u, i, RelTicket);
    case RelTicket =>
      HolderSeesTicket(word, s, u, i);
      MoveKeeps(word, s, u, i, RelTurn(s.ticket));
    case RelTurn(v) => MoveKeeps(word, s, u, i, Clear);
    case Clear => NameKeeps(word, s, u, i);
    case Advance => AdvanceKeeps(word, s, u, i);
    case AcqTicket =>
    case AcqTurn(v) =>
  }

  lemma {:induction false} RunKeeps(word: nat, who: seq<nat>, cs: seq<Config>, k: nat)
    requires word > 0 && Run(word, who, cs) && |cs[0].s.pcs| < word && k < |cs|
    ensures cs[k].Live? && Inv(word, cs[k].s)
  {
    if k == 0 {
      assert InvAt(word, cs[0].s, 0);
    } else {
      RunKeeps(word, who, cs, k - 1);
      assert Steps(word, cs[k-1], who[k-1], cs[k-1+1]);
      StepKeeps(word, cs[k-1].s, who[k-1]);
    }
  }

  // ----- what users of the lock get -----

  /** In every run of fewer threads than the word counts: no panic, at most one
      thread between acquire_t and release_t, and entries follow ticket order. */
  lemma MutualExclusion(word: nat, who: seq<nat>, cs: seq<Config>, k: nat)
    requires word > 0 && Run(word, who, cs) && |cs[0].s.pcs| < word && k < |cs|
    ensures cs[k].Live?
    ensures var s := cs[k].s;
            && s.entries <= s.draws
            && forall i, j :: 0 <= i < |s.pcs| && 0 <= j < |s.pcs| && Holds(s.pcs[i]) && Holds(s.pcs[j]) ==> i == j
  {
    RunKeeps(word, who, cs, k);
  }

  /** Draws and entries are only ever extended. */
  lemma {:induction false} HistoryGrows(word: nat, who: seq<nat>, cs: seq<Config>, j: nat, k: nat)
    requires word > 0 && Run(word, who, cs) && |cs[0].s.pcs| < word && j <= k < |cs|
    ensures cs[j].Live? && cs[k].Live?
    ensures cs[j].s.draws <= cs[k].s.draws && cs[j].s.entries <= cs[k].s.entries
  {
    RunKeeps(word, who, cs, k);
    if j < k {
      HistoryGrows(word, who, cs, j, k - 1);
      assert Steps(word, cs[k-1], who[k-1], cs[k-1+1]);
    }
  }

  /** Thread `who[j]` draws in step `j` and enters in step `k` with that ticket: the
      threads that enter in between are exactly those that had drawn before it and
      not entered, in that order. */
  lemma Overtaking(word: nat, who: seq<nat>, cs: seq<Config>, j: nat, k: nat)
    requires word > 0 && Run(word, who, cs) && |cs[0].s.pcs| < word && j < k < |who|
    requires cs[j].Live? && who[j] < |cs[j].s.pcs| && cs[j].s.pcs[who[j]].Draw?
    requires cs[k].Live? && who[k] == who[j] && who[k] < |cs[k].s.pcs|
    requires cs[k].s.pcs[who[k]].Spin? && cs[k].s.pcs[who[k]].no == |cs[j].s.draws|
    requires cs[k].s.turn == cs[k].s.pcs[who[k]].mine
    ensures cs[j].s.entries <= cs[k].s.entries
    ensures cs[k].s.entries == cs[j].s.draws
    ensures cs[k].s.entries == cs[j].s.entries + cs[j].s.draws[|cs[j].s.entries|..]
  {
    HistoryGrows(word, who, cs, j, k);
    RunKeeps(word, who, cs, j);
    RunKeeps(word, who, cs, k);
    var u: nat :| InvAt(word, cs[k].s, u);
    SpinEnds(word, cs[k].s, u, who[k]);
    assert cs[k].s.entries == cs[k].s.draws[..|cs[j].s.draws|];
  }
}
