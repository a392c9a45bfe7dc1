/** begin_op, log_write and end_op run by any number of processes at once. */
module LogOps {
  import opened Numbers

  /** `room` is the header's array length, `size` the log area with its header, and
      `perOp` the blocks one operation may log.  `strict` tells whether an operation
      that has logged that many calls log_write no more, or may log those again. */
  datatype Params = Params(room: nat, size: nat, perOp: nat, strict: bool)

  /** A log_write under way, and how many of its tests, made without the lock, it has
      passed. */
  datatype Call = NoCall | Call(b: int, tests: nat)

  /** An open operation: the blocks it has logged. */
  datatype Op = Op(logged: set<int>, call: Call)

  const TESTS := 3

  datatype State = State(
    blocks: set<int>,      // lh.block[..lh.n]
    ops: seq<Op>,          // outstanding is its length
    committing: bool,
    asleep: nat)           // processes asleep in begin_op
  | Panicked(message: string)

  const TOO_BIG := "too big a transaction"
  const OUTSIDE := "log_write outside of trans"
  const COMMITTING := "log.committing"

  /** begin_op waits on this condition. */
  predicate MustWait(c: Params, s: State)
    requires s.State?
  {
    s.committing || |s.blocks| + (|s.ops| + 1) * c.perOp > c.room
  }

  datatype Event =
    | Begin | Sleep
    | Enter(i: nat, b: int) | Test(i: nat) | Append(i: nat)
    | End(i: nat)
    | Clear | Finish       // commit empties the header, then lowers the flag

  function Without(ops: seq<Op>, i: nat): seq<Op>
    requires i < |ops|
  {
    ops[..i] + ops[i+1..]
  }

  /** The tests of log_write, each a read of its own: the list against the header, the
      list against the log area, and whether an operation is open. */
  predicate Fails(c: Params, s: State, test: nat)
    requires s.State? && test < TESTS
  {
    match test
    case 0 => |s.blocks| >= c.room
    case 1 => |s.blocks| + 1 >= c.size
    case 2 => |s.ops| < 1
  }

  /** Operation `o` keeps to its limit, in blocks, by logging `b`. */
  predicate Allowed(c: Params, o: Op, b: int) {
    if c.strict then |o.logged| < c.perOp else |o.logged + {b}| <= c.perOp
  }

  function SetCall(s: State, i: nat, call: Call): State
    requires s.State? && i < |s.ops|
  {
    s.(ops := s.ops[i := s.ops[i].(call := call)])
  }

  function Passed(s: State, i: nat): State
    requires s.State? && i < |s.ops| && s.ops[i].call.Call?
  {
    SetCall(s, i, s.ops[i].call.(tests := s.ops[i].call.tests + 1))
  }

  /** The block is in the list, unless it was before. */
  function Appended(s: State, i: nat): State
    requires s.State? && i < |s.ops| && s.ops[i].call.Call?
  {
    var b := s.ops[i].call.b;
    s.(ops := s.ops[i := Op(s.ops[i].logged + {b}, NoCall)], blocks := s.blocks + {b})
  }

  ghost predicate Step(c: Params, s: State, e: Event, t: State) {
    && s.State?
    && match e
       case Begin => !MustWait(c, s) && t == s.(ops := s.ops + [Op({}, NoCall)])
       case Sleep => MustWait(c, s) && t == s.(asleep := s.asleep + 1)
       case Enter(i, b) =>
         && i < |s.ops| && s.ops[i].call.NoCall? && Allowed(c, s.ops[i], b)
         && t == SetCall(s, i, Call(b, 0))
       case Test(i) =>
         && i < |s.ops| && s.ops[i].call.Call? && s.ops[i].call.tests < TESTS
         && t == (var test := s.ops[i].call.tests;
                  if Fails(c, s, test) then Panicked(if test < 2 then TOO_BIG else OUTSIDE) else Passed(s, i))
       case Append(i) =>
         i < |s.ops| && s.ops[i].call.Call? && s.ops[i].call.tests == TESTS && t == Appended(s, i)
       case End(i) =>
         && i < |s.ops| && s.ops[i].call.NoCall?
         && t == (if s.committing then Panicked(COMMITTING)
                  else if |s.ops| == 1 then s.(ops := [], committing := true)
                  else s.(ops := Without(s.ops, i), asleep := 0))
       case Clear => s.committing && t == s.(blocks := {})
       case Finish => s.committing && s.blocks == {} && t == s.(committing := false, asleep := 0)
  }

  ghost predicate Init(s: State) { s == State({}, [], false, 0) }

  ghost predicate Run(c: Params, es: seq<Event>, ss: seq<State>) {
    && |ss| == |es| + 1 && Init(ss[0])
    && forall i :: 0 <= i < |es| ==> Step(c, ss[i], es[i], ss[i + 1])
  }

  ghost predicate Reachable(c: Params, s: State) {
    exists es, ss :: Run(c, es, ss) && ss[|ss|-1] == s
  }

  /** Blocks the open operations may still log. */
  function Credits(c: Params, ops: seq<Op>): int {
    if ops == [] then 0 else Credits(c, ops[..|ops|-1]) + c.perOp - |ops[|ops|-1].logged|
  }

  /** What an operation has logged is in the list, and what it is logging is within its
      limit. */
  predicate OpOk(c: Params, o: Op, blocks: set<int>) {
    && o.logged <= blocks && |o.logged| <= c.perOp
    && (o.call.Call? ==> o.call.tests <= TESTS && Allowed(c, o, o.call.b))
  }

  ghost predicate Inv(c: Params, s: State) {
    && s.State?
    && (forall i :: 0 <= i < |s.ops| ==> OpOk(c, s.ops[i], s.blocks))
    && |s.blocks| + Credits(c, s.ops) <= c.room
    && (s.committing ==> s.ops == [])
    && (s.asleep > 0 ==> MustWait(c, s))
  }

  lemma {:induction false} CreditsSplit(c: Params, xs: seq<Op>, ys: seq<Op>)
    ensures Credits(c, xs + ys) == Credits(c, xs) + Credits(c, ys)
  {
    if ys == [] { assert xs + ys == xs; } else {
      assert (xs + ys)[..|xs + ys|-1] == xs + ys[..|ys|-1];
      CreditsSplit(c, xs, ys[..|ys|-1]);
    }
  }

  lemma CreditsAt(c: Params, ops: seq<Op>, i: nat, o: Op)
    requires i < |ops|
    ensures Credits(c, ops[i := o]) == Credits(c, ops) + |ops[i].logged| - |o.logged|
    ensures Credits(c, Without(ops, i)) == Credits(c, ops) - c.perOp + |ops[i].logged|
  {
    assert ops == ops[..i] + ([ops[i]] + ops[i+1..]);
    assert ops[i := o] == ops[..i] + ([o] + ops[i+1..]);
    CreditsSplit(c, ops[..i], [ops[i]] + ops[i+1..]);
    CreditsSplit(c, [ops[i]], ops[i+1..]);
    CreditsSplit(c, ops[..i], [o] + ops[i+1..]);
    CreditsSplit(c, [o], ops[i+1..]);
    CreditsSplit(c, ops[..i], ops[i+1..]);
    assert [o][..0] == [] == [ops[i]][..0];
  }

  lemma {:induction false} CreditsBound(c: Params, ops: seq<Op>)
    requires forall i :: 0 <= i < |ops| ==> |ops[i].logged| <= c.perOp
    ensures 0 <= Credits(c, ops) <= |ops| * c.perOp
  {
    if ops != [] { CreditsBound(c, ops[..|ops|-1]); }
  }

  lemma BeginKeeps(c: Params, s: State)
    requires Inv(c, s) && !MustWait(c, s)
    ensures Inv(c, s.(ops := s.ops + [Op({}, NoCall)]))
  {
    CreditsBound(c, s.ops);
    var ops := s.ops + [Op({}, NoCall)];
    assert ops[..|s.ops|] == s.ops;
    assert (|s.ops| + 1) * c.perOp == |s.ops| * c.perOp + c.perOp;
  }

  lemma EnterKeeps(c: Params, s: State, i: nat, b: int)
    requires Inv(c, s) && i < |s.ops| && s.ops[i].call.NoCall? && Allowed(c, s.ops[i], b)
    ensures Inv(c, SetCall(s, i, Call(b, 0)))
  {
    CreditsAt(c, s.ops, i, s.ops[i].(call := Call(b, 0)));
  }

  /** An operation is open at the last test.  For a strict operation the list is not
      full, so only the second test can fail, and only if the log area is too small. */
  lemma TestKeeps(c: Params, s: State, i: nat)
    requires Inv(c, s) && i < |s.ops| && s.ops[i].call.Call? && s.ops[i].call.tests < TESTS
    ensures |s.blocks| <= c.room && (c.strict ==> |s.blocks| < c.room)
    ensures Fails(c, s, s.ops[i].call.tests) ==> s.ops[i].call.tests < 2 && (!c.strict || c.size < c.room + 1)
    ensures Inv(c, Passed(s, i))
  {
    CreditsAt(c, s.ops, i, Passed(s, i).ops[i]);
    CreditsBound(c, s.ops);
    CreditsBound(c, Without(s.ops, i));
  }

  lemma AppendKeeps(c: Params, s: State, i: nat)
    requires Inv(c, s) && i < |s.ops| && s.ops[i].call.Call? && s.ops[i].call.tests == TESTS
    ensures Inv(c, Appended(s, i))
  {
    var o, b := s.ops[i], s.ops[i].call.b;
    CreditsAt(c, s.ops, i, Op(o.logged + {b}, NoCall));
    if b in o.logged { assert o.logged + {b} == o.logged; }
    if b in s.blocks { assert s.blocks + {b} == s.blocks; }
  }

  lemma EndKeeps(c: Params, s: State, i: nat)
    requires Inv(c, s) && i < |s.ops|
    ensures !s.committing
    ensures |s.ops| == 1 ==> Inv(c, s.(ops := [], committing := true))
    ensures Inv(c, s.(ops := Without(s.ops, i), asleep := 0))
  {
    CreditsAt(c, s.ops, i, s.ops[i]);
    CreditsBound(c, Without(s.ops, i));
    assert |s.ops| == 1 ==> Without(s.ops, i) == [];
  }

  /** The reservation holds, or log_write has panicked because operations log again at
      their limit or the log area is too small. */
  ghost predicate Safe(c: Params, s: State) {
    if s.State? then Inv(c, s) else s.message == TOO_BIG && (!c.strict || c.size < c.room + 1)
  }

  /** Each step keeps the reservation, whatever the sizes; the only panic is "too big a
      transaction". */
  lemma StepKeeps(c: Params, s: State, e: Event, t: State)
    requires Inv(c, s) && Step(c, s, e, t)
    ensures Safe(c, t)
  {
    match e
    case Begin => BeginKeeps(c, s);
    case Sleep =>
    case Enter(i, b) => EnterKeeps(c, s, i, b);
    case Test(i) => TestKeeps(c, s, i);
    case Append(i) => AppendKeeps(c, s, i);
    case End(i) => EndKeeps(c, s, i);
    case Clear =>
    case Finish =>
  }

  lemma {:induction false} RunKeeps(c: Params, es: seq<Event>, ss: seq<State>, i: nat)
    requires Run(c, es, ss) && i < |ss|
    ensures Safe(c, ss[i])
  {
    if i > 0 {
      RunKeeps(c, es, ss, i - 1);
      assert Step(c, ss[i-1], es[i-1], ss[i-1+1]);
      StepKeeps(c, ss[i-1], es[i-1], ss[i]);
    }
  }

  /** In every interleaving, on a log area of any size: logged blocks and unused
      credits fit the header, commit runs with no open operation, whoever sleeps in
      begin_op still has to, and neither "log.committing" nor "log_write outside of
      trans" is reached. */
  lemma Reservation(c: Params, s: State)
    requires Reachable(c, s)
    ensures Safe(c, s)
  {
    var es, ss :| Run(c, es, ss) && ss[|ss|-1] == s;
    RunKeeps(c, es, ss, |ss| - 1);
  }

  // ----- runs that panic -----

  /** `k` operations have begun and `m` distinct blocks have been logged, by the
      operations in order. */
  function Busy(c: Params, k: nat, m: nat): State
    requires c.perOp > 0
  {
    State(Interval(0, m), seq(k, i requires i >= 0 => Op(Interval(i * c.perOp, Share(c, m, i)), NoCall)), false, 0)
  }

  function Share(c: Params, m: nat, i: nat): nat
    requires c.perOp > 0
  {
    if m <= i * c.perOp then 0 else if m >= (i + 1) * c.perOp then c.perOp else m - i * c.perOp
  }

  lemma Extend(c: Params, s: State, e: Event, t: State)
    requires Reachable(c, s) && Step(c, s, e, t)
    ensures Reachable(c, t)
  {
    var es, ss :| Run(c, es, ss) && ss[|ss|-1] == s;
    var es', ss' := es + [e], ss + [t];
    forall i | 0 <= i < |es'| ensures Step(c, ss'[i], es'[i], ss'[i + 1]) {
      if i < |es| { assert Step(c, ss[i], es[i], ss[i + 1]); }
    }
    assert Run(c, es', ss') && ss'[|ss'|-1] == t;
  }

  /** `k` operations have begun and nothing has been logged. */
  function Started(k: nat): State { State({}, seq(k, _ => Op({}, NoCall)), false, 0) }

  lemma BusyStart(c: Params, k: nat)
    requires c.perOp > 0
    ensures Busy(c, k, 0) == Started(k)
  {
    forall j | 0 <= j < k ensures Busy(c, k, 0).ops[j] == Started(k).ops[j] { }
    assert Busy(c, k, 0).ops == Started(k).ops;
  }

  lemma {:induction false} BeginAll(c: Params, k: nat)
    requires c.perOp > 0 && k * c.perOp <= c.room
    ensures Reachable(c, Started(k))
  {
    if k == 0 {
      assert Run(c, [], [Started(0)]);
      assert [Started(0)][0] == Started(0);
    } else {
      Times(k - 1, k, c.perOp);
      BeginAll(c, k - 1);
      assert Started(k).ops == Started(k - 1).ops + [Op({}, NoCall)];
      assert |Started(k - 1).ops| + 1 == k;
      Extend(c, Started(k - 1), Begin, Started(k));
    }
  }

  /** Operation `i` is the one that logs block `m`. */
  ghost predicate Writer(c: Params, m: nat, i: nat) { i * c.perOp <= m < (i + 1) * c.perOp }

  lemma Times(a: nat, b: nat, p: nat)
    requires a <= b
    ensures a * p <= b * p
  {
  }

  lemma ShareNext(c: Params, m: nat, i: nat, j: nat)
    requires c.perOp > 0 && Writer(c, m, i)
    ensures Share(c, m + 1, j) == if j == i then Share(c, m, j) + 1 else Share(c, m, j)
    ensures Share(c, m, i) < c.perOp
  {
    if j < i { Times(j + 1, i, c.perOp); } else if j > i { Times(i + 1, j, c.perOp); }
  }

  lemma {:induction false} WriteMany(c: Params, k: nat, m: nat)
    requires c.perOp > 0 && c.room == k * c.perOp && m <= c.room && m + 1 <= c.size
    ensures Reachable(c, Busy(c, k, m))
  {
    if m == 0 {
      BeginAll(c, k);
      BusyStart(c, k);
    } else {
      WriteMany(c, k, m - 1);
      WriteOne(c, k, m - 1);
    }
  }

  lemma WriteOne(c: Params, k: nat, m: nat)
    requires c.perOp > 0 && c.room == k * c.perOp && m < c.room && m + 2 <= c.size
    requires Reachable(c, Busy(c, k, m))
    ensures Reachable(c, Busy(c, k, m + 1))
  {
    var i := WriterExists(c, k, m);
    var u := EnterNext(c, k, m, i);
    IntervalSize(0, m);
    var v := Passed(Passed(u, i), i);
    Extend(c, u, Test(i), Passed(u, i));
    Extend(c, Passed(u, i), Test(i), v);
    Extend(c, v, Test(i), Passed(v, i));
    BusyNext(c, k, m, i);
    Extend(c, Passed(v, i), Append(i), Busy(c, k, m + 1));
  }

  /** Operation `i` starts to log block `m`. */
  lemma EnterNext(c: Params, k: nat, m: nat, i: nat) returns (u: State)
    requires c.perOp > 0 && i < k && Writer(c, m, i) && Reachable(c, Busy(c, k, m))
    ensures u == SetCall(Busy(c, k, m), i, Call(m, 0)) && Reachable(c, u)
  {
    var s := Busy(c, k, m);
    u := SetCall(s, i, Call(m, 0));
    ShareNext(c, m, i, i);
    IntervalSize(i * c.perOp, Share(c, m, i));
    assert |s.ops[i].logged| < c.perOp;
    Extend(c, s, Enter(i, m), u);
  }

  lemma BusyNext(c: Params, k: nat, m: nat, i: nat)
    requires c.perOp > 0 && Writer(c, m, i) && i < k
    ensures Appended(SetCall(Busy(c, k, m), i, Call(m, TESTS)), i) == Busy(c, k, m + 1)
  {
    var s, t := Busy(c, k, m), Busy(c, k, m + 1);
    forall j | 0 <= j < k ensures t.ops[j] == if j == i then Op(s.ops[i].logged + {m}, NoCall) else s.ops[j] {
      LoggedNext(c, m, i, j);
    }
    assert t.ops == s.ops[i := Op(s.ops[i].logged + {m}, NoCall)];
    assert t.blocks == s.blocks + {m};
  }

  lemma LoggedNext(c: Params, m: nat, i: nat, j: nat)
    requires c.perOp > 0 && Writer(c, m, i)
    ensures Interval(j * c.perOp, Share(c, m + 1, j)) ==
            if j == i then Interval(i * c.perOp, Share(c, m, i)) + {m} else Interval(j * c.perOp, Share(c, m, j))
  {
    ShareNext(c, m, i, j);
    var a, n := i * c.perOp, Share(c, m, i);
    assert m == a + n;
    assert Interval(a, n + 1) == Interval(a, n) + {a + n};
  }

  lemma Cancel(q: int, k: int, p: int)
    requires p > 0 && q * p < k * p
    ensures q < k
  {
  }

  lemma WriterExists(c: Params, k: nat, m: nat) returns (i: nat)
    requires c.perOp > 0 && c.room == k * c.perOp && m < c.room
    ensures i < k && Writer(c, m, i)
  {
    i := m / c.perOp;
    assert m == i * c.perOp + m % c.perOp;
    assert (i + 1) * c.perOp == i * c.perOp + c.perOp;
    Cancel(i, k, c.perOp);
  }

  lemma TooBigUnreachable(c: Params)
    requires c.strict && c.size >= c.room + 1
    ensures !Reachable(c, Panicked(TOO_BIG))
  {
    if Reachable(c, Panicked(TOO_BIG)) { Reservation(c, Panicked(TOO_BIG)); }
  }

  /** On a smaller log area: the list fills the log area. */
  lemma TooBigReached(c: Params, k: nat)
    requires c.perOp > 0 && c.room == k * c.perOp && 1 <= c.size < c.room + 1
    ensures Reachable(c, Panicked(TOO_BIG))
  {
    var m := c.size - 1;
    WriteMany(c, k, m);
    var i := WriterExists(c, k, m);
    var u := EnterNext(c, k, m, i);
    IntervalSize(0, m);
    Extend(c, u, Test(i), Passed(u, i));
    Extend(c, Passed(u, i), Test(i), Panicked(TOO_BIG));
  }

  /** On a log area of any larger size: the list is full, and an operation logs again a
      block that is in it.  log_write tests before it looks. */
  lemma TooBigAgain(c: Params, k: nat)
    requires c.perOp > 0 && c.room == k * c.perOp && k > 0 && c.size >= c.room + 1 && !c.strict
    ensures Reachable(c, Panicked(TOO_BIG))
  {
    WriteMany(c, k, c.room);
    var s := Busy(c, k, c.room);
    Times(1, k, c.perOp);
    IntervalSize(0, c.room);
    IntervalSize(0, c.perOp);
    assert s.ops[0].logged == Interval(0, c.perOp) && 0 in s.ops[0].logged;
    assert s.ops[0].logged + {0} == s.ops[0].logged;
    Extend(c, s, Enter(0, 0), SetCall(s, 0, Call(0, 0)));
    Extend(c, SetCall(s, 0, Call(0, 0)), Test(0), Panicked(TOO_BIG));
  }

  /** "too big a transaction" is out of reach exactly when no operation logs again at
      its limit and the log area has a block more than the header lists.  (mkfs gives
      it one fewer.) */
  lemma TooBigReachable(c: Params, k: nat)
    requires c.perOp > 0 && c.room == k * c.perOp && k > 0 && c.size >= 1
    ensures Reachable(c, Panicked(TOO_BIG)) <==> !c.strict || c.size < c.room + 1
  {
    if c.size < c.room + 1 {
      TooBigReached(c, k);
    } else if c.strict {
      TooBigUnreachable(c);
    } else {
      TooBigAgain(c, k);
    }
  }
}
