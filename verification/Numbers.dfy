/** Small numbers and machine words. */
module Numbers {

  function Min(x: int, y: int): int { if x <= y then x else y }

  function Max(x: int, y: int): int { if x >= y then x else y }

  /** The numbers below `n`. */
  function Upto(n: nat): (r: set<nat>)
    ensures |r| == n && forall i :: i in r <==> 0 <= i < n
  {
    if n == 0 then {} else Upto(n - 1) + {n - 1}
  }

  /** The `n` numbers from `a` on. */
  function Interval(a: int, n: nat): (r: set<int>)
    ensures forall i :: i in r <==> a <= i < a + n
  {
    if n == 0 then {} else Interval(a, n - 1) + {a + n - 1}
  }

  lemma {:induction false} IntervalSize(a: int, n: nat)
    ensures |Interval(a, n)| == n
  {
    if n > 0 { IntervalSize(a, n - 1); }
  }

  /** The 32-bit word at byte `o`, least significant byte first. */
  function Word32(b: seq<int>, o: int): int
    requires 0 <= o && o + 4 <= |b|
  {
    b[o] + 0x100 * b[o + 1] + 0x1_0000 * b[o + 2] + 0x100_0000 * b[o + 3]
  }

  lemma {:induction false} Subset<T>(a: set<T>, b: set<T>)
    requires a <= b
    ensures |a| <= |b|
  {
    if a != {} {
      var x :| x in a;
      Subset(a - {x}, b - {x});
    }
  }
}
