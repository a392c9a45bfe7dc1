/** Unsigned machine words: counting modulo a word size. */
module Words {

  lemma SmallMultiple(x: int, w: int)
    requires w > 0 && -w < x * w < w
    ensures x == 0
  {
  }

  lemma Residue(a: int, q: int, r: int, w: int)
    requires w > 0 && 0 <= r < w && a == q * w + r
    ensures a % w == r
  {
    var q', r' := a / w, a % w;
    assert a == q' * w + r';
    assert (q - q') * w == q * w - q' * w;
    SmallMultiple(q - q', w);
  }

  /** Incrementing a word counts one more. */
  lemma Increment(a: nat, w: int)
    requires w > 0
    ensures (a % w + 1) % w == (a + 1) % w
  {
    var q, r := a / w, a % w;
    assert a == q * w + r;
    if r + 1 == w {
      assert a + 1 == (q + 1) * w;
      Residue(a + 1, q + 1, 0, w);
      Residue(w, 1, 0, w);
    } else {
      Residue(a + 1, q, r + 1, w);
      Residue(r + 1, 0, r + 1, w);
    }
  }

  lemma AddWord(a: nat, b: nat, w: int)
    requires w > 0
    ensures (a % w + b) % w == (a + b) % w
  {
    var q, r, s := a / w, a % w, (a % w + b) % w;
    var q2 := (a % w + b) / w;
    assert a == q * w + r && r + b == q2 * w + s;
    assert (q + q2) * w == q * w + q2 * w;
    Residue(a + b, q + q2, s, w);
  }

  /** Counts less than a word apart are equal when their words are. */
  lemma SameWord(a: int, b: int, w: int)
    requires w > 0 && -w < a - b < w && a % w == b % w
    ensures a == b
  {
    var q, r := a / w, b / w;
    assert a == q * w + a % w && b == r * w + b % w;
    assert (q - r) * w == q * w - r * w;
    SmallMultiple(q - r, w);
  }

  /** A ring whose size divides the word size can be indexed by the word. */
  lemma RingIndex(a: nat, w: int, size: nat, k: nat)
    requires size > 0 && w == k * size && w > 0
    ensures (a % w) % size == a % size
  {
    var q, r := a / w, a % w;
    assert a == q * w + r;
    var q2, r2 := r / size, r % size;
    assert r == q2 * size + r2;
    assert q * w == (q * k) * size by { Assoc(q, k, size); }
    assert (q * k + q2) * size == (q * k) * size + q2 * size;
    Residue(a, q * k + q2, r2, size);
  }

  lemma Assoc(x: int, y: int, z: int)
    ensures x * (y * z) == (x * y) * z
  {
  }

  /** Distinct numbers below `n` are at most `n`. */
  lemma {:induction false} DistinctFew(xs: seq<int>, n: nat)
    requires forall k :: 0 <= k < |xs| ==> 0 <= xs[k] < n
    requires forall j, k :: 0 <= j < k < |xs| ==> xs[j] != xs[k]
    ensures |xs| <= n
  {
    if xs == [] {
    } else if exists k :: 0 <= k < |xs| && xs[k] == n - 1 {
      var k :| 0 <= k < |xs| && xs[k] == n - 1;
      var ys := xs[..k] + xs[k+1..];
      forall j | 0 <= j < |ys| ensures 0 <= ys[j] < n - 1 {
        assert ys[j] == xs[if j < k then j else j + 1];
      }
      DistinctFew(ys, n - 1);
    } else {
      assert 0 <= xs[0] < n;
      DistinctFew(xs, n - 1);
    }
  }
}
