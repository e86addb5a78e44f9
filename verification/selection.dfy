/**
 * The selection counter (`getRandIndex`): one counter shared by every lookup,
 * incremented on each call, reduced modulo the number of candidates.
 */
module Selection {

  /** The counter after a call, and the index the call picked. */
  datatype Pick = Pick(counter: nat, index: nat)

  /**
   * `getRandIndex(total)`: the counter goes up by exactly one and the index is
   * the new counter modulo `total`, so it lies in [0, total). Both callers
   * check for an empty candidate set first; otherwise the Go code would panic
   * with an integer divide by zero.
   */
  function RandIndex(counter: nat, total: int): (p: Pick)
    requires total > 0
    ensures p.counter == counter + 1
    ensures p.index < total
    ensures p.index == p.counter % total
  {
    var c := counter + 1;
    Pick(c, c % total)
  }

  /** The indices picked by `n` successive calls, starting from `counter`. */
  function Picks(counter: nat, total: int, n: nat): (r: seq<nat>)
    requires total > 0
    ensures |r| == n
    decreases n
  {
    if n == 0 then []
    else
      var p := RandIndex(counter, total);
      [p.index] + Picks(p.counter, total, n - 1)
  }

  /** The j-th of successive picks is the counter value at that call, modulo `total`. */
  lemma {:induction false} PicksFollowCounter(counter: nat, total: int, n: nat)
    requires total > 0
    ensures forall j :: 0 <= j < n ==> Picks(counter, total, n)[j] == (counter + 1 + j) % total
    decreases n
  {
    if n > 0 {
      PicksFollowCounter(counter + 1, total, n - 1);
    }
  }

  lemma MulAtLeast(t: int, d: int)
    requires t > 0 && d >= 1
    ensures t * d >= t
  {
  }

  /** The remainder is determined by any division of `x` by `t`. */
  lemma ModOfDivision(x: int, t: int, q: int, r: int)
    requires t > 0 && 0 <= r < t && x == t * q + r
    ensures x % t == r
  {
    var q0, r0 := x / t, x % t;
    assert t * (q - q0) == r0 - r;
    if q - q0 >= 1 {
      MulAtLeast(t, q - q0);
      assert false;
    }
    if q0 - q >= 1 {
      MulAtLeast(t, q0 - q);
      assert false;
    }
  }

  /** Every index in [0, total) is picked by one of `total` successive calls. */
  lemma RoundCoversEveryIndex(counter: nat, total: int)
    requires total > 0
    ensures forall k :: 0 <= k < total ==> k in Picks(counter, total, total)
  {
    var ps := Picks(counter, total, total);
    PicksFollowCounter(counter, total, total);
    var a := counter + 1;
    forall k | 0 <= k < total
      ensures k in ps
    {
      var j := (k - a) % total;
      var q := (k - a) / total;
      assert k - a == total * q + j;
      assert a + j == total * (-q) + k;
      ModOfDivision(a + j, total, -q, k);
      assert ps[j] == k;
    }
  }

  /** No index is picked twice by `total` successive calls. */
  lemma RoundPicksNoIndexTwice(counter: nat, total: int)
    requires total > 0
    ensures forall i, j :: 0 <= i < j < total ==> Picks(counter, total, total)[i] != Picks(counter, total, total)[j]
  {
    var ps := Picks(counter, total, total);
    PicksFollowCounter(counter, total, total);
    forall i, j | 0 <= i < j < total
      ensures ps[i] != ps[j]
    {
      var x := counter + 1 + i;
      var q, r := x / total, x % total;
      assert x == total * q + r;
      if r + (j - i) < total {
        ModOfDivision(x + (j - i), total, q, r + (j - i));
      } else {
        ModOfDivision(x + (j - i), total, q + 1, r + (j - i) - total);
      }
    }
  }
}
