/** The generator of src/lib/random: a congruential step with its last digit dropped. */
module RandomGen {
  import opened Base

  const P := 673
  const Q := 944
  const RANGE := 100000

  /** C's %, which truncates toward zero. */
  function CMod(a: int, n: int): int
    requires n != 0
  {
    if a >= 0 then a % n else -(-a % n)
  }

  function Labs(a: int): nat {
    if a < 0 then -a else a
  }

  function Step(a: nat): nat {
    (a * P + Q) / 10 % RANGE
  }

  function Iterate(a: nat, k: nat): nat {
    if k == 0 then a else Step(Iterate(a, k - 1))
  }

  class Generator {
    /** static long a */
    var a: int

    ghost predicate Valid()
      reads this
    {
      0 <= a < RANGE
    }

    constructor ()
      ensures Valid() && a == 0
    {
      a := 0;
    }

    method Randomize(n: int)
      requires -TWO31 <= n < TWO31
      modifies this
      ensures Valid() && a == (if n < 0 then -n else n) % 100000
    {
      a := n;
      a := Labs(CMod(a, RANGE));
    }

    /** One step; no intermediate result leaves the 32-bit range. */
    method Random(n: int) returns (r: int)
      requires Valid() && n != 0
      modifies this
      ensures Valid() && a == Step(old(a)) && 0 <= r < Labs(n) && a == n * (a / n) + r
      ensures 0 <= old(a) * P <= old(a) * P + Q < TWO31
    {
      var t := a * P + Q;
      a := Labs(CMod(t / 10, RANGE));
      r := CMod(a, n);
    }
  }

  /** One step is a congruential step modulo a million with its last digit dropped. */
  lemma StepDropsDigit(a: nat)
    ensures Step(a) == (673 * a + 944) % 1000000 / 10
  {
    var t := a * P + Q;
    assert t == 10 * RANGE * (t / (10 * RANGE)) + t % (10 * RANGE);
  }

  lemma {:induction false} IterateInRange(a: nat, k: nat)
    requires a < RANGE
    ensures Iterate(a, k) < RANGE
  {
  }

  lemma {:induction false} IterateSum(a: nat, j: nat, k: nat)
    ensures Iterate(a, j + k) == Iterate(Iterate(a, j), k)
  {
    if k > 0 {
      IterateSum(a, j, k - 1);
    }
  }

  // ------------------------------------------------- pigeonhole

  ghost function Below(n: nat): (s: set<nat>)
    ensures |s| == n && forall x: nat :: x in s <==> x < n
  {
    if n == 0 then {} else Below(n - 1) + {n - 1}
  }

  ghost function Seen(a: nat, k: nat): set<nat> {
    set i: nat | i < k :: Iterate(a, i)
  }

  ghost predicate Distinct(a: nat, k: nat) {
    forall i: nat, j: nat | i < j < k :: Iterate(a, i) != Iterate(a, j)
  }

  lemma SeenNext(a: nat, k: nat)
    requires Distinct(a, k + 1)
    ensures |Seen(a, k + 1)| == |Seen(a, k)| + 1
  {
    hide Iterate;
    var x := Iterate(a, k);
    assert Seen(a, k + 1) == Seen(a, k) + {x};
    assert x !in Seen(a, k);
    hide *;
    OneMore(Seen(a, k), Seen(a, k + 1), x);
  }

  lemma {:induction false} SeenAreMany(a: nat, k: nat)
    requires Distinct(a, k)
    ensures |Seen(a, k)| == k
  {
    if k == 0 {
      assert Seen(a, 0) == {};
    } else {
      assert Distinct(a, k - 1);
      hide Iterate, Seen, Distinct;
      SeenAreMany(a, k - 1);
      SeenNext(a, k - 1);
    }
  }

  /** From every state some state comes back within a hundred thousand steps, and from
      its first occurrence on the sequence repeats for ever. */
  lemma EventuallyPeriodic(a: nat)
    requires a < RANGE
    ensures exists i: nat, j: nat :: i < j <= RANGE && Repeats(a, i, j)
  {
    hide Iterate;
    if Distinct(a, RANGE + 1) {
      SeenAreMany(a, RANGE + 1);
      forall x | x in Seen(a, RANGE + 1) ensures x in Below(RANGE) {
        var i: nat :| i < RANGE + 1 && Iterate(a, i) == x;
        IterateInRange(a, i);
      }
      Subset(Seen(a, RANGE + 1), Below(RANGE));
      assert false;
    }
    var i: nat, j: nat :| i < j < RANGE + 1 && Iterate(a, i) == Iterate(a, j);
    forall k: nat | k >= i ensures Iterate(a, k + (j - i)) == Iterate(a, k) {
      IterateSum(a, i, k - i);
      IterateSum(a, j, k - i);
    }
    assert Repeats(a, i, j);
  }

  ghost predicate Repeats(a: nat, i: nat, j: nat)
    requires i < j
  {
    forall k: nat | k >= i :: Iterate(a, k + (j - i)) == Iterate(a, k)
  }

  lemma {:induction false} Subset(a: set<nat>, b: set<nat>)
    requires a <= b
    ensures |a| <= |b|
  {
    if x :| x in a {
      Subset(a - {x}, b - {x});
    }
  }
}
