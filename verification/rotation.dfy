/** How repeated retries and round-robin selections walk over a cluster. */
module Rotation {
  import opened Errors
  import opened Cluster
  import opened Arith

  // ----- residues

  /** The slot of an un-reduced position. */
  function Slot(i: nat, l: nat): (p: nat)
    requires l > 0
    ensures p < l
  {
    i % l
  }

  lemma SlotShift(a: nat, l: nat)
    requires l > 0
    ensures Slot(a + l, l) == Slot(a, l) && (a + l) / l == a / l + 1
  {
    var q := a / l;
    assert (q + 1) * l == q * l + l;
    DivUnique(a + l, l, q + 1, a % l);
  }

  lemma SameSlotFar(a: nat, b: nat, l: nat)
    requires l > 0 && a < b && Slot(a, l) == Slot(b, l)
    ensures b >= a + l
  {
    var k := b / l - a / l;
    assert k * l == (b / l) * l - (a / l) * l == b - a;
    if b < a + l {
      SmallMultiple(k, l);
    }
  }

  lemma SmallSlot(j: nat, l: nat)
    requires j < l
    ensures Slot(j, l) == j
  {
  }

  /** How far ahead of `seed` slot p comes up next, counting `seed` itself as 0. */
  function Ahead(seed: nat, l: nat, p: nat): nat
    requires p < l
  {
    var r := Slot(seed, l);
    if r <= p then p - r else p + l - r
  }

  lemma AheadIs(seed: nat, l: nat, p: nat)
    requires p < l
    ensures Ahead(seed, l, p) < l && Slot(seed + Ahead(seed, l, p), l) == p
    ensures forall j: nat :: seed <= j < seed + l && Slot(j, l) == p ==> j == seed + Ahead(seed, l, p)
  {
    var q, r, j := seed / l, seed % l, seed + Ahead(seed, l, p);
    if r <= p {
      DivUnique(j, l, q, p);
    } else {
      assert (q + 1) * l == q * l + l;
      DivUnique(j, l, q + 1, p);
    }
    forall i: nat | seed <= i < seed + l && Slot(i, l) == p ensures i == j {
      if i < j {
        SameSlotFar(i, j, l);
      } else if j < i {
        SameSlotFar(j, i, l);
      }
    }
  }

  /** Position seed + d answers healthy and no earlier one does. */
  ghost predicate FirstUp(probe: nat -> bool, seed: nat, d: nat) {
    probe(seed + d) && forall j: nat :: seed <= j < seed + d ==> !probe(j)
  }

  lemma AllUpFirst(probe: nat -> bool, seed: nat, d: nat)
    requires forall j: nat :: probe(j)
    ensures FirstUp(probe, seed, d) <==> d == 0
  {
    assert probe(seed);
  }

  /** Exactly when a selection lands on slot p: when p is the first slot ahead that answers healthy. */
  lemma LandsIff(probe: nat -> bool, l: nat, seed: nat, p: nat)
    requires p < l
    ensures var r := SelectFrom(probe, seed, l);
      (r.Some? && Slot(r.value, l) == p) <==> FirstUp(probe, seed, Ahead(seed, l, p))
  {
    hide Slot, Ahead;
    AheadIs(seed, l, p);
    var d := Ahead(seed, l, p);
    if FirstUp(probe, seed, d) {
      SelectIs(probe, seed, l, seed + d);
    }
  }

  // ----- counting healthy positions

  /** `up(p)` says whether the pool in slot p is healthy; positions wrap around. */
  function Probe(up: nat -> bool, l: nat): nat -> bool
    requires l > 0
  {
    (i: nat) => up(Slot(i, l))
  }

  /** Healthy positions among a .. a + n - 1. */
  function Ups(up: nat -> bool, l: nat, a: nat, n: nat): nat
    requires l > 0
    decreases n
  {
    if n == 0 then 0 else (if up(Slot(a, l)) then 1 else 0) + Ups(up, l, a + 1, n - 1)
  }

  lemma UpsOne(up: nat -> bool, l: nat, a: nat)
    requires l > 0
    ensures Ups(up, l, a, 1) == if up(Slot(a, l)) then 1 else 0
  {
  }

  lemma {:induction false} UpsSplit(up: nat -> bool, l: nat, a: nat, m: nat, n: nat)
    requires l > 0
    ensures Ups(up, l, a, m + n) == Ups(up, l, a, m) + Ups(up, l, a + m, n)
    decreases m
  {
    if m > 0 {
      UpsSplit(up, l, a + 1, m - 1, n);
    }
  }

  /** Any window as long as the cluster holds the same number of healthy positions. */
  lemma {:induction false} UpsPeriod(up: nat -> bool, l: nat, a: nat)
    requires l > 0
    ensures Ups(up, l, a, l) == Ups(up, l, 0, l)
  {
    if a > 0 {
      UpsPeriod(up, l, a - 1);
      UpsSplit(up, l, a - 1, l, 1);
      UpsSplit(up, l, a - 1, 1, l);
      SlotShift(a - 1, l);
      assert Ups(up, l, a - 1 + l, 1) == if up(Slot(a - 1, l)) then 1 else 0;
    }
  }

  lemma {:induction false} NoUps(up: nat -> bool, l: nat, a: nat, n: nat)
    requires l > 0 && forall j: nat :: a <= j < a + n ==> !up(Slot(j, l))
    ensures Ups(up, l, a, n) == 0
    decreases n
  {
    if n > 0 {
      NoUps(up, l, a + 1, n - 1);
    }
  }

  lemma {:induction false} UpsWitness(up: nat -> bool, l: nat, a: nat, n: nat) returns (j: nat)
    requires l > 0 && Ups(up, l, a, n) > 0
    ensures a <= j < a + n && up(Slot(j, l))
    decreases n
  {
    if up(Slot(a, l)) {
      j := a;
    } else {
      j := UpsWitness(up, l, a + 1, n - 1);
    }
  }

  // ----- retries

  /** The healthy pools of the cluster. */
  function Healthy(up: nat -> bool, l: nat): nat
    requires l > 0
  {
    Ups(up, l, 0, l)
  }

  lemma NextExists(up: nat -> bool, l: nat, i: nat)
    requires l > 0 && Healthy(up, l) > 0
    ensures SelectFrom(Probe(up, l), i + 1, l).Some?
  {
    hide Ups, Slot;
    UpsPeriod(up, l, i + 1);
    var j := UpsWitness(up, l, i + 1, l);
    assert Probe(up, l)(j);
  }

  /** The position a retry after position i goes to. */
  function Next(up: nat -> bool, l: nat, i: nat): nat
    requires l > 0 && Healthy(up, l) > 0
  {
    NextExists(up, l, i);
    SelectFrom(Probe(up, l), i + 1, l).value
  }

  lemma NextIsNearest(up: nat -> bool, l: nat, i: nat)
    requires l > 0 && Healthy(up, l) > 0
    ensures var j := Next(up, l, i);
      i < j <= i + l && up(Slot(j, l)) && forall k: nat :: i < k < j ==> !up(Slot(k, l))
  {
    hide Ups, Slot;
    NextExists(up, l, i);
    var j := Next(up, l, i);
    assert Probe(up, l)(j);
    forall k: nat | i < k < j ensures !up(Slot(k, l)) {
      assert !Probe(up, l)(k);
    }
  }

  /** The position after n successive retries. */
  function Retry(up: nat -> bool, l: nat, i: nat, n: nat): nat
    requires l > 0 && Healthy(up, l) > 0
  {
    if n == 0 then i else Next(up, l, Retry(up, l, i, n - 1))
  }

  lemma RetrySteps(up: nat -> bool, l: nat, i: nat, n: nat)
    requires l > 0 && Healthy(up, l) > 0
    ensures Retry(up, l, i, 0) == i && Retry(up, l, i, n + 1) == Next(up, l, Retry(up, l, i, n))
  {
  }

  lemma {:induction false} RetryCounts(up: nat -> bool, l: nat, i: nat, n: nat)
    requires l > 0 && Healthy(up, l) > 0
    ensures Retry(up, l, i, n) >= i + n
    ensures Ups(up, l, i + 1, Retry(up, l, i, n) - i) == n
    ensures n > 0 ==> up(Slot(Retry(up, l, i, n), l))
  {
    hide Retry, Next, Slot;
    RetrySteps(up, l, i, if n > 0 then n - 1 else 0);
    if n > 0 {
      RetryCounts(up, l, i, n - 1);
      NextCounts(up, l, i, Retry(up, l, i, n - 1));
    }
  }

  lemma NextCounts(up: nat -> bool, l: nat, i: nat, a: nat)
    requires l > 0 && Healthy(up, l) > 0 && i <= a
    ensures var b := Next(up, l, a);
      b > a && up(Slot(b, l)) && Ups(up, l, i + 1, b - i) == Ups(up, l, i + 1, a - i) + 1
  {
    hide Slot, Next, Ups, SelectFrom;
    var b := Next(up, l, a);
    NextIsNearest(up, l, a);
    UpsSplit(up, l, i + 1, a - i, b - a);
    UpsSplit(up, l, a + 1, b - a - 1, 1);
    NoUps(up, l, a + 1, b - a - 1);
    UpsOne(up, l, b);
  }

  /** Counting identifies a healthy position. */
  lemma SameCount(up: nat -> bool, l: nat, i: nat, a: nat, b: nat)
    requires l > 0 && i < a && i < b && up(Slot(a, l)) && up(Slot(b, l))
    requires Ups(up, l, i + 1, a - i) == Ups(up, l, i + 1, b - i)
    ensures a == b
  {
    if a < b {
      Further(up, l, i, a, b);
    } else if b < a {
      Further(up, l, i, b, a);
    }
  }

  lemma Further(up: nat -> bool, l: nat, i: nat, a: nat, b: nat)
    requires l > 0 && i < a < b && up(Slot(b, l))
    ensures Ups(up, l, i + 1, a - i) < Ups(up, l, i + 1, b - i)
  {
    hide Ups, Slot;
    UpsSplit(up, l, i + 1, a - i, b - a);
    UpsSplit(up, l, a + 1, b - a - 1, 1);
    UpsOne(up, l, b);
  }

  /** Every healthy position after i is reached, after as many retries as there are healthy ones on the way. */
  lemma Reached(up: nat -> bool, l: nat, i: nat, j: nat)
    requires l > 0 && Healthy(up, l) > 0 && i < j && up(Slot(j, l))
    ensures Ups(up, l, i + 1, j - i) > 0
    ensures Retry(up, l, i, Ups(up, l, i + 1, j - i)) == j
  {
    hide Ups, Slot, Retry;
    var n := Ups(up, l, i + 1, j - i);
    UpsSplit(up, l, i + 1, j - i - 1, 1);
    UpsOne(up, l, j);
    RetryCounts(up, l, i, n);
    SameCount(up, l, i, Retry(up, l, i, n), j);
  }

  /** From a healthy position, h retries advance the un-reduced index by exactly the cluster size. */
  lemma RetryPeriod(up: nat -> bool, l: nat, i: nat)
    requires l > 0 && up(Slot(i, l)) && Healthy(up, l) > 0
    ensures Retry(up, l, i, Healthy(up, l)) == i + l
  {
    hide Ups, Slot, Retry;
    UpsPeriod(up, l, i + 1);
    SlotShift(i, l);
    Reached(up, l, i, i + l);
  }

  /** Any h consecutive retries hit each healthy pool exactly once, at ever larger indices. */
  lemma RetriesHitEachOnce(up: nat -> bool, l: nat, i: nat, p: nat)
    requires l > 0 && p < l && up(p)
    requires Healthy(up, l) > 0
    ensures exists n: nat :: 1 <= n <= Healthy(up, l) && Slot(Retry(up, l, i, n), l) == p
    ensures forall m: nat, n: nat :: 1 <= m < n <= Healthy(up, l) ==> Retry(up, l, i, m) < Retry(up, l, i, n)
    ensures forall m: nat, n: nat :: 1 <= m < n <= Healthy(up, l) ==> Slot(Retry(up, l, i, m), l) != Slot(Retry(up, l, i, n), l)
  {
    hide Ups, Slot, Retry;
    var h := Healthy(up, l);
    var j := PositionOf(l, i, p);
    Reached(up, l, i, j);
    UpsPeriod(up, l, i + 1);
    UpsSplit(up, l, i + 1, j - i, i + l - j);
    assert Slot(Retry(up, l, i, Ups(up, l, i + 1, j - i)), l) == p;
    forall m: nat, n: nat | 1 <= m < n <= h
      ensures Retry(up, l, i, m) < Retry(up, l, i, n) && Slot(Retry(up, l, i, m), l) != Slot(Retry(up, l, i, n), l)
    {
      RetriesDiffer(up, l, i, m, n);
    }
  }

  lemma PositionOf(l: nat, i: nat, p: nat) returns (j: nat)
    requires l > 0 && p < l
    ensures i < j <= i + l && Slot(j, l) == p
  {
    var q, r := i / l, i % l;
    assert i == q * l + r;
    if r < p {
      j := q * l + p;
      DivUnique(j, l, q, p);
    } else {
      j := (q + 1) * l + p;
      assert j == q * l + l + p;
      DivUnique(j, l, q + 1, p);
    }
  }

  lemma RetriesDiffer(up: nat -> bool, l: nat, i: nat, m: nat, n: nat)
    requires l > 0 && Healthy(up, l) > 0 && 1 <= m < n <= Healthy(up, l)
    ensures Retry(up, l, i, m) < Retry(up, l, i, n)
    ensures Slot(Retry(up, l, i, m), l) != Slot(Retry(up, l, i, n), l)
  {
    hide Ups, Slot, Retry;
    var a, b := Retry(up, l, i, m), Retry(up, l, i, n);
    RetryCounts(up, l, i, m);
    RetryCounts(up, l, i, n);
    if b <= a {
      UpsSplit(up, l, i + 1, b - i, a - b);
    }
    UpsSplit(up, l, i + 1, a - i, b - a);
    if Slot(a, l) == Slot(b, l) {
      SameSlotFar(a, b, l);
      UpsPeriod(up, l, a + 1);
      UpsSplit(up, l, a + 1, l, b - a - l);
    }
  }

  /** A retry comes back to the position it left only when no other pool answers healthy. */
  lemma RetryLeaves(probe: nat -> bool, l: nat, last: nat, i: nat)
    requires l > 0 && SelectFrom(probe, last + 1, l) == Some(i)
    ensures Slot(i, l) == Slot(last, l) ==> i == last + l && forall j: nat :: last < j < last + l ==> !probe(j)
  {
    if Slot(i, l) == Slot(last, l) {
      SameSlotFar(last, i, l);
    }
  }

  // ----- round robin

  /** With every pool healthy, n consecutive counter values visit each pool floor(n/l) or ceil(n/l) times. */
  lemma {:induction false} RoundRobinFair(l: nat, p: nat, start: nat, n: nat)
    requires l > 0 && p < l
    ensures var k := Ups((q: nat) => q == p, l, start, n);
      if n % l == 0 then k == n / l else n / l <= k <= n / l + 1
    decreases n
  {
    var only := (q: nat) => q == p;
    OnePerTurn(l, p, start);
    if n < l {
      UpsSplit(only, l, start, n, l - n);
      DivUnique(n, l, 0, n);
    } else {
      UpsSplit(only, l, start, l, n - l);
      RoundRobinFair(l, p, start + l, n - l);
      SlotShift(n - l, l);
    }
  }

  lemma OnePerTurn(l: nat, p: nat, start: nat)
    requires l > 0 && p < l
    ensures Ups((q: nat) => q == p, l, start, l) == 1
  {
    var only := (q: nat) => q == p;
    UpsPeriod(only, l, start);
    UpsSplit(only, l, 0, p, l - p);
    UpsSplit(only, l, p, 1, l - p - 1);
    forall j: nat | j < l ensures Slot(j, l) == j {
      SmallSlot(j, l);
    }
    NoUps(only, l, 0, p);
    NoUps(only, l, p + 1, l - p - 1);
  }

  /** All healthy: a first selection takes exactly the counter's position. */
  lemma AllHealthySelect(l: nat, seed: nat, probe: nat -> bool)
    requires l > 0 && probe(seed)
    ensures SelectFrom(probe, seed, l) == Some(seed)
  {
  }
}
