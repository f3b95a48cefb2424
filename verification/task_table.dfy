/**
 The in-flight task table of one client connection, as a value.

 A task travels: registration channel -> `sent` (this second) -> one batch per past second in
 `delayed` (index 0 is the newest) -> timed out. Read from the oldest batch to the newest channel
 entry, the live tasks form one sequence, `Live`, and every operation is described by what it does
 to that sequence.
 */
module TaskTable {
  import opened Errors

  /** `id` numbers the calls of send_task; `num` is the wire sequence number (0 until assigned). */
  datatype Task = Task(id: nat, num: nat)

  datatype Outcome = Answered | Failed(e: RpcIntErr)

  /** One call of done() or error_handle() for a task. */
  datatype Resolution = Resolution(task: Task, outcome: Outcome)

  datatype Table = Table(
    chan: seq<Task>,
    sent: seq<Task>,
    delayed: seq<seq<Task>>,
    minDelay: nat,
    processed: nat,
    stopped: bool,
    timeout: nat)

  // ----- the live sequence

  function FlatDelayed(q: seq<seq<Task>>): seq<Task> {
    if q == [] then [] else FlatDelayed(q[1..]) + q[0]
  }

  /** Tasks the receiver has already taken out of the channel. */
  function Filed(t: Table): seq<Task> {
    FlatDelayed(t.delayed) + t.sent
  }

  function Live(t: Table): seq<Task> {
    Filed(t) + t.chan
  }

  ghost predicate Ascending(s: seq<Task>) {
    forall i, j :: 0 <= i < j < |s| ==> s[i].num < s[j].num
  }

  ghost predicate Valid(t: Table) {
    && Ascending(Live(t))
    && (forall x :: x in Live(t) ==> t.minDelay < x.num)
    && (forall x :: x in Filed(t) ==> x.num <= t.processed)
    && (forall x :: x in t.chan ==> t.processed < x.num)
    && t.minDelay <= t.processed
    && |t.delayed| <= t.timeout
  }

  /** A task with number `k` is somewhere in the table. */
  ghost predicate Knows(t: Table, k: nat) {
    exists x :: x in Live(t) && x.num == k
  }

  /** The plain map from sequence number to task that the live sequence stands for. */
  function AsMap(s: seq<Task>): map<nat, Task> {
    if s == [] then map[] else AsMap(s[1..])[s[0].num := s[0]]
  }

  // ----- operations

  function Init(timeout: nat): Table {
    Table([], [], [], 0, 0, false, timeout)
  }

  function Register(t: Table, x: Task): Table {
    t.(chan := t.chan + [x])
  }

  /** One received channel entry is filed under the current second. */
  function DrainOne(t: Table): Table
    requires t.chan != []
  {
    t.(chan := t.chan[1..], sent := t.sent + [t.chan[0]], processed := t.chan[0].num)
  }

  function DrainAll(t: Table): Table
    decreases |t.chan|
  {
    if t.chan == [] then t else DrainAll(DrainOne(t))
  }

  /** All entries of `s` but those with sequence number `k`. */
  function Without(s: seq<Task>, k: nat): (r: seq<Task>)
    ensures |r| <= |s|
    ensures forall x :: x in r <==> x in s && x.num != k
  {
    if s == [] then []
    else if s[0].num == k then Without(s[1..], k)
    else [s[0]] + Without(s[1..], k)
  }

  function WithoutEach(q: seq<seq<Task>>, k: nat): seq<seq<Task>> {
    seq(|q|, i requires 0 <= i < |q| => Without(q[i], k))
  }

  function Erase(t: Table, k: nat): Table {
    t.(sent := Without(t.sent, k), delayed := WithoutEach(t.delayed, k))
  }

  /** The batches after a tick, before the overflowing one is popped. */
  function Aged(t: Table): seq<seq<Task>> {
    [t.sent] + t.delayed
  }

  /** The batch that a tick times out. */
  function Expired(t: Table): seq<Task> {
    var q := Aged(t);
    if |q| > t.timeout then q[|q| - 1] else []
  }

  function Tick(t: Table): Table {
    var q := Aged(t);
    var out := Expired(t);
    t.(sent := [],
       delayed := if |q| > t.timeout then q[..|q| - 1] else q,
       minDelay := if out == [] then t.minDelay else out[0].num)
  }

  function EmptyBatches(n: nat): seq<seq<Task>> {
    seq(n, _ => [])
  }

  /** What clean_pending_tasks leaves once the channel has been drained. */
  function Flushed(t: Table): Table {
    t.(sent := [], delayed := EmptyBatches(|t.delayed|))
  }

  // ----- reports

  function Tag(xs: seq<Task>, o: Outcome): (r: seq<Resolution>)
    ensures |r| == |xs|
    ensures forall i :: 0 <= i < |xs| ==> r[i] == Resolution(xs[i], o)
  {
    seq(|xs|, i requires 0 <= i < |xs| => Resolution(xs[i], o))
  }

  /** The order in which clean_pending_tasks resolves: this second, then newest batch to oldest. */
  function NewestFirst(q: seq<seq<Task>>): seq<Task> {
    if q == [] then [] else q[0] + NewestFirst(q[1..])
  }

  function FlushOrder(t: Table): seq<Task> {
    t.sent + NewestFirst(t.delayed)
  }

  // ----- lemmas

  function Total(q: seq<seq<Task>>): nat {
    if q == [] then 0 else |q[0]| + Total(q[1..])
  }

  /** Cleaning goes through the current second, then the batches from the newest to the oldest, each in order. */
  lemma FlushOrderAt(t: Table, i: nat, k: nat)
    requires i < |t.delayed| && k < |t.delayed[i]|
    ensures FlushOrder(t)[..|t.sent|] == t.sent
    ensures |t.sent| + Total(t.delayed[..i]) + k < |FlushOrder(t)|
    ensures FlushOrder(t)[|t.sent| + Total(t.delayed[..i]) + k] == t.delayed[i][k]
  {
    NewestFirstAt(t.delayed, i, k);
  }

  lemma {:induction false} NewestFirstAt(q: seq<seq<Task>>, i: nat, k: nat)
    requires i < |q| && k < |q[i]|
    ensures Total(q[..i]) + k < |NewestFirst(q)| && NewestFirst(q)[Total(q[..i]) + k] == q[i][k]
  {
    if i > 0 {
      NewestFirstAt(q[1..], i - 1, k);
      assert q[..i][1..] == q[1..][..i - 1];
    }
  }

  lemma InitValid(timeout: nat)
    ensures Valid(Init(timeout))
  {
  }

  lemma {:induction false} FlatDelayedLast(q: seq<seq<Task>>)
    requires q != []
    ensures FlatDelayed(q) == q[|q| - 1] + FlatDelayed(q[..|q| - 1])
  {
    if |q| == 1 {
    } else {
      FlatDelayedLast(q[1..]);
      assert q[1..][..|q| - 2] == q[..|q| - 1][1..];
    }
  }

  lemma {:induction false} InDelayed(q: seq<seq<Task>>, i: nat, x: Task)
    requires i < |q| && x in q[i]
    ensures x in FlatDelayed(q)
  {
    if i > 0 {
      InDelayed(q[1..], i - 1, x);
    }
  }

  lemma {:induction false} FlatDelayedEmpty(n: nat)
    ensures FlatDelayed(EmptyBatches(n)) == []
  {
    if n > 0 {
      assert EmptyBatches(n)[1..] == EmptyBatches(n - 1);
      FlatDelayedEmpty(n - 1);
    }
  }

  /** Draining moves a task between containers without touching the live sequence. */
  lemma DrainOneKeepsLive(t: Table)
    requires t.chan != []
    ensures Live(DrainOne(t)) == Live(t)
    ensures Valid(t) ==> Valid(DrainOne(t))
  {
    var t' := DrainOne(t);
    assert t.chan == [t.chan[0]] + t.chan[1..];
    assert Live(t') == Live(t);
    if Valid(t) {
      forall x | x in t'.chan ensures t'.processed < x.num {
        var i :| 0 <= i < |t'.chan| && t'.chan[i] == x;
        assert Live(t)[|Filed(t)|] == t.chan[0];
        assert Live(t)[|Filed(t)| + i + 1] == x;
      }
      assert Filed(t') == Filed(t) + [t.chan[0]];
    }
  }

  lemma {:induction false} DrainAllKeepsLive(t: Table)
    ensures Live(DrainAll(t)) == Live(t)
    ensures DrainAll(t).chan == []
    ensures DrainAll(t).sent == t.sent + t.chan
    ensures DrainAll(t).delayed == t.delayed && DrainAll(t).timeout == t.timeout
    ensures DrainAll(t).minDelay == t.minDelay && DrainAll(t).stopped == t.stopped
    ensures DrainAll(t).processed == if t.chan == [] then t.processed else t.chan[|t.chan| - 1].num
    ensures Valid(t) ==> Valid(DrainAll(t))
    decreases |t.chan|
  {
    if t.chan != [] {
      DrainOneKeepsLive(t);
      DrainAllKeepsLive(DrainOne(t));
    }
  }

  lemma TickFlat(t: Table)
    ensures Live(t) == Expired(t) + Live(Tick(t))
    ensures Tick(t).chan == t.chan
    ensures Filed(t) == Expired(t) + Filed(Tick(t))
  {
    var q := Aged(t);
    assert q[1..] == t.delayed;
    assert FlatDelayed(q) == Filed(t);
    if |q| > t.timeout {
      FlatDelayedLast(q);
    }
    assert FlatDelayed(Tick(t).delayed) + [] == FlatDelayed(Tick(t).delayed);
  }

  /** A tick times out exactly a prefix of the live tasks, and the shortcut bound never goes back. */
  lemma TickKeepsValid(t: Table)
    requires Valid(t)
    ensures Valid(Tick(t))
    ensures Live(t) == Expired(t) + Live(Tick(t))
    ensures t.minDelay <= Tick(t).minDelay
    ensures Expired(t) != [] ==> t.minDelay < Tick(t).minDelay
  {
    TickFlat(t);
    var out, t' := Expired(t), Tick(t);
    DropPrefix(out, Live(t'), t.minDelay);
    assert forall x :: x in Filed(t') ==> x in Filed(t);
  }

  lemma DropPrefix(out: seq<Task>, rest: seq<Task>, bound: nat)
    requires Ascending(out + rest)
    requires forall x :: x in out + rest ==> bound < x.num
    ensures Ascending(rest)
    ensures forall x :: x in rest ==> bound < x.num
    ensures out != [] ==> bound < out[0].num && forall x :: x in rest ==> out[0].num < x.num
  {
    var s := out + rest;
    assert forall i :: 0 <= i < |rest| ==> s[|out| + i] == rest[i];
    if out != [] {
      assert s[0] == out[0];
    }
  }

  lemma {:induction false} WithoutConcat(a: seq<Task>, b: seq<Task>, k: nat)
    ensures Without(a + b, k) == Without(a, k) + Without(b, k)
  {
    if a == [] {
      assert a + b == b;
    } else {
      assert (a + b)[1..] == a[1..] + b;
      WithoutConcat(a[1..], b, k);
    }
  }

  lemma {:induction false} WithoutAbsent(s: seq<Task>, k: nat)
    requires forall x :: x in s ==> x.num != k
    ensures Without(s, k) == s
  {
    if s != [] {
      WithoutAbsent(s[1..], k);
    }
  }

  lemma {:induction false} WithoutAscending(s: seq<Task>, k: nat)
    requires Ascending(s)
    ensures Ascending(Without(s, k))
  {
    if s != [] {
      assert Ascending(s[1..]);
      WithoutAscending(s[1..], k);
    }
  }

  lemma {:induction false} EraseFlatDelayed(q: seq<seq<Task>>, k: nat)
    ensures FlatDelayed(WithoutEach(q, k)) == Without(FlatDelayed(q), k)
  {
    if q != [] {
      assert WithoutEach(q, k)[1..] == WithoutEach(q[1..], k);
      EraseFlatDelayed(q[1..], k);
      WithoutConcat(FlatDelayed(q[1..]), q[0], k);
    }
  }

  /** Removing a filed task removes exactly that entry from the live sequence. */
  lemma EraseKeepsValid(t: Table, k: nat)
    requires Valid(t)
    requires exists x :: x in Filed(t) && x.num == k
    ensures Filed(Erase(t, k)) == Without(Filed(t), k)
    ensures Live(Erase(t, k)) == Without(Live(t), k)
    ensures Valid(Erase(t, k))
  {
    EraseFlatDelayed(t.delayed, k);
    WithoutConcat(FlatDelayed(t.delayed), t.sent, k);
    WithoutConcat(Filed(t), t.chan, k);
    WithoutAbsent(t.chan, k);
    WithoutAscending(Live(t), k);
  }

  lemma FlushedKeepsValid(t: Table)
    requires Valid(t)
    ensures Valid(Flushed(t)) && Filed(Flushed(t)) == [] && Live(Flushed(t)) == t.chan
  {
    FlatDelayedEmpty(|t.delayed|);
    var n := |Filed(t)|;
    assert Live(t)[n..] == t.chan;
    assert forall i :: 0 <= i < |t.chan| ==> Live(t)[n + i] == t.chan[i];
    assert Filed(Flushed(t)) == [];
    assert Live(Flushed(t)) == t.chan;
  }

  lemma RegisterKeepsValid(t: Table, x: Task)
    requires Valid(t)
    requires t.processed < x.num
    requires forall y :: y in Live(t) ==> y.num < x.num
    ensures Valid(Register(t, x)) && Live(Register(t, x)) == Live(t) + [x]
  {
    assert Live(Register(t, x)) == Live(t) + [x];
  }

  // ----- the live sequence is a map

  lemma {:induction false} AsMapKeys(s: seq<Task>, k: nat)
    requires Ascending(s)
    ensures k in AsMap(s) <==> exists x :: x in s && x.num == k
    ensures forall x :: x in s && x.num == k ==> AsMap(s)[k] == x
  {
    if s != [] {
      AsMapKeys(s[1..], k);
      assert s == [s[0]] + s[1..];
    }
  }

  lemma {:induction false} AsMapAppend(s: seq<Task>, x: Task)
    requires Ascending(s + [x])
    ensures AsMap(s + [x]) == AsMap(s)[x.num := x]
  {
    if s == [] {
      assert [x][1..] == [];
    } else {
      assert (s + [x])[1..] == s[1..] + [x];
      AsMapAppend(s[1..], x);
      assert (s + [x])[0] == s[0] && (s + [x])[|s|] == x;
    }
  }

  lemma {:induction false} AsMapWithout(s: seq<Task>, k: nat)
    requires Ascending(s)
    ensures AsMap(Without(s, k)) == AsMap(s) - {k}
  {
    if s != [] {
      assert Ascending(s[1..]) && forall x :: x in s[1..] ==> x.num != s[0].num;
      hide Ascending;
      AsMapWithout(s[1..], k);
      AsMapKeys(s[1..], s[0].num);
      MapMinus(AsMap(s[1..]), s[0], {k});
    }
  }

  lemma MapMinus(m: map<nat, Task>, x: Task, ks: set<nat>)
    requires x.num !in m
    ensures m[x.num := x] - (ks + {x.num}) == m - ks
    ensures m[x.num := x] - ks == if x.num in ks then m - ks else (m - ks)[x.num := x]
  {
  }

  /**
   The batched table refines a plain map: registering inserts, draining changes nothing, taking
   removes one key, and a tick removes exactly the keys it reports.
   */
  lemma RefinesMap(t: Table, x: Task, k: nat)
    requires Valid(t)
    ensures t.processed < x.num && (forall y :: y in Live(t) ==> y.num < x.num) ==>
      AsMap(Live(Register(t, x))) == AsMap(Live(t))[x.num := x]
    ensures AsMap(Live(DrainAll(t))) == AsMap(Live(t))
    ensures (exists y :: y in Filed(t) && y.num == k) ==> AsMap(Live(Erase(t, k))) == AsMap(Live(t)) - {k}
    ensures AsMap(Live(Tick(t))) == AsMap(Live(t)) - AsMap(Expired(t)).Keys
  {
    if t.processed < x.num && forall y :: y in Live(t) ==> y.num < x.num {
      RegisterKeepsValid(t, x);
      AsMapAppend(Live(t), x);
    }
    DrainAllKeepsLive(t);
    if exists y :: y in Filed(t) && y.num == k {
      EraseKeepsValid(t, k);
      AsMapWithout(Live(t), k);
    }
    TickKeepsValid(t);
    AsMapDrop(Expired(t), Live(Tick(t)));
  }

  lemma {:induction false} AsMapDrop(a: seq<Task>, b: seq<Task>)
    requires Ascending(a + b)
    ensures AsMap(b) == AsMap(a + b) - AsMap(a).Keys
  {
    if a == [] {
      assert a + b == b;
    } else {
      var x, rest := a[0], a[1..] + b;
      assert (a + b)[1..] == rest && (a + b)[0] == x;
      assert Ascending(rest) && forall y :: y in rest ==> y.num != x.num;
      hide Ascending;
      AsMapDrop(a[1..], b);
      AsMapKeys(rest, x.num);
      MapMinus(AsMap(rest), x, AsMap(a[1..]).Keys);
      assert AsMap(a).Keys == AsMap(a[1..]).Keys + {x.num};
    }
  }
}
