/**
 ClientTaskTimer as the object it is: ordered maps, a queue of past seconds and two shortcut
 bounds, all updated in place. A ghost field holds the value of TaskTable that the object stands
 for; every method is proved against the operation of the same name on that value.
 */
module TaskTimer {
  import opened Errors
  import opened TaskTable

  datatype Poll<+T> = Pending | Ready(value: T)

  /** The ordered map `m` lists the tasks of `s`, in that order, under their numbers. */
  ghost predicate Represents(m: map<nat, Task>, s: seq<Task>) {
    && Ascending(s)
    && (forall x :: x in s ==> x.num in m && m[x.num] == x)
    && (forall k :: k in m ==> m[k].num == k && m[k] in s)
  }

  ghost predicate RepresentsAll(q: seq<map<nat, Task>>, d: seq<seq<Task>>) {
    |q| == |d| && forall i :: 0 <= i < |q| ==> Represents(q[i], d[i])
  }

  lemma RepresentsCons(m: map<nat, Task>, s: seq<Task>, q: seq<map<nat, Task>>, d: seq<seq<Task>>)
    requires Represents(m, s) && RepresentsAll(q, d)
    ensures RepresentsAll([m] + q, [s] + d)
  {
  }

  lemma RepresentsAppend(m: map<nat, Task>, s: seq<Task>, x: Task)
    requires Represents(m, s) && forall y :: y in s ==> y.num < x.num
    ensures Represents(m[x.num := x], s + [x])
  {
  }

  lemma RepresentsWithout(m: map<nat, Task>, s: seq<Task>, k: nat)
    requires Represents(m, s)
    ensures Represents(m - {k}, Without(s, k))
  {
    WithoutAscending(s, k);
  }

  lemma FirstIsLeast(m: map<nat, Task>, s: seq<Task>)
    requires Represents(m, s) && s != []
    ensures s[0].num in m && m[s[0].num] == s[0]
    ensures forall k :: k in m ==> s[0].num <= k
    ensures Represents(m - {s[0].num}, s[1..])
  {
  }

  lemma NothingRepresented()
    ensures Represents(map[], [])
  {
  }

  lemma EmptyRepresents(m: map<nat, Task>, s: seq<Task>)
    requires Represents(m, s)
    ensures m == map[] <==> s == []
  {
    if s != [] {
      FirstIsLeast(m, s);
    }
  }

  method PopLeast(m: map<nat, Task>, ghost s: seq<Task>) returns (k: nat, rest: map<nat, Task>)
    requires Represents(m, s) && s != []
    ensures k in m && m[k] == s[0] && k == s[0].num
    ensures rest == m - {k} && Represents(rest, s[1..])
    ensures rest == map[] <==> s[1..] == []
  {
    FirstIsLeast(m, s);
    k :| k in m && forall j :: j in m ==> k <= j;
    rest := m - {k};
    EmptyRepresents(rest, s[1..]);
  }

  function Nums(s: seq<Task>): (r: seq<nat>)
    ensures |r| == |s|
    ensures forall i :: 0 <= i < |s| ==> r[i] == s[i].num
  {
    if s == [] then [] else [s[0].num] + Nums(s[1..])
  }

  /** Iterating an ordered map visits its keys in ascending order. */
  method KeysInOrder(m: map<nat, Task>, ghost s: seq<Task>) returns (ks: seq<nat>)
    requires Represents(m, s)
    ensures ks == Nums(s)
  {
    hide Represents;
    ks := [];
    var rest := m;
    ghost var todo := s;
    EmptyRepresents(rest, todo);
    while rest != map[]
      invariant ks + Nums(todo) == Nums(s)
      invariant Represents(rest, todo) && (rest == map[] <==> todo == [])
      decreases |todo|
    {
      var k;
      k, rest := PopLeast(rest, todo);
      assert Nums(todo) == [k] + Nums(todo[1..]);
      ks, todo := ks + [k], todo[1..];
    }
  }

  /** Take every task out of a batch, in order, and report it with the given error. */
  method ReportBatch(m: map<nat, Task>, e: RpcIntErr, ghost s: seq<Task>)
    returns (left: map<nat, Task>, log: seq<Resolution>)
    requires Represents(m, s)
    ensures left == map[] && log == Tag(s, Failed(e))
  {
    hide Represents;
    var keys := KeysInOrder(m, s);
    left, log := m, [];
    assert s[0..] == s;
    for i := 0 to |keys|
      invariant Represents(left, s[i..])
      invariant |log| == i && forall j :: 0 <= j < i ==> log[j] == Resolution(s[j], Failed(e))
    {
      FirstIsLeast(left, s[i..]);
      log := log + [Resolution(left[keys[i]], Failed(e))];
      left := left - {keys[i]};
      assert s[i..][1..] == s[i + 1..];
    }
    EmptyRepresents(left, s[|keys|..]);
  }

  /** Report a whole queue of batches, newest first. */
  method ReportQueue(q: seq<map<nat, Task>>, e: RpcIntErr, ghost d: seq<seq<Task>>)
    returns (left: seq<map<nat, Task>>, log: seq<Resolution>)
    requires RepresentsAll(q, d)
    ensures RepresentsAll(left, EmptyBatches(|d|))
    ensures log == Tag(NewestFirst(d), Failed(e))
  {
    left, log := [], [];
    for j := 0 to |q|
      invariant |left| == j && (forall i :: 0 <= i < j ==> left[i] == map[])
      invariant log == Tag(NewestFirst(d[..j]), Failed(e))
    {
      var m, l := ReportBatch(q[j], e, d[j]);
      left, log := left + [m], log + l;
      assert d[..j + 1] == d[..j] + [d[j]];
      NewestFirstSnoc(d[..j], d[j]);
      TagConcat(NewestFirst(d[..j]), d[j], Failed(e));
    }
    assert d[..|q|] == d;
  }

  lemma InOrder(m: map<nat, Task>, s: seq<Task>)
    requires Represents(m, s)
    ensures forall i :: 0 <= i < |s| ==> s[i].num in m && m[s[i].num] == s[i] && s[0].num <= s[i].num
  {
    forall i | 0 <= i < |s| ensures s[i].num in m && m[s[i].num] == s[i] && s[0].num <= s[i].num {
      assert s[i] in s;
    }
  }

  /** Report an expired batch and find the bound below which everything has timed out. */
  method TimeOutBatch(m: map<nat, Task>, ghost s: seq<Task>) returns (minSeq: nat, log: seq<Resolution>)
    requires Represents(m, s) && forall x :: x in s ==> x.num > 0
    ensures log == Tag(s, Failed(Timeout))
    ensures minSeq == if s == [] then 0 else s[0].num
  {
    hide Represents, Ascending;
    var keys := KeysInOrder(m, s);
    InOrder(m, s);
    minSeq, log := 0, [];
    for i := 0 to |keys|
      invariant log == Tag(s[..i], Failed(Timeout))
      invariant minSeq == if i == 0 then 0 else s[0].num
    {
      assert s[i] in s;
      var task := m[keys[i]];
      assert task == s[i];
      if minSeq == 0 || minSeq > task.num {
        minSeq := task.num;
      }
      log := log + [Resolution(task, Failed(Timeout))];
      assert log == Tag(s[..i + 1], Failed(Timeout));
    }
    assert s[..|keys|] == s;
  }

  /** Cut an overlong queue of batches: its oldest batch is reported as timed out. */
  method AgeQueue(q: seq<map<nat, Task>>, timeout: nat, ghost t: Table)
    returns (left: seq<map<nat, Task>>, minSeq: nat, log: seq<Resolution>)
    requires TaskTable.Valid(t) && t.timeout == timeout && RepresentsAll(q, Aged(t))
    ensures RepresentsAll(left, Tick(t).delayed)
    ensures log == Tag(Expired(t), Failed(Timeout))
    ensures minSeq == if Expired(t) == [] then 0 else Expired(t)[0].num
    ensures minSeq == 0 <==> Expired(t) == []
  {
    ExpiredIsPositive(t);
    left, minSeq, log := q, 0, [];
    if |q| > timeout {
      var realTimeout := q[|q| - 1];
      left := q[..|q| - 1];
      EmptyRepresents(realTimeout, Expired(t));
      if realTimeout != map[] {
        minSeq, log := TimeOutBatch(realTimeout, Expired(t));
        assert Expired(t)[0] in Expired(t);
      }
    }
  }

  method QueueEmpty(q: seq<map<nat, Task>>, ghost d: seq<seq<Task>>) returns (empty: bool)
    requires RepresentsAll(q, d)
    ensures empty <==> FlatDelayed(d) == []
  {
    for j := 0 to |q|
      invariant forall i :: 0 <= i < j ==> d[i] == []
    {
      EmptyRepresents(q[j], d[j]);
      if q[j] != map[] {
        InDelayed(d, j, d[j][0]);
        return false;
      }
    }
    AllEmpty(d);
    return true;
  }

  lemma TagConcat(a: seq<Task>, b: seq<Task>, o: Outcome)
    ensures Tag(a + b, o) == Tag(a, o) + Tag(b, o)
  {
  }

  lemma {:induction false} NewestFirstSnoc(q: seq<seq<Task>>, b: seq<Task>)
    ensures NewestFirst(q + [b]) == NewestFirst(q) + b
  {
    if q == [] {
      assert ([b])[1..] == [];
    } else {
      assert (q + [b])[1..] == q[1..] + [b];
      NewestFirstSnoc(q[1..], b);
    }
  }

  class ClientTaskTimer {
    var pendingTasks: seq<Task>               // registration channel
    const capacity: nat
    var pendingCount: nat                     // raised by the sender, lowered here
    var sentTasks: map<nat, Task>             // this second
    var delayQueue: seq<map<nat, Task>>       // past seconds, newest first
    var minDelaySeq: nat
    const taskTimeout: nat
    var processedSeq: nat
    var regStopped: bool
    var handled: seq<Resolution>              // calls of error_handle, in order
    ghost var table: Table

    ghost predicate Valid()
      reads this
    {
      && table.chan == pendingTasks && table.minDelay == minDelaySeq && table.processed == processedSeq
      && table.stopped == regStopped && table.timeout == taskTimeout
      && Represents(sentTasks, table.sent)
      && RepresentsAll(delayQueue, table.delayed)
      && TaskTable.Valid(table)
      && |pendingTasks| <= pendingCount
    }

    constructor (timeout: nat, thresholds: nat)
      ensures Valid() && table == Init(timeout)
      ensures handled == [] && pendingCount == 0
      ensures capacity == 2 * (if thresholds == 0 then 500 else thresholds)
    {
      capacity := 2 * (if thresholds == 0 then 500 else thresholds);
      pendingTasks, pendingCount, sentTasks, delayQueue := [], 0, map[], [];
      minDelaySeq, taskTimeout, processedSeq, regStopped, handled := 0, timeout, 0, false, [];
      table := Init(timeout);
      new;
      hide Represents, TaskTable.Valid;
      NothingRepresented();
      InitValid(timeout);
    }

    /** Sender side: the call has raised the counter and the channel has room. */
    method RegTask(x: Task)
      requires Valid() && |pendingTasks| < capacity && |pendingTasks| < pendingCount
      requires processedSeq < x.num && forall y :: y in Live(table) ==> y.num < x.num
      modifies this`pendingTasks, this`table
      ensures Valid() && table == Register(old(table), x)
      ensures Live(table) == old(Live(table)) + [x]
    {
      RegisterKeepsValid(table, x);
      pendingTasks := pendingTasks + [x];
      table := Register(table, x);
    }

    method StopRegTask()
      requires Valid()
      modifies this`regStopped, this`table
      ensures Valid() && table == old(table).(stopped := true)
    {
      assert Live(table.(stopped := true)) == Live(table) && Filed(table.(stopped := true)) == Filed(table);
      regStopped := true;
      table := table.(stopped := true);
    }

    /** One channel entry is received and filed. */
    method GotPendingTask()
      requires Valid() && pendingTasks != []
      modifies this`pendingTasks, this`pendingCount, this`processedSeq, this`sentTasks, this`table
      ensures Valid() && table == DrainOne(old(table))
      ensures pendingCount == old(pendingCount) - 1
    {
      hide Represents, RepresentsAll, Ascending, FlatDelayed;
      var x := pendingTasks[0];
      DrainOneKeepsLive(table);
      InsertIsAppend(table);
      RepresentsAppend(sentTasks, table.sent, x);
      pendingTasks := pendingTasks[1..];
      pendingCount := pendingCount - 1;
      processedSeq := x.num;
      sentTasks := sentTasks[x.num := x];
      table := DrainOne(table);
    }

    /** Drain the channel; the live tasks stay what they were. */
    method PollSentTask() returns (got: bool)
      requires Valid()
      modifies this`pendingTasks, this`pendingCount, this`processedSeq, this`sentTasks, this`table
      ensures Valid() && table == DrainAll(old(table))
      ensures got <==> old(pendingTasks) != []
      ensures pendingCount == old(pendingCount) - |old(pendingTasks)|
      ensures Live(table) == old(Live(table))
    {
      got := false;
      DrainAllKeepsLive(table);
      while pendingTasks != []
        invariant Valid()
        invariant DrainAll(table) == DrainAll(old(table))
        invariant got <==> |pendingTasks| < |old(pendingTasks)|
        invariant pendingCount - |pendingTasks| == old(pendingCount) - |old(pendingTasks)|
        invariant |pendingTasks| <= |old(pendingTasks)|
        decreases |pendingTasks|
      {
        GotPendingTask();
        got := true;
      }
    }

    /** Every task still known is reported with an IO error, and nothing stays behind. */
    method CleanPendingTasks()
      requires Valid()
      modifies this
      ensures Valid() && table == Flushed(DrainAll(old(table)))
      ensures Live(table) == []
      ensures handled == old(handled) + Tag(FlushOrder(DrainAll(old(table))), Failed(IO))
      ensures pendingCount == old(pendingCount) - |old(pendingTasks)|
    {
      var _ := PollSentTask();
      DrainAllKeepsLive(old(table));
      FlushFiled();
    }

    method FlushFiled()
      requires Valid()
      modifies this`sentTasks, this`delayQueue, this`handled, this`table
      ensures Valid() && table == Flushed(old(table)) && Live(table) == old(table).chan
      ensures handled == old(handled) + Tag(FlushOrder(old(table)), Failed(IO))
    {
      hide Represents, RepresentsAll, Ascending, TaskTable.Valid;
      FlushedKeepsValid(table);
      NothingRepresented();
      TagConcat(table.sent, NewestFirst(table.delayed), Failed(IO));
      var log1, log2;
      sentTasks, log1 := ReportBatch(sentTasks, IO, table.sent);
      delayQueue, log2 := ReportQueue(delayQueue, IO, table.delayed);
      handled := handled + (log1 + log2);
      table := Flushed(table);
    }

    /** Empty means that no task is live, in the channel included. */
    method CheckPendingTasksEmpty() returns (empty: bool)
      requires Valid()
      modifies this`pendingTasks, this`pendingCount, this`processedSeq, this`sentTasks, this`table
      ensures Valid() && table == DrainAll(old(table))
      ensures empty <==> Live(old(table)) == []
    {
      var _ := PollSentTask();
      DrainAllKeepsLive(old(table));
      EmptyRepresents(sentTasks, table.sent);
      if sentTasks != map[] {
        return false;
      }
      empty := QueueEmpty(delayQueue, table.delayed);
    }

    /** One second passes: batches age, and the oldest one beyond the limit times out. */
    method AdjustTaskQueue()
      requires Valid()
      modifies this`sentTasks, this`delayQueue, this`minDelaySeq, this`handled, this`table
      ensures Valid() && table == Tick(old(table))
      ensures handled == old(handled) + Tag(Expired(old(table)), Failed(Timeout))
      ensures Live(old(table)) == Expired(old(table)) + Live(table)
      ensures old(minDelaySeq) <= minDelaySeq
    {
      hide Represents, RepresentsAll, Ascending, TaskTable.Valid, FlatDelayed;
      TickKeepsValid(table);
      NothingRepresented();
      RepresentsCons(sentTasks, table.sent, delayQueue, table.delayed);
      var minSeq, log;
      delayQueue, minSeq, log := AgeQueue([sentTasks] + delayQueue, taskTimeout, table);
      sentTasks := map[];
      handled := handled + log;
      if minSeq != 0 {
        minDelaySeq := minSeq;
      }
      ghost var t := Tick(table);
      assert t.sent == [] && t.minDelay == minDelaySeq && t.chan == pendingTasks;
      table := t;
    }

    /** Look a filed task up: this second first, then the past seconds from the newest. */
    method RemoveFiled(k: nat) returns (r: Option<Task>)
      requires Valid()
      modifies this`sentTasks, this`delayQueue, this`table
      ensures Valid()
      ensures r.Some? ==> r.value in Filed(old(table)) && r.value.num == k && table == Erase(old(table), k)
      ensures r.None? ==> table == old(table) && forall x :: x in Filed(table) ==> x.num != k
    {
      hide Represents, RepresentsAll, Ascending, TaskTable.Valid, FlatDelayed, Without, WithoutEach;
      RepresentsWithout(sentTasks, table.sent, k);
      LookUp(sentTasks, table.sent, k);
      if k in sentTasks {
        r := Some(sentTasks[k]);
        EraseFromSent(table, r.value);
        ghost var t := Erase(table, k);
        assert t.sent == Without(table.sent, k) && t.delayed == table.delayed;
        sentTasks, table := sentTasks - {k}, t;
        assert RepresentsAll(delayQueue, table.delayed);
        return;
      }
      DelayedAscending(table);
      r, delayQueue := RemoveFromQueue(delayQueue, k, table.delayed);
      if r.Some? {
        assert r.value in Filed(table);
        EraseKeepsValid(table, k);
        ghost var t := Erase(table, k);
        assert t.sent == table.sent && t.delayed == WithoutEach(table.delayed, k);
        table := t;
      }
    }

    /**
     One poll of take_task: the first poll checks the time-out bound, later polls resume the wait for
     registration. A found task leaves the table; otherwise the live tasks do not change.
     */
    method PollTakeTask(k: nat, resumed: bool) returns (r: Poll<Option<Task>>)
      requires Valid()
      modifies this`pendingTasks, this`pendingCount, this`processedSeq, this`sentTasks, this`delayQueue, this`table
      ensures Valid()
      ensures r.Ready? && r.value.Some? ==>
        && r.value.value in Live(old(table)) && r.value.value.num == k
        && Live(table) == Without(Live(old(table)), k)
      ensures r.Pending? || r.value.None? ==> Live(table) == Live(old(table))
      ensures r.Ready? && r.value.Some? <==> Knows(old(table), k) && !(regStopped && old(processedSeq) < k)
      ensures r.Pending? <==> !regStopped && old(processedSeq) < k && forall x :: x in old(pendingTasks) ==> x.num < k
    {
      if !resumed && k < minDelaySeq {
        return Ready(None);
      }
      if k > processedSeq {
        if regStopped {
          return Ready(None);
        }
        var got := PollSentTask();
        ChannelBound(old(table), k);
        if !(got && processedSeq >= k) {
          return Pending;
        }
      }
      ghost var t := table;
      var found := RemoveFiled(k);
      FiledWhenProcessed(t, k);
      if found.Some? {
        EraseKeepsValid(t, k);
      }
      return Ready(found);
    }
  }

  // ----- lemmas behind the methods

  lemma InsertIsAppend(t: Table)
    requires TaskTable.Valid(t) && t.chan != []
    ensures forall y :: y in t.sent ==> y.num < t.chan[0].num
  {
  }

  /** Find a task among the past seconds and take it out of its batch. */
  method RemoveFromQueue(q: seq<map<nat, Task>>, k: nat, ghost d: seq<seq<Task>>)
    returns (r: Option<Task>, q': seq<map<nat, Task>>)
    requires RepresentsAll(q, d)
    requires Ascending(FlatDelayed(d))
    ensures r.Some? ==>
      r.value in FlatDelayed(d) && r.value.num == k && RepresentsAll(q', WithoutEach(d, k))
    ensures r.None? ==> q' == q && forall x :: x in FlatDelayed(d) ==> x.num != k
  {
    for j := 0 to |q|
      invariant forall i :: 0 <= i < j ==> k !in q[i]
    {
      if k in q[j] {
        var x := q[j][k];
        r, q' := Some(x), q[j := q[j] - {k}];
        InDelayed(d, j, x);
        RepresentsWithout(q[j], d[j], k);
        OnlyBatch(d, j, x);
        return;
      }
    }
    forall x | x in FlatDelayed(d) ensures x.num != k {
      var i := BatchOf(d, x);
    }
    return None, q;
  }

  lemma LookUp(m: map<nat, Task>, s: seq<Task>, k: nat)
    requires Represents(m, s)
    ensures k in m ==> m[k] in s && m[k].num == k
    ensures k !in m ==> Without(s, k) == s && forall x :: x in s ==> x.num != k
  {
    if k !in m {
      WithoutAbsent(s, k);
    }
  }

  lemma {:induction false} AllEmpty(q: seq<seq<Task>>)
    requires forall i :: 0 <= i < |q| ==> q[i] == []
    ensures FlatDelayed(q) == []
  {
    if q != [] {
      AllEmpty(q[1..]);
    }
  }

  lemma {:induction false} BatchOf(q: seq<seq<Task>>, x: Task) returns (i: nat)
    requires x in FlatDelayed(q)
    ensures i < |q| && x in q[i]
  {
    if x in q[0] {
      i := 0;
    } else {
      i := BatchOf(q[1..], x);
      i := i + 1;
    }
  }

  lemma ExpiredIsPositive(t: Table)
    requires TaskTable.Valid(t)
    ensures forall x :: x in Expired(t) ==> x.num > 0
    ensures Ascending(Expired(t))
  {
    TickFlat(t);
    var s := Expired(t) + Live(Tick(t));
    assert forall i :: 0 <= i < |Expired(t)| ==> s[i] == Expired(t)[i];
    assert forall x :: x in Expired(t) ==> x in Live(t);
  }

  lemma ChannelBound(t: Table, k: nat)
    requires TaskTable.Valid(t) && t.processed < k
    ensures DrainAll(t).processed < k <==> forall x :: x in t.chan ==> x.num < k
  {
    DrainAllKeepsLive(t);
    if t.chan != [] {
      var last := t.chan[|t.chan| - 1];
      assert last in t.chan;
      forall x | x in t.chan ensures x.num <= last.num {
        var i :| 0 <= i < |t.chan| && t.chan[i] == x;
        assert Live(t)[|Filed(t)| + i] == x && Live(t)[|Filed(t)| + |t.chan| - 1] == last;
      }
    }
  }

  /** Below the processed bound, whatever is live has been filed. */
  lemma FiledWhenProcessed(t: Table, k: nat)
    requires TaskTable.Valid(t) && k <= t.processed
    ensures Knows(t, k) <==> exists x :: x in Filed(t) && x.num == k
  {
  }

  lemma EraseFromSent(t: Table, x: Task)
    requires TaskTable.Valid(t) && x in t.sent
    ensures TaskTable.Valid(Erase(t, x.num))
    ensures WithoutEach(t.delayed, x.num) == t.delayed
  {
    assert x in Filed(t);
    EraseKeepsValid(t, x.num);
    forall i | 0 <= i < |t.delayed| ensures Without(t.delayed[i], x.num) == t.delayed[i] {
      forall y | y in t.delayed[i] ensures y.num != x.num {
        InDelayed(t.delayed, i, y);
        SplitAscending(FlatDelayed(t.delayed), t.sent, t.chan, y, x);
      }
      WithoutAbsent(t.delayed[i], x.num);
    }
  }

  lemma SplitAscending(a: seq<Task>, b: seq<Task>, c: seq<Task>, y: Task, x: Task)
    requires Ascending(a + b + c) && y in a && x in b
    ensures y.num < x.num
  {
    var s := a + b + c;
    var i :| 0 <= i < |a| && a[i] == y;
    var j :| 0 <= j < |b| && b[j] == x;
    assert s[i] == y && s[|a| + j] == x;
  }

  lemma OnlyBatch(d: seq<seq<Task>>, j: nat, x: Task)
    requires Ascending(FlatDelayed(d)) && j < |d| && x in d[j]
    ensures forall i :: 0 <= i < |d| && i != j ==> WithoutEach(d, x.num)[i] == d[i]
  {
    forall i | 0 <= i < |d| && i != j ensures Without(d[i], x.num) == d[i] {
      forall y | y in d[i] ensures y.num != x.num {
        BatchesDiffer(d, i, y, j, x);
      }
      WithoutAbsent(d[i], x.num);
    }
  }

  lemma DelayedAscending(t: Table)
    requires TaskTable.Valid(t)
    ensures Ascending(FlatDelayed(t.delayed))
  {
    assert Live(t) == FlatDelayed(t.delayed) + (t.sent + t.chan);
    AscendingPrefix(FlatDelayed(t.delayed), t.sent + t.chan);
  }

  lemma AscendingPrefix(a: seq<Task>, b: seq<Task>)
    requires Ascending(a + b)
    ensures Ascending(a)
  {
    assert forall i :: 0 <= i < |a| ==> (a + b)[i] == a[i];
  }

  lemma {:induction false} BatchesDiffer(q: seq<seq<Task>>, i: nat, y: Task, j: nat, x: Task)
    requires Ascending(FlatDelayed(q)) && i < |q| && j < |q| && i != j && y in q[i] && x in q[j]
    ensures y.num != x.num
  {
    var a := FlatDelayed(q[1..]);
    if i == 0 {
      InDelayed(q[1..], j - 1, x);
      SplitAscending(a, q[0], [], x, y);
    } else if j == 0 {
      InDelayed(q[1..], i - 1, y);
      SplitAscending(a, q[0], [], y, x);
    } else {
      AscendingPrefix(a, q[0]);
      BatchesDiffer(q[1..], i - 1, y, j - 1, x);
    }
  }
}
