/** What every run of a failover pool guarantees about retries, next nodes, leaders and fairness. */
module FailoverTheorems {
  import opened Errors
  import opened Cluster
  import opened FailoverRuns
  import Rotation

  // ----- retries

  /** A retry under an unchanged configuration goes back to the pool it came from only if no other answers. */
  lemma RetryLeavesPool(s: State, id: nat, probe: nat -> bool)
    requires Inv(s) && id in s.tasks && s.tasks[id].epoch == |s.hist| - 1
    requires Enabled(s, Retry(id, |s.hist| - 1, probe))
    ensures var s' := Step(s, Retry(id, |s.hist| - 1, probe));
      var t, l := s.tasks[id], |Current(s).pools|;
      id in s'.tasks ==>
        && s'.tasks[id].lastIndex > t.lastIndex
        && (Rotation.Slot(s'.tasks[id].lastIndex, l) == Rotation.Slot(t.lastIndex, l) ==>
              forall j: nat :: t.lastIndex < j < t.lastIndex + l ==> !probe(j))
  {
    hide Rotation.Slot, VersInv, Found;
    var t, c := s.tasks[id], Current(s);
    assert Stamped(s.hist, t);
    var r := SelectFrom(probe, t.lastIndex + 1, |c.pools|);
    if r.Some? {
      Rotation.RetryLeaves(probe, |c.pools|, t.lastIndex, r.value);
    }
  }

  // ----- where each selection goes

  ghost predicate NoneUp(probe: nat -> bool, seed: nat, l: nat) {
    forall j: nat :: seed <= j < seed + l ==> !probe(j)
  }

  /**
   Task `id` is handed to the first position from `seed` on that answers healthy on configuration `ep`,
   stamped with that configuration, or given up if and only if no position answers. No other task moves.
   */
  ghost predicate Routed(s: State, s': State, id: nat, ep: nat, seed: nat, probe: nat -> bool)
    requires ep < |s.hist|
  {
    var c := s.hist[ep];
    && (id !in s'.tasks <==> NoneUp(probe, seed, |c.pools|))
    && (forall p :: 0 <= p < |c.pools| && Distinct(c.pools) ==>
          ((id in s'.tasks && s'.tasks[id].sentTo == c.pools[p]) <==>
           Rotation.FirstUp(probe, seed, Rotation.Ahead(seed, |c.pools|, p))))
    && (id in s'.tasks ==> s'.tasks[id].configVer == c.ver && s'.tasks[id].epoch == ep)
    && s'.tasks - {id} == s.tasks - {id} && s'.hist == s.hist && s'.leaders == s.leaders
  }

  lemma PlaceRoutes(s: State, id: nat, ep: nat, seed: nat, probe: nat -> bool)
    requires ep < |s.hist|
    ensures Routed(s, Place(s, id, ep, seed, probe), id, ep, seed, probe)
  {
    hide Rotation.Slot, Rotation.FirstUp, Rotation.Ahead, Place, Distinct;
    PlacedOrNot(s, id, ep, seed, probe);
    var c := s.hist[ep];
    forall p | 0 <= p < |c.pools| && Distinct(c.pools)
      ensures (id in Place(s, id, ep, seed, probe).tasks && Place(s, id, ep, seed, probe).tasks[id].sentTo == c.pools[p]) <==>
              Rotation.FirstUp(probe, seed, Rotation.Ahead(seed, |c.pools|, p))
    {
      PlacedAt(s, id, ep, seed, probe, p);
    }
  }

  lemma PlacedOrNot(s: State, id: nat, ep: nat, seed: nat, probe: nat -> bool)
    requires ep < |s.hist|
    ensures var s', c := Place(s, id, ep, seed, probe), s.hist[ep];
      && (id !in s'.tasks <==> NoneUp(probe, seed, |c.pools|))
      && (id in s'.tasks ==> s'.tasks[id].configVer == c.ver && s'.tasks[id].epoch == ep)
      && s'.tasks - {id} == s.tasks - {id} && s'.hist == s.hist && s'.leaders == s.leaders
      && s'.nextNode == s.nextNode && s'.refused == s.refused
  {
    hide Rotation.Slot;
  }

  /** A first selection moves the shared counter in stateless mode only, and not for an empty cluster. */
  ghost predicate CounterMoves(s: State, s': State, ep: nat)
    requires ep < |s.hist|
  {
    s'.nextNode == s.nextNode + if s.stateless && s.hist[ep].pools != [] then 1 else 0
  }

  /** A fresh request starts at the shared counter. */
  lemma SendRoutes(s: State, id: nat, ep: nat, probe: nat -> bool)
    requires Enabled(s, Send(id, ep, probe))
    ensures var s' := Step(s, Send(id, ep, probe));
      Routed(s, s', id, ep, s.nextNode, probe) && CounterMoves(s, s', ep) && s'.refused == s.refused
  {
    hide Rotation.Slot, Place;
    PlaceRoutes(Bump(s, ep), id, ep, s.nextNode, probe);
    PlacedOrNot(Bump(s, ep), id, ep, s.nextNode, probe);
  }

  /**
   A retry, in either mode: if the configuration it reads is not the one the task is stamped with,
   selection starts over at the shared counter; otherwise it goes on after the task's own index and
   leaves the counter alone.
   */
  lemma RetryRoutes(s: State, id: nat, ep: nat, probe: nat -> bool)
    requires Enabled(s, Retry(id, ep, probe))
    ensures var s' := Step(s, Retry(id, ep, probe));
      && s'.refused == s.refused
      && (s.hist[ep].ver != s.tasks[id].configVer ==>
            Routed(s, s', id, ep, s.nextNode, probe) && CounterMoves(s, s', ep))
      && (s.hist[ep].ver == s.tasks[id].configVer ==>
            Routed(s, s', id, ep, s.tasks[id].lastIndex + 1, probe) && s'.nextNode == s.nextNode)
  {
    hide Rotation.Slot, Place, Routed;
    if s.hist[ep].ver == s.tasks[id].configVer {
      PlaceRoutes(s, id, ep, s.tasks[id].lastIndex + 1, probe);
      PlacedOrNot(s, id, ep, s.tasks[id].lastIndex + 1, probe);
    } else {
      SendLike(s, id, ep, probe);
    }
  }

  lemma SendLike(s: State, id: nat, ep: nat, probe: nat -> bool)
    requires ep < |s.hist|
    ensures var s' := Place(Bump(s, ep), id, ep, s.nextNode, probe);
      Routed(s, s', id, ep, s.nextNode, probe) && CounterMoves(s, s', ep) && s'.refused == s.refused
  {
    hide Rotation.Slot, Place;
    PlaceRoutes(Bump(s, ep), id, ep, s.nextNode, probe);
    PlacedOrNot(Bump(s, ep), id, ep, s.nextNode, probe);
  }

  /** The next node starts after the reported index, whatever the version, and leaves the counter alone. */
  lemma NextNodeRoutes(s: State, id: nat, ep: nat, probe: nat -> bool)
    requires Enabled(s, NextNode(id, ep, probe))
    ensures var s' := Step(s, NextNode(id, ep, probe));
      && Routed(s, s', id, ep, s.refused[id].lastIndex + 1, probe)
      && s'.nextNode == s.nextNode && s'.refused == s.refused - {id}
  {
    hide Rotation.Slot, Place;
    var base := s.(refused := s.refused - {id});
    PlaceRoutes(base, id, ep, s.refused[id].lastIndex + 1, probe);
    PlacedOrNot(base, id, ep, s.refused[id].lastIndex + 1, probe);
  }

  /** An update publishes exactly the requested addresses and moves no task, leader or counter. */
  lemma UpdateRoutes(s: State, addrs: seq<string>)
    requires IdInv(s)
    ensures var s' := Step(s, Update(addrs));
      && |s'.hist| == |s.hist| + 1 && s.hist <= s'.hist
      && Addrs(Current(s').pools) == addrs && Current(s').ver == NextVer(Current(s).ver)
      && (forall k :: 0 <= k < |addrs| ==>
            if addrs[k] in ByAddr(Current(s).pools) && addrs[k] !in addrs[..k]
            then Current(s').pools[k] == ByAddr(Current(s).pools)[addrs[k]]
            else Current(s').pools[k] !in Current(s).pools)
      && s'.tasks == s.tasks && s'.refused == s.refused && s'.leaders == s.leaders && s'.nextNode == s.nextNode
  {
    hide Rebuild, ByAddr, GoodPools, NextVer, Addrs;
    assert GoodPools(Current(s).pools, s.nextId);
    UpdatedPools(Current(s).pools, addrs, s.nextId);
  }

  /** A finished task is gone, a refused one is back at the caller, and a store uses up its own redirect only. */
  lemma EndRoutes(s: State, e: Event)
    requires Enabled(s, e) && (e.Done? || e.Refuse? || e.StoreLeader?)
    ensures var s' := Step(s, e);
      && s'.hist == s.hist
      && (e.StoreLeader? ==>
            && s'.tasks == s.tasks && s'.refused == s.refused && |s'.leaders| == |s.leaders| - 1
            && multiset(s'.leaders) == multiset(s.leaders) - multiset{s.leaders[e.n]})
      && (!e.StoreLeader? ==>
            && e.id !in s'.tasks && s'.tasks == s.tasks - {e.id} && s'.leaders == s.leaders && s'.nextNode == s.nextNode
            && s'.refused - {e.id} == s.refused - {e.id}
            && (e.Refuse? ==> e.id in s'.refused && s'.refused[e.id] == s.tasks[e.id])
            && (e.Done? ==> s'.refused == s.refused))
  {
    if e.StoreLeader? {
      assert s.leaders == s.leaders[..e.n] + [s.leaders[e.n]] + s.leaders[e.n + 1..];
    }
  }

  /** A task is with a pool or back at its caller, never both. */
  ghost predicate Apart(s: State) {
    forall id :: id in s.tasks ==> id !in s.refused
  }

  lemma StepApart(s: State, e: Event)
    requires Apart(s) && Enabled(s, e)
    ensures Apart(Step(s, e))
  {
    hide Place, Rotation.Slot, IndexOf, Rebuild, ByAddr;
    match e
    case Send(id, ep, probe) => PlaceApart(Bump(s, ep), id, ep, s.nextNode, probe);
    case Retry(id, ep, probe) =>
      PlaceApart(s, id, ep, s.tasks[id].lastIndex + 1, probe);
      PlaceApart(Bump(s, ep), id, ep, s.nextNode, probe);
    case NextNode(id, ep, probe) =>
      PlaceApart(s.(refused := s.refused - {id}), id, ep, s.refused[id].lastIndex + 1, probe);
    case _ =>
  }

  lemma PlaceApart(s: State, id: nat, ep: nat, seed: nat, probe: nat -> bool)
    requires Apart(s) && ep < |s.hist| && id !in s.refused
    ensures Apart(Place(s, id, ep, seed, probe))
  {
    hide Rotation.Slot, SelectFrom;
  }

  /** In every run no task is submitted and back at its caller at once. */
  lemma {:induction false} NeverInTwoPlaces(s: State, es: seq<Event>)
    requires Apart(s) && Run(s, es).Some?
    ensures Apart(Run(s, es).value)
    decreases |es|
  {
    if es != [] {
      hide Apart, Step, Enabled;
      StepApart(s, es[0]);
      NeverInTwoPlaces(Step(s, es[0]), es[1..]);
    }
  }

  /**
   The witness that versions matter: "a" with index 0 fails a task, "c" is put in front, and the retry
   of a stateful pool restarts at the leader "c", where index 1 would have been "a" again.
   */
  lemma RestartWitness()
    ensures var a, b, c := Pool(0, "a"), Pool(1, "b"), Pool(2, "c");
      var s := State([Config([a, b], 0), Config([c, a, b], 1)], 0, 3, [], map[0 := FTask(0, 0, 0, a)], map[], false);
      && Enabled(s, Retry(0, 1, Up())) && 0 in Step(s, Retry(0, 1, Up())).tasks
      && Step(s, Retry(0, 1, Up())).tasks[0].sentTo == c
  {
    Rotation.SmallSlot(0, 3);
  }

  // ----- the next node after a refusal

  /** The next-node call hands the refused task to the very pool that refused it. */
  ghost predicate Returns(s: State, id: nat, ep: nat, probe: nat -> bool)
    requires Enabled(s, NextNode(id, ep, probe))
  {
    var s' := Step(s, NextNode(id, ep, probe));
    id in s'.tasks && s'.tasks[id].sentTo == s.refused[id].sentTo
  }

  lemma PlacedAt(s: State, id: nat, ep: nat, seed: nat, probe: nat -> bool, p: nat)
    requires ep < |s.hist| && p < |s.hist[ep].pools| && Distinct(s.hist[ep].pools)
    ensures var s' := Place(s, id, ep, seed, probe);
      (id in s'.tasks && s'.tasks[id].sentTo == s.hist[ep].pools[p]) <==>
      Rotation.FirstUp(probe, seed, Rotation.Ahead(seed, |s.hist[ep].pools|, p))
  {
    hide Rotation.Slot, Rotation.FirstUp, Rotation.Ahead;
    Rotation.LandsIff(probe, |s.hist[ep].pools|, seed, p);
  }

  lemma DistinctPools(s: State, ep: nat)
    requires IdInv(s) && ep < |s.hist|
    ensures Distinct(s.hist[ep].pools)
  {
    assert GoodPools(s.hist[ep].pools, s.nextId);
  }

  /**
   Exact condition, for every configuration the call may work on: a refused task returns to the pool
   that refused it if and only if that pool is still there and is the first position after the
   reported index that answers healthy.
   */
  lemma NextNodeReturnsIff(s: State, id: nat, ep: nat, probe: nat -> bool)
    requires IdInv(s) && Enabled(s, NextNode(id, ep, probe))
    ensures var t, ps := s.refused[id], s.hist[ep].pools;
      Returns(s, id, ep, probe) <==>
      exists p :: 0 <= p < |ps| && ps[p] == t.sentTo
        && Rotation.FirstUp(probe, t.lastIndex + 1, Rotation.Ahead(t.lastIndex + 1, |ps|, p))
  {
    hide Rotation.Slot, Rotation.FirstUp, Rotation.Ahead, IdInv, Distinct;
    var t, ps := s.refused[id], s.hist[ep].pools;
    var base := s.(refused := s.refused - {id});
    DistinctPools(s, ep);
    forall p | 0 <= p < |ps| && ps[p] == t.sentTo
      ensures Returns(s, id, ep, probe) <==>
        Rotation.FirstUp(probe, t.lastIndex + 1, Rotation.Ahead(t.lastIndex + 1, |ps|, p))
    {
      PlacedAt(base, id, ep, t.lastIndex + 1, probe, p);
    }
    if Returns(s, id, ep, probe) {
      assert t.sentTo in ps;
    }
  }

  /** How far the refusing pool is ahead of the next position, k pools having been put in front of n. */
  lemma AheadAfterInsertions(i: nat, n: nat, k: nat)
    requires i < n
    ensures Rotation.Ahead(i + 1, n + k, k + i) == if k == 0 then n - 1 else k - 1
  {
    if i + 1 < n + k {
      Rotation.SmallSlot(i + 1, n + k);
    } else {
      Rotation.SlotShift(0, n + k);
      Rotation.SmallSlot(0, n + k);
    }
  }

  /** How many positions past the reported index the refusing pool comes up, less one. */
  ghost function Behind(i: nat, n: nat, k: nat): nat
    requires n > 0
  {
    Rotation.Ahead(i + 1, n + k, k + Rotation.Slot(i, n))
  }

  /** For an index below the old size that is k - 1, and a whole turn less one when nothing was added. */
  lemma BehindIs(i: nat, n: nat, k: nat)
    requires n > 0
    ensures i < n ==> Behind(i, n, k) == if k == 0 then n - 1 else k - 1
    ensures k == 0 ==> Behind(i, n, k) == n - 1
  {
    hide Rotation.Slot, Rotation.Ahead;
    if i < n {
      Rotation.SmallSlot(i, n);
      AheadAfterInsertions(i, n, k);
    }
    if k == 0 {
      Rotation.AheadIs(i + 1, n, Rotation.Slot(i, n));
      Rotation.SlotShift(i, n);
    }
  }

  /**
   The case of redirects only: on a configuration k redirects after the one the task was sent on, it
   returns if and only if the refusing pool's new position is the first healthy one.
   */
  lemma NextNodeAfterInsertions(s: State, id: nat, ep: nat, probe: nat -> bool)
    requires Inv(s) && IdInv(s) && Enabled(s, NextNode(id, ep, probe))
    requires s.refused[id].epoch <= ep && GrownFrom(s.hist, s.refused[id].epoch)
    ensures var t := s.refused[id];
      var n := |s.hist[t.epoch].pools|;
      n > 0 && (Returns(s, id, ep, probe) <==> Rotation.FirstUp(probe, t.lastIndex + 1, Behind(t.lastIndex, n, ep - t.epoch)))
  {
    hide Rotation.Slot, Rotation.FirstUp, Rotation.Ahead, IdInv, Returns, GrownFrom, Found, VersInv;
    var t, ps := s.refused[id], s.hist[ep].pools;
    assert Stamped(s.hist, t);
    var n, k := |s.hist[t.epoch].pools|, ep - t.epoch;
    var p := k + Rotation.Slot(t.lastIndex, n);
    Grown(s.hist, t.epoch, ep);
    assert ps[p] == ps[k..][p - k] == t.sentTo;
    NextNodeReturnsIff(s, id, ep, probe);
    DistinctPools(s, ep);
    assert forall q :: 0 <= q < |ps| && ps[q] == t.sentTo ==> q == p;
  }

  /** Under the configuration it was sent on, the next node is another one unless no other answers. */
  lemma NextNodeLeaves(s: State, id: nat, probe: nat -> bool)
    requires Inv(s) && IdInv(s) && id in s.refused
    requires Enabled(s, NextNode(id, s.refused[id].epoch, probe)) && s.refused[id].epoch == |s.hist| - 1
    ensures var t, n := s.refused[id], |Current(s).pools|;
      n > 0 && (Returns(s, id, t.epoch, probe) <==> Rotation.FirstUp(probe, t.lastIndex + 1, n - 1))
  {
    hide Inv, IdInv, Enabled, Returns, Rotation.FirstUp, Behind;
    NextNodeAfterInsertions(s, id, s.refused[id].epoch, probe);
    BehindIs(s.refused[id].lastIndex, |Current(s).pools|, 0);
  }

  predicate About(e: Event, id: nat) {
    match e
    case StoreLeader(_) => false
    case Update(_) => false
    case _ => e.id == id
  }

  lemma StepSpares(s: State, e: Event, id: nat)
    requires Enabled(s, e) && !About(e, id)
    ensures var s' := Step(s, e);
      && (id in s'.refused <==> id in s.refused) && (id in s.refused ==> s'.refused[id] == s.refused[id])
      && (id in s'.tasks <==> id in s.tasks) && (id in s.tasks ==> s'.tasks[id] == s.tasks[id])
  {
    hide Place, Rotation.Slot, IndexOf, Rebuild, ByAddr;
    match e
    case Send(x, ep, probe) => PlaceSpares(Bump(s, ep), x, ep, s.nextNode, probe, id);
    case Retry(x, ep, probe) =>
      PlaceSpares(s, x, ep, s.tasks[x].lastIndex + 1, probe, id);
      PlaceSpares(Bump(s, ep), x, ep, s.nextNode, probe, id);
    case NextNode(x, ep, probe) =>
      PlaceSpares(s.(refused := s.refused - {x}), x, ep, s.refused[x].lastIndex + 1, probe, id);
    case _ =>
  }

  lemma PlaceSpares(s: State, x: nat, ep: nat, seed: nat, probe: nat -> bool, id: nat)
    requires ep < |s.hist| && x != id
    ensures var s' := Place(s, x, ep, seed, probe);
      && s'.refused == s.refused && (id in s'.tasks <==> id in s.tasks)
      && (id in s.tasks ==> s'.tasks[id] == s.tasks[id])
  {
    hide Rotation.Slot, SelectFrom;
  }

  ghost predicate NoneAbout(es: seq<Event>, id: nat) {
    forall i :: 0 <= i < |es| ==> !About(es[i], id)
  }

  lemma {:induction false} RunSpares(s: State, es: seq<Event>, id: nat)
    requires Run(s, es).Some? && NoneAbout(es, id)
    ensures var s' := Run(s, es).value;
      && (id in s'.refused <==> id in s.refused) && (id in s.refused ==> s'.refused[id] == s.refused[id])
      && (id in s'.tasks <==> id in s.tasks) && (id in s.tasks ==> s'.tasks[id] == s.tasks[id])
    decreases |es|
  {
    if es != [] {
      hide Step, Enabled, About;
      StepSpares(s, es[0], id);
      assert forall i :: 0 <= i < |es[1..]| ==> es[1..][i] == es[i + 1];
      RunSpares(Step(s, es[0]), es[1..], id);
    }
  }

  /**
   Over runs: a task refused under the current configuration, then any sends, retries, redirects and
   stores of other tasks, k of which published a configuration, then its next-node call. With every
   pool healthy and a reduced index, it meets the pool that refused it if and only if exactly one
   configuration was published in between, or none and there is only that pool.
   */
  lemma NextNodeAfterRun(s: State, es: seq<Event>, id: nat, probe: nat -> bool)
    requires Inv(s) && IdInv(s) && id in s.refused && id !in s.tasks && s.refused[id].epoch == |s.hist| - 1
    requires Run(s, es).Some? && NoUpdate(es) && NoneAbout(es, id)
    ensures var s', t, n := Run(s, es).value, s.refused[id], |Current(s).pools|;
      && n > 0 && |s'.hist| >= |s.hist| && Enabled(s', NextNode(id, |s'.hist| - 1, probe))
      && var k, back := |s'.hist| - |s.hist|, Returns(s', id, |s'.hist| - 1, probe);
         && (back <==> Rotation.FirstUp(probe, t.lastIndex + 1, Behind(t.lastIndex, n, k)))
         && (t.lastIndex < n && (forall j: nat :: probe(j)) ==> (back <==> k == 1 || (k == 0 && n == 1)))
  {
    hide Run, Inv, IdInv, Returns, Behind, NoUpdate, NoneAbout;
    var s', t := Run(s, es).value, s.refused[id];
    RunInv(s, es);
    RunIdInv(s, es);
    RunGrows(s, es, |s.hist| - 1);
    RunSpares(s, es, id);
    NextNodeAfterInsertions(s', id, |s'.hist| - 1, probe);
    var n, k := |Current(s).pools|, |s'.hist| - |s.hist|;
    BehindIs(t.lastIndex, n, k);
    if forall j: nat :: probe(j) {
      Rotation.AllUpFirst(probe, t.lastIndex + 1, Behind(t.lastIndex, n, k));
    }
  }

  function Up(): nat -> bool {
    (_: nat) => true
  }

  /** Sending a fresh task to the first pool and having it refused. */
  lemma SentAndRefused(s: State, id: nat, rest: seq<Event>)
    requires s.hist != [] && s.hist[0].pools != [] && s.nextNode == 0 && !s.stateless
    requires id !in s.tasks && id !in s.refused
    ensures Run(s, [Send(id, 0, Up()), Refuse(id)] + rest)
         == Run(s.(refused := s.refused[id := FTask(0, s.hist[0].ver, 0, s.hist[0].pools[0])]), rest)
  {
    var e := Send(id, 0, Up());
    var s1 := Step(s, e);
    Rotation.SmallSlot(0, |s.hist[0].pools|);
    assert s1.tasks - {id} == s.tasks;
    RunCons(s, e, [Refuse(id)] + rest);
    RunCons(s1, Refuse(id), rest);
    assert [e, Refuse(id)] + rest == [e] + ([Refuse(id)] + rest);
  }

  /**
   Such a run from the start: "a" refuses task 0, a redirect of the refused task 1 inserts "c", and the
   next node of task 0 is "a" again.
   */
  lemma NextNodeWitness()
    ensures var es := [Send(0, 0, Up()), Refuse(0)] + ([Send(1, 0, Up()), Refuse(1)] + [Redirect(1, 0, "c")]);
      var r := Run(InitState([Pool(0, "a"), Pool(1, "b")], 2, false), es);
      && r.Some? && Enabled(r.value, NextNode(0, 1, Up())) && r.value.refused[0].sentTo == Pool(0, "a")
      && Returns(r.value, 0, 1, Up())
  {
    hide Run, Returns, Enabled, Inv, IdInv, NoUpdate, NoneAbout, Rotation.FirstUp;
    var more := [Send(1, 0, Up()), Refuse(1)] + [Redirect(1, 0, "c")];
    SentAndRefused(InitState([Pool(0, "a"), Pool(1, "b")], 2, false), 0, more);
    WitnessInv();
    WitnessMore(more);
    NextNodeAfterRun(WitnessState(), more, 0, Up());
    RunSpares(WitnessState(), more, 0);
  }

  ghost function WitnessState(): State {
    State([Config([Pool(0, "a"), Pool(1, "b")], 0)], 0, 2, [], map[], map[0 := FTask(0, 0, 0, Pool(0, "a"))], false)
  }

  lemma WitnessInv()
    ensures Inv(WitnessState()) && IdInv(WitnessState())
  {
    Rotation.SmallSlot(0, 2);
  }

  lemma WitnessMore(more: seq<Event>)
    requires more == [Send(1, 0, Up()), Refuse(1)] + [Redirect(1, 0, "c")]
    ensures var r := Run(WitnessState(), more);
      r.Some? && |r.value.hist| == 2 && NoUpdate(more) && NoneAbout(more, 0)
  {
    hide Run, Step;
    var e, s1 := Redirect(1, 0, "c"), WitnessState();
    SentAndRefused(s1, 1, [e]);
    LastRedirect(s1.(refused := s1.refused[1 := FTask(0, 0, 0, Pool(0, "a"))]), e);
  }

  lemma LastRedirect(s: State, e: Event)
    requires Enabled(s, e) && e.Redirect? && IndexOf(s.hist[e.epoch].pools, e.addr).None? && |s.hist| == 1
    ensures Run(s, [e]).Some? && |Run(s, [e]).value.hist| == 2
  {
    RunCons(s, e, []);
    assert [e] == [e] + [];
  }

  // ----- leaders

  /** Steps that neither publish a configuration nor move the leader. */
  predicate Ordinary(e: Event) {
    !e.Redirect? && !e.StoreLeader? && !e.Update?
  }

  ghost predicate OrdinaryAll(es: seq<Event>) {
    forall i :: 0 <= i < |es| ==> Ordinary(es[i])
  }

  lemma {:induction false} OrdinaryRun(s: State, es: seq<Event>)
    requires !s.stateless && Run(s, es).Some? && OrdinaryAll(es)
    ensures var s' := Run(s, es).value;
      s'.hist == s.hist && s'.nextNode == s.nextNode && s'.stateless == s.stateless
    decreases |es|
  {
    if es != [] {
      hide Rotation.Slot, SelectFrom;
      assert Ordinary(es[0]);
      assert forall i :: 0 <= i < |es[1..]| ==> es[1..][i] == es[i + 1];
      OrdinaryRun(Step(s, es[0]), es[1..]);
    }
  }

  /** With fixed health a stateful pool sends every fresh request to one and the same pool. */
  ghost function LeaderOf(s: State, up: nat -> bool): Option<Pool>
    requires s.hist != []
  {
    var ps := Current(s).pools;
    if ps == [] then None
    else
      match SelectFrom(Rotation.Probe(up, |ps|), s.nextNode, |ps|)
      case None => None
      case Some(i) => Some(ps[Rotation.Slot(i, |ps|)])
  }

  /** A fresh request of task `id` under health `up`, on the current configuration. */
  ghost function FreshSend(s: State, id: nat, up: nat -> bool): Event
    requires s.hist != [] && Current(s).pools != []
  {
    Send(id, |s.hist| - 1, Rotation.Probe(up, |Current(s).pools|))
  }

  lemma LeaderAffinity(s: State, es: seq<Event>, id: nat, up: nat -> bool)
    requires !s.stateless && s.hist != [] && Current(s).pools != [] && Run(s, es).Some? && OrdinaryAll(es)
    requires id !in Run(s, es).value.tasks && id !in Run(s, es).value.refused
    ensures var s1 := Run(s, es).value;
      && Enabled(s1, FreshSend(s, id, up))
      && var s2 := Step(s1, FreshSend(s, id, up));
         && (LeaderOf(s, up).None? ==> id !in s2.tasks)
         && (LeaderOf(s, up).Some? ==> id in s2.tasks && s2.tasks[id].sentTo == LeaderOf(s, up).value)
  {
    hide Run, Rotation.Slot, SelectFrom, OrdinaryAll;
    OrdinaryRun(s, es);
  }

  ghost predicate Leads(s: State, addr: string, up: nat -> bool) {
    s.hist != [] && LeaderOf(s, up).Some? && LeaderOf(s, up).value.addr == addr
  }

  /**
   Exact condition, whatever was published since the lookup: storing a redirect's index makes its
   address the leader if and only if the address is in the current configuration and is the first
   healthy one from that index on.
   */
  lemma StoreLeadsIff(s: State, n: nat, up: nat -> bool)
    requires AddrInv(s) && n < |s.leaders|
    ensures var r, ps := s.leaders[n], Current(s).pools;
      var p := IndexOf(ps, r.addr);
      Leads(Step(s, StoreLeader(n)), r.addr, up) <==>
      p.Some? && Rotation.FirstUp(Rotation.Probe(up, |ps|), r.index, Rotation.Ahead(r.index, |ps|, p.value))
  {
    hide Rotation.Slot, Rotation.Probe, Rotation.Ahead, Rotation.FirstUp, SelectFrom, Distinct;
    var r, ps := s.leaders[n], Current(s).pools;
    var p := IndexOf(ps, r.addr);
    if p.Some? {
      Rotation.LandsIff(Rotation.Probe(up, |ps|), |ps|, r.index, p.value);
      OnlyAt(ps, r.addr);
    }
  }

  lemma OnlyAt(ps: seq<Pool>, addr: string)
    requires Distinct(Addrs(ps)) && IndexOf(ps, addr).Some?
    ensures forall j :: 0 <= j < |ps| && ps[j].addr == addr ==> j == IndexOf(ps, addr).value
  {
    hide IndexOf;
    assert forall j :: 0 <= j < |ps| ==> Addrs(ps)[j] == ps[j].addr;
  }

  /** Slot i + k is up and slots i .. i + k - 1 are down. */
  ghost predicate OnlyLastUp(up: nat -> bool, i: nat, k: nat) {
    up(i + k) && forall j: nat :: i <= j < i + k ==> !up(j)
  }

  lemma OnlyLastUpIs(up: nat -> bool, l: nat, i: nat, k: nat)
    requires i + k < l
    ensures Rotation.Ahead(i, l, i + k) == k
    ensures Rotation.FirstUp(Rotation.Probe(up, l), i, k) <==> OnlyLastUp(up, i, k)
  {
    forall j: nat | j < l ensures Rotation.Slot(j, l) == j {
      Rotation.SmallSlot(j, l);
    }
    hide Rotation.Slot;
    var probe := Rotation.Probe(up, l);
    assert forall j: nat :: j < l ==> probe(j) == up(j);
  }

  /**
   The race of redirects: k configurations published between lookup and store. The redirected address
   leads if and only if it is healthy and the k pools now sitting at and after its index are not; with
   every pool healthy, if and only if nothing was published since the lookup.
   */
  lemma RaceIff(s: State, n: nat, up: nat -> bool)
    requires Inv(s) && AddrInv(s) && n < |s.leaders| && GrownFrom(s.hist, s.leaders[n].epoch)
    ensures var r := s.leaders[n];
      var k := |s.hist| - 1 - r.epoch;
      && k >= 0 && r.index + k < |Current(s).pools|
      && (Leads(Step(s, StoreLeader(n)), r.addr, up) <==> OnlyLastUp(up, r.index, k))
      && ((forall j: nat :: up(j)) ==> (Leads(Step(s, StoreLeader(n)), r.addr, up) <==> k == 0))
  {
    hide Stamped, VersInv, AddrInv, GrownFrom, Step, Leads, Rotation.FirstUp, Rotation.Probe, Rotation.Ahead;
    var r := s.leaders[n];
    assert Found(s.hist, r);
    var k := |s.hist| - 1 - r.epoch;
    var l := |Current(s).pools|;
    MovedTo(s, r);
    StoreLeadsIff(s, n, up);
    OnlyLastUpIs(up, l, r.index, k);
    if forall j: nat :: up(j) {
      assert up(r.index);
    }
  }

  /** Every later configuration pushes the looked-up address one position back. */
  lemma MovedTo(s: State, r: Pending)
    requires AddrInv(s) && Found(s.hist, r) && GrownFrom(s.hist, r.epoch)
    ensures var k := |s.hist| - 1 - r.epoch;
      r.index + k < |Current(s).pools| && IndexOf(Current(s).pools, r.addr) == Some(r.index + k)
  {
    hide GrownFrom, Distinct, IndexOf;
    Grown(s.hist, r.epoch, |s.hist| - 1);
    IndexShift(Current(s).pools, |s.hist| - 1 - r.epoch, r.addr);
  }

  lemma IndexShift(ps: seq<Pool>, k: nat, addr: string)
    requires Distinct(Addrs(ps)) && k <= |ps| && IndexOf(ps[k..], addr).Some?
    ensures IndexOf(ps, addr) == Some(IndexOf(ps[k..], addr).value + k)
  {
    hide IndexOf, Distinct;
    var i := IndexOf(ps[k..], addr).value;
    assert ps[i + k] == ps[k..][i];
    assert ps[i + k] in ps;
    OnlyAt(ps, addr);
  }

  /**
   Over runs without updates: whatever sends, retries, redirects and stores come between, any redirect
   that looked its address up during the run gets it to lead by its store exactly as above.
   */
  lemma RedirectRaceIff(s: State, es: seq<Event>, n: nat, up: nat -> bool)
    requires Inv(s) && IdInv(s) && AddrInv(s) && Run(s, es).Some? && NoUpdate(es)
    requires n < |Run(s, es).value.leaders| && Run(s, es).value.leaders[n].epoch >= |s.hist| - 1
    ensures var s' := Run(s, es).value;
      var r := s'.leaders[n];
      var k := |s'.hist| - 1 - r.epoch;
      && k >= 0 && s'.hist != [] && r.index + k < |Current(s').pools|
      && (Leads(Step(s', StoreLeader(n)), r.addr, up) <==> OnlyLastUp(up, r.index, k))
      && ((forall j: nat :: up(j)) ==> (Leads(Step(s', StoreLeader(n)), r.addr, up) <==> k == 0))
  {
    hide Run, Inv, IdInv, AddrInv, Leads, Step, OnlyLastUp;
    InvHist(s);
    RunInv(s, es);
    AddressesStayDistinct(s, es);
    RunGrows(s, es, |s.hist| - 1);
    InvHist(Run(s, es).value);
    RaceIff(Run(s, es).value, n, up);
  }

  /** A redirect on the current configuration, before its index is stored. */
  ghost function LookedUp(s: State, id: nat, addr: string): State
    requires s.hist != [] && id !in s.tasks
  {
    Step(s, Redirect(id, |s.hist| - 1, addr))
  }

  /**
   A redirect, then any traffic, redirects and stores of others, then the store of its index, then any
   ordinary traffic, then a fresh request: a stateful pool sends it to the redirected address if and
   only if that is up and the pools published since the lookup left nothing healthy before it. In
   particular it does whenever nothing was published and the address is healthy.
   */
  lemma FollowsRedirect(s: State, id: nat, addr: string, es: seq<Event>, n: nat, more: seq<Event>, last: nat, up: nat -> bool)
    requires Inv(s) && IdInv(s) && AddrInv(s) && !s.stateless && id !in s.tasks
    requires var s1 := LookedUp(s, id, addr);
      && Run(s1, es).Some? && NoUpdate(es)
      && var s2 := Run(s1, es).value;
         && n < |s2.leaders| && s1.leaders != [] && s2.leaders[n] == s1.leaders[|s1.leaders| - 1] && s2.hist != []
         && var s3 := Step(s2, StoreLeader(n));
            && Run(s3, more).Some? && OrdinaryAll(more)
            && last !in Run(s3, more).value.tasks && last !in Run(s3, more).value.refused
    ensures var s1 := LookedUp(s, id, addr);
      var s2 := Run(s1, es).value;
      var s3 := Step(s2, StoreLeader(n));
      var s4 := Run(s3, more).value;
      && Current(s3).pools != [] && Enabled(s4, FreshSend(s3, last, up))
      && var s5, k := Step(s4, FreshSend(s3, last, up)), |s2.hist| - |s1.hist|;
         && k >= 0
         && (last in s5.tasks && s5.tasks[last].sentTo.addr == addr <==> OnlyLastUp(up, s2.leaders[n].index, k))
         && ((forall j: nat :: up(j)) ==> (last in s5.tasks && s5.tasks[last].sentTo.addr == addr <==> k == 0))
  {
    hide Run, Inv, IdInv, AddrInv, Leads, OnlyLastUp, LookedUp, OrdinaryAll, Step, Enabled;
    InvHist(s);
    var s1 := LookedUp(s, id, addr);
    LookedUpInv(s, id, addr);
    RedirectRaceIff(s1, es, n, up);
    RunMode(s1, es);
    FreshAfterStore(Run(s1, es).value, n, more, last, addr, up);
  }

  lemma StepMode(s: State, e: Event)
    requires Enabled(s, e)
    ensures Step(s, e).stateless == s.stateless
  {
    hide Rotation.Slot, SelectFrom, IndexOf, Rebuild, ByAddr;
  }

  lemma {:induction false} RunMode(s: State, es: seq<Event>)
    requires Run(s, es).Some?
    ensures Run(s, es).value.stateless == s.stateless
    decreases |es|
  {
    if es != [] {
      hide Step, Enabled;
      StepMode(s, es[0]);
      RunMode(Step(s, es[0]), es[1..]);
    }
  }

  /** After a store and any ordinary traffic, a fresh request goes wherever the store made the leader. */
  lemma FreshAfterStore(s: State, n: nat, more: seq<Event>, last: nat, addr: string, up: nat -> bool)
    requires !s.stateless && s.hist != [] && Current(s).pools != [] && n < |s.leaders|
    requires var s3 := Step(s, StoreLeader(n));
      && Run(s3, more).Some? && OrdinaryAll(more)
      && last !in Run(s3, more).value.tasks && last !in Run(s3, more).value.refused
    ensures var s3 := Step(s, StoreLeader(n));
      var s4 := Run(s3, more).value;
      && s3.hist == s.hist && Enabled(s4, FreshSend(s3, last, up))
      && var s5 := Step(s4, FreshSend(s3, last, up));
         last in s5.tasks && s5.tasks[last].sentTo.addr == addr <==> Leads(s3, addr, up)
  {
    hide Run, OrdinaryAll, LeaderOf;
    var s3 := Step(s, StoreLeader(n));
    assert s3.hist == s.hist && !s3.stateless;
    hide Step, Enabled;
    LeaderAffinity(s3, more, last, up);
  }

  lemma LookedUpInv(s: State, id: nat, addr: string)
    requires Inv(s) && IdInv(s) && AddrInv(s) && id !in s.tasks
    ensures var s1 := LookedUp(s, id, addr);
      && Inv(s1) && IdInv(s1) && AddrInv(s1) && s1.stateless == s.stateless && s1.leaders != []
      && var r := s1.leaders[|s1.leaders| - 1];
         r.addr == addr && r.epoch == |s1.hist| - 1 && Found(s1.hist, r)
  {
    hide Inv, IdInv, AddrInv, RedirectTo, Found;
    InvHist(s);
    var e := Redirect(id, |s.hist| - 1, addr);
    StepInv(s, e);
    StepIdInv(s, e);
    StepAddrInv(s, e);
    StepMode(s, e);
    RedirectFinds(s, id, |s.hist| - 1, addr);
  }

  /**
   Such a race from the start: "b" and the new "c" are redirected to, "b" stores last, and the leader
   ends up being "a".
   */
  lemma StaleLeaderWitness()
    ensures var a, b := Pool(0, "a"), Pool(1, "b");
      var r := Run(InitState([a, b], 2, false),
                   [Redirect(0, 0, "b"), Redirect(1, 0, "c"), StoreLeader(1), StoreLeader(0)]);
      r.Some? && r.value.hist != [] && LeaderOf(r.value, Up()) == Some(a)
  {
    hide Step, Enabled, RedirectTo, LeaderOf;
    var s0, e0, e1 := InitState([Pool(0, "a"), Pool(1, "b")], 2, false), Redirect(0, 0, "b"), Redirect(1, 0, "c");
    StaleRedirects(s0, e0, e1);
    var s2 := Step(Step(s0, e0), e1);
    StaleStores(s2);
    RunCons(s0, e0, [e1, StoreLeader(1), StoreLeader(0)]);
    RunCons(Step(s0, e0), e1, [StoreLeader(1), StoreLeader(0)]);
    RunCons(s2, StoreLeader(1), [StoreLeader(0)]);
    RunCons(Step(s2, StoreLeader(1)), StoreLeader(0), []);
    assert [e0, e1, StoreLeader(1), StoreLeader(0)] == [e0] + [e1, StoreLeader(1), StoreLeader(0)];
    assert [e1, StoreLeader(1), StoreLeader(0)] == [e1] + [StoreLeader(1), StoreLeader(0)];
    assert [StoreLeader(1), StoreLeader(0)] == [StoreLeader(1)] + [StoreLeader(0)];
    assert [StoreLeader(0)] == [StoreLeader(0)] + [];
  }

  lemma StaleRedirects(s0: State, e0: Event, e1: Event)
    requires s0 == InitState([Pool(0, "a"), Pool(1, "b")], 2, false)
    requires e0 == Redirect(0, 0, "b") && e1 == Redirect(1, 0, "c")
    ensures Enabled(s0, e0) && Enabled(Step(s0, e0), e1)
    ensures var s2 := Step(Step(s0, e0), e1);
      && s2.hist != [] && Current(s2).pools == [Pool(2, "c"), Pool(0, "a"), Pool(1, "b")]
      && s2.leaders == [Pending(1, 0, "b"), Pending(0, 1, "c")]
  {
    var ps := s0.hist[0].pools;
    assert IndexOf(ps, "b") == Some(1);
    assert IndexOf(ps, "c") == None;
    assert Step(s0, e0) == Direct(s0, 0, 0, 1, "b");
  }

  lemma StaleStores(s2: State)
    requires s2.hist != [] && Current(s2).pools == [Pool(2, "c"), Pool(0, "a"), Pool(1, "b")]
    requires s2.leaders == [Pending(1, 0, "b"), Pending(0, 1, "c")]
    ensures Enabled(s2, StoreLeader(1)) && Enabled(Step(s2, StoreLeader(1)), StoreLeader(0))
    ensures var s4 := Step(Step(s2, StoreLeader(1)), StoreLeader(0));
      s4.hist != [] && LeaderOf(s4, Up()) == Some(Pool(0, "a"))
  {
    assert Step(s2, StoreLeader(1)).leaders == [Pending(1, 0, "b")];
    Rotation.SmallSlot(1, 3);
    SelectIs(Rotation.Probe(Up(), 3), 1, 3, 1);
  }

  // ----- round robin

  /** Steps that select from the shared counter: fresh sends, and retries whose configuration is gone. */
  ghost predicate First(s: State, e: Event)
    requires Enabled(s, e)
  {
    e.Send? || (e.Retry? && s.hist[e.epoch].ver != s.tasks[e.id].configVer)
  }

  ghost function FirstSelections(s: State, es: seq<Event>): nat
    requires Run(s, es).Some?
    decreases |es|
  {
    if es == [] then 0
    else (if First(s, es[0]) then 1 else 0) + FirstSelections(Step(s, es[0]), es[1..])
  }

  ghost predicate Chose(s: State, e: Event, q: Pool)
    requires Enabled(s, e)
  {
    First(s, e) && e.id in Step(s, e).tasks && Step(s, e).tasks[e.id].sentTo == q
  }

  /** How many first selections of a run went to a given pool. */
  ghost function Chosen(s: State, es: seq<Event>, q: Pool): nat
    requires Run(s, es).Some?
    decreases |es|
  {
    if es == [] then 0
    else (if Chose(s, es[0], q) then 1 else 0) + Chosen(Step(s, es[0]), es[1..], q)
  }

  /** Ordinary traffic on configuration `ep`, with every pool answering healthy. */
  ghost predicate AllUp(e: Event, ep: nat) {
    && Ordinary(e)
    && (e.Send? || e.Retry? || e.NextNode? ==> e.epoch == ep && forall j: nat :: e.probe(j))
  }

  lemma OneSelection(s: State, e: Event, p: nat)
    requires s.stateless && Enabled(s, e) && AllUp(e, |s.hist| - 1)
    requires p < |Current(s).pools| && Distinct(Current(s).pools)
    ensures var s' := Step(s, e);
      && s'.hist == s.hist && s'.stateless
      && s'.nextNode == s.nextNode + (if First(s, e) then 1 else 0)
      && (Chose(s, e, Current(s).pools[p]) <==> First(s, e) && Rotation.Slot(s.nextNode, |Current(s).pools|) == p)
  {
    hide Rotation.Slot;
    if First(s, e) {
      Rotation.AllHealthySelect(|Current(s).pools|, s.nextNode, e.probe);
    }
  }

  lemma {:induction false} SelectionsInTurn(s: State, es: seq<Event>, p: nat)
    requires s.stateless && s.hist != [] && Run(s, es).Some?
    requires forall i :: 0 <= i < |es| ==> AllUp(es[i], |s.hist| - 1)
    requires p < |Current(s).pools| && Distinct(Current(s).pools)
    ensures Chosen(s, es, Current(s).pools[p])
         == Rotation.Ups((q: nat) => q == p, |Current(s).pools|, s.nextNode, FirstSelections(s, es))
    decreases |es|
  {
    hide Rotation.Slot, Rotation.Ups, Step, Enabled, AllUp, First, Chose, Distinct;
    var only, l := (q: nat) => q == p, |Current(s).pools|;
    if es != [] {
      OneSelection(s, es[0], p);
      var s' := Step(s, es[0]);
      SelectionsInTurn(s', es[1..], p);
      Rotation.UpsSplit(only, l, s.nextNode, 1, FirstSelections(s', es[1..]));
      Rotation.UpsOne(only, l, s.nextNode);
    } else {
      Rotation.NoUps(only, l, s.nextNode, 0);
    }
  }

  /**
   Stateless, all pools healthy, one configuration: however callers, retries and completions
   interleave, n first selections choose every pool floor(n/l) or ceil(n/l) times.
   */
  lemma FairInEveryRun(s: State, es: seq<Event>, p: nat)
    requires s.stateless && s.hist != [] && Run(s, es).Some?
    requires forall i :: 0 <= i < |es| ==> AllUp(es[i], |s.hist| - 1)
    requires p < |Current(s).pools| && Distinct(Current(s).pools)
    ensures var n, l := FirstSelections(s, es), |Current(s).pools|;
      var k := Chosen(s, es, Current(s).pools[p]);
      if n % l == 0 then k == n / l else n / l <= k <= n / l + 1
  {
    hide Rotation.Ups, Run, Chosen, FirstSelections;
    SelectionsInTurn(s, es, p);
    Rotation.RoundRobinFair(|Current(s).pools|, p, s.nextNode, FirstSelections(s, es));
  }

  // ----- retry rotation

  /** A step that leaves configuration `ep` in place and touches task `id` only to retry it under health `up`. */
  ghost predicate Steady(e: Event, id: nat, ep: nat, up: nat -> bool, l: nat)
    requires l > 0
  {
    && !e.Redirect? && !e.Update?
    && (About(e, id) ==> e.Retry? && e.epoch == ep && forall j: nat :: e.probe(j) == up(Rotation.Slot(j, l)))
  }

  ghost predicate SteadyAll(es: seq<Event>, id: nat, ep: nat, up: nat -> bool, l: nat)
    requires l > 0
  {
    forall i :: 0 <= i < |es| ==> Steady(es[i], id, ep, up, l)
  }

  function Retries(es: seq<Event>, id: nat): nat {
    if es == [] then 0 else (if About(es[0], id) then 1 else 0) + Retries(es[1..], id)
  }

  /** Task `id` stands at un-reduced index i of the current configuration. */
  ghost predicate StandsAt(s: State, id: nat, i: nat) {
    && s.hist != [] && Current(s).pools != [] && id in s.tasks
    && s.tasks[id] == FTask(i, Current(s).ver, |s.hist| - 1, Current(s).pools[Rotation.Slot(i, |Current(s).pools|)])
  }

  lemma StampStands(s: State, id: nat)
    requires Inv(s) && id in s.tasks && s.tasks[id].epoch == |s.hist| - 1
    ensures StandsAt(s, id, s.tasks[id].lastIndex)
  {
    hide Rotation.Slot, Found, VersInv;
    assert Stamped(s.hist, s.tasks[id]);
  }

  lemma SteadyStep(s: State, e: Event, id: nat, i: nat, up: nat -> bool)
    requires StandsAt(s, id, i) && Enabled(s, e) && Steady(e, id, |s.hist| - 1, up, |Current(s).pools|)
    requires Rotation.Healthy(up, |Current(s).pools|) > 0
    ensures var l := |Current(s).pools|;
      && Step(s, e).hist == s.hist
      && StandsAt(Step(s, e), id, if About(e, id) then Rotation.Next(up, l, i) else i)
  {
    hide Rotation.Slot, Rotation.Healthy, Rotation.Next;
    StepHist(s, e);
    var l := |Current(s).pools|;
    if About(e, id) {
      Rotation.NextIsNearest(up, l, i);
      SelectIs(e.probe, i + 1, l, Rotation.Next(up, l, i));
    } else {
      StepSpares(s, e, id);
    }
  }

  /**
   With configuration and health fixed, however other tasks interleave, the n-th retry of a task is at
   index Retry(up, l, i, n) and at that position's pool.
   */
  lemma {:induction false} RetriesInTurn(s: State, es: seq<Event>, id: nat, i: nat, n: nat, up: nat -> bool)
    requires Run(s, es).Some? && s.hist != [] && Current(s).pools != []
    requires var l := |Current(s).pools|;
      && Rotation.Healthy(up, l) > 0 && SteadyAll(es, id, |s.hist| - 1, up, l)
      && StandsAt(s, id, Rotation.Retry(up, l, i, n))
    ensures var s' := Run(s, es).value;
      s'.hist == s.hist && StandsAt(s', id, Rotation.Retry(up, |Current(s).pools|, i, n + Retries(es, id)))
    decreases |es|
  {
    hide Step, Enabled, Steady, SteadyAll, StandsAt, About, Rotation.Healthy, Rotation.Next, Rotation.Retry;
    if es != [] {
      var l := |Current(s).pools|;
      SteadyTail(es, id, |s.hist| - 1, up, l);
      SteadyStep(s, es[0], id, Rotation.Retry(up, l, i, n), up);
      Rotation.RetrySteps(up, l, i, n);
      RetriesInTurn(Step(s, es[0]), es[1..], id, i, if About(es[0], id) then n + 1 else n, up);
    }
  }

  lemma SteadyTail(es: seq<Event>, id: nat, ep: nat, up: nat -> bool, l: nat)
    requires l > 0 && es != [] && SteadyAll(es, id, ep, up, l)
    ensures Steady(es[0], id, ep, up, l) && SteadyAll(es[1..], id, ep, up, l)
  {
    hide Steady;
  }

  /**
   Any h consecutive retries of a task hit each of the h healthy pools exactly once: for each there is
   one turn n, and any run with 1 to h retries of the task ends at that pool if and only if it has n.
   */
  lemma TurnOf(s: State, id: nat, up: nat -> bool, p: nat) returns (n: nat)
    requires Inv(s) && IdInv(s) && id in s.tasks && s.tasks[id].epoch == |s.hist| - 1
    requires p < |Current(s).pools| && up(p) && Rotation.Healthy(up, |Current(s).pools|) > 0
    ensures 1 <= n <= Rotation.Healthy(up, |Current(s).pools|)
    ensures forall es ::
      var l := |Current(s).pools|;
      Run(s, es).Some? && SteadyAll(es, id, |s.hist| - 1, up, l) && 1 <= Retries(es, id) <= Rotation.Healthy(up, l) ==>
        && id in Run(s, es).value.tasks
        && (Run(s, es).value.tasks[id].sentTo == Current(s).pools[p] <==> Retries(es, id) == n)
  {
    hide Run, SteadyAll, Retries, StandsAt, Rotation.Healthy, Rotation.Slot, Rotation.Retry, Inv, IdInv;
    StampStands(s, id);
    var l, i := |Current(s).pools|, s.tasks[id].lastIndex;
    Rotation.RetriesHitEachOnce(up, l, i, p);
    n :| 1 <= n <= Rotation.Healthy(up, l) && Rotation.Slot(Rotation.Retry(up, l, i, n), l) == p;
    forall es | Run(s, es).Some? && SteadyAll(es, id, |s.hist| - 1, up, l) && 1 <= Retries(es, id) <= Rotation.Healthy(up, l)
      ensures id in Run(s, es).value.tasks
      ensures Run(s, es).value.tasks[id].sentTo == Current(s).pools[p] <==> Retries(es, id) == n
    {
      AtTurn(s, es, id, up, p, n);
    }
  }

  lemma AtTurn(s: State, es: seq<Event>, id: nat, up: nat -> bool, p: nat, n: nat)
    requires IdInv(s) && id in s.tasks && StandsAt(s, id, s.tasks[id].lastIndex)
    requires p < |Current(s).pools| && Run(s, es).Some?
    requires var l := |Current(s).pools|;
      && Rotation.Healthy(up, l) > 0 && SteadyAll(es, id, |s.hist| - 1, up, l)
      && 1 <= n <= Rotation.Healthy(up, l) && 1 <= Retries(es, id) <= Rotation.Healthy(up, l)
      && Rotation.Slot(Rotation.Retry(up, l, s.tasks[id].lastIndex, n), l) == p
    ensures id in Run(s, es).value.tasks
    ensures Run(s, es).value.tasks[id].sentTo == Current(s).pools[p] <==> Retries(es, id) == n
  {
    hide Run, SteadyAll, Retries, StandsAt, IdInv, Distinct, Rotation.Healthy, Rotation.Slot, Rotation.Retry;
    StandsThere(s, id, s.tasks[id].lastIndex, p);
    var l, i, m := |Current(s).pools|, s.tasks[id].lastIndex, Retries(es, id);
    Rotation.RetrySteps(up, l, i, 0);
    RetriesInTurn(s, es, id, i, 0, up);
    StandsThere(Run(s, es).value, id, Rotation.Retry(up, l, i, m), p);
    DistinctPools(s, |s.hist| - 1);
    if m < n {
      Rotation.RetriesDiffer(up, l, i, m, n);
    } else if n < m {
      Rotation.RetriesDiffer(up, l, i, n, m);
    }
  }

  lemma StandsThere(s: State, id: nat, i: nat, p: nat)
    requires StandsAt(s, id, i) && p < |Current(s).pools|
    ensures id in s.tasks && s.hist != []
    ensures Distinct(Current(s).pools) ==>
      (s.tasks[id].sentTo == Current(s).pools[p] <==> Rotation.Slot(i, |Current(s).pools|) == p)
  {
    hide Rotation.Slot;
  }
}
