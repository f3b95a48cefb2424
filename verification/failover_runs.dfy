/**
 Any interleaving of sends, retries, redirects, next-node calls and address updates over a failover
 pool. Snapshots are read without a lock, so every step may work on any configuration published so far.
 */
module FailoverRuns {
  import opened Errors
  import opened Cluster
  import Rotation

  /**
   A task on its way. `lastIndex` and `configVer` are its own fields; `epoch` and `sentTo` record
   which published configuration the index refers to and which pool it was handed to.
   */
  datatype FTask = FTask(lastIndex: nat, configVer: nat, epoch: nat, sentTo: Pool)

  /** A redirect that has looked up `addr` in configuration `epoch` and not stored the index yet. */
  datatype Pending = Pending(index: nat, epoch: nat, addr: string)

  datatype State = State(
    hist: seq<Config>,              // configurations published so far, the current one last
    nextNode: nat,
    nextId: nat,
    leaders: seq<Pending>,          // redirect indices not stored into next_node yet
    tasks: map<nat, FTask>,         // submitted
    refused: map<nat, FTask>,       // ended by a user error, back at the caller with its routing data
    stateless: bool)

  datatype Event =
    | Send(id: nat, epoch: nat, probe: nat -> bool)
    | Retry(id: nat, epoch: nat, probe: nat -> bool)
    | Redirect(id: nat, epoch: nat, addr: string)
    | StoreLeader(n: nat)
    | NextNode(id: nat, epoch: nat, probe: nat -> bool)
    | Update(addrs: seq<string>)
    | Refuse(id: nat)
    | Done(id: nat)

  ghost function InitState(pools: seq<Pool>, nextId: nat, stateless: bool): State {
    State([Config(pools, 0)], 0, nextId, [], map[], map[], stateless)
  }

  ghost function Current(s: State): Config
    requires s.hist != []
  {
    s.hist[|s.hist| - 1]
  }

  ghost predicate Enabled(s: State, e: Event) {
    && s.hist != []
    && match e
       case Send(id, ep, _) => id !in s.tasks && id !in s.refused && ep < |s.hist|
       case Retry(id, ep, _) => id in s.tasks && ep < |s.hist|
       case Redirect(id, ep, _) => id !in s.tasks && ep < |s.hist|
       case StoreLeader(n) => n < |s.leaders|
       case NextNode(id, ep, _) => id !in s.tasks && id in s.refused && ep < |s.hist|
       case Update(_) => true
       case Refuse(id) => id in s.tasks
       case Done(id) => id in s.tasks
  }

  /** Hand a task to the pool chosen on a snapshot, or give it up when nothing is healthy. */
  ghost function Place(s: State, id: nat, ep: nat, seed: nat, probe: nat -> bool): State
    requires ep < |s.hist|
  {
    var c := s.hist[ep];
    if c.pools == [] then s.(tasks := s.tasks - {id})
    else
      match SelectFrom(probe, seed, |c.pools|)
      case None => s.(tasks := s.tasks - {id})
      case Some(i) => s.(tasks := s.tasks[id := FTask(i, c.ver, ep, c.pools[Rotation.Slot(i, |c.pools|)])])
  }

  /** A first selection reads the shared counter, and advances it in stateless mode. */
  ghost function Bump(s: State, ep: nat): State
    requires ep < |s.hist|
  {
    if s.stateless && s.hist[ep].pools != [] then s.(nextNode := s.nextNode + 1) else s
  }

  ghost function Publish(s: State, pools: seq<Pool>, nextId: nat): State
    requires s.hist != []
  {
    s.(hist := s.hist + [Config(pools, NextVer(Current(s).ver))], nextId := nextId)
  }

  /** get_or_add_addr: the snapshot first, then the current configuration under the lock. */
  ghost function RedirectTo(s: State, id: nat, ep: nat, addr: string): State
    requires s.hist != [] && ep < |s.hist|
  {
    match IndexOf(s.hist[ep].pools, addr)
    case Some(i) => Direct(s, id, ep, i, addr)
    case None =>
      match IndexOf(Current(s).pools, addr)
      case Some(i) => Direct(s, id, |s.hist| - 1, i, addr)
      case None => Direct(Publish(s, [Pool(s.nextId, addr)] + Current(s).pools, s.nextId + 1), id, |s.hist|, 0, addr)
  }

  ghost function Direct(s: State, id: nat, ep: nat, i: nat, addr: string): State
    requires ep < |s.hist| && i < |s.hist[ep].pools|
  {
    s.(tasks := s.tasks[id := FTask(i, s.hist[ep].ver, ep, s.hist[ep].pools[i])], refused := s.refused - {id},
       leaders := s.leaders + [Pending(i, ep, addr)])
  }

  ghost function Step(s: State, e: Event): State
    requires Enabled(s, e)
  {
    match e
    case Send(id, ep, probe) => Place(Bump(s, ep), id, ep, s.nextNode, probe)
    case Retry(id, ep, probe) =>
      if s.hist[ep].ver == s.tasks[id].configVer then Place(s, id, ep, s.tasks[id].lastIndex + 1, probe)
      else Place(Bump(s, ep), id, ep, s.nextNode, probe)
    case Redirect(id, ep, addr) => RedirectTo(s, id, ep, addr)
    case StoreLeader(n) => s.(nextNode := s.leaders[n].index, leaders := s.leaders[..n] + s.leaders[n + 1..])
    case NextNode(id, ep, probe) =>
      Place(s.(refused := s.refused - {id}), id, ep, s.refused[id].lastIndex + 1, probe)
    case Update(addrs) =>
      var (ps, n) := Rebuild(ByAddr(Current(s).pools), addrs, s.nextId);
      Publish(s, ps, n)
    case Refuse(id) => s.(tasks := s.tasks - {id}, refused := s.refused[id := s.tasks[id]])
    case Done(id) => s.(tasks := s.tasks - {id})
  }

  ghost function Run(s: State, es: seq<Event>): Option<State>
    decreases |es|
  {
    if es == [] then Some(s)
    else if Enabled(s, es[0]) then Run(Step(s, es[0]), es[1..])
    else None
  }

  lemma RunCons(s: State, e: Event, es: seq<Event>)
    requires Enabled(s, e)
    ensures Run(s, [e] + es) == Run(Step(s, e), es)
  {
    assert ([e] + es)[1..] == es;
  }

  // ----- the stamp invariant

  /** The task's stamp names a published configuration, and its index the pool it went to. */
  ghost predicate Stamped(hist: seq<Config>, t: FTask) {
    && t.epoch < |hist|
    && var c := hist[t.epoch];
       && c.pools != [] && t.configVer == c.ver
       && t.sentTo == c.pools[Rotation.Slot(t.lastIndex, |c.pools|)]
  }

  /** A pending index is where the redirect found its address. */
  ghost predicate Found(hist: seq<Config>, r: Pending) {
    r.epoch < |hist| && IndexOf(hist[r.epoch].pools, r.addr) == Some(r.index)
  }

  ghost predicate VersInv(hist: seq<Config>) {
    hist != [] && forall k :: 0 <= k < |hist| ==> hist[k].ver == k % VERSIONS
  }

  ghost predicate Inv(s: State) {
    && VersInv(s.hist)
    && (forall id :: id in s.tasks ==> Stamped(s.hist, s.tasks[id]))
    && (forall id :: id in s.refused ==> Stamped(s.hist, s.refused[id]))
    && (forall r :: r in s.leaders ==> Found(s.hist, r))
  }

  lemma InitInv(pools: seq<Pool>, nextId: nat, stateless: bool)
    ensures Inv(InitState(pools, nextId, stateless))
  {
  }

  lemma StampLasts(hist: seq<Config>, c: Config, t: FTask)
    requires Stamped(hist, t)
    ensures Stamped(hist + [c], t)
  {
    hide Rotation.Slot;
    assert (hist + [c])[t.epoch] == hist[t.epoch];
  }

  lemma FoundLasts(hist: seq<Config>, c: Config, r: Pending)
    requires Found(hist, r)
    ensures Found(hist + [c], r)
  {
    hide IndexOf;
    assert (hist + [c])[r.epoch] == hist[r.epoch];
  }

  lemma NextVerIs(n: nat)
    ensures NextVer(n % VERSIONS) == (n + 1) % VERSIONS
  {
  }

  lemma PublishInv(s: State, pools: seq<Pool>, nextId: nat)
    requires Inv(s)
    ensures Inv(Publish(s, pools, nextId))
  {
    hide Stamped, Found, NextVer;
    var c := Config(pools, NextVer(Current(s).ver));
    NextVerIs(|s.hist| - 1);
    forall id | id in s.tasks ensures Stamped(s.hist + [c], s.tasks[id]) {
      StampLasts(s.hist, c, s.tasks[id]);
    }
    forall id | id in s.refused ensures Stamped(s.hist + [c], s.refused[id]) {
      StampLasts(s.hist, c, s.refused[id]);
    }
    forall r | r in s.leaders ensures Found(s.hist + [c], r) {
      FoundLasts(s.hist, c, r);
    }
  }

  lemma StepInv(s: State, e: Event)
    requires Inv(s) && Enabled(s, e)
    ensures Inv(Step(s, e))
  {
    hide Rotation.Slot, Rebuild, ByAddr, Stamped, Found, VersInv, Place, RedirectTo;
    assert s.hist != [];
    match e
    case Send(id, ep, probe) => PlaceInv(Bump(s, ep), id, ep, s.nextNode, probe);
    case Retry(id, ep, probe) =>
      PlaceInv(s, id, ep, s.tasks[id].lastIndex + 1, probe);
      PlaceInv(Bump(s, ep), id, ep, s.nextNode, probe);
    case NextNode(id, ep, probe) =>
      PlaceInv(s.(refused := s.refused - {id}), id, ep, s.refused[id].lastIndex + 1, probe);
    case Redirect(id, ep, addr) => RedirectInv(s, id, ep, addr);
    case Update(addrs) =>
      var (ps, n) := Rebuild(ByAddr(Current(s).pools), addrs, s.nextId);
      PublishInv(s, ps, n);
    case _ =>
  }

  lemma PlaceInv(s: State, id: nat, ep: nat, seed: nat, probe: nat -> bool)
    requires Inv(s) && ep < |s.hist|
    ensures Inv(Place(s, id, ep, seed, probe))
  {
    hide Rotation.Slot, VersInv, Found;
  }

  lemma RedirectInv(s: State, id: nat, ep: nat, addr: string)
    requires Inv(s) && ep < |s.hist|
    ensures Inv(RedirectTo(s, id, ep, addr))
  {
    hide Inv, Direct, Publish;
    InvHist(s);
    var now := Current(s).pools;
    if IndexOf(s.hist[ep].pools, addr).Some? {
      DirectInv(s, id, ep, IndexOf(s.hist[ep].pools, addr).value, addr);
    } else if IndexOf(now, addr).Some? {
      DirectInv(s, id, |s.hist| - 1, IndexOf(now, addr).value, addr);
    } else {
      AddedInv(s, id, addr);
    }
  }

  lemma InvHist(s: State)
    requires Inv(s)
    ensures s.hist != []
  {
  }

  lemma AddedInv(s: State, id: nat, addr: string)
    requires Inv(s)
    ensures Inv(Direct(Publish(s, [Pool(s.nextId, addr)] + Current(s).pools, s.nextId + 1), id, |s.hist|, 0, addr))
  {
    hide Inv, Direct;
    InvHist(s);
    var pools := [Pool(s.nextId, addr)] + Current(s).pools;
    PublishInv(s, pools, s.nextId + 1);
    assert pools[0].addr == addr;
    DirectInv(Publish(s, pools, s.nextId + 1), id, |s.hist|, 0, addr);
  }

  lemma DirectInv(s: State, id: nat, ep: nat, i: nat, addr: string)
    requires Inv(s) && ep < |s.hist| && IndexOf(s.hist[ep].pools, addr) == Some(i)
    ensures Inv(Direct(s, id, ep, i, addr))
  {
    hide Rotation.Slot, VersInv, IndexOf;
    Rotation.SmallSlot(i, |s.hist[ep].pools|);
  }

  lemma {:induction false} RunInv(s: State, es: seq<Event>)
    requires Inv(s) && Run(s, es).Some?
    ensures Inv(Run(s, es).value)
    decreases |es|
  {
    if es != [] {
      hide Inv, Step, Enabled;
      StepInv(s, es[0]);
      RunInv(Step(s, es[0]), es[1..]);
    }
  }

  /**
   In every run: when a task's stamp equals the current version, and fewer than 2^64 changes were
   published since, the task's index still names the pool it was last sent to.
   */
  lemma StampSound(pools: seq<Pool>, nextId: nat, stateless: bool, es: seq<Event>, id: nat)
    requires var r := Run(InitState(pools, nextId, stateless), es);
      && r.Some? && id in r.value.tasks && r.value.hist != []
      && r.value.tasks[id].configVer == Current(r.value).ver
      && |r.value.hist| - 1 - r.value.tasks[id].epoch < VERSIONS
    ensures var s := Run(InitState(pools, nextId, stateless), es).value;
      var t, c := s.tasks[id], Current(s);
      && t.epoch == |s.hist| - 1 && c.pools != []
      && c.pools[Rotation.Slot(t.lastIndex, |c.pools|)] == t.sentTo
  {
    hide Run, Inv, Rotation.Slot;
    InitInv(pools, nextId, stateless);
    RunInv(InitState(pools, nextId, stateless), es);
    StampSoundAt(Run(InitState(pools, nextId, stateless), es).value, id);
  }

  lemma StampSoundAt(s: State, id: nat)
    requires Inv(s) && id in s.tasks
    requires s.tasks[id].configVer == Current(s).ver && |s.hist| - 1 - s.tasks[id].epoch < VERSIONS
    ensures var t, c := s.tasks[id], Current(s);
      && t.epoch == |s.hist| - 1 && c.pools != []
      && c.pools[Rotation.Slot(t.lastIndex, |c.pools|)] == t.sentTo
  {
    hide Rotation.Slot, Found;
    assert Stamped(s.hist, s.tasks[id]);
    SameEpoch(s.tasks[id].epoch, |s.hist| - 1);
  }

  lemma SameEpoch(a: nat, b: nat)
    requires a <= b < a + VERSIONS && a % VERSIONS == b % VERSIONS
    ensures a == b
  {
  }

  // ----- identities and addresses

  /** No published configuration holds one pool twice. */
  ghost predicate IdInv(s: State) {
    s.hist != [] && forall k :: 0 <= k < |s.hist| ==> GoodPools(s.hist[k].pools, s.nextId)
  }

  ghost predicate AddrInv(s: State) {
    s.hist != [] && Distinct(Addrs(Current(s).pools))
  }

  /** Every update asks for distinct addresses. */
  ghost predicate DistinctUpdates(es: seq<Event>) {
    forall i :: 0 <= i < |es| && es[i].Update? ==> Distinct(es[i].addrs)
  }

  lemma PublishIdInv(s: State, pools: seq<Pool>, n: nat)
    requires IdInv(s) && n >= s.nextId && GoodPools(pools, n)
    ensures IdInv(Publish(s, pools, n))
  {
    hide NextVer;
    var h := Publish(s, pools, n).hist;
    forall k | 0 <= k < |h| ensures GoodPools(h[k].pools, n) {
      if k < |s.hist| {
        assert GoodPools(s.hist[k].pools, s.nextId);
      }
    }
  }

  /** Only redirects and updates publish. */
  lemma StepHist(s: State, e: Event)
    requires Enabled(s, e) && !e.Redirect? && !e.Update?
    ensures Step(s, e).hist == s.hist && Step(s, e).nextId == s.nextId
  {
    hide Rotation.Slot, SelectFrom;
  }

  /** A redirect publishes nothing, or its address put in front of the current pools. */
  lemma RedirectHist(s: State, id: nat, ep: nat, addr: string)
    requires s.hist != [] && ep < |s.hist|
    ensures var s' := RedirectTo(s, id, ep, addr);
      || (s'.hist == s.hist && s'.nextId == s.nextId)
      || (&& IndexOf(Current(s).pools, addr).None?
          && s'.nextId == s.nextId + 1
          && s'.hist == s.hist + [Config([Pool(s.nextId, addr)] + Current(s).pools, NextVer(Current(s).ver))])
  {
  }

  lemma StepIdInv(s: State, e: Event)
    requires IdInv(s) && Enabled(s, e)
    ensures IdInv(Step(s, e))
  {
    hide GoodPools, RedirectTo, Rotation.Slot, SelectFrom;
    if e.Redirect? {
      RedirectIdInv(s, e.id, e.epoch, e.addr);
    } else if e.Update? {
      UpdateIdInv(s, e.addrs);
    } else {
      StepHist(s, e);
    }
  }

  lemma UpdateIdInv(s: State, addrs: seq<string>)
    requires IdInv(s)
    ensures IdInv(Step(s, Update(addrs)))
  {
    hide GoodPools, Rebuild, ByAddr;
    var now := Current(s).pools;
    UpdateGood(now, addrs, s.nextId);
    var (ps, n) := Rebuild(ByAddr(now), addrs, s.nextId);
    PublishIdInv(s, ps, n);
  }

  lemma UpdateGood(pools: seq<Pool>, addrs: seq<string>, nextId: nat)
    requires GoodPools(pools, nextId)
    ensures var (ps, n) := Rebuild(ByAddr(pools), addrs, nextId);
      n >= nextId && GoodPools(ps, n)
  {
    hide GoodPools, GoodMap, Placed, Rebuild, ByAddr;
    ByAddrGood(pools, nextId);
    RebuildCorrect(ByAddr(pools), addrs, nextId);
  }

  lemma RedirectIdInv(s: State, id: nat, ep: nat, addr: string)
    requires IdInv(s) && ep < |s.hist|
    ensures IdInv(RedirectTo(s, id, ep, addr))
  {
    hide RedirectTo, NextVer;
    RedirectHist(s, id, ep, addr);
    FrontGood(Current(s).pools, s.nextId, addr);
    PublishIdInv(s, [Pool(s.nextId, addr)] + Current(s).pools, s.nextId + 1);
  }

  lemma FrontGood(pools: seq<Pool>, nextId: nat, addr: string)
    requires GoodPools(pools, nextId)
    ensures GoodPools([Pool(nextId, addr)] + pools, nextId + 1)
  {
  }

  lemma StepAddrInv(s: State, e: Event)
    requires IdInv(s) && AddrInv(s) && Enabled(s, e) && (e.Update? ==> Distinct(e.addrs))
    ensures AddrInv(Step(s, e))
  {
    hide Rotation.Slot, Distinct, GoodPools, RedirectTo, Rebuild, ByAddr, SelectFrom;
    if e.Redirect? {
      RedirectAddrInv(s, e.id, e.epoch, e.addr);
    } else if e.Update? {
      assert GoodPools(Current(s).pools, s.nextId);
      UpdatedPools(Current(s).pools, e.addrs, s.nextId);
    } else {
      StepHist(s, e);
    }
  }

  lemma RedirectAddrInv(s: State, id: nat, ep: nat, addr: string)
    requires AddrInv(s) && ep < |s.hist|
    ensures AddrInv(RedirectTo(s, id, ep, addr))
  {
    hide RedirectTo, Distinct, NextVer;
    RedirectHist(s, id, ep, addr);
    if IndexOf(Current(s).pools, addr).None? {
      RedirectAddsOnce(Current(s).pools, addr, s.nextId);
    }
  }

  /** Whichever way a redirect took, its task and its pending index are at the address it asked for. */
  lemma RedirectFinds(s: State, id: nat, ep: nat, addr: string)
    requires s.hist != [] && ep < |s.hist|
    ensures var s' := RedirectTo(s, id, ep, addr);
      && id in s'.tasks && s'.tasks[id].sentTo.addr == addr
      && |s'.leaders| == |s.leaders| + 1 && s'.leaders[..|s.leaders|] == s.leaders
      && var r := s'.leaders[|s.leaders|];
         && r == Pending(s'.tasks[id].lastIndex, s'.tasks[id].epoch, addr) && Found(s'.hist, r)
         && (ep == |s.hist| - 1 ==> r.epoch == |s'.hist| - 1)
  {
    var now := Current(s).pools;
    if IndexOf(s.hist[ep].pools, addr).None? && IndexOf(now, addr).None? {
      assert ([Pool(s.nextId, addr)] + now)[0].addr == addr;
    }
  }

  lemma {:induction false} RunIdInv(s: State, es: seq<Event>)
    requires IdInv(s) && Run(s, es).Some?
    ensures IdInv(Run(s, es).value)
    decreases |es|
  {
    if es != [] {
      hide IdInv, Step, Enabled;
      StepIdInv(s, es[0]);
      RunIdInv(Step(s, es[0]), es[1..]);
    }
  }

  /** However redirects race, no address is ever in the current configuration twice. */
  lemma {:induction false} AddressesStayDistinct(s: State, es: seq<Event>)
    requires IdInv(s) && AddrInv(s) && Run(s, es).Some? && DistinctUpdates(es)
    ensures AddrInv(Run(s, es).value)
    decreases |es|
  {
    if es != [] {
      hide AddrInv, IdInv, Step, Enabled, Distinct;
      StepAddrInv(s, es[0]);
      StepIdInv(s, es[0]);
      assert forall i :: 0 <= i < |es[1..]| ==> es[1..][i] == es[i + 1];
      AddressesStayDistinct(Step(s, es[0]), es[1..]);
    }
  }

  // ----- how configurations grow without updates

  /** From epoch a on, every configuration is the one before with one pool put in front. */
  ghost predicate GrownFrom(hist: seq<Config>, a: nat) {
    forall k :: a < k < |hist| ==> PutInFront(hist, k)
  }

  ghost predicate PutInFront(hist: seq<Config>, k: nat)
    requires 0 < k < |hist|
  {
    hist[k].pools != [] && hist[k].pools[1..] == hist[k - 1].pools
  }

  lemma StepGrows(s: State, e: Event, a: nat)
    requires Enabled(s, e) && !e.Update? && GrownFrom(s.hist, a)
    ensures GrownFrom(Step(s, e).hist, a) && s.hist <= Step(s, e).hist
  {
    hide RedirectTo, NextVer, Rotation.Slot, SelectFrom, GrownFrom;
    if e.Redirect? {
      RedirectHist(s, e.id, e.epoch, e.addr);
      HistGrows(s.hist, Step(s, e).hist, a);
    } else {
      StepHist(s, e);
    }
  }

  lemma HistGrows(hist: seq<Config>, hist': seq<Config>, a: nat)
    requires hist != [] && GrownFrom(hist, a)
    requires hist' == hist || (hist <= hist' && |hist'| == |hist| + 1 && PutInFront(hist', |hist|))
    ensures GrownFrom(hist', a)
  {
    forall k | a < k < |hist'| ensures PutInFront(hist', k) {
      if k < |hist| {
        assert PutInFront(hist, k);
      }
    }
  }

  ghost predicate NoUpdate(es: seq<Event>) {
    forall i :: 0 <= i < |es| ==> !es[i].Update?
  }

  /** Redirects, traffic and stores in any order only ever put pools in front. */
  lemma {:induction false} RunGrows(s: State, es: seq<Event>, a: nat)
    requires GrownFrom(s.hist, a) && Run(s, es).Some? && NoUpdate(es)
    ensures GrownFrom(Run(s, es).value.hist, a) && s.hist <= Run(s, es).value.hist
    decreases |es|
  {
    if es != [] {
      hide GrownFrom, Step, Enabled;
      StepGrows(s, es[0], a);
      assert forall i :: 0 <= i < |es[1..]| ==> es[1..][i] == es[i + 1];
      RunGrows(Step(s, es[0]), es[1..], a);
    }
  }

  /** The pools of epoch a sit behind b - a later ones. */
  lemma {:induction false} Grown(hist: seq<Config>, a: nat, b: nat)
    requires GrownFrom(hist, a) && a <= b < |hist|
    ensures |hist[b].pools| == b - a + |hist[a].pools| && hist[b].pools[b - a..] == hist[a].pools
    decreases b - a
  {
    if a < b {
      Grown(hist, a, b - 1);
      assert PutInFront(hist, b);
      assert hist[b].pools[b - a..] == hist[b].pools[1..][b - 1 - a..];
    }
  }
}
