/** Cluster snapshots: choosing a pool, finding one by address, adding and replacing addresses. */
module Cluster {
  import opened Errors

  /** A connection pool is an identity and the address it connects to. */
  datatype Pool = Pool(id: nat, addr: string)

  /** A published snapshot; the version is a wrapping 64-bit counter. */
  datatype Config = Config(pools: seq<Pool>, ver: nat)

  const VERSIONS: nat := 0x1_0000_0000_0000_0000

  function NextVer(v: nat): nat {
    (v + 1) % VERSIONS
  }

  // ----- selection

  /**
   The first of `n` un-reduced positions from `seed` whose health probe answers true. `probe(i)` is
   the answer at position i, read at the time the search gets there.
   */
  function SelectFrom(probe: nat -> bool, seed: nat, n: nat): (r: Option<nat>)
    ensures r.Some? ==> seed <= r.value < seed + n && probe(r.value) && forall j: nat :: seed <= j < r.value ==> !probe(j)
    ensures r.None? <==> forall j: nat :: seed <= j < seed + n ==> !probe(j)
    decreases n
  {
    if n == 0 then None
    else if probe(seed) then Some(seed)
    else SelectFrom(probe, seed + 1, n - 1)
  }

  lemma SelectIs(probe: nat -> bool, seed: nat, n: nat, i: nat)
    requires seed <= i < seed + n && probe(i) && forall j: nat :: seed <= j < i ==> !probe(j)
    ensures SelectFrom(probe, seed, n) == Some(i)
  {
    assert SelectFrom(probe, seed, n).Some?;
  }

  function IndexOf(pools: seq<Pool>, addr: string): (r: Option<nat>)
    ensures r.Some? ==> r.value < |pools| && pools[r.value].addr == addr
    ensures r.Some? ==> forall j :: 0 <= j < r.value ==> pools[j].addr != addr
    ensures r.None? <==> forall p :: p in pools ==> p.addr != addr
  {
    if pools == [] then None
    else if pools[0].addr == addr then Some(0)
    else
      match IndexOf(pools[1..], addr)
      case None => None
      case Some(i) => Some(i + 1)
  }

  function Addrs(pools: seq<Pool>): (r: seq<string>)
    ensures |r| == |pools|
    ensures forall i :: 0 <= i < |pools| ==> r[i] == pools[i].addr
  {
    seq(|pools|, i requires 0 <= i < |pools| => pools[i].addr)
  }

  ghost predicate Distinct<T>(s: seq<T>) {
    forall i, j :: 0 <= i < j < |s| ==> s[i] != s[j]
  }

  /** Identities are distinct and below the next fresh one. */
  ghost predicate GoodPools(pools: seq<Pool>, nextId: nat) {
    && (forall i, j :: 0 <= i < j < |pools| ==> pools[i].id != pools[j].id)
    && (forall p :: p in pools ==> p.id < nextId)
  }

  // ----- replacing addresses

  /** The pools by address; of several with one address the last is kept. */
  function ByAddr(pools: seq<Pool>): (m: map<string, Pool>)
    ensures forall a :: a in m ==> m[a] in pools && m[a].addr == a
    ensures forall p :: p in pools ==> p.addr in m
  {
    if pools == [] then map[]
    else ByAddr(pools[..|pools| - 1])[pools[|pools| - 1].addr := pools[|pools| - 1]]
  }

  /** Of several pools with one address the last one is found. */
  lemma {:induction false} LastWins(pools: seq<Pool>, i: nat)
    requires i < |pools| && forall j :: i < j < |pools| ==> pools[j].addr != pools[i].addr
    ensures pools[i].addr in ByAddr(pools) && ByAddr(pools)[pools[i].addr] == pools[i]
  {
    if i < |pools| - 1 {
      LastWins(pools[..|pools| - 1], i);
    }
  }

  /** Walk the requested addresses, using each available pool at most once. */
  function Rebuild(free: map<string, Pool>, addrs: seq<string>, nextId: nat): (seq<Pool>, nat) {
    if addrs == [] then ([], nextId)
    else if addrs[0] in free then
      var (ps, n) := Rebuild(free - {addrs[0]}, addrs[1..], nextId);
      ([free[addrs[0]]] + ps, n)
    else
      var (ps, n) := Rebuild(free, addrs[1..], nextId + 1);
      ([Pool(nextId, addrs[0])] + ps, n)
  }

  ghost predicate GoodMap(m: map<string, Pool>, nextId: nat) {
    && (forall a :: a in m ==> m[a].addr == a && m[a].id < nextId)
    && (forall a, b :: a in m && b in m && a != b ==> m[a].id != m[b].id)
  }

  lemma ByAddrGood(pools: seq<Pool>, nextId: nat)
    requires GoodPools(pools, nextId)
    ensures GoodMap(ByAddr(pools), nextId)
  {
  }

  /** Which pool the k-th requested address gets: an available one at its first occurrence, else a new one. */
  ghost predicate Placed(free: map<string, Pool>, addrs: seq<string>, nextId: nat, ps: seq<Pool>, k: nat)
    requires |ps| == |addrs| && k < |ps|
  {
    && ps[k].addr == addrs[k]
    && if addrs[k] in free && addrs[k] !in addrs[..k] then ps[k] == free[addrs[k]] else ps[k].id >= nextId
  }

  /**
   The rebuilt list has exactly the requested addresses in order; an available pool is reused at the
   first occurrence of its address and nowhere else; no identity occurs twice.
   */
  lemma {:induction false} RebuildCorrect(free: map<string, Pool>, addrs: seq<string>, nextId: nat)
    requires GoodMap(free, nextId)
    ensures var (ps, n) := Rebuild(free, addrs, nextId);
      && n >= nextId && |ps| == |addrs| && GoodPools(ps, n)
      && (forall k :: 0 <= k < |ps| ==> Placed(free, addrs, nextId, ps, k))
    decreases |addrs|
  {
    if addrs != [] {
      var a := addrs[0];
      var reuse := a in free;
      var free' := if reuse then free - {a} else free;
      var next' := if reuse then nextId else nextId + 1;
      RebuildCorrect(free', addrs[1..], next');
      var (tail, n) := Rebuild(free', addrs[1..], next');
      var head := if reuse then free[a] else Pool(nextId, a);
      var ps := [head] + tail;
      assert Rebuild(free, addrs, nextId) == (ps, n);
      forall k | 0 < k < |ps|
        ensures ps[k].id != head.id && Placed(free, addrs, nextId, ps, k) && ps[k] == tail[k - 1]
      {
        PlacedLater(free, addrs, nextId, free', next', tail, k - 1);
      }
      assert Placed(free, addrs, nextId, ps, 0);
    }
  }

  lemma PlacedLater(free: map<string, Pool>, addrs: seq<string>, nextId: nat, free': map<string, Pool>, next': nat,
                    tail: seq<Pool>, k: nat)
    requires GoodMap(free, nextId) && addrs != [] && |tail| == |addrs| - 1 && k < |tail|
    requires free' == (if addrs[0] in free then free - {addrs[0]} else free)
    requires next' == if addrs[0] in free then nextId else nextId + 1
    requires Placed(free', addrs[1..], next', tail, k)
    ensures var head := if addrs[0] in free then free[addrs[0]] else Pool(nextId, addrs[0]);
      tail[k].id != head.id && Placed(free, addrs, nextId, [head] + tail, k + 1)
  {
    assert addrs[..k + 1] == [addrs[0]] + addrs[1..][..k];
  }

  // ----- the pool object

  class FailoverPool {
    var cluster: Config
    var nextNode: nat
    const stateless: bool
    var nextId: nat

    ghost predicate Valid()
      reads this
    {
      GoodPools(cluster.pools, nextId) && cluster.ver < VERSIONS
    }

    /** One fresh pool per address, version 0. */
    constructor (addrs: seq<string>, stateless: bool)
      ensures Valid() && Addrs(cluster.pools) == addrs && cluster.ver == 0 && nextNode == 0
      ensures this.stateless == stateless
    {
      cluster := Config(seq(|addrs|, i requires 0 <= i < |addrs| => Pool(i, addrs[i])), 0);
      nextNode := 0;
      this.stateless := stateless;
      nextId := |addrs|;
    }

    /** `last` is the previous position of a retry; without one this is a first selection. */
    method Select(snapshot: Config, last: Option<nat>, probe: nat -> bool) returns (r: Option<nat>)
      modifies this`nextNode
      ensures snapshot.pools == [] ==> r == None && nextNode == old(nextNode)
      ensures snapshot.pools != [] ==>
        && r == SelectFrom(probe, if last.Some? then last.value + 1 else old(nextNode), |snapshot.pools|)
        && nextNode == old(nextNode) + (if last.None? && stateless then 1 else 0)
    {
      var l := |snapshot.pools|;
      if l == 0 {
        return None;
      }
      var seed;
      if last.Some? {
        seed := last.value + 1;
      } else {
        seed := nextNode;
        if stateless {
          nextNode := nextNode + 1;
        }
      }
      for i := seed to seed + l
        invariant forall j: nat :: seed <= j < i ==> !probe(j)
      {
        if probe(i) {
          SelectIs(probe, seed, l, i);
          return Some(i);
        }
      }
      return None;
    }

    /** Health is ignored: the server's redirect is taken at its word. */
    method GetByAddr(snapshot: Config, addr: string) returns (r: Option<nat>)
      ensures r == IndexOf(snapshot.pools, addr)
    {
      for i := 0 to |snapshot.pools|
        invariant forall j :: 0 <= j < i ==> snapshot.pools[j].addr != addr
      {
        if snapshot.pools[i].addr == addr {
          return Some(i);
        }
      }
      return None;
    }

    /** `seen` is the snapshot of the unlocked fast path, possibly stale when the lock is taken. */
    method GetOrAddAddr(seen: Config, addr: string) returns (pool: Pool, index: nat, ver: nat)
      requires Valid()
      modifies this`cluster, this`nextId
      ensures Valid()
      ensures IndexOf(seen.pools, addr).Some? ==>
        && cluster == old(cluster) && ver == seen.ver
        && index == IndexOf(seen.pools, addr).value && pool == seen.pools[index]
      ensures IndexOf(seen.pools, addr).None? ==>
        && ver == cluster.ver && index < |cluster.pools| && pool == cluster.pools[index]
        && IndexOf(cluster.pools, addr) == Some(index)
      ensures cluster == old(cluster) || (
        && IndexOf(old(cluster).pools, addr).None?
        && cluster == Config([Pool(old(nextId), addr)] + old(cluster).pools, NextVer(old(cluster).ver)))
    {
      var fast := GetByAddr(seen, addr);
      if fast.Some? {
        return seen.pools[fast.value], fast.value, seen.ver;
      }
      var again := GetByAddr(cluster, addr);
      if again.Some? {
        return cluster.pools[again.value], again.value, cluster.ver;
      }
      var added := Pool(nextId, addr);
      nextId := nextId + 1;
      cluster := Config([added] + cluster.pools, NextVer(cluster.ver));
      return added, 0, cluster.ver;
    }

    method UpdateAddrs(addrs: seq<string>)
      requires Valid()
      modifies this`cluster, this`nextId
      ensures Valid()
      ensures cluster.ver == NextVer(old(cluster).ver)
      ensures Addrs(cluster.pools) == addrs
      ensures forall k :: 0 <= k < |addrs| ==>
        if addrs[k] in ByAddr(old(cluster).pools) && addrs[k] !in addrs[..k]
        then cluster.pools[k] == ByAddr(old(cluster).pools)[addrs[k]]
        else cluster.pools[k] !in old(cluster).pools
      ensures (cluster.pools, nextId) == Rebuild(ByAddr(old(cluster).pools), addrs, old(nextId))
    {
      var free := PoolsByAddr(cluster.pools);
      UpdatedPools(cluster.pools, addrs, nextId);
      var pools;
      pools, nextId := RebuildPools(free, addrs, nextId);
      cluster := Config(pools, NextVer(cluster.ver));
    }
  }

  method PoolsByAddr(pools: seq<Pool>) returns (m: map<string, Pool>)
    ensures m == ByAddr(pools)
  {
    m := map[];
    for i := 0 to |pools|
      invariant m == ByAddr(pools[..i])
    {
      ByAddrSnoc(pools, i);
      m := m[pools[i].addr := pools[i]];
    }
    assert pools[..|pools|] == pools;
  }

  lemma ByAddrSnoc(pools: seq<Pool>, i: nat)
    requires i < |pools|
    ensures ByAddr(pools[..i + 1]) == ByAddr(pools[..i])[pools[i].addr := pools[i]]
  {
    var s := pools[..i + 1];
    assert s[..i] == pools[..i] && s[i] == pools[i];
  }

  method RebuildPools(free: map<string, Pool>, addrs: seq<string>, nextId: nat) returns (pools: seq<Pool>, newId: nat)
    ensures pools == Rebuild(free, addrs, nextId).0 && newId == Rebuild(free, addrs, nextId).1
  {
    hide Rebuild;
    var left := free;
    pools, newId := [], nextId;
    assert addrs[0..] == addrs;
    for k := 0 to |addrs|
      invariant Rebuild(free, addrs, nextId).0 == pools + Rebuild(left, addrs[k..], newId).0
      invariant Rebuild(free, addrs, nextId).1 == Rebuild(left, addrs[k..], newId).1
    {
      var a := addrs[k];
      RebuildUnfold(left, addrs[k..], newId);
      assert addrs[k..][1..] == addrs[k + 1..];
      if a in left {
        pools := pools + [left[a]];
        left := left - {a};
      } else {
        pools := pools + [Pool(newId, a)];
        newId := newId + 1;
      }
    }
    assert addrs[|addrs|..] == [];
    RebuildNothing(left, newId);
  }

  lemma RebuildNothing(free: map<string, Pool>, nextId: nat)
    ensures Rebuild(free, [], nextId) == ([], nextId)
  {
  }

  lemma RebuildUnfold(free: map<string, Pool>, addrs: seq<string>, nextId: nat)
    requires addrs != []
    ensures var a := addrs[0];
      if a in free then
        var rest := Rebuild(free - {a}, addrs[1..], nextId);
        Rebuild(free, addrs, nextId).0 == [free[a]] + rest.0 && Rebuild(free, addrs, nextId).1 == rest.1
      else
        var rest := Rebuild(free, addrs[1..], nextId + 1);
        Rebuild(free, addrs, nextId).0 == [Pool(nextId, a)] + rest.0 && Rebuild(free, addrs, nextId).1 == rest.1
  {
  }

  lemma UpdatedPools(pools: seq<Pool>, addrs: seq<string>, nextId: nat)
    requires GoodPools(pools, nextId)
    ensures var (ps, n) := Rebuild(ByAddr(pools), addrs, nextId);
      && Addrs(ps) == addrs && GoodPools(ps, n) && |ps| == |addrs|
      && (forall k :: 0 <= k < |addrs| ==>
            if addrs[k] in ByAddr(pools) && addrs[k] !in addrs[..k] then ps[k] == ByAddr(pools)[addrs[k]]
            else ps[k] !in pools)
  {
    ByAddrGood(pools, nextId);
    RebuildCorrect(ByAddr(pools), addrs, nextId);
    var (ps, n) := Rebuild(ByAddr(pools), addrs, nextId);
    forall k | 0 <= k < |addrs|
      ensures Addrs(ps)[k] == addrs[k]
      ensures if addrs[k] in ByAddr(pools) && addrs[k] !in addrs[..k] then ps[k] == ByAddr(pools)[addrs[k]]
              else ps[k] !in pools
    {
      assert Placed(ByAddr(pools), addrs, nextId, ps, k);
    }
  }

  /** Putting a missing address in front keeps addresses distinct and makes it the first. */
  lemma RedirectAddsOnce(pools: seq<Pool>, addr: string, id: nat)
    requires Distinct(Addrs(pools)) && IndexOf(pools, addr).None?
    ensures var next := [Pool(id, addr)] + pools;
      Distinct(Addrs(next)) && IndexOf(next, addr) == Some(0)
  {
  }
}
