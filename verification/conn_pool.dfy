/**
 The workers of one connection pool: a monitor (worker id 0) that hands its place to a fresh worker
 by compare-and-swap, user-spawned workers, send failures and exits, in any interleaving.
 */
module ConnPool {
  import opened Errors

  datatype Place =
    | Connecting
    | AtMonitor                     // top of the monitor loop
    | PingBusy                      // other workers exist: ping after a second
    | Waiting                       // alone: receive with a one-second timer
    | PingIdle
    | HasTask                       // received a task, handover not decided
    | BeforeCas                     // saw in-flight tasks and itself alone
    | Handing                       // swapped the counter from 1 to 2
    | Sending
    | Serving                       // run_worker
    | Exiting                       // run returned, counter not lowered yet

  datatype Worker = Worker(id: nat, place: Place)

  datatype State = State(
    workers: map<nat, Worker>,      // by birth; removed when the counter has been lowered
    born: nat,
    count: int,                     // worker_count
    senders: bool,                  // some pool handle still exists
    isOk: bool)

  /** ConnPool::new has spawned its first worker. A spawn takes effect when it raises the counter:
      nothing observes the new worker before its own first step. */
  function InitState(): State {
    State(map[0 := Worker(0, Connecting)], 1, 1, true, true)
  }

  datatype Event =
    | UserSpawn
    | DropSenders
    | ConnectOk(w: nat) | ConnectFail(w: nat)
    | ReadWorkers(w: nat)
    | PingOk(w: nat) | PingFail(w: nat)
    | Disconnected(w: nat) | TimedOut(w: nat) | GotTask(w: nat)
    | Decide(w: nat, inflight: bool)
    | Cas(w: nat)
    | HandOver(w: nat)
    | SendOk(w: nat) | SendFail(w: nat)
    | ServeEnd(w: nat, ok: bool)
    | Exit(w: nat)

  predicate At(s: State, w: nat, p: Place) {
    w in s.workers && s.workers[w].place == p
  }

  predicate Enabled(s: State, e: Event) {
    match e
    case UserSpawn => s.senders
    case DropSenders => s.senders
    case ConnectOk(w) => At(s, w, Connecting)
    case ConnectFail(w) => At(s, w, Connecting)
    case ReadWorkers(w) => At(s, w, AtMonitor)
    case PingOk(w) => At(s, w, PingBusy) || At(s, w, PingIdle)
    case PingFail(w) => At(s, w, PingBusy) || At(s, w, PingIdle)
    case Disconnected(w) => At(s, w, Waiting) && !s.senders
    case TimedOut(w) => At(s, w, Waiting)
    case GotTask(w) => At(s, w, Waiting)
    case Decide(w, _) => At(s, w, HasTask)
    case Cas(w) => At(s, w, BeforeCas)
    case HandOver(w) => At(s, w, Handing)
    case SendOk(w) => At(s, w, Sending)
    case SendFail(w) => At(s, w, Sending)
    case ServeEnd(w, ok) => At(s, w, Serving) && (ok ==> !s.senders)
    case Exit(w) => At(s, w, Exiting)
  }

  function Move(s: State, w: nat, p: Place): State
    requires w in s.workers
  {
    s.(workers := s.workers[w := s.workers[w].(place := p)])
  }

  function Birth(s: State, id: nat): State {
    s.(workers := s.workers[s.born := Worker(id, Connecting)], born := s.born + 1)
  }

  function Step(s: State, e: Event): State
    requires Enabled(s, e)
  {
    match e
    case UserSpawn => Birth(s, if s.count > 0 then s.count else 0).(count := s.count + 1)
    case DropSenders => s.(senders := false)
    case ConnectOk(w) => Move(s, w, if s.workers[w].id == 0 then AtMonitor else Serving)
    case ConnectFail(w) => s.(isOk := false)
    case ReadWorkers(w) => Move(s, w, if s.count > 1 then PingBusy else Waiting)
    case PingOk(w) => Move(s, w, AtMonitor)
    case PingFail(w) => Move(s, w, Connecting).(isOk := false)
    case Disconnected(w) => Move(s, w, Exiting)
    case TimedOut(w) => Move(s, w, PingIdle)
    case GotTask(w) => Move(s, w, HasTask)
    case Decide(w, inflight) => Move(s, w, if inflight && s.count == 1 then BeforeCas else Sending)
    case Cas(w) =>
      if s.count == 1 then Move(s, w, Handing).(count := 2) else Move(s, w, Sending)
    case HandOver(w) => Birth(s.(workers := s.workers[w := Worker(1, Sending)]), 0)
    case SendOk(w) => Move(s, w, if s.workers[w].id == 0 then AtMonitor else Serving)
    case SendFail(w) => Move(s, w, if s.workers[w].id == 0 then Connecting else Exiting).(isOk := false)
    case ServeEnd(w, ok) => Move(s, w, Exiting).(isOk := s.isOk && ok)
    case Exit(w) => s.(workers := s.workers - {w}, count := s.count - 1)
  }

  function Run(s: State, es: seq<Event>): Option<State>
    decreases |es|
  {
    if es == [] then Some(s)
    else if Enabled(s, es[0]) then Run(Step(s, es[0]), es[1..])
    else None
  }

  // ----- invariant

  predicate MonitorPlace(p: Place) {
    p.AtMonitor? || p.PingBusy? || p.Waiting? || p.PingIdle? || p.HasTask? || p.BeforeCas? || p.Handing?
  }

  /** `m` is the one worker that may carry id 0. */
  ghost predicate Inv(s: State, m: nat) {
    && (forall w :: w in s.workers ==> w < s.born)
    && (forall w :: w in s.workers && s.workers[w].id == 0 ==> w == m)
    && (forall w :: w in s.workers && MonitorPlace(s.workers[w].place) ==> s.workers[w].id == 0)
    && (forall w :: w in s.workers && s.workers[w].place.Serving? ==> s.workers[w].id != 0)
    && (s.senders ==> m in s.workers && s.workers[m].id == 0 && !s.workers[m].place.Exiting?)
    && s.count == |s.workers| + (if At(s, m, Handing) then 1 else 0)
    && (At(s, m, Handing) ==> s.count >= 2)
  }

  function NextMonitor(s: State, m: nat, e: Event): nat {
    if e.HandOver? then s.born else m
  }

  lemma MoveInv(s: State, m: nat, w: nat, p: Place)
    requires Inv(s, m) && w in s.workers
    requires !s.workers[w].place.Handing? && !p.Handing?
    requires MonitorPlace(p) ==> s.workers[w].id == 0
    requires p.Serving? ==> s.workers[w].id != 0
    requires p.Exiting? ==> s.workers[w].id != 0 || !s.senders
    ensures Inv(Move(s, w, p), m)
    ensures forall ok :: Inv(Move(s, w, p).(isOk := ok), m)
  {
  }

  lemma WorkerFacts(s: State, m: nat, w: nat)
    requires Inv(s, m) && w in s.workers
    ensures MonitorPlace(s.workers[w].place) ==> s.workers[w].id == 0
    ensures s.workers[w].place.Serving? ==> s.workers[w].id != 0
  {
  }

  /** Steps that only move one worker, and possibly mark the pool unhealthy. */
  lemma MovingStepInv(s: State, m: nat, e: Event)
    requires Inv(s, m) && Enabled(s, e)
    requires !(e.UserSpawn? || e.DropSenders? || e.ConnectFail? || e.Cas? || e.HandOver? || e.Exit?)
    ensures Inv(Step(s, e), m)
  {
    hide Inv, Move;
    WorkerFacts(s, m, e.w);
    match e
    case ConnectOk(w) => MoveInv(s, m, w, if s.workers[w].id == 0 then AtMonitor else Serving);
    case ReadWorkers(w) => MoveInv(s, m, w, if s.count > 1 then PingBusy else Waiting);
    case PingOk(w) => MoveInv(s, m, w, AtMonitor);
    case PingFail(w) => MoveInv(s, m, w, Connecting);
    case Disconnected(w) => MoveInv(s, m, w, Exiting);
    case TimedOut(w) => MoveInv(s, m, w, PingIdle);
    case GotTask(w) => MoveInv(s, m, w, HasTask);
    case Decide(w, inflight) => MoveInv(s, m, w, if inflight && s.count == 1 then BeforeCas else Sending);
    case SendOk(w) => MoveInv(s, m, w, if s.workers[w].id == 0 then AtMonitor else Serving);
    case SendFail(w) => MoveInv(s, m, w, if s.workers[w].id == 0 then Connecting else Exiting);
    case ServeEnd(w, ok) => MoveInv(s, m, w, Exiting);
  }

  lemma StepInv(s: State, m: nat, e: Event)
    requires Inv(s, m) && Enabled(s, e)
    ensures Inv(Step(s, e), NextMonitor(s, m, e))
  {
    match e
    case UserSpawn => SpawnInv(s, m);
    case DropSenders =>
    case ConnectFail(w) =>
    case Cas(w) => CasInv(s, m, w);
    case HandOver(w) => HandOverInv(s, m, w);
    case Exit(w) => ExitInv(s, m, w);
    case _ => MovingStepInv(s, m, e);
  }

  lemma ExitInv(s: State, m: nat, w: nat)
    requires Inv(s, m) && At(s, w, Exiting)
    ensures Inv(Step(s, Exit(w)), m)
  {
  }

  /** A spawned worker gets the old counter value, which the monitor keeps above zero. */
  lemma SpawnInv(s: State, m: nat)
    requires Inv(s, m) && s.senders
    ensures s.count >= 1
    ensures Inv(Step(s, UserSpawn), m)
  {
  }

  /** The swap succeeds only for a monitor that is the pool's one and only worker. */
  lemma CasInv(s: State, m: nat, w: nat)
    requires Inv(s, m) && At(s, w, BeforeCas)
    ensures Inv(Step(s, Cas(w)), m)
    ensures s.count == 1 ==> s.workers.Keys == {w}
  {
    if s.count == 1 {
      assert |s.workers.Keys - {w}| == 0;
      assert s.workers.Keys == {w};
    } else {
      MoveInv(s, m, w, Sending);
    }
  }

  /** The outgoing monitor gives up id 0 while the counter is already one ahead. */
  lemma HandingFacts(s: State, m: nat, w: nat)
    requires Inv(s, m) && At(s, w, Handing)
    ensures s.count == |s.workers| + 1
    ensures forall v :: v in s.workers ==> v < s.born
    ensures forall v :: v in s.workers && v != w ==> s.workers[v].id != 0 && !MonitorPlace(s.workers[v].place)
  {
  }

  lemma HandOverInv(s: State, m: nat, w: nat)
    requires Inv(s, m) && At(s, w, Handing)
    ensures Inv(Step(s, HandOver(w)), s.born)
  {
    hide Inv;
    HandingFacts(s, m, w);
    var mid := s.(workers := s.workers[w := Worker(1, Sending)]);
    BirthInv(mid);
  }

  /** A fresh monitor among workers of which none is the monitor. */
  lemma BirthInv(s: State)
    requires forall w :: w in s.workers ==> w < s.born && s.workers[w].id != 0 && !MonitorPlace(s.workers[w].place)
    requires s.count == |s.workers| + 1
    ensures Inv(Birth(s, 0), s.born)
  {
  }

  lemma {:induction false} RunInv(s: State, m: nat, es: seq<Event>) returns (m': nat)
    requires Inv(s, m) && Run(s, es).Some?
    ensures Inv(Run(s, es).value, m')
    decreases |es|
  {
    if es == [] {
      m' := m;
    } else {
      StepInv(s, m, es[0]);
      m' := RunInv(Step(s, es[0]), NextMonitor(s, m, es[0]), es[1..]);
    }
  }

  /** While any pool handle exists, exactly one worker carries id 0. */
  lemma UniqueMonitor(es: seq<Event>)
    requires Run(InitState(), es).Some? && Run(InitState(), es).value.senders
    ensures var s := Run(InitState(), es).value;
      exists m :: m in s.workers && s.workers[m].id == 0 && forall w :: w in s.workers && s.workers[w].id == 0 ==> w == m
  {
    var m := InitRun(es);
  }

  /** The counter is the number of workers not yet subtracted, plus one during a handover. */
  lemma WorkerCount(es: seq<Event>)
    requires Run(InitState(), es).Some?
    ensures var s := Run(InitState(), es).value;
      s.count == |s.workers| + (if exists w :: At(s, w, Handing) then 1 else 0)
  {
    var s := Run(InitState(), es).value;
    var m := InitRun(es);
    if w :| At(s, w, Handing) {
      assert w == m;
    }
  }

  lemma InitRun(es: seq<Event>) returns (m: nat)
    requires Run(InitState(), es).Some?
    ensures Inv(Run(InitState(), es).value, m)
  {
    assert InitState().workers.Keys == {0};
    m := RunInv(InitState(), 0, es);
  }

  /** Nothing ever makes an unhealthy pool healthy again, reconnecting included. */
  lemma {:induction false} HealthNeverReturns(s: State, es: seq<Event>)
    requires !s.isOk && Run(s, es).Some?
    ensures !Run(s, es).value.isOk
    decreases |es|
  {
    if es != [] {
      HealthNeverReturns(Step(s, es[0]), es[1..]);
    }
  }

  /** Events in which the pool learns that its address does not work. */
  predicate Fails(e: Event) {
    e.ConnectFail? || e.PingFail? || e.SendFail? || (e.ServeEnd? && !e.ok)
  }

  lemma {:induction false} HealthRun(s: State, es: seq<Event>)
    requires Run(s, es).Some?
    ensures Run(s, es).value.isOk <==> s.isOk && forall i :: 0 <= i < |es| ==> !Fails(es[i])
    decreases |es|
  {
    if es != [] {
      HealthStep(s, es[0]);
      hide Step, Enabled, Fails;
      HealthRun(Step(s, es[0]), es[1..]);
      assert forall i :: 0 <= i < |es[1..]| ==> es[1..][i] == es[i + 1];
      assert forall i :: 0 < i < |es| ==> es[i] == es[1..][i - 1];
    }
  }

  lemma HealthStep(s: State, e: Event)
    requires Enabled(s, e)
    ensures Step(s, e).isOk <==> s.isOk && !Fails(e)
  {
  }

  /** A pool is healthy exactly as long as nothing has failed: no connect, ping, send or serving. */
  lemma HealthyIff(es: seq<Event>)
    requires Run(InitState(), es).Some?
    ensures Run(InitState(), es).value.isOk <==> forall i :: 0 <= i < |es| ==> !Fails(es[i])
  {
    HealthRun(InitState(), es);
  }

  // ----- what the monitor does

  /** Places of a monitor that took itself for the only worker. */
  predicate Solo(p: Place) {
    p.Waiting? || p.PingIdle? || p.HasTask? || p.BeforeCas? || p.Handing?
  }

  ghost predicate NoneSolo(s: State) {
    forall w :: w in s.workers ==> !Solo(s.workers[w].place)
  }

  /** Events by which a monitor receives from the task queue or hands over. */
  predicate Receives(e: Event) {
    e.Disconnected? || e.TimedOut? || e.GotTask? || e.Decide? || e.Cas? || e.HandOver?
  }

  /** More than one worker is counted before every step of the run. */
  ghost predicate Crowded(s: State, es: seq<Event>)
    decreases |es|
  {
    es == [] || !Enabled(s, es[0]) || (s.count > 1 && Crowded(Step(s, es[0]), es[1..]))
  }

  lemma CrowdedStep(s: State, e: Event)
    requires NoneSolo(s) && Enabled(s, e) && s.count > 1
    ensures NoneSolo(Step(s, e)) && !Receives(e)
  {
  }

  /** With two or more workers the monitor only pings: the task queue is left to the others. */
  lemma {:induction false} MonitorOnlyPings(s: State, es: seq<Event>)
    requires NoneSolo(s) && Run(s, es).Some? && Crowded(s, es)
    ensures NoneSolo(Run(s, es).value)
    ensures forall i :: 0 <= i < |es| ==> !Receives(es[i])
    decreases |es|
  {
    if es != [] {
      CrowdedStep(s, es[0]);
      hide Step, Enabled, NoneSolo, Receives;
      MonitorOnlyPings(Step(s, es[0]), es[1..]);
      assert forall i :: 0 < i < |es| ==> es[i] == es[1..][i - 1];
    }
  }

  /** A lone monitor with tasks in flight hands its place to a fresh worker and goes on sending as worker 1. */
  lemma LoneHandover(s: State, w: nat)
    requires At(s, w, HasTask) && s.count == 1 && w < s.born
    ensures Run(s, [Decide(w, true), Cas(w), HandOver(w)])
         == Some(s.(workers := s.workers[w := Worker(1, Sending)][s.born := Worker(0, Connecting)], born := s.born + 1, count := 2))
  {
    var es := [Decide(w, true), Cas(w), HandOver(w)];
    var s1 := Step(s, es[0]);
    var s2 := Step(s1, es[1]);
    var s3 := Step(s2, es[2]);
    assert s2.workers == s.workers[w := s.workers[w].(place := Handing)];
    assert s3.workers == s.workers[w := Worker(1, Sending)][s.born := Worker(0, Connecting)];
    assert Run(s3, es[3..]) == Some(s3);
    assert es[2..][1..] == es[3..] && Run(s2, es[2..]) == Some(s3);
    assert es[1..][1..] == es[2..] && Run(s1, es[1..]) == Some(s3);
  }

  ghost predicate NoneBefore(s: State) {
    forall w :: w in s.workers ==> !s.workers[w].place.BeforeCas? && !s.workers[w].place.Handing?
  }

  lemma CalmStep(s: State, e: Event)
    requires NoneBefore(s) && Enabled(s, e) && !(e.Decide? && e.inflight)
    ensures NoneBefore(Step(s, e)) && !e.Cas? && !e.HandOver?
  {
  }

  /** Without tasks in flight no monitor ever hands over. */
  lemma {:induction false} HandoverNeedsInflight(s: State, es: seq<Event>)
    requires NoneBefore(s) && Run(s, es).Some?
    requires forall i :: 0 <= i < |es| ==> !(es[i].Decide? && es[i].inflight)
    ensures forall i :: 0 <= i < |es| ==> !es[i].Cas? && !es[i].HandOver?
    decreases |es|
  {
    if es != [] {
      CalmStep(s, es[0]);
      hide Step, Enabled, NoneBefore;
      assert forall i :: 0 <= i < |es[1..]| ==> es[1..][i] == es[i + 1];
      HandoverNeedsInflight(Step(s, es[0]), es[1..]);
      assert forall i :: 0 < i < |es| ==> es[i] == es[1..][i - 1];
    }
  }

  lemma RunCons(s: State, e: Event, es: seq<Event>)
    requires Enabled(s, e)
    ensures Run(s, [e] + es) == Run(Step(s, e), es)
  {
    assert ([e] + es)[1..] == es;
  }

  lemma RunTwo(s: State, a: Event, b: Event)
    requires Enabled(s, a) && Enabled(Step(s, a), b)
    ensures Run(s, [a] + [b]) == Some(Step(Step(s, a), b))
  {
    hide Step, Enabled;
    RunCons(s, a, [b]);
    RunCons(Step(s, a), b, []);
    assert [b] == [b] + [];
  }

  /** Moving one worker leaves everything else alone, and a later move replaces it. */
  lemma Moved(s: State, w: nat, p: Place)
    requires w in s.workers
    ensures var s' := Move(s, w, p);
      && At(s', w, p) && s'.workers[w].id == s.workers[w].id
      && s' == s.(workers := s'.workers) && s'.workers - {w} == s.workers - {w}
      && (forall q :: Move(s', w, q) == Move(s, w, q))
    ensures Move(s, w, s.workers[w].place) == s
  {
    forall q ensures Move(Move(s, w, p), w, q) == Move(s, w, q) {
      assert Move(Move(s, w, p), w, q).workers == Move(s, w, q).workers;
    }
    assert Move(s, w, s.workers[w].place).workers == s.workers;
  }

  /** A second of a monitor among other workers: it pings, and is where it was. */
  lemma CrowdedSecond(s: State, w: nat)
    requires At(s, w, AtMonitor) && s.count > 1
    ensures Run(s, [ReadWorkers(w)] + [PingOk(w)]) == Some(s)
  {
    hide Run, Move;
    Moved(s, w, PingBusy);
    RunTwo(s, ReadWorkers(w), PingOk(w));
  }

  /** A lone monitor that pings after a silent second is where it was. */
  lemma SilentSecond(s: State, w: nat)
    requires At(s, w, AtMonitor) && s.count <= 1
    ensures Run(s, [ReadWorkers(w)] + ([TimedOut(w)] + [PingOk(w)])) == Some(s)
  {
    hide Run, Move;
    Moved(s, w, Waiting);
    Moved(s, w, PingIdle);
    RunCons(s, ReadWorkers(w), [TimedOut(w)] + [PingOk(w)]);
    RunTwo(Move(s, w, Waiting), TimedOut(w), PingOk(w));
  }

  /** A lone monitor serves a task itself when nothing is in flight, and is where it was. */
  lemma LoneServes(s: State, w: nat)
    requires At(s, w, AtMonitor) && s.workers[w].id == 0 && s.count <= 1
    ensures Run(s, [ReadWorkers(w)] + ([GotTask(w)] + ([Decide(w, false)] + [SendOk(w)]))) == Some(s)
  {
    hide Run, Move;
    Moved(s, w, Waiting);
    Moved(s, w, HasTask);
    Moved(s, w, Sending);
    RunCons(s, ReadWorkers(w), [GotTask(w)] + ([Decide(w, false)] + [SendOk(w)]));
    RunCons(Move(s, w, Waiting), GotTask(w), [Decide(w, false)] + [SendOk(w)]);
    RunTwo(Move(s, w, HasTask), Decide(w, false), SendOk(w));
  }

  /** With all pool handles gone a lone monitor ends. */
  lemma LoneEnd(s: State, w: nat)
    requires At(s, w, AtMonitor) && s.count <= 1 && !s.senders
    ensures Run(s, [ReadWorkers(w)] + ([Disconnected(w)] + [Exit(w)]))
         == Some(s.(workers := s.workers - {w}, count := s.count - 1))
  {
    hide Run, Move;
    Moved(s, w, Waiting);
    Moved(s, w, Exiting);
    RunCons(s, ReadWorkers(w), [Disconnected(w)] + [Exit(w)]);
    RunTwo(Move(s, w, Waiting), Disconnected(w), Exit(w));
  }

  /**
   A connected worker monitors if it carries id 0 and serves the task queue otherwise, as does a former
   monitor once its task is sent; a failed connect is tried again.
   */
  lemma WorkerStarts(s: State, w: nat)
    requires At(s, w, Connecting) || (At(s, w, Sending) && s.workers[w].id != 0)
    ensures var s' := Step(s, if s.workers[w].place.Connecting? then ConnectOk(w) else SendOk(w));
      if s.workers[w].id == 0 then Enabled(s', ReadWorkers(w)) else Enabled(s', ServeEnd(w, false))
    ensures s.workers[w].place.Connecting? ==>
      Step(s, ConnectFail(w)).workers == s.workers && Step(s, ConnectFail(w)).count == s.count
  {
  }

  /** A worker other than the monitor does not reconnect: a failed send or the end of serving ends it. */
  lemma WorkerEnds(s: State, w: nat, e: Event)
    requires At(s, w, Sending) || At(s, w, Serving)
    requires s.workers[w].id != 0 && Enabled(s, e) && (e == SendFail(w) || e == ServeEnd(w, false) || e == ServeEnd(w, true))
    ensures var s' := Step(s, e);
      Enabled(s', Exit(w)) && Step(s', Exit(w)).workers == s.workers - {w} && Step(s', Exit(w)).count == s.count - 1
  {
  }

  /** The monitor reconnects after a failed ping or send, and keeps its identity. */
  lemma MonitorReconnects(s: State, w: nat, e: Event)
    requires w in s.workers && s.workers[w].id == 0 && Enabled(s, e) && (e == PingFail(w) || e == SendFail(w))
    ensures Step(s, e).workers == s.workers[w := Worker(0, Connecting)] && Step(s, e).count == s.count
  {
  }
}
