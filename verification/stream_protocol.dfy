/**
 One client connection as two interleaved processes over shared atomics.

 The sender runs send_task, ping, flush, set_error_and_exit and drop; the receiver runs the
 polling loop and, after any failure, the closing handshake. Every atomic access and every
 transfer of a task is its own step, in program order, under sequential consistency. Socket
 results, timer ticks and the order of steps are chosen by the environment.
 */
module StreamProtocol {
  import opened Errors
  import opened TaskTable

  datatype Sender =
    | Idle
    | Counted(x: Task)              // pending counter raised, `closed` not read yet
    | Refused(x: Task)              // `closed` was seen
    | RollingBack                   // refused task resolved, counter still raised
    | Admitted(x: Task)             // `closed` was not seen
    | Numbered(x: Task)             // sequence number assigned
    | Written(x: Task)              // bytes are on the socket
    | Guarded(x: Task)              // throttle guard taken, about to enter the channel
    | Throttling                    // waiting for the in-flight count to fall
    | WriteFailed(x: Task, stage: nat)  // stages: closed, hasErr, counter, stop flag, resolve
    | Returning(stage: nat)         // send_task's own error arm: closed, hasErr
    | PingAdmitted
    | PingWriting
    | FlushFailed(stage: nat)       // closed, hasErr, stop flag
    | Dropping(stage: nat)          // stop flag, closed
    | Gone

  datatype Receiver =
    | Polling
    | Holding(x: Task)              // response body of a taken task is being read
    | Failing                       // an error was returned, `closed` not stored yet
    | Draining                      // clean_pending_tasks, emptying the channel
    | Flushing                      // clean_pending_tasks, resolving what is filed
    | Checking                      // about to read the pending counter
    | Exited

  datatype State = State(
    sender: Sender,
    receiver: Receiver,
    closed: bool,
    hasErr: bool,
    count: int,                     // pending_task_count
    nextSeq: nat,
    table: Table,
    guards: nat,                    // in-flight guards held
    accepted: nat,                  // calls of send_task so far
    resolved: seq<Resolution>,
    lost: seq<Task>,                // encode failures: neither resolved nor uncounted
    dropped: seq<Task>,             // taken by a reader that the hasErr exit abandoned
    ticks: nat,
    threshold: nat)

  function InitState(timeout: nat, threshold: nat): State {
    State(Idle, Polling, false, false, 0, 1, Init(timeout), 0, 0, [], [], [], 0, threshold)
  }

  /** Steps of send_task and send_request. */
  datatype SendEvent =
    | SendBegin | ReadClosed | RefuseResolve | RollBack | Number | EncodeFail | WriteOk | WriteFail
    | WriteFailStep | ReturnErr | AddGuard | EnterChannel | ThrottleDone

  /** Steps of the sender's other calls: ping, flush, set_error_and_exit, drop. */
  datatype SideEvent =
    | PingBegin | PingNumber | PingOk | PingFail | FlushFail | FlushFailStep | SetError | DropBegin | DropStep

  datatype RecvEvent =
    | TimerTick | Drain | Lookup(num: nat) | Finish(outcome: Outcome) | FinishFail | HasErrExit | ReadFail
    | CloseNotice | ClosedExit | StoreClosed | DrainedEmpty | Flush | CheckCount

  datatype Event = Send(send: SendEvent) | Side(side: SideEvent) | Recv(recv: RecvEvent)

  predicate SendEnabled(s: State, e: SendEvent) {
    match e
    case SendBegin => s.sender.Idle?
    case ReadClosed => s.sender.Counted?
    case RefuseResolve => s.sender.Refused?
    case RollBack => s.sender.RollingBack?
    case Number => s.sender.Admitted?
    case EncodeFail => s.sender.Numbered?
    case WriteOk => s.sender.Numbered?
    case WriteFail => s.sender.Numbered?
    case WriteFailStep => s.sender.WriteFailed?
    case ReturnErr => s.sender.Returning?
    case AddGuard => s.sender.Written?
    case EnterChannel => s.sender.Guarded? && |s.table.chan| < 2 * s.threshold
    case ThrottleDone => s.sender.Throttling? && s.guards <= s.threshold
  }

  predicate SideEnabled(s: State, e: SideEvent) {
    match e
    case PingBegin => s.sender.Idle?
    case PingNumber => s.sender.PingAdmitted?
    case PingOk => s.sender.PingWriting?
    case PingFail => s.sender.PingWriting?
    case FlushFail => s.sender.Idle?
    case FlushFailStep => s.sender.FlushFailed?
    case SetError => s.sender.Idle?
    case DropBegin => s.sender.Idle?
    case DropStep => s.sender.Dropping?
  }

  predicate RecvEnabled(s: State, e: RecvEvent) {
    match e
    case TimerTick => s.receiver.Polling? || s.receiver.Holding?
    case Drain => (s.receiver.Polling? || s.receiver.Holding? || s.receiver.Draining?) && s.table.chan != []
    case Lookup(k) => s.receiver.Polling? && exists x :: x in Filed(s.table) && x.num == k
    case Finish(_) => s.receiver.Holding?
    case FinishFail => s.receiver.Holding?
    case HasErrExit => (s.receiver.Polling? || s.receiver.Holding?) && s.hasErr
    case ReadFail => s.receiver.Polling?
    case CloseNotice => s.receiver.Polling? && (s.sender.Dropping? || s.sender.Gone?)
    case ClosedExit => s.receiver.Polling? && s.closed && (Live(s.table) == [] || s.hasErr)
    case StoreClosed => s.receiver.Failing?
    case DrainedEmpty => s.receiver.Draining? && s.table.chan == []
    case Flush => s.receiver.Flushing?
    case CheckCount => s.receiver.Checking?
  }

  predicate Enabled(s: State, e: Event) {
    match e
    case Send(x) => SendEnabled(s, x)
    case Side(x) => SideEnabled(s, x)
    case Recv(x) => RecvEnabled(s, x)
  }

  function TheTask(s: seq<Task>, k: nat): (x: Task)
    requires exists y :: y in s && y.num == k
    ensures x in s && x.num == k
  {
    if s[0].num == k then s[0] else TheTask(s[1..], k)
  }

  function SendStep(s: State, e: SendEvent): State
    requires SendEnabled(s, e)
  {
    match e
    case SendBegin =>
      s.(sender := Counted(Task(s.accepted, 0)), count := s.count + 1, accepted := s.accepted + 1)
    case ReadClosed =>
      s.(sender := if s.closed then Refused(s.sender.x) else Admitted(s.sender.x))
    case RefuseResolve =>
      s.(sender := RollingBack, resolved := s.resolved + [Resolution(s.sender.x, Failed(IO))])
    case RollBack =>
      s.(sender := Idle, count := s.count - 1)
    case Number =>
      s.(sender := Numbered(s.sender.x.(num := s.nextSeq)), nextSeq := s.nextSeq + 1)
    case EncodeFail =>
      s.(sender := Returning(0), lost := s.lost + [s.sender.x])
    case WriteOk =>
      s.(sender := Written(s.sender.x))
    case WriteFail =>
      s.(sender := WriteFailed(s.sender.x, 0))
    case WriteFailStep =>
      var x, n := s.sender.x, s.sender.stage;
      if n == 0 then s.(sender := WriteFailed(x, 1), closed := true)
      else if n == 1 then s.(sender := WriteFailed(x, 2), hasErr := true)
      else if n == 2 then s.(sender := WriteFailed(x, 3), count := s.count - 1)
      else if n == 3 then s.(sender := WriteFailed(x, 4), table := s.table.(stopped := true))
      else s.(sender := Returning(0), resolved := s.resolved + [Resolution(x, Failed(IO))])
    case ReturnErr =>
      if s.sender.stage == 0 then s.(sender := Returning(1), closed := true)
      else s.(sender := Idle, hasErr := true)
    case AddGuard =>
      s.(sender := Guarded(s.sender.x), guards := s.guards + 1)
    case EnterChannel =>
      s.(sender := Throttling, table := Register(s.table, s.sender.x))
    case ThrottleDone =>
      s.(sender := Idle)
  }

  function SideStep(s: State, e: SideEvent): State
    requires SideEnabled(s, e)
  {
    match e
    case PingBegin =>
      if s.closed then s else s.(sender := PingAdmitted)
    case PingNumber =>
      s.(sender := PingWriting, nextSeq := s.nextSeq + 1)
    case PingOk =>
      s.(sender := Idle)
    case PingFail =>
      s.(sender := Idle, closed := true)
    case FlushFail =>
      s.(sender := FlushFailed(0))
    case FlushFailStep =>
      if s.sender.stage == 0 then s.(sender := FlushFailed(1), closed := true)
      else if s.sender.stage == 1 then s.(sender := FlushFailed(2), hasErr := true)
      else s.(sender := Idle, table := s.table.(stopped := true))
    case SetError =>
      s.(hasErr := true)
    case DropBegin =>
      s.(sender := Dropping(0))
    case DropStep =>
      if s.sender.stage == 0 then s.(sender := Dropping(1), table := s.table.(stopped := true))
      else s.(sender := Gone, closed := true)
  }

  function RecvStep(s: State, e: RecvEvent): State
    requires RecvEnabled(s, e)
  {
    match e
    case TimerTick =>
      var out := Expired(s.table);
      s.(table := Tick(s.table), ticks := s.ticks + 1,
         guards := if |out| <= s.guards then s.guards - |out| else 0,
         resolved := s.resolved + Tag(out, Failed(Timeout)))
    case Drain =>
      s.(table := DrainOne(s.table), count := s.count - 1)
    case Lookup(k) =>
      s.(receiver := Holding(TheTask(Filed(s.table), k)), table := Erase(s.table, k))
    case Finish(o) =>
      Release(s).(receiver := Polling, resolved := s.resolved + [Resolution(s.receiver.x, o)])
    case FinishFail =>
      Release(s).(receiver := Failing, resolved := s.resolved + [Resolution(s.receiver.x, Failed(IO))])
    case HasErrExit =>
      if s.receiver.Holding? then
        Release(s).(receiver := Failing, dropped := s.dropped + [s.receiver.x])
      else
        s.(receiver := Failing)
    case ReadFail =>
      s.(receiver := Failing)
    case ClosedExit =>
      s.(receiver := Failing)
    case CloseNotice =>
      s.(closed := true)
    case StoreClosed =>
      s.(receiver := Draining, closed := true)
    case DrainedEmpty =>
      s.(receiver := Flushing)
    case Flush =>
      var out := FlushOrder(s.table);
      s.(receiver := Checking, table := Flushed(s.table),
         guards := if |out| <= s.guards then s.guards - |out| else 0,
         resolved := s.resolved + Tag(out, Failed(IO)))
    case CheckCount =>
      s.(receiver := if s.count > 0 then Draining else Exited)
  }

  function Step(s: State, e: Event): State
    requires Enabled(s, e)
  {
    match e
    case Send(x) => SendStep(s, x)
    case Side(x) => SideStep(s, x)
    case Recv(x) => RecvStep(s, x)
  }

  /** Dropping one item releases its guard. */
  function Release(s: State): State {
    s.(guards := if s.guards > 0 then s.guards - 1 else 0)
  }

  /** The state after a run, or None when some step of it is not enabled. */
  function Run(s: State, es: seq<Event>): Option<State>
    decreases |es|
  {
    if es == [] then Some(s)
    else if Enabled(s, es[0]) then Run(Step(s, es[0]), es[1..])
    else None
  }

  ghost predicate Reachable(s: State, timeout: nat, threshold: nat) {
    exists es :: Run(InitState(timeout, threshold), es) == Some(s)
  }

  lemma {:induction false} RunConcat(s: State, a: seq<Event>, b: seq<Event>)
    requires Run(s, a).Some?
    ensures Run(s, a + b) == Run(Run(s, a).value, b)
    decreases |a|
  {
    if a == [] {
      assert a + b == b;
    } else {
      assert (a + b)[1..] == a[1..] + b;
      RunConcat(Step(s, a[0]), a[1..], b);
    }
  }

  // ----- the invariant, one concern at a time

  /** The task the sender holds, if any. */
  function InHand(p: Sender): seq<Task> {
    match p
    case Counted(x) => [x]
    case Refused(x) => [x]
    case Admitted(x) => [x]
    case Numbered(x) => [x]
    case Written(x) => [x]
    case Guarded(x) => [x]
    case WriteFailed(x, _) => [x]
    case _ => []
  }

  function InReader(r: Receiver): seq<Task> {
    if r.Holding? then [r.x] else []
  }

  /** Whether the sender's current call has raised the pending counter and not lowered it. */
  predicate HoldsCount(p: Sender) {
    p.Counted? || p.Refused? || p.RollingBack? || p.Admitted? || p.Numbered? || p.Written? || p.Guarded?
    || (p.WriteFailed? && p.stage <= 2)
  }

  /** The sender has passed the `closed` check and can still reach the channel. */
  predicate Committed(p: Sender) {
    p.Admitted? || p.Numbered? || p.Written? || p.Guarded?
  }

  predicate CountInv(s: State) {
    s.count == (if HoldsCount(s.sender) then 1 else 0) + |s.table.chan| + |s.lost|
  }

  /** The smallest number that a task not yet in the channel can carry. */
  function Horizon(s: State): nat {
    if s.sender.Numbered? || s.sender.Written? || s.sender.Guarded? then s.sender.x.num else s.nextSeq
  }

  ghost predicate TableInv(s: State) {
    && Valid(s.table)
    && Horizon(s) <= s.nextSeq
    && (s.sender.Numbered? || s.sender.Written? || s.sender.Guarded? ==> Horizon(s) < s.nextSeq)
    && s.table.processed < Horizon(s)
    && (forall x :: x in Live(s.table) ==> x.num < Horizon(s))
  }

  predicate GuardInv(s: State) {
    && s.threshold >= 1
    && s.guards == |Live(s.table)| + (if s.sender.Guarded? then 1 else 0) + |InReader(s.receiver)|
    && s.guards <= s.threshold + (if s.sender.Guarded? || s.sender.Throttling? then 1 else 0)
  }

  predicate CloseInv(s: State) {
    && (s.receiver.Draining? || s.receiver.Flushing? || s.receiver.Checking? || s.receiver.Exited? ==> s.closed)
    && (s.receiver.Checking? || s.receiver.Exited? ==> Filed(s.table) == [])
    && (s.receiver.Exited? ==> s.table.chan == [] && s.lost == [] && !Committed(s.sender))
    && |s.dropped| <= 1
    && (s.dropped != [] ==> !s.receiver.Polling? && !s.receiver.Holding?)
  }

  predicate AgeInv(s: State) {
    |s.table.delayed| == if s.ticks <= s.table.timeout then s.ticks else s.table.timeout
  }

  // ----- conservation

  /** How often the task numbered `id` occurs in `xs`. */
  function Times(id: nat, xs: seq<Task>): nat {
    if xs == [] then 0 else Hits(id, xs[0]) + Times(id, xs[1..])
  }

  function Settled(rs: seq<Resolution>): seq<Task> {
    seq(|rs|, i requires 0 <= i < |rs| => rs[i].task)
  }

  function Hits(id: nat, x: Task): nat {
    if x.id == id then 1 else 0
  }

  function HandTimes(id: nat, p: Sender): nat {
    if InHand(p) == [] then 0 else Hits(id, InHand(p)[0])
  }

  function ReaderTimes(id: nat, r: Receiver): nat {
    if r.Holding? then Hits(id, r.x) else 0
  }

  /** Occurrences of a task over every place a task can be. */
  function Everywhere(s: State, id: nat): nat {
    HandTimes(id, s.sender) + Times(id, Live(s.table)) + ReaderTimes(id, s.receiver)
    + Times(id, Settled(s.resolved)) + Times(id, s.lost) + Times(id, s.dropped)
  }

  ghost predicate ConserveInv(s: State) {
    forall id: nat :: Everywhere(s, id) == if id < s.accepted then 1 else 0
  }

  ghost predicate Inv(s: State) {
    CountInv(s) && TableInv(s) && GuardInv(s) && CloseInv(s) && AgeInv(s) && ConserveInv(s)
  }

  lemma {:induction false} TimesConcat(id: nat, a: seq<Task>, b: seq<Task>)
    ensures Times(id, a + b) == Times(id, a) + Times(id, b)
  {
    if a == [] {
      assert a + b == b;
    } else {
      assert (a + b)[1..] == a[1..] + b;
      TimesConcat(id, a[1..], b);
    }
  }

  lemma {:induction false} NewestFirstTimes(id: nat, q: seq<seq<Task>>)
    ensures Times(id, NewestFirst(q)) == Times(id, FlatDelayed(q)) && |NewestFirst(q)| == |FlatDelayed(q)|
  {
    if q != [] {
      NewestFirstTimes(id, q[1..]);
      TimesConcat(id, q[0], NewestFirst(q[1..]));
      TimesConcat(id, FlatDelayed(q[1..]), q[0]);
    }
  }

  lemma FlushOrderTimes(id: nat, t: Table)
    ensures Times(id, FlushOrder(t)) == Times(id, Filed(t)) && |FlushOrder(t)| == |Filed(t)|
  {
    NewestFirstTimes(id, t.delayed);
    TimesConcat(id, t.sent, NewestFirst(t.delayed));
    TimesConcat(id, FlatDelayed(t.delayed), t.sent);
  }

  lemma TimesAppend(id: nat, xs: seq<Task>, x: Task)
    ensures Times(id, xs + [x]) == Times(id, xs) + Hits(id, x)
  {
    TimesConcat(id, xs, [x]);
    assert [x][1..] == [];
  }

  lemma {:induction false} WithoutTimes(id: nat, s: seq<Task>, x: Task)
    requires Ascending(s) && x in s
    ensures |Without(s, x.num)| == |s| - 1
    ensures Times(id, s) == Times(id, Without(s, x.num)) + Hits(id, x)
  {
    if s[0].num == x.num {
      assert s[0] == x;
      WithoutAbsent(s[1..], x.num);
    } else {
      WithoutTimes(id, s[1..], x);
      assert Without(s, x.num) == [s[0]] + Without(s[1..], x.num);
    }
  }

  lemma EraseTimes(id: nat, t: Table, k: nat)
    requires Valid(t)
    requires exists x :: x in Filed(t) && x.num == k
    ensures |Live(Erase(t, k))| == |Live(t)| - 1
    ensures Times(id, Live(t)) == Times(id, Live(Erase(t, k))) + Hits(id, TheTask(Filed(t), k))
  {
    EraseKeepsValid(t, k);
    WithoutTimes(id, Live(t), TheTask(Filed(t), k));
  }

  // ----- preservation

  lemma InitInv(timeout: nat, threshold: nat)
    requires threshold >= 1
    ensures Inv(InitState(timeout, threshold))
  {
  }

  /** Ping, flush, set_error_and_exit and drop move no task. */
  lemma SideStepInv(s: State, e: SideEvent)
    requires Inv(s) && SideEnabled(s, e)
    ensures Inv(SideStep(s, e))
  {
    var s' := SideStep(s, e);
    SideFrame(s, e);
    SameTasks(s, s');
  }

  lemma SideFrame(s: State, e: SideEvent)
    requires SideEnabled(s, e)
    ensures var s' := SideStep(s, e);
      && s' == s.(sender := s'.sender, closed := s'.closed, hasErr := s'.hasErr, nextSeq := s'.nextSeq,
                  table := s.table.(stopped := s'.table.stopped))
      && InHand(s.sender) == InHand(s'.sender) == []
      && !HoldsCount(s.sender) && !HoldsCount(s'.sender)
      && !s.sender.Throttling? && !s'.sender.Throttling?
      && (s.closed ==> s'.closed) && s.nextSeq <= s'.nextSeq
  {
  }

  lemma SameTasks(s: State, s': State)
    requires Inv(s)
    requires s' == s.(sender := s'.sender, closed := s'.closed, hasErr := s'.hasErr, nextSeq := s'.nextSeq,
                      table := s.table.(stopped := s'.table.stopped))
    requires InHand(s.sender) == InHand(s'.sender) == []
    requires !HoldsCount(s.sender) && !HoldsCount(s'.sender)
    requires !s.sender.Throttling? && !s'.sender.Throttling?
    requires (s.closed ==> s'.closed) && s.nextSeq <= s'.nextSeq
    ensures Inv(s')
  {
    assert Filed(s'.table) == Filed(s.table) && Live(s'.table) == Live(s.table);
    assert Valid(s'.table);
    forall id: nat ensures Everywhere(s', id) == Everywhere(s, id) {
    }
  }

  lemma SendCountInv(s: State, e: SendEvent)
    requires CountInv(s) && SendEnabled(s, e)
    ensures CountInv(SendStep(s, e))
  {
  }

  lemma RecvCountInv(s: State, e: RecvEvent)
    requires CountInv(s) && RecvEnabled(s, e)
    ensures CountInv(RecvStep(s, e))
  {
  }

  /** Sending touches the table only at the channel's end. */
  lemma SendFrame(s: State, e: SendEvent)
    requires SendEnabled(s, e)
    ensures var s' := SendStep(s, e);
      && s'.table == (if e.EnterChannel? then Register(s.table, s.sender.x)
                      else s.table.(stopped := s'.table.stopped))
      && Filed(s'.table) == Filed(s.table)
      && Live(s'.table) == Live(s.table) + (if e.EnterChannel? then [s.sender.x] else [])
      && s'.receiver == s.receiver && s'.ticks == s.ticks && s'.dropped == s.dropped
  {
  }

  lemma SendTableInv(s: State, e: SendEvent)
    requires TableInv(s) && SendEnabled(s, e)
    ensures TableInv(SendStep(s, e))
  {
    var s' := SendStep(s, e);
    SendFrame(s, e);
    if e.EnterChannel? {
      RegisterKeepsValid(s.table, s.sender.x);
      SendHorizon(s, e);
    } else {
      assert Valid(s'.table);
      SendHorizon(s, e);
    }
  }

  lemma SendHorizon(s: State, e: SendEvent)
    requires Horizon(s) <= s.nextSeq && SendEnabled(s, e)
    requires s.sender.Numbered? || s.sender.Written? || s.sender.Guarded? ==> Horizon(s) < s.nextSeq
    ensures var s' := SendStep(s, e);
      && Horizon(s) <= Horizon(s') <= s'.nextSeq
      && (s'.sender.Numbered? || s'.sender.Written? || s'.sender.Guarded? ==> Horizon(s') < s'.nextSeq)
      && (e.EnterChannel? ==> Horizon(s) < Horizon(s'))
  {
  }

  lemma RecvTableInv(s: State, e: RecvEvent)
    requires TableInv(s) && RecvEnabled(s, e)
    ensures TableInv(RecvStep(s, e))
  {
    match e
    case TimerTick => RecvTickTableInv(s);
    case Drain => RecvDrainTableInv(s);
    case Lookup(k) => RecvLookupTableInv(s, k);
    case Flush => RecvFlushTableInv(s);
    case _ =>
      hide Valid, Live, Filed;
  }

  lemma RecvLookupTableInv(s: State, k: nat)
    requires TableInv(s) && RecvEnabled(s, Lookup(k))
    ensures TableInv(RecvStep(s, Lookup(k)))
  {
    hide Valid, Filed, Live;
    EraseKeepsValid(s.table, k);
  }

  lemma RecvFlushTableInv(s: State)
    requires TableInv(s) && RecvEnabled(s, Flush)
    ensures TableInv(RecvStep(s, Flush))
  {
    FlushedKeepsValid(s.table);
    assert forall x :: x in s.table.chan ==> x in Live(s.table);
  }

  lemma RecvDrainTableInv(s: State)
    requires TableInv(s) && RecvEnabled(s, Drain)
    ensures TableInv(RecvStep(s, Drain))
  {
    DrainOneKeepsLive(s.table);
    assert Live(s.table)[|Filed(s.table)|] == s.table.chan[0];
    assert s.table.chan[0] in Live(s.table);
  }

  lemma RecvTickTableInv(s: State)
    requires TableInv(s) && RecvEnabled(s, TimerTick)
    ensures TableInv(RecvStep(s, TimerTick))
  {
    TickKeepsValid(s.table);
    if Expired(s.table) != [] {
      assert Expired(s.table)[0] in Live(s.table);
    }
  }

  lemma SendGuardInv(s: State, e: SendEvent)
    requires GuardInv(s) && SendEnabled(s, e)
    ensures GuardInv(SendStep(s, e))
  {
    SendFrame(s, e);
  }

  lemma RecvGuardInv(s: State, e: RecvEvent)
    requires TableInv(s) && GuardInv(s) && RecvEnabled(s, e)
    ensures GuardInv(RecvStep(s, e))
  {
    hide Times, Tick, Expired, FlushOrder, DrainOne, Erase, Filed;
    match e
    case TimerTick => TickFlat(s.table);
    case Drain => DrainOneKeepsLive(s.table);
    case Lookup(k) => EraseTimes(0, s.table, k);
    case Flush => FlushOrderTimes(0, s.table); FlushedKeepsValid(s.table);
    case _ =>
  }

  lemma SendCloseInv(s: State, e: SendEvent)
    requires CountInv(s) && CloseInv(s) && SendEnabled(s, e)
    ensures CloseInv(SendStep(s, e))
  {
    SendFrame(s, e);
  }

  lemma RecvCloseInv(s: State, e: RecvEvent)
    requires CountInv(s) && TableInv(s) && CloseInv(s) && RecvEnabled(s, e)
    ensures CloseInv(RecvStep(s, e))
  {
    if e.Flush? {
      FlushedKeepsValid(s.table);
    }
  }

  lemma RecvAgeInv(s: State, e: RecvEvent)
    requires AgeInv(s) && RecvEnabled(s, e)
    ensures AgeInv(RecvStep(s, e))
  {
  }

  /** Sending leaves the number of occurrences alone, except that a call adds its new task. */
  lemma SendConserves(s: State, e: SendEvent, id: nat)
    requires SendEnabled(s, e)
    ensures Everywhere(SendStep(s, e), id) == Everywhere(s, id) + if e.SendBegin? && id == s.accepted then 1 else 0
  {
    hide Times, Settled, Live, Filed, Hits;
    SendFrame(s, e);
    if Quiet(s, e) {
      QuietConserves(s, e, id);
    } else {
      match e
      case EnterChannel => TimesAppend(id, Live(s.table), s.sender.x);
      case EncodeFail => TimesAppend(id, s.lost, s.sender.x);
      case RefuseResolve => ResolveOne(id, s.resolved, s.sender.x, Failed(IO));
      case WriteFailStep => ResolveOne(id, s.resolved, s.sender.x, Failed(IO));
    }
  }

  /** Steps of send_task after which the sender still has the task it had, or its new one. */
  predicate Quiet(s: State, e: SendEvent) {
    !e.EnterChannel? && !e.EncodeFail? && !e.RefuseResolve?
    && !(e.WriteFailStep? && s.sender.WriteFailed? && s.sender.stage >= 4)
  }

  lemma QuietConserves(s: State, e: SendEvent, id: nat)
    requires SendEnabled(s, e) && Quiet(s, e)
    ensures Everywhere(SendStep(s, e), id) == Everywhere(s, id) + if e.SendBegin? && id == s.accepted then 1 else 0
  {
    hide Times, Settled;
    var s' := SendStep(s, e);
    SendFrame(s, e);
    assert Live(s'.table) == Live(s.table);
    assert s'.resolved == s.resolved && s'.lost == s.lost;
    assert HandTimes(id, s'.sender) == HandTimes(id, s.sender) + if e.SendBegin? && id == s.accepted then 1 else 0;
  }

  lemma SendConserveInv(s: State, e: SendEvent)
    requires ConserveInv(s) && SendEnabled(s, e)
    ensures ConserveInv(SendStep(s, e))
  {
    assert SendStep(s, e).accepted == s.accepted + if e.SendBegin? then 1 else 0;
    forall id: nat ensures Everywhere(SendStep(s, e), id) == if id < SendStep(s, e).accepted then 1 else 0 {
      SendConserves(s, e, id);
    }
  }

  /** Receiving never creates, copies or forgets a task. */
  lemma RecvConserves(s: State, e: RecvEvent, id: nat)
    requires TableInv(s) && RecvEnabled(s, e)
    ensures Everywhere(RecvStep(s, e), id) == Everywhere(s, id)
  {
    hide Times, Settled, Tick, Expired, Flushed, FlushOrder, DrainOne, Erase, Live, Filed, Hits;
    match e
    case TimerTick => TickConserves(s, id);
    case Drain => DrainOneKeepsLive(s.table);
    case Lookup(k) => EraseTimes(id, s.table, k);
    case Flush => FlushConserves(s, id);
    case HasErrExit =>
      if s.receiver.Holding? {
        TimesAppend(id, s.dropped, s.receiver.x);
      }
    case Finish(o) => ResolveOne(id, s.resolved, s.receiver.x, o);
    case FinishFail => ResolveOne(id, s.resolved, s.receiver.x, Failed(IO));
    case _ =>
  }

  lemma TickConserves(s: State, id: nat)
    requires RecvEnabled(s, TimerTick)
    ensures Everywhere(RecvStep(s, TimerTick), id) == Everywhere(s, id)
  {
    TickFlat(s.table);
    TimesConcat(id, Expired(s.table), Live(Tick(s.table)));
    ResolveAll(id, s.resolved, Expired(s.table), Failed(Timeout));
  }

  lemma FlushConserves(s: State, id: nat)
    requires TableInv(s) && RecvEnabled(s, Flush)
    ensures Everywhere(RecvStep(s, Flush), id) == Everywhere(s, id)
  {
    FlushOrderTimes(id, s.table);
    FlushedKeepsValid(s.table);
    TimesConcat(id, Filed(s.table), s.table.chan);
    ResolveAll(id, s.resolved, FlushOrder(s.table), Failed(IO));
  }

  lemma ResolveAll(id: nat, rs: seq<Resolution>, xs: seq<Task>, o: Outcome)
    ensures Times(id, Settled(rs + Tag(xs, o))) == Times(id, Settled(rs)) + Times(id, xs)
  {
    assert Settled(rs + Tag(xs, o)) == Settled(rs) + xs;
    TimesConcat(id, Settled(rs), xs);
  }

  lemma ResolveOne(id: nat, rs: seq<Resolution>, x: Task, o: Outcome)
    ensures Times(id, Settled(rs + [Resolution(x, o)])) == Times(id, Settled(rs)) + Hits(id, x)
  {
    assert Settled(rs + [Resolution(x, o)]) == Settled(rs) + [x];
    TimesAppend(id, Settled(rs), x);
  }

  lemma SendStepInv(s: State, e: SendEvent)
    requires Inv(s) && SendEnabled(s, e)
    ensures Inv(SendStep(s, e))
  {
    SendCountInv(s, e);
    SendTableInv(s, e);
    SendGuardInv(s, e);
    SendCloseInv(s, e);
    SendConserveInv(s, e);
    assert AgeInv(SendStep(s, e)) by { SendFrame(s, e); }
  }

  lemma RecvStepInv(s: State, e: RecvEvent)
    requires Inv(s) && RecvEnabled(s, e)
    ensures Inv(RecvStep(s, e))
  {
    RecvCountInv(s, e);
    RecvTableInv(s, e);
    RecvGuardInv(s, e);
    RecvCloseInv(s, e);
    RecvAgeInv(s, e);
    forall id: nat ensures Everywhere(RecvStep(s, e), id) == if id < RecvStep(s, e).accepted then 1 else 0 {
      RecvConserves(s, e, id);
    }
  }

  lemma StepInv(s: State, e: Event)
    requires Inv(s) && Enabled(s, e)
    ensures Inv(Step(s, e))
  {
    match e
    case Send(x) => SendStepInv(s, x);
    case Side(x) => SideStepInv(s, x);
    case Recv(x) => RecvStepInv(s, x);
  }

  lemma {:induction false} RunInv(s: State, es: seq<Event>)
    requires Inv(s) && Run(s, es).Some?
    ensures Inv(Run(s, es).value)
    decreases |es|
  {
    if es != [] {
      StepInv(s, es[0]);
      RunInv(Step(s, es[0]), es[1..]);
    }
  }

  lemma ReachableInv(s: State, timeout: nat, threshold: nat)
    requires threshold >= 1 && Reachable(s, timeout, threshold)
    ensures Inv(s)
  {
    var es :| Run(InitState(timeout, threshold), es) == Some(s);
    InitInv(timeout, threshold);
    RunInv(InitState(timeout, threshold), es);
  }
}
