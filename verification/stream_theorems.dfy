/** What holds of every run of one client connection. */
module StreamTheorems {
  import opened Errors
  import opened TaskTable
  import opened StreamProtocol

  // ----- close safety

  lemma ExitedStays(s: State, e: Event)
    requires s.receiver.Exited? && Enabled(s, e)
    ensures Step(s, e).receiver.Exited?
  {
    match e
    case Send(x) => SendFrame(s, x);
    case Side(x) => SideFrame(s, x);
    case Recv(_) =>
  }

  /** After the receive loop has returned the table stays empty, whatever the sender does next. */
  lemma {:induction false} CloseSafety(s: State, es: seq<Event>)
    requires Inv(s) && s.receiver.Exited?
    requires Run(s, es).Some?
    ensures var s' := Run(s, es).value;
      && s'.receiver.Exited?
      && s'.table.chan == [] && s'.table.sent == []
      && (forall b :: b in s'.table.delayed ==> b == [])
      && !Committed(s'.sender)
    decreases |es|
  {
    if es == [] {
      EmptyFlat(s.table.delayed);
    } else {
      ExitedStays(s, es[0]);
      StepInv(s, es[0]);
      CloseSafety(Step(s, es[0]), es[1..]);
    }
  }

  lemma {:induction false} EmptyFlat(q: seq<seq<Task>>)
    requires FlatDelayed(q) == []
    ensures forall b :: b in q ==> b == []
  {
    if q != [] {
      assert q[0] == [] && FlatDelayed(q[1..]) == [];
      EmptyFlat(q[1..]);
      assert q == [q[0]] + q[1..];
    }
  }

  // ----- exactly once

  lemma {:induction false} OccursAtLeastOnce(x: Task, xs: seq<Task>)
    requires x in xs
    ensures Times(x.id, xs) >= 1
  {
    if xs[0] != x {
      OccursAtLeastOnce(x, xs[1..]);
    }
  }

  /** No task is ever resolved twice, and a resolved task is nowhere else. */
  lemma NeverTwice(s: State, id: nat)
    requires Inv(s)
    ensures Times(id, Settled(s.resolved)) <= 1
    ensures Times(id, Settled(s.resolved)) == 1 ==>
      && HandTimes(id, s.sender) == Times(id, Live(s.table)) == ReaderTimes(id, s.receiver) == 0
      && Times(id, s.lost) == Times(id, s.dropped) == 0
  {
    assert Everywhere(s, id) <= 1;
  }

  /** When the receive loop has returned, every accepted task has been resolved exactly once, except the
      one the sender still holds on an error path and the one an aborted reader took down with it. */
  lemma ResolvedAtExit(s: State, id: nat)
    requires Inv(s) && s.receiver.Exited? && id < s.accepted
    ensures Times(id, Settled(s.resolved)) + HandTimes(id, s.sender) + Times(id, s.dropped) == 1
    ensures |s.dropped| <= 1
    ensures InHand(s.sender) != [] ==> s.sender.Counted? || s.sender.Refused? || s.sender.WriteFailed?
  {
    assert Everywhere(s, id) == 1;
    assert Live(s.table) == [];
  }

  /** How many steps of the run abandon a reader that had already taken a task. */
  function AbortedReads(s: State, es: seq<Event>): nat
    decreases |es|
  {
    if es == [] || !Enabled(s, es[0]) then 0
    else (if es[0] == Recv(HasErrExit) && s.receiver.Holding? then 1 else 0) + AbortedReads(Step(s, es[0]), es[1..])
  }

  function EncodeFailures(es: seq<Event>): nat {
    if es == [] then 0 else (if es[0] == Send(EncodeFail) then 1 else 0) + EncodeFailures(es[1..])
  }

  lemma StepLosses(s: State, e: Event)
    requires Enabled(s, e)
    ensures |Step(s, e).dropped| == |s.dropped| + if e == Recv(HasErrExit) && s.receiver.Holding? then 1 else 0
    ensures |Step(s, e).lost| == |s.lost| + if e == Send(EncodeFail) then 1 else 0
    ensures s.lost <= Step(s, e).lost
  {
    match e
    case Send(x) => SendFrame(s, x); SendLost(s, x);
    case Side(x) => SideFrame(s, x);
    case Recv(x) =>
  }

  lemma SendLost(s: State, e: SendEvent)
    requires SendEnabled(s, e)
    ensures SendStep(s, e).lost == s.lost + (if e.EncodeFail? then [s.sender.x] else [])
  {
  }

  lemma {:induction false} RunLosses(s: State, es: seq<Event>)
    requires Run(s, es).Some?
    ensures var s' := Run(s, es).value;
      && |s'.dropped| == |s.dropped| + AbortedReads(s, es)
      && |s'.lost| == |s.lost| + EncodeFailures(es)
      && s.lost <= s'.lost
    decreases |es|
  {
    if es != [] {
      StepLosses(s, es[0]);
      RunLosses(Step(s, es[0]), es[1..]);
    }
  }

  /**
   Exactly-once delivery, with its exact condition. Take any run from the start that ends with the
   receiver gone and the sender between calls: every accepted task has been resolved exactly once
   if and only if no step of the run abandoned a reader that had already taken a task.
   */
  lemma ExactlyOnceIff(timeout: nat, threshold: nat, es: seq<Event>)
    requires threshold >= 1
    requires var r := Run(InitState(timeout, threshold), es);
      r.Some? && r.value.receiver.Exited? && InHand(r.value.sender) == []
    ensures var s0 := InitState(timeout, threshold);
      (forall id: nat :: id < Run(s0, es).value.accepted ==> Times(id, Settled(Run(s0, es).value.resolved)) == 1)
      <==> AbortedReads(s0, es) == 0
  {
    var s0 := InitState(timeout, threshold);
    var s := Run(s0, es).value;
    assert Inv(s) by {
      InitInv(timeout, threshold);
      RunInv(s0, es);
    }
    assert |s.dropped| == AbortedReads(s0, es) by {
      RunLosses(s0, es);
    }
    AllResolvedIff(s);
  }

  lemma AllResolvedIff(s: State)
    requires Inv(s) && s.receiver.Exited? && InHand(s.sender) == []
    ensures (forall id: nat :: id < s.accepted ==> Times(id, Settled(s.resolved)) == 1) <==> s.dropped == []
  {
    if s.dropped == [] {
      forall id: nat | id < s.accepted ensures Times(id, Settled(s.resolved)) == 1 {
        ResolvedAtExit(s, id);
      }
    } else {
      hide *;
      var id := DroppedUnresolved(s);
    }
  }

  lemma DroppedUnresolved(s: State) returns (id: nat)
    requires Inv(s) && s.dropped != []
    ensures id < s.accepted && Times(id, Settled(s.resolved)) == 0
  {
    id := s.dropped[0].id;
    OccursAtLeastOnce(s.dropped[0], s.dropped);
    assert Everywhere(s, id) >= Times(id, s.dropped) + Times(id, Settled(s.resolved));
  }

  /** The abandoned reader is real: a forced error while a response body is being read loses the task. */
  lemma AbortedReadWitness()
    ensures exists es ::
      var r := Run(InitState(20, 1), es);
      && r.Some? && r.value.receiver.Exited? && r.value.sender.Idle?
      && r.value.accepted == 1 && r.value.resolved == []
  {
    var a := WitnessWrite();
    var b := WitnessFile();
    var c := WitnessAbort();
    var d := WitnessExit();
    RunJoin(InitState(20, 1), a, WitnessState(0), b, WitnessState(1));
    RunJoin(InitState(20, 1), a + b, WitnessState(1), c, WitnessState(2));
    RunJoin(InitState(20, 1), a + b + c, WitnessState(2), d, WitnessState(3));
  }

  lemma RunJoin(s: State, a: seq<Event>, m: State, b: seq<Event>, t: State)
    requires Run(s, a) == Some(m) && Run(m, b) == Some(t)
    ensures Run(s, a + b) == Some(t)
  {
    RunConcat(s, a, b);
  }

  /** The connection after the task was written, filed, abandoned, and after the exit. */
  function WitnessState(n: nat): State {
    var x := Task(0, 1);
    var s := InitState(20, 1).(nextSeq := 2, accepted := 1);
    if n == 0 then s.(sender := Written(x), count := 1)
    else if n == 1 then s.(guards := 1, table := Init(20).(sent := [x], processed := 1))
    else s.(closed := true, hasErr := true, dropped := [x], table := Init(20).(processed := 1),
            receiver := if n == 2 then Draining else Exited)
  }

  lemma Run4(s0: State, es: seq<Event>, s1: State, s2: State, s3: State, s4: State)
    requires |es| == 4
    requires Enabled(s0, es[0]) && Step(s0, es[0]) == s1
    requires Enabled(s1, es[1]) && Step(s1, es[1]) == s2
    requires Enabled(s2, es[2]) && Step(s2, es[2]) == s3
    requires Enabled(s3, es[3]) && Step(s3, es[3]) == s4
    ensures Run(s0, es) == Some(s4)
  {
    assert Run(s3, es[3..]) == Some(s4);
    assert es[2..][1..] == es[3..] && Run(s2, es[2..]) == Some(s4);
    assert es[1..][1..] == es[2..] && Run(s1, es[1..]) == Some(s4);
  }

  lemma WitnessWrite() returns (es: seq<Event>)
    ensures Run(InitState(20, 1), es) == Some(WitnessState(0))
  {
    es := [Send(SendBegin), Send(ReadClosed), Send(Number), Send(WriteOk)];
    var s0 := InitState(20, 1);
    var s1 := SendStep(s0, SendBegin);
    var s2 := SendStep(s1, ReadClosed);
    var s3 := SendStep(s2, Number);
    Run4(s0, es, s1, s2, s3, WitnessState(0));
  }

  lemma WitnessDrain(s: State)
    requires s == InitState(20, 1).(nextSeq := 2, accepted := 1, count := 1, guards := 1, table := Init(20).(chan := [Task(0, 1)]))
    ensures RecvEnabled(s, Drain) && RecvStep(s, Drain) == WitnessState(1)
  {
    hide Filed, Live;
  }

  lemma WitnessFile() returns (es: seq<Event>)
    ensures Run(WitnessState(0), es) == Some(WitnessState(1))
  {
    hide Run, Filed, Live, SideStep, SideEnabled, RecvStep, RecvEnabled;
    es := [Send(AddGuard), Send(EnterChannel), Send(ThrottleDone), Recv(Drain)];
    var s0, x := WitnessState(0), Task(0, 1);
    var s1 := s0.(sender := Guarded(x), guards := 1);
    var s2 := s1.(sender := Throttling, table := Init(20).(chan := [x]));
    var s3 := s2.(sender := Idle);
    WitnessDrain(s3);
    Run4(s0, es, s1, s2, s3, WitnessState(1));
  }

  lemma WitnessLookup() returns (s: State)
    ensures RecvEnabled(WitnessState(1), Lookup(1)) && s == RecvStep(WitnessState(1), Lookup(1))
    ensures s == WitnessState(1).(receiver := Holding(Task(0, 1)), table := Init(20).(processed := 1))
  {
    var s0, x := WitnessState(1), Task(0, 1);
    assert Filed(s0.table) == [x];
    assert Without([x], 1) == [] by { assert [x][1..] == []; }
    s := RecvStep(s0, Lookup(1));
    assert s.table.delayed == [];
  }

  lemma WitnessAbort() returns (es: seq<Event>)
    ensures Run(WitnessState(1), es) == Some(WitnessState(2))
  {
    hide Run, Filed, Live, Erase, Without, SendStep, SendEnabled;
    es := [Recv(Lookup(1)), Side(SetError), Recv(HasErrExit), Recv(StoreClosed)];
    var s1 := WitnessLookup();
    var s2 := s1.(hasErr := true);
    var s3 := s2.(receiver := Failing, dropped := [Task(0, 1)], guards := 0);
    Run4(WitnessState(1), es, s1, s2, s3, WitnessState(2));
  }

  lemma Run3(s0: State, es: seq<Event>, s1: State, s2: State, s3: State)
    requires |es| == 3
    requires Enabled(s0, es[0]) && Step(s0, es[0]) == s1
    requires Enabled(s1, es[1]) && Step(s1, es[1]) == s2
    requires Enabled(s2, es[2]) && Step(s2, es[2]) == s3
    ensures Run(s0, es) == Some(s3)
  {
    assert Run(s2, es[2..]) == Some(s3);
    assert es[1..][1..] == es[2..] && Run(s1, es[1..]) == Some(s3);
  }

  lemma WitnessFlush(s: State) returns (t: State)
    requires s == WitnessState(2).(receiver := Flushing)
    ensures t == RecvStep(s, Flush) == WitnessState(2).(receiver := Checking)
  {
    t := RecvStep(s, Flush);
    assert s.table.sent == [] && s.table.delayed == [];
    assert FlushOrder(s.table) == [] && Tag([], Failed(IO)) == [];
    assert Flushed(s.table) == s.table;
  }

  lemma WitnessExit() returns (es: seq<Event>)
    ensures Run(WitnessState(2), es) == Some(WitnessState(3))
  {
    es := [Recv(DrainedEmpty), Recv(Flush), Recv(CheckCount)];
    var s0 := WitnessState(2);
    var s1 := RecvStep(s0, DrainedEmpty);
    var s2 := WitnessFlush(s1);
    Run3(s0, es, s1, s2, WitnessState(3));
  }

  // ----- encode failures

  /** A task whose encoding failed stays unresolved and keeps the receive loop from ever returning. */
  lemma EncodeFailureIsForever(s: State, es: seq<Event>, x: Task)
    requires Inv(s) && x in s.lost && Run(s, es).Some?
    ensures var s' := Run(s, es).value;
      !s'.receiver.Exited? && Times(x.id, Settled(s'.resolved)) == 0
  {
    var s' := Run(s, es).value;
    RunInv(s, es);
    RunLosses(s, es);
    assert x in s'.lost;
    OccursAtLeastOnce(x, s'.lost);
    assert Everywhere(s', x.id) <= 1;
  }

  /** One failing encoding is enough to get there. */
  lemma EncodeFailureWitness()
    ensures exists es :: Run(InitState(20, 1), es).Some? && Run(InitState(20, 1), es).value.lost == [Task(0, 1)]
  {
    var es := [Send(SendBegin), Send(ReadClosed), Send(Number), Send(EncodeFail)];
    var s0 := InitState(20, 1);
    var s1 := SendStep(s0, SendBegin);
    var s2 := SendStep(s1, ReadClosed);
    var s3 := SendStep(s2, Number);
    Run4(s0, es, s1, s2, s3, SendStep(s3, EncodeFail));
  }

  /** Steps the sender still has to make before its call gives the pending counter up. */
  function SenderRank(p: Sender): nat {
    match p
    case Counted(_) => 6
    case Admitted(_) => 5
    case Numbered(_) => 4
    case Written(_) => 3
    case Guarded(_) => 2
    case Refused(_) => 2
    case RollingBack => 1
    case WriteFailed(_, n) => if n <= 2 then 3 - n else 0
    case _ => 0
  }

  function ReceiverRank(s: State): nat {
    match s.receiver
    case Holding(_) => 12
    case Polling => 11
    case Failing => 10
    case Flushing => if s.table.chan != [] then 9 else 2
    case Checking => if s.table.chan != [] then 8 else 1
    case Draining => 3
    case Exited => 0
  }

  /** A step that brings the connection closer to the receiver's exit. */
  function Toward(s: State): Event {
    match s.sender
    case Counted(_) => Send(ReadClosed)
    case Admitted(_) => Send(Number)
    case Numbered(_) => Send(WriteOk)
    case Written(_) => Send(AddGuard)
    case Guarded(_) => Send(EnterChannel)
    case Refused(_) => Send(RefuseResolve)
    case RollingBack => Send(RollBack)
    case WriteFailed(_, n) => if n <= 2 then Send(WriteFailStep) else TowardExit(s)
    case _ => TowardExit(s)
  }

  function TowardExit(s: State): Event {
    match s.receiver
    case Holding(_) => Recv(FinishFail)
    case Polling => Recv(ReadFail)
    case Failing => Recv(StoreClosed)
    case Draining => if s.table.chan != [] then Recv(Drain) else Recv(DrainedEmpty)
    case Flushing => Recv(Flush)
    case _ => Recv(CheckCount)
  }

  lemma TowardEnabled(s: State)
    requires Inv(s) && s.lost == [] && !s.receiver.Exited?
    ensures Enabled(s, Toward(s))
    ensures Step(s, Toward(s)).lost == []
  {
    if s.sender.Guarded? {
      ChannelHasRoom(s);
    }
    StepLosses(s, Toward(s));
  }

  lemma TowardSender(s: State)
    requires Enabled(s, Toward(s)) && SenderRank(s.sender) > 0
    ensures SenderRank(Step(s, Toward(s)).sender) < SenderRank(s.sender)
  {
  }

  lemma TowardReceiver(s: State)
    requires CountInv(s) && s.lost == [] && Enabled(s, Toward(s)) && SenderRank(s.sender) == 0
    ensures var s' := Step(s, Toward(s));
      && s'.sender == s.sender
      && (|s'.table.chan| < |s.table.chan| || (s'.table.chan == s.table.chan && ReceiverRank(s') < ReceiverRank(s)))
  {
    hide SendStep, SideStep, SendEnabled, SideEnabled, Tag, Expired, FlushOrder;
    assert Toward(s) == TowardExit(s);
    assert !HoldsCount(s.sender);
  }

  lemma {:induction false} ExitPath(s: State) returns (es: seq<Event>)
    requires Inv(s) && s.lost == []
    ensures Run(s, es).Some? && Run(s, es).value.receiver.Exited?
    decreases SenderRank(s.sender), |s.table.chan|, ReceiverRank(s)
  {
    if s.receiver.Exited? {
      return [];
    }
    TowardEnabled(s);
    var s' := Step(s, Toward(s));
    StepInv(s, Toward(s));
    if SenderRank(s.sender) > 0 {
      TowardSender(s);
    } else {
      TowardReceiver(s);
    }
    var rest := ExitPath(s');
    es := [Toward(s)] + rest;
    assert es[1..] == rest;
  }

  /** The receive loop can still return if and only if no encode failure has happened. */
  lemma ExitPossibleIff(s: State)
    requires Inv(s)
    ensures (exists es :: Run(s, es).Some? && Run(s, es).value.receiver.Exited?) <==> s.lost == []
  {
    if s.lost == [] {
      var es := ExitPath(s);
    } else {
      forall es | Run(s, es).Some? ensures !Run(s, es).value.receiver.Exited? {
        EncodeFailureIsForever(s, es, s.lost[0]);
      }
    }
  }

  /** The same over runs: after any run from the start, exit is still possible if and only if no encoding failed in it. */
  lemma ExitPossibleAfter(timeout: nat, threshold: nat, es: seq<Event>)
    requires threshold >= 1 && Run(InitState(timeout, threshold), es).Some?
    ensures var s0 := InitState(timeout, threshold);
      (exists more :: Run(s0, es + more).Some? && Run(s0, es + more).value.receiver.Exited?) <==> EncodeFailures(es) == 0
  {
    hide Run, EncodeFailures, AbortedReads, Inv;
    var s0 := InitState(timeout, threshold);
    var s := Run(s0, es).value;
    InitInv(timeout, threshold);
    RunInv(s0, es);
    RunLosses(s0, es);
    if EncodeFailures(es) == 0 {
      var more := ExitPath(s);
      RunConcat(s0, es, more);
      assert Run(s0, es + more).Some? && Run(s0, es + more).value.receiver.Exited?;
    } else {
      forall more | Run(s0, es + more).Some? ensures !Run(s0, es + more).value.receiver.Exited? {
        RunConcat(s0, es, more);
        EncodeFailureIsForever(s, more, s.lost[0]);
      }
    }
  }

  // ----- in-flight bound

  /** Guards count the items in flight, of which there are at most threshold + 1, and a registration
      never has to wait for room. */
  lemma ChannelHasRoom(s: State)
    requires Inv(s)
    ensures s.guards == |Live(s.table)| + |InReader(s.receiver)| + (if s.sender.Guarded? then 1 else 0)
    ensures s.guards <= s.threshold + 1
    ensures s.sender.Guarded? ==> Enabled(s, Send(EnterChannel))
    ensures s.count >= 0
  {
    assert |s.table.chan| <= |Live(s.table)|;
  }

  // ----- after closing

  function Registrations(es: seq<Event>): nat {
    if es == [] then 0 else (if es[0] == Send(EnterChannel) then 1 else 0) + Registrations(es[1..])
  }

  lemma ClosedStep(s: State, e: Event)
    requires s.closed && Enabled(s, e)
    ensures Step(s, e).closed
    ensures Committed(Step(s, e).sender) ==> Committed(s.sender) && e != Send(EnterChannel)
    ensures e == Send(EnterChannel) ==> Committed(s.sender)
  {
    match e
    case Send(x) => ClosedSendStep(s, x);
    case Side(x) => SideFrame(s, x);
    case Recv(_) =>
  }

  lemma ClosedSendStep(s: State, e: SendEvent)
    requires s.closed && SendEnabled(s, e)
    ensures SendStep(s, e).closed
    ensures Committed(SendStep(s, e).sender) ==> Committed(s.sender) && !e.EnterChannel?
  {
  }

  /** Once the stream is closed at most one more task, the one already past the check, is registered. */
  lemma {:induction false} AtMostOneLateRegistration(s: State, es: seq<Event>)
    requires s.closed && Run(s, es).Some?
    ensures Registrations(es) <= if Committed(s.sender) then 1 else 0
    decreases |es|
  {
    if es != [] {
      ClosedStep(s, es[0]);
      AtMostOneLateRegistration(Step(s, es[0]), es[1..]);
    }
  }

  // ----- exact timeout

  function Ticks(es: seq<Event>): nat {
    if es == [] then 0 else (if es[0] == Recv(TimerTick) then 1 else 0) + Ticks(es[1..])
  }

  /** The task sits in the batch of the current second (k = 0) or of k seconds ago. */
  predicate InBatch(t: Table, x: Task, k: nat) {
    if k == 0 then x in t.sent else k <= |t.delayed| && x in t.delayed[k - 1]
  }

  predicate Touches(e: Event, x: Task) {
    e == Recv(Lookup(x.num)) || e == Recv(Flush)
  }

  predicate Untouched(es: seq<Event>, x: Task) {
    es == [] || (!Touches(es[0], x) && Untouched(es[1..], x))
  }

  lemma {:induction false} UntouchedEach(es: seq<Event>, x: Task)
    requires forall e :: e in es ==> !Touches(e, x)
    ensures Untouched(es, x)
  {
    if es != [] {
      UntouchedEach(es[1..], x);
    }
  }

  lemma InBatchIsLive(t: Table, x: Task, k: nat)
    requires InBatch(t, x, k)
    ensures x in Filed(t)
  {
    if k > 0 {
      InDelayed(t.delayed, k - 1, x);
    }
  }

  lemma TickMovesBatch(s: State, x: Task, k: nat)
    requires InBatch(s.table, x, k) && |s.table.delayed| <= s.table.timeout && RecvEnabled(s, TimerTick)
    ensures k < s.table.timeout ==> InBatch(Tick(s.table), x, k + 1)
    ensures k >= s.table.timeout ==> Resolution(x, Failed(Timeout)) in RecvStep(s, TimerTick).resolved
  {
    var t := s.table;
    var q := Aged(t);
    assert x in q[k];
    if k < t.timeout {
      assert Tick(t).delayed[k] == q[k];
    } else {
      var out := Expired(t);
      assert out == q[k];
      var i :| 0 <= i < |out| && out[i] == x;
      assert Tag(out, Failed(Timeout))[i] == Resolution(x, Failed(Timeout));
    }
  }

  lemma OtherStepKeepsBatch(s: State, e: Event, x: Task, k: nat)
    requires InBatch(s.table, x, k) && Enabled(s, e) && !Touches(e, x) && e != Recv(TimerTick)
    ensures InBatch(Step(s, e).table, x, k)
  {
    match e
    case Send(y) => SendFrame(s, y);
    case Side(y) => SideFrame(s, y);
    case Recv(y) =>
      if y.Lookup? {
        assert forall j :: 0 <= j < |s.table.delayed| ==>
          Erase(s.table, y.num).delayed[j] == Without(s.table.delayed[j], y.num);
      }
  }

  lemma ResolvedStays(s: State, e: Event)
    requires Enabled(s, e)
    ensures s.resolved <= Step(s, e).resolved && Step(s, e).table.timeout == s.table.timeout
    ensures |s.table.delayed| <= s.table.timeout ==> |Step(s, e).table.delayed| <= s.table.timeout
  {
    hide SendStep, SideStep, RecvStep, SendEnabled, SideEnabled, RecvEnabled;
    match e
    case Send(y) => SendFrame(s, y); SendResolved(s, y);
    case Side(y) => SideFrame(s, y);
    case Recv(y) => RecvResolved(s, y);
  }

  lemma RecvResolved(s: State, e: RecvEvent)
    requires RecvEnabled(s, e)
    ensures s.resolved <= RecvStep(s, e).resolved && RecvStep(s, e).table.timeout == s.table.timeout
    ensures |s.table.delayed| <= s.table.timeout ==> |RecvStep(s, e).table.delayed| <= s.table.timeout
  {
    hide Expired, FlushOrder, Tag, Filed, Live, Without;
  }

  lemma SendResolved(s: State, e: SendEvent)
    requires SendEnabled(s, e)
    ensures s.resolved <= SendStep(s, e).resolved
  {
  }

  lemma {:induction false} RunResolvedStays(s: State, es: seq<Event>)
    requires Run(s, es).Some?
    ensures s.resolved <= Run(s, es).value.resolved
    decreases |es|
  {
    if es != [] {
      ResolvedStays(s, es[0]);
      RunResolvedStays(Step(s, es[0]), es[1..]);
    }
  }

  lemma {:induction false} TimeoutFrom(s: State, es: seq<Event>, x: Task, k: nat)
    requires |s.table.delayed| <= s.table.timeout
    requires Run(s, es).Some? && InBatch(s.table, x, k) && k <= s.table.timeout
    requires Untouched(es, x)
    ensures k + Ticks(es) <= s.table.timeout ==> InBatch(Run(s, es).value.table, x, k + Ticks(es))
    ensures k + Ticks(es) > s.table.timeout ==> Resolution(x, Failed(Timeout)) in Run(s, es).value.resolved
    decreases |es|
  {
    hide Step, Enabled, InBatch, Touches;
    if es != [] {
      var e, s' := es[0], Step(s, es[0]);
      ResolvedStays(s, e);
      if e != Recv(TimerTick) {
        OtherStepKeepsBatch(s, e, x, k);
        TimeoutFrom(s', es[1..], x, k);
      } else {
        TimeoutTick(s, es, x, k);
        if k < s.table.timeout {
          TimeoutFrom(s', es[1..], x, k + 1);
        }
      }
    }
  }

  lemma TimeoutTick(s: State, es: seq<Event>, x: Task, k: nat)
    requires |s.table.delayed| <= s.table.timeout
    requires Run(s, es).Some? && InBatch(s.table, x, k) && k <= s.table.timeout
    requires es != [] && es[0] == Recv(TimerTick)
    ensures k < s.table.timeout ==> InBatch(Step(s, es[0]).table, x, k + 1)
    ensures k == s.table.timeout ==> Resolution(x, Failed(Timeout)) in Run(s, es).value.resolved
  {
    TickMovesBatch(s, x, k);
    RunResolvedStays(Step(s, es[0]), es[1..]);
  }

  /**
   A task filed in the current second that is neither answered nor cleaned up is still waiting,
   unresolved, after T ticks, and has been reported as timed out after T + 1.
   */
  lemma ExactTimeout(s: State, es: seq<Event>, x: Task)
    requires Inv(s) && x in s.table.sent && Run(s, es).Some?
    requires forall e :: e in es ==> !Touches(e, x)
    ensures var s' := Run(s, es).value;
      && (Ticks(es) <= s.table.timeout ==> x in Filed(s'.table) && Times(x.id, Settled(s'.resolved)) == 0)
      && (Ticks(es) > s.table.timeout ==> Resolution(x, Failed(Timeout)) in s'.resolved)
  {
    hide *;
    StartsInBatch(s, x);
    UntouchedEach(es, x);
    TimeoutFrom(s, es, x, 0);
    if Ticks(es) <= s.table.timeout {
      RunInv(s, es);
      InBatchIsLive(Run(s, es).value.table, x, Ticks(es));
      LiveIsUnresolved(Run(s, es).value, x);
    }
  }

  lemma StartsInBatch(s: State, x: Task)
    requires Inv(s) && x in s.table.sent
    ensures |s.table.delayed| <= s.table.timeout && InBatch(s.table, x, 0)
  {
  }

  lemma LiveIsUnresolved(s: State, x: Task)
    requires Inv(s) && x in Filed(s.table)
    ensures Times(x.id, Settled(s.resolved)) == 0
  {
    OccursAtLeastOnce(x, Live(s.table));
    assert Everywhere(s, x.id) <= 1;
  }

  lemma {:induction false} ShortcutBoundNeverFalls(s: State, es: seq<Event>)
    requires Inv(s) && Run(s, es).Some?
    ensures s.table.minDelay <= Run(s, es).value.table.minDelay
    decreases |es|
  {
    if es != [] {
      var e := es[0];
      StepInv(s, e);
      match e {
        case Send(y) => SendFrame(s, y);
        case Side(y) => SideFrame(s, y);
        case Recv(y) => TickKeepsValid(s.table);
      }
      ShortcutBoundNeverFalls(Step(s, e), es[1..]);
    }
  }

  // ----- graceful close

  /** Steps by which nothing goes wrong: no encode, write, flush or read failure, no forced error. */
  predicate Smooth(e: Event) {
    match e
    case Send(x) => !x.EncodeFail? && !x.WriteFail?
    case Side(x) => !x.PingFail? && !x.FlushFail? && !x.SetError?
    case Recv(x) => !x.FinishFail? && !x.ReadFail? && (x.Finish? ==> x.outcome != Failed(IO))
  }

  predicate NoIoError(rs: seq<Resolution>) {
    forall r :: r in rs ==> r.outcome != Failed(IO)
  }

  /** Only the dropped sender closes the connection, and the receiver leaves only when nothing is live. */
  predicate GracefulInv(s: State) {
    && !s.hasErr && s.dropped == []
    && !s.sender.WriteFailed? && !s.sender.Returning? && !s.sender.FlushFailed? && !s.sender.Refused?
    && (s.closed ==> s.sender.Dropping? || s.sender.Gone?)
    && (s.receiver.Polling? || s.receiver.Holding? || (s.closed && Live(s.table) == []))
    && NoIoError(s.resolved)
  }

  lemma TagNoIo(rs: seq<Resolution>, xs: seq<Task>, e: RpcIntErr)
    requires NoIoError(rs) && (e == IO ==> xs == [])
    ensures NoIoError(rs + Tag(xs, Failed(e)))
  {
  }

  lemma GracefulSend(s: State, e: SendEvent)
    requires GracefulInv(s) && SendEnabled(s, e) && Smooth(Send(e))
    ensures GracefulInv(SendStep(s, e))
  {
    hide NoIoError, Live;
  }

  lemma GracefulSide(s: State, e: SideEvent)
    requires GracefulInv(s) && SideEnabled(s, e) && Smooth(Side(e))
    ensures GracefulInv(SideStep(s, e))
  {
    hide NoIoError;
  }

  lemma {:induction false} NoBatches(q: seq<seq<Task>>)
    requires FlatDelayed(q) == []
    ensures NewestFirst(q) == []
  {
    if q != [] {
      NoBatches(q[1..]);
    }
  }

  lemma GracefulRecv(s: State, e: RecvEvent)
    requires GracefulInv(s) && TableInv(s) && RecvEnabled(s, e) && Smooth(Recv(e))
    ensures GracefulInv(RecvStep(s, e))
  {
    hide NoIoError, Tick, Expired, DrainOne, Erase, TableInv;
    match e
    case TimerTick => TagNoIo(s.resolved, Expired(s.table), Timeout);
    case Flush =>
      NoBatches(s.table.delayed);
      TagNoIo(s.resolved, [], IO);
      FlatDelayedEmpty(|s.table.delayed|);
    case Finish(o) => OneNoIo(s.resolved, s.receiver.x, o);
    case _ =>
  }

  lemma OneNoIo(rs: seq<Resolution>, x: Task, o: Outcome)
    requires NoIoError(rs) && o != Failed(IO)
    ensures NoIoError(rs + [Resolution(x, o)])
  {
  }

  lemma {:induction false} GracefulRun(s: State, es: seq<Event>)
    requires Inv(s) && GracefulInv(s) && Run(s, es).Some?
    requires forall i :: 0 <= i < |es| ==> Smooth(es[i])
    ensures GracefulInv(Run(s, es).value)
    decreases |es|
  {
    if es != [] {
      hide GracefulInv, SendStep, SideStep, RecvStep, SendEnabled, SideEnabled, RecvEnabled, Smooth;
      match es[0] {
        case Send(x) => GracefulSend(s, x);
        case Side(x) => GracefulSide(s, x);
        case Recv(x) => GracefulRecv(s, x);
      }
      StepInv(s, es[0]);
      GracefulRun(Step(s, es[0]), es[1..]);
    }
  }

  /**
   A connection on which nothing fails and that ends by dropping the sender: every accepted task is
   resolved exactly once, none of them by an IO error, however late the sender went away.
   */
  lemma GracefulClose(timeout: nat, threshold: nat, es: seq<Event>)
    requires threshold >= 1
    requires forall i :: 0 <= i < |es| ==> Smooth(es[i])
    requires var r := Run(InitState(timeout, threshold), es);
      r.Some? && r.value.receiver.Exited?
    ensures var s := Run(InitState(timeout, threshold), es).value;
      && (forall r :: r in s.resolved ==> r.outcome != Failed(IO))
      && (forall id: nat :: id < s.accepted ==> Times(id, Settled(s.resolved)) == 1)
  {
    hide Run;
    var s0 := InitState(timeout, threshold);
    var s := Run(s0, es).value;
    InitInv(timeout, threshold);
    GracefulRun(s0, es);
    RunInv(s0, es);
    AllResolvedIff(s);
  }
}
