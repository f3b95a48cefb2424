/** What the log, the flags and the counters of a connection say about the steps that were taken. */
module StreamLaws {
  import opened Errors
  import opened TaskTable
  import opened StreamProtocol

  // ----- outcomes

  function CountOf(rs: seq<Resolution>, o: Outcome): nat {
    if rs == [] then 0 else (if rs[0].outcome == o then 1 else 0) + CountOf(rs[1..], o)
  }

  lemma {:induction false} CountConcat(a: seq<Resolution>, b: seq<Resolution>, o: Outcome)
    ensures CountOf(a + b, o) == CountOf(a, o) + CountOf(b, o)
  {
    if a == [] {
      assert a + b == b;
    } else {
      assert (a + b)[1..] == a[1..] + b;
      CountConcat(a[1..], b, o);
    }
  }

  lemma {:induction false} CountTag(xs: seq<Task>, p: Outcome, o: Outcome)
    ensures CountOf(Tag(xs, p), o) == if p == o then |xs| else 0
  {
    if xs != [] {
      assert Tag(xs, p)[1..] == Tag(xs[1..], p);
      CountTag(xs[1..], p, o);
    }
  }

  /** How many entries with outcome `o` a step owes the log. */
  function Owed(s: State, e: Event, o: Outcome): nat {
    match e
    case Recv(Finish(p)) => if p == o then 1 else 0
    case Recv(TimerTick) => if o == Failed(Timeout) then |Expired(s.table)| else 0
    case Recv(FinishFail) => if o == Failed(IO) then 1 else 0
    case Recv(Flush) => if o == Failed(IO) then |Filed(s.table)| else 0
    case Send(RefuseResolve) => if o == Failed(IO) then 1 else 0
    case Send(WriteFailStep) => if o == Failed(IO) && s.sender.WriteFailed? && s.sender.stage >= 4 then 1 else 0
    case _ => 0
  }

  function OwedByRun(s: State, es: seq<Event>, o: Outcome): nat
    decreases |es|
  {
    if es == [] || !Enabled(s, es[0]) then 0
    else Owed(s, es[0], o) + OwedByRun(Step(s, es[0]), es[1..], o)
  }

  lemma {:induction false} FlushLength(q: seq<seq<Task>>)
    ensures |NewestFirst(q)| == |FlatDelayed(q)|
  {
    if q != [] {
      FlushLength(q[1..]);
    }
  }

  lemma OneMore(rs: seq<Resolution>, x: Task, p: Outcome, o: Outcome)
    ensures CountOf(rs + [Resolution(x, p)], o) == CountOf(rs, o) + if p == o then 1 else 0
  {
    CountConcat(rs, [Resolution(x, p)], o);
    assert [Resolution(x, p)][1..] == [];
  }

  lemma TagMore(rs: seq<Resolution>, xs: seq<Task>, p: Outcome, o: Outcome)
    ensures CountOf(rs + Tag(xs, p), o) == CountOf(rs, o) + if p == o then |xs| else 0
  {
    CountConcat(rs, Tag(xs, p), o);
    CountTag(xs, p, o);
  }

  lemma SendOutcome(s: State, e: SendEvent, o: Outcome)
    requires SendEnabled(s, e)
    ensures CountOf(SendStep(s, e).resolved, o) == CountOf(s.resolved, o) + Owed(s, Send(e), o)
  {
    hide CountOf;
    if e.RefuseResolve? || e.WriteFailStep? {
      OneMore(s.resolved, s.sender.x, Failed(IO), o);
    }
  }

  lemma RecvOutcome(s: State, e: RecvEvent, o: Outcome)
    requires RecvEnabled(s, e)
    ensures CountOf(RecvStep(s, e).resolved, o) == CountOf(s.resolved, o) + Owed(s, Recv(e), o)
  {
    hide CountOf, Tag, Expired, Tick, Erase, DrainOne;
    match e
    case TimerTick => TagMore(s.resolved, Expired(s.table), Failed(Timeout), o);
    case Flush =>
      FlushLength(s.table.delayed);
      TagMore(s.resolved, FlushOrder(s.table), Failed(IO), o);
    case Finish(p) => OneMore(s.resolved, s.receiver.x, p, o);
    case FinishFail => OneMore(s.resolved, s.receiver.x, Failed(IO), o);
    case _ =>
  }

  /** Over every run, for every outcome: the log has exactly the entries that the steps owe it. */
  lemma {:induction false} OutcomeLaw(s: State, es: seq<Event>, o: Outcome)
    requires Run(s, es).Some?
    ensures CountOf(Run(s, es).value.resolved, o) == CountOf(s.resolved, o) + OwedByRun(s, es, o)
    decreases |es|
  {
    if es != [] {
      hide CountOf, Owed, SendStep, SideStep, RecvStep, SendEnabled, SideEnabled, RecvEnabled;
      match es[0] {
        case Send(e) => SendOutcome(s, e, o);
        case Side(e) => SideOutcome(s, e, o);
        case Recv(e) => RecvOutcome(s, e, o);
      }
      OutcomeLaw(Step(s, es[0]), es[1..], o);
    }
  }

  lemma SideOutcome(s: State, e: SideEvent, o: Outcome)
    requires SideEnabled(s, e)
    ensures SideStep(s, e).resolved == s.resolved && Owed(s, Side(e), o) == 0
  {
  }

  /** Responses of a run that were told to their task with outcome `o`. */
  function Finishes(es: seq<Event>, o: Outcome): nat {
    if es == [] then 0 else (if es[0] == Recv(Finish(o)) then 1 else 0) + Finishes(es[1..], o)
  }

  lemma {:induction false} OnlyFinishes(s: State, es: seq<Event>, o: Outcome)
    requires Run(s, es).Some? && o != Failed(IO) && o != Failed(Timeout)
    ensures OwedByRun(s, es, o) == Finishes(es, o)
    decreases |es|
  {
    if es != [] {
      hide Step, Enabled, Expired, Filed;
      OnlyFinishes(Step(s, es[0]), es[1..], o);
    }
  }

  /**
   Stated on events alone: a task is answered, or failed with anything but an IO error or a timeout,
   exactly as often as a response said so. Nothing the connection does by itself answers a task.
   */
  lemma AnsweredLaw(timeout: nat, threshold: nat, es: seq<Event>, o: Outcome)
    requires Run(InitState(timeout, threshold), es).Some? && o != Failed(IO) && o != Failed(Timeout)
    ensures CountOf(Run(InitState(timeout, threshold), es).value.resolved, o) == Finishes(es, o)
  {
    hide Run, OwedByRun, Finishes;
    OutcomeLaw(InitState(timeout, threshold), es, o);
    OnlyFinishes(InitState(timeout, threshold), es, o);
  }

  // ----- whole calls

  lemma RunCons(s: State, e: Event, es: seq<Event>)
    requires Enabled(s, e)
    ensures Run(s, [e] + es) == Run(Step(s, e), es)
  {
    assert ([e] + es)[1..] == es;
  }

  /** A task offered to a closed connection: it fails with an IO error and the counter is back. */
  lemma RefusedSend(s: State, x: Task)
    requires s.closed && s.sender == Counted(x)
    ensures Run(s, [Send(ReadClosed)] + ([Send(RefuseResolve)] + ([Send(RollBack)] + [])))
         == Some(s.(sender := Idle, count := s.count - 1, resolved := s.resolved + [Resolution(x, Failed(IO))]))
  {
    hide Run;
    var s1 := s.(sender := Refused(x));
    var s2 := s1.(sender := RollingBack, resolved := s.resolved + [Resolution(x, Failed(IO))]);
    RunCons(s, Send(ReadClosed), [Send(RefuseResolve)] + ([Send(RollBack)] + []));
    RunCons(s1, Send(RefuseResolve), [Send(RollBack)] + []);
    RunCons(s2, Send(RollBack), []);
    RunNothing(s2.(sender := Idle, count := s.count - 1));
  }

  lemma RunNothing(s: State)
    ensures Run(s, []) == Some(s)
  {
  }

  function Repeat(e: Event, n: nat): seq<Event> {
    if n == 0 then [] else [e] + Repeat(e, n - 1)
  }

  /** The rest of a failed write from stage n on. */
  lemma {:induction false} WriteFailRest(s: State, x: Task, n: nat)
    requires s.sender == WriteFailed(x, n) && n <= 4
    ensures Run(s, Repeat(Send(WriteFailStep), 5 - n))
         == Some(s.(sender := Returning(0), closed := s.closed || n <= 0, hasErr := s.hasErr || n <= 1,
                    count := if n <= 2 then s.count - 1 else s.count,
                    table := if n <= 3 then s.table.(stopped := true) else s.table,
                    resolved := s.resolved + [Resolution(x, Failed(IO))]))
    decreases 5 - n
  {
    hide Run;
    var s' := Step(s, Send(WriteFailStep));
    RunCons(s, Send(WriteFailStep), Repeat(Send(WriteFailStep), 4 - n));
    if n < 4 {
      WriteFailRest(s', x, n + 1);
    } else {
      RunNothing(s');
    }
  }

  /**
   A write that fails: the connection is marked closed and in error, registration stopped, the counter
   back, and the task fails with an IO error.
   */
  lemma FailedWrite(s: State, x: Task)
    requires s.sender == Numbered(x)
    ensures Run(s, [Send(WriteFail)] + Repeat(Send(WriteFailStep), 5))
         == Some(s.(sender := Returning(0), closed := true, hasErr := true, count := s.count - 1,
                    table := s.table.(stopped := true), resolved := s.resolved + [Resolution(x, Failed(IO))]))
  {
    hide Run, Repeat;
    RunCons(s, Send(WriteFail), Repeat(Send(WriteFailStep), 5));
    WriteFailRest(Step(s, Send(WriteFail)), x, 0);
  }

  /** A response whose body could not be read: its task fails with an IO error and its guard is released. */
  lemma FailedRead(s: State, x: Task)
    requires s.receiver == Holding(x) && s.guards > 0
    ensures RecvStep(s, FinishFail)
         == s.(receiver := Failing, guards := s.guards - 1, resolved := s.resolved + [Resolution(x, Failed(IO))])
  {
  }

  /** Cleaning reports each filed task, as an IO error, and nobody else. */
  lemma FlushedAll(s: State)
    requires s.receiver.Flushing?
    ensures var s' := RecvStep(s, Flush);
      && s.resolved <= s'.resolved && |s'.resolved| == |s.resolved| + |Filed(s.table)|
      && (forall i :: |s.resolved| <= i < |s'.resolved| ==>
            s'.resolved[i].outcome == Failed(IO) && s'.resolved[i].task in Filed(s.table))
      && (forall x :: x in Filed(s.table) ==> Resolution(x, Failed(IO)) in s'.resolved)
  {
    FlushLength(s.table.delayed);
    var out := FlushOrder(s.table);
    forall x ensures x in out <==> x in Filed(s.table) {
      SameTasks(s.table.delayed, x);
    }
    assert RecvStep(s, Flush).resolved == s.resolved + Tag(out, Failed(IO));
    forall x | x in Filed(s.table) ensures Resolution(x, Failed(IO)) in Tag(out, Failed(IO)) {
      var i :| 0 <= i < |out| && out[i] == x;
      assert Tag(out, Failed(IO))[i] == Resolution(x, Failed(IO));
    }
  }

  lemma {:induction false} SameTasks(q: seq<seq<Task>>, x: Task)
    ensures x in NewestFirst(q) <==> x in FlatDelayed(q)
  {
    if q != [] {
      SameTasks(q[1..], x);
    }
  }

  // ----- flags

  /** Events after which the connection is, or is about to be, closed. */
  predicate CausesClose(e: Event) {
    e == Send(EncodeFail) || e == Send(WriteFail) || e == Side(PingFail) || e == Side(FlushFail) || e == Side(DropBegin)
    || e == Recv(CloseNotice) || e == Recv(StoreClosed)
  }

  /** Events after which the receiver is, or is about to be, told to give up. */
  predicate CausesError(e: Event) {
    e == Send(EncodeFail) || e == Send(WriteFail) || e == Side(FlushFail) || e == Side(SetError)
  }

  /** Events after which registration is, or is about to be, stopped. */
  predicate CausesStop(e: Event) {
    e == Send(WriteFail) || e == Side(FlushFail) || e == Side(DropBegin)
  }

  predicate AnyClose(es: seq<Event>) {
    es != [] && (CausesClose(es[0]) || AnyClose(es[1..]))
  }

  predicate AnyError(es: seq<Event>) {
    es != [] && (CausesError(es[0]) || AnyError(es[1..]))
  }

  predicate AnyStop(es: seq<Event>) {
    es != [] && (CausesStop(es[0]) || AnyStop(es[1..]))
  }

  /** The sender still has to store `closed`, the error flag, the stop flag. */
  predicate OwesClosed(p: Sender) {
    (p.WriteFailed? && p.stage == 0) || (p.Returning? && p.stage == 0) || (p.FlushFailed? && p.stage == 0) || p.Dropping?
  }

  predicate OwesErr(p: Sender) {
    (p.WriteFailed? && p.stage <= 1) || p.Returning? || (p.FlushFailed? && p.stage <= 1)
  }

  predicate OwesStop(p: Sender) {
    (p.WriteFailed? && p.stage <= 3) || p.FlushFailed? || (p.Dropping? && p.stage == 0)
  }

  /** The flags, `c`, `e` and `t` telling whether a closing, failing or stopping event has been seen. */
  predicate FlagInv(s: State, c: bool, e: bool, t: bool) {
    && (s.closed || OwesClosed(s.sender) <==> c)
    && (s.hasErr || OwesErr(s.sender) <==> e)
    && (s.table.stopped || OwesStop(s.sender) <==> t)
    && (s.sender.WriteFailed? || s.sender.Returning? || s.sender.FlushFailed? ==> c && e)
  }

  lemma StepFlags(s: State, x: Event, c: bool, e: bool, t: bool)
    requires FlagInv(s, c, e, t) && Enabled(s, x)
    ensures FlagInv(Step(s, x), c || CausesClose(x), e || CausesError(x), t || CausesStop(x))
  {
    match x
    case Send(y) => SendFlags(s, y, c, e, t);
    case Side(y) => SideFlags(s, y, c, e, t);
    case Recv(y) => RecvFlags(s, y, c, e, t);
  }

  lemma SendFlags(s: State, x: SendEvent, c: bool, e: bool, t: bool)
    requires FlagInv(s, c, e, t) && SendEnabled(s, x)
    ensures FlagInv(SendStep(s, x), c || CausesClose(Send(x)), e || CausesError(Send(x)), t || CausesStop(Send(x)))
  {
  }

  lemma SideFlags(s: State, x: SideEvent, c: bool, e: bool, t: bool)
    requires FlagInv(s, c, e, t) && SideEnabled(s, x)
    ensures FlagInv(SideStep(s, x), c || CausesClose(Side(x)), e || CausesError(Side(x)), t || CausesStop(Side(x)))
  {
  }

  lemma RecvFlags(s: State, x: RecvEvent, c: bool, e: bool, t: bool)
    requires FlagInv(s, c, e, t) && RecvEnabled(s, x)
    ensures FlagInv(RecvStep(s, x), c || CausesClose(Recv(x)), e || CausesError(Recv(x)), t || CausesStop(Recv(x)))
  {
    hide Tag, Expired, FlushOrder, Filed, Live, Without;
  }

  lemma {:induction false} RunFlags(s: State, es: seq<Event>, c: bool, e: bool, t: bool)
    requires FlagInv(s, c, e, t) && Run(s, es).Some?
    ensures FlagInv(Run(s, es).value, c || AnyClose(es), e || AnyError(es), t || AnyStop(es))
    decreases |es|
  {
    if es != [] {
      hide FlagInv, Step, Enabled, CausesClose, CausesError, CausesStop;
      StepFlags(s, es[0], c, e, t);
      RunFlags(Step(s, es[0]), es[1..], c || CausesClose(es[0]), e || CausesError(es[0]), t || CausesStop(es[0]));
    }
  }

  /**
   Between the sender's calls the three flags say exactly which kinds of events the run had: closed
   after a failed encoding, write, ping or flush, a drop or the receiver's own exit; in error after a
   failed encoding, write or flush or a forced error; stopped after a failed write or flush or a drop.
   */
  lemma FlagLaw(timeout: nat, threshold: nat, es: seq<Event>)
    requires var r := Run(InitState(timeout, threshold), es);
      r.Some? && (r.value.sender.Idle? || r.value.sender.Gone?)
    ensures var s := Run(InitState(timeout, threshold), es).value;
      && (s.closed <==> AnyClose(es))
      && (s.hasErr <==> AnyError(es))
      && (s.table.stopped <==> AnyStop(es))
  {
    hide Run, AnyClose, AnyError, AnyStop;
    RunFlags(InitState(timeout, threshold), es, false, false, false);
  }

  // ----- counters

  function Count(es: seq<Event>, e: Event): nat {
    if es == [] then 0 else (if es[0] == e then 1 else 0) + Count(es[1..], e)
  }

  /** Calls, sequence numbers and ticks are counted one by one; pings take numbers, too. */
  lemma {:induction false} CounterLaw(s: State, es: seq<Event>)
    requires Run(s, es).Some?
    ensures var s' := Run(s, es).value;
      && s'.accepted == s.accepted + Count(es, Send(SendBegin))
      && s'.nextSeq == s.nextSeq + Count(es, Send(Number)) + Count(es, Side(PingNumber))
      && s'.ticks == s.ticks + Count(es, Recv(TimerTick))
      && s'.threshold == s.threshold
    decreases |es|
  {
    if es != [] {
      hide Enabled, Step;
      StepCounters(s, es[0]);
      CounterLaw(Step(s, es[0]), es[1..]);
    }
  }

  ghost predicate CountedStep(s: State, e: Event, s': State) {
    && s'.accepted == s.accepted + (if e == Send(SendBegin) then 1 else 0)
    && s'.nextSeq == s.nextSeq + (if e == Send(Number) || e == Side(PingNumber) then 1 else 0)
    && s'.ticks == s.ticks + (if e == Recv(TimerTick) then 1 else 0)
    && s'.threshold == s.threshold
  }

  lemma StepCounters(s: State, e: Event)
    requires Enabled(s, e)
    ensures CountedStep(s, e, Step(s, e))
  {
    hide CountedStep, SendStep, SideStep, RecvStep, SendEnabled, SideEnabled, RecvEnabled;
    match e
    case Send(x) => SendCounters(s, x);
    case Side(x) => SideCounters(s, x);
    case Recv(x) => RecvCounters(s, x);
  }

  lemma SendCounters(s: State, e: SendEvent)
    requires SendEnabled(s, e)
    ensures CountedStep(s, Send(e), SendStep(s, e))
  {
  }

  lemma SideCounters(s: State, e: SideEvent)
    requires SideEnabled(s, e)
    ensures CountedStep(s, Side(e), SideStep(s, e))
  {
  }

  lemma RecvCounters(s: State, e: RecvEvent)
    requires RecvEnabled(s, e)
    ensures CountedStep(s, Recv(e), RecvStep(s, e))
  {
  }

  /** On a closed connection at most one more sequence number is taken, by a call or ping already let in. */
  lemma {:induction false} AtMostOneLateNumber(s: State, es: seq<Event>)
    requires s.closed && Run(s, es).Some?
    ensures Count(es, Send(Number)) + Count(es, Side(PingNumber))
         <= if s.sender.Admitted? || s.sender.PingAdmitted? then 1 else 0
    decreases |es|
  {
    if es != [] {
      hide Enabled, Step;
      LateStep(s, es[0]);
      AtMostOneLateNumber(Step(s, es[0]), es[1..]);
    }
  }

  lemma LateStep(s: State, e: Event)
    requires s.closed && Enabled(s, e)
    ensures var s' := Step(s, e);
      && s'.closed
      && (s'.sender.Admitted? || s'.sender.PingAdmitted? ==>
            s'.sender == s.sender && e != Send(Number) && e != Side(PingNumber))
      && (e == Send(Number) || e == Side(PingNumber) ==> s.sender.Admitted? || s.sender.PingAdmitted?)
  {
    hide SendStep, SideStep, RecvStep, SendEnabled, SideEnabled, RecvEnabled;
    match e
    case Send(x) => LateSend(s, x);
    case Side(x) => LateSide(s, x);
    case Recv(x) => RecvKeepsSender(s, x);
  }

  lemma LateSend(s: State, e: SendEvent)
    requires s.closed && SendEnabled(s, e)
    ensures SendStep(s, e).closed && !SendStep(s, e).sender.Admitted? && !SendStep(s, e).sender.PingAdmitted?
    ensures e.Number? ==> s.sender.Admitted?
  {
  }

  lemma LateSide(s: State, e: SideEvent)
    requires s.closed && SideEnabled(s, e)
    ensures SideStep(s, e).closed && !SideStep(s, e).sender.Admitted? && !SideStep(s, e).sender.PingAdmitted?
    ensures e.PingNumber? ==> s.sender.PingAdmitted?
  {
  }

  lemma RecvKeepsSender(s: State, e: RecvEvent)
    requires RecvEnabled(s, e)
    ensures RecvStep(s, e).sender == s.sender && (s.closed ==> RecvStep(s, e).closed)
  {
  }

  // ----- progress

  /** What each process can always do next; only the throttle and an empty channel ever make one wait. */
  function NextSend(s: State): Event {
    match s.sender
    case Idle => Send(SendBegin)
    case Counted(_) => Send(ReadClosed)
    case Refused(_) => Send(RefuseResolve)
    case RollingBack => Send(RollBack)
    case Admitted(_) => Send(Number)
    case Numbered(_) => Send(WriteOk)
    case Written(_) => Send(AddGuard)
    case Guarded(_) => Send(EnterChannel)
    case Throttling => Send(ThrottleDone)
    case WriteFailed(_, _) => Send(WriteFailStep)
    case Returning(_) => Send(ReturnErr)
    case PingAdmitted => Side(PingNumber)
    case PingWriting => Side(PingOk)
    case FlushFailed(_) => Side(FlushFailStep)
    case _ => Side(DropStep)
  }

  function NextRecv(s: State): Event {
    match s.receiver
    case Polling => Recv(TimerTick)
    case Holding(_) => Recv(TimerTick)
    case Failing => Recv(StoreClosed)
    case Draining => if s.table.chan != [] then Recv(Drain) else Recv(DrainedEmpty)
    case Flushing => Recv(Flush)
    case _ => Recv(CheckCount)
  }

  /**
   No process is ever stuck: until it is gone the sender has a step, unless the throttle holds it, which
   is exactly while more tasks are in flight than the threshold; until it has exited the receiver has
   one, can drain whatever the channel holds, and can time out tasks even while it reads a body.
   */
  lemma NeverStuck(s: State)
    requires Inv(s)
    ensures !s.sender.Gone? && !s.sender.Throttling? ==> Enabled(s, NextSend(s))
    ensures s.sender.Throttling? ==> (Enabled(s, Send(ThrottleDone)) <==> s.guards <= s.threshold)
    ensures !s.receiver.Exited? ==> Enabled(s, NextRecv(s))
    ensures (s.receiver.Polling? || s.receiver.Holding?) && s.table.chan != [] ==> Enabled(s, Recv(Drain))
  {
    assert |s.table.chan| <= |Live(s.table)|;
  }
}
