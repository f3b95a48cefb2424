/**
 One API call over a failover pool: the task object and its result slot, the retry wrapper, the
 internal retry loop, and the redirect and next-node loop around it.
 */
module ApiCall {
  import opened Errors
  import opened Wire
  import opened ErrorCodec
  import opened ResponseFraming
  import opened ResultFidelity
  import opened Arith
  import Rotation

  /** What happens to one submission: the task is told something, or it is dropped unresolved. */
  datatype Outcome = Told(d: Delivery) | Vanished

  /** Where a submission goes: an un-reduced index and the version of the configuration it refers to. */
  datatype Hop = Hop(index: nat, ver: nat)

  /** What routing is asked for: a first pool, the next try of a stamped task, the node after an index. */
  datatype Ask = First | Again(last: Hop) | After(index: nat)

  /**
   `outcome(k)` is the fate of the k-th submission, `route(k, ask)` what routing answers when it is
   asked for it, `redirect(k)` where a redirect goes, which always finds or makes a pool.
   */
  datatype Env = Env(outcome: nat -> Outcome, route: (nat, Ask) -> Option<Hop>, redirect: nat -> Hop)

  /** What a user error asks for. */
  datatype Verdict = Redirect | NextNode | Stop

  type Slot = (Option<seq<byte>>, Result<(), EncodedErr>)

  // ----- reference semantics

  /** How a task's life ends: where every submission so far went, and what its result slot holds (nothing if it was dropped). */
  datatype Ending = Ending(hops: seq<Hop>, slot: Option<Slot>)

  function Last(hops: seq<Hop>): Hop
    requires hops != []
  {
    hops[|hops| - 1]
  }

  /** The last submission is told a retriable error, and the task is tried again. */
  predicate TriesAgain(env: Env, hops: seq<Hop>, retry: nat, limit: nat)
    requires hops != []
  {
    Retried(env, |hops| - 1) && retry + 1 <= limit && env.route(|hops|, Again(Last(hops))).Some?
  }

  /** The k-th submission ends with an error that the retry worker may try again. */
  predicate Retried(env: Env, k: nat) {
    env.outcome(k).Told? && env.outcome(k).d.GotRpcErr? && Retriable(env.outcome(k).d.e)
  }

  /** The life of one task just submitted to the last hop. */
  function Life(env: Env, hops: seq<Hop>, retry: nat, limit: nat): Ending
    requires hops != []
    decreases if retry <= limit then limit - retry + 1 else 0
  {
    if TriesAgain(env, hops, retry, limit) then
      Life(env, hops + [env.route(|hops|, Again(Last(hops))).value], retry + 1, limit)
    else if env.outcome(|hops| - 1).Told? then Ending(hops, Some(Apply(env.outcome(|hops| - 1).d)))
    else Ending(hops, None)
  }

  /** Everything a call needs besides its environment. */
  datatype Caller<!R, !E> = Caller(c: Codec<R>, ec: ErrCodec<E>, default: R, verdict: E -> Verdict, limit: nat)

  /** A slot with an error holds no message, and never the server-only static text. */
  predicate CleanSlot(end: Option<Slot>) {
    end.Some? && end.value.1.Err? ==> end.value.0.None? && !end.value.1.error.Static?
  }

  /** Without a submission there is only the error of routing. */
  predicate CleanEnd(end: Ending) {
    CleanSlot(end.slot) && (end.hops == [] ==> end.slot == Some(NoHop()))
  }

  function NoHop(): Slot {
    (None, Err(EncodedErr.Rpc(Unreachable)))
  }

  /** The rest of a call after a task's life has ended, `rounds` user errors into it. */
  function Rounds<R, E>(w: Caller<R, E>, env: Env, end: Ending, rounds: nat): (seq<Hop>, CallEnd<R, E>)
    requires CleanEnd(end)
    decreases if rounds < w.limit then w.limit - rounds else 0
  {
    if end.slot.None? then (end.hops, CallEnd.Rpc(Internal))
    else
      var r := ProcessRes(w.c, w.ec, w.default, end.slot.value.0, end.slot.value.1);
      if !r.User? || w.verdict(r.u).Stop? || rounds + 1 >= w.limit then (end.hops, r)
      else Rounds(w, env, Resubmit(w, env, end.hops, w.verdict(r.u), rounds + 1), rounds + 1)
  }

  /**
   A redirect keeps the call's count as the task's retry count; the next node is the one after the
   place that refused, and starts afresh.
   */
  function Resubmit<R, E>(w: Caller<R, E>, env: Env, hops: seq<Hop>, v: Verdict, rounds: nat): (r: Ending)
    requires hops != []
    ensures CleanEnd(r)
  {
    if v.Redirect? then Life'(env, hops + [env.redirect(|hops|)], rounds, w.limit)
    else
      match env.route(|hops|, After(Last(hops).index))
      case Some(hop) => Life'(env, hops + [hop], 0, w.limit)
      case None => Ending(hops, Some(NoHop()))
  }

  function Life'(env: Env, hops: seq<Hop>, retry: nat, limit: nat): (r: Ending)
    requires hops != []
    ensures r == Life(env, hops, retry, limit) && CleanEnd(r)
  {
    LifeEndsClean(env, hops, retry, limit);
    Life(env, hops, retry, limit)
  }

  lemma {:induction false} LifeEndsClean(env: Env, hops: seq<Hop>, retry: nat, limit: nat)
    requires hops != []
    ensures CleanEnd(Life(env, hops, retry, limit))
    decreases if retry <= limit then limit - retry + 1 else 0
  {
    if TriesAgain(env, hops, retry, limit) {
      LifeEndsClean(env, hops + [env.route(|hops|, Again(Last(hops))).value], retry + 1, limit);
    }
  }

  /** Where a call's submissions go, and how it ends. */
  function CallRef<R, E>(w: Caller<R, E>, env: Env): (seq<Hop>, CallEnd<R, E>) {
    match env.route(0, First)
    case Some(hop) => Rounds(w, env, Life'(env, [hop], 0, w.limit), 0)
    case None => Rounds(w, env, Ending([], Some(NoHop())), 0)
  }

  // ----- what a call does, stated on its environment

  /** What the caller makes of the delivery that ended submission k. */
  function ResultOf<R, E>(w: Caller<R, E>, env: Env, k: nat): CallEnd<R, E>
    requires env.outcome(k).Told?
  {
    ProcessRes(w.c, w.ec, w.default, Apply(env.outcome(k).d).0, Apply(env.outcome(k).d).1)
  }

  predicate UserError<R, E>(w: Caller<R, E>, env: Env, k: nat) {
    env.outcome(k).Told? && ResultOf(w, env, k).User?
  }

  predicate Asks<R, E>(w: Caller<R, E>, env: Env, k: nat, v: Verdict) {
    UserError(w, env, k) && w.verdict(ResultOf(w, env, k).u) == v
  }

  /** User errors among the first n submissions. */
  function UserErrors<R, E>(w: Caller<R, E>, env: Env, n: nat): nat {
    if n == 0 then 0 else UserErrors(w, env, n - 1) + if UserError(w, env, n - 1) then 1 else 0
  }

  /** The retry count submission k carries: a redirect starts at the user errors so far, a next node at 0. */
  function RetryOf<R, E>(w: Caller<R, E>, env: Env, k: nat): nat {
    if k == 0 then 0
    else if Retried(env, k - 1) then RetryOf(w, env, k - 1) + 1
    else if Asks(w, env, k - 1, Redirect) then UserErrors(w, env, k)
    else 0
  }

  /** Submission j follows from submission j - 1: a retry, a redirect or the next node, each within its budget. */
  predicate Follows<R, E>(w: Caller<R, E>, env: Env, hops: seq<Hop>, j: nat)
    requires 0 < j < |hops|
  {
    || (Retried(env, j - 1) && RetryOf(w, env, j - 1) + 1 <= w.limit && env.route(j, Again(hops[j - 1])) == Some(hops[j]))
    || (Asks(w, env, j - 1, Redirect) && UserErrors(w, env, j) < w.limit && hops[j] == env.redirect(j))
    || (Asks(w, env, j - 1, NextNode) && UserErrors(w, env, j) < w.limit
        && env.route(j, After(hops[j - 1].index)) == Some(hops[j]))
  }

  /** Why no submission follows the last one, and what the call then yields. */
  ghost predicate Ends<R, E>(w: Caller<R, E>, env: Env, hops: seq<Hop>, r: CallEnd<R, E>)
    requires hops != []
  {
    var k := |hops| - 1;
    if env.outcome(k).Vanished? then r == CallEnd.Rpc(Internal)
    else if Retried(env, k) then
      r == ResultOf(w, env, k) && (RetryOf(w, env, k) + 1 > w.limit || env.route(k + 1, Again(hops[k])).None?)
    else if UserError(w, env, k) && !Asks(w, env, k, Stop) && UserErrors(w, env, k + 1) < w.limit then
      Asks(w, env, k, NextNode) && env.route(k + 1, After(hops[k].index)).None? && r == CallEnd.Rpc(Unreachable)
    else r == ResultOf(w, env, k)
  }

  /** The whole behaviour of a call, without its loops. */
  ghost predicate Lawful<R, E>(w: Caller<R, E>, env: Env, hops: seq<Hop>, r: CallEnd<R, E>) {
    if hops == [] then env.route(0, First).None? && r == CallEnd.Rpc(Unreachable)
    else
      && env.route(0, First) == Some(hops[0])
      && (forall j :: 0 < j < |hops| ==> Follows(w, env, hops, j))
      && Ends(w, env, hops, r)
  }

  ghost predicate AllFollow<R, E>(w: Caller<R, E>, env: Env, hops: seq<Hop>) {
    forall j :: 0 < j < |hops| ==> Follows(w, env, hops, j)
  }

  lemma OneMoreFollows<R, E>(w: Caller<R, E>, env: Env, hops: seq<Hop>, hop: Hop)
    requires hops != [] && AllFollow(w, env, hops) && Follows(w, env, hops + [hop], |hops|)
    ensures AllFollow(w, env, hops + [hop])
  {
    forall j | 0 < j < |hops + [hop]| ensures Follows(w, env, hops + [hop], j) {
      if j < |hops| {
        assert Follows(w, env, hops, j);
      }
    }
  }

  /** A retriable error is not a user error. */
  lemma RetriedIsRpc<R, E>(w: Caller<R, E>, env: Env, k: nat)
    requires Retried(env, k)
    ensures !UserError(w, env, k) && UserErrors(w, env, k + 1) == UserErrors(w, env, k)
  {
  }

  /** The life of a task is a lawful stretch of the call, without user errors before its end. */
  lemma {:induction false} LifeLaw<R, E>(w: Caller<R, E>, env: Env, hops: seq<Hop>)
    requires hops != [] && AllFollow(w, env, hops)
    ensures var e := Life(env, hops, RetryOf(w, env, |hops| - 1), w.limit);
      && hops <= e.hops && AllFollow(w, env, e.hops)
      && UserErrors(w, env, |e.hops| - 1) == UserErrors(w, env, |hops| - 1)
      && var k := |e.hops| - 1;
         && e.slot == (if env.outcome(k).Told? then Some(Apply(env.outcome(k).d)) else None)
         && (Retried(env, k) ==> RetryOf(w, env, k) + 1 > w.limit || env.route(k + 1, Again(e.hops[k])).None?)
    decreases if RetryOf(w, env, |hops| - 1) <= w.limit then w.limit - RetryOf(w, env, |hops| - 1) + 1 else 0
  {
    hide Asks, UserError, ResultOf;
    var k := |hops| - 1;
    if TriesAgain(env, hops, RetryOf(w, env, k), w.limit) {
      var hop := env.route(|hops|, Again(Last(hops))).value;
      assert Follows(w, env, hops + [hop], |hops|);
      OneMoreFollows(w, env, hops, hop);
      RetriedIsRpc(w, env, k);
      LifeLaw(w, env, hops + [hop]);
    }
  }

  /** A call that has come to the end of a task's life goes on lawfully. */
  lemma {:induction false} RoundsLaw<R, E>(w: Caller<R, E>, env: Env, end: Ending, rounds: nat)
    requires end.hops != [] && CleanEnd(end) && AllFollow(w, env, end.hops)
    requires var k := |end.hops| - 1;
      && rounds == UserErrors(w, env, k)
      && end.slot == (if env.outcome(k).Told? then Some(Apply(env.outcome(k).d)) else None)
      && (Retried(env, k) ==> RetryOf(w, env, k) + 1 > w.limit || env.route(k + 1, Again(end.hops[k])).None?)
    ensures var (hops, r) := Rounds(w, env, end, rounds);
      end.hops <= hops && AllFollow(w, env, hops) && Ends(w, env, hops, r)
    decreases if rounds < w.limit then w.limit - rounds else 0
  {
    hide Life, AllFollow, Follows, Rounds;
    var k := |end.hops| - 1;
    RoundsUnfold(w, env, end, rounds);
    if env.outcome(k).Told? && !Retried(env, k) && UserError(w, env, k) && !Asks(w, env, k, Stop) && rounds + 1 < w.limit {
      var v := w.verdict(ResultOf(w, env, k).u);
      var hop := env.route(|end.hops|, After(Last(end.hops).index));
      if v.Redirect? || hop.Some? {
        var h := if v.Redirect? then env.redirect(|end.hops|) else hop.value;
        NextFollows(w, env, end.hops, h);
        LifeLaw(w, env, end.hops + [h]);
        RoundsLaw(w, env, Resubmit(w, env, end.hops, v, rounds + 1), rounds + 1);
      } else {
        RoundsUnfold(w, env, Ending(end.hops, Some(NoHop())), rounds + 1);
      }
    }
  }

  lemma RoundsUnfold<R, E>(w: Caller<R, E>, env: Env, end: Ending, rounds: nat)
    requires CleanEnd(end)
    ensures end.slot.None? ==> Rounds(w, env, end, rounds) == (end.hops, CallEnd.Rpc(Internal))
    ensures end.slot.Some? ==>
      var r := ProcessRes(w.c, w.ec, w.default, end.slot.value.0, end.slot.value.1);
      Rounds(w, env, end, rounds) ==
        if !r.User? || w.verdict(r.u).Stop? || rounds + 1 >= w.limit then (end.hops, r)
        else Rounds(w, env, Resubmit(w, env, end.hops, w.verdict(r.u), rounds + 1), rounds + 1)
  {
    hide Resubmit, ProcessRes;
  }

  lemma NextFollows<R, E>(w: Caller<R, E>, env: Env, hops: seq<Hop>, hop: Hop)
    requires hops != [] && AllFollow(w, env, hops) && UserErrors(w, env, |hops|) < w.limit
    requires !Retried(env, |hops| - 1)
    requires (Asks(w, env, |hops| - 1, Redirect) && hop == env.redirect(|hops|))
      || (Asks(w, env, |hops| - 1, NextNode) && env.route(|hops|, After(Last(hops).index)) == Some(hop))
    ensures AllFollow(w, env, hops + [hop])
    ensures RetryOf(w, env, |hops|) == if Asks(w, env, |hops| - 1, Redirect) then UserErrors(w, env, |hops|) else 0
  {
    hide AllFollow, Asks, UserErrors;
    OneMoreFollows(w, env, hops, hop);
  }

  /**
   Every call, in every environment: the first submission goes where first routing says, each further
   one is a retry, a redirect or a next node within its budget, and the result is the caller's view of
   the last delivery, or an internal error if that submission vanished, or unreachable if routing found
   no pool.
   */
  lemma CallLaw<R, E>(w: Caller<R, E>, env: Env)
    ensures var (hops, r) := CallRef(w, env);
      Lawful(w, env, hops, r)
  {
    hide Life, Follows, Ends;
    var first := env.route(0, First);
    if first.Some? {
      LifeLaw(w, env, [first.value]);
      RoundsLaw(w, env, Life'(env, [first.value], 0, w.limit), 0);
    } else {
      RoundsUnfold(w, env, Ending([], Some(NoHop())), 0);
    }
  }

  /**
   The same in the caller's words. The result is what the caller makes of the last delivery; an internal
   error stands for a vanished submission, unreachable for routing that found no pool. A user error is
   returned only if it asks to stop or the budget is spent, and a redirect goes where it points.
   */
  lemma CallResult<R, E>(w: Caller<R, E>, env: Env)
    ensures var (hops, r) := CallRef(w, env);
      var n := |hops|;
      && (n == 0 ==> r == CallEnd.Rpc(Unreachable))
      && (n > 0 && env.outcome(n - 1).Vanished? ==> r == CallEnd.Rpc(Internal))
      && (n > 0 && env.outcome(n - 1).Told? ==>
            var (resp, res) := Apply(env.outcome(n - 1).d);
            || r == ProcessRes(w.c, w.ec, w.default, resp, res)
            || (r == CallEnd.Rpc(Unreachable) && env.route(n, After(hops[n - 1].index)).None?))
      && (r.User? ==> w.verdict(r.u).Stop? || UserErrors(w, env, n) >= w.limit)
      && (forall j :: 0 < j < n && Asks(w, env, j - 1, Redirect) ==> hops[j] == env.redirect(j))
  {
    hide CallRef, Apply, ProcessRes, UserErrors, RetryOf;
    CallLaw(w, env);
    var (hops, r) := CallRef(w, env);
    if hops != [] && Retried(env, |hops| - 1) {
      RetriedIsRpc(w, env, |hops| - 1);
    }
    forall j | 0 < j < |hops| && Asks(w, env, j - 1, Redirect) ensures hops[j] == env.redirect(j) {
      assert Follows(w, env, hops, j);
      if Retried(env, j - 1) {
        RetriedIsRpc(w, env, j - 1);
      }
    }
  }

  /** The law leaves nothing open: it determines where the submissions go and what the call yields. */
  lemma LawIsComplete<R, E>(w: Caller<R, E>, env: Env, hops: seq<Hop>, r: CallEnd<R, E>)
    requires Lawful(w, env, hops, r)
    ensures (hops, r) == CallRef(w, env)
  {
    hide Rounds, Life;
    CallLaw(w, env);
    var (hops', r') := CallRef(w, env);
    if hops != [] {
      SamePrefix(w, env, hops, hops', if |hops| <= |hops'| then |hops| else |hops'|);
      if |hops| < |hops'| {
        NotBoth(w, env, hops, r, hops');
      } else if |hops'| < |hops| {
        NotBoth(w, env, hops', r', hops);
      } else {
        assert hops == hops';
      }
    }
  }

  lemma {:induction false} SamePrefix<R, E>(w: Caller<R, E>, env: Env, a: seq<Hop>, b: seq<Hop>, n: nat)
    requires 0 < n <= |a| && n <= |b| && a[0] == b[0] && AllFollow(w, env, a) && AllFollow(w, env, b)
    ensures a[..n] == b[..n]
  {
    hide UserErrors, RetryOf, ResultOf;
    if n > 1 {
      SamePrefix(w, env, a, b, n - 1);
      assert a[n - 2] == a[..n - 1][n - 2] == b[n - 2];
      assert Follows(w, env, a, n - 1) && Follows(w, env, b, n - 1);
      if Retried(env, n - 2) {
        RetriedIsRpc(w, env, n - 2);
      }
      assert a[n - 1] == b[n - 1];
    }
  }

  /** A call cannot both end after `a` and go on to `b`. */
  lemma NotBoth<R, E>(w: Caller<R, E>, env: Env, a: seq<Hop>, r: CallEnd<R, E>, b: seq<Hop>)
    requires a != [] && |a| < |b| && a == b[..|a|] && AllFollow(w, env, b)
    ensures !Ends(w, env, a, r)
  {
    hide UserErrors, RetryOf, ResultOf;
    assert Follows(w, env, b, |a|);
    assert a[|a| - 1] == b[|a| - 1];
    if Retried(env, |a| - 1) {
      RetriedIsRpc(w, env, |a| - 1);
    }
  }

  // ----- bounded attempts

  /** One task that starts at retry r is submitted at most limit - r + 1 times, and at least once. */
  lemma {:induction false} LifeBound(env: Env, hops: seq<Hop>, retry: nat, limit: nat)
    requires hops != []
    ensures |hops| <= |Life(env, hops, retry, limit).hops| <= |hops| + (if retry <= limit then limit - retry else 0)
    decreases if retry <= limit then limit - retry + 1 else 0
  {
    if TriesAgain(env, hops, retry, limit) {
      LifeBound(env, hops + [env.route(|hops|, Again(Last(hops))).value], retry + 1, limit);
    }
  }

  /** Rounds that are still allowed after `rounds` user errors. */
  function RoundsLeft(limit: nat, rounds: nat): nat {
    if rounds + 1 < limit then limit - rounds - 1 else 0
  }

  lemma ResubmitBound<R, E>(w: Caller<R, E>, env: Env, hops: seq<Hop>, v: Verdict, rounds: nat)
    requires hops != []
    ensures |hops| <= |Resubmit(w, env, hops, v, rounds).hops| <= |hops| + w.limit + 1
  {
    hide Life;
    LifeBound(env, hops + [env.redirect(|hops|)], rounds, w.limit);
    var hop := env.route(|hops|, After(Last(hops).index));
    if hop.Some? {
      LifeBound(env, hops + [hop.value], 0, w.limit);
    }
  }

  lemma {:induction false} RoundsBound<R, E>(w: Caller<R, E>, env: Env, end: Ending, rounds: nat)
    requires CleanEnd(end)
    ensures |end.hops| <= |Rounds(w, env, end, rounds).0| <= |end.hops| + RoundsLeft(w.limit, rounds) * (w.limit + 1)
    decreases if rounds < w.limit then w.limit - rounds else 0
  {
    hide Resubmit;
    if end.slot.Some? {
      var r := ProcessRes(w.c, w.ec, w.default, end.slot.value.0, end.slot.value.1);
      if r.User? && !w.verdict(r.u).Stop? && rounds + 1 < w.limit {
        ResubmitBound(w, env, end.hops, w.verdict(r.u), rounds + 1);
        RoundsBound(w, env, Resubmit(w, env, end.hops, w.verdict(r.u), rounds + 1), rounds + 1);
        OneMore(RoundsLeft(w.limit, rounds + 1), w.limit + 1);
      }
    }
  }

  lemma OneMore(n: nat, m: nat)
    ensures (n + 1) * m == n * m + m
  {
  }

  function CallLimit(limit: nat): nat {
    (limit + 1) * (if limit > 0 then limit else 1)
  }

  /** A call makes at most (limit + 1) * max(limit, 1) submissions over retries, redirects and next nodes. */
  lemma CallBound<R, E>(w: Caller<R, E>, env: Env)
    ensures |CallRef(w, env).0| <= CallLimit(w.limit)
  {
    hide Rounds, Life;
    OneMore(RoundsLeft(w.limit, 0), w.limit + 1);
    match env.route(0, First)
    case Some(hop) =>
      LifeBound(env, [hop], 0, w.limit);
      RoundsBound(w, env, Life'(env, [hop], 0, w.limit), 0);
    case None =>
      RoundsBound(w, env, Ending([], Some(NoHop())), 0);
  }

  /** An environment in which every task fails `limit` times and then draws a next-node error. */
  function Hostile(limit: nat): Env {
    Env((k: nat) => if Rotation.Slot(k, limit + 1) == limit then Told(GotErrno(1)) else Told(GotRpcErr(IO)),
        (_: nat, _: Ask) => Some(Hop(0, 0)), (_: nat) => Hop(0, 0))
  }

  function Copies(n: nat): seq<Hop> {
    seq(n, _ => Hop(0, 0))
  }

  /** Submission `retry` of turn `turn` in the hostile environment, and the one after it. */
  lemma HostileAt(limit: nat, turn: nat, retry: nat)
    requires retry <= limit
    ensures var k := turn * (limit + 1) + retry;
      && Hostile(limit).outcome(k) == (if retry == limit then Told(GotErrno(1)) else Told(GotRpcErr(IO)))
      && (forall j: nat, ask :: Hostile(limit).route(j, ask) == Some(Hop(0, 0)))
      && Copies(k + 1) + [Hop(0, 0)] == Copies(k + 2)
      && Copies(k + 1) != [] && Last(Copies(k + 1)) == Hop(0, 0)
  {
    DivUnique(turn * (limit + 1) + retry, limit + 1, turn, retry);
  }

  lemma {:induction false} HostileLife(limit: nat, turn: nat, retry: nat)
    requires retry <= limit
    ensures Life(Hostile(limit), Copies(turn * (limit + 1) + retry + 1), retry, limit)
         == Ending(Copies((turn + 1) * (limit + 1)), Some((None, Err(Num(1)))))
    decreases limit - retry
  {
    hide Hostile, Copies;
    HostileAt(limit, turn, retry);
    CopiesLength(turn * (limit + 1) + retry + 1);
    OneMore(turn, limit + 1);
    if retry < limit {
      HostileLife(limit, turn, retry + 1);
    }
  }

  lemma CopiesLength(n: nat)
    ensures |Copies(n)| == n
  {
  }

  lemma {:induction false} HostileRounds<R, E>(w: Caller<R, E>, rounds: nat)
    requires w.limit >= 1 && rounds < w.limit && w.ec.decode(GotNum(1)).Some?
    requires w.verdict(w.ec.decode(GotNum(1)).value) == NextNode
    ensures var end := Ending(Copies((rounds + 1) * (w.limit + 1)), Some((None, Err(Num(1)))));
      CleanEnd(end) && |Rounds(w, Hostile(w.limit), end, rounds).0| == w.limit * (w.limit + 1)
    decreases w.limit - rounds
  {
    hide Life, Rounds, Hostile, ProcessRes;
    var n := (rounds + 1) * (w.limit + 1);
    OneMore(rounds, w.limit + 1);
    HostileRound(w, n, rounds);
    if rounds + 1 < w.limit {
      HostileLife(w.limit, rounds + 1, 0);
      HostileRounds(w, rounds + 1);
    }
  }

  /** One user error of the hostile environment: the next node is tried while the budget lasts. */
  lemma HostileRound<R, E>(w: Caller<R, E>, n: nat, rounds: nat)
    requires n > 0 && w.ec.decode(GotNum(1)).Some? && w.verdict(w.ec.decode(GotNum(1)).value) == NextNode
    ensures var end := Ending(Copies(n), Some((None, Err(Num(1)))));
      && CleanEnd(end)
      && (rounds + 1 >= w.limit ==> Rounds(w, Hostile(w.limit), end, rounds).0 == Copies(n))
      && (rounds + 1 < w.limit ==>
            Rounds(w, Hostile(w.limit), end, rounds)
            == Rounds(w, Hostile(w.limit), Life'(Hostile(w.limit), Copies(n + 1), 0, w.limit), rounds + 1))
  {
    hide Life, Rounds;
    assert Copies(n) + [Hop(0, 0)] == Copies(n + 1);
    RoundsUnfold(w, Hostile(w.limit), Ending(Copies(n), Some((None, Err(Num(1))))), rounds);
  }

  /** The bound is reached whenever some user error asks for the next node. */
  lemma CallBoundTight<R, E>(w: Caller<R, E>)
    requires w.ec.decode(GotNum(1)).Some? && w.verdict(w.ec.decode(GotNum(1)).value) == NextNode
    ensures |CallRef(w, Hostile(w.limit)).0| == CallLimit(w.limit)
  {
    hide Life, Rounds;
    assert [Hop(0, 0)] == Copies(1);
    HostileLife(w.limit, 0, 0);
    if w.limit >= 1 {
      HostileRounds(w, 0);
    } else {
      HostileStop(w);
    }
  }

  /** With a limit of 0 the first user error ends the call. */
  lemma HostileStop<R, E>(w: Caller<R, E>)
    requires w.limit == 0
    ensures |Rounds(w, Hostile(0), Ending(Copies(1), Some((None, Err(Num(1))))), 0).0| == 1
  {
    hide Life;
  }

  // ----- the task objects

  class APIClientReq {
    var resp: Option<seq<byte>>
    var res: Option<Result<(), EncodedErr>>
    var noti: bool                  // a notifier is present
    var received: bool              // the notifier has handed the task back to the caller
    var lastIndex: nat
    var configVer: nat

    constructor ()
      ensures resp == None && res == None && !noti && !received
    {
      resp, res, noti, received, lastIndex, configVer := None, None, false, false, 0, 0;
    }

    method SetNoti()
      modifies this`noti, this`received
      ensures noti && !received
    {
      noti, received := true, false;
    }

    method DecodeResp(buf: seq<byte>)
      modifies this`resp
      ensures resp == if buf == [] then old(resp) else Some(buf)
    {
      if buf != [] {
        resp := Some(buf);
      }
    }

    method SetCustomError(e: EncodedErr, lastIndex: nat, configVer: nat)
      modifies this`res, this`lastIndex, this`configVer
      ensures res == Some(Err(e)) && this.lastIndex == lastIndex && this.configVer == configVer
    {
      res := Some(Err(e));
      this.lastIndex, this.configVer := lastIndex, configVer;
    }

    method SetRpcError(e: RpcIntErr)
      modifies this`res
      ensures res == Some(Err(EncodedErr.Rpc(e)))
    {
      res := Some(Err(EncodedErr.Rpc(e)));
    }

    method SetOk()
      modifies this`res
      ensures res == Some(Ok(()))
    {
      res := Some(Ok(()));
    }

    /** The notifier is unwrapped here and the result slot by whoever receives the task. */
    method Done()
      requires noti && res.Some?
      modifies this`noti, this`received
      ensures !noti && received
    {
      noti, received := false, true;
    }

    /** Takes the result out of its slot. */
    method Process<R, E>(w: Caller<R, E>) returns (r: CallEnd<R, E>)
      requires received && res.Some? && !(res.value.Err? && res.value.error.Static?)
      modifies this`res
      ensures r == ProcessRes(w.c, w.ec, w.default, resp, old(res).value)
      ensures res == None
    {
      r := ProcessRes(w.c, w.ec, w.default, resp, res.value);
      res := None;
    }
  }

  class FailoverTask {
    const inner: APIClientReq
    var lastIndex: nat
    var configVer: nat
    var retry: nat
    var shouldRetry: bool
    const maxRetries: nat

    constructor (inner: APIClientReq, lastIndex: nat, configVer: nat, retry: nat, maxRetries: nat)
      ensures this.inner == inner && this.retry == retry && !shouldRetry && this.maxRetries == maxRetries
      ensures this.lastIndex == lastIndex && this.configVer == configVer
    {
      this.inner, this.lastIndex, this.configVer := inner, lastIndex, configVer;
      this.retry, this.shouldRetry, this.maxRetries := retry, false, maxRetries;
    }

    /** The wrapper reports its own routing data to the wrapped task. */
    method SetCustomError(e: EncodedErr)
      modifies this`shouldRetry, inner`res, inner`lastIndex, inner`configVer
      ensures !shouldRetry && inner.res == Some(Err(e))
      ensures inner.lastIndex == lastIndex && inner.configVer == configVer
    {
      shouldRetry := false;
      inner.SetCustomError(e, lastIndex, configVer);
    }

    method SetRpcError(e: RpcIntErr)
      modifies this`shouldRetry, this`retry, inner`res
      ensures shouldRetry == Retriable(e)
      ensures retry == old(retry) + (if Retriable(e) then 1 else 0)
      ensures inner.res == Some(Err(EncodedErr.Rpc(e)))
    {
      if Retriable(e) {
        shouldRetry := true;
        retry := retry + 1;
      } else {
        shouldRetry := false;
      }
      inner.SetRpcError(e);
    }

    /** error_handle: hand the task to the retry worker, or finish it. */
    method ErrorHandle(retryLimit: nat) returns (again: bool)
      requires inner.noti && inner.res.Some?
      modifies inner`noti, inner`received
      ensures again <==> shouldRetry && retry <= (if maxRetries > 0 then maxRetries else retryLimit)
      ensures again ==> inner.noti && inner.received == old(inner.received)
      ensures !again ==> !inner.noti && inner.received
    {
      var limit := if maxRetries > 0 then maxRetries else retryLimit;
      if shouldRetry && retry <= limit {
        return true;
      }
      inner.Done();
      return false;
    }

    /** What the transport, the timer or a pool does to a submitted task. */
    method Tell(d: Delivery, retryLimit: nat) returns (again: bool)
      requires inner.noti && !inner.received && inner.resp == None
      requires d.GotOk? && d.msg.Some? ==> d.msg.value != []
      modifies this`shouldRetry, this`retry, inner
      ensures again <==> d.GotRpcErr? && Retriable(d.e) && old(retry) + 1 <= (if maxRetries > 0 then maxRetries else retryLimit)
      ensures again ==> inner.noti && !inner.received && inner.resp == None && inner.res == Some(Apply(d).1) && retry == old(retry) + 1
      ensures !again ==> inner.received && !inner.noti && inner.res == Some(Apply(d).1) && inner.resp == Apply(d).0
      ensures d.GotErrno? || d.GotErrText? ==> inner.lastIndex == lastIndex && inner.configVer == configVer
    {
      match d {
        case GotOk(msg, _) =>
          if msg.Some? {
            inner.DecodeResp(msg.value);
          }
          inner.SetOk();
          inner.Done();
          return false;
        case GotErrno(n) =>
          SetCustomError(Num(n));
        case GotErrText(b) =>
          SetCustomError(Buf(b));
        case GotRpcErr(e) =>
          SetRpcError(e);
      }
      again := ErrorHandle(retryLimit);
    }
  }

  /** Messages come with their length, so a delivered message is never empty. */
  ghost predicate SaneEnv(env: Env) {
    forall k: nat :: env.outcome(k).Told? && env.outcome(k).d.GotOk? && env.outcome(k).d.msg.Some? ==> env.outcome(k).d.msg.value != []
  }

  /** A user error came back: it carries the place that refused. */
  predicate Reports(task: APIClientReq, end: Ending)
    reads task
  {
    end.slot.Some? && end.slot.value.1.Err? && !end.slot.value.1.error.Rpc? ==>
      end.hops != [] && task.lastIndex == Last(end.hops).index && task.configVer == Last(end.hops).ver
  }

  /** What the caller finds in the task that its notifier hands back. */
  predicate HandedBack(task: APIClientReq, end: Ending)
    reads task
  {
    end.slot.Some? ==>
      && task.received && task.res == Some(end.slot.value.1) && task.resp == end.slot.value.0
      && Reports(task, end)
  }

  /** One submitted task, through the retry worker, until it is done or dropped. */
  method RunLife(t: FailoverTask, env: Env, before: seq<Hop>, limit: nat) returns (end: Ending)
    requires SaneEnv(env) && t.maxRetries == 0
    requires t.inner.noti && !t.inner.received && t.inner.resp == None
    modifies t, t.inner
    ensures end == Life(env, before + [Hop(old(t.lastIndex), old(t.configVer))], old(t.retry), limit)
    ensures HandedBack(t.inner, end)
    ensures end.slot.None? ==> !t.inner.received
  {
    var hops := before + [Hop(t.lastIndex, t.configVer)];
    ghost var whole := Life(env, hops, t.retry, limit);
    while true
      invariant t.inner.noti && !t.inner.received && t.inner.resp == None
      invariant hops != [] && Last(hops) == Hop(t.lastIndex, t.configVer)
      invariant Life(env, hops, t.retry, limit) == whole
      decreases if t.retry <= limit then limit - t.retry + 1 else 0
    {
      match env.outcome(|hops| - 1) {
        case Vanished => return Ending(hops, None);
        case Told(d) =>
          var again := t.Tell(d, limit);
          if !again {
            return Ending(hops, Some(Apply(d)));
          }
          var next := env.route(|hops|, Again(Hop(t.lastIndex, t.configVer)));
          if next.None? {
            t.inner.Done();
            return Ending(hops, Some(Apply(d)));
          }
          t.lastIndex, t.configVer := next.value.index, next.value.ver;
          hops := hops + [next.value];
      }
    }
  }

  /** Routing found no pool: the task is told so and handed straight back. */
  method GiveUp(task: APIClientReq, hops: seq<Hop>) returns (end: Ending)
    requires task.noti && task.resp == None
    modifies task
    ensures end == Ending(hops, Some(NoHop())) && HandedBack(task, end)
  {
    task.SetRpcError(Unreachable);
    task.Done();
    return Ending(hops, Some(NoHop()));
  }

  /** Submits the task to a hop and follows it to its end. */
  method Submit(task: APIClientReq, env: Env, before: seq<Hop>, retry: nat, limit: nat, hop: Hop) returns (end: Ending)
    requires SaneEnv(env) && task.noti && !task.received && task.resp == None
    modifies task
    ensures end == Life(env, before + [hop], retry, limit) && CleanEnd(end) && HandedBack(task, end)
  {
    LifeEndsClean(env, before + [hop], retry, limit);
    var t := new FailoverTask(task, hop.index, hop.ver, retry, 0);
    end := RunLife(t, env, before, limit);
  }

  /** The redirect and next-node arms of the call loop. */
  method CallAgain<R, E>(w: Caller<R, E>, env: Env, task: APIClientReq, hops: seq<Hop>, v: Verdict, rounds: nat)
    returns (next: Ending)
    requires SaneEnv(env) && task.resp == None && hops != [] && task.lastIndex == Last(hops).index
    modifies task
    ensures next == Resubmit(w, env, hops, v, rounds) && HandedBack(task, next)
  {
    hide Life;
    task.SetNoti();
    if v.Redirect? {
      next := Submit(task, env, hops, rounds, w.limit, env.redirect(|hops|));
    } else {
      var hop := env.route(|hops|, After(task.lastIndex));
      if hop.Some? {
        next := Submit(task, env, hops, 0, w.limit, hop.value);
      } else {
        next := GiveUp(task, hops);
      }
    }
  }

  /** APIClientCaller::call for a failover pool. `hops` is where its submissions went, in order. */
  method Call<R, E>(w: Caller<R, E>, env: Env) returns (hops: seq<Hop>, r: CallEnd<R, E>)
    requires SaneEnv(env)
    ensures (hops, r) == CallRef(w, env)
    ensures Lawful(w, env, hops, r)
    ensures |hops| <= CallLimit(w.limit)
  {
    hide Life, Resubmit, Lawful;
    CallBound(w, env);
    CallLaw(w, env);
    var task := new APIClientReq();
    var rounds, end := 0, Ending([], Some(NoHop()));
    task.SetNoti();
    var hop := env.route(0, First);
    if hop.Some? {
      assert [] + [hop.value] == [hop.value];
      end := Submit(task, env, [], 0, w.limit, hop.value);
    } else {
      end := GiveUp(task, []);
    }
    while true
      invariant CleanEnd(end) && HandedBack(task, end)
      invariant Rounds(w, env, end, rounds) == CallRef(w, env)
      decreases if rounds < w.limit then w.limit - rounds else 0
    {
      if end.slot.None? {
        return end.hops, CallEnd.Rpc(Internal);
      }
      r := task.Process(w);
      if !r.User? {
        return end.hops, r;
      }
      rounds := rounds + 1;
      var v := w.verdict(r.u);
      if v.Stop? || rounds >= w.limit {
        return end.hops, r;
      }
      end := CallAgain(w, env, task, end.hops, v, rounds);
    }
  }
}
