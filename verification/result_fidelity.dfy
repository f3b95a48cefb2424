/** From what a service method returns to what the caller's API call yields, through the wire. */
module ResultFidelity {
  import opened Errors
  import opened Wire
  import opened ErrorCodec
  import opened ResponseFraming

  /** The user's codec for one response type, and for one error type. */
  datatype Codec<!R> = Codec(encode: R -> Option<seq<byte>>, decode: seq<byte> -> Option<R>)
  datatype ErrCodec<!E> = ErrCodec(encode: E -> EncodedErr, decode: Received -> Option<E>)

  /** How a service method ends. */
  datatype MethodEnd<R, E> = Returned(r: R) | RpcFailed(e: RpcIntErr) | UserFailed(u: E)

  /** How an API call ends. */
  datatype CallEnd<R, E> = Answer(r: R) | User(u: E) | Rpc(e: RpcIntErr)

  // ----- server

  datatype APIServerResp = APIServerResp(no: u64, msg: Option<seq<byte>>, res: Option<Result<(), EncodedErr>>)

  function SetResult<R>(c: Codec<R>, no: u64, r: R): APIServerResp {
    match c.encode(r)
    case None => APIServerResp(no, None, Some(Err(EncodedErr.Rpc(RpcIntErr.Encode))))
    case Some(msg) => APIServerResp(no, Some(msg), Some(Ok(())))
  }

  function SetRpcError(no: u64, e: RpcIntErr): APIServerResp {
    APIServerResp(no, None, Some(Err(EncodedErr.Rpc(e))))
  }

  function SetUserError<E>(ec: ErrCodec<E>, no: u64, u: E): APIServerResp {
    APIServerResp(no, None, Some(Err(ec.encode(u))))
  }

  function Respond<R, E>(c: Codec<R>, ec: ErrCodec<E>, no: u64, m: MethodEnd<R, E>): (a: APIServerResp)
    ensures a.res.Some? && a.no == no
  {
    match m
    case Returned(r) => SetResult(c, no, r)
    case RpcFailed(e) => SetRpcError(no, e)
    case UserFailed(u) => SetUserError(ec, no, u)
  }

  /** encode_resp: the message is appended whole, an error appends nothing. */
  function EncodeTask(a: APIServerResp): Encoded
    requires a.res.Some?
  {
    match a.res.value
    case Ok(_) => Encoded(OptBytes(a.msg), Ok((|OptBytes(a.msg)|, None)))
    case Err(e) => Encoded([], Err(e))
  }

  // ----- client

  /** An API task takes no blob and keeps the undecoded message. */
  function APITask(): Found {
    Found(false, (_: seq<byte>) => true)
  }

  /** The task's `resp` and `res` fields after the reader has told it the outcome. */
  function Apply(d: Delivery): (Option<seq<byte>>, Result<(), EncodedErr>) {
    match d
    case GotOk(msg, _) => (msg, Ok(()))
    case GotErrno(n) => (None, Err(Num(n)))
    case GotErrText(b) => (None, Err(Buf(b)))
    case GotRpcErr(e) => (None, Err(EncodedErr.Rpc(e)))
  }

  function DecodeUser<R, E>(ec: ErrCodec<E>, r: Received): CallEnd<R, E> {
    match ec.decode(r)
    case Some(u) => User(u)
    case None => CallEnd.Rpc(Decode)
  }

  /** process_res on the taken result; the static-text case is the one it calls unreachable. */
  function ProcessRes<R, E>(c: Codec<R>, ec: ErrCodec<E>, default: R, resp: Option<seq<byte>>, res: Result<(), EncodedErr>)
    : CallEnd<R, E>
    requires !(res.Err? && res.error.Static?)
  {
    match res
    case Ok(_) =>
      if resp.None? then Answer(default)
      else
        (match c.decode(resp.value)
         case Some(r) => Answer(r)
         case None => CallEnd.Rpc(Decode))
    case Err(Rpc(e)) => CallEnd.Rpc(e)
    case Err(Num(n)) => DecodeUser(ec, GotNum(n))
    case Err(Buf(b)) => DecodeUser(ec, GotBytes(b))
  }

  // ----- end to end

  /** Lengths the header can carry. */
  predicate Sendable<R, E>(c: Codec<R>, ec: ErrCodec<E>, m: MethodEnd<R, E>) {
    match m
    case Returned(r) => |OptBytes(c.encode(r))| <= U32_MAX
    case RpcFailed(_) => true
    case UserFailed(u) => |ErrText(ec.encode(u))| <= I32_MAX
  }

  function TextOutcome<R, E>(ec: ErrCodec<E>, b: seq<byte>): CallEnd<R, E> {
    if FromName(b).Some? then CallEnd.Rpc(FromName(b).value) else DecodeUser(ec, GotBytes(b))
  }

  /** What the caller should see, stated without mentioning the wire. */
  function Ideal<R, E>(c: Codec<R>, ec: ErrCodec<E>, default: R, m: MethodEnd<R, E>): CallEnd<R, E> {
    match m
    case Returned(r) =>
      (match c.encode(r)
       case None => CallEnd.Rpc(RpcIntErr.Encode)
       case Some(b) =>
         if b == [] then Answer(default)
         else if c.decode(b).Some? then Answer(c.decode(b).value)
         else CallEnd.Rpc(Decode))
    case RpcFailed(e) => CallEnd.Rpc(e)
    case UserFailed(u) =>
      (match ec.encode(u)
       case Num(n) => DecodeUser(ec, GotNum(n))
       case Rpc(e) => CallEnd.Rpc(e)
       case Buf(b) => TextOutcome(ec, b)
       case Static(b) => TextOutcome(ec, b))
  }

  lemma RespondWellEncoded<R, E>(c: Codec<R>, ec: ErrCodec<E>, no: u64, m: MethodEnd<R, E>)
    requires Sendable(c, ec, m)
    ensures WellEncoded(EncodeTask(Respond(c, ec, no, m)))
  {
  }

  /**
   What a method returns is what the call yields. The response is read off the wire in one frame,
   the static-text case never reaches process_res, and the outcome is the ideal one.
   */
  lemma EndToEnd<R, E>(c: Codec<R>, ec: ErrCodec<E>, default: R, env: Reader, no: u64, m: MethodEnd<R, E>,
                       rest: seq<byte>)
    requires Sendable(c, ec, m) && env.lookup(no) == Some(APITask())
    ensures var x := EncodeTask(Respond(c, ec, no, m));
      && ReadResp(env, RespBytes(no, x) + rest) == Read(Some(Expected(APITask(), x)), rest)
      && var (resp, res) := Apply(Expected(APITask(), x));
         && !(res.Err? && res.error.Static?)
         && ProcessRes(c, ec, default, resp, res) == Ideal(c, ec, default, m)
  {
    var x := EncodeTask(Respond(c, ec, no, m));
    RespondWellEncoded(c, ec, no, m);
    assert MustDump(Some(APITask()), x) == 0;
    hide *;
    FrameSync(env, no, x, rest);
    OutcomeIdeal(c, ec, default, no, m);
  }

  /** What the task is told, processed, is the ideal outcome. */
  lemma OutcomeIdeal<R, E>(c: Codec<R>, ec: ErrCodec<E>, default: R, no: u64, m: MethodEnd<R, E>)
    requires Sendable(c, ec, m)
    ensures var (resp, res) := Apply(Expected(APITask(), EncodeTask(Respond(c, ec, no, m))));
      && !(res.Err? && res.error.Static?)
      && ProcessRes(c, ec, default, resp, res) == Ideal(c, ec, default, m)
  {
    hide ReadErrText, Name, FromName;
    match m
    case Returned(r) =>
      RpcDelivery(RpcIntErr.Encode);
    case RpcFailed(e) =>
      RpcDelivery(e);
    case UserFailed(u) =>
      TextRead(ErrText(ec.encode(u)));
      if ec.encode(u).Rpc? {
        RpcDelivery(ec.encode(u).e);
      }
  }

  lemma RpcDelivery(e: RpcIntErr)
    ensures ReadErrText(Name(e)) == GotRpcErr(e)
  {
    hide ReadErrText, Name, FromName;
    TextRead(Name(e));
    NameRoundTrip(e);
  }

  /** With a codec that round trips and never encodes to nothing, an answer arrives unchanged. */
  lemma AnswerFidelity<R, E>(c: Codec<R>, ec: ErrCodec<E>, default: R, r: R)
    requires c.encode(r).Some? && c.encode(r).value != [] && c.decode(c.encode(r).value) == Some(r)
    ensures Ideal(c, ec, default, Returned(r)) == Answer(r)
  {
  }

  function IntCodec(t: IntType): ErrCodec<int> {
    ErrCodec((v: int) => if -0x8000_0000 <= v <= U32_MAX then EncodeInt(v) else Num(0), (r: Received) => DecodeInt(t, r))
  }

  /** A built-in integer error arrives as itself if and only if it is not negative, else as a decode error. */
  lemma IntErrorEndToEnd<R>(c: Codec<R>, t: IntType, default: R, v: int)
    requires BuiltIn(t) && t.min <= v <= t.max
    ensures Ideal(c, IntCodec(t), default, UserFailed(v)) == if v >= 0 then User(v) else CallEnd.Rpc(Decode)
  {
    IntErrorFidelity(t, v);
  }

  /** The string error type; `utf8` tells which byte strings are text. */
  function TextCodec(utf8: seq<byte> -> bool): ErrCodec<seq<byte>> {
    ErrCodec((s: seq<byte>) => Buf(s), (r: Received) => if r.GotBytes? && utf8(r.b) then Some(r.b) else None)
  }

  /** A text error arrives unchanged if and only if it is not one of the nine reserved names. */
  lemma TextErrorIff<R>(c: Codec<R>, utf8: seq<byte> -> bool, default: R, s: seq<byte>)
    requires utf8(s)
    ensures Ideal(c, TextCodec(utf8), default, UserFailed(s)) == User(s) <==> !Reserved(s)
    ensures Reserved(s) ==> exists e :: Ideal(c, TextCodec(utf8), default, UserFailed(s)) == CallEnd.Rpc(e) && Name(e) == s
  {
    FromNameReserved(s);
  }
}
