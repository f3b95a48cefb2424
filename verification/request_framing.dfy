/** Requests: the client's in-place encoder, the bytes on the wire, and the server's reader. */
module RequestFraming {
  import opened Errors
  import opened Wire

  const REQ_HEADER_LEN: nat := 32

  /** An action is a number or the bytes of a string. */
  datatype Action = Str(name: seq<byte>) | Num(num: i32)

  /** What a client task provides; `msg` is None when its codec fails. */
  datatype ReqTask = ReqTask(no: u64, action: Action, msg: Option<seq<byte>>, blob: Option<seq<byte>>)

  /** What the server hands to its dispatcher. */
  datatype SvrReq = SvrReq(no: u64, action: Action, msg: seq<byte>, blob: Option<seq<byte>>)

  /** Library calls the reader depends on: UTF-8 validation and blob allocation. */
  datatype Env = Env(utf8: seq<byte> -> bool, canAlloc: int -> bool)

  // ----- encoding

  function ActionFlag(a: Action): u32 {
    match a
    case Num(n) => AsU32(n)
    case Str(s) =>
      var n := |s| % 0x1_0000_0000;
      if n >= HIGH_BIT then n else n + HIGH_BIT
  }

  function ActionBytes(a: Action): seq<byte> {
    match a
    case Num(_) => []
    case Str(s) => s
  }

  /** The header, field by field. */
  function ReqHeadBytes(clientId: u64, action: u32, no: u64, msgLen: u32, blobLen: u32): (s: seq<byte>)
    ensures |s| == REQ_HEADER_LEN
  {
    LE(RPC_MAGIC, 2) + [RPC_VERSION_1] + [0] + LE(action, 4) + LE(no, 8) + LE(clientId, 8) + LE(msgLen, 4) + LE(blobLen, 4)
  }

  predicate Encodable(t: ReqTask) {
    t.msg.Some? && |t.msg.value| <= U32_MAX && |OptBytes(t.blob)| <= I32_MAX
  }

  /** The bytes a request puts on the wire. */
  function Frame(clientId: u64, t: ReqTask): seq<byte>
    requires Encodable(t)
  {
    ReqHeadBytes(clientId, ActionFlag(t.action), t.no, |t.msg.value|, |OptBytes(t.blob)|)
    + ActionBytes(t.action) + t.msg.value + OptBytes(t.blob)
  }

  /** Fields are stored one at a time over whatever the first 32 bytes held. */
  method WriteReqHead(buf: Buffer, clientId: u64, action: u32, no: u64, msgLen: u32, blobLen: u32)
    requires |buf.data| >= REQ_HEADER_LEN
    modifies buf
    ensures buf.data == ReqHeadBytes(clientId, action, no, msgLen, blobLen) + old(buf.data)[REQ_HEADER_LEN..]
  {
    hide LE;
    var magic, version := LE(RPC_MAGIC, 2), [RPC_VERSION_1];
    ghost var a := magic + version;
    ghost var b := a + [0] + LE(action, 4);
    ghost var c := b + LE(no, 8) + LE(clientId, 8);
    buf.PutNext(0, magic, []);
    buf.PutNext(2, version, magic);
    buf.PutNext(3, [0], a);
    buf.PutNext(4, LE(action, 4), a + [0]);
    buf.PutNext(8, LE(no, 8), b);
    buf.PutNext(16, LE(clientId, 8), b + LE(no, 8));
    buf.PutNext(24, LE(msgLen, 4), c);
    buf.PutNext(28, LE(blobLen, 4), c + LE(msgLen, 4));
    assert buf.data == buf.data[..32] + buf.data[32..];
  }

  /** ReqHead::encode over a reused buffer; the blob is returned to be written separately. */
  method EncodeReq(buf: Buffer, junk: seq<byte>, clientId: u64, t: ReqTask) returns (r: Result<Option<seq<byte>>, ()>)
    requires |junk| >= REQ_HEADER_LEN
    modifies buf
    ensures r.Ok? <==> t.msg.Some? && |t.msg.value| <= 0xFFFF_FFFF && |OptBytes(t.blob)| <= 0x7FFF_FFFF
    ensures r.Ok? ==> r.value == t.blob && buf.data + OptBytes(t.blob) == Frame(clientId, t)
  {
    hide ReqHeadBytes;
    buf.SetLen(REQ_HEADER_LEN, junk);
    buf.Append(ActionBytes(t.action));
    if t.msg.None? {
      return Err(());
    }
    buf.Append(t.msg.value);
    if |t.msg.value| > U32_MAX {
      return Err(());
    }
    var blobLen := |OptBytes(t.blob)|;
    if blobLen > I32_MAX {
      return Err(());
    }
    assert buf.data[REQ_HEADER_LEN..] == ActionBytes(t.action) + t.msg.value;
    WriteReqHead(buf, clientId, ActionFlag(t.action), t.no, |t.msg.value|, blobLen);
    return Ok(t.blob);
  }

  // ----- decoding

  datatype Head = Head(action: u32, no: u64, clientId: u64, msgLen: u32, blobLen: u32)

  function DecodeHead(s: seq<byte>): Result<Head, RpcIntErr>
    requires |s| == REQ_HEADER_LEN
  {
    if DeLE(s[0..2]) != RPC_MAGIC then Err(IO)
    else if s[2] != RPC_VERSION_1 then Err(Version)
    else Ok(Head(U32At(s, 4), U64At(s, 8), U64At(s, 16), U32At(s, 24), U32At(s, 28)))
  }

  /** A number when the highest bit is clear, otherwise the length of an action string. */
  function GetAction(flag: u32): Result<nat, nat> {
    if flag < HIGH_BIT then Ok(flag) else Err(flag - HIGH_BIT)
  }

  /** What the server makes of a byte stream: a request, and the bytes it leaves unread. */
  function TakeReq(env: Env, input: seq<byte>): Result<(SvrReq, seq<byte>), RpcIntErr> {
    if |input| < REQ_HEADER_LEN then Err(IO)
    else
      match DecodeHead(input[..REQ_HEADER_LEN])
      case Err(_) => Err(Decode)
      case Ok(h) => TakeAction(env, h, input[REQ_HEADER_LEN..])
  }

  function TakeAction(env: Env, h: Head, input: seq<byte>): Result<(SvrReq, seq<byte>), RpcIntErr> {
    match GetAction(h.action)
    case Ok(n) => TakeBody(env, h, Num(n), input)
    case Err(n) =>
      if |input| < n then Err(IO)
      else if !env.utf8(input[..n]) then Err(Decode)
      else TakeBody(env, h, Str(input[..n]), input[n..])
  }

  function TakeBody(env: Env, h: Head, a: Action, input: seq<byte>): Result<(SvrReq, seq<byte>), RpcIntErr> {
    if |input| < h.msgLen then Err(IO)
    else
      var msg, rest := input[..h.msgLen], input[h.msgLen..];
      var n := AsI32(h.blobLen);
      if n <= 0 then Ok((SvrReq(h.no, a, msg, None), rest))
      else if !env.canAlloc(n) then Err(Decode)
      else if |rest| < n then Err(IO)
      else Ok((SvrReq(h.no, a, msg, Some(rest[..n])), rest[n..]))
  }

  /** The server end of a connection, with the two buffers it reuses between requests. */
  class TcpServer {
    var input: seq<byte>
    var actionBuf: seq<byte>
    var msgBuf: seq<byte>

    constructor (bytes: seq<byte>)
      ensures input == bytes
    {
      input, actionBuf, msgBuf := bytes, [], [];
    }

    /** Fill all of a buffer of the given length, or fail. */
    method ReadExact(n: nat) returns (r: Option<seq<byte>>)
      modifies this`input
      ensures r.Some? <==> n <= |old(input)|
      ensures r.Some? ==> r.value == old(input)[..n] && input == old(input)[n..]
    {
      if |input| < n {
        return None;
      }
      r := Some(input[..n]);
      input := input[n..];
    }

    /** `cancelled` says that the idle timer or the close notice wins over the header read. */
    method ReadReq(env: Env, cancelled: bool) returns (r: Result<SvrReq, RpcIntErr>)
      modifies this
      ensures cancelled ==> r == Err(RpcIntErr.Timeout)
      ensures !cancelled ==> (r.Err? <==> TakeReq(env, old(input)).Err?)
      ensures !cancelled && r.Err? ==> r.error == TakeReq(env, old(input)).error
      ensures r.Ok? ==> TakeReq(env, old(input)) == Ok((r.value, input))
    {
      if cancelled {
        return Err(RpcIntErr.Timeout);
      }
      hide DecodeHead;
      var headBuf := ReadExact(REQ_HEADER_LEN);
      if headBuf.None? {
        return Err(IO);
      }
      var head := DecodeHead(headBuf.value);
      if head.Err? {
        return Err(Decode);
      }
      var h := head.value;
      var action;
      match GetAction(h.action) {
        case Ok(n) => action := Num(n);
        case Err(n) =>
          actionBuf := Resize(actionBuf, n);
          var bytes := ReadExact(|actionBuf|);
          if bytes.None? {
            return Err(IO);
          }
          actionBuf := bytes.value;
          if !env.utf8(actionBuf) {
            return Err(Decode);
          }
          action := Str(actionBuf);
      }
      ghost var mid := input;
      assert TakeReq(env, old(input)) == TakeBody(env, h, action, mid);
      msgBuf := Resize(msgBuf, h.msgLen);
      if h.msgLen > 0 {
        var bytes := ReadExact(|msgBuf|);
        if bytes.None? {
          return Err(IO);
        }
        msgBuf := bytes.value;
      }
      var blobLen := AsI32(h.blobLen);
      if blobLen > 0 {
        if !env.canAlloc(blobLen) {
          return Err(Decode);
        }
        var bytes := ReadExact(blobLen);
        if bytes.None? {
          return Err(IO);
        }
        return Ok(SvrReq(h.no, action, msgBuf, bytes));
      }
      return Ok(SvrReq(h.no, action, msgBuf, None));
    }
  }

  // ----- round trip

  /** What the receiver sees of a task: an empty blob arrives as none. */
  function Seen(t: ReqTask): SvrReq
    requires t.msg.Some?
  {
    SvrReq(t.no, t.action, t.msg.value, if OptBytes(t.blob) == [] then None else t.blob)
  }

  /** Actions whose kind and length fit the 31 bits the header leaves them. */
  predicate ActionFits(a: Action) {
    match a
    case Num(n) => n >= 0
    case Str(s) => |s| <= I32_MAX
  }

  predicate EnvAccepts(env: Env, t: ReqTask) {
    (t.action.Str? ==> env.utf8(t.action.name)) && (OptBytes(t.blob) != [] ==> env.canAlloc(|OptBytes(t.blob)|))
  }

  lemma HeadSlices(clientId: u64, action: u32, no: u64, msgLen: u32, blobLen: u32)
    ensures var s := ReqHeadBytes(clientId, action, no, msgLen, blobLen);
      && s[0..2] == LE(RPC_MAGIC, 2) && s[2] == RPC_VERSION_1 && s[3] == 0
      && s[4..8] == LE(action, 4) && s[8..16] == LE(no, 8) && s[16..24] == LE(clientId, 8)
      && s[24..28] == LE(msgLen, 4) && s[28..32] == LE(blobLen, 4)
  {
    hide LE;
    var p4 := LE(RPC_MAGIC, 2) + [RPC_VERSION_1] + [0];
    var p8 := p4 + LE(action, 4);
    var p16 := p8 + LE(no, 8);
    var p24 := p16 + LE(clientId, 8);
    var p28 := p24 + LE(msgLen, 4);
    assert p4[0..2] == LE(RPC_MAGIC, 2) && p4[2] == RPC_VERSION_1 && p4[3] == 0;
    Extend(p4, LE(action, 4));
    Extend(p8, LE(no, 8));
    Extend(p16, LE(clientId, 8));
    Extend(p24, LE(msgLen, 4));
    Extend(p28, LE(blobLen, 4));
  }

  lemma HeadRoundTrip(clientId: u64, action: u32, no: u64, msgLen: u32, blobLen: u32)
    ensures DecodeHead(ReqHeadBytes(clientId, action, no, msgLen, blobLen))
         == Ok(Head(action, no, clientId, msgLen, blobLen))
  {
    hide LE, DeLE;
    HeadSlices(clientId, action, no, msgLen, blobLen);
    FieldRoundTrip(RPC_MAGIC);
    FieldRoundTrip(action);
    FieldRoundTrip(no);
    FieldRoundTrip(clientId);
    FieldRoundTrip(msgLen);
    FieldRoundTrip(blobLen);
  }

  lemma FrameHead(clientId: u64, t: ReqTask, rest: seq<byte>)
    requires Encodable(t)
    ensures |Frame(clientId, t)| >= REQ_HEADER_LEN
    ensures var h := Head(ActionFlag(t.action), t.no, clientId, |t.msg.value|, |OptBytes(t.blob)|);
      DecodeHead((Frame(clientId, t) + rest)[..REQ_HEADER_LEN]) == Ok(h)
    ensures (Frame(clientId, t) + rest)[REQ_HEADER_LEN..]
         == ActionBytes(t.action) + (t.msg.value + (OptBytes(t.blob) + rest))
  {
    var head := ReqHeadBytes(clientId, ActionFlag(t.action), t.no, |t.msg.value|, |OptBytes(t.blob)|);
    HeadRoundTrip(clientId, ActionFlag(t.action), t.no, |t.msg.value|, |OptBytes(t.blob)|);
    assert Frame(clientId, t) + rest == head + (ActionBytes(t.action) + (t.msg.value + (OptBytes(t.blob) + rest)));
  }

  /** The bytes of a request header: a number as itself, a name as its length with the highest bit set. */
  lemma RequestLayout(clientId: u64, t: ReqTask)
    requires Encodable(t)
    ensures var s := Frame(clientId, t);
      && |s| >= 32 && s[0..4] == [0x25, 0x4D, 1, 0]
      && (t.action.Num? && t.action.num >= 0 ==> s[4..8] == LE(t.action.num, 4))
      && (t.action.Str? && |t.action.name| <= 0x7FFF_FFFF ==> s[4..8] == LE(0x8000_0000 + |t.action.name|, 4))
      && s[8..16] == LE(t.no, 8) && s[16..24] == LE(clientId, 8)
      && s[24..28] == LE(|t.msg.value|, 4) && s[28..32] == LE(|OptBytes(t.blob)|, 4)
      && s[32..] == ActionBytes(t.action) + (t.msg.value + OptBytes(t.blob))
  {
    hide LE;
    var action := ActionFlag(t.action);
    HeadSlices(clientId, action, t.no, |t.msg.value|, |OptBytes(t.blob)|);
    MagicBytes();
    var head := ReqHeadBytes(clientId, action, t.no, |t.msg.value|, |OptBytes(t.blob)|);
    var tail := ActionBytes(t.action) + (t.msg.value + OptBytes(t.blob));
    assert Frame(clientId, t) == head + tail;
    hide Frame, ReqHeadBytes;
    Extend(head, tail);
    assert head[0..4] == head[0..2] + [head[2]] + [head[3]];
  }

  /** One request comes back as sent, and the next byte read is the first one after it. */
  lemma RequestRoundTrip(env: Env, clientId: u64, t: ReqTask, rest: seq<byte>)
    requires Encodable(t) && EnvAccepts(env, t) && ActionFits(t.action)
    ensures TakeReq(env, Frame(clientId, t) + rest) == Ok((Seen(t), rest))
  {
    hide DecodeHead, Frame;
    FrameHead(clientId, t, rest);
    var blob := OptBytes(t.blob);
    var h := Head(ActionFlag(t.action), t.no, clientId, |t.msg.value|, |blob|);
    TakeActionBytes(env, h, t.action, t.msg.value + (blob + rest));
    TakeBodyBytes(env, h, t.action, t.msg.value, blob, rest);
  }

  /** The same with the limits and the result spelled out. */
  lemma RequestArrives(env: Env, clientId: u64, no: u64, action: Action, msg: seq<byte>, blob: Option<seq<byte>>, rest: seq<byte>)
    requires |msg| <= 0xFFFF_FFFF && (blob.Some? ==> |blob.value| <= 0x7FFF_FFFF && env.canAlloc(|blob.value|))
    requires action.Num? ==> action.num >= 0
    requires action.Str? ==> |action.name| <= 0x7FFF_FFFF && env.utf8(action.name)
    ensures TakeReq(env, Frame(clientId, ReqTask(no, action, Some(msg), blob)) + rest)
         == Ok((SvrReq(no, action, msg, if blob.None? || blob.value == [] then None else blob), rest))
  {
    hide TakeReq, Frame;
    RequestRoundTrip(env, clientId, ReqTask(no, action, Some(msg), blob), rest);
  }

  /** A connection that ends inside a request is an IO error, wherever it ends. */
  lemma Truncated(env: Env, clientId: u64, t: ReqTask, n: nat)
    requires Encodable(t) && EnvAccepts(env, t) && ActionFits(t.action) && n < |Frame(clientId, t)|
    ensures TakeReq(env, Frame(clientId, t)[..n]) == Err(IO)
  {
    hide DecodeHead, Frame;
    FrameHead(clientId, t, []);
    var frame, blob := Frame(clientId, t), OptBytes(t.blob);
    assert frame + [] == frame;
    if n >= REQ_HEADER_LEN {
      var h := Head(ActionFlag(t.action), t.no, clientId, |t.msg.value|, |blob|);
      assert frame[..n][..REQ_HEADER_LEN] == frame[..REQ_HEADER_LEN];
      var body := ActionBytes(t.action) + (t.msg.value + blob);
      assert frame[REQ_HEADER_LEN..] == body by { assert blob + [] == blob; }
      assert frame[..n][REQ_HEADER_LEN..] == body[..n - REQ_HEADER_LEN];
      TruncatedAction(env, h, t.action, t.msg.value, blob, n - REQ_HEADER_LEN);
    }
  }

  lemma TruncatedAction(env: Env, h: Head, a: Action, msg: seq<byte>, blob: seq<byte>, m: nat)
    requires ActionFits(a) && h.action == ActionFlag(a) && (a.Str? ==> env.utf8(a.name))
    requires h.msgLen == |msg| && h.blobLen == |blob| <= I32_MAX && (blob != [] ==> env.canAlloc(|blob|))
    requires m < |ActionBytes(a) + (msg + blob)|
    ensures TakeAction(env, h, (ActionBytes(a) + (msg + blob))[..m]) == Err(IO)
  {
    var k := |ActionBytes(a)|;
    if m >= k {
      assert (ActionBytes(a) + (msg + blob))[..m] == ActionBytes(a) + (msg + blob)[..m - k];
      TakeActionBytes(env, h, a, (msg + blob)[..m - k]);
    }
  }

  /** Anything that does not start with the magic number and the version is a decode error. */
  lemma Foreign(env: Env, input: seq<byte>)
    requires |input| >= REQ_HEADER_LEN && input[..3] != [0x25, 0x4D, 1]
    ensures TakeReq(env, input) == Err(Decode)
  {
    hide TakeAction;
    var head := input[..REQ_HEADER_LEN];
    assert input[..3] == [input[0], input[1], input[2]];
    assert head[0..2] == [input[0], input[1]] && head[2] == input[2];
    TwoBytes(input[0], input[1]);
  }

  lemma TakeActionBytes(env: Env, h: Head, a: Action, body: seq<byte>)
    requires ActionFits(a) && h.action == ActionFlag(a) && (a.Str? ==> env.utf8(a.name))
    ensures TakeAction(env, h, ActionBytes(a) + body) == TakeBody(env, h, a, body)
  {
    Split(ActionBytes(a), body);
    if a.Num? {
      assert ActionBytes(a) + body == body;
    }
  }

  lemma TakeBodyBytes(env: Env, h: Head, a: Action, msg: seq<byte>, blob: seq<byte>, rest: seq<byte>)
    requires h.msgLen == |msg| && h.blobLen == |blob| <= I32_MAX && (blob != [] ==> env.canAlloc(|blob|))
    ensures TakeBody(env, h, a, msg + (blob + rest)) == Ok((SvrReq(h.no, a, msg, if blob == [] then None else Some(blob)), rest))
  {
    Split(msg, blob + rest);
    Split(blob, rest);
  }

  /**
   The exact condition: an encoded request is received as sent if and only if its action fits. A
   negative action number is read as a string length, and an overlong name loses its top bits.
   */
  lemma RequestRoundTripIff(env: Env, clientId: u64, t: ReqTask, rest: seq<byte>)
    requires Encodable(t) && EnvAccepts(env, t)
    ensures TakeReq(env, Frame(clientId, t) + rest) == Ok((Seen(t), rest)) <==> ActionFits(t.action)
  {
    if ActionFits(t.action) {
      RequestRoundTrip(env, clientId, t, rest);
    } else {
      FrameHead(clientId, t, rest);
      MisreadAction(env, Head(ActionFlag(t.action), t.no, clientId, |t.msg.value|, |OptBytes(t.blob)|), t.action,
                    ActionBytes(t.action) + (t.msg.value + (OptBytes(t.blob) + rest)));
    }
  }

  lemma MisreadAction(env: Env, h: Head, a: Action, input: seq<byte>)
    requires h.action == ActionFlag(a) && !ActionFits(a)
    ensures TakeAction(env, h, input).Ok? ==> TakeAction(env, h, input).value.0.action != a
  {
  }

  /** A negative action number: the server waits for a name of 2147483647 bytes. */
  lemma NegativeActionWitness(env: Env)
    ensures var t := ReqTask(1, Num(-1), Some([]), None);
      Encodable(t) && TakeReq(env, Frame(0, t)) == Err(IO)
  {
    var t := ReqTask(1, Num(-1), Some([]), None);
    FrameHead(0, t, []);
    assert Frame(0, t) + [] == Frame(0, t);
    assert GetAction(ActionFlag(t.action)) == Err(I32_MAX);
  }

  // ----- whole streams

  predicate AllGood(env: Env, ts: seq<ReqTask>) {
    forall t :: t in ts ==> Encodable(t) && EnvAccepts(env, t) && ActionFits(t.action)
  }

  function FrameAll(clientId: u64, ts: seq<ReqTask>): seq<byte>
    requires forall t :: t in ts ==> Encodable(t)
  {
    if ts == [] then [] else Frame(clientId, ts[0]) + FrameAll(clientId, ts[1..])
  }

  function SeenAll(ts: seq<ReqTask>): seq<SvrReq>
    requires forall t :: t in ts ==> t.msg.Some?
  {
    if ts == [] then [] else [Seen(ts[0])] + SeenAll(ts[1..])
  }

  /** Read `n` requests in a row. */
  function TakeMany(env: Env, input: seq<byte>, n: nat): Result<(seq<SvrReq>, seq<byte>), RpcIntErr> {
    if n == 0 then Ok(([], input))
    else
      match TakeReq(env, input)
      case Err(e) => Err(e)
      case Ok((q, rest)) =>
        match TakeMany(env, rest, n - 1)
        case Err(e) => Err(e)
        case Ok((qs, left)) => Ok(([q] + qs, left))
  }

  /** Any list of requests, concatenated, parses back to exactly that list with nothing left over. */
  lemma {:induction false} RequestStreamRoundTrip(env: Env, clientId: u64, ts: seq<ReqTask>, rest: seq<byte>)
    requires AllGood(env, ts)
    ensures TakeMany(env, FrameAll(clientId, ts) + rest, |ts|) == Ok((SeenAll(ts), rest))
  {
    if ts == [] {
      assert FrameAll(clientId, ts) + rest == rest;
    } else {
      var tail := FrameAll(clientId, ts[1..]) + rest;
      assert FrameAll(clientId, ts) + rest == Frame(clientId, ts[0]) + tail;
      assert ts[0] in ts;
      RequestRoundTrip(env, clientId, ts[0], tail);
      RequestStreamRoundTrip(env, clientId, ts[1..], rest);
    }
  }
}
