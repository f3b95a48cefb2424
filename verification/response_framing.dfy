/** Responses: the server's encoder, the bytes on the wire, and the client's reader. */
module ResponseFraming {
  import opened Errors
  import opened Wire
  import opened ErrorCodec

  const RESP_HEADER_LEN: nat := 20
  const FLAG_OK: nat := 0
  const FLAG_ERRNO: nat := 1
  const FLAG_ERR_STRING: nat := 2

  /** Field order of the packed structure: the length comes before the sequence number. */
  function RespHeadBytes(flag: byte, no: u64, msgLen: u32, blobLen: i32): (s: seq<byte>)
    ensures |s| == RESP_HEADER_LEN
  {
    LE(RPC_MAGIC, 2) + [RPC_VERSION_1] + [flag] + LE(msgLen, 4) + LE(no, 8) + LE(AsU32(blobLen), 4)
  }

  method WriteRespHead(buf: Buffer, flag: byte, no: u64, msgLen: u32, blobLen: i32)
    requires |buf.data| >= RESP_HEADER_LEN
    modifies buf
    ensures buf.data == RespHeadBytes(flag, no, msgLen, blobLen) + old(buf.data)[RESP_HEADER_LEN..]
  {
    hide LE;
    var magic, version := LE(RPC_MAGIC, 2), [RPC_VERSION_1];
    ghost var a := magic + version + [flag];
    ghost var b := a + LE(msgLen, 4) + LE(no, 8);
    buf.PutNext(0, magic, []);
    buf.PutNext(2, version, magic);
    buf.PutNext(3, [flag], magic + version);
    buf.PutNext(4, LE(msgLen, 4), a);
    buf.PutNext(8, LE(no, 8), a + LE(msgLen, 4));
    buf.PutNext(16, LE(AsU32(blobLen), 4), b);
    assert buf.data == buf.data[..20] + buf.data[20..];
  }

  // ----- the server's encoder

  /** What a task's encode_resp returned, beside the bytes it has already appended. */
  datatype Encoded = Encoded(written: seq<byte>, r: Result<(nat, Option<seq<byte>>), EncodedErr>)

  function ErrText(e: EncodedErr): seq<byte> {
    match e
    case Num(_) => []
    case Rpc(x) => Name(x)
    case Buf(b) => b
    case Static(s) => s
  }

  /** `len as i32` of a usize. */
  function LenAsI32(n: nat): i32 {
    AsI32(n % 0x1_0000_0000)
  }

  function ErrHead(no: u64, e: EncodedErr): seq<byte> {
    if e.Num? then RespHeadBytes(FLAG_ERRNO, no, e.n, 0)
    else RespHeadBytes(FLAG_ERR_STRING, no, 0, LenAsI32(|ErrText(e)|))
  }

  /** The error that goes out instead of a message or blob too long for the header. */
  function Refusal(x: Encoded): Option<EncodedErr> {
    match x.r
    case Err(e) => Some(e)
    case Ok((n, blob)) =>
      if n > U32_MAX || |OptBytes(blob)| > I32_MAX then Some(Rpc(RpcIntErr.Encode)) else None
  }

  /** All bytes write_resp puts on the wire for one response. */
  function RespBytes(no: u64, x: Encoded): seq<byte> {
    if Refusal(x).Some? then
      ErrHead(no, Refusal(x).value) + x.written + ErrText(Refusal(x).value)
    else
      RespHeadBytes(FLAG_OK, no, x.r.value.0, |OptBytes(x.r.value.1)|) + x.written + OptBytes(x.r.value.1)
  }

  method EncodeError(buf: Buffer, no: u64, e: EncodedErr)
    requires |buf.data| >= RESP_HEADER_LEN
    modifies buf
    ensures buf.data == ErrHead(no, e) + old(buf.data)[RESP_HEADER_LEN..] + ErrText(e)
  {
    hide RespHeadBytes;
    match e
    case Num(n) => WriteRespHead(buf, FLAG_ERRNO, no, n, 0);
    case Rpc(x) =>
      WriteRespHead(buf, FLAG_ERR_STRING, no, 0, LenAsI32(|Name(x)|));
      buf.Append(Name(x));
    case Buf(b) =>
      WriteRespHead(buf, FLAG_ERR_STRING, no, 0, LenAsI32(|b|));
      buf.Append(b);
    case Static(s) =>
      WriteRespHead(buf, FLAG_ERR_STRING, no, 0, LenAsI32(|s|));
      buf.Append(s);
  }

  /** RespHead::encode over a reused buffer. */
  method EncodeResp(buf: Buffer, junk: seq<byte>, no: u64, x: Encoded) returns (blob: Option<seq<byte>>)
    requires |junk| >= RESP_HEADER_LEN
    modifies buf
    ensures buf.data + OptBytes(blob) == RespBytes(no, x)
  {
    hide RespHeadBytes, ErrHead, ErrText;
    buf.SetLen(RESP_HEADER_LEN, junk);
    buf.Append(x.written);
    assert buf.data[RESP_HEADER_LEN..] == x.written;
    match x.r
    case Ok((msgLen, None)) =>
      if msgLen > U32_MAX {
        EncodeError(buf, no, Rpc(RpcIntErr.Encode));
      } else {
        WriteRespHead(buf, FLAG_OK, no, msgLen, 0);
      }
      return None;
    case Ok((msgLen, Some(b))) =>
      if msgLen > U32_MAX {
        EncodeError(buf, no, Rpc(RpcIntErr.Encode));
        return None;
      } else if |b| > I32_MAX {
        EncodeError(buf, no, Rpc(RpcIntErr.Encode));
        return None;
      }
      WriteRespHead(buf, FLAG_OK, no, msgLen, |b|);
      return Some(b);
    case Err(e) =>
      EncodeError(buf, no, e);
      return None;
  }

  // ----- the client's reader

  datatype Head = Head(flag: byte, msgLen: u32, no: u64, blobLen: i32)

  function DecodeHead(s: seq<byte>): Result<Head, RpcIntErr>
    requires |s| == RESP_HEADER_LEN
  {
    if DeLE(s[0..2]) != RPC_MAGIC then Err(IO)
    else if s[2] != RPC_VERSION_1 then Err(Version)
    else Ok(Head(s[3], U32At(s, 4), U64At(s, 8), AsI32(U32At(s, 16))))
  }

  /** A task the timer found: whether it takes a blob, and whether it can decode a message. */
  datatype Found = Found(takesBlob: bool, decodes: seq<byte> -> bool)

  /** What the reader depends on: the timer's answer to a number, and which buffers can be allocated. */
  datatype Reader = Reader(lookup: u64 -> Option<Found>, canAlloc: nat -> bool)

  /** What the reader tells the task before it is done. */
  datatype Delivery =
    | GotOk(msg: Option<seq<byte>>, blob: Option<seq<byte>>)
    | GotErrno(n: u32)
    | GotErrText(text: seq<byte>)
    | GotRpcErr(e: RpcIntErr)

  /** Result of one read_resp: what the task was told, if there is one, and the unread bytes. */
  datatype Reading =
    | Read(told: Option<Delivery>, rest: seq<byte>)
    | Broken(told: Option<Delivery>, e: RpcIntErr)
    | Panicked

  /** The dump buffer is allocated with `l as i32`, which must be positive. */
  predicate DumpAllocates(env: Reader, l: u32) {
    AsI32(l) > 0 && env.canAlloc(l)
  }

  function Dump(env: Reader, told: Option<Delivery>, l: u32, input: seq<byte>): Reading {
    if !DumpAllocates(env, l) || |input| < l then Broken(told, IO) else Read(told, input[l..])
  }

  function ReadErrText(text: seq<byte>): Delivery {
    if Ascii(RPC_ERR_PREFIX) <= text && FromName(text).Some? then GotRpcErr(FromName(text).value)
    else GotErrText(text)
  }

  function ReadError(h: Head, input: seq<byte>): Reading {
    if h.flag == FLAG_ERRNO then Read(Some(GotErrno(h.msgLen)), input)
    else if h.flag == FLAG_ERR_STRING then
      if h.blobLen < 0 then Panicked
      else if |input| < h.blobLen then Broken(Some(GotRpcErr(IO)), IO)
      else Read(Some(ReadErrText(input[..h.blobLen])), input[h.blobLen..])
    else Panicked
  }

  function Finish(f: Found, msg: seq<byte>, blob: Option<seq<byte>>, rest: seq<byte>): Reading {
    if msg != [] && !f.decodes(msg) then Read(Some(GotRpcErr(Decode)), rest)
    else Read(Some(GotOk(if msg == [] then None else Some(msg), blob)), rest)
  }

  function ReadKnown(env: Reader, h: Head, f: Found, input: seq<byte>): Reading {
    if h.flag > 0 then ReadError(h, input)
    else if |input| < h.msgLen then Broken(Some(GotRpcErr(IO)), IO)
    else
      var msg, rest := input[..h.msgLen], input[h.msgLen..];
      if h.blobLen <= 0 then Finish(f, msg, None, rest)
      else if !f.takesBlob then Dump(env, Some(GotRpcErr(Decode)), h.blobLen, rest)
      else if |rest| < h.blobLen then Broken(Some(GotRpcErr(IO)), IO)
      else Finish(f, msg, Some(rest[..h.blobLen]), rest[h.blobLen..])
  }

  /** The bytes to skip for an unknown task; the sum wraps at 32 bits. */
  function SkipLen(h: Head): u32 {
    if h.flag == FLAG_OK then (h.msgLen + AsU32(h.blobLen)) % 0x1_0000_0000
    else if h.flag == FLAG_ERR_STRING then AsU32(h.blobLen)
    else 0
  }

  function ReadUnknown(env: Reader, h: Head, input: seq<byte>): Reading {
    if SkipLen(h) > 0 then Dump(env, None, SkipLen(h), input) else Read(None, input)
  }

  function ReadBody(env: Reader, h: Head, known: Option<Found>, input: seq<byte>): Reading {
    if known.Some? then ReadKnown(env, h, known.value, input) else ReadUnknown(env, h, input)
  }

  /** One response read from a stream, for whatever the timer answers to its sequence number. */
  function ReadResp(env: Reader, input: seq<byte>): Reading {
    if |input| < RESP_HEADER_LEN then Broken(None, IO)
    else
      match DecodeHead(input[..RESP_HEADER_LEN])
      case Err(e) => Broken(None, e)
      case Ok(h) => ReadBody(env, h, env.lookup(h.no), input[RESP_HEADER_LEN..])
  }

  /** The client end of a connection with its reused response buffer. */
  class TcpClient {
    var input: seq<byte>
    var respBuf: seq<byte>

    constructor (bytes: seq<byte>)
      ensures input == bytes
    {
      input, respBuf := bytes, [];
    }

    method ReadExact(n: nat) returns (r: Option<seq<byte>>)
      modifies this`input
      ensures r.Some? <==> n <= |old(input)|
      ensures r.Some? ==> r.value == old(input)[..n] && input == old(input)[n..]
    {
      if |input| < n {
        return None;
      }
      r := Some(input[..n]);
      input := input[n..];
    }

    method RecvAndDump(env: Reader, l: u32) returns (ok: bool)
      modifies this`input
      ensures ok <==> DumpAllocates(env, l) && l <= |old(input)|
      ensures ok ==> input == old(input)[l..]
    {
      if AsI32(l) <= 0 || !env.canAlloc(l) {
        return false;
      }
      var r := ReadExact(l);
      return r.Some?;
    }

    method RecvError(h: Head) returns (r: Reading)
      requires h.flag > 0
      modifies this
      ensures r == ReadError(h, old(input))
      ensures r.Read? ==> r.rest == input
    {
      if h.flag == FLAG_ERRNO {
        return Read(Some(GotErrno(h.msgLen)), input);
      } else if h.flag == FLAG_ERR_STRING {
        if h.blobLen < 0 {
          return Panicked;
        }
        respBuf := Resize(respBuf, h.blobLen);
        var bytes := ReadExact(|respBuf|);
        if bytes.None? {
          return Broken(Some(GotRpcErr(IO)), IO);
        }
        respBuf := bytes.value;
        if Ascii(RPC_ERR_PREFIX) <= respBuf {
          var e := FromName(respBuf);
          if e.Some? {
            return Read(Some(GotRpcErr(e.value)), input);
          }
        }
        return Read(Some(GotErrText(respBuf)), input);
      }
      return Panicked;
    }

    method RecvRespBody(env: Reader, h: Head, known: Option<Found>) returns (r: Reading)
      modifies this
      ensures r == ReadBody(env, h, known, old(input))
      ensures r.Read? ==> r.rest == input
    {
      respBuf := Resize(respBuf, h.msgLen);
      if known.Some? {
        if h.flag > 0 {
          r := RecvError(h);
          return;
        }
        if h.msgLen > 0 {
          var bytes := ReadExact(|respBuf|);
          if bytes.None? {
            return Broken(Some(GotRpcErr(IO)), IO);
          }
          respBuf := bytes.value;
        }
        var blob: Option<seq<byte>> := None;
        if h.blobLen > 0 {
          if !known.value.takesBlob {
            var ok := RecvAndDump(env, h.blobLen);
            return if ok then Read(Some(GotRpcErr(Decode)), input) else Broken(Some(GotRpcErr(Decode)), IO);
          }
          blob := ReadExact(h.blobLen);
          if blob.None? {
            return Broken(Some(GotRpcErr(IO)), IO);
          }
        }
        if h.msgLen > 0 {
          if !known.value.decodes(respBuf) {
            return Read(Some(GotRpcErr(Decode)), input);
          }
          return Read(Some(GotOk(Some(respBuf), blob)), input);
        }
        return Read(Some(GotOk(None, blob)), input);
      }
      var dataLen: u32 := 0;
      if h.flag == FLAG_OK {
        dataLen := (h.msgLen + AsU32(h.blobLen)) % 0x1_0000_0000;
      } else if h.flag == FLAG_ERR_STRING {
        dataLen := AsU32(h.blobLen);
      }
      if dataLen > 0 {
        var ok := RecvAndDump(env, dataLen);
        return if ok then Read(None, input) else Broken(None, IO);
      }
      return Read(None, input);
    }

    /** `cut` is the number of header bytes taken when the close notice cancels the read; none otherwise. */
    method ReadOne(env: Reader, cut: Option<nat>) returns (r: Option<Reading>)
      requires cut.Some? ==> cut.value < RESP_HEADER_LEN && cut.value <= |input|
      modifies this
      ensures cut.Some? ==> r == None && input == old(input)[cut.value..]
      ensures cut.None? ==> r == Some(ReadResp(env, old(input)))
      ensures r.Some? && r.value.Read? ==> r.value.rest == input
    {
      if cut.Some? {
        input := input[cut.value..];
        return None;
      }
      var headBuf := ReadExact(RESP_HEADER_LEN);
      if headBuf.None? {
        return Some(Broken(None, IO));
      }
      var head := DecodeHead(headBuf.value);
      if head.Err? {
        return Some(Broken(None, head.error));
      }
      var body := RecvRespBody(env, head.value, env.lookup(head.value.no));
      return Some(body);
    }
  }

  // ----- frame synchronisation

  lemma HeadSlices(flag: byte, no: u64, msgLen: u32, blobLen: i32)
    ensures var s := RespHeadBytes(flag, no, msgLen, blobLen);
      && s[0..2] == LE(RPC_MAGIC, 2) && s[2] == RPC_VERSION_1 && s[3] == flag
      && s[4..8] == LE(msgLen, 4) && s[8..16] == LE(no, 8) && s[16..20] == LE(AsU32(blobLen), 4)
  {
    hide LE;
    var p4 := LE(RPC_MAGIC, 2) + [RPC_VERSION_1] + [flag];
    var p8 := p4 + LE(msgLen, 4);
    var p16 := p8 + LE(no, 8);
    assert p4[0..2] == LE(RPC_MAGIC, 2) && p4[2] == RPC_VERSION_1 && p4[3] == flag;
    Extend(p4, LE(msgLen, 4));
    Extend(p8, LE(no, 8));
    Extend(p16, LE(AsU32(blobLen), 4));
  }

  lemma HeadRoundTrip(flag: byte, no: u64, msgLen: u32, blobLen: i32)
    ensures DecodeHead(RespHeadBytes(flag, no, msgLen, blobLen)) == Ok(Head(flag, msgLen, no, blobLen))
  {
    hide LE, DeLE;
    HeadSlices(flag, no, msgLen, blobLen);
    FieldRoundTrip(RPC_MAGIC);
    FieldRoundTrip(msgLen);
    FieldRoundTrip(no);
    FieldRoundTrip(AsU32(blobLen));
  }

  /** Reading past a header leaves its body to ReadBody. */
  lemma ReadAfterHead(env: Reader, flag: byte, no: u64, msgLen: u32, blobLen: i32, body: seq<byte>)
    ensures ReadResp(env, RespHeadBytes(flag, no, msgLen, blobLen) + body)
         == ReadBody(env, Head(flag, msgLen, no, blobLen), env.lookup(no), body)
  {
    hide RespHeadBytes, ReadBody, DecodeHead;
    HeadRoundTrip(flag, no, msgLen, blobLen);
    Split(RespHeadBytes(flag, no, msgLen, blobLen), body);
  }

  /** The header a response goes out with. */
  function RespHead(no: u64, x: Encoded): Head {
    if Refusal(x).Some? then
      var e := Refusal(x).value;
      if e.Num? then Head(FLAG_ERRNO, e.n, no, 0) else Head(FLAG_ERR_STRING, 0, no, LenAsI32(|ErrText(e)|))
    else Head(FLAG_OK, x.r.value.0, no, |OptBytes(x.r.value.1)|)
  }

  /** The bytes that follow the header. */
  function RespTail(x: Encoded): seq<byte> {
    if Refusal(x).Some? then x.written + ErrText(Refusal(x).value) else x.written + OptBytes(x.r.value.1)
  }

  lemma ReadRespBytes(env: Reader, no: u64, x: Encoded, rest: seq<byte>)
    ensures ReadResp(env, RespBytes(no, x) + rest) == ReadBody(env, RespHead(no, x), env.lookup(no), RespTail(x) + rest)
  {
    hide ReadResp, ReadBody, RespHeadBytes;
    var h := RespHead(no, x);
    assert RespBytes(no, x) + rest == RespHeadBytes(h.flag, no, h.msgLen, h.blobLen) + (RespTail(x) + rest);
    ReadAfterHead(env, h.flag, no, h.msgLen, h.blobLen, RespTail(x) + rest);
  }

  /** The encoder is told the truth about the message, and errors come with nothing appended. */
  predicate WellEncoded(x: Encoded) {
    match Refusal(x)
    case None => |x.written| == x.r.value.0
    case Some(e) => x.written == [] && |ErrText(e)| <= I32_MAX
  }

  lemma TextLength(n: nat)
    ensures LenAsI32(n) <= n
    ensures LenAsI32(n) == n <==> n <= I32_MAX
  {
  }

  function BodyLen(x: Encoded): nat {
    |RespTail(x)|
  }

  /** The reader got through a response and stands at the next frame. */
  predicate InSync(r: Reading, rest: seq<byte>) {
    r.Read? && r.rest == rest
  }

  /** The bytes the reader must allocate a buffer for and throw away. */
  function MustDump(known: Option<Found>, x: Encoded): nat {
    match known
    case None => BodyLen(x)
    case Some(f) => if Refusal(x).None? && !f.takesBlob then |OptBytes(x.r.value.1)| else 0
  }

  predicate CanDump(env: Reader, n: nat) {
    n == 0 || (n <= I32_MAX && env.canAlloc(n))
  }

  /** What a found task is told about a response. */
  function Expected(f: Found, x: Encoded): Delivery {
    match Refusal(x)
    case Some(e) => if e.Num? then GotErrno(e.n) else ReadErrText(ErrText(e))
    case None =>
      var blob := OptBytes(x.r.value.1);
      if blob != [] && !f.takesBlob then GotRpcErr(Decode)
      else if x.written != [] && !f.decodes(x.written) then GotRpcErr(Decode)
      else GotOk(if x.written == [] then None else Some(x.written), if blob == [] then None else Some(blob))
  }

  lemma KnownSync(env: Reader, no: u64, x: Encoded, f: Found, rest: seq<byte>)
    requires WellEncoded(x) && CanDump(env, MustDump(Some(f), x))
    ensures ReadKnown(env, RespHead(no, x), f, RespTail(x) + rest) == Read(Some(Expected(f, x)), rest)
  {
    if Refusal(x).Some? {
      var e := Refusal(x).value;
      assert RespTail(x) + rest == ErrText(e) + rest;
      TextLength(|ErrText(e)|);
      Split(ErrText(e), rest);
    } else {
      var blob := OptBytes(x.r.value.1);
      assert RespTail(x) + rest == x.written + (blob + rest);
      Split(x.written, blob + rest);
      Split(blob, rest);
    }
  }

  /** How many bytes a found task's response takes off the stream, when it is read at all. */
  lemma KnownTakes(env: Reader, h: Head, f: Found, input: seq<byte>)
    requires h.flag == FLAG_OK || h.flag == FLAG_ERRNO || h.flag == FLAG_ERR_STRING
    ensures var r := ReadKnown(env, h, f, input);
      r.Read? ==> |r.rest| == |input| - (if h.flag == FLAG_OK then h.msgLen + (if h.blobLen > 0 then h.blobLen else 0)
                                         else if h.flag == FLAG_ERR_STRING then h.blobLen else 0)
  {
    hide ReadErrText;
  }

  lemma KnownSyncOnly(env: Reader, no: u64, x: Encoded, f: Found, rest: seq<byte>)
    requires InSync(ReadKnown(env, RespHead(no, x), f, RespTail(x) + rest), rest)
    ensures WellEncoded(x) && CanDump(env, MustDump(Some(f), x))
  {
    hide ErrText;
    KnownTakes(env, RespHead(no, x), f, RespTail(x) + rest);
    if Refusal(x).Some? {
      TextLength(|ErrText(Refusal(x).value)|);
    }
  }

  /**
   Exact condition for skipping the response of a timed-out or unknown task: the reader continues at
   the next frame if and only if the response is well encoded, its body fits in an i32 and the buffer
   to drop it into can be allocated.
   */
  lemma UnknownSyncIff(env: Reader, no: u64, x: Encoded, rest: seq<byte>)
    ensures InSync(ReadUnknown(env, RespHead(no, x), RespTail(x) + rest), rest) <==> WellEncoded(x) && CanDump(env, BodyLen(x))
  {
    var h, input := RespHead(no, x), RespTail(x) + rest;
    Split(RespTail(x), rest);
    SkipIs(no, x);
    if InSync(ReadUnknown(env, h, input), rest) {
      assert SkipLen(h) == |input| - |rest|;
    }
  }

  /** The announced length modulo 2^32 is the body's own, and a positive i32, for small well-encoded bodies only. */
  lemma SkipIs(no: u64, x: Encoded)
    ensures var n := SkipLen(RespHead(no, x));
      && (WellEncoded(x) && BodyLen(x) <= I32_MAX ==> n == BodyLen(x))
      && (n == BodyLen(x) && AsI32(n) >= 0 ==> WellEncoded(x) && n <= I32_MAX)
  {
    hide Name;
    if Refusal(x).Some? {
      TextLength(|ErrText(Refusal(x).value)|);
    }
  }

  /** Beyond 32 bits the reader does not even notice: it resumes inside the skipped body. */
  lemma SilentDesync(env: Reader, no: u64, x: Encoded, rest: seq<byte>)
    requires WellEncoded(x) && BodyLen(x) > U32_MAX && CanDump(env, BodyLen(x) - 0x1_0000_0000)
    ensures var r := ReadUnknown(env, RespHead(no, x), RespTail(x) + rest);
      r.Read? && |r.rest| == |rest| + 0x1_0000_0000
  {
  }

  /** What reading a response tells the task that the timer found for it. */
  function Told(known: Option<Found>, x: Encoded): Option<Delivery> {
    if known.Some? then Some(Expected(known.value, x)) else None
  }

  /** One frame in, one frame out, on every outcome: found, unknown, refused blob, undecodable, error. */
  lemma FrameSync(env: Reader, no: u64, x: Encoded, rest: seq<byte>)
    requires WellEncoded(x) && CanDump(env, MustDump(env.lookup(no), x))
    ensures ReadResp(env, RespBytes(no, x) + rest) == Read(Told(env.lookup(no), x), rest)
  {
    hide ReadResp, RespBytes, ReadKnown, WellEncoded, CanDump;
    ReadRespBytes(env, no, x, rest);
    if env.lookup(no).Some? {
      KnownSync(env, no, x, env.lookup(no).value, rest);
    } else {
      UnknownSyncIff(env, no, x, rest);
    }
  }

  /**
   Exact condition at the reader, for every response, found or not: it stands at the next frame if and
   only if the response is well encoded and whatever must be dropped can be.
   */
  lemma FramingIff(env: Reader, no: u64, x: Encoded, rest: seq<byte>)
    ensures InSync(ReadResp(env, RespBytes(no, x) + rest), rest) <==>
            WellEncoded(x) && CanDump(env, MustDump(env.lookup(no), x))
  {
    hide ReadResp, RespBytes, ReadKnown, ReadUnknown, WellEncoded, CanDump;
    ReadRespBytes(env, no, x, rest);
    if WellEncoded(x) && CanDump(env, MustDump(env.lookup(no), x)) {
      FrameSync(env, no, x, rest);
    }
    if InSync(ReadResp(env, RespBytes(no, x) + rest), rest) {
      if env.lookup(no).Some? {
        KnownSyncOnly(env, no, x, env.lookup(no).value, rest);
      } else {
        UnknownSyncIff(env, no, x, rest);
      }
    }
  }

  /** The text of the encode error. */
  lemma EncodeText()
    ensures |Name(RpcIntErr.Encode)| == 10 && Name(RpcIntErr.Encode)[9] == 101
  {
    var text := NameText(RpcIntErr.Encode);
    assert |text| == 10 && text[9] == 'e';
  }

  /**
   A message followed by a blob over the limit: the reader takes the start of the message for the error
   text and resumes inside the frame, as many bytes early as the message has.
   */
  lemma OversizedBlob(env: Reader, no: u64, msg: seq<byte>, blob: seq<byte>, rest: seq<byte>)
    requires |msg| <= U32_MAX && |blob| > I32_MAX && env.lookup(no).Some?
    ensures var x := Encoded(msg, Ok((|msg|, Some(blob))));
      var r := ReadResp(env, RespBytes(no, x) + rest);
      r.Read? && |Name(RpcIntErr.Encode)| == 10 && r.rest == (msg + Name(RpcIntErr.Encode))[10..] + rest
  {
    hide ReadResp, RespBytes, ReadErrText, Name;
    var x, text := Encoded(msg, Ok((|msg|, Some(blob)))), Name(RpcIntErr.Encode);
    EncodeText();
    TextLength(10);
    ReadRespBytes(env, no, x, rest);
    assert RespTail(x) == msg + text;
    assert (RespTail(x) + rest)[10..] == (msg + text)[10..] + rest;
  }

  /** One message byte and 2^31 blob bytes: the next read starts at the last letter of the error text. */
  lemma PartialMessageWitness(env: Reader, no: u64, rest: seq<byte>)
    requires env.lookup(no).Some?
    ensures var x := Encoded([7], Ok((1, Some(seq(0x8000_0000, _ => 0)))));
      var r := ReadResp(env, RespBytes(no, x) + rest);
      r.Read? && r.rest == [101] + rest && !WellEncoded(x)
  {
    hide ReadResp, RespBytes, Name;
    EncodeText();
    OversizedBlob(env, no, [7], seq(0x8000_0000, _ => 0), rest);
    assert ([7] + Name(RpcIntErr.Encode))[10..] == [Name(RpcIntErr.Encode)[9]];
  }

  /**
   A header read that was cancelled after c bytes: the next read finds the magic number missing, always
   for c up to 3, and for a larger c unless the bytes there happen to spell it.
   */
  lemma CutHeader(env: Reader, no: u64, x: Encoded, rest: seq<byte>, c: nat)
    requires 0 < c < RESP_HEADER_LEN
    requires c > 3 && c + 2 <= |RespBytes(no, x) + rest| ==> DeLE((RespBytes(no, x) + rest)[c..c + 2]) != RPC_MAGIC
    ensures ReadResp(env, (RespBytes(no, x) + rest)[c..]) == Broken(None, IO)
  {
    hide ReadBody, RespBytes;
    var bytes := RespBytes(no, x) + rest;
    FrameStart(no, x);
    if |bytes[c..]| >= RESP_HEADER_LEN {
      assert bytes[c..][..RESP_HEADER_LEN][0..2] == bytes[c..c + 2] == [bytes[c], bytes[c + 1]];
      TwoBytes(bytes[c], bytes[c + 1]);
    }
  }

  /** The next read is at a frame boundary for this response, c bytes of its header having been taken. */
  predicate Resumes(env: Reader, no: u64, x: Encoded, rest: seq<byte>, c: nat)
    requires c < RESP_HEADER_LEN <= |RespBytes(no, x)|
  {
    InSync(ReadResp(env, (RespBytes(no, x) + rest)[c..]), rest)
  }

  /** Cancelling a header read is harmless for every well-formed response if and only if it took nothing. */
  lemma CancelSafeIff(env: Reader, c: nat)
    requires c < RESP_HEADER_LEN
    ensures (forall no: u64, x: Encoded, rest: seq<byte> ::
               |RespBytes(no, x)| >= RESP_HEADER_LEN && WellEncoded(x) && CanDump(env, MustDump(env.lookup(no), x)) ==>
               Resumes(env, no, x, rest, c))
            <==> c == 0
  {
    hide ReadResp, RespBytes, WellEncoded, CanDump, MustDump;
    if c == 0 {
      forall no: u64, x: Encoded, rest: seq<byte>
        | |RespBytes(no, x)| >= RESP_HEADER_LEN && WellEncoded(x) && CanDump(env, MustDump(env.lookup(no), x))
        ensures Resumes(env, no, x, rest, 0)
      {
        assert (RespBytes(no, x) + rest)[0..] == RespBytes(no, x) + rest;
        FramingIff(env, no, x, rest);
      }
    } else {
      CancelledEmpty(env, c);
    }
  }

  /** An empty response is one that any cut breaks. */
  lemma CancelledEmpty(env: Reader, c: nat)
    requires 0 < c < RESP_HEADER_LEN
    ensures var x := Encoded([], Ok((0, None)));
      && WellEncoded(x) && CanDump(env, MustDump(env.lookup(0), x))
      && |RespBytes(0, x)| >= RESP_HEADER_LEN && !Resumes(env, 0, x, [], c)
  {
    FrameStart(0, Encoded([], Ok((0, None))));
  }

  /** A frame starts with the magic number 0x4D25, the version and the flag. */
  lemma FrameStart(no: u64, x: Encoded)
    ensures var s := RespBytes(no, x);
      |s| >= RESP_HEADER_LEN && s[0] == 0x25 && s[1] == 0x4D && s[2] == 1 && s[3] <= 2
  {
    hide LE;
    var h := RespHead(no, x);
    HeadSlices(h.flag, no, h.msgLen, h.blobLen);
    var s := RespHeadBytes(h.flag, no, h.msgLen, h.blobLen);
    assert RespBytes(no, x)[..RESP_HEADER_LEN] == s;
    MagicBytes();
    assert s[0..2][0] == s[0] && s[0..2][1] == s[1];
  }

  /** The bytes of a response header, in the packed struct's order, and the three flags. */
  lemma ResponseLayout(no: u64, x: Encoded)
    ensures var s := RespBytes(no, x);
      && |s| >= 20 && s[0..3] == [0x25, 0x4D, 1] && s[8..16] == LE(no, 8)
      && (Refusal(x).None? ==>
            s[3] == 0 && s[4..8] == LE(x.r.value.0, 4) && s[16..20] == LE(|OptBytes(x.r.value.1)|, 4))
      && (x.r.Err? && x.r.error.Num? ==> s[3] == 1 && s[4..8] == LE(x.r.error.n, 4) && s[16..20] == LE(0, 4))
      && (x.r.Err? && !x.r.error.Num? && |ErrText(x.r.error)| <= 0x7FFF_FFFF ==>
            s[3] == 2 && s[4..8] == LE(0, 4) && s[16..20] == LE(|ErrText(x.r.error)|, 4))
  {
    hide LE;
    var h := RespHead(no, x);
    HeadSlices(h.flag, no, h.msgLen, h.blobLen);
    MagicBytes();
    var head := RespHeadBytes(h.flag, no, h.msgLen, h.blobLen);
    assert RespBytes(no, x) == head + RespTail(x);
    if Refusal(x).Some? {
      TextLength(|ErrText(Refusal(x).value)|);
    }
    hide RespBytes, RespHeadBytes, RespTail;
    Extend(head, RespTail(x));
    assert head[0..3] == head[0..2] + [head[2]];
  }

  // ----- what a task is told, response by response

  /** A message and a blob within the limits arrive as they are, an empty one as none. */
  lemma BlobDelivered(env: Reader, no: u64, msg: seq<byte>, blob: seq<byte>, f: Found, rest: seq<byte>)
    requires |msg| <= 0xFFFF_FFFF && |blob| <= 0x7FFF_FFFF
    requires env.lookup(no) == Some(f) && f.takesBlob && (msg != [] ==> f.decodes(msg))
    ensures ReadResp(env, RespBytes(no, Encoded(msg, Ok((|msg|, Some(blob))))) + rest)
         == Read(Some(GotOk(if msg == [] then None else Some(msg), if blob == [] then None else Some(blob))), rest)
  {
    hide ReadResp, RespBytes;
    FrameSync(env, no, Encoded(msg, Ok((|msg|, Some(blob)))), rest);
  }

  /** A response without a blob, whether the task would take one or not. */
  lemma MessageDelivered(env: Reader, no: u64, msg: seq<byte>, f: Found, rest: seq<byte>)
    requires |msg| <= 0xFFFF_FFFF && env.lookup(no) == Some(f)
    ensures ReadResp(env, RespBytes(no, Encoded(msg, Ok((|msg|, None)))) + rest)
         == Read(Some(if msg == [] || f.decodes(msg) then GotOk(if msg == [] then None else Some(msg), None)
                      else GotRpcErr(Decode)), rest)
  {
    hide ReadResp, RespBytes;
    FrameSync(env, no, Encoded(msg, Ok((|msg|, None))), rest);
  }

  /** A blob for a task that takes none: the task is told so, and the blob is dropped. */
  lemma BlobRefused(env: Reader, no: u64, msg: seq<byte>, blob: seq<byte>, f: Found, rest: seq<byte>)
    requires |msg| <= 0xFFFF_FFFF && 0 < |blob| <= 0x7FFF_FFFF && env.canAlloc(|blob|)
    requires env.lookup(no) == Some(f) && !f.takesBlob
    ensures ReadResp(env, RespBytes(no, Encoded(msg, Ok((|msg|, Some(blob))))) + rest)
         == Read(Some(GotRpcErr(Decode)), rest)
  {
    hide ReadResp, RespBytes;
    FrameSync(env, no, Encoded(msg, Ok((|msg|, Some(blob)))), rest);
  }

  /** Errors with nothing written before them: the number, the internal error of that name, or the text. */
  lemma ErrorDelivered(env: Reader, no: u64, e: EncodedErr, f: Found, rest: seq<byte>)
    requires env.lookup(no) == Some(f)
    requires (e.Buf? ==> |e.bytes| <= 0x7FFF_FFFF) && (e.Static? ==> |e.text| <= 0x7FFF_FFFF)
    ensures var r := ReadResp(env, RespBytes(no, Encoded([], Err(e))) + rest);
      r.Read? && r.rest == rest && r.told.Some?
      && (e.Num? ==> r.told.value == GotErrno(e.n))
      && (e.Rpc? ==> r.told.value == GotRpcErr(e.e))
      && (e.Buf? ==> r.told.value == if FromName(e.bytes).Some? then GotRpcErr(FromName(e.bytes).value) else GotErrText(e.bytes))
      && (e.Static? ==> r.told.value == if FromName(e.text).Some? then GotRpcErr(FromName(e.text).value) else GotErrText(e.text))
  {
    hide ReadResp, RespBytes, Name, FromName, ReadErrText;
    if e.Rpc? {
      NameLength(e.e);
      NameRoundTrip(e.e);
    }
    FrameSync(env, no, Encoded([], Err(e)), rest);
    TextRead(ErrText(e));
  }

  lemma NameLength(e: RpcIntErr)
    ensures |Name(e)| <= 20
  {
  }

  /** A text is an internal error exactly if it is one's name; the prefix test never gets in the way. */
  lemma TextRead(b: seq<byte>)
    ensures ReadErrText(b) == if FromName(b).Some? then GotRpcErr(FromName(b).value) else GotErrText(b)
  {
    hide Name, FromName;
    FromNameReserved(b);
    if FromName(b).Some? {
      NameRoundTrip(FromName(b).value);
    }
  }

  /** What does not fit the header's fields, and nothing else, is turned into an encode error. */
  lemma TooLong(env: Reader, no: u64, n: nat, blob: Option<seq<byte>>, f: Found, rest: seq<byte>)
    requires n > 0xFFFF_FFFF || (blob.Some? && |blob.value| > 0x7FFF_FFFF)
    requires env.lookup(no) == Some(f)
    ensures ReadResp(env, RespBytes(no, Encoded([], Ok((n, blob)))) + rest) == Read(Some(GotRpcErr(RpcIntErr.Encode)), rest)
  {
    hide ReadResp, RespBytes, Name, FromName, ReadErrText;
    NameLength(RpcIntErr.Encode);
    NameRoundTrip(RpcIntErr.Encode);
    FrameSync(env, no, Encoded([], Ok((n, blob))), rest);
    TextRead(Name(RpcIntErr.Encode));
  }

  // ----- broken connections

  /**
   A connection that ends inside a response: the reader reports an IO error. A found task has been told
   so as well once the header was complete, except that one refusing the blob was told that before.
   */
  lemma Truncated(env: Reader, no: u64, x: Encoded, n: nat)
    requires WellEncoded(x) && CanDump(env, MustDump(env.lookup(no), x)) && n < |RespBytes(no, x)|
    ensures ReadResp(env, RespBytes(no, x)[..n]) == Broken(
      if n < RESP_HEADER_LEN || env.lookup(no).None? then None
      else if MustDump(env.lookup(no), x) > 0 && n >= RESP_HEADER_LEN + |x.written| then Some(GotRpcErr(Decode))
      else Some(GotRpcErr(IO)), IO)
  {
    hide RespHeadBytes, ReadKnown, ReadUnknown, DecodeHead, WellEncoded, CanDump;
    var h := RespHead(no, x);
    var head := RespHeadBytes(h.flag, no, h.msgLen, h.blobLen);
    assert RespBytes(no, x) == head + RespTail(x);
    if n >= RESP_HEADER_LEN {
      var m := n - RESP_HEADER_LEN;
      assert RespBytes(no, x)[..n] == head + RespTail(x)[..m];
      HeadRoundTrip(h.flag, no, h.msgLen, h.blobLen);
      Split(head, RespTail(x)[..m]);
      if env.lookup(no).Some? {
        TruncatedKnown(env, no, x, env.lookup(no).value, m);
      } else {
        TruncatedUnknown(env, no, x, m);
      }
    }
  }

  lemma TruncatedKnown(env: Reader, no: u64, x: Encoded, f: Found, m: nat)
    requires WellEncoded(x) && CanDump(env, MustDump(Some(f), x)) && m < |RespTail(x)|
    ensures ReadKnown(env, RespHead(no, x), f, RespTail(x)[..m]) == Broken(
      Some(if MustDump(Some(f), x) > 0 && m >= |x.written| then GotRpcErr(Decode) else GotRpcErr(IO)), IO)
  {
    if Refusal(x).Some? {
      TextLength(|ErrText(Refusal(x).value)|);
    }
  }

  lemma TruncatedUnknown(env: Reader, no: u64, x: Encoded, m: nat)
    requires WellEncoded(x) && CanDump(env, BodyLen(x)) && m < |RespTail(x)|
    ensures ReadUnknown(env, RespHead(no, x), RespTail(x)[..m]) == Broken(None, IO)
  {
    SkipIs(no, x);
  }

  /** Anything that does not start with the magic number is an IO error, any other version a version error. */
  lemma Foreign(env: Reader, input: seq<byte>)
    requires |input| >= RESP_HEADER_LEN
    ensures input[..2] != [0x25, 0x4D] ==> ReadResp(env, input) == Broken(None, IO)
    ensures input[..2] == [0x25, 0x4D] && input[2] != 1 ==> ReadResp(env, input) == Broken(None, Version)
  {
    hide ReadBody;
    var head := input[..RESP_HEADER_LEN];
    assert head[0..2] == input[..2] == [input[0], input[1]] && head[2] == input[2];
    TwoBytes(input[0], input[1]);
  }

  // ----- whole streams

  function RespBytesAll(xs: seq<(u64, Encoded)>): seq<byte> {
    if xs == [] then [] else RespBytes(xs[0].0, xs[0].1) + RespBytesAll(xs[1..])
  }

  /** Read as many responses as there are envs; a lookup per read, as tasks come and go. */
  function ReadMany(envs: seq<Reader>, input: seq<byte>): Option<(seq<Option<Delivery>>, seq<byte>)> {
    if envs == [] then Some(([], input))
    else
      match ReadResp(envs[0], input)
      case Read(told, rest) =>
        (match ReadMany(envs[1..], rest)
         case None => None
         case Some((ds, left)) => Some(([told] + ds, left)))
      case _ => None
  }

  function ToldAll(envs: seq<Reader>, xs: seq<(u64, Encoded)>): seq<Option<Delivery>>
    requires |envs| == |xs|
  {
    if xs == [] then [] else [Told(envs[0].lookup(xs[0].0), xs[0].1)] + ToldAll(envs[1..], xs[1..])
  }

  /** The client never loses the packet boundary over a whole stream of responses. */
  lemma {:induction false} StreamSync(envs: seq<Reader>, xs: seq<(u64, Encoded)>, rest: seq<byte>)
    requires |envs| == |xs|
    requires forall i :: 0 <= i < |xs| ==> WellEncoded(xs[i].1) && CanDump(envs[i], MustDump(envs[i].lookup(xs[i].0), xs[i].1))
    ensures ReadMany(envs, RespBytesAll(xs) + rest) == Some((ToldAll(envs, xs), rest))
  {
    if xs == [] {
      assert RespBytesAll(xs) + rest == rest;
    } else {
      hide ReadResp, RespBytes, WellEncoded, CanDump, MustDump, Told;
      var tail := RespBytesAll(xs[1..]) + rest;
      assert RespBytesAll(xs) + rest == RespBytes(xs[0].0, xs[0].1) + tail;
      FrameSync(envs[0], xs[0].0, xs[0].1, tail);
      StreamSync(envs[1..], xs[1..], rest);
    }
  }
}
