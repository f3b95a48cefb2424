/** Error values on the wire: reserved names, numbers and free text. */
module ErrorCodec {
  import opened Errors
  import opened Wire

  /** What a server hands to the transport as an error. */
  datatype EncodedErr = Rpc(e: RpcIntErr) | Num(n: u32) | Static(text: seq<byte>) | Buf(bytes: seq<byte>)

  function NameText(e: RpcIntErr): string {
    match e
    case Unreachable => "rpc_unreachable"
    case IO => "rpc_io_err"
    case Timeout => "rpc_timeout"
    case Method => "rpc_method_notfound"
    case Service => "rpc_service_notfound"
    case Encode => "rpc_encode"
    case Decode => "rpc_decode"
    case Internal => "rpc_internal_err"
    case Version => "rpc_invalid_ver"
  }

  const RPC_ERR_PREFIX: string := "rpc_"

  function Ascii(s: string): (r: seq<byte>)
    ensures |r| == |s|
    ensures forall i :: 0 <= i < |s| && s[i] < 256 as char ==> r[i] == s[i] as int
  {
    seq(|s|, i requires 0 <= i < |s| => if s[i] < 256 as char then s[i] as int else 0)
  }

  function Name(e: RpcIntErr): seq<byte> {
    Ascii(NameText(e))
  }

  /** RpcIntErr::from_str: exact match on one of the nine names. */
  function FromName(b: seq<byte>): Option<RpcIntErr> {
    if b == Name(Unreachable) then Some(Unreachable)
    else if b == Name(IO) then Some(IO)
    else if b == Name(Timeout) then Some(Timeout)
    else if b == Name(Method) then Some(Method)
    else if b == Name(Service) then Some(Service)
    else if b == Name(Encode) then Some(Encode)
    else if b == Name(Decode) then Some(Decode)
    else if b == Name(Internal) then Some(Internal)
    else if b == Name(Version) then Some(Version)
    else None
  }

  /** The nine texts on the wire. */
  lemma WireNames()
    ensures FromName(Ascii("rpc_unreachable")) == Some(Unreachable)
    ensures FromName(Ascii("rpc_io_err")) == Some(IO)
    ensures FromName(Ascii("rpc_timeout")) == Some(Timeout)
    ensures FromName(Ascii("rpc_method_notfound")) == Some(Method)
    ensures FromName(Ascii("rpc_service_notfound")) == Some(Service)
    ensures FromName(Ascii("rpc_encode")) == Some(Encode)
    ensures FromName(Ascii("rpc_decode")) == Some(Decode)
    ensures FromName(Ascii("rpc_internal_err")) == Some(Internal)
    ensures FromName(Ascii("rpc_invalid_ver")) == Some(Version)
  {
    hide FromName, Ascii;
    NameRoundTrip(Unreachable);
    NameRoundTrip(IO);
    NameRoundTrip(Timeout);
    NameRoundTrip(Method);
    NameRoundTrip(Service);
    NameRoundTrip(Encode);
    NameRoundTrip(Decode);
    NameRoundTrip(Internal);
    NameRoundTrip(Version);
  }

  predicate Reserved(b: seq<byte>) {
    exists e :: Name(e) == b
  }

  lemma NamesDiffer(a: RpcIntErr, b: RpcIntErr)
    requires a != b
    ensures Name(a) != Name(b)
  {
    if |NameText(a)| == |NameText(b)| {
      assert NameText(a)[4] != NameText(b)[4];
      assert Name(a)[4] != Name(b)[4];
    }
  }

  /** The nine names are distinct, carry the prefix, and parse back to their error. */
  lemma NameRoundTrip(e: RpcIntErr)
    ensures FromName(Name(e)) == Some(e)
    ensures Ascii(RPC_ERR_PREFIX) <= Name(e)
  {
    NamePrefix(e);
    hide Name, NameText;
    forall a | a != e ensures Name(a) != Name(e) {
      NamesDiffer(a, e);
    }
  }

  lemma NamePrefix(e: RpcIntErr)
    ensures Ascii(RPC_ERR_PREFIX) <= Name(e)
  {
    assert RPC_ERR_PREFIX <= NameText(e);
  }

  lemma FromNameReserved(b: seq<byte>)
    ensures FromName(b).Some? <==> Reserved(b)
    ensures FromName(b).Some? ==> Name(FromName(b).value) == b
  {
    if Reserved(b) {
      var e :| Name(e) == b;
      NameRoundTrip(e);
    }
  }

  // ----- built-in codecs for error types

  /** The integer error types, by their bounds: i8, u8, i16, u16, i32 and u32. */
  datatype IntType = IntType(min: int, max: nat)

  predicate BuiltIn(t: IntType) {
    || t == IntType(-0x80, 0x7F) || t == IntType(0, 0xFF)
    || t == IntType(-0x8000, 0x7FFF) || t == IntType(0, 0xFFFF)
    || t == IntType(-0x8000_0000, 0x7FFF_FFFF) || t == IntType(0, 0xFFFF_FFFF)
  }

  /** `*self as u32`: sign extension, then reinterpretation. */
  function EncodeInt(v: int): EncodedErr
    requires -0x8000_0000 <= v <= U32_MAX
  {
    Num(if v >= 0 then v else v + 0x1_0000_0000)
  }

  /** What a decoder is given: a number or bytes. */
  datatype Received = GotNum(n: u32) | GotBytes(b: seq<byte>)

  function DecodeInt(t: IntType, r: Received): Option<int> {
    if r.GotNum? && r.n <= t.max then Some(r.n) else None
  }

  /** An integer error survives exactly when it is not negative; it never turns into another value. */
  lemma IntErrorFidelity(t: IntType, v: int)
    requires BuiltIn(t) && t.min <= v <= t.max
    ensures DecodeInt(t, GotNum(EncodeInt(v).n)) == if v >= 0 then Some(v) else None
  {
  }
}
