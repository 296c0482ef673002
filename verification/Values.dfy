/** Values as the client sees them, and how single values are laid out in bytes. */
module Values {
  import opened Bytes
  import opened Outcomes
  import opened Text
  import opened Types
  import SymbolParser

  type i8 = x: int | -0x80 <= x < 0x80
  type i16 = x: int | -0x8000 <= x < 0x8000
  type i32 = x: int | -0x8000_0000 <= x < 0x8000_0000
  type i64 = x: int | -0x8000_0000_0000_0000 <= x < 0x8000_0000_0000_0000

  /** A Go value of dynamic type. Floats are their bit patterns, durations nanoseconds, times Unix
      seconds; Struct is a map from field names. */
  datatype Value =
    | Nil
    | Bool(b: bool)
    | Int8(i8: i8)
    | Uint8(u8: u8)
    | Int16(i16: i16)
    | Uint16(u16: u16)
    | Int32(i32: i32)
    | Uint32(u32: u32)
    | Int64(i64: i64)
    | Uint64(u64: u64)
    | Int(i: i64)
    | Float32(bits32: u32)
    | Float64(bits64: u64)
    | Str(s: GoString)
    | Duration(ns: i64)
    | Time(unix: i64)
    | Raw(bytes: seq<byte>)
    | Struct(fields: map<GoString, Value>)
    | Unsupported

  /** The floating-point facts the encoder asks for: the integer a float64 equals, if it does, and the
      float32 pattern nearest to a float64. */
  datatype Floats = Floats(whole: u64 -> Option<i64>, narrow: u64 -> u32)

  // ---------- encoding ----------

  function TruncatedDiv(a: int, b: int): int
    requires b > 0
  {
    if a >= 0 then a / b else -((-a) / b)
  }

  /** A string window: as much as leaves room for the terminator, then zeros. A window of size 0 cannot
      be cut to length -1. */
  function EncodeString(s: GoString, size: u32): Outcome<seq<byte>> {
    if size == 0 then Panic
    else Ok(Overlay(Zeros(size), 0, if |s| > size - 1 then s[..size - 1] else s))
  }

  function IsFloatName(name: GoString): bool {
    name == Ascii("REAL") || name == Ascii("LREAL")
  }

  /** encodeSymbolValue for everything but structs, for a symbol of the given type name and size. */
  function EncodeScalar(fl: Floats, v: Value, name: GoString, size: u32): Outcome<seq<byte>>
    requires !v.Struct?
  {
    match v
    case Nil => Ok(Zeros(size))
    case Bool(b) => Ok([if b then 1 else 0])
    case Int8(i) => Ok(PutLE(i, 1))
    case Uint8(u) => Ok(PutLE(u, 1))
    case Int16(i) => Ok(PutLE(i, 2))
    case Uint16(u) => Ok(PutLE(u, 2))
    case Int32(i) => Ok(PutLE(i, 4))
    case Uint32(u) => Ok(PutLE(u, 4))
    case Int64(i) => Ok(PutLE(i, 8))
    case Uint64(u) => Ok(PutLE(u, 8))
    case Int(i) => if size == 2 || size == 4 || size == 8 then Ok(PutLE(i, size)) else Err
    case Float32(bits) => Ok(PutLE(bits, 4))
    case Float64(bits) =>
      var whole := fl.whole(bits);
      if whole.Some? && !IsFloatName(name) && (size == 1 || size == 2 || size == 4 || size == 8)
      then Ok(PutLE(whole.value, size))
      else if size == 4 then Ok(PutLE(fl.narrow(bits), 4))
      else Ok(PutLE(bits, 8))
    case Str(s) => EncodeString(s, size)
    case Duration(ns) => Ok(PutLE(TruncatedDiv(ns, 1_000_000), 4))
    case Time(unix) => Ok(PutLE(unix, 4))
    case Raw(bytes) => Ok(Overlay(Zeros(size), 0, bytes))
    case Unsupported => Err
  }

  // ---------- parsing ----------

  /** The signed reading of an n-byte pattern. */
  function Signed(u: nat, n: nat): int {
    if 2 * u >= Pow256(n) then u - Pow256(n) else u
  }

  function GetInt(bs: seq<byte>): int { Signed(GetLE(bs), |bs|) }

  lemma IntRanges(bs: seq<byte>)
    ensures |bs| == 1 ==> -0x80 <= GetInt(bs) < 0x80
    ensures |bs| == 2 ==> -0x8000 <= GetInt(bs) < 0x8000
    ensures |bs| == 4 ==> -0x8000_0000 <= GetInt(bs) < 0x8000_0000
    ensures |bs| == 8 ==> -0x8000_0000_0000_0000 <= GetInt(bs) < 0x8000_0000_0000_0000
  {
    Powers();
  }

  /** parseSimpleType: None when the type is not simple or the data too short. */
  function ParseSimple(data: seq<byte>, dt: DataType): Option<Value> {
    Powers();
    if dt == BOOL then (if |data| >= 1 then Some(Bool(data[0] != 0)) else None)
    else if dt == INT8 || dt == UINT8 then
      if |data| < 1 then None
      else IntRanges(data[..1]); Some(if dt == INT8 then Int8(GetInt(data[..1])) else Uint8(data[0]))
    else if dt == INT16 || dt == UINT16 then
      if |data| < 2 then None
      else IntRanges(data[..2]); Some(if dt == INT16 then Int16(GetInt(data[..2])) else Uint16(GetLE(data[..2])))
    else if dt == INT32 || dt == UINT32 then
      if |data| < 4 then None
      else IntRanges(data[..4]); Some(if dt == INT32 then Int32(GetInt(data[..4])) else Uint32(GetLE(data[..4])))
    else if dt == INT64 || dt == UINT64 then
      if |data| < 8 then None
      else IntRanges(data[..8]); Some(if dt == INT64 then Int64(GetInt(data[..8])) else Uint64(GetLE(data[..8])))
    else if dt == REAL32 then (if |data| >= 4 then Some(Float32(GetLE(data[..4]))) else None)
    else if dt == REAL64 then (if |data| >= 8 then Some(Float64(GetLE(data[..8]))) else None)
    else if dt == STRING then Some(Str(SymbolParser.ParseString(data)))
    else None
  }

  // ---------- scalar round trip ----------

  /** v is a value parseSimpleType yields for this type, and fits its size exactly. */
  predicate ScalarFits(fl: Floats, v: Value, t: TypeInfo) {
    match v
    case Bool(_) => t.baseType == BOOL && t.size == 1
    case Int8(_) => t.baseType == INT8 && t.size == 1
    case Uint8(_) => t.baseType == UINT8 && t.size == 1
    case Int16(_) => t.baseType == INT16 && t.size == 2
    case Uint16(_) => t.baseType == UINT16 && t.size == 2
    case Int32(_) => t.baseType == INT32 && t.size == 4
    case Uint32(_) => t.baseType == UINT32 && t.size == 4
    case Int64(_) => t.baseType == INT64 && t.size == 8
    case Uint64(_) => t.baseType == UINT64 && t.size == 8
    case Float32(_) => t.baseType == REAL32 && t.size == 4
    case Float64(bits) =>
      t.baseType == REAL64 && t.size == 8 && (IsFloatName(t.name) || fl.whole(bits).None?)
    case Str(s) => t.baseType == STRING && 0 !in s && |s| < t.size
    case _ => false
  }

  /** The pattern of a negative number is the number plus 256^n. */
  lemma {:induction false} GetPutSigned(i: int, n: nat)
    requires 0 <= i + Pow256(n) && i < Pow256(n)
    ensures GetLE(PutLE(i, n)) == if i < 0 then i + Pow256(n) else i
    decreases n
  {
    if n == 0 {
    } else {
      GetPutSigned(i / 256, n - 1);
      assert PutLE(i, n)[1..] == PutLE(i / 256, n - 1);
    }
  }

  lemma SignedPut(i: int, n: nat)
    requires n >= 1 && 0 <= 2 * i + Pow256(n) && 2 * i < Pow256(n)
    ensures GetInt(PutLE(i, n)) == i
  {
    GetPutSigned(i, n);
  }

  lemma UnsignedPut(i: int, n: nat)
    requires 0 <= i < Pow256(n)
    ensures GetLE(PutLE(i, n)) == i
  {
    GetPutSigned(i, n);
  }

  lemma StringRoundTrip(s: GoString, size: u32)
    requires 0 !in s && |s| < size
    ensures EncodeString(s, size).Ok? && |EncodeString(s, size).value| == size
    ensures SymbolParser.ParseString(EncodeString(s, size).value) == s
  {
    var bs := EncodeString(s, size).value;
    assert bs == s + [0] + Zeros(size - |s| - 1);
    SymbolParser.ParseTerminated(s, Zeros(size - |s| - 1));
  }

  lemma SignedRoundTrip(fl: Floats, v: Value, t: TypeInfo)
    requires ScalarFits(fl, v, t) && (v.Int8? || v.Int16? || v.Int32? || v.Int64?)
    ensures var r := EncodeScalar(fl, v, t.name, t.size);
            r.Ok? && |r.value| == t.size > 0 && ParseSimple(r.value, t.baseType) == Some(v)
  {
    var bs := EncodeScalar(fl, v, t.name, t.size).value;
    Powers();
    hide PutLE, GetLE, GetInt, Pow256;
    assert bs[..|bs|] == bs;
    match v {
      case Int8(i) => SignedPut(i, 1);
      case Int16(i) => SignedPut(i, 2);
      case Int32(i) => SignedPut(i, 4);
      case Int64(i) => SignedPut(i, 8);
    }
  }

  lemma UnsignedRoundTrip(fl: Floats, v: Value, t: TypeInfo)
    requires ScalarFits(fl, v, t) && (v.Uint8? || v.Uint16? || v.Uint32? || v.Uint64?)
    ensures var r := EncodeScalar(fl, v, t.name, t.size);
            r.Ok? && |r.value| == t.size > 0 && ParseSimple(r.value, t.baseType) == Some(v)
  {
    var bs := EncodeScalar(fl, v, t.name, t.size).value;
    Powers();
    hide PutLE, GetLE, GetInt, Pow256;
    assert bs[..|bs|] == bs;
    match v {
      case Uint8(u) => ByteGet(bs); UnsignedPut(u, 1);
      case Uint16(u) => UnsignedPut(u, 2);
      case Uint32(u) => UnsignedPut(u, 4);
      case Uint64(u) => UnsignedPut(u, 8);
    }
  }

  lemma FloatRoundTrip(fl: Floats, v: Value, t: TypeInfo)
    requires ScalarFits(fl, v, t) && (v.Float32? || v.Float64?)
    ensures var r := EncodeScalar(fl, v, t.name, t.size);
            r.Ok? && |r.value| == t.size > 0 && ParseSimple(r.value, t.baseType) == Some(v)
  {
    var bs := EncodeScalar(fl, v, t.name, t.size).value;
    Powers();
    hide PutLE, GetLE, GetInt, Pow256, IsFloatName;
    assert bs[..|bs|] == bs;
    match v {
      case Float32(bits) => UnsignedPut(bits, 4);
      case Float64(bits) => UnsignedPut(bits, 8);
    }
  }

  /** A fitting scalar is encoded at its exact size and parses back as itself. */
  lemma ScalarRoundTrip(fl: Floats, v: Value, t: TypeInfo)
    requires ScalarFits(fl, v, t)
    ensures var r := EncodeScalar(fl, v, t.name, t.size);
            && r.Ok? && |r.value| == t.size > 0
            && ParseSimple(r.value, t.baseType) == Some(v)
  {
    if v.Int8? || v.Int16? || v.Int32? || v.Int64? {
      SignedRoundTrip(fl, v, t);
    } else if v.Uint8? || v.Uint16? || v.Uint32? || v.Uint64? {
      UnsignedRoundTrip(fl, v, t);
    } else if v.Float32? || v.Float64? {
      FloatRoundTrip(fl, v, t);
    } else if v.Str? {
      hide EncodeString, Pow256;
      StringRoundTrip(v.s, t.size);
    }
  }

  lemma ByteGet(bs: seq<byte>)
    requires |bs| == 1
    ensures GetLE(bs) == bs[0]
  {
    assert GetLE(bs[1..]) == 0;
  }
}
