/** What single values come to, case by case and in both directions: which integers survive which width,
    how raw bytes, texts, times and nothing are laid out, and what every pattern of bytes reads as. Data types
    are written as the numbers they have on the wire. */
module Scalars {
  import opened Bytes
  import opened Outcomes
  import opened Text
  import opened Types
  import opened Values
  import opened AutoParser
  import SymbolParser

  // ---------- integers of a width ----------

  /** The integer a parsed value holds. */
  function IntOf(v: Value): Option<int> {
    match v
    case Int8(i) => Some(i)
    case Uint8(u) => Some(u)
    case Int16(i) => Some(i)
    case Uint16(u) => Some(u)
    case Int32(i) => Some(i)
    case Uint32(u) => Some(u)
    case Int64(i) => Some(i)
    case Uint64(u) => Some(u)
    case _ => None
  }

  /** The signed and the unsigned integer type of a width. */
  function SignedOf(width: nat): DataType {
    if width == 1 then 16 else if width == 2 then 2 else if width == 4 then 3 else 20
  }

  function UnsignedOf(width: nat): DataType {
    if width == 1 then 17 else if width == 2 then 18 else if width == 4 then 19 else 21
  }

  predicate IsWidth(width: nat) { width == 1 || width == 2 || width == 4 || width == 8 }

  /** Reading back what was put gives the number up to a multiple of 256^k. */
  lemma {:induction false} GetPutMod(n: int, k: nat) returns (q: int)
    ensures n == q * Pow256(k) + GetLE(PutLE(n, k))
    decreases k
  {
    if k == 0 {
      q := n;
    } else {
      q := GetPutMod(n / 256, k - 1);
      var p := Pow256(k - 1);
      assert PutLE(n, k)[1..] == PutLE(n / 256, k - 1);
      assert Pow256(k) == 256 * p;
      assert q * (256 * p) == 256 * (q * p);
    }
  }

  lemma ProductBounds(q: int, p: nat)
    ensures q == 0 ==> q * p == 0
    ensures q == -1 ==> q * p == -(p as int)
    ensures q >= 1 ==> q * p >= p
    ensures q <= -2 ==> q * p <= -2 * p
  {
    if q >= 1 {
      assert q * p == p + (q - 1) * p && (q - 1) * p >= 0;
    } else if q <= -2 {
      assert q * p == -2 * p + (q + 2) * p && (q + 2) * p <= 0;
    }
  }

  /** A remainder below p is the number itself exactly when that is below p; the upper half of the remainders
      stands for the negative numbers above -p/2. */
  lemma Remainders(n: int, x: int, q: int, p: nat, g: nat)
    requires n == x + g && g < p && p % 2 == 0
    requires (q == 0 ==> x == 0) && (q == -1 ==> x == -(p as int)) && (q >= 1 ==> x >= p) && (q <= -2 ==> x <= -2 * p)
    ensures g == n <==> 0 <= n < p
    ensures (if 2 * g >= p then g - p else g) == n <==> 0 <= 2 * n + p && 2 * n < p
  {
  }

  lemma PutSurvives(n: int, k: nat)
    requires k >= 1
    ensures var g := GetLE(PutLE(n, k));
            && (g == n <==> 0 <= n < Pow256(k))
            && (Signed(g, k) == n <==> 0 <= 2 * n + Pow256(k) && 2 * n < Pow256(k))
  {
    var q := GetPutMod(n, k);
    EvenPower(k);
    hide GetLE, PutLE, Pow256;
    ProductBounds(q, Pow256(k));
    Remainders(n, q * Pow256(k), q, Pow256(k), GetLE(PutLE(n, k)));
  }

  lemma EvenPower(k: nat)
    requires k >= 1
    ensures Pow256(k) % 2 == 0
  {
    assert Pow256(k) == 2 * (128 * Pow256(k - 1));
  }

  /** What the bytes of an integer of some width read as: the integer itself exactly when it is in the
      range of the signed, or unsigned, type of that width. */
  ghost predicate ReadsAs(bs: seq<byte>, n: int, width: nat) {
    && |bs| == width
    && var signed, unsigned := ParseSimple(bs, SignedOf(width)), ParseSimple(bs, UnsignedOf(width));
    && signed.Some? && IntOf(signed.value).Some? && unsigned.Some? && IntOf(unsigned.value).Some?
    && (IntOf(signed.value) == Some(n) <==> 0 <= 2 * n + Pow256(width) && 2 * n < Pow256(width))
    && (IntOf(unsigned.value) == Some(n) <==> 0 <= n < Pow256(width))
  }

  lemma SignedReads(bs: seq<byte>, width: nat)
    requires IsWidth(width) && |bs| == width
    ensures var v := ParseSimple(bs, SignedOf(width)); v.Some? && IntOf(v.value) == Some(Signed(GetLE(bs), width))
  {
    assert bs[..width] == bs;
    hide GetLE, Signed;
  }

  lemma UnsignedReads(bs: seq<byte>, width: nat)
    requires IsWidth(width) && |bs| == width
    ensures var v := ParseSimple(bs, UnsignedOf(width)); v.Some? && IntOf(v.value) == Some(GetLE(bs))
  {
    assert bs[..width] == bs;
    if width == 1 { ByteGet(bs); }
    hide GetLE, GetInt;
  }

  lemma WidthReads(n: int, width: nat)
    requires IsWidth(width)
    ensures ReadsAs(PutLE(n, width), n, width)
  {
    hide ParseSimple, SignedOf, UnsignedOf, GetLE, Pow256, Signed, IntOf;
    PutSurvives(n, width);
    SignedReads(PutLE(n, width), width);
    UnsignedReads(PutLE(n, width), width);
    hide PutLE;
  }

  /** A Go int is written at the symbol's size, when that is 2, 4 or 8; it survives exactly when it is in the
      range of the symbol's type. */
  lemma IntEncoding(fl: Floats, i: i64, name: GoString, size: u32)
    ensures var r := EncodeScalar(fl, Value.Int(i), name, size);
            if size == 2 || size == 4 || size == 8 then r.Ok? && ReadsAs(r.value, i, size) else r == Err
  {
    hide ReadsAs;
    if size == 2 || size == 4 || size == 8 {
      WidthReads(i, size);
    }
  }

  /** A float64 that is a whole number is written as an integer unless the type is named REAL or LREAL, and
      survives likewise; any other is written as a float32 into four bytes, and whole into eight otherwise. */
  lemma FloatEncoding(fl: Floats, bits: u64, name: GoString, size: u32)
    ensures var r, whole := EncodeScalar(fl, Float64(bits), name, size), fl.whole(bits);
            && r.Ok?
            && if whole.Some? && name != Ascii("REAL") && name != Ascii("LREAL") && IsWidth(size)
               then ReadsAs(r.value, whole.value, size)
               else if size == 4 then |r.value| == 4 && ParseSimple(r.value, 4) == Some(Float32(fl.narrow(bits)))
               else |r.value| == 8 && ParseSimple(r.value, 5) == Some(Float64(bits))
  {
    var whole := fl.whole(bits);
    Powers();
    if whole.Some? && name != Ascii("REAL") && name != Ascii("LREAL") && IsWidth(size) {
      WidthReads(whole.value, size);
      hide ReadsAs;
    } else if size == 4 {
      var bs := PutLE(fl.narrow(bits), 4);
      UnsignedPut(fl.narrow(bits), 4);
      assert bs[..4] == bs;
      hide PutLE, GetLE, Pow256;
    } else {
      var bs := PutLE(bits, 8);
      UnsignedPut(bits, 8);
      assert bs[..8] == bs;
      hide PutLE, GetLE, Pow256;
    }
  }

  // ---------- the other cases ----------

  /** Raw bytes are cut or padded with zeros to the symbol's size. */
  lemma RawEncoding(fl: Floats, bytes: seq<byte>, name: GoString, size: u32)
    ensures var r := EncodeScalar(fl, Raw(bytes), name, size);
            && r.Ok? && |r.value| == size
            && r.value == if |bytes| >= size then bytes[..size] else bytes + Zeros(size - |bytes|)
  {
    var bs := EncodeScalar(fl, Raw(bytes), name, size).value;
    assert bs == if |bytes| >= size then bytes[..size] else bytes + Zeros(size - |bytes|);
  }

  /** A text is cut to leave room for one NUL and padded with NULs; one without a NUL reads back cut to
      size - 1 bytes. A window of size 0 makes the encoder panic. */
  lemma TextEncoding(fl: Floats, s: GoString, name: GoString, size: u32)
    ensures var r := EncodeScalar(fl, Str(s), name, size);
            if size == 0 then r == Panic
            else
              var kept := if |s| <= size - 1 then s else s[..size - 1];
              && r == Ok(kept + Zeros(size - |kept|))
              && (0 !in s ==> ParseSimple(r.value, 30) == Some(Str(kept)))
  {
    if size > 0 {
      var kept := if |s| <= size - 1 then s else s[..size - 1];
      assert EncodeString(s, size).value == kept + Zeros(size - |kept|);
      if 0 !in s {
        assert 0 !in kept;
        assert kept + Zeros(size - |kept|) == kept + [0] + Zeros(size - |kept| - 1);
        SymbolParser.ParseTerminated(kept, Zeros(size - |kept| - 1));
      }
    }
  }

  /** The zero of a data type. */
  function ZeroOf(dt: DataType): Option<Value> {
    if dt == 33 then Some(Bool(false))
    else if dt == 16 then Some(Int8(0))
    else if dt == 17 then Some(Uint8(0))
    else if dt == 2 then Some(Int16(0))
    else if dt == 18 then Some(Uint16(0))
    else if dt == 3 then Some(Int32(0))
    else if dt == 19 then Some(Uint32(0))
    else if dt == 20 then Some(Int64(0))
    else if dt == 21 then Some(Uint64(0))
    else if dt == 4 then Some(Float32(0))
    else if dt == 5 then Some(Float64(0))
    else if dt == 30 then Some(Str([]))
    else None
  }

  /** How many bytes a data type takes, at least. */
  function WidthOf(dt: DataType): nat {
    if dt == 33 || dt == 16 || dt == 17 then 1
    else if dt == 2 || dt == 18 then 2
    else if dt == 3 || dt == 19 || dt == 4 then 4
    else if dt == 20 || dt == 21 || dt == 5 then 8
    else 0
  }

  lemma {:induction false} GetZeros(n: nat)
    ensures GetLE(Zeros(n)) == 0
  {
    if n > 0 {
      GetZeros(n - 1);
      assert Zeros(n)[1..] == Zeros(n - 1);
    }
  }

  /** nil is written as zeros of the symbol's size, which read as the zero of its type. */
  lemma NilEncoding(fl: Floats, name: GoString, size: u32, dt: DataType)
    requires WidthOf(dt) <= size
    ensures EncodeScalar(fl, Nil, name, size) == Ok(Zeros(size)) && |Zeros(size)| == size
    ensures ParseSimple(Zeros(size), dt) == ZeroOf(dt)
  {
    var w := WidthOf(dt);
    GetZeros(w);
    Powers();
    assert Zeros(size)[..w] == Zeros(w);
    if dt == 30 {
      if size > 0 {
        SymbolParser.ParseTerminated([], Zeros(size - 1));
        assert Zeros(size) == [] + [0] + Zeros(size - 1);
      }
    }
    hide Pow256, GetLE;
  }

  /** Only an integer for an unusual size and a value of an unsupported type are errors, and only a text for a
      window of size 0 makes the encoder panic. */
  lemma ScalarFails(fl: Floats, v: Value, name: GoString, size: u32)
    requires !v.Struct?
    ensures EncodeScalar(fl, v, name, size) == Err <==>
              v.Unsupported? || (v.Int? && size != 2 && size != 4 && size != 8)
    ensures EncodeScalar(fl, v, name, size) == Panic <==> v.Str? && size == 0
  {
  }

  // ---------- what bytes read as ----------

  /** Every pattern of a number's width is some number, and encoding that gives the pattern back. */
  lemma NumberPatterns(fl: Floats, data: seq<byte>, dt: DataType)
    requires WidthOf(dt) > 0 && dt != 33
    ensures ParseSimple(data, dt).Some? <==> |data| >= WidthOf(dt)
    ensures |data| >= WidthOf(dt) ==>
              EncodeScalar(fl, ParseSimple(data, dt).value, Ascii("LREAL"), WidthOf(dt)) == Ok(data[..WidthOf(dt)])
  {
    var w := WidthOf(dt);
    if |data| >= w {
      var bs := data[..w];
      PutGet(bs);
      PutSigned(bs);
      if w == 1 { ByteGet(bs); }
      Powers();
      hide GetLE, PutLE, GetInt, Pow256;
    }
  }

  /** The signed reading of a pattern encodes to it too. */
  lemma {:induction false} PutSigned(bs: seq<byte>)
    ensures PutLE(GetInt(bs), |bs|) == bs
  {
    PutGet(bs);
    PutWraps(GetLE(bs), |bs|);
    hide GetLE, PutLE, Pow256;
  }

  lemma {:induction false} PutWraps(n: int, k: nat)
    ensures PutLE(n - Pow256(k), k) == PutLE(n, k)
    decreases k
  {
    if k > 0 {
      assert Pow256(k) == 256 * Pow256(k - 1);
      DropMultiple(n, Pow256(k - 1));
      PutWraps(n / 256, k - 1);
    }
  }

  lemma DropMultiple(n: int, p: int)
    ensures (n - 256 * p) % 256 == n % 256 && (n - 256 * p) / 256 == n / 256 - p
  {
    assert n - 256 * p == 256 * (n / 256 - p) + n % 256;
  }

  /** A BOOL is true unless its byte is zero. */
  lemma BoolPatterns(data: seq<byte>)
    ensures ParseSimple(data, 33) == if data == [] then None else Some(Bool(data[0] != 0))
  {
  }

  /** A text is what comes before the first NUL, or all of it. */
  lemma {:induction false} TextPatterns(data: seq<byte>)
    ensures ParseSimple(data, 30) == Some(Str(SymbolParser.ParseString(data)))
    ensures var s := SymbolParser.ParseString(data);
            s <= data && 0 !in s && (|s| < |data| ==> data[|s|] == 0)
  {
    if data != [] {
      TextPatterns(data[1..]);
    }
  }

  /** No other data type is parsed as a single value. */
  lemma OtherPatterns(data: seq<byte>, dt: DataType)
    requires WidthOf(dt) == 0 && dt != 30
    ensures ParseSimple(data, dt) == None
  {
  }

  // ---------- types by name ----------

  /** The letters that tell the names of numbers apart. */
  lemma SignedLetters()
    ensures Ascii("SINT")[0] == 83 && Ascii("INT8")[0] == 73 && Ascii("INT")[0] == 73
    ensures Ascii("INT16")[0] == 73 && Ascii("INT16")[3] == 49
    ensures Ascii("DINT")[0] == 68 && Ascii("DINT")[1] == 73
    ensures Ascii("INT32")[0] == 73 && Ascii("INT32")[3] == 51
    ensures Ascii("LINT")[0] == 76
    ensures Ascii("INT64")[0] == 73 && Ascii("INT64")[3] == 54
  {
  }

  lemma UnsignedLetters()
    ensures Ascii("USINT")[0] == 85 && Ascii("USINT")[1] == 83
    ensures Ascii("BYTE")[0] == 66 && Ascii("BYTE")[1] == 89
    ensures Ascii("UINT8")[0] == 85 && Ascii("UINT8")[1] == 73
    ensures Ascii("UINT")[0] == 85
    ensures Ascii("WORD")[0] == 87
    ensures Ascii("UINT16")[0] == 85 && Ascii("UINT16")[4] == 49
    ensures Ascii("UDINT")[0] == 85 && Ascii("UDINT")[1] == 68
    ensures Ascii("DWORD")[0] == 68
    ensures Ascii("UINT32")[0] == 85 && Ascii("UINT32")[4] == 51
    ensures Ascii("ULINT")[0] == 85 && Ascii("ULINT")[1] == 76
    ensures Ascii("LWORD")[0] == 76 && Ascii("LWORD")[1] == 87
    ensures Ascii("UINT64")[0] == 85 && Ascii("UINT64")[4] == 54
  {
  }

  lemma OtherLetters()
    ensures Ascii("BOOL")[0] == 66 && Ascii("BOOL")[1] == 79
    ensures Ascii("REAL")[0] == 82 && Ascii("FLOAT")[0] == 70
    ensures Ascii("LREAL")[0] == 76 && Ascii("LREAL")[1] == 82
    ensures Ascii("DOUBLE")[0] == 68 && Ascii("STRING")[0] == 83
    ensures Ascii("TIME")[0] == 84 && Ascii("DATE")[0] == 68 && Ascii("DATE")[1] == 65
    ensures Ascii("DATE_AND_TIME")[0] == 68 && Ascii("DT")[0] == 68
    ensures Ascii("TIME_OF_DAY")[0] == 84 && Ascii("TOD")[0] == 84 && Ascii("WSTRING")[0] == 87
  {
  }

  /** Which name stands for which data type, and which stand for none. */
  ghost predicate Means(n: GoString, dt: DataType) { NamedType(n) == Some(dt) }

  lemma SignedNames(n: GoString)
    ensures Means(n, 16) <==> n == Ascii("SINT") || n == Ascii("INT8")
    ensures Means(n, 2) <==> n == Ascii("INT") || n == Ascii("INT16")
    ensures Means(n, 3) <==> n == Ascii("DINT") || n == Ascii("INT32")
    ensures Means(n, 20) <==> n == Ascii("LINT") || n == Ascii("INT64")
  {
    SignedLetters();
    hide Ascii;
    var first := if |n| > 0 then n[0] else 0;
    var fourth := if |n| > 3 then n[3] else 0;
  }

  lemma UnsignedNames(n: GoString)
    ensures Means(n, 17) <==> n == Ascii("USINT") || n == Ascii("BYTE") || n == Ascii("UINT8")
    ensures Means(n, 18) <==> n == Ascii("UINT") || n == Ascii("WORD") || n == Ascii("UINT16")
  {
    SignedLetters();
    UnsignedLetters();
    hide Ascii;
    var first := if |n| > 0 then n[0] else 0;
    var second := if |n| > 1 then n[1] else 0;
    var fifth := if |n| > 4 then n[4] else 0;
  }

  lemma WideUnsignedNames(n: GoString)
    ensures Means(n, 19) <==> n == Ascii("UDINT") || n == Ascii("DWORD") || n == Ascii("UINT32")
    ensures Means(n, 21) <==> n == Ascii("ULINT") || n == Ascii("LWORD") || n == Ascii("UINT64")
  {
    SignedLetters();
    UnsignedLetters();
    hide Ascii;
    var first := if |n| > 0 then n[0] else 0;
    var second := if |n| > 1 then n[1] else 0;
    var fifth := if |n| > 4 then n[4] else 0;
  }

  lemma BoolName(n: GoString)
    ensures Means(n, 33) <==> n == Ascii("BOOL")
  {
    SignedLetters();
    UnsignedLetters();
    OtherLetters();
    hide Ascii;
    var first := if |n| > 0 then n[0] else 0;
    var second := if |n| > 1 then n[1] else 0;
  }

  lemma FloatNames(n: GoString)
    ensures Means(n, 4) <==> n == Ascii("REAL") || n == Ascii("FLOAT")
    ensures Means(n, 5) <==> n == Ascii("LREAL") || n == Ascii("DOUBLE")
  {
    SignedLetters();
    UnsignedLetters();
    OtherLetters();
    hide Ascii;
    var first := if |n| > 0 then n[0] else 0;
    var second := if |n| > 1 then n[1] else 0;
  }

  lemma TextName(n: GoString)
    ensures Means(n, 30) <==> n == Ascii("STRING")
  {
    SignedLetters();
    UnsignedLetters();
    OtherLetters();
    hide Ascii;
    var first := if |n| > 0 then n[0] else 0;
  }

  /** The names of dates and times of day stand for no number, and are no other's. */
  lemma TimeNames(n: GoString)
    requires NamesMoment(n) || n == Ascii("TIME_OF_DAY") || n == Ascii("TOD")
    ensures NamedType(n) == None && n != Ascii("TIME")
    ensures IsDateName(n) <==> n[0] == 68
  {
    SignedLetters();
    UnsignedLetters();
    OtherLetters();
    hide Ascii;
    var second := if |n| > 1 then n[1] else 0;
  }

  /** A Go int written to a symbol of an integer type comes back by any of the type's names exactly when it is in
      the type's range. */
  lemma IntByName(fl: Floats, upper: Upper, i: i64, name: GoString, size: u32, signed: bool)
    requires size == 2 || size == 4 || size == 8
    requires Means(Normalized(upper, name), if signed then SignedOf(size) else UnsignedOf(size))
    ensures var r := EncodeScalar(fl, Value.Int(i), name, size);
            && r.Ok? && |r.value| == size
            && var v := ParseByName(upper, r.value, name);
            && v.Some?
            && (IntOf(v.value) == Some(i) <==>
                  if signed then 0 <= 2 * i + Pow256(size) && 2 * i < Pow256(size) else 0 <= i < Pow256(size))
  {
    IntEncoding(fl, i, name, size);
    hide NamedType, Normalized, ParseSimple, IntOf, Pow256, EncodeScalar;
  }

  /** A time written to a DATE, DATE_AND_TIME or DT comes back exactly when its seconds fit 32 unsigned bits. */
  lemma DateEncoding(fl: Floats, upper: Upper, unix: i64, name: GoString, size: u32)
    requires NamesMoment(Normalized(upper, name))
    ensures var r := EncodeScalar(fl, Time(unix), name, size);
            && r.Ok? && |r.value| == 4
            && (ParseByName(upper, r.value, name) == Some(Time(unix)) <==> 0 <= unix < 0x1_0000_0000)
  {
    OtherLetters();
    TimeNames(Normalized(upper, name));
    PutSurvives(unix, 4);
    Powers();
    var bs := PutLE(unix, 4);
    assert bs[..4] == bs;
    hide PutLE, GetLE, NamedType, Normalized, Ascii, Pow256;
    IntRanges(bs);
  }

  /** A duration written to a TIME_OF_DAY or TOD comes back exactly when it is a whole number of milliseconds
      that fits 32 unsigned bits. */
  lemma TimeOfDayEncoding(fl: Floats, upper: Upper, ns: i64, name: GoString, size: u32)
    requires var n := Normalized(upper, name); n == Ascii("TIME_OF_DAY") || n == Ascii("TOD")
    ensures var r := EncodeScalar(fl, Duration(ns), name, size);
            && r.Ok? && |r.value| == 4
            && (ParseByName(upper, r.value, name) == Some(Duration(ns)) <==>
                  ns % 1_000_000 == 0 && 0 <= ns / 1_000_000 < 0x1_0000_0000)
  {
    OtherLetters();
    TimeNames(Normalized(upper, name));
    var ms := TruncatedDiv(ns, 1_000_000);
    PutSurvives(ms, 4);
    Powers();
    var bs := PutLE(ms, 4);
    assert bs[..4] == bs;
    hide PutLE, GetLE, NamedType, Normalized, Ascii, Pow256;
    IntRanges(bs);
  }

  predicate NamesMoment(n: GoString) {
    n == Ascii("DATE") || n == Ascii("DATE_AND_TIME") || n == Ascii("DT")
  }

  predicate NamesDuration(n: GoString) {
    n == Ascii("TIME") || n == Ascii("TIME_OF_DAY") || n == Ascii("TOD")
  }

  lemma CutTowardsZero(ns: int)
    ensures var cut := TruncatedDiv(ns, 1_000_000) * 1_000_000;
            && cut % 1_000_000 == 0
            && (if ns >= 0 then 0 <= ns - cut < 1_000_000 else 0 <= cut - ns < 1_000_000)
  {
  }

  /** What four bytes read as by the name TIME. */
  lemma TimeReads(upper: Upper, ms: int, name: GoString)
    requires Normalized(upper, name) == Ascii("TIME") && -0x8000_0000 <= ms < 0x8000_0000
    ensures ParseByName(upper, PutLE(ms, 4), name) == Some(Duration(ms * 1_000_000))
  {
    TimeIsNotNumeric();
    PutSurvives(ms, 4);
    Powers();
    var bs := PutLE(ms, 4);
    assert bs[..4] == bs;
    hide PutLE, GetLE, NamedType, Normalized, Ascii, Pow256;
    IntRanges(bs);
  }

  /** A duration that fits reads back from a TIME cut to whole milliseconds, towards zero. */
  lemma DurationIsCut(fl: Floats, upper: Upper, ns: i64, name: GoString, size: u32)
    requires Normalized(upper, name) == Ascii("TIME")
    requires -0x8000_0000 * 1_000_000 < ns < 0x8000_0000 * 1_000_000
    ensures var r := EncodeScalar(fl, Duration(ns), name, size);
            && r.Ok? && |r.value| == 4
            && var v := ParseByName(upper, r.value, name);
            && v.Some? && v.value.Duration? && v.value.ns % 1_000_000 == 0
            && (if ns >= 0 then 0 <= ns - v.value.ns < 1_000_000 else 0 <= v.value.ns - ns < 1_000_000)
  {
    CutTowardsZero(ns);
    var ms := TruncatedDiv(ns, 1_000_000);
    hide TruncatedDiv, ParseByName, Normalized, PutLE, Ascii;
    TimeReads(upper, ms, name);
  }

  /** The names that array elements are parsed by, rather than as structs. */
  lemma SimpleNames(upper: Upper, name: GoString)
    ensures var n := Normalized(upper, name);
            && n == upper(TrimSpace(name))
            && (IsSimpleName(upper, name) <==>
                  || (exists dt | dt in {16, 17, 2, 18, 3, 19, 20, 21, 4, 5, 33, 30} :: Means(n, dt))
                  || n == Ascii("WSTRING") || NamesMoment(n) || NamesDuration(n))
  {
    var n := Normalized(upper, name);
    NumberNames(n);
    if NamedType(n).Some? {
      assert Means(n, NamedType(n).value);
    }
    hide Ascii, TrimSpace, SignedType, UnsignedType, OtherType;
  }

  lemma NumberNames(n: GoString)
    ensures NamedType(n).Some? ==> NamedType(n).value in {16, 17, 2, 18, 3, 19, 20, 21, 4, 5, 33, 30}
  {
    hide Ascii;
  }
}
