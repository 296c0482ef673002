/** Parsing by type name: the simple types, structs looked up by name, and whole arrays. */
module AutoParser {
  import opened Bytes
  import opened Outcomes
  import opened Text
  import opened Types
  import opened Values
  import opened ArrayTypes
  import opened EncodingOrders
  import opened StructParser
  import opened StructRoundTrip
  import opened Addressing
  import SymbolPath

  // ---------- simple types by name ----------

  /** strings.ToUpper, a parameter because it knows all of Unicode. */
  type Upper = GoString -> GoString

  function Normalized(upper: Upper, name: GoString): GoString { upper(TrimSpace(name)) }

  function SignedType(name: GoString): Option<DataType> {
    if name == Ascii("SINT") || name == Ascii("INT8") then Some(INT8)
    else if name == Ascii("INT") || name == Ascii("INT16") then Some(INT16)
    else if name == Ascii("DINT") || name == Ascii("INT32") then Some(INT32)
    else if name == Ascii("LINT") || name == Ascii("INT64") then Some(INT64)
    else None
  }

  function UnsignedType(name: GoString): Option<DataType> {
    if name == Ascii("USINT") || name == Ascii("BYTE") || name == Ascii("UINT8") then Some(UINT8)
    else if name == Ascii("UINT") || name == Ascii("WORD") || name == Ascii("UINT16") then Some(UINT16)
    else if name == Ascii("UDINT") || name == Ascii("DWORD") || name == Ascii("UINT32") then Some(UINT32)
    else if name == Ascii("ULINT") || name == Ascii("LWORD") || name == Ascii("UINT64") then Some(UINT64)
    else None
  }

  function OtherType(name: GoString): Option<DataType> {
    if name == Ascii("BOOL") then Some(BOOL)
    else if name == Ascii("REAL") || name == Ascii("FLOAT") then Some(REAL32)
    else if name == Ascii("LREAL") || name == Ascii("DOUBLE") then Some(REAL64)
    else if name == Ascii("STRING") then Some(STRING)
    else None
  }

  /** The data type a normalized name stands for, of those that have an identifier. */
  function NamedType(name: GoString): Option<DataType> {
    if SignedType(name).Some? then SignedType(name)
    else if UnsignedType(name).Some? then UnsignedType(name)
    else OtherType(name)
  }

  predicate IsDateName(name: GoString) {
    name == Ascii("DATE") || name == Ascii("DATE_AND_TIME") || name == Ascii("DT")
  }

  predicate IsTimeOfDayName(name: GoString) {
    name == Ascii("TIME_OF_DAY") || name == Ascii("TOD")
  }

  /** isSimpleTypeName: WSTRING counts, though no parser follows. */
  predicate IsSimpleName(upper: Upper, name: GoString) {
    var n := Normalized(upper, name);
    NamedType(n).Some? || n == Ascii("WSTRING") || n == Ascii("TIME") || IsDateName(n) || IsTimeOfDayName(n)
  }

  const NS_PER_MS: int := 1_000_000

  /** parseSimpleTypeByName: None for its error. */
  function ParseByName(upper: Upper, data: seq<byte>, name: GoString): Option<Value> {
    var n := Normalized(upper, name);
    if NamedType(n).Some? then ParseSimple(data, NamedType(n).value)
    else if |data| < 4 then None
    else
      IntRanges(data[..4]);
      if n == Ascii("TIME") then Some(Duration(GetInt(data[..4]) * NS_PER_MS))
      else if IsDateName(n) then Some(Time(Get32(data[..4])))
      else if IsTimeOfDayName(n) then Some(Duration(Get32(data[..4]) * NS_PER_MS))
      else None
  }

  /** A duration written to a TIME comes back exactly if it is a whole number of milliseconds that a
      32-bit integer holds. */
  lemma TimeRoundTrip(fl: Floats, upper: Upper, ns: i64, name: GoString, size: u32)
    requires Normalized(upper, name) == Ascii("TIME")
    ensures var r := EncodeScalar(fl, Duration(ns), name, size);
            && r.Ok? && |r.value| == 4
            && (ParseByName(upper, r.value, name) == Some(Duration(ns)) <==>
                  ns % NS_PER_MS == 0 && -0x8000_0000 <= ns / NS_PER_MS < 0x8000_0000)
  {
    hide PutLE, GetInt, NamedType, Normalized;
    var ms := TruncatedDiv(ns, NS_PER_MS);
    var bs := PutLE(ms, 4);
    TimeIsNotNumeric();
    assert bs[..4] == bs;
    IntRanges(bs);
    if -0x8000_0000 <= ms < 0x8000_0000 {
      Powers();
      SignedPut(ms, 4);
    }
  }

  lemma StartsDifferently(a: string, b: string)
    requires forall i :: 0 <= i < |a| ==> a[i] < 128 as char
    requires forall i :: 0 <= i < |b| ==> b[i] < 128 as char
    requires a != "" && b != "" && a[0] != b[0]
    ensures Ascii(a) != Ascii(b)
  {
    assert Ascii(a)[0] != Ascii(b)[0];
  }

  lemma TimeIsNotNumeric()
    ensures NamedType(Ascii("TIME")).None?
  {
    hide Ascii;
    StartsDifferently("TIME", "SINT");
    StartsDifferently("TIME", "INT8");
    StartsDifferently("TIME", "DINT");
    StartsDifferently("TIME", "LINT");
    StartsDifferently("TIME", "BYTE");
    StartsDifferently("TIME", "UINT");
    StartsDifferently("TIME", "WORD");
    StartsDifferently("TIME", "BOOL");
    StartsDifferently("TIME", "REAL");
  }

  // ---------- structs by name ----------

  /** What parseStructWithTypeInfo returns when it does not know the fields. */
  function RawStruct(data: seq<byte>, name: GoString): map<GoString, Value>
    requires |data| < U32_MODULUS
  {
    map[Ascii("_raw") := Raw(data), Ascii("_type") := Str(name), Ascii("_size") := Value.Int(|data|)]
  }

  /** parseStructWithTypeInfo. */
  function StructValue(env: Env, data: seq<byte>, name: GoString): Value
    requires |data| < U32_MODULUS
  {
    match env.lookup(name)
    case None => Struct(RawStruct(data, name)[Ascii("_note") := Str(Ascii("Type information not available"))])
    case Some(t) =>
      if t.fields == [] then Struct(RawStruct(data, name)) else Struct(ParseFields(data, t.fields))
  }

  /** A struct whose fields are not known is its bytes with their description. */
  lemma UnknownStruct(env: Env, data: seq<byte>, name: GoString)
    requires |data| < U32_MODULUS
    requires env.lookup(name).Some? ==> env.lookup(name).value.fields == []
    ensures var v := StructValue(env, data, name);
            && v.Struct?
            && v.fields.Keys == {Ascii("_raw"), Ascii("_type"), Ascii("_size")}
                                + (if env.lookup(name).None? then {Ascii("_note")} else {})
            && v.fields[Ascii("_raw")] == Raw(data)
            && v.fields[Ascii("_type")] == Str(name)
            && v.fields[Ascii("_size")] == Value.Int(|data|)
  {
    KeyLetters();
    hide Ascii;
  }

  lemma KeyLetters()
    ensures Ascii("_raw")[1] == 114 && Ascii("_type")[1] == 116 && Ascii("_size")[1] == 115 && Ascii("_note")[1] == 110
  {
  }

  method ParseStructWithTypeInfo(env: Env, data: seq<byte>, name: GoString) returns (v: Value)
    requires |data| < U32_MODULUS
    ensures v == StructValue(env, data, name)
  {
    var info := env.lookup(name);
    if info.None? {
      return Struct(RawStruct(data, name)[Ascii("_note") := Str(Ascii("Type information not available"))]);
    }
    if |info.value.fields| == 0 {
      return Struct(RawStruct(data, name));
    }
    var fields := ParseAllFields(data, info.value.fields);
    v := Struct(fields);
  }

  /** A struct value encoded for its type and parsed by the type's name is the value again. */
  lemma StructByNameRoundTrip(env: Env, v: Value, t: TypeInfo)
    requires Fits(env, v, t) && v.Struct?
    ensures Encoded(env, v, t.name, t.size).Some? && |Encoded(env, v, t.name, t.size).value| == t.size
    ensures StructValue(env, Encoded(env, v, t.name, t.size).value, t.name) == v
  {
    RoundTrip(env, v, t);
    hide Encoded, OrderFree, ParseFields, Layout, ScalarFits;
  }

  // ---------- whole arrays ----------

  /** The product of the dimensions, in uint32 arithmetic. */
  function TotalElements(dims: seq<u32>): u32
    decreases |dims|
  {
    if dims == [] then 1
    else Wrap32(TotalElements(dims[..|dims| - 1]) * dims[|dims| - 1])
  }

  /** The product of the dimensions. */
  function Product(dims: seq<u32>): nat
    decreases |dims|
  {
    if dims == [] then 1 else Product(dims[..|dims| - 1]) * dims[|dims| - 1]
  }

  /** The number of elements is the product of the dimensions, modulo 2^32: an array of 2^32 elements counts
      as empty. */
  lemma {:induction false} TotalIsProduct(dims: seq<u32>)
    ensures TotalElements(dims) == Product(dims) % 0x1_0000_0000
    decreases |dims|
  {
    if dims != [] {
      var init, last := dims[..|dims| - 1], dims[|dims| - 1];
      TotalIsProduct(init);
      TimesWrapped(Product(init), last);
    }
  }

  lemma TimesWrapped(p: nat, n: nat)
    ensures (p % 0x1_0000_0000 * n) % 0x1_0000_0000 == (p * n) % 0x1_0000_0000
  {
    var q, r := p / 0x1_0000_0000, p % 0x1_0000_0000;
    assert p == q * 0x1_0000_0000 + r;
    ProductSplits(q, r, n);
    SameTurn(r * n, q * n);
  }

  /** How one element's bytes are parsed: a simple type that fails to parse stays raw. */
  function ParseElement(env: Env, upper: Upper, data: seq<byte>, name: GoString): Value
    requires |data| < U32_MODULUS
  {
    if IsSimpleName(upper, name) then
      match ParseByName(upper, data, name)
      case Some(v) => v
      case None => Raw(data)
    else StructValue(env, data, name)
  }

  /** An element of a simple type is its parsed value, or its bytes when they do not parse; any other is a struct. */
  lemma ElementExactly(env: Env, upper: Upper, data: seq<byte>, name: GoString)
    requires |data| < U32_MODULUS
    ensures var parsed := ParseByName(upper, data, name);
            ParseElement(env, upper, data, name)
            == if !IsSimpleName(upper, name) then StructValue(env, data, name)
               else if parsed.Some? then parsed.value else Raw(data)
    ensures Normalized(upper, name) == Ascii("WSTRING") ==> ParseElement(env, upper, data, name) == Raw(data)
  {
    if Normalized(upper, name) == Ascii("WSTRING") {
      WideTextIsNotNumeric();
    }
    hide ParseSimple, NamedType, Ascii, Normalized, StructValue;
  }

  lemma WideTextIsNotNumeric()
    ensures NamedType(Ascii("WSTRING")).None? && !IsDateName(Ascii("WSTRING")) && !IsTimeOfDayName(Ascii("WSTRING"))
    ensures Ascii("WSTRING") != Ascii("TIME")
  {
    assert Ascii("TIME_OF_DAY")[0] == 84;
    hide Ascii;
  }

  function ElementName(t: TypeInfo): GoString {
    match ElementTypeName(t.name)
    case Some(name) => name
    case None => []
  }

  method ElementValue(env: Env, upper: Upper, data: seq<byte>, name: GoString) returns (v: Value)
    requires |data| < U32_MODULUS
    ensures v == ParseElement(env, upper, data, name)
  {
    if IsSimpleName(upper, name) {
      var parsed := ParseByName(upper, data, name);
      return if parsed.Some? then parsed.value else Raw(data);
    }
    v := ParseStructWithTypeInfo(env, data, name);
  }

  /** vs are the first elements, each parsed from its own slice. */
  predicate FirstElements(env: Env, upper: Upper, data: seq<byte>, name: GoString, size: nat, vs: seq<Value>)
    requires |data| < U32_MODULUS
  {
    && Nth(|vs|, size) <= |data|
    && forall i | 0 <= i < |vs| ::
         Nth(i, size) + size <= |data| && vs[i] == ParseElement(env, upper, ElementBytes(data, i, size), name)
  }

  /** As many elements as there are, or as lie wholly inside the data. */
  predicate AllElements(env: Env, upper: Upper, data: seq<byte>, name: GoString, count: nat, size: nat, vs: seq<Value>)
    requires |data| < U32_MODULUS
  {
    && |vs| <= count && FirstElements(env, upper, data, name, size, vs)
    && (|vs| == count || Nth(|vs| + 1, size) > |data|)
  }

  lemma OneMoreElement(env: Env, upper: Upper, data: seq<byte>, name: GoString, size: nat, vs: seq<Value>)
    requires |data| < U32_MODULUS && FirstElements(env, upper, data, name, size, vs)
    ensures Nth(|vs| + 1, size) == Nth(|vs|, size) + size
    ensures Nth(|vs|, size) + size <= |data| ==>
              FirstElements(env, upper, data, name, size,
                            vs + [ParseElement(env, upper, ElementBytes(data, |vs|, size), name)])
  {
    hide ParseElement;
  }

  /** No element of an array ends beyond its type's size, so the offsets do not wrap. */
  lemma ElementEnds(size: u32, count: nat, i: nat)
    requires i < count
    ensures size / count >= 0 && Nth(i, size / count) + size / count <= size
  {
    NthApart(i, count, size / count);
    assert count * (size / count) <= size;
  }

  /** parseArrayValue. */
  method ParseArrayValue(env: Env, upper: Upper, data: seq<byte>, t: TypeInfo) returns (r: Outcome<seq<Value>>)
    requires |data| < U32_MODULUS
    ensures var total := TotalElements(t.arrayDims);
            if total == 0 then r == Ok([])
            else if t.size / total == 0 then r == Err
            else r.Ok? && AllElements(env, upper, data, ElementName(t), total, t.size / total, r.value)
  {
    hide ParseElement, ElementName, FirstElements, Nth;
    var totalElements: u32 := 1;
    var d := 0;
    while d < |t.arrayDims|
      invariant d <= |t.arrayDims|
      invariant totalElements == TotalElements(t.arrayDims[..d])
    {
      assert t.arrayDims[..d + 1][..d] == t.arrayDims[..d];
      totalElements := Wrap32(totalElements * t.arrayDims[d]);
      d := d + 1;
    }
    assert t.arrayDims[..d] == t.arrayDims;
    if totalElements == 0 {
      return Ok([]);
    }
    var elementTypeName := ElementName(t);
    var elementSize: u32 := t.size / totalElements;
    if elementSize == 0 {
      return Err;
    }
    hide TotalElements;
    var result: seq<Value> := [];
    NoElements(env, upper, data, elementTypeName, elementSize);
    var i: u32 := 0;
    while i < totalElements
      invariant i <= totalElements && |result| == i
      invariant FirstElements(env, upper, data, elementTypeName, elementSize, result)
    {
      ElementEnds(t.size, totalElements, i);
      OneMoreElement(env, upper, data, elementTypeName, elementSize, result);
      OffsetOf(i, elementSize);
      var offset := Wrap32(i * elementSize);
      if Wrap32(offset + elementSize) > Wrap32(|data|) {
        break;
      }
      var element := ElementValue(env, upper, data[offset..offset + elementSize], elementTypeName);
      result := result + [element];
      i := i + 1;
    }
    r := Ok(result);
  }

  lemma NoElements(env: Env, upper: Upper, data: seq<byte>, name: GoString, size: nat)
    requires |data| < U32_MODULUS
    ensures FirstElements(env, upper, data, name, size, [])
  {
  }

  lemma OffsetOf(i: nat, size: nat)
    requires Nth(i, size) < U32_MODULUS
    ensures Wrap32(i * size) == Nth(i, size)
  {
  }

  /** For an array of n elements, parsing the whole symbol's bytes gives n values, and the i-th of them
      is parsed from the bytes that reading a[i] returns. */
  lemma WholeArrayByElements(env: Env, upper: Upper, symbols: SymbolIndex, base: GoString, n: u32, t: TypeInfo,
                             memory: seq<byte>, vs: seq<Value>)
    requires IsArrayOf(env, symbols, base, n, t)
    requires symbols[base].typ.arrayDims == [n] && symbols[base].typ.size == symbols[base].size
    requires symbols[base].indexOffset + symbols[base].size <= |memory| && n > 0
    requires Resolve(env, symbols, base).Ok?
    requires Resolve(env, symbols, base).value.offset + Resolve(env, symbols, base).value.size <= |memory|
    requires var s := symbols[base];
             AllElements(env, upper, BytesAt(memory, Resolve(env, symbols, base).value), ElementName(s.typ),
                         TotalElements(s.typ.arrayDims), s.typ.size / n, vs)
    ensures |vs| == n
    ensures forall i | 0 <= i < n ::
              var element := Resolve(env, symbols, base + SymbolPath.PrintIndex(i));
              && element.Ok? && element.value.offset + element.value.size <= |memory|
              && vs[i] == ParseElement(env, upper, BytesAt(memory, element.value), ElementName(symbols[base].typ))
  {
    hide IsArrayOf, Resolve, ParseElement, ElementName, SymbolPath.PrintIndex, Nth;
    WholeArray(env, symbols, base, n, t);
    assert TotalElements([n]) == n by { TotalOfOne(n); }
    assert symbols[base].size / n == t.size by { SizeOverCount(n, t.size); }
    if |vs| < n {
      if |vs| + 1 < n {
        NthApart(|vs| + 1, n, t.size);
      }
    }
    forall i | 0 <= i < n
      ensures var element := Resolve(env, symbols, base + SymbolPath.PrintIndex(i));
              && element.Ok? && element.value.offset + element.value.size <= |memory|
              && vs[i] == ParseElement(env, upper, BytesAt(memory, element.value), ElementName(symbols[base].typ))
    {
      ReadElement(env, symbols, base, n, t, i, memory);
    }
  }

  lemma TotalOfOne(n: u32)
    ensures TotalElements([n]) == n
  {
    assert TotalElements([n][..0]) == 1;
  }

  lemma DivBounds(x: nat, n: nat)
    requires n > 0
    ensures 0 <= x / n && Nth(x / n, n) <= x < Nth(x / n, n) + n
  {
    assert x == n * (x / n) + x % n;
  }

  lemma SizeOverCount(n: nat, size: nat)
    requires n > 0
    ensures Nth(n, size) / n == size
  {
    var x := Nth(n, size);
    var q := x / n;
    DivBounds(x, n);
    assert x == Nth(size, n);
    hide Nth;
    if q < size {
      NthApart(q, size, n);
    } else if size < q {
      NthApart(size, q, n);
    }
  }
}
