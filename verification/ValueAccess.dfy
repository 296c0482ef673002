/** Reading and writing symbols as values: the type decides how bytes are parsed and values encoded. */
module ValueAccess {
  import opened Bytes
  import opened Outcomes
  import opened Text
  import opened Types
  import opened Values
  import opened ArrayTypes
  import opened EncodingOrders
  import opened StructParser
  import opened Addressing
  import opened AutoParser
  import opened SymbolAccess
  import opened SymbolPath
  import opened SymbolParser
  import opened Windows
  import StructCodec
  import FieldTypes

  /** A value, or the values of an array. */
  datatype Reading = One(value: Value) | Many(values: seq<Value>)

  /** parseSymbolValue for everything but whole arrays. */
  function SingleValue(env: Env, upper: Upper, data: seq<byte>, t: TypeInfo, isElement: bool): Outcome<Value>
    requires |data| < U32_MODULUS
  {
    if isElement && t.isArray && ElementTypeName(t.name).Some? then
      var element := ElementTypeName(t.name).value;
      if !IsSimpleName(upper, element) then Ok(StructValue(env, data, element))
      else if ParseByName(upper, data, element).Some? then Ok(ParseByName(upper, data, element).value)
      else Err
    else if t.isStruct || Index(t.name, Ascii("STRUCT")) != -1 then Ok(StructValue(env, data, t.name))
    else if ParseSimple(data, t.baseType).Some? then Ok(ParseSimple(data, t.baseType).value)
    else if ParseByName(upper, data, t.name).Some? then Ok(ParseByName(upper, data, t.name).value)
    else Ok(Raw(data))
  }

  /** What parsing a symbol's bytes comes to: an array's values, unless one of its elements was asked for, or one
      value. */
  ghost predicate IsReading(env: Env, upper: Upper, data: seq<byte>, t: TypeInfo, isElement: bool, r: Outcome<Reading>)
    requires |data| < U32_MODULUS
  {
    if t.isArray && !isElement then
      var total := TotalElements(t.arrayDims);
      if total == 0 then r == Ok(Many([]))
      else if t.size / total == 0 then r == Err
      else
        && r.Ok? && r.value.Many?
        && AllElements(env, upper, data, ElementName(t), total, t.size / total, r.value.values)
    else
      match SingleValue(env, upper, data, t, isElement)
      case Ok(v) => r == Ok(One(v))
      case Err => r == Err
      case Panic => r == Panic
  }

  method ParseSymbolValue(env: Env, upper: Upper, data: seq<byte>, t: TypeInfo, isElement: bool)
    returns (r: Outcome<Reading>)
    requires |data| < U32_MODULUS
    ensures IsReading(env, upper, data, t, isElement, r)
  {
    hide StructValue, ParseByName, ParseSimple, IsSimpleName, AllElements, ElementTypeName, TotalElements, Ascii;
    if isElement && t.isArray {
      var element := ElementTypeName(t.name);
      if element.Some? {
        if IsSimpleName(upper, element.value) {
          var parsed := ParseByName(upper, data, element.value);
          return if parsed.Some? then Ok(One(parsed.value)) else Err;
        }
        var v := ParseStructWithTypeInfo(env, data, element.value);
        return Ok(One(v));
      }
    }
    if t.isArray && !isElement {
      var values := ParseArrayValue(env, upper, data, t);
      return if values.Ok? then Ok(Many(values.value)) else Err;
    }
    if t.isStruct || Index(t.name, Ascii("STRUCT")) != -1 {
      var v := ParseStructWithTypeInfo(env, data, t.name);
      return Ok(One(v));
    }
    var simple := ParseSimple(data, t.baseType);
    if simple.Some? {
      return Ok(One(simple.value));
    }
    var named := ParseByName(upper, data, t.name);
    if named.Some? {
      return Ok(One(named.value));
    }
    r := Ok(One(Raw(data)));
  }

  /** ReadSymbolValue: the path without its indices must be a symbol's name. */
  method ReadSymbolValue(c: Client, upper: Upper, path: GoString) returns (r: Outcome<Reading>)
    modifies c.device`asked
    ensures ParseArrayAccess(path) == Err ==> r == Err && c.device.asked == old(c.device.asked)
    ensures ParseArrayAccess(path).Ok? && ParseArrayAccess(path).value.0 !in c.symbols ==>
              r == Err && c.device.asked == old(c.device.asked)
    ensures ParseArrayAccess(path).Ok? && ParseArrayAccess(path).value.0 in c.symbols ==>
              var (base, indices) := ParseArrayAccess(path).value;
              var t := c.symbols[base].typ;
              match Resolve(c.env, c.symbols, path)
              case Err => r == Err
              case Panic => r == Panic
              case Ok(l) =>
                if !Has(c.device.memory, l) || !c.device.fate(old(c.device.asked)).Answered? then r == Err
                else IsReading(c.env, upper, ReadAt(c.device.memory, l), t, indices != [], r)
  {
    hide ParseIndices, IndexByte, Resolve, IsReading;
    var parsed := ScanArrayAccess(path);
    NoScanPanic(path);
    if !parsed.Ok? {
      return Err;
    }
    var (base, indices) := parsed.value;
    if base !in c.symbols {
      return Err;
    }
    var data := c.ReadSymbol(path);
    if !data.Ok? {
      return if data.Err? then Err else Panic;
    }
    r := ParseSymbolValue(c.env, upper, data.value, c.symbols[base].typ, indices != []);
  }

  lemma NoScanPanic(path: GoString)
    ensures ParseArrayAccess(path) != Panic
  {
  }

  /** WriteSymbolValue: the value is encoded for the symbol the path starts with, also when the path goes on to one
      of its elements. */
  method WriteSymbolValue(c: Client, path: GoString, v: Value) returns (r: Outcome<()>, ghost o: Order)
    modifies c.device
    ensures IsOrderOf(v, o)
    ensures ParseArrayAccess(path) == Err || ParseArrayAccess(path).value.0 !in c.symbols ==>
              r == Err && c.device.requests == old(c.device.requests) && c.device.memory == old(c.device.memory)
    ensures ParseArrayAccess(path).Ok? && ParseArrayAccess(path).value.0 in c.symbols ==>
              var s := c.symbols[ParseArrayAccess(path).value.0];
              match EncodeInOrder(c.env, v, s.typ.name, s.size, o)
              case Err => r == Err && c.device.requests == old(c.device.requests)
              case Panic => r == Panic && c.device.requests == old(c.device.requests)
              case Ok(data) =>
                var l := Resolve(c.env, c.symbols, path);
                if l.Ok? && |data| == l.value.size then
                  && c.device.requests == old(c.device.requests) + [Request(l.value.group, l.value.offset, data)]
                  && c.device.memory
                     == (if Has(old(c.device.memory), l.value) && !c.device.fate(old(c.device.asked)).RequestLost?
                         then Written(old(c.device.memory), l.value, data) else old(c.device.memory))
                  && r == if Has(old(c.device.memory), l.value) && c.device.fate(old(c.device.asked)).Answered?
                          then Ok(()) else Err
                else
                  && r == (if l.Panic? then Panic else Err)
                  && c.device.requests == old(c.device.requests) && c.device.memory == old(c.device.memory)
  {
    hide ParseIndices, IndexByte, Resolve, EncodeInOrder, Encoded, MayErr, MayPanic, OrderFree, IsOrderOf, Written;
    o := AnyOrder(v);
    var parsed := ScanArrayAccess(path);
    NoScanPanic(path);
    if !parsed.Ok? {
      return Err, o;
    }
    var base := parsed.value.0;
    if base !in c.symbols {
      return Err, o;
    }
    var s := c.symbols[base];
    var data;
    data, o := StructCodec.EncodeSymbolValue(c.env, v, s.typ, s.size);
    if !data.Ok? {
      return if data.Err? then Err else Panic, o;
    }
    EncodingFits(c.env, v, s.typ.name, s.size);
    r := c.WriteSymbol(path, data.value);
  }

  /** No encoding is longer than its symbol, or eight bytes. */
  lemma EncodingFits(env: Env, v: Value, name: GoString, size: u32)
    ensures Encoded(env, v, name, size).Some? ==> |Encoded(env, v, name, size).value| < U32_MODULUS
  {
    hide Paint, Patches, Encodable;
  }

  // ---------- what comes of it ----------

  /** A Go int is encoded at the size of the whole array when it is written to an element: it is written exactly
      when the array has a single element, of two, four or eight bytes. */
  lemma IntToElement(env: Env, symbols: SymbolIndex, base: GoString, n: u32, t: TypeInfo, i: nat, x: i64, o: Order)
    requires IsArrayOf(env, symbols, base, n, t) && i < n && t.size > 0 && IsOrderOf(Value.Int(x), o)
    ensures var path := base + PrintIndex(i);
            && ParseArrayAccess(path) == Ok((base, [i])) && Resolve(env, symbols, path).Ok?
            && var data := EncodeInOrder(env, Value.Int(x), symbols[base].typ.name, symbols[base].size, o);
            data.Ok? && |data.value| == Resolve(env, symbols, path).value.size
            <==> n == 1 && (t.size == 2 || t.size == 4 || t.size == 8)
  {
    assert LBRACKET !in base && base in symbols;
    hide Resolve, ParseArrayAccess, PrintIndex, EncodeInOrder, IsArrayOf, IsOrderOf, Nth, Wrap32;
    OnlyIndex(base, i);
    ElementLocation(env, symbols, base, n, t, i);
    IntLength(env, x, symbols[base].typ.name, symbols[base].size, o);
    WholeArray(env, symbols, base, n, t);
    SizeOfOne(n, t.size);
  }

  lemma IntLength(env: Env, x: i64, name: GoString, size: u32, o: Order)
    requires IsOrderOf(Value.Int(x), o)
    ensures var r := EncodeInOrder(env, Value.Int(x), name, size, o);
            && (r.Ok? <==> size == 2 || size == 4 || size == 8)
            && (r.Ok? ==> |r.value| == size)
  {
    hide PutLE;
  }

  lemma SizeOfOne(n: nat, size: nat)
    requires n >= 1 && size > 0
    ensures Nth(n, size) == size <==> n == 1
  {
    if n > 1 {
      NthApart(1, n, size);
    }
  }

  /** Field paths a[i].f are refused by both, though plain reads and writes resolve them: the path without its
      index, a.f, is not a symbol. */
  lemma FieldPathsRefused(symbols: SymbolIndex, base: GoString, i: int, field: GoString)
    requires LBRACKET !in base && IsInt(i) && LBRACKET !in field
    ensures ParseArrayAccess(base + PrintIndex(i) + [DOT] + field) == Ok((base + [DOT] + field, [i]))
  {
    ParsePrintedPath(base, [i], [DOT] + field);
    PrintIndicesStart([i]);
    hide ParseArrayAccess, PrintIndex, PrintIndices;
    assert base + PrintIndices([i]) + ([DOT] + field) == base + PrintIndex(i) + [DOT] + field by {
      assert PrintIndex(i) + [] == PrintIndex(i);
    }
    assert base + ([DOT] + field) == base + [DOT] + field;
  }

  /** A text symbol is read as a struct: the symbol parser flags its data type (30) as one. */
  lemma TextReadsAsStruct(env: Env, upper: Upper, data: seq<byte>, typeName: GoString, size: u32)
    requires |data| < U32_MODULUS && ParseTypeInfo(typeName, 30, size).Ok?
    requires !ParseTypeInfo(typeName, 30, size).value.isArray
    ensures SingleValue(env, upper, data, ParseTypeInfo(typeName, 30, size).value, false)
            == Ok(StructValue(env, data, typeName))
  {
    DescribedType(typeName, 30, size);
    hide ParseTypeInfo, StructValue, Index, Ascii;
  }

  /** Any other scalar symbol that is not named an array or a STRUCT: what is written is read back. */
  lemma ScalarSymbolRoundTrip(env: Env, upper: Upper, v: Value, typeName: GoString, dt: DataType, size: u32)
    requires FieldTypes.IsScalarOf(env.fl, v, dt, size, typeName) && !v.Str?
    requires forall i :: !OccursAt(typeName, Ascii("ARRAY"), i) && !OccursAt(typeName, Ascii("STRUCT"), i)
    ensures ParseTypeInfo(typeName, dt, size).Ok?
    ensures var t := ParseTypeInfo(typeName, dt, size).value;
            var r := EncodeScalar(env.fl, v, t.name, size);
            r.Ok? && |r.value| == size && SingleValue(env, upper, r.value, t, false) == Ok(v)
  {
    TypeInfoPanics(typeName, dt, size);
    DescribedType(typeName, dt, size);
    IndexFinds(typeName, Ascii("STRUCT"));
    FieldTypes.PlainRoundTrip(env.fl, v, dt, size, typeName);
    assert dt in {16, 17, 2, 18, 3, 19, 20, 21, 4, 5, 33};
    hide ParseTypeInfo, EncodeScalar, Ascii, Index, Hex;
  }

  /** An element asked for by its index reads as it does in the whole array, where bytes that do not parse as
      its simple type stay raw; alone they are an error. */
  lemma ElementReadsAsInArray(env: Env, upper: Upper, data: seq<byte>, t: TypeInfo)
    requires |data| < U32_MODULUS && t.isArray && ElementTypeName(t.name).Some?
    ensures var element := ElementName(t);
            SingleValue(env, upper, data, t, true)
            == if IsSimpleName(upper, element) && ParseByName(upper, data, element).None? then Err
               else Ok(ParseElement(env, upper, data, element))
  {
    hide ElementTypeName, ParseByName, IsSimpleName, StructValue, Ascii, Index;
  }

  /** A symbol that is no array and no struct, and has not STRUCT in its name, reads by its data type, else by
      its type's name, else as its bytes. */
  lemma ScalarReads(env: Env, upper: Upper, data: seq<byte>, t: TypeInfo)
    requires |data| < U32_MODULUS && !t.isArray && !t.isStruct
    requires forall i :: !OccursAt(t.name, Ascii("STRUCT"), i)
    ensures var typed, named := ParseSimple(data, t.baseType), ParseByName(upper, data, t.name);
            SingleValue(env, upper, data, t, false)
            == Ok(if typed.Some? then typed.value else if named.Some? then named.value else Raw(data))
  {
    IndexFinds(t.name, Ascii("STRUCT"));
    hide ParseSimple, ParseByName, Ascii, Index;
  }

  /** One that is flagged as a struct, or is not and has STRUCT in its name, reads as the struct of that name. */
  lemma StructReads(env: Env, upper: Upper, data: seq<byte>, t: TypeInfo)
    requires |data| < U32_MODULUS && !t.isArray
    requires t.isStruct || exists i :: OccursAt(t.name, Ascii("STRUCT"), i)
    ensures SingleValue(env, upper, data, t, false) == Ok(StructValue(env, data, t.name))
  {
    IndexFinds(t.name, Ascii("STRUCT"));
    hide ParseSimple, ParseByName, Ascii, Index, StructValue;
  }
}
