/** Where a symbol path lies in PLC memory: symbols, array elements, and fields of elements. */
module Addressing {
  import opened Bytes
  import opened Outcomes
  import opened Text
  import opened Types
  import opened SymbolParser
  import opened SymbolPath
  import opened ArrayTypes
  import opened EncodingOrders
  import opened StructParser

  /** A window of memory: what a read or write request asks for. */
  datatype Location = Location(group: u32, offset: u32, size: u32)

  type SymbolIndex = map<GoString, Symbol>

  // ---------- resolving ----------

  /** resolveSimpleArray. The index is truncated to 32 bits and all arithmetic wraps. */
  function ResolveSimple(env: Env, symbols: SymbolIndex, path: GoString): Outcome<Location> {
    match ParseArrayAccess(path)
    case Err => Err
    case Panic => Panic
    case Ok((base, indices)) =>
      if base !in symbols then Err
      else
        var s := symbols[base];
        if indices == [] then Ok(Location(s.indexGroup, s.indexOffset, s.size))
        else if |indices| > 1 then Err
        else
          match env.lookup(ElementOrSelf(s.typ.name))
          case None => Err
          case Some(t) => Ok(Location(s.indexGroup, ElementOffset(s, indices[0], t), t.size))
  }

  function ElementOffset(s: Symbol, i: int, t: TypeInfo): u32 {
    Wrap32(s.indexOffset + Wrap32(Wrap32(i) * t.size))
  }

  /** resolveArrayStructField: the path has a field after its first index. */
  function ResolveField(env: Env, symbols: SymbolIndex, path: GoString): Outcome<Location>
    requires HasFieldAfterIndex(path)
  {
    var (arrayPart, field) := SplitArrayAndField(path);
    match ParseArrayAccess(arrayPart)
    case Err => Err
    case Panic => Panic
    case Ok((base, indices)) =>
      if |indices| > 1 || base !in symbols then Err
      else
        var s := symbols[base];
        match ElementTypeName(s.typ.name)
        case None => Err
        case Some(element) =>
          match env.lookup(element)
          case None => Err
          case Some(t) =>
            var i := FieldIndex(t.fields, field);
            if indices == [] then Panic
            else if i == -1 then Err
            else
              var f := t.fields[i];
              Ok(Location(s.indexGroup, Wrap32(ElementOffset(s, indices[0], t) + f.offset), f.typ.size))
  }

  /** resolveArraySymbol. */
  function Resolve(env: Env, symbols: SymbolIndex, path: GoString): Outcome<Location> {
    if HasFieldAfterIndex(path) then ResolveField(env, symbols, path)
    else ResolveSimple(env, symbols, path)
  }

  // ---------- where any path lies ----------

  /** A path without brackets is a symbol's name, whatever its type: it lies where the symbol does. */
  lemma PlainLocation(env: Env, symbols: SymbolIndex, name: GoString)
    requires LBRACKET !in name
    ensures Resolve(env, symbols, name)
            == if name in symbols then
                 Ok(Location(symbols[name].indexGroup, symbols[name].indexOffset, symbols[name].size))
               else Err
  {
  }

  /** The type whose size an index counts in: the element type of the symbol's type, or that type itself. */
  function CountedType(env: Env, s: Symbol): Option<TypeInfo> {
    match ElementTypeName(s.typ.name)
    case Some(element) => env.lookup(element)
    case None => env.lookup(s.typ.name)
  }

  /** i elements on from the symbol's start, modulo 2^32. */
  function Onward(s: Symbol, i: int, t: TypeInfo): u32 { (s.indexOffset + i * t.size) % 0x1_0000_0000 }

  lemma OffsetIsOnward(s: Symbol, i: int, t: TypeInfo)
    ensures ElementOffset(s, i, t) == Onward(s, i, t)
  {
    WrappedProduct(s.indexOffset, i, t.size);
  }

  lemma WrappedProduct(offset: u32, i: int, size: u32)
    ensures Wrap32(offset + Wrap32(Wrap32(i) * size)) == (offset + i * size) % 0x1_0000_0000
  {
    var q := i / U32_MODULUS;
    assert i == q * U32_MODULUS + Wrap32(i);
    ProductSplits(q, Wrap32(i), size);
    DropTurns(offset, Wrap32(i) * size, q * size);
  }

  lemma ProductSplits(q: int, r: int, size: int)
    ensures (q * U32_MODULUS + r) * size == r * size + (q * size) * U32_MODULUS
  {
  }

  lemma DropTurns(offset: int, product: int, turns: int)
    ensures (offset + Wrap32(product)) % 0x1_0000_0000 == (offset + (product + turns * U32_MODULUS)) % 0x1_0000_0000
  {
    var p := product / U32_MODULUS;
    assert product == p * U32_MODULUS + Wrap32(product);
    SameTurn(offset + Wrap32(product), p + turns);
  }

  lemma SameTurn(x: int, turns: int)
    ensures x % 0x1_0000_0000 == (x + turns * U32_MODULUS) % 0x1_0000_0000
  {
  }

  /** Any index, also a negative one or one outside the array, resolves: i elements on from the symbol's
      start, in arithmetic modulo 2^32. What follows the bracket, if it does not start with a dot or a bracket,
      belongs to the symbol's name. */
  lemma AnyElementLocation(env: Env, symbols: SymbolIndex, base: GoString, i: int, rest: GoString)
    requires LBRACKET !in base && IsInt(i) && (rest == [] || (rest[0] != LBRACKET && rest[0] != DOT))
    ensures Resolve(env, symbols, base + PrintIndex(i) + rest)
            == if base + rest !in symbols then Err
               else
                 var s := symbols[base + rest];
                 match CountedType(env, s)
                 case None => Err
                 case Some(t) => Ok(Location(s.indexGroup, Onward(s, i, t), t.size))
  {
    ThenIndex(base, i, rest);
    hide HasFieldAfterIndex, ParseArrayAccess, PrintIndex, ElementTypeName, ElementOffset, Onward;
    if base + rest in symbols {
      var s := symbols[base + rest];
      if CountedType(env, s).Some? {
        OffsetIsOnward(s, i, CountedType(env, s).value);
      }
    }
  }

  lemma ThenIndex(base: GoString, i: int, rest: GoString)
    requires LBRACKET !in base && IsInt(i) && (rest == [] || rest[0] != LBRACKET)
    ensures HasFieldAfterIndex(base + PrintIndex(i) + rest) <==> rest != [] && rest[0] == DOT
    ensures ParseArrayAccess(base + PrintIndex(i) + rest) == Ok((base + rest, [i]))
  {
    PrintedPathHasField(base, [i], rest);
    ParsePrintedPath(base, [i], rest);
    PrintIndicesStart([i]);
    hide HasFieldAfterIndex, ParseArrayAccess, PrintIndex, PrintIndices;
    assert base + PrintIndices([i]) + rest == base + PrintIndex(i) + rest by {
      assert PrintIndex(i) + [] == PrintIndex(i);
    }
  }

  /** Where a field of the i-th element is. */
  function FieldPlace(env: Env, symbols: SymbolIndex, base: GoString, i: int, field: GoString): Outcome<Location> {
    if base !in symbols || ElementTypeName(symbols[base].typ.name).None? then Err
    else
      match CountedType(env, symbols[base])
      case None => Err
      case Some(t) =>
        var k := FieldIndex(t.fields, field);
        if k == -1 then Err
        else
          var f := t.fields[k];
          Ok(Location(symbols[base].indexGroup, (Onward(symbols[base], i, t) + f.offset) % 0x1_0000_0000, f.typ.size))
  }

  lemma FieldPlaced(env: Env, symbols: SymbolIndex, path: GoString, element: GoString, base: GoString, i: int,
                    field: GoString)
    requires HasFieldAfterIndex(path) && SplitArrayAndField(path) == (element, field)
    requires ParseArrayAccess(element) == Ok((base, [i]))
    ensures Resolve(env, symbols, path) == FieldPlace(env, symbols, base, i, field)
  {
    hide HasFieldAfterIndex, SplitArrayAndField, ParseArrayAccess, ElementTypeName, FieldIndex, ElementOffset, Onward;
    if base in symbols && CountedType(env, symbols[base]).Some? {
      OffsetIsOnward(symbols[base], i, CountedType(env, symbols[base]).value);
    }
  }

  /** So for a field of any element of an array of structs. */
  lemma AnyFieldLocation(env: Env, symbols: SymbolIndex, base: GoString, i: int, field: GoString)
    requires LBRACKET !in base && IsInt(i)
    ensures Resolve(env, symbols, base + PrintIndex(i) + [DOT] + field) == FieldPlace(env, symbols, base, i, field)
  {
    hide HasFieldAfterIndex, SplitArrayAndField, ParseArrayAccess, PrintIndex, Resolve, FieldPlace;
    SplitPrintedPath(base, i, field);
    OnlyIndex(base, i);
    FieldPlaced(env, symbols, base + PrintIndex(i) + [DOT] + field, base + PrintIndex(i), base, i, field);
  }

  /** More than one index is refused. */
  lemma ManyIndices(env: Env, symbols: SymbolIndex, base: GoString, indices: seq<int>, rest: GoString)
    requires LBRACKET !in base && |indices| > 1 && (forall i :: i in indices ==> IsInt(i))
    requires rest == [] || rest[0] != LBRACKET
    ensures Resolve(env, symbols, base + PrintIndices(indices) + rest) == Err
  {
    PrintedPathHasField(base, indices, rest);
    ParsePrintedPath(base, indices, rest);
    hide HasFieldAfterIndex, ParseArrayAccess, PrintIndices;
  }

  // ---------- equal windows in a row ----------

  /** Where the i-th of a row of windows of one size starts. */
  function Nth(i: nat, size: nat): nat { i * size }

  lemma NthApart(i: nat, j: nat, size: nat)
    requires i < j
    ensures Nth(i, size) + size <= Nth(j, size)
  {
    assert (j - i - 1) * size >= 0;
  }

  lemma {:induction false} NthCovers(x: nat, n: nat, size: nat) returns (i: nat)
    requires x < Nth(n, size)
    ensures i < n && Nth(i, size) <= x < Nth(i, size) + size
  {
    if n == 0 {
      assert false;
    } else if x < Nth(n - 1, size) {
      i := NthCovers(x, n - 1, size);
    } else {
      i := n - 1;
    }
  }

  // ---------- zero-based one-dimensional arrays ----------

  /** base names an array of n elements of type t that fill its window, which ends below 2^32. */
  predicate IsArrayOf(env: Env, symbols: SymbolIndex, base: GoString, n: u32, t: TypeInfo) {
    && LBRACKET !in base && base in symbols
    && ElementTypeName(symbols[base].typ.name).Some?
    && env.lookup(ElementTypeName(symbols[base].typ.name).value) == Some(t)
    && Nth(n, t.size) == symbols[base].size
    && symbols[base].indexOffset + symbols[base].size <= U32_MODULUS
  }

  /** The window of the i-th element of an array symbol. */
  function ElementWindow(s: Symbol, t: TypeInfo, i: nat): Location
    requires s.indexOffset + Nth(i, t.size) < U32_MODULUS
  {
    Location(s.indexGroup, s.indexOffset + Nth(i, t.size), t.size)
  }

  lemma ElementInside(env: Env, symbols: SymbolIndex, base: GoString, n: u32, t: TypeInfo, i: nat)
    requires IsArrayOf(env, symbols, base, n, t) && i < n
    ensures symbols[base].indexOffset + Nth(i, t.size) + t.size <= symbols[base].indexOffset + symbols[base].size
    ensures ElementOffset(symbols[base], i, t) == symbols[base].indexOffset + Nth(i, t.size)
  {
    NthApart(i, n, t.size);
  }

  lemma OnlyIndex(base: GoString, i: int)
    requires LBRACKET !in base && IsInt(i)
    ensures !HasFieldAfterIndex(base + PrintIndex(i))
    ensures ParseArrayAccess(base + PrintIndex(i)) == Ok((base, [i]))
  {
    PrintedPathHasField(base, [i], []);
    ParsePrintedPath(base, [i], []);
    PrintIndicesStart([i]);
    hide HasFieldAfterIndex, ParseArrayAccess, PrintIndex, PrintIndices;
    assert base + PrintIndices([i]) + [] == base + PrintIndex(i);
    assert base + [] == base;
  }

  /** a[i] resolves to the i-th of n equal windows. */
  lemma ElementLocation(env: Env, symbols: SymbolIndex, base: GoString, n: u32, t: TypeInfo, i: nat)
    requires IsArrayOf(env, symbols, base, n, t) && i < n
    ensures symbols[base].indexOffset + Nth(i, t.size) < U32_MODULUS
    ensures Resolve(env, symbols, base + PrintIndex(i)) == Ok(ElementWindow(symbols[base], t, i))
  {
    hide HasFieldAfterIndex, ParseArrayAccess, PrintIndex, ElementTypeName, ElementOffset, Nth, Wrap32;
    ElementInside(env, symbols, base, n, t, i);
    OnlyIndex(base, i);
  }

  /** a[i].f resolves to the window of f inside the i-th element; only the start of an empty field at the very
      end of the address space wraps. */
  lemma FieldLocation(env: Env, symbols: SymbolIndex, base: GoString, n: u32, t: TypeInfo, i: nat, field: GoString)
    requires IsArrayOf(env, symbols, base, n, t) && i < n
    requires FieldIndex(t.fields, field) >= 0 && Inside(t.fields[FieldIndex(t.fields, field)], t.size)
    ensures var s, f := symbols[base], t.fields[FieldIndex(t.fields, field)];
            var start := s.indexOffset + Nth(i, t.size) + f.offset;
            && (start < U32_MODULUS || (start == U32_MODULUS && f.typ.size == 0))
            && Resolve(env, symbols, base + PrintIndex(i) + [DOT] + field)
               == Ok(Location(s.indexGroup, Wrap32(start), f.typ.size))
  {
    hide HasFieldAfterIndex, SplitArrayAndField, ParseArrayAccess, PrintIndex, ElementTypeName, ElementOffset, Nth,
         FieldIndex;
    ElementInside(env, symbols, base, n, t, i);
    SplitPrintedPath(base, i, field);
    OnlyIndex(base, i);
  }

  // ---------- the windows tile the symbol ----------

  predicate In(l: Location, group: u32, p: int) {
    group == l.group && l.offset <= p < l.offset + l.size
  }

  /** Byte p of a group belongs to what a path resolves to. */
  predicate Reaches(env: Env, symbols: SymbolIndex, path: GoString, group: u32, p: int) {
    Resolve(env, symbols, path).Ok? && In(Resolve(env, symbols, path).value, group, p)
  }

  lemma WholeArray(env: Env, symbols: SymbolIndex, base: GoString, n: u32, t: TypeInfo)
    requires IsArrayOf(env, symbols, base, n, t)
    ensures base in symbols && Nth(n, t.size) == symbols[base].size
    ensures Resolve(env, symbols, base)
            == Ok(Location(symbols[base].indexGroup, symbols[base].indexOffset, symbols[base].size))
  {
  }

  lemma WholeReaches(env: Env, symbols: SymbolIndex, base: GoString, n: u32, t: TypeInfo, group: u32, p: int)
    requires IsArrayOf(env, symbols, base, n, t)
    ensures base in symbols
    ensures Reaches(env, symbols, base, group, p) <==>
              group == symbols[base].indexGroup && 0 <= p - symbols[base].indexOffset < Nth(n, t.size)
  {
    hide Resolve, Nth, IsArrayOf;
    WholeArray(env, symbols, base, n, t);
  }

  lemma ElementReaches(env: Env, symbols: SymbolIndex, base: GoString, n: u32, t: TypeInfo, group: u32, p: int, i: nat)
    requires IsArrayOf(env, symbols, base, n, t) && i < n
    ensures base in symbols && Nth(i, t.size) + t.size <= Nth(n, t.size)
    ensures Reaches(env, symbols, base + PrintIndex(i), group, p) <==>
              group == symbols[base].indexGroup
              && Nth(i, t.size) <= p - symbols[base].indexOffset < Nth(i, t.size) + t.size
  {
    hide Resolve, PrintIndex, Nth, IsArrayOf;
    WholeArray(env, symbols, base, n, t);
    ElementLocation(env, symbols, base, n, t, i);
    NthApart(i, n, t.size);
  }

  /** Every byte of the array is a byte of exactly one element, and every element's byte is one of the
      array. */
  lemma WindowsTile(env: Env, symbols: SymbolIndex, base: GoString, n: u32, t: TypeInfo, group: u32, p: int)
    requires IsArrayOf(env, symbols, base, n, t)
    ensures Reaches(env, symbols, base, group, p) <==>
              exists i :: 0 <= i < n && Reaches(env, symbols, base + PrintIndex(i), group, p)
    ensures forall i, j | 0 <= i < j < n && Reaches(env, symbols, base + PrintIndex(i), group, p) ::
              !Reaches(env, symbols, base + PrintIndex(j), group, p)
  {
    hide Reaches, PrintIndex, Nth, IsArrayOf;
    WholeReaches(env, symbols, base, n, t, group, p);
    var x := p - symbols[base].indexOffset;
    forall i | 0 <= i < n
      ensures Reaches(env, symbols, base + PrintIndex(i), group, p) <==>
                group == symbols[base].indexGroup && Nth(i, t.size) <= x < Nth(i, t.size) + t.size
      ensures Nth(i, t.size) + t.size <= Nth(n, t.size)
    {
      ElementReaches(env, symbols, base, n, t, group, p, i);
    }
    forall i, j | 0 <= i < j < n
      ensures Nth(i, t.size) + t.size <= Nth(j, t.size)
    {
      NthApart(i, j, t.size);
    }
    if Reaches(env, symbols, base, group, p) {
      var i := NthCovers(x, n, t.size);
      assert Reaches(env, symbols, base + PrintIndex(i), group, p);
    }
  }

  // ---------- reading and writing elements ----------

  /** The bytes of memory a window asks for. */
  function BytesAt(memory: seq<byte>, l: Location): (bs: seq<byte>)
    requires l.offset + l.size <= |memory|
    ensures |bs| == l.size
  {
    memory[l.offset..l.offset + l.size]
  }

  /** The i-th slice of a whole array's bytes. */
  function ElementBytes(data: seq<byte>, i: nat, size: nat): (bs: seq<byte>)
    requires Nth(i, size) + size <= |data|
    ensures |bs| == size
  {
    data[Nth(i, size)..Nth(i, size) + size]
  }

  lemma InnerSlice(s: seq<byte>, a: nat, n: nat, b: nat, m: nat)
    requires a + n <= |s| && b + m <= n
    ensures s[a..a + n][b..b + m] == s[a + b..a + b + m]
  {
    var inner := s[a..a + n][b..b + m];
    assert forall i :: 0 <= i < m ==> inner[i] == s[a + b + i];
  }

  lemma NestedSlice(s: seq<byte>, a: nat, n: nat, b: nat, m: nat, c: nat, k: nat)
    requires a + n <= |s| && b + m <= n && c + k <= m
    ensures s[a..a + n][b..b + m][c..c + k] == s[a + b + c..a + b + c + k]
  {
    InnerSlice(s, a, n, b, m);
    InnerSlice(s, a + b, m, c, k);
  }

  /** Reading a[i] reads the i-th slice of what reading a does. */
  lemma ReadElement(env: Env, symbols: SymbolIndex, base: GoString, n: u32, t: TypeInfo, i: nat, memory: seq<byte>)
    requires IsArrayOf(env, symbols, base, n, t) && i < n
    requires symbols[base].indexOffset + symbols[base].size <= |memory|
    ensures var whole, element := Resolve(env, symbols, base), Resolve(env, symbols, base + PrintIndex(i));
            && whole.Ok? && whole.value.offset + whole.value.size <= |memory|
            && element.Ok? && element.value.offset + element.value.size <= |memory|
            && Nth(i, t.size) + t.size <= whole.value.size
            && BytesAt(memory, element.value) == ElementBytes(BytesAt(memory, whole.value), i, t.size)
  {
    hide Resolve, PrintIndex, Nth, IsArrayOf;
    WholeArray(env, symbols, base, n, t);
    ElementLocation(env, symbols, base, n, t, i);
    ElementInside(env, symbols, base, n, t, i);
    var s := symbols[base];
    InnerSlice(memory, s.indexOffset, s.size, Nth(i, t.size), t.size);
  }

  lemma FieldOfElement(memory: seq<byte>, whole: Location, part: Location, i: nat, size: nat, f: FieldInfo)
    requires whole.offset + whole.size <= |memory| && Nth(i, size) + size <= whole.size && Inside(f, size)
    requires part.offset == Wrap32(whole.offset + Nth(i, size) + f.offset) && part.size == f.typ.size
    requires whole.offset + Nth(i, size) + f.offset < U32_MODULUS
             || (whole.offset + Nth(i, size) + f.offset == U32_MODULUS && f.typ.size == 0)
    ensures part.offset + part.size <= |memory|
    ensures BytesAt(memory, part) == FieldBytes(ElementBytes(BytesAt(memory, whole), i, size), f)
  {
    hide Nth;
    NestedSlice(memory, whole.offset, whole.size, Nth(i, size), size, f.offset, f.typ.size);
  }

  /** Reading a[i].f reads the bytes the struct parser takes for f from the i-th slice. */
  lemma ReadElementField(env: Env, symbols: SymbolIndex, base: GoString, n: u32, t: TypeInfo, i: nat,
                         field: GoString, memory: seq<byte>)
    requires IsArrayOf(env, symbols, base, n, t) && i < n
    requires symbols[base].indexOffset + symbols[base].size <= |memory|
    requires FieldIndex(t.fields, field) >= 0 && Inside(t.fields[FieldIndex(t.fields, field)], t.size)
    ensures var whole := Resolve(env, symbols, base);
            var part := Resolve(env, symbols, base + PrintIndex(i) + [DOT] + field);
            && whole.Ok? && whole.value.offset + whole.value.size <= |memory|
            && part.Ok? && part.value.offset + part.value.size <= |memory|
            && Nth(i, t.size) + t.size <= whole.value.size
            && BytesAt(memory, part.value)
               == FieldBytes(ElementBytes(BytesAt(memory, whole.value), i, t.size),
                             t.fields[FieldIndex(t.fields, field)])
  {
    hide Resolve, PrintIndex, Nth, IsArrayOf, FieldIndex;
    WholeArray(env, symbols, base, n, t);
    FieldLocation(env, symbols, base, n, t, i, field);
    ElementInside(env, symbols, base, n, t, i);
    var s, f := symbols[base], t.fields[FieldIndex(t.fields, field)];
    var whole := Location(s.indexGroup, s.indexOffset, s.size);
    var part := Location(s.indexGroup, Wrap32(s.indexOffset + Nth(i, t.size) + f.offset), f.typ.size);
    FieldOfElement(memory, whole, part, i, t.size, f);
    hide BytesAt, ElementBytes, FieldBytes, Inside;
  }

  /** Writing a[i] changes what reading a[i] gives, and nothing that reading a[j] does. */
  lemma WriteElement(env: Env, symbols: SymbolIndex, base: GoString, n: u32, t: TypeInfo, i: nat, j: nat,
                     memory: seq<byte>, data: seq<byte>)
    requires IsArrayOf(env, symbols, base, n, t) && i < n && j < n
    requires symbols[base].indexOffset + symbols[base].size <= |memory| && |data| == t.size
    ensures var written := Resolve(env, symbols, base + PrintIndex(i));
            var read := Resolve(env, symbols, base + PrintIndex(j));
            && written.Ok? && written.value.offset <= |memory|
            && read.Ok? && read.value.offset + read.value.size <= |memory|
            && BytesAt(Overlay(memory, written.value.offset, data), read.value)
               == if i == j then data else BytesAt(memory, read.value)
  {
    hide Resolve, PrintIndex, Nth, IsArrayOf;
    ElementLocation(env, symbols, base, n, t, i);
    ElementInside(env, symbols, base, n, t, i);
    ElementLocation(env, symbols, base, n, t, j);
    ElementInside(env, symbols, base, n, t, j);
    if i < j {
      NthApart(i, j, t.size);
    } else if j < i {
      NthApart(j, i, t.size);
    }
  }
}
