/** Array type names: ARRAY [0..n-1] OF element. */
module ArrayTypes {
  import opened Bytes
  import opened Outcomes
  import opened Text
  import SymbolParser

  /** extractArrayElementType: what follows the first " OF ", trimmed. */
  function ElementTypeName(typeName: GoString): Option<GoString> {
    var of := Index(typeName, Ascii(" OF "));
    if of == -1 then None else Some(TrimSpace(typeName[of + 4..]))
  }

  /** getElementTypeName. */
  function ElementOrSelf(typeName: GoString): GoString {
    match ElementTypeName(typeName)
    case Some(name) => name
    case None => typeName
  }

  /** The name of a zero-based one-dimensional array of n elements. */
  function ArrayName(n: nat, element: GoString): GoString
    requires n > 0
  {
    Ascii("ARRAY [") + Range(n) + Ascii("] OF ") + element
  }

  /** 0..n-1 */
  function Range(n: nat): (s: GoString)
    requires n > 0
    ensures forall i :: 0 <= i < |s| ==> IsDigit(s[i]) || s[i] == DOT
    ensures |s| >= 4
  {
    [48, DOT, DOT] + PrintNat(n - 1)
  }

  predicate IsTrimmed(s: GoString) {
    s != [] && !IsSpace(s[0]) && !IsSpace(s[|s| - 1])
  }

  lemma TrimTrimmed(s: GoString)
    requires IsTrimmed(s)
    ensures TrimSpace(s) == s
  {
  }

  lemma FirstIndex(s: GoString, sub: GoString, i: nat)
    requires OccursAt(s, sub, i) && forall j :: 0 <= j < i ==> !OccursAt(s, sub, j)
    ensures Index(s, sub) == i
  {
  }

  /** The element type of an array's name. */
  lemma ElementOfArrayName(n: nat, element: GoString)
    requires n > 0 && IsTrimmed(element)
    ensures ElementTypeName(ArrayName(n, element)) == Some(element)
  {
    var name := ArrayName(n, element);
    var sub := Ascii(" OF ");
    var at: nat := 8 + |Range(n)|;
    assert name[at..at + 4] == sub;
    assert OccursAt(name, sub, at);
    forall j | 0 <= j < at
      ensures !OccursAt(name, sub, j)
    {
      assert name[j] != 32 || name[j + 1] != 79;
    }
    FirstIndex(name, sub, at);
    assert name[at + 4..] == element;
    TrimTrimmed(element);
  }

  lemma NeverOccurs(s: GoString, b: byte)
    requires b !in s
    ensures Split(s, [b]) == [s]
  {
    forall j | 0 <= j < |s|
      ensures !OccursAt(s, [b], j)
    {
      assert s[j] in s && s[j..j + 1] == [s[j]];
    }
  }

  lemma DigitsHaveNoDots(digits: GoString)
    requires forall i :: 0 <= i < |digits| ==> IsDigit(digits[i])
    ensures Split(digits, [DOT, DOT]) == [digits]
  {
    forall j | 0 <= j <= |digits| - 2
      ensures !OccursAt(digits, [DOT, DOT], j)
    {
      assert digits[j..j + 2][0] != DOT;
    }
  }

  predicate AllDigits(s: GoString) {
    forall i :: 0 <= i < |s| ==> IsDigit(s[i])
  }

  lemma FirstDots(low: GoString, high: GoString)
    requires AllDigits(low)
    ensures Index(low + [DOT, DOT] + high, [DOT, DOT]) == |low|
  {
    var s := low + [DOT, DOT] + high;
    assert s[|low|..|low| + 2] == [DOT, DOT];
    forall j | 0 <= j < |low|
      ensures !OccursAt(s, [DOT, DOT], j)
    {
      assert s[j..j + 2][0] == low[j] != DOT;
    }
    FirstIndex(s, [DOT, DOT], |low|);
  }

  /** Splitting low..high at the dots gives the two bounds. */
  lemma SplitRange(low: GoString, high: GoString)
    requires AllDigits(low) && AllDigits(high)
    ensures Split(low + [DOT, DOT] + high, [DOT, DOT]) == [low, high]
  {
    hide Index, Split;
    var s := low + [DOT, DOT] + high;
    FirstDots(low, high);
    DigitsHaveNoDots(high);
    SplitAtFirst(s, [DOT, DOT]);
    assert s[..|low|] == low && s[|low| + 2..] == high;
  }

  lemma SplitAtFirst(s: GoString, sep: GoString)
    requires sep != [] && Index(s, sep) != -1
    ensures Split(s, sep) == [s[..Index(s, sep)]] + Split(s[Index(s, sep) + |sep|..], sep)
  {
    hide Index;
  }

  lemma ScanPrinted(n: nat)
    requires n < U32_MODULUS
    ensures SymbolParser.ScanBound(PrintNat(n)) == n
  {
    ScanPrintedDigits(n, []);
    assert PrintNat(n) + [] == PrintNat(n);
  }

  lemma Brackets(pre: GoString, inner: GoString, post: GoString)
    requires LBRACKET !in pre && RBRACKET !in pre && RBRACKET !in inner
    ensures var s := pre + [LBRACKET] + inner + [RBRACKET] + post;
            && IndexByte(s, LBRACKET) == |pre|
            && IndexByte(s, RBRACKET) == |pre| + 1 + |inner|
            && s[|pre| + 1..|pre| + 1 + |inner|] == inner
  {
    hide IndexByte;
    var s := pre + [LBRACKET] + inner + [RBRACKET] + post;
    assert s == pre + [LBRACKET] + (inner + [RBRACKET] + post);
    IndexByteAfter(pre, LBRACKET, inner + [RBRACKET] + post);
    IndexByteAfter(pre + [LBRACKET] + inner, RBRACKET, post);
  }

  /** The ranges of an array's dimensions, as they are printed between the brackets. */
  datatype Bounds = Bounds(low: u32, high: u32)

  function PrintBounds(r: Bounds): (s: GoString)
    ensures |s| >= 4 && IsTrimmed(s)
    ensures SymbolParser.COMMA !in s && LBRACKET !in s && RBRACKET !in s
  {
    PrintNat(r.low) + [DOT, DOT] + PrintNat(r.high)
  }

  function PrintRanges(rs: seq<Bounds>): (s: GoString)
    requires rs != []
    ensures LBRACKET !in s && RBRACKET !in s
  {
    if |rs| == 1 then PrintBounds(rs[0]) else PrintBounds(rs[0]) + [SymbolParser.COMMA] + PrintRanges(rs[1..])
  }

  /** ARRAY [low1..high1,...,lown..highn] OF element */
  function RangesName(rs: seq<Bounds>, element: GoString): GoString
    requires rs != []
  {
    Ascii("ARRAY [") + PrintRanges(rs) + Ascii("] OF ") + element
  }

  /** How many indices a range has, in uint32 arithmetic. */
  function Extent(r: Bounds): u32 { (r.high - r.low + 1) % 0x1_0000_0000 }

  function Extents(rs: seq<Bounds>): (dims: seq<u32>)
    ensures |dims| == |rs|
  {
    seq(|rs|, i requires 0 <= i < |rs| => Extent(rs[i]))
  }

  lemma RangesBrackets(rs: seq<Bounds>, element: GoString)
    requires rs != []
    ensures RangesName(rs, element)
            == Ascii("ARRAY ") + [LBRACKET] + PrintRanges(rs) + [RBRACKET] + (Ascii(" OF ") + element)
  {
    hide PrintRanges;
    assert Ascii("ARRAY [") == Ascii("ARRAY ") + [LBRACKET];
    assert Ascii("] OF ") == [RBRACKET] + Ascii(" OF ");
  }

  function PrintedRanges(rs: seq<Bounds>): (parts: seq<GoString>)
    ensures |parts| == |rs|
  {
    seq(|rs|, i requires 0 <= i < |rs| => PrintBounds(rs[i]))
  }

  lemma {:induction false} SplitRanges(rs: seq<Bounds>)
    requires rs != []
    ensures Split(PrintRanges(rs), [SymbolParser.COMMA]) == PrintedRanges(rs)
  {
    hide Split, Index, PrintBounds;
    var comma := SymbolParser.COMMA;
    if |rs| == 1 {
      NeverOccurs(PrintBounds(rs[0]), comma);
      assert PrintedRanges(rs) == [PrintBounds(rs[0])];
    } else {
      var first, rest := PrintBounds(rs[0]), PrintRanges(rs[1..]);
      FirstComma(first, rest);
      SplitAtFirst(first + [comma] + rest, [comma]);
      assert (first + [comma] + rest)[..|first|] == first;
      assert (first + [comma] + rest)[|first| + 1..] == rest;
      SplitRanges(rs[1..]);
      assert PrintedRanges(rs) == [first] + PrintedRanges(rs[1..]);
    }
  }

  lemma FirstComma(first: GoString, rest: GoString)
    requires SymbolParser.COMMA !in first
    ensures Index(first + [SymbolParser.COMMA] + rest, [SymbolParser.COMMA]) == |first|
  {
    var comma := SymbolParser.COMMA;
    var s := first + [comma] + rest;
    assert s[|first|..|first| + 1] == [comma];
    forall j | 0 <= j < |first|
      ensures !OccursAt(s, [comma], j)
    {
      assert s[j..j + 1] == [first[j]] && first[j] in first;
    }
    FirstIndex(s, [comma], |first|);
  }

  lemma OneExtent(r: Bounds, more: seq<GoString>)
    ensures SymbolParser.RangeDims([PrintBounds(r)] + more)
            == [Extent(r)] + SymbolParser.RangeDims(more)
  {
    hide Split, TrimSpace, PrintNat, SymbolParser.ScanBound;
    TrimTrimmed(PrintBounds(r));
    SplitRange(PrintNat(r.low), PrintNat(r.high));
    ScanPrinted(r.low);
    ScanPrinted(r.high);
    var whole := [PrintBounds(r)] + more;
    assert whole[0] == PrintBounds(r) && whole[1..] == more;
  }

  lemma {:induction false} DimsOfRanges(rs: seq<Bounds>)
    ensures SymbolParser.RangeDims(PrintedRanges(rs)) == Extents(rs)
  {
    hide PrintBounds, Extent, SymbolParser.ScanBound, Split, TrimSpace;
    if rs == [] {
    } else {
      assert PrintedRanges(rs) == [PrintBounds(rs[0])] + PrintedRanges(rs[1..]);
      OneExtent(rs[0], PrintedRanges(rs[1..]));
      DimsOfRanges(rs[1..]);
      assert Extents(rs) == [Extent(rs[0])] + Extents(rs[1..]);
    }
  }

  lemma DimsBetween(name: GoString, start: nat, inner: GoString)
    requires IndexByte(name, LBRACKET) == start && IndexByte(name, RBRACKET) == start + 1 + |inner|
    requires name[start + 1..start + 1 + |inner|] == inner
    ensures SymbolParser.ArrayDims(name) == Ok(SymbolParser.RangeDims(Split(inner, [SymbolParser.COMMA])))
  {
    hide IndexByte, Split, SymbolParser.RangeDims;
  }

  lemma PrefixHasNoBrackets()
    ensures LBRACKET !in Ascii("ARRAY ") && RBRACKET !in Ascii("ARRAY ")
  {
  }

  /** The dimensions of an array's name. */
  lemma DimsOfArrayName(rs: seq<Bounds>, element: GoString)
    requires rs != []
    ensures SymbolParser.ArrayDims(RangesName(rs, element)) == Ok(Extents(rs))
  {
    hide IndexByte, Split, PrintRanges, Ascii, RangesName, SymbolParser.RangeDims, SymbolParser.ArrayDims;
    RangesBrackets(rs, element);
    PrefixHasNoBrackets();
    Brackets(Ascii("ARRAY "), PrintRanges(rs), Ascii(" OF ") + element);
    DimsBetween(RangesName(rs, element), 6, PrintRanges(rs));
    SplitRanges(rs);
    DimsOfRanges(rs);
  }

  /** A symbol whose type is named so is parsed as an array with one dimension for each range, of as many
      indices as the range has. */
  lemma ParsedRanges(rs: seq<Bounds>, element: GoString, dt: u32, size: u32)
    requires rs != []
    ensures var r := SymbolParser.ParseTypeInfo(RangesName(rs, element), dt, size);
            && r.Ok? && r.value.isArray && r.value.arrayDims == Extents(rs) && r.value.size == size
            && r.value.name == RangesName(rs, element) && r.value.baseType == dt
  {
    var name := RangesName(rs, element);
    assert OccursAt(name, Ascii("ARRAY"), 0) by {
      hide PrintRanges;
      assert Ascii("ARRAY [")[0..5] == Ascii("ARRAY");
    }
    assert Index(name, Ascii("ARRAY")) != -1;
    hide RangesName, Ascii, SymbolParser.ArrayDims, Index;
    DimsOfArrayName(rs, element);
  }

  lemma ArrayNameRanges(n: nat, element: GoString)
    requires 0 < n < U32_MODULUS
    ensures ArrayName(n, element) == RangesName([Bounds(0, n - 1)], element)
    ensures Extents([Bounds(0, n - 1)]) == [n]
  {
    hide Ascii;
    PrintZero();
    assert Range(n) == PrintRanges([Bounds(0, n - 1)]);
  }

  lemma PrintZero()
    ensures PrintNat(0) == [48]
  {
  }

  /** A symbol whose type is named so is parsed as a one-dimensional array of n elements of that type. */
  lemma ParsedArrayType(n: nat, element: GoString, dt: u32, size: u32)
    requires 0 < n < U32_MODULUS && IsTrimmed(element)
    ensures var r := SymbolParser.ParseTypeInfo(ArrayName(n, element), dt, size);
            && r.Ok? && r.value.isArray && r.value.arrayDims == [n] && r.value.size == size
            && ElementTypeName(r.value.name) == Some(element)
  {
    hide ArrayName, Ascii, ElementTypeName, RangesName, Extents, SymbolParser.ParseTypeInfo;
    ArrayNameRanges(n, element);
    ParsedRanges([Bounds(0, n - 1)], element, dt, size);
    ElementOfArrayName(n, element);
  }

  // ---------- describing a type ----------

  /** How the symbol parser describes a type: by its name, data type and size; as an array when ARRAY occurs in
      the name; and as a struct unless its data type is a number, a BOOL or a BIT. A text (30) counts as one. */
  lemma DescribedType(typeName: GoString, dt: u32, size: u32)
    ensures var r := SymbolParser.ParseTypeInfo(typeName, dt, size);
            r.Ok? ==>
              && r.value.name == typeName && r.value.baseType == dt && r.value.size == size && r.value.fields == []
              && (r.value.isStruct <==> dt !in {16, 17, 2, 18, 3, 19, 20, 21, 4, 5, 33, 1})
              && (r.value.isArray <==> exists i :: OccursAt(typeName, Ascii("ARRAY"), i))
              && (!r.value.isArray ==> r.value.arrayDims == [])
  {
    SymbolParser.IndexFinds(typeName, Ascii("ARRAY"));
    hide Ascii, Index, SymbolParser.ArrayDims;
  }

  /** The element type of any name: what follows the first " OF ", without the white space around it. */
  lemma ElementOfName(pre: GoString, element: GoString)
    requires forall j :: 0 <= j < |pre| ==> !OccursAt(pre + Ascii(" OF ") + element, Ascii(" OF "), j)
    ensures ElementTypeName(pre + Ascii(" OF ") + element) == Some(TrimSpace(element))
  {
    var sub := Ascii(" OF ");
    var name := pre + sub + element;
    assert name[|pre|..|pre| + 4] == sub;
    FirstIndex(name, sub, |pre|);
    assert name[|pre| + 4..] == element;
    hide Ascii, TrimSpace;
  }

  lemma NoElementType(name: GoString)
    requires forall j :: !OccursAt(name, Ascii(" OF "), j)
    ensures ElementTypeName(name) == None && ElementOrSelf(name) == name
  {
    hide Ascii;
  }
}
