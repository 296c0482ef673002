/** The uploaded symbol table: length-prefixed entries, each with three NUL-terminated names. */
module SymbolParser {
  import opened Bytes
  import opened Outcomes
  import opened Text
  import opened Types

  datatype Symbol = Symbol(
    name: GoString, typ: TypeInfo, indexGroup: u32, indexOffset: u32, size: u32, flags: u32, comment: GoString)

  // ---------- strings and type names ----------

  /** Up to the first NUL. */
  function ParseString(bs: seq<byte>): (s: GoString)
    ensures 0 !in s
  {
    if bs == [] || bs[0] == 0 then [] else [bs[0]] + ParseString(bs[1..])
  }

  lemma {:induction false} ParseTerminated(s: GoString, rest: seq<byte>)
    requires 0 !in s
    ensures ParseString(s + [0] + rest) == s
  {
    if s == [] {
    } else {
      ParseTerminated(s[1..], rest);
      assert (s + [0] + rest)[1..] == s[1..] + [0] + rest;
    }
  }

  predicate IsSimpleType(dt: DataType) {
    dt in {INT8, UINT8, INT16, UINT16, INT32, UINT32, INT64, UINT64, REAL32, REAL64, BOOL, BIT}
  }

  /** A scan into a uint32, leaving 0 when it fails. */
  function ScanBound(s: GoString): u32 {
    match ScanNat(SkipBlanks(s), U32_MODULUS)
    case Some(n) => n
    case None => 0
  }

  /** The dimensions of the ranges low..high; anything else in the list is skipped. */
  function RangeDims(ranges: seq<GoString>): seq<u32> {
    if ranges == [] then []
    else
      var parts := Split(TrimSpace(ranges[0]), [DOT, DOT]);
      (if |parts| == 2 then [Wrap32(ScanBound(parts[1]) - ScanBound(parts[0]) + 1)] else [])
      + RangeDims(ranges[1..])
  }

  const COMMA: byte := 44

  /** parseArrayDimensions: a closing bracket before the opening one makes the slice panic. */
  function ArrayDims(typeName: GoString): Outcome<seq<u32>> {
    var start := IndexByte(typeName, LBRACKET);
    var end := IndexByte(typeName, RBRACKET);
    if start == -1 || end == -1 then Ok([])
    else if end < start + 1 then Panic
    else Ok(RangeDims(Split(typeName[start + 1..end], [COMMA])))
  }

  function ParseTypeInfo(typeName: GoString, dt: DataType, size: u32): (r: Outcome<TypeInfo>)
    ensures r.Ok? ==> r.value.name == typeName && r.value.baseType == dt && r.value.size == size
                      && r.value.fields == []
  {
    var isArray := Index(typeName, Ascii("ARRAY")) != -1;
    var isStruct := dt == BIG_TYPE || !IsSimpleType(dt);
    if isArray then
      match ArrayDims(typeName)
      case Ok(dims) => Ok(TypeInfo(typeName, dt, size, dims, true, isStruct, []))
      case Err => Err
      case Panic => Panic
    else Ok(TypeInfo(typeName, dt, size, [], false, isStruct, []))
  }

  // ---------- one entry ----------

  /** A NUL-terminated name of n bytes at offset so of an entry of len bytes, in a window that reaches
      to the end of the upload: the check uses the entry, the slice may use one byte more. */
  function NameAt(w: seq<byte>, len: nat, so: nat, n: nat): Outcome<GoString>
    requires len <= |w|
  {
    if so + n > len then Err
    else if so + n + 1 > |w| then Panic
    else Ok(ParseString(w[so..so + n + 1]))
  }

  function NameLen(w: seq<byte>): u16
    requires |w| >= 30
  {
    Get16(w[24..26])
  }

  function TypeLen(w: seq<byte>): u16
    requires |w| >= 30
  {
    Get16(w[26..28])
  }

  function CommentLen(w: seq<byte>): u16
    requires |w| >= 30
  {
    Get16(w[28..30])
  }

  function MakeSymbol(w: seq<byte>, name: GoString, typeName: GoString, comment: GoString): Outcome<Symbol>
    requires |w| >= 30
  {
    match ParseTypeInfo(typeName, Get32(w[16..20]), Get32(w[12..16]))
    case Ok(t) => Ok(Symbol(name, t, Get32(w[4..8]), Get32(w[8..12]), Get32(w[12..16]), Get32(w[20..24]), comment))
    case Err => Err
    case Panic => Panic
  }

  /** parseSymbolEntry on the first len bytes of a window. */
  function ParseEntry(w: seq<byte>, len: nat): (r: Outcome<Symbol>)
    requires len <= |w|
    ensures r.Ok? ==> len >= 30
  {
    if len < 30 then Err
    else
      var so1: nat := 30;
      match NameAt(w, len, so1, NameLen(w))
      case Err => Err
      case Panic => Panic
      case Ok(name) =>
        var so2 := so1 + NameLen(w) as int + 1;
        match NameAt(w, len, so2, TypeLen(w))
        case Err => Err
        case Panic => Panic
        case Ok(typeName) =>
          var so3 := so2 + TypeLen(w) as int + 1;
          match NameAt(w, len, so3, CommentLen(w))
          case Err => Err
          case Panic => Panic
          case Ok(comment) => MakeSymbol(w, name, typeName, comment)
  }

  // ---------- the table ----------

  /** The entries from here to the end: a zero length or fewer than four bytes end the table. Every
      parsed entry accounts for at least 30 bytes of input. */
  function ParseEntries(s: seq<byte>): (r: Outcome<seq<Symbol>>)
    ensures r.Ok? ==> 30 * |r.value| <= |s|
    decreases |s|
  {
    if |s| < 4 then Ok([])
    else
      var len := Get32(s[0..4]);
      if len == 0 then Ok([])
      else if len > |s| then Err
      else
        match ParseEntry(s, len)
        case Err => Err
        case Panic => Panic
        case Ok(symbol) =>
          match ParseEntries(s[len..])
          case Err => Err
          case Panic => Panic
          case Ok(rest) => Ok([symbol] + rest)
  }

  function ParseTable(data: seq<byte>): Outcome<seq<Symbol>> {
    if data == [] then Err else ParseEntries(data)
  }

  // ---------- the printed form ----------

  datatype Entry = Entry(
    indexGroup: u32, indexOffset: u32, size: u32, dataType: u32, flags: u32,
    name: GoString, typeName: GoString, comment: GoString, padding: seq<byte>)

  predicate WellFormed(e: Entry) {
    && 0 !in e.name && 0 !in e.typeName && 0 !in e.comment
    && |e.name| < 0x1_0000 && |e.typeName| < 0x1_0000 && |e.comment| < 0x1_0000
    && EntrySize(e) < U32_MODULUS
    && ParseTypeInfo(e.typeName, e.dataType, e.size).Ok?
  }

  function EntrySize(e: Entry): nat {
    33 + |e.name| + |e.typeName| + |e.comment| + |e.padding|
  }

  function PrintHead(e: Entry): (bs: seq<byte>)
    requires WellFormed(e)
    ensures |bs| == 30
  {
    Put32(EntrySize(e)) + Put32(e.indexGroup) + Put32(e.indexOffset) + Put32(e.size) + Put32(e.dataType)
    + Put32(e.flags) + Put16(|e.name|) + Put16(|e.typeName|) + Put16(|e.comment|)
  }

  function PrintEntry(e: Entry): (bs: seq<byte>)
    requires WellFormed(e)
    ensures |bs| == EntrySize(e)
  {
    PrintHead(e) + e.name + [0] + e.typeName + [0] + e.comment + [0] + e.padding
  }

  function PrintEntries(es: seq<Entry>): seq<byte>
    requires forall e :: e in es ==> WellFormed(e)
  {
    if es == [] then [] else PrintEntry(es[0]) + PrintEntries(es[1..])
  }

  function SymbolOf(e: Entry): Symbol
    requires WellFormed(e)
  {
    Symbol(e.name, ParseTypeInfo(e.typeName, e.dataType, e.size).value,
           e.indexGroup, e.indexOffset, e.size, e.flags, e.comment)
  }

  function SymbolsOf(es: seq<Entry>): (ss: seq<Symbol>)
    requires forall e :: e in es ==> WellFormed(e)
    ensures |ss| == |es|
  {
    seq(|es|, i requires 0 <= i < |es| => SymbolOf(es[i]))
  }

  lemma HeadFields(e: Entry, post: seq<byte>)
    requires WellFormed(e)
    ensures var w := PrintHead(e) + post;
            && Get32(w[0..4]) == EntrySize(e)
            && Get32(w[4..8]) == e.indexGroup && Get32(w[8..12]) == e.indexOffset
            && Get32(w[12..16]) == e.size && Get32(w[16..20]) == e.dataType && Get32(w[20..24]) == e.flags
            && Get16(w[24..26]) == |e.name| && Get16(w[26..28]) == |e.typeName| && Get16(w[28..30]) == |e.comment|
  {
    hide Put16, Put32, Get16, Get32, WellFormed;
    var w := PrintHead(e) + post;
    assert w[0..4] == Put32(EntrySize(e));
    assert w[4..8] == Put32(e.indexGroup);
    assert w[8..12] == Put32(e.indexOffset);
    assert w[12..16] == Put32(e.size);
    assert w[16..20] == Put32(e.dataType);
    assert w[20..24] == Put32(e.flags);
    assert w[24..26] == Put16(|e.name|);
    assert w[26..28] == Put16(|e.typeName|);
    assert w[28..30] == Put16(|e.comment|);
  }

  lemma NameBetween(pre: seq<byte>, s: GoString, post: seq<byte>, len: nat)
    requires 0 !in s && |pre| + |s| < len <= |pre + s + [0] + post|
    ensures NameAt(pre + s + [0] + post, len, |pre|, |s|) == Ok(s)
  {
    var w := pre + s + [0] + post;
    assert w[|pre|..|pre| + |s| + 1] == s + [0] + [];
    ParseTerminated(s, []);
  }

  lemma ParsePrintedEntry(e: Entry, post: seq<byte>)
    requires WellFormed(e)
    ensures ParseEntry(PrintEntry(e) + post, EntrySize(e)) == Ok(SymbolOf(e))
  {
    hide Put16, Put32, Get16, Get32, PrintHead, ParseTypeInfo, NameAt;
    var w := PrintEntry(e) + post;
    var len := EntrySize(e);
    var head := PrintHead(e);
    var tail3 := e.padding + post;
    var tail2 := e.comment + [0] + tail3;
    var tail1 := e.typeName + [0] + tail2;
    assert w == head + (e.name + [0] + tail1);
    HeadFields(e, e.name + [0] + tail1);
    assert w == head + e.name + [0] + tail1;
    NameBetween(head, e.name, tail1, len);
    var pre2 := head + e.name + [0];
    assert w == pre2 + e.typeName + [0] + tail2;
    NameBetween(pre2, e.typeName, tail2, len);
    var pre3 := pre2 + e.typeName + [0];
    assert w == pre3 + e.comment + [0] + tail3;
    NameBetween(pre3, e.comment, tail3, len);
  }

  /** What may follow the last entry: fewer than four bytes, or a zero length and anything. */
  predicate EndsTable(tail: seq<byte>) {
    |tail| < 4 || Get32(tail[0..4]) == 0
  }

  /** Parsing a printed table recovers exactly its entries, padding or not. */
  lemma {:induction false} ParsePrinted(es: seq<Entry>, tail: seq<byte>)
    requires (forall e :: e in es ==> WellFormed(e)) && EndsTable(tail)
    ensures ParseEntries(PrintEntries(es) + tail) == Ok(SymbolsOf(es))
  {
    hide Get32, PrintEntry, ParseEntry, WellFormed, SymbolOf;
    if es == [] {
      assert PrintEntries(es) + tail == tail;
    } else {
      var e := es[0];
      var others := PrintEntries(es[1..]) + tail;
      var s := PrintEntries(es) + tail;
      assert s == PrintEntry(e) + others;
      ParsePrintedEntry(e, others);
      EntryLength(e, others);
      assert s[EntrySize(e)..] == others;
      ParsePrinted(es[1..], tail);
      assert SymbolsOf(es) == [SymbolOf(e)] + SymbolsOf(es[1..]);
    }
  }

  lemma EntryLength(e: Entry, post: seq<byte>)
    requires WellFormed(e)
    ensures Get32((PrintEntry(e) + post)[0..4]) == EntrySize(e)
  {
    hide Get32, PrintHead;
    var rest := e.name + [0] + e.typeName + [0] + e.comment + [0] + e.padding + post;
    assert PrintEntry(e) + post == PrintHead(e) + rest;
    HeadFields(e, rest);
  }

  /** The upload as a whole; an empty one is an error. */
  lemma TableRoundTrip(es: seq<Entry>, tail: seq<byte>)
    requires (forall e :: e in es ==> WellFormed(e)) && EndsTable(tail)
    ensures ParseTable(PrintEntries(es) + tail)
            == if es == [] && tail == [] then Err else Ok(SymbolsOf(es))
  {
    ParsePrinted(es, tail);
    if es != [] {
      assert |PrintEntry(es[0])| >= 33;
    }
  }

  // ---------- when parsing panics ----------

  /** ARRAY occurs in the name, and a closing bracket comes before the first opening one. */
  ghost predicate BracketsReversed(name: GoString) {
    && (exists i :: OccursAt(name, Ascii("ARRAY"), i))
    && LBRACKET in name
    && exists i :: 0 <= i < |name| && name[i] == RBRACKET && LBRACKET !in name[..i]
  }

  lemma TypeInfoPanics(typeName: GoString, dt: DataType, size: u32)
    ensures ParseTypeInfo(typeName, dt, size) != Err
    ensures ParseTypeInfo(typeName, dt, size) == Panic <==> BracketsReversed(typeName)
  {
    var start, end := IndexByte(typeName, LBRACKET), IndexByte(typeName, RBRACKET);
    IndexFinds(typeName, Ascii("ARRAY"));
    hide IndexByte, RangeDims, Ascii, Index, OccursAt;
    if start != -1 && end != -1 {
      assert end != start;
      if end < start {
        assert typeName[end] == RBRACKET && LBRACKET !in typeName[..end];
      }
      forall i | 0 <= i < |typeName| && typeName[i] == RBRACKET && LBRACKET !in typeName[..i]
        ensures end < start
      {
        assert i <= start;
        assert end <= i;
      }
    }
  }

  lemma IndexFinds(s: GoString, sub: GoString)
    ensures Index(s, sub) != -1 <==> exists i :: OccursAt(s, sub, i)
  {
    if exists i :: OccursAt(s, sub, i) {
      var i :| OccursAt(s, sub, i);
      assert 0 <= i;
    }
  }

  /** Where each of the three names of an entry ends: its terminator should stand there. */
  function NameEnd(w: seq<byte>, k: nat): nat
    requires |w| >= 30 && k < 3
  {
    match k
    case 0 => 30 + NameLen(w) as int
    case 1 => 30 + NameLen(w) as int + 1 + TypeLen(w) as int
    case _ => 30 + NameLen(w) as int + 1 + TypeLen(w) as int + 1 + CommentLen(w) as int
  }

  /** The entry ends the upload, and the upload ends where the terminator of one of its names should
      stand; or its names are there, and the type's has its brackets the wrong way round. */
  ghost predicate EntryPanics(w: seq<byte>, len: nat)
    requires len <= |w|
  {
    && len >= 30
    && (|| (exists k: nat | k < 3 :: NameEnd(w, k) == len == |w|)
        || (NameEnd(w, 2) <= len && NameEnd(w, 2) < |w|
            && BracketsReversed(ParseString(w[NameEnd(w, 0) + 1..NameEnd(w, 1) + 1]))))
  }

  lemma MakeSymbolPanics(w: seq<byte>, name: GoString, typeName: GoString, comment: GoString)
    requires |w| >= 30
    ensures MakeSymbol(w, name, typeName, comment) == Panic <==> BracketsReversed(typeName)
  {
    hide ParseTypeInfo, BracketsReversed, Get32;
    TypeInfoPanics(typeName, Get32(w[16..20]), Get32(w[12..16]));
  }

  /** Exactly the entries on which parseSymbolEntry panics. */
  lemma EntryPanicsExactly(w: seq<byte>, len: nat)
    requires len <= |w|
    ensures ParseEntry(w, len) == Panic <==> EntryPanics(w, len)
  {
    hide ParseTypeInfo, BracketsReversed, Get16, Get32, ParseString, MakeSymbol;
    if len >= 30 {
      var e0, e1, e2 := NameEnd(w, 0), NameEnd(w, 1), NameEnd(w, 2);
      assert (exists k: nat | k < 3 :: NameEnd(w, k) == len == |w|) <==>
        len == |w| && (e0 == len || e1 == len || e2 == len);
      if e2 <= len && e2 < |w| {
        MakeSymbolPanics(w, ParseString(w[30..e0 + 1]), ParseString(w[e0 + 1..e1 + 1]), ParseString(w[e1 + 1..e2 + 1]));
      }
    }
  }

  /** The parser gets to the entry at an offset: every entry before it is parsed. */
  ghost predicate Reached(s: seq<byte>, offset: nat)
    decreases |s|
  {
    || offset == 0
    || (&& |s| >= 4
        && var len := Get32(s[0..4]);
        && 0 < len <= |s| && ParseEntry(s, len).Ok? && offset >= len && Reached(s[len..], offset - len))
  }

  /** The entry at an offset, and what makes it panic. */
  ghost predicate PanicsAt(s: seq<byte>, offset: nat) {
    && offset + 4 <= |s|
    && var len := Get32(s[offset..offset + 4]);
    && 0 < len <= |s| - offset && EntryPanics(s[offset..], len)
  }

  lemma PanicsAtTail(s: seq<byte>, len: nat, offset: nat)
    requires len <= |s|
    ensures PanicsAt(s[len..], offset) <==> PanicsAt(s, offset + len)
  {
    hide EntryPanics, Get32;
    if offset + len + 4 <= |s| {
      assert s[len..][offset..offset + 4] == s[offset + len..offset + len + 4];
      assert s[len..][offset..] == s[offset + len..];
    }
  }

  lemma {:induction false} EntriesPanicExactly(s: seq<byte>)
    ensures ParseEntries(s) == Panic <==> exists offset: nat :: Reached(s, offset) && PanicsAt(s, offset)
    decreases |s|
  {
    hide EntryPanics, ParseEntry, Get32, PanicsAt;
    if |s| >= 4 && 0 < Get32(s[0..4]) <= |s| {
      var len := Get32(s[0..4]);
      EntryPanicsExactly(s, len);
      FirstEntry(s);
      EntriesPanicExactly(s[len..]);
      if ParseEntry(s, len).Ok? {
        forall offset: nat
          ensures Reached(s, offset) && PanicsAt(s, offset) <==>
                    offset >= len && Reached(s[len..], offset - len) && PanicsAt(s[len..], offset - len)
        {
          if offset >= len { PanicsAtTail(s, len, offset - len); }
        }
        if exists offset: nat :: Reached(s[len..], offset) && PanicsAt(s[len..], offset) {
          var offset: nat :| Reached(s[len..], offset) && PanicsAt(s[len..], offset);
          assert Reached(s, offset + len) && PanicsAt(s, offset + len);
        }
      } else {
        assert forall offset: nat :: Reached(s, offset) ==> offset == 0;
      }
    } else {
      FirstEntry(s);
      assert forall offset: nat :: Reached(s, offset) ==> offset == 0;
    }
  }

  lemma FirstEntry(s: seq<byte>)
    ensures PanicsAt(s, 0) <==> |s| >= 4 && 0 < Get32(s[0..4]) <= |s| && EntryPanics(s, Get32(s[0..4]))
  {
    hide EntryPanics, Get32;
    assert s[0..] == s;
  }

  /** ParseSymbolTable panics exactly when some entry that is reached after parsed ones panics. */
  lemma TablePanicsExactly(data: seq<byte>)
    ensures ParseTable(data) == Panic <==> exists offset: nat :: Reached(data, offset) && PanicsAt(data, offset)
  {
    hide PanicsAt, Reached;
    EntriesPanicExactly(data);
    if data == [] {
      assert forall offset: nat :: !PanicsAt(data, offset) by { NoEntry(); }
    }
  }

  lemma NoEntry()
    ensures forall offset: nat :: !PanicsAt([], offset)
  {
  }

  /** Every upload of 30 bytes that is one entry whose name has length 0, so no room for its terminator. */
  lemma ShortUploadPanics(data: seq<byte>)
    requires |data| == 30 && Get32(data[0..4]) == 30 && Get16(data[24..26]) == 0
    ensures ParseTable(data) == Panic
  {
    hide Get32, Get16;
    assert NameEnd(data, 0) == 30;
    assert PanicsAt(data, 0) by { FirstEntry(data); }
    assert Reached(data, 0);
    TablePanicsExactly(data);
  }

  lemma AShortUpload()
    ensures ParseTable(Put32(30) + Zeros(26)) == Panic
  {
    var data := Put32(30) + Zeros(26);
    assert data[0..4] == Put32(30);
    assert data[24..26] == [0, 0];
    assert Get16([0, 0]) == 0 by { assert GetLE([0, 0][1..]) == 0; }
    hide Get32, Put32, Get16;
    ShortUploadPanics(data);
  }

  /** A type name with its brackets the wrong way round. */
  lemma ReversedBracketsPanic(dt: DataType, size: u32)
    ensures ParseTypeInfo(Ascii("]ARRAY["), dt, size) == Panic
  {
    var name := Ascii("]ARRAY[");
    assert name[0] == RBRACKET && name[6] == LBRACKET && name[..0] == [];
    assert name[1..6] == Ascii("ARRAY");
    assert OccursAt(name, Ascii("ARRAY"), 1);
    hide Ascii, ParseTypeInfo, OccursAt;
    TypeInfoPanics(name, dt, size);
  }

  // ---------- the loop ----------

  lemma EntriesAt(data: seq<byte>, offset: nat, done: seq<Symbol>)
    requires offset + 4 <= |data|
    ensures Get32(data[offset..][0..4]) == Get32(data[offset..offset + 4])
    ensures var len: nat := Get32(data[offset..offset + 4]);
            0 < len && offset + len <= |data| ==>
              && data[offset..][len..] == data[offset + len..]
              && match ParseEntry(data[offset..], len)
                 case Err => ParseEntries(data[offset..]) == Err
                 case Panic => ParseEntries(data[offset..]) == Panic
                 case Ok(symbol) =>
                   Prepended(done, ParseEntries(data[offset..]))
                   == Prepended(done + [symbol], ParseEntries(data[offset + len..]))
  {
    hide Get32, ParseEntry;
    assert data[offset..][0..4] == data[offset..offset + 4];
    var len: nat := Get32(data[offset..offset + 4]);
    if 0 < len && offset + len <= |data| {
      assert data[offset..][len..] == data[offset + len..];
      var rest := ParseEntries(data[offset + len..]);
      if rest.Ok? && ParseEntry(data[offset..], len).Ok? {
        var symbol := ParseEntry(data[offset..], len).value;
        assert done + ([symbol] + rest.value) == (done + [symbol]) + rest.value;
      }
    }
  }

  function Prepended(done: seq<Symbol>, r: Outcome<seq<Symbol>>): Outcome<seq<Symbol>> {
    match r
    case Ok(rest) => Ok(done + rest)
    case Err => Err
    case Panic => Panic
  }

  method ParseSymbolTable(data: seq<byte>) returns (r: Outcome<seq<Symbol>>)
    ensures r == ParseTable(data)
    ensures r.Ok? ==> 30 * |r.value| <= |data|
  {
    hide Get32, ParseEntry;
    if |data| == 0 {
      return Err;
    }
    var symbols: seq<Symbol> := [];
    var offset: nat := 0;
    assert data[0..] == data;
    assert Prepended([], ParseEntries(data)) == ParseEntries(data) by {
      if ParseEntries(data).Ok? { assert [] + ParseEntries(data).value == ParseEntries(data).value; }
    }
    while offset < |data|
      invariant offset <= |data|
      invariant Prepended(symbols, ParseEntries(data[offset..])) == ParseTable(data)
    {
      if offset + 4 > |data| {
        break;
      }
      EntriesAt(data, offset, symbols);
      var entryLength: nat := Get32(data[offset..offset + 4]);
      if entryLength == 0 {
        break;
      }
      if offset + entryLength > |data| {
        return Err;
      }
      match ParseEntry(data[offset..], entryLength) {
        case Err => return Err;
        case Panic => return Panic;
        case Ok(symbol) =>
          symbols := symbols + [symbol];
          offset := offset + entryLength;
      }
    }
    assert ParseEntries(data[offset..]) == Ok([]);
    assert symbols + [] == symbols;
    r := Ok(symbols);
  }

  // ---------- uploads that are cut off ----------

  /** Exactly the entries on which parseSymbolEntry returns an error: too short for the head, or too short for
      the names, unless it panics first. */
  lemma EntryErrsExactly(w: seq<byte>, len: nat)
    requires len <= |w|
    ensures ParseEntry(w, len) == Err <==>
              len < 30 || (NameEnd(w, 2) > len && !exists k: nat | k < 3 :: NameEnd(w, k) == len == |w|)
  {
    hide ParseTypeInfo, Get16, Get32, ParseString;
    if len >= 30 {
      var e0, e1, e2 := NameEnd(w, 0), NameEnd(w, 1), NameEnd(w, 2);
      assert (exists k: nat | k < 3 :: NameEnd(w, k) == len == |w|) <==>
        len == |w| && (e0 == len || e1 == len || e2 == len);
      if e2 <= len && e2 < |w| {
        NoError(w, ParseString(w[30..e0 + 1]), ParseString(w[e0 + 1..e1 + 1]), ParseString(w[e1 + 1..e2 + 1]));
      }
      hide MakeSymbol;
    }
  }

  lemma NoError(w: seq<byte>, name: GoString, typeName: GoString, comment: GoString)
    requires |w| >= 30
    ensures MakeSymbol(w, name, typeName, comment) != Err
  {
    TypeInfoPanics(typeName, Get32(w[16..20]), Get32(w[12..16]));
    hide ParseTypeInfo, Get32;
  }

  /** A printed table that is cut off inside an entry is refused, unless so little of that entry is left that it
      reads as the end of the table. */
  lemma {:induction false} CutTable(es: seq<Entry>, e: Entry, n: nat)
    requires (forall x :: x in es ==> WellFormed(x)) && WellFormed(e) && n < EntrySize(e)
    ensures ParseEntries(PrintEntries(es) + PrintEntry(e)[..n]) == if n < 4 then Ok(SymbolsOf(es)) else Err
    decreases |es|
  {
    hide Get32, PrintEntry, ParseEntry, WellFormed, SymbolOf;
    var cut := PrintEntry(e)[..n];
    if es == [] {
      assert PrintEntries(es) + cut == cut;
      if n >= 4 {
        EntryLength(e, []);
        assert (PrintEntry(e) + [])[0..4] == cut[0..4];
      }
    } else {
      var others := PrintEntries(es[1..]) + cut;
      var s := PrintEntries(es) + cut;
      assert s == PrintEntry(es[0]) + others;
      ParsePrintedEntry(es[0], others);
      EntryLength(es[0], others);
      assert s[EntrySize(es[0])..] == others;
      CutTable(es[1..], e, n);
      assert SymbolsOf(es) == [SymbolOf(es[0])] + SymbolsOf(es[1..]);
    }
  }
}
