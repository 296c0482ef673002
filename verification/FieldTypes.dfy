/** Which fields of a data type are asked for again, by the numbers their data types have on the wire, and
    that a scalar field of a fetched type is written and read as what it is. */
module FieldTypes {
  import opened Bytes
  import opened Outcomes
  import opened Text
  import opened Types
  import opened Values
  import opened Discovery
  import opened TypeUpload
  import opened StructParser

  /** Integers of 1, 2, 4 and 8 bytes, both floats, BOOL and STRING. */
  predicate IsScalarNumber(dt: DataType) {
    dt in {16, 17, 2, 18, 3, 19, 20, 21, 4, 5, 33, 30}
  }

  /** What the fetch makes of one field. A scalar one is described as its item says, without a request; any
      other is asked for by its type name, and keeps its item's description, as a struct without fields, when
      nothing comes back. */
  lemma FieldExactlyFetched(plc: Plc, rank: Rank, answered: nat -> bool, at: nat, item: Item, bound: nat)
    requires Ranked(plc, rank) && ItemsRanked(plc, rank, [item], bound)
    ensures var (field, asks) := FetchedField(plc, rank, answered, at, item, bound);
            && field.name == item.name && field.offset == item.offset
            && if IsScalarNumber(item.dataType) then
                 && asks == []
                 && field.typ == TypeInfo(item.typeName, item.dataType, item.size, [], false, false, [])
               else
                 var (nested, more) := Fetched(plc, rank, answered, at, item.typeName);
                 && asks == [item] + more
                 && field.typ == if nested.Ok? then nested.value
                                 else TypeInfo(item.typeName, item.dataType, item.size, [], false, true, [])
  {
    hide Fetched;
  }

  /** A value of this data type and size, small enough for it. */
  predicate IsScalarOf(fl: Floats, v: Value, dt: DataType, size: u32, name: GoString) {
    match v
    case Bool(_) => dt == 33 && size == 1
    case Int8(_) => dt == 16 && size == 1
    case Uint8(_) => dt == 17 && size == 1
    case Int16(_) => dt == 2 && size == 2
    case Uint16(_) => dt == 18 && size == 2
    case Int32(_) => dt == 3 && size == 4
    case Uint32(_) => dt == 19 && size == 4
    case Int64(_) => dt == 20 && size == 8
    case Uint64(_) => dt == 21 && size == 8
    case Float32(_) => dt == 4 && size == 4
    case Float64(bits) =>
      dt == 5 && size == 8 && (name == Ascii("REAL") || name == Ascii("LREAL") || fl.whole(bits).None?)
    case Str(s) => dt == 30 && 0 !in s && |s| < size
    case _ => false
  }

  /** End to end: a scalar field of a printed type is fetched as a scalar, and a value of its data type and
      size, encoded for the fetched field, is parsed back by it. */
  lemma FetchedScalarRoundTrip(t: Table, rank: Rank, name: GoString, i: nat, fl: Floats, v: Value)
    requires TableWellFormed(t) && Acyclic(t, rank) && name in t && i < |t[name].items|
    requires var e := t[name].items[i]; IsScalarOf(fl, v, e.dataType, e.size, e.typeName)
    ensures Ranked(Encoded(t), rank)
    ensures var fetched := Fetch(Encoded(t), rank, name);
            && fetched.Ok? && i < |fetched.value.fields|
            && var e, f := t[name].items[i], fetched.value.fields[i];
            && f.name == e.name && f.offset == e.offset && f.typ.size == e.size && !f.typ.isStruct
            && var r := EncodeScalar(fl, v, f.typ.name, f.typ.size);
            && r.Ok? && |r.value| == e.size && ParseField(r.value, f.typ) == v
  {
    var e := t[name].items[i];
    ScalarNotNested(fl, v, e.dataType, e.size, e.typeName);
    PlainRoundTrip(fl, v, e.dataType, e.size, e.typeName);
    FetchedPlain(t, rank, name, i);
    hide Encoded, Fetch, Ranked, TableWellFormed, Acyclic, EncodeScalar, ParseField, IsScalarOf, IsScalarNumber;
  }

  /** A scalar field of a printed type is fetched as its item says. */
  lemma FetchedPlain(t: Table, rank: Rank, name: GoString, i: nat)
    requires TableWellFormed(t) && Acyclic(t, rank) && name in t && i < |t[name].items|
    requires IsScalarNumber(t[name].items[i].dataType)
    ensures Ranked(Encoded(t), rank)
    ensures var fetched, e := Fetch(Encoded(t), rank, name), t[name].items[i];
            && fetched.Ok? && i < |fetched.value.fields|
            && fetched.value.fields[i]
               == FieldInfo(e.name, e.offset, TypeInfo(e.typeName, e.dataType, e.size, [], false, false, []))
  {
    ExpandedPlain(t, rank, name, i);
    hide Encoded, Fetch, Ranked, TableWellFormed, Acyclic, Expand, IsScalarNumber;
    FetchExpands(t, rank, name);
  }

  lemma ExpandedPlain(t: Table, rank: Rank, name: GoString, i: nat)
    requires Acyclic(t, rank) && name in t && i < |t[name].items|
    requires IsScalarNumber(t[name].items[i].dataType)
    ensures var fields, e := Expand(t, rank, name).fields, t[name].items[i];
            && i < |fields|
            && fields[i] == FieldInfo(e.name, e.offset, TypeInfo(e.typeName, e.dataType, e.size, [], false, false, []))
  {
    assert !IsNested(t[name].items[i].dataType);
    hide IsNested, IsScalarNumber;
  }

  lemma ScalarNotNested(fl: Floats, v: Value, dt: DataType, size: u32, name: GoString)
    requires IsScalarOf(fl, v, dt, size, name)
    ensures IsScalarNumber(dt)
  {
  }

  lemma PlainRoundTrip(fl: Floats, v: Value, dt: DataType, size: u32, name: GoString)
    requires IsScalarOf(fl, v, dt, size, name)
    ensures var typ := TypeInfo(name, dt, size, [], false, false, []);
            var r := EncodeScalar(fl, v, name, size);
            r.Ok? && |r.value| == size && ParseField(r.value, typ) == v
  {
    hide IsFloatName;
    FloatName(name);
    var typ := TypeInfo(name, dt, size, [], false, false, []);
    assert ScalarFits(fl, v, typ);
    hide IsScalarOf, ScalarFits;
    ScalarRoundTrip(fl, v, typ);
    hide EncodeScalar, ParseSimple;
  }

  lemma FloatName(name: GoString)
    ensures IsFloatName(name) <==> name == Ascii("REAL") || name == Ascii("LREAL")
  {
  }

  // ---------- responses that are cut off ----------

  /** Where the part of a printed item that the parser needs ends: after its type name. */
  function Needed(e: SubEntry): nat { 43 + |e.name| + |e.typeName| }

  /** An item that is cut off is read exactly when its name and type name are there; nothing follows it. */
  lemma CutItem(e: SubEntry, n: nat)
    requires SubWellFormed(e) && n < SubSize(e)
    ensures ReadItem(PrintSub(e)[..n]) == if n < Needed(e) then None else Some((ItemOf(e), []))
  {
    var s := PrintSub(e)[..n];
    if n >= 42 {
      CutHead(e, n);
      hide PrintSub, Put16, Put32, Get16, Get32, ItemOf;
      if n >= Needed(e) {
        CutNames(e, n);
        WholeString(e.name);
        WholeString(e.typeName);
      }
    }
  }

  lemma CutHead(e: SubEntry, n: nat)
    requires SubWellFormed(e) && 42 <= n <= SubSize(e)
    ensures var s := PrintSub(e)[..n];
            && Get32(s[0..4]) == SubSize(e) && Get32(s[16..20]) == e.size && Get32(s[20..24]) == e.offset
            && Get32(s[24..28]) == e.dataType && Get16(s[32..34]) == |e.name| && Get16(s[34..36]) == |e.typeName|
  {
    hide Put16, Put32, Get16, Get32, PrintHead;
    var after := e.name + [0] + e.typeName + [0] + e.comment + [0] + e.padding;
    var h := SubHead(e);
    assert PrintSub(e) == PrintHead(h) + after;
    HeadFields(h, after);
    var whole, s := PrintHead(h) + after, PrintSub(e)[..n];
    assert s[0..4] == whole[0..4] && s[16..20] == whole[16..20] && s[20..24] == whole[20..24];
    assert s[24..28] == whole[24..28] && s[32..34] == whole[32..34] && s[34..36] == whole[34..36];
  }

  lemma CutNames(e: SubEntry, n: nat)
    requires SubWellFormed(e) && Needed(e) <= n <= SubSize(e)
    ensures var s := PrintSub(e)[..n];
            s[42..42 + |e.name|] == e.name && s[43 + |e.name|..Needed(e)] == e.typeName
  {
    hide PrintHead, SubHead;
    var whole := PrintSub(e);
    assert whole[42..42 + |e.name|] == e.name;
    assert whole[43 + |e.name|..Needed(e)] == e.typeName;
  }

  /** A list of printed items that is cut off inside one yields the items before it, and that one too if its name
      and type name are there, whatever number of items was announced. */
  lemma {:induction false} CutItems(es: seq<SubEntry>, e: SubEntry, n: nat, more: nat)
    requires (forall i :: 0 <= i < |es| ==> SubWellFormed(es[i])) && SubWellFormed(e) && n < SubSize(e)
    ensures ReadItems(PrintSubs(es) + PrintSub(e)[..n], |es| + 1 + more)
            == ItemsOf(es) + if n < Needed(e) then [] else [ItemOf(e)]
    decreases |es|
  {
    hide ReadItem, PrintSub, ItemOf, SubWellFormed, Needed;
    if es == [] {
      assert PrintSubs(es) + PrintSub(e)[..n] == PrintSub(e)[..n];
      CutItem(e, n);
      NothingToRead(more);
      assert ItemsOf(es) == [];
    } else {
      var others := PrintSubs(es[1..]) + PrintSub(e)[..n];
      assert PrintSubs(es) + PrintSub(e)[..n] == PrintSub(es[0]) + others;
      ReadPrintedItem(es[0], others);
      CutItems(es[1..], e, n, more);
      assert ItemsOf(es) == [ItemOf(es[0])] + ItemsOf(es[1..]);
    }
  }

  lemma NothingToRead(n: nat)
    ensures ReadItems([], n) == []
  {
  }
}
