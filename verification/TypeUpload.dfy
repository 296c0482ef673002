/** The PLC's side of type discovery: data type entries as they are printed on the wire, and the fully
    expanded type tree they describe. Fetching a printed table returns exactly that tree. */
module TypeUpload {
  import opened Bytes
  import opened Outcomes
  import opened Types
  import opened Discovery

  // ---------- entries ----------

  type Misc = s: seq<byte> | |s| == 12 witness [0, 0, 0, 0, 0, 0, 0, 0, 0, 0, 0, 0]

  /** The 42 bytes every entry and sub-item starts with; the parser ignores misc, flags and arrayDim. */
  datatype Head = Head(
    length: u32, misc: Misc, size: u32, offs: u32, dataType: u32, flags: u32,
    nameLen: u16, typeLen: u16, commentLen: u16, arrayDim: u16, subItems: u16)

  function PrintHead(h: Head): (bs: seq<byte>)
    ensures |bs| == 42
  {
    Put32(h.length) + h.misc + Put32(h.size) + Put32(h.offs) + Put32(h.dataType) + Put32(h.flags)
    + Put16(h.nameLen) + Put16(h.typeLen) + Put16(h.commentLen) + Put16(h.arrayDim) + Put16(h.subItems)
  }

  lemma HeadFields(h: Head, post: seq<byte>)
    ensures var s := PrintHead(h) + post;
            && Get32(s[0..4]) == h.length && Get32(s[16..20]) == h.size && Get32(s[20..24]) == h.offs
            && Get32(s[24..28]) == h.dataType
            && Get16(s[32..34]) == h.nameLen && Get16(s[34..36]) == h.typeLen && Get16(s[36..38]) == h.commentLen
            && Get16(s[40..42]) == h.subItems
  {
    hide Put16, Put32, Get16, Get32;
    var s := PrintHead(h) + post;
    assert s[0..4] == Put32(h.length);
    assert s[16..20] == Put32(h.size);
    assert s[20..24] == Put32(h.offs);
    assert s[24..28] == Put32(h.dataType);
    assert s[32..34] == Put16(h.nameLen);
    assert s[34..36] == Put16(h.typeLen);
    assert s[36..38] == Put16(h.commentLen);
    assert s[40..42] == Put16(h.subItems);
  }

  /** A field of a type. */
  datatype SubEntry = SubEntry(
    name: GoString, typeName: GoString, comment: GoString,
    size: u32, offset: u32, dataType: DataType, misc: Misc, flags: u32, arrayDim: u16, padding: seq<byte>)

  datatype TypeEntry = TypeEntry(
    typeText: GoString, comment: GoString, size: u32, dataType: DataType,
    misc: Misc, flags: u32, items: seq<SubEntry>, tail: seq<byte>)

  predicate NameFits(s: GoString) { 0 !in s && |s| < 0x1_0000 }

  predicate SubWellFormed(e: SubEntry) {
    NameFits(e.name) && NameFits(e.typeName) && |e.comment| < 0x1_0000 && SubSize(e) < U32_MODULUS
  }

  predicate WellFormed(name: GoString, e: TypeEntry) {
    && |name| < 0x1_0000 && |e.typeText| < 0x1_0000 && |e.comment| < 0x1_0000
    && |e.items| < 0x1_0000
    && forall i :: 0 <= i < |e.items| ==> SubWellFormed(e.items[i])
  }

  function SubSize(e: SubEntry): nat {
    45 + |e.name| + |e.typeName| + |e.comment| + |e.padding|
  }

  function SubHead(e: SubEntry): Head
    requires SubWellFormed(e)
  {
    Head(SubSize(e), e.misc, e.size, e.offset, e.dataType, e.flags,
         |e.name|, |e.typeName|, |e.comment|, e.arrayDim, 0)
  }

  function PrintSub(e: SubEntry): (bs: seq<byte>)
    requires SubWellFormed(e)
    ensures |bs| == SubSize(e)
  {
    PrintHead(SubHead(e)) + e.name + [0] + e.typeName + [0] + e.comment + [0] + e.padding
  }

  function PrintSubs(es: seq<SubEntry>): seq<byte>
    requires forall i :: 0 <= i < |es| ==> SubWellFormed(es[i])
  {
    if es == [] then [] else PrintSub(es[0]) + PrintSubs(es[1..])
  }

  function PrintEntry(name: GoString, e: TypeEntry): seq<byte>
    requires WellFormed(name, e)
  {
    var h := Head(0, e.misc, e.size, 0, e.dataType, e.flags,
                  |name|, |e.typeText|, |e.comment|, 0, |e.items|);
    PrintHead(h) + (name + [0] + e.typeText + [0] + e.comment + [0]) + (PrintSubs(e.items) + e.tail)
  }

  function ItemOf(e: SubEntry): Item {
    Item(e.name, e.typeName, e.size, e.offset, e.dataType)
  }

  function ItemsOf(es: seq<SubEntry>): (items: seq<Item>)
    ensures |items| == |es|
  {
    seq(|es|, i requires 0 <= i < |es| => ItemOf(es[i]))
  }

  // ---------- parsing what was printed ----------

  lemma ReadPrintedItem(e: SubEntry, post: seq<byte>)
    requires SubWellFormed(e)
    ensures ReadItem(PrintSub(e) + post) == Some((ItemOf(e), post))
  {
    hide Put16, Put32, Get16, Get32, PrintHead;
    var h := SubHead(e);
    var s := PrintSub(e) + post;
    var after := e.name + [0] + e.typeName + [0] + e.comment + [0] + e.padding + post;
    assert s == PrintHead(h) + after;
    HeadFields(h, after);
    var nameEnd := 42 + |e.name|;
    var typeEnd := nameEnd + 1 + |e.typeName|;
    assert s[42..nameEnd] == e.name;
    assert s[nameEnd + 1..typeEnd] == e.typeName;
    WholeString(e.name);
    WholeString(e.typeName);
    assert s[SubSize(e)..] == post;
  }

  /** A name without NUL is kept whole. */
  lemma {:induction false} WholeString(s: GoString)
    requires 0 !in s
    ensures SymbolParser.ParseString(s) == s
  {
    if s != [] {
      WholeString(s[1..]);
    }
  }

  lemma {:induction false} ReadPrintedItems(es: seq<SubEntry>, post: seq<byte>)
    requires forall i :: 0 <= i < |es| ==> SubWellFormed(es[i])
    ensures ReadItems(PrintSubs(es) + post, |es|) == ItemsOf(es)
  {
    hide ReadItem, PrintSub, ItemOf, SubWellFormed;
    if es == [] {
    } else {
      var others := PrintSubs(es[1..]) + post;
      assert PrintSubs(es) + post == PrintSub(es[0]) + others;
      ReadPrintedItem(es[0], others);
      ReadPrintedItems(es[1..], post);
      assert ItemsOf(es) == [ItemOf(es[0])] + ItemsOf(es[1..]);
    }
  }

  /** Every field's name, type, size, offset and data type is recovered from the printed entry. */
  lemma ParsePrinted(name: GoString, e: TypeEntry)
    requires WellFormed(name, e)
    ensures ParseResponse(PrintEntry(name, e))
         == Ok(Parsed(e.size, e.dataType, e.items != [], ItemsOf(e.items)))
  {
    hide Put16, Put32, Get16, Get32, PrintHead, ReadItems, PrintSubs, SubWellFormed;
    var h := Head(0, e.misc, e.size, 0, e.dataType, e.flags,
                  |name|, |e.typeText|, |e.comment|, 0, |e.items|);
    var data := PrintEntry(name, e);
    var names := name + [0] + e.typeText + [0] + e.comment + [0];
    var subs := PrintSubs(e.items) + e.tail;
    assert data == PrintHead(h) + (names + subs);
    HeadFields(h, names + subs);
    assert data[42 + |names|..] == subs;
    ReadPrintedItems(e.items, e.tail);
  }

  // ---------- the type tree ----------

  type Table = map<GoString, TypeEntry>

  predicate TableWellFormed(t: Table) {
    forall name :: name in t ==> WellFormed(name, t[name])
  }

  function Encoded(t: Table): Plc
    requires TableWellFormed(t)
  {
    map name | name in t :: PrintEntry(name, t[name])
  }

  /** Acyclic nesting: a rank that decreases from a type to the known types of its nested fields. */
  ghost predicate Acyclic(t: Table, rank: Rank) {
    forall name | name in t :: SubsRanked(t, rank, t[name].items, rank(name))
  }

  ghost predicate SubsRanked(t: Table, rank: Rank, es: seq<SubEntry>, bound: nat) {
    forall i :: 0 <= i < |es| && IsNested(es[i].dataType) && es[i].typeName in t ==> rank(es[i].typeName) < bound
  }

  /** The tree a type stands for: nested fields of known types carry their own trees. */
  ghost function Expand(t: Table, rank: Rank, name: GoString): TypeInfo
    requires Acyclic(t, rank) && name in t
    decreases rank(name) + 1, 0
  {
    var e := t[name];
    TypeInfo(name, e.dataType, e.size, [], false, e.items != [], ExpandFields(t, rank, e.items, rank(name)))
  }

  ghost function ExpandFields(t: Table, rank: Rank, es: seq<SubEntry>, bound: nat): (fields: seq<FieldInfo>)
    requires Acyclic(t, rank) && SubsRanked(t, rank, es, bound)
    ensures |fields| == |es|
    ensures forall i :: 0 <= i < |es| ==>
              && fields[i].name == es[i].name && fields[i].offset == es[i].offset
              && fields[i].typ.name == es[i].typeName
              && (!IsNested(es[i].dataType) ==>
                    fields[i].typ == TypeInfo(es[i].typeName, es[i].dataType, es[i].size, [], false, false, []))
              && (IsNested(es[i].dataType) && es[i].typeName in t ==>
                    fields[i].typ == Expand(t, rank, es[i].typeName))
    decreases bound, 1 + |es|
  {
    if es == [] then []
    else
      var e := es[0];
      var typ := if IsNested(e.dataType) && e.typeName in t then Expand(t, rank, e.typeName)
                 else TypeInfo(e.typeName, e.dataType, e.size, [], false, IsNested(e.dataType), []);
      [FieldInfo(e.name, e.offset, typ)] + ExpandFields(t, rank, es[1..], bound)
  }

  lemma EncodedRanked(t: Table, rank: Rank)
    requires TableWellFormed(t) && Acyclic(t, rank)
    ensures Ranked(Encoded(t), rank)
  {
    hide PrintEntry, ParseResponse, WellFormed;
    forall name | name in t
      ensures ParseResponse(Encoded(t)[name]).Ok?
      ensures ItemsRanked(Encoded(t), rank, ParseResponse(Encoded(t)[name]).value.items, rank(name))
    {
      ParsePrinted(name, t[name]);
      assert SubsRanked(t, rank, t[name].items, rank(name));
    }
  }

  /** For any finite acyclic table of well-formed entries, the fetch returns the fully expanded tree
      of the type asked for, and an error for an unknown name. */
  lemma {:induction false} FetchExpands(t: Table, rank: Rank, name: GoString)
    requires TableWellFormed(t) && Acyclic(t, rank)
    ensures Ranked(Encoded(t), rank)
    ensures Fetch(Encoded(t), rank, name) == if name in t then Ok(Expand(t, rank, name)) else Err
    decreases if name in t then rank(name) + 1 else 0, 0
  {
    hide PrintEntry, ParseResponse, WellFormed, FetchFields, ExpandFields, ItemsOf;
    EncodedRanked(t, rank);
    if name in t {
      ParsePrinted(name, t[name]);
      assert SubsRanked(t, rank, t[name].items, rank(name));
      FetchExpandsFields(t, rank, t[name].items, rank(name));
    }
  }

  lemma {:induction false} FetchExpandsFields(t: Table, rank: Rank, es: seq<SubEntry>, bound: nat)
    requires TableWellFormed(t) && Acyclic(t, rank) && SubsRanked(t, rank, es, bound)
    requires Ranked(Encoded(t), rank)
    ensures ItemsRanked(Encoded(t), rank, ItemsOf(es), bound)
    ensures FetchFields(Encoded(t), rank, ItemsOf(es), bound) == ExpandFields(t, rank, es, bound)
    decreases bound, 1 + |es|
  {
    hide PrintEntry, WellFormed, Ranked, Acyclic, Fetch, Expand;
    if es == [] {
    } else {
      var e := es[0];
      assert forall i :: 0 <= i < |es| - 1 ==> es[1..][i] == es[i + 1];
      FetchExpandsFields(t, rank, es[1..], bound);
      if IsNested(e.dataType) {
        FetchExpands(t, rank, e.typeName);
      }
      assert ItemsOf(es)[0] == ItemOf(e) && ItemsOf(es)[1..] == ItemsOf(es[1..]);
    }
  }
}
