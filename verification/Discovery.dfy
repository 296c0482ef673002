/** Type discovery: parsing a data type entry of the PLC, fetching nested types recursively, and the
    registry that caches the results. */
module Discovery {
  import opened Bytes
  import opened Outcomes
  import opened Types
  import SymbolParser

  // ---------- one sub-item of an entry ----------

  /** isSimpleDataType: here strings are simple and bits are not. */
  predicate IsSimpleDataType(dt: DataType) {
    dt in {INT8, UINT8, INT16, UINT16, INT32, UINT32, INT64, UINT64, REAL32, REAL64, BOOL, STRING}
  }

  /** The type of a field is looked up again when its data type is not a simple one. */
  predicate IsNested(dt: DataType) {
    dt == BIG_TYPE || !IsSimpleDataType(dt)
  }

  /** What the parser takes from a sub-item. */
  datatype Item = Item(name: GoString, typeName: GoString, size: u32, offset: u32, dataType: DataType)

  /** The first sub-item of s and the bytes from the next one on, or None when it is cut off. */
  function ReadItem(s: seq<byte>): Option<(Item, seq<byte>)> {
    if |s| < 42 then None
    else
      var nameEnd: int := 42 + Get16(s[32..34]) as int;
      if nameEnd > |s| then None
      else
        var typeStart := nameEnd + 1;
        var typeEnd: int := typeStart + Get16(s[34..36]) as int;
        if typeEnd > |s| then None
        else
          var item := Item(SymbolParser.ParseString(s[42..nameEnd]), SymbolParser.ParseString(s[typeStart..typeEnd]),
                           Get32(s[16..20]), Get32(s[20..24]), Get32(s[24..28]));
          Some((item, if Get32(s[0..4]) as int <= |s| then s[Get32(s[0..4])..] else []))
  }

  /** Up to n sub-items, stopping at the first that is cut off. */
  function ReadItems(s: seq<byte>, n: nat): (items: seq<Item>)
    ensures |items| <= n
    decreases n
  {
    if n == 0 then []
    else
      match ReadItem(s)
      case None => []
      case Some((item, rest)) => [item] + ReadItems(rest, n - 1)
  }

  /** The bytes from an offset on, none if it lies beyond the end. */
  function Rest(data: seq<byte>, offset: nat): seq<byte> {
    if offset <= |data| then data[offset..] else []
  }

  /** A parsed response: the type's own fields and its sub-items. */
  datatype Parsed = Parsed(size: u32, dataType: DataType, hasItems: bool, items: seq<Item>)

  function ItemsStart(data: seq<byte>): nat
    requires |data| >= 42
  {
    42 + Get16(data[32..34]) as int + 1 + Get16(data[34..36]) as int + 1 + Get16(data[36..38]) as int + 1
  }

  function ParseResponse(data: seq<byte>): Outcome<Parsed> {
    if |data| < 42 then Err
    else
      var count := Get16(data[40..42]);
      var start := ItemsStart(data);
      Ok(Parsed(Get32(data[16..20]), Get32(data[24..28]), count > 0,
                ReadItems(Rest(data, start), count)))
  }

  // ---------- the type a name stands for ----------

  /** The PLC's answers by type name; a name it does not know is an error. */
  type Plc = map<GoString, seq<byte>>

  type Rank = GoString -> nat

  /** The nesting order: a nested field's type ranks below the type that holds it. */
  ghost predicate Ranked(plc: Plc, rank: Rank) {
    forall name | name in plc && ParseResponse(plc[name]).Ok? ::
      ItemsRanked(plc, rank, ParseResponse(plc[name]).value.items, rank(name))
  }

  ghost predicate ItemsRanked(plc: Plc, rank: Rank, items: seq<Item>, bound: nat) {
    forall i :: 0 <= i < |items| && IsNested(items[i].dataType) && items[i].typeName in plc ==>
      rank(items[i].typeName) < bound
  }

  /** The type a field gets without a nested fetch. */
  function PlainType(item: Item, isStruct: bool): TypeInfo {
    TypeInfo(item.typeName, item.dataType, item.size, [], false, isStruct, [])
  }

  /** What fetchTypeInfoFromPLC returns when every request it sends is answered. */
  ghost function Fetch(plc: Plc, rank: Rank, name: GoString): (r: Outcome<TypeInfo>)
    requires Ranked(plc, rank)
    ensures r.Ok? ==> r.value.name == name && !r.value.isArray && name in plc
    decreases if name in plc then rank(name) + 1 else 0, 0
  {
    if name !in plc then Err
    else
      match ParseResponse(plc[name])
      case Err => Err
      case Panic => Panic
      case Ok(p) =>
        Ok(TypeInfo(name, p.dataType, p.size, [], false, p.hasItems,
                    FetchFields(plc, rank, p.items, rank(name))))
  }

  ghost function FetchFields(plc: Plc, rank: Rank, items: seq<Item>, bound: nat): (fields: seq<FieldInfo>)
    requires Ranked(plc, rank) && ItemsRanked(plc, rank, items, bound)
    ensures |fields| == |items|
    decreases bound, 1 + |items|
  {
    if items == [] then []
    else
      [FetchField(plc, rank, items[0], bound)] + FetchFields(plc, rank, items[1..], bound)
  }

  ghost function FetchField(plc: Plc, rank: Rank, item: Item, bound: nat): FieldInfo
    requires Ranked(plc, rank) && ItemsRanked(plc, rank, [item], bound)
    decreases bound, 1
  {
    assert [item][0] == item;
    var t := if IsNested(item.dataType) then
               var nested := Fetch(plc, rank, item.typeName);
               if nested.Ok? then nested.value else PlainType(item, true)
             else PlainType(item, false);
    FieldInfo(item.name, item.offset, t)
  }

  // ---------- the fetch, request by request ----------

  /** The fields read so far, and the items whose types were asked for on the way, in order: the j-th of
      them is the j-th request sent. */
  datatype Part = Part(fields: seq<FieldInfo>, asks: seq<Item>)

  /** What fetchTypeInfoFromPLC returns when its requests are numbered from at on and answered says which
      of them are answered; with the nested requests it sends after its own. The error of a nested fetch
      is swallowed. */
  ghost function Fetched(plc: Plc, rank: Rank, answered: nat -> bool, at: nat, name: GoString)
    : (r: (Outcome<TypeInfo>, seq<Item>))
    requires Ranked(plc, rank)
    ensures r.0.Ok? ==> r.0.value.name == name && !r.0.value.isArray && name in plc && answered(at)
    decreases if name in plc then rank(name) + 1 else 0, 0
  {
    if !answered(at) || name !in plc then (Err, [])
    else
      match ParseResponse(plc[name])
      case Err => (Err, [])
      case Panic => (Panic, [])
      case Ok(p) =>
        var part := FetchedFields(plc, rank, answered, at + 1, p.items, rank(name));
        (Ok(TypeInfo(name, p.dataType, p.size, [], false, p.hasItems, part.fields)), part.asks)
  }

  ghost function FetchedFields(plc: Plc, rank: Rank, answered: nat -> bool, at: nat, items: seq<Item>,
                               bound: nat): (r: Part)
    requires Ranked(plc, rank) && ItemsRanked(plc, rank, items, bound)
    ensures |r.fields| == |items|
    decreases bound, 1 + |items|
  {
    if items == [] then Part([], [])
    else
      var (field, asks) := FetchedField(plc, rank, answered, at, items[0], bound);
      var rest := FetchedFields(plc, rank, answered, at + |asks|, items[1..], bound);
      Part([field] + rest.fields, asks + rest.asks)
  }

  ghost function FetchedField(plc: Plc, rank: Rank, answered: nat -> bool, at: nat, item: Item, bound: nat)
    : (FieldInfo, seq<Item>)
    requires Ranked(plc, rank) && ItemsRanked(plc, rank, [item], bound)
    decreases bound, 1
  {
    assert [item][0] == item;
    if IsNested(item.dataType) then
      var (nested, asks) := Fetched(plc, rank, answered, at, item.typeName);
      (FieldInfo(item.name, item.offset, if nested.Ok? then nested.value else PlainType(item, true)), [item] + asks)
    else (FieldInfo(item.name, item.offset, PlainType(item, false)), [])
  }

  /** Losing the request for this item's type changes nothing: the PLC does not know the type, or its
      entry says no more than the placeholder the field gets anyway. */
  predicate Harmless(plc: Plc, item: Item) {
    item.typeName in plc ==>
      match ParseResponse(plc[item.typeName])
      case Ok(p) => p.size == item.size && p.dataType == item.dataType && p.hasItems && p.items == []
      case Err => true
      case Panic => true
  }

  /** Every nested request that was lost was a harmless one. */
  ghost predicate Undisturbed(plc: Plc, answered: nat -> bool, at: nat, asks: seq<Item>) {
    forall j :: 0 <= j < |asks| ==> answered(at + j) || Harmless(plc, asks[j])
  }

  lemma UndisturbedJoin(plc: Plc, answered: nat -> bool, at: nat, a: seq<Item>, b: seq<Item>)
    ensures Undisturbed(plc, answered, at, a + b) <==>
              Undisturbed(plc, answered, at, a) && Undisturbed(plc, answered, at + |a|, b)
  {
    hide Harmless;
    if Undisturbed(plc, answered, at, a + b) {
      assert forall j :: 0 <= j < |a| ==> (a + b)[j] == a[j];
      assert forall j :: 0 <= j < |b| ==> (a + b)[|a| + j] == b[j] && at + |a| + j == at + (|a| + j);
    }
  }

  /** A placeholder is what a fetch would have given exactly when the loss is harmless. */
  lemma HarmlessExactly(plc: Plc, rank: Rank, item: Item)
    requires Ranked(plc, rank)
    ensures Harmless(plc, item) <==>
              (Fetch(plc, rank, item.typeName).Ok? ==> Fetch(plc, rank, item.typeName).value == PlainType(item, true))
  {
    hide ParseResponse, FetchFields;
  }

  /** One field, from what is known of its nested fetch. */
  lemma NestedField(plc: Plc, rank: Rank, answered: nat -> bool, at: nat, item: Item,
                    nested: Outcome<TypeInfo>, asks: seq<Item>, fetch: Outcome<TypeInfo>)
    requires if answered(at) then
               (nested == fetch <==> Undisturbed(plc, answered, at + 1, asks)) && (nested.Ok? <==> fetch.Ok?)
               && (!fetch.Ok? ==> asks == [])
             else nested == Err && asks == []
    requires Harmless(plc, item) <==> (fetch.Ok? ==> fetch.value == PlainType(item, true))
    ensures (if nested.Ok? then nested.value else PlainType(item, true))
              == (if fetch.Ok? then fetch.value else PlainType(item, true))
            <==> Undisturbed(plc, answered, at, [item] + asks)
  {
    hide Harmless;
    UndisturbedJoin(plc, answered, at, [item], asks);
    OneAsk(plc, answered, at, item);
    if asks == [] {
      assert Undisturbed(plc, answered, at + 1, asks);
    }
    hide Undisturbed;
  }

  lemma {:induction false} FieldExactly(plc: Plc, rank: Rank, answered: nat -> bool, at: nat, item: Item, bound: nat)
    requires Ranked(plc, rank) && ItemsRanked(plc, rank, [item], bound)
    ensures var (field, asks) := FetchedField(plc, rank, answered, at, item, bound);
            field == FetchField(plc, rank, item, bound) <==> Undisturbed(plc, answered, at, asks)
    decreases bound, 1
  {
    assert [item][0] == item;
    hide Fetched, Fetch, Harmless, Undisturbed;
    if IsNested(item.dataType) {
      var (nested, asks) := Fetched(plc, rank, answered, at, item.typeName);
      FetchedExactly(plc, rank, answered, at, item.typeName);
      HarmlessExactly(plc, rank, item);
      NestedField(plc, rank, answered, at, item, nested, asks, Fetch(plc, rank, item.typeName));
    } else {
      assert Undisturbed(plc, answered, at, []) by { NothingAsked(plc, answered, at); }
    }
  }

  lemma NothingAsked(plc: Plc, answered: nat -> bool, at: nat)
    ensures Undisturbed(plc, answered, at, [])
  {
  }

  lemma OneAsk(plc: Plc, answered: nat -> bool, at: nat, item: Item)
    ensures Undisturbed(plc, answered, at, [item]) <==> answered(at) || Harmless(plc, item)
  {
    hide Harmless;
    assert [item][0] == item && at + 0 == at;
  }

  lemma {:induction false} FieldsExactly(plc: Plc, rank: Rank, answered: nat -> bool, at: nat, items: seq<Item>,
                                         bound: nat)
    requires Ranked(plc, rank) && ItemsRanked(plc, rank, items, bound)
    ensures var part := FetchedFields(plc, rank, answered, at, items, bound);
            part.fields == FetchFields(plc, rank, items, bound) <==> Undisturbed(plc, answered, at, part.asks)
    decreases bound, 1 + |items|
  {
    hide FetchedField, FetchField, Harmless;
    if items == [] {
    } else {
      var (field, asks) := FetchedField(plc, rank, answered, at, items[0], bound);
      var rest := FetchedFields(plc, rank, answered, at + |asks|, items[1..], bound);
      FieldExactly(plc, rank, answered, at, items[0], bound);
      FieldsExactly(plc, rank, answered, at + |asks|, items[1..], bound);
      UndisturbedJoin(plc, answered, at, asks, rest.asks);
      hide Undisturbed;
      SameLists(field, rest.fields, FetchField(plc, rank, items[0], bound), FetchFields(plc, rank, items[1..], bound));
    }
  }

  lemma SameLists(a: FieldInfo, s: seq<FieldInfo>, b: FieldInfo, t: seq<FieldInfo>)
    ensures [a] + s == [b] + t <==> a == b && s == t
  {
    if [a] + s == [b] + t {
      assert ([a] + s)[0] == a && ([b] + t)[0] == b;
      assert ([a] + s)[1..] == s && ([b] + t)[1..] == t;
    }
  }

  /** A fetch whose own request is answered returns the type its name stands for exactly when every nested
      request lost on the way, at any depth, was for a type unknown to the PLC or no more than its
      placeholder. A fetch whose own request is lost returns an error. */
  lemma {:induction false} FetchedExactly(plc: Plc, rank: Rank, answered: nat -> bool, at: nat, name: GoString)
    requires Ranked(plc, rank)
    ensures var (r, asks) := Fetched(plc, rank, answered, at, name);
            if answered(at) then r == Fetch(plc, rank, name) <==> Undisturbed(plc, answered, at + 1, asks)
            else r == Err && asks == []
    ensures answered(at) ==> (Fetched(plc, rank, answered, at, name).0.Ok? <==> Fetch(plc, rank, name).Ok?)
    ensures !Fetch(plc, rank, name).Ok? ==> Fetched(plc, rank, answered, at, name).1 == []
    decreases if name in plc then rank(name) + 1 else 0, 0
  {
    hide ParseResponse, FetchedFields, FetchFields, Harmless;
    if answered(at) && name in plc && ParseResponse(plc[name]).Ok? {
      FieldsExactly(plc, rank, answered, at + 1, ParseResponse(plc[name]).value.items, rank(name));
      hide Undisturbed;
    }
  }

  /** When every request is answered, the fetch returns the type its name stands for. */
  lemma AllAnswered(plc: Plc, rank: Rank, answered: nat -> bool, at: nat, name: GoString)
    requires Ranked(plc, rank)
    requires forall j :: at <= j <= at + |Fetched(plc, rank, answered, at, name).1| ==> answered(j)
    ensures Fetched(plc, rank, answered, at, name).0 == Fetch(plc, rank, name)
  {
    hide Fetched, Fetch, Harmless;
    FetchedExactly(plc, rank, answered, at, name);
    assert Undisturbed(plc, answered, at + 1, Fetched(plc, rank, answered, at, name).1);
  }

  /** A lost request for a nested type that has fields leaves the parent without them. */
  lemma StuntedParent(plc: Plc, rank: Rank, answered: nat -> bool, at: nat, name: GoString)
    requires Ranked(plc, rank) && name in plc && ParseResponse(plc[name]).Ok?
    requires var items := ParseResponse(plc[name]).value.items;
             && items != [] && IsNested(items[0].dataType)
             && Fetch(plc, rank, items[0].typeName).Ok? && Fetch(plc, rank, items[0].typeName).value.fields != []
    requires answered(at) && !answered(at + 1)
    ensures var r := Fetched(plc, rank, answered, at, name).0; r.Ok? && r != Fetch(plc, rank, name)
  {
    hide ParseResponse, FetchedFields, FetchFields, Harmless;
    var items := ParseResponse(plc[name]).value.items;
    FetchedExactly(plc, rank, answered, at, name);
    HarmlessExactly(plc, rank, items[0]);
    FirstAsk(plc, rank, answered, at + 1, items, rank(name));
  }

  lemma FirstAsk(plc: Plc, rank: Rank, answered: nat -> bool, at: nat, items: seq<Item>, bound: nat)
    requires Ranked(plc, rank) && ItemsRanked(plc, rank, items, bound) && items != [] && IsNested(items[0].dataType)
    ensures var asks := FetchedFields(plc, rank, answered, at, items, bound).asks; asks != [] && asks[0] == items[0]
  {
    hide Fetched;
  }

  // ---------- the fetch loop ----------

  lemma ReadItemAt(data: seq<byte>, offset: nat)
    ensures ReadItem(Rest(data, offset))
            == if offset + 42 > |data| then None
               else
                 var nameEnd: int := offset + 42 + Get16(data[offset + 32..offset + 34]) as int;
                 if nameEnd > |data| then None
                 else
                   var typeEnd: int := nameEnd + 1 + Get16(data[offset + 34..offset + 36]) as int;
                   if typeEnd > |data| then None
                   else Some((Item(SymbolParser.ParseString(data[offset + 42..nameEnd]),
                                   SymbolParser.ParseString(data[nameEnd + 1..typeEnd]),
                                   Get32(data[offset + 16..offset + 20]),
                                   Get32(data[offset + 20..offset + 24]),
                                   Get32(data[offset + 24..offset + 28])),
                              Rest(data, offset + Get32(data[offset..offset + 4]) as int)))
  {
    hide Get16, Get32, SymbolParser.ParseString;
    if offset + 42 <= |data| {
      var s := data[offset..];
      assert s[32..34] == data[offset + 32..offset + 34];
      assert s[34..36] == data[offset + 34..offset + 36];
      assert s[16..20] == data[offset + 16..offset + 20];
      assert s[20..24] == data[offset + 20..offset + 24];
      assert s[24..28] == data[offset + 24..offset + 28];
      assert s[0..4] == data[offset..offset + 4];
      var nameEnd: int := 42 + Get16(s[32..34]) as int;
      if nameEnd <= |s| {
        assert s[42..nameEnd] == data[offset + 42..offset + nameEnd];
        var typeEnd: int := nameEnd + 1 + Get16(s[34..36]) as int;
        if typeEnd <= |s| {
          assert s[nameEnd + 1..typeEnd] == data[offset + nameEnd + 1..offset + typeEnd];
          var len: int := Get32(s[0..4]);
          if len <= |s| {
            assert s[len..] == data[offset + len..];
          }
        }
      }
    }
  }

  /** One more field: what the loop has so far and what is still to come make up the whole. */
  lemma FieldsGrow(plc: Plc, rank: Rank, answered: nat -> bool, at: nat, bound: nat, s: seq<byte>, n: nat, done: Part)
    requires Ranked(plc, rank) && n > 0 && ItemsRanked(plc, rank, ReadItems(s, n), bound)
    ensures match ReadItem(s)
            case None => FetchedFields(plc, rank, answered, at, ReadItems(s, n), bound) == Part([], [])
            case Some((item, rest)) =>
              && ItemsRanked(plc, rank, [item], bound)
              && ItemsRanked(plc, rank, ReadItems(rest, n - 1), bound)
              && var (field, asks) := FetchedField(plc, rank, answered, at, item, bound);
              && Join(done, FetchedFields(plc, rank, answered, at, ReadItems(s, n), bound))
                 == Join(Join(done, Part([field], asks)),
                         FetchedFields(plc, rank, answered, at + |asks|, ReadItems(rest, n - 1), bound))
  {
    hide ReadItem, FetchedField;
    match ReadItem(s) {
      case None =>
      case Some((item, rest)) =>
        var items := ReadItems(s, n);
        assert items[0] == item && items[1..] == ReadItems(rest, n - 1);
        assert forall i :: 0 <= i < |items| - 1 ==> items[1..][i] == items[i + 1];
    }
  }

  function Join(a: Part, b: Part): Part { Part(a.fields + b.fields, a.asks + b.asks) }

  lemma NoFields(plc: Plc, rank: Rank, answered: nat -> bool, at: nat, bound: nat)
    requires Ranked(plc, rank)
    ensures FetchedFields(plc, rank, answered, at, [], bound) == Part([], [])
    ensures forall rest :: ReadItems(rest, 0) == []
    ensures forall part :: Join(part, Part([], [])) == part && Join(Part([], []), part) == part
  {
  }

  /** The connection the types are asked over: answered(i) says whether its i-th request is answered. */
  class Link {
    const plc: Plc
    const answered: nat -> bool
    var asked: nat

    constructor (plc: Plc, answered: nat -> bool)
      ensures this.plc == plc && this.answered == answered && asked == 0
    {
      this.plc, this.answered, this.asked := plc, answered, 0;
    }

    /** One type request: lost, refused for an unknown name, or answered. */
    method Request(name: GoString) returns (r: Option<seq<byte>>)
      modifies this`asked
      ensures asked == old(asked) + 1
      ensures r == if answered(old(asked)) && name in plc then Some(plc[name]) else None
    {
      var arrives := answered(asked);
      asked := asked + 1;
      r := if arrives && name in plc then Some(plc[name]) else None;
    }
  }

  /** fetchTypeInfoFromPLC: one request, a loop over the sub-items, a recursive fetch for each nested
      one. It terminates because nested types rank lower. */
  method FetchTypeInfoFromPLC(link: Link, ghost rank: Rank, name: GoString) returns (r: Outcome<TypeInfo>)
    requires Ranked(link.plc, rank)
    modifies link`asked
    ensures var (result, asks) := Fetched(link.plc, rank, link.answered, old(link.asked), name);
            r == result && link.asked == old(link.asked) + 1 + |asks|
    ensures (forall j :: old(link.asked) <= j < link.asked ==> link.answered(j)) ==> r == Fetch(link.plc, rank, name)
    decreases if name in link.plc then rank(name) + 1 else 0, 0
  {
    hide Get16, Get32, ReadItem, ReadItems, FetchedFields, FetchedField, SymbolParser.ParseString, Fetch;
    ghost var at := link.asked;
    if forall j :: at <= j <= at + |Fetched(link.plc, rank, link.answered, at, name).1| ==> link.answered(j) {
      AllAnswered(link.plc, rank, link.answered, at, name);
    }
    var response := link.Request(name);
    if response.None? {
      return Err;
    }
    var data := response.value;
    if |data| < 42 {
      return Err;
    }
    var typeSize := Get32(data[16..20]);
    var dataTypeID := Get32(data[24..28]);
    var nameLength := Get16(data[32..34]);
    var typeLength := Get16(data[34..36]);
    var commentLength := Get16(data[36..38]);
    var subItems := Get16(data[40..42]);
    ghost var bound := rank(name);
    NoFields(link.plc, rank, link.answered, link.asked, bound);
    if subItems == 0 {
      return Ok(TypeInfo(name, dataTypeID, typeSize, [], false, false, []));
    }
    var offset: nat := 42 + nameLength as int + 1 + typeLength as int + 1 + commentLength as int + 1;
    assert ItemsRanked(link.plc, rank, ParseResponse(data).value.items, bound);
    var fields := FetchLoop(link, rank, bound, data, offset, subItems);
    r := Ok(TypeInfo(name, dataTypeID, typeSize, [], false, true, fields));
  }

  /** The loop over the sub-items, each possibly fetching a nested type. */
  method FetchLoop(link: Link, ghost rank: Rank, ghost bound: nat, data: seq<byte>, start: nat, subItems: nat)
    returns (fields: seq<FieldInfo>)
    requires Ranked(link.plc, rank) && ItemsRanked(link.plc, rank, ReadItems(Rest(data, start), subItems), bound)
    modifies link`asked
    ensures var part := FetchedFields(link.plc, rank, link.answered, old(link.asked),
                                      ReadItems(Rest(data, start), subItems), bound);
            fields == part.fields && link.asked == old(link.asked) + |part.asks|
    decreases bound, 2 + subItems
  {
    hide Get16, Get32, ReadItem, ReadItems, FetchedFields, FetchedField, SymbolParser.ParseString, Rest, ItemsRanked,
         Join;
    ghost var plc, answered := link.plc, link.answered;
    ghost var whole := FetchedFields(plc, rank, answered, link.asked, ReadItems(Rest(data, start), subItems), bound);
    ghost var done := Part([], []);
    ghost var at := link.asked;
    NoFields(plc, rank, answered, at, bound);
    var offset: nat := start;
    var i: nat := 0;
    fields := [];
    while i < subItems && offset + 42 <= |data|
      invariant i <= subItems
      invariant ItemsRanked(plc, rank, ReadItems(Rest(data, offset), subItems - i), bound)
      invariant fields == done.fields && link.asked == at + |done.asks|
      invariant whole == Join(done, FetchedFields(plc, rank, answered, link.asked,
                                                  ReadItems(Rest(data, offset), subItems - i), bound))
    {
      ReadItemAt(data, offset);
      FieldsGrow(plc, rank, answered, link.asked, bound, Rest(data, offset), subItems - i, done);
      var fieldSize := Get32(data[offset + 16..offset + 20]);
      var fieldOffset := Get32(data[offset + 20..offset + 24]);
      var fieldDataType := Get32(data[offset + 24..offset + 28]);
      var fieldNameEnd: nat := offset + 42 + Get16(data[offset + 32..offset + 34]) as int;
      if fieldNameEnd > |data| {
        return;
      }
      var fieldTypeEnd: nat := fieldNameEnd + 1 + Get16(data[offset + 34..offset + 36]) as int;
      if fieldTypeEnd > |data| {
        return;
      }
      var item := Item(SymbolParser.ParseString(data[offset + 42..fieldNameEnd]),
                       SymbolParser.ParseString(data[fieldNameEnd + 1..fieldTypeEnd]),
                       fieldSize, fieldOffset, fieldDataType);
      ghost var now := link.asked;
      var field := FieldOf(link, rank, bound, item);
      ghost var asks := FetchedField(plc, rank, answered, now, item, bound).1;
      JoinOne(done, field, asks);
      done := Join(done, Part([field], asks));
      fields := fields + [field];
      offset := offset + Get32(data[offset..offset + 4]) as int;
      i := i + 1;
    }
    if i < subItems {
      ReadItemAt(data, offset);
      FieldsGrow(plc, rank, answered, link.asked, bound, Rest(data, offset), subItems - i, done);
    }
    NoFields(plc, rank, answered, link.asked, bound);
  }

  lemma JoinOne(done: Part, field: FieldInfo, asks: seq<Item>)
    ensures Join(done, Part([field], asks)) == Part(done.fields + [field], done.asks + asks)
  {
  }

  method FieldOf(link: Link, ghost rank: Rank, ghost bound: nat, item: Item) returns (field: FieldInfo)
    requires Ranked(link.plc, rank) && ItemsRanked(link.plc, rank, [item], bound)
    modifies link`asked
    ensures var (result, asks) := FetchedField(link.plc, rank, link.answered, old(link.asked), item, bound);
            field == result && link.asked == old(link.asked) + |asks|
    decreases bound, 1
  {
    assert [item][0] == item;
    var t := PlainType(item, false);
    if IsNested(item.dataType) {
      t := PlainType(item, true);
      var nested := FetchTypeInfoFromPLC(link, rank, item.typeName);
      if nested.Ok? {
        t := nested.value;
      }
    }
    field := FieldInfo(item.name, item.offset, t);
  }
}
