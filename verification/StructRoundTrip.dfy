/** What is encoded parses back: at any nesting depth, for values that fit their type. */
module StructRoundTrip {
  import opened Bytes
  import opened Outcomes
  import opened Types
  import opened Values
  import opened Windows
  import opened EncodingOrders
  import opened StructParser
  import Discovery
  import Registry

  predicate Apart(f: FieldInfo, g: FieldInfo) {
    f.offset + f.typ.size <= g.offset || g.offset + g.typ.size <= f.offset
  }

  /** Distinct names, and windows that lie inside the struct without overlapping. */
  predicate Layout(fields: seq<FieldInfo>, size: nat) {
    && DistinctNames(fields)
    && (forall i :: 0 <= i < |fields| ==> Inside(fields[i], size))
    && (forall i, j :: 0 <= i < j < |fields| ==> Apart(fields[i], fields[j]))
  }

  /** v gives every field of t, at every depth, a value of its exact size. */
  predicate Shaped(fl: Floats, v: Value, t: TypeInfo)
    decreases v
  {
    && !t.isArray && t.size > 0
    && if v.Struct? then
         && t.isStruct && t.fields != [] && Layout(t.fields, t.size)
         && (forall i :: 0 <= i < |t.fields| ==> t.fields[i].name in v.fields)
         && (forall k :: k in v.fields ==>
               var i := FieldIndex(t.fields, k);
               i >= 0 && Shaped(fl, v.fields[k], t.fields[i].typ))
       else !t.isStruct && ScalarFits(fl, v, t)
  }

  /** A struct type's name looks up to the fields embedded in it, at every depth. */
  predicate Agrees(lookup: GoString -> Option<TypeInfo>, t: TypeInfo) {
    t.fields != [] ==>
      && lookup(t.name).Some? && lookup(t.name).value.fields == t.fields
      && forall i :: 0 <= i < |t.fields| ==> Agrees(lookup, t.fields[i].typ)
  }

  predicate Fits(env: Env, v: Value, t: TypeInfo) {
    Shaped(env.fl, v, t) && Agrees(env.lookup, t)
  }

  /** Encoded at its exact size, whatever the order of the maps. */
  ghost predicate EncodesExactly(env: Env, v: Value, t: TypeInfo) {
    && Encoded(env, v, t.name, t.size).Some?
    && |Encoded(env, v, t.name, t.size).value| == t.size
    && OrderFree(env, v, t.name, t.size)
  }

  lemma ScalarCase(env: Env, v: Value, t: TypeInfo)
    requires Fits(env, v, t) && !v.Struct?
    ensures EncodesExactly(env, v, t)
    ensures ParseField(Encoded(env, v, t.name, t.size).value, t) == v
  {
    ScalarRoundTrip(env.fl, v, t);
    hide EncodeScalar, ParseSimple, ScalarFits;
  }

  /** The field an entry of a fitting struct goes to. */
  function FieldNamed(fields: seq<FieldInfo>, k: GoString): (f: FieldInfo)
    requires FieldIndex(fields, k) >= 0
    ensures f in fields && f.name == k
  {
    fields[FieldIndex(fields, k)]
  }

  lemma PieceOf(env: Env, v: Value, t: TypeInfo, k: GoString)
    requires Fits(env, v, t) && v.Struct? && k in v.fields
    requires EncodesExactly(env, v.fields[k], FieldNamed(t.fields, k).typ)
    ensures FieldEncodes(env, v.fields[k], t.fields, k, t.size)
    ensures var f := FieldNamed(t.fields, k);
            FieldPatch(env, v.fields[k], t.fields, k, t.size)
              == Patch(f.offset, Encoded(env, v.fields[k], f.typ.name, f.typ.size).value)
  {
    hide Encoded, OrderFree, ScalarFits;
  }

  lemma FieldsApart(fields: seq<FieldInfo>, size: nat, k1: GoString, k2: GoString)
    requires Layout(fields, size) && k1 != k2
    requires FieldIndex(fields, k1) >= 0 && FieldIndex(fields, k2) >= 0
    ensures Apart(FieldNamed(fields, k1), FieldNamed(fields, k2))
  {
    var i1, i2 := FieldIndex(fields, k1), FieldIndex(fields, k2);
    assert Apart(fields[if i1 < i2 then i1 else i2], fields[if i1 < i2 then i2 else i1]);
  }

  lemma PiecesApart(fields: seq<FieldInfo>, size: nat, patches: map<GoString, Patch>)
    requires Layout(fields, size)
    requires forall k | k in patches :: FieldIndex(fields, k) >= 0
              && patches[k].offset == FieldNamed(fields, k).offset
              && |patches[k].bytes| == FieldNamed(fields, k).typ.size
    ensures Agree(patches, size)
  {
    hide FieldNamed, FieldIndex;
    forall k1, k2 | k1 in patches && k2 in patches && k1 != k2
      ensures Apart(FieldNamed(fields, k1), FieldNamed(fields, k2))
    {
      FieldsApart(fields, size, k1, k2);
    }
    hide Layout;
  }

  lemma LayoutOf(env: Env, v: Value, t: TypeInfo)
    requires Fits(env, v, t) && v.Struct?
    ensures Layout(t.fields, t.size)
  {
  }

  /** data holds the bytes of an entry in the window of its field. */
  ghost predicate Holds(env: Env, data: seq<byte>, v: Value, f: FieldInfo) {
    && Inside(f, |data|)
    && EncodesExactly(env, v, f.typ)
    && FieldBytes(data, f) == Encoded(env, v, f.typ.name, f.typ.size).value
  }

  /** A struct whose entries encode exactly has one piece for each, of the field's size. */
  lemma StructPieces(env: Env, v: Value, t: TypeInfo)
    requires Fits(env, v, t) && v.Struct?
    requires forall k :: k in v.fields ==> EncodesExactly(env, v.fields[k], FieldNamed(t.fields, k).typ)
    ensures Encodable(env, v, t.name, t.size) && Agree(Patches(env, v, t.name, t.size), t.size)
    ensures forall k | k in v.fields ::
              var f := FieldNamed(t.fields, k);
              && EncodesExactly(env, v.fields[k], f.typ)
              && Patches(env, v, t.name, t.size)[k]
                 == Patch(f.offset, Encoded(env, v.fields[k], f.typ.name, f.typ.size).value)
  {
    forall k | k in v.fields
      ensures FieldEncodes(env, v.fields[k], t.fields, k, t.size)
      ensures var f := FieldNamed(t.fields, k);
              && EncodesExactly(env, v.fields[k], f.typ)
              && FieldPatch(env, v.fields[k], t.fields, k, t.size)
                == Patch(f.offset, Encoded(env, v.fields[k], f.typ.name, f.typ.size).value)
    {
      PieceOf(env, v, t, k);
    }
    hide FieldEncodes, FieldPatch, OrderFree, Encoded, Agree, ScalarFits;
    assert Layout(t.fields, t.size) by { LayoutOf(env, v, t); }
    PiecesApart(t.fields, t.size, Patches(env, v, t.name, t.size));
  }

  lemma StructExact(env: Env, v: Value, t: TypeInfo)
    requires Fits(env, v, t) && v.Struct? && Encodable(env, v, t.name, t.size)
    requires Agree(Patches(env, v, t.name, t.size), t.size)
    requires forall k :: k in v.fields ==> EncodesExactly(env, v.fields[k], FieldNamed(t.fields, k).typ)
    ensures EncodesExactly(env, v, t)
    ensures Encoded(env, v, t.name, t.size).value == Paint(Zeros(t.size), Patches(env, v, t.name, t.size))
  {
    assert forall k :: k in v.fields ==> FieldEncodes(env, v.fields[k], t.fields, k, t.size);
    assert OrderFree(env, v, t.name, t.size) by {
      hide Agree, ScalarFits, Paint, Layout, Encoded, FieldEncodes, OrderFree;
      OrderFreePieces(env, v, t.name, t.size);
    }
    hide Agree, ScalarFits, Paint, EncodeScalar, Layout, OrderFree, FieldEncodes;
  }

  /** So it encodes exactly itself, and keeps each entry's bytes in its window. */
  lemma StructHolds(env: Env, v: Value, t: TypeInfo)
    requires Fits(env, v, t) && v.Struct?
    requires forall k :: k in v.fields ==> EncodesExactly(env, v.fields[k], FieldNamed(t.fields, k).typ)
    ensures EncodesExactly(env, v, t)
    ensures forall k :: k in v.fields ==>
              Holds(env, Encoded(env, v, t.name, t.size).value, v.fields[k], FieldNamed(t.fields, k))
  {
    StructPieces(env, v, t);
    StructExact(env, v, t);
    var patches := Patches(env, v, t.name, t.size);
    assert Layout(t.fields, t.size) by { LayoutOf(env, v, t); }
    PaintedBytes(Zeros(t.size), patches);
    hide Agree, Paint, Patches, Fits, Encoded, OrderFree, Encodable;
    forall k | k in v.fields
      ensures Holds(env, Encoded(env, v, t.name, t.size).value, v.fields[k], FieldNamed(t.fields, k))
    {
      assert k in patches;
    }
  }

  /** Encoding a fitting value gives exactly t.size bytes in every iteration order, and parsing them
      gives the value back. */
  lemma {:induction false} RoundTrip(env: Env, v: Value, t: TypeInfo)
    requires Fits(env, v, t)
    ensures EncodesExactly(env, v, t)
    ensures ParseField(Encoded(env, v, t.name, t.size).value, t) == v
    decreases v
  {
    if !v.Struct? {
      ScalarCase(env, v, t);
    } else {
      forall k | k in v.fields
        ensures EncodesExactly(env, v.fields[k], FieldNamed(t.fields, k).typ)
        ensures var f := FieldNamed(t.fields, k);
                ParseField(Encoded(env, v.fields[k], f.typ.name, f.typ.size).value, f.typ) == v.fields[k]
      {
        RoundTrip(env, v.fields[k], FieldNamed(t.fields, k).typ);
      }
      StructHolds(env, v, t);
      var data := Encoded(env, v, t.name, t.size).value;
      hide Encoded, OrderFree, ScalarFits, FieldBytes;
      FieldsParseBack(t.fields, data, v.fields);
    }
  }

  predicate ParsesTo(data: seq<byte>, f: FieldInfo, v: Value) {
    Inside(f, |data|) && ParseField(FieldBytes(data, f), f.typ) == v
  }

  /** Parsing finds exactly the entries whose bytes the windows hold. */
  lemma FieldsParseBack(fields: seq<FieldInfo>, data: seq<byte>, m: map<GoString, Value>)
    requires DistinctNames(fields)
    requires forall i :: 0 <= i < |fields| ==> fields[i].name in m
    requires forall k :: k in m ==> FieldIndex(fields, k) >= 0 && ParsesTo(data, FieldNamed(fields, k), m[k])
    ensures ParseFields(data, fields) == m
  {
    var parsed := ParseFields(data, fields);
    hide ParseField, ParseFields, FieldIndex;
    forall k
      ensures k in parsed <==> k in m
      ensures k in m ==> parsed[k] == m[k]
    {
      ParseFieldsKeys(data, fields, k);
      if k in m {
        assert FieldNamed(fields, k) == fields[FieldIndex(fields, k)];
        ParseFieldsAt(data, fields, FieldIndex(fields, k));
      }
    }
  }

  // ---------- types that were fetched ----------

  /** The lookup of a client whose registry answers as a direct fetch does. */
  ghost function Fetches(plc: Discovery.Plc, rank: Discovery.Rank): GoString -> Option<TypeInfo>
    requires Discovery.Ranked(plc, rank)
  {
    name => var fetched := Discovery.Fetch(plc, rank, name); if fetched.Ok? then Some(fetched.value) else None
  }

  /** A fetched type agrees with what its nested types look up to, at every depth: the precondition of
      RoundTrip comes for free. */
  lemma {:induction false} FetchedAgrees(plc: Discovery.Plc, rank: Discovery.Rank, name: GoString)
    requires Discovery.Ranked(plc, rank) && Discovery.Fetch(plc, rank, name).Ok?
    ensures Agrees(Fetches(plc, rank), Discovery.Fetch(plc, rank, name).value)
    decreases rank(name)
  {
    var t := Discovery.Fetch(plc, rank, name).value;
    var items := Discovery.ParseResponse(plc[name]).value.items;
    assert Discovery.ItemsRanked(plc, rank, items, rank(name));
    forall i | 0 <= i < |t.fields|
      ensures Agrees(Fetches(plc, rank), t.fields[i].typ)
    {
      Registry.FieldsAgree(plc, rank, items, rank(name), i);
      if Discovery.IsNested(items[i].dataType) && Discovery.Fetch(plc, rank, items[i].typeName).Ok? {
        FetchedAgrees(plc, rank, items[i].typeName);
      }
    }
  }
}
