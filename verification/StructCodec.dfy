/** Encoding structs: a map of fields, possibly nested, into a buffer. */
module StructCodec {
  import opened Bytes
  import opened Outcomes
  import opened Types
  import opened Values
  import opened Windows
  import opened EncodingOrders

  /** A loop over a map of entries under way: the keys visited so far, in order, and the order of every
      map inside their values. */
  ghost predicate Visiting(m: map<GoString, Value>, keys: seq<GoString>, inner: map<GoString, Order>) {
    && (forall k :: k in keys ==> k in m && k in inner && IsOrderOf(m[k], inner[k]))
    && (forall i, j :: 0 <= i < j < |keys| ==> keys[i] != keys[j])
  }

  lemma VisitOne(m: map<GoString, Value>, keys: seq<GoString>, inner: map<GoString, Order>, k: GoString, o: Order)
    requires Visiting(m, keys, inner) && k in m && k !in keys && IsOrderOf(m[k], o)
    ensures Visiting(m, keys + [k], inner[k := o])
  {
    hide IsOrderOf;
  }

  /** The order of a whole loop that starts with the keys visited. */
  ghost function Completed(m: map<GoString, Value>, keys: seq<GoString>, inner: map<GoString, Order>): (o: Order)
    requires Visiting(m, keys, inner)
    ensures IsOrderOf(Struct(m), o)
    ensures forall k :: k in keys ==> o.inner[k] == inner[k]
    ensures keys <= o.keys
  {
    var rest := m.Keys - (set k | k in keys);
    var o := Order(keys + AnyKeys(rest), map k | k in m :: if k in keys then inner[k] else AnyOrder(m[k]));
    assert IsOrder(m.Keys, o.keys) by { CompletedOrder(m.Keys, keys, AnyKeys(rest)); }
    o
  }

  lemma CompletedOrder(all: set<GoString>, a: seq<GoString>, b: seq<GoString>)
    requires (forall k :: k in a ==> k in all) && (forall i, j :: 0 <= i < j < |a| ==> a[i] != a[j])
    requires IsOrder(all - (set k | k in a), b)
    ensures IsOrder(all, a + b)
  {
    forall i, j | 0 <= i < j < |a + b|
      ensures (a + b)[i] != (a + b)[j]
    {
      if i < |a| <= j {
        assert b[j - |a|] in b && a[i] in a;
      }
    }
  }

  /** A loop that ends, at its last key or at a failure, ends as its completed order does. */
  lemma LoopEnds(base: seq<byte>, m: map<GoString, Value>, keys: seq<GoString>, inner: map<GoString, Order>,
                 visited: Pieces, all: Pieces)
    requires Visiting(m, keys, inner) && all.Keys == m.Keys
    requires forall k :: k in keys ==> k in visited && visited[k] == all[k]
    requires (forall k :: k in m ==> k in keys) || !CopyInOrder(base, visited, keys).Ok?
    ensures forall k :: k in Completed(m, keys, inner).keys ==> k in all
    ensures CopyInOrder(base, all, Completed(m, keys, inner).keys) == CopyInOrder(base, visited, keys)
  {
    hide IsOrderOf;
    var o := Completed(m, keys, inner);
    CopySame(base, visited, all, keys);
    if forall k :: k in m ==> k in keys {
      assert m.Keys - (set k | k in keys) == {};
      assert keys + [] == keys;
    } else {
      FailureStays(base, all, keys, AnyKeys(m.Keys - (set k | k in keys)));
    }
  }

  /** The loop of encodeNestedStruct under way: the pieces of the keys visited have been copied. */
  ghost predicate Encoding(env: Env, v: Value, fields: seq<FieldInfo>, base: seq<byte>, keys: seq<GoString>,
                           inner: map<GoString, Order>, pieces: Pieces, buf: seq<byte>)
    requires v.Struct?
  {
    && Visiting(v.fields, keys, inner)
    && (forall k :: k in keys ==> k in pieces && pieces[k] == PieceInOrder(env, v.fields[k], fields, k, inner[k]))
    && CopyInOrder(base, pieces, keys) == Ok(buf)
  }

  lemma EncodingStarts(env: Env, v: Value, fields: seq<FieldInfo>, base: seq<byte>)
    requires v.Struct?
    ensures Encoding(env, v, fields, base, [], map[], map[], base)
  {
  }

  /** One more entry is copied, or the loop ends here. */
  lemma EncodingStep(env: Env, v: Value, fields: seq<FieldInfo>, base: seq<byte>, keys: seq<GoString>,
                     inner: map<GoString, Order>, pieces: Pieces, buf: seq<byte>, k: GoString, ok: Order)
    returns (o: Order)
    requires v.Struct? && Encoding(env, v, fields, base, keys, inner, pieces, buf)
    requires k in v.fields && k !in keys && IsOrderOf(v.fields[k], ok)
    ensures IsOrderOf(v, o)
    ensures var piece := PieceInOrder(env, v.fields[k], fields, k, ok);
            var r := CopyPiece(buf, piece);
            if r.Ok? then Encoding(env, v, fields, base, keys + [k], inner[k := ok], pieces[k := piece], r.value)
            else CopyInOrder(base, PiecesInOrder(env, v, fields, o), o.keys) == r
  {
    hide IsOrderOf, CopyInOrder, CopyPiece, PieceInOrder, Completed;
    var piece := PieceInOrder(env, v.fields[k], fields, k, ok);
    CopyOneMore(base, pieces, keys, k, piece);
    VisitOne(v.fields, keys, inner, k, ok);
    o := Completed(v.fields, keys + [k], inner[k := ok]);
    if !CopyPiece(buf, piece).Ok? {
      LoopEnds(base, v.fields, keys + [k], inner[k := ok], pieces[k := piece], PiecesInOrder(env, v, fields, o));
    }
  }

  lemma EncodingEnds(env: Env, v: Value, fields: seq<FieldInfo>, base: seq<byte>, keys: seq<GoString>,
                     inner: map<GoString, Order>, pieces: Pieces, buf: seq<byte>) returns (o: Order)
    requires v.Struct? && Encoding(env, v, fields, base, keys, inner, pieces, buf)
    requires forall k :: k in v.fields ==> k in keys
    ensures IsOrderOf(v, o) && CopyInOrder(base, PiecesInOrder(env, v, fields, o), o.keys) == Ok(buf)
  {
    hide IsOrderOf, CopyInOrder, PieceInOrder, Completed;
    o := Completed(v.fields, keys, inner);
    LoopEnds(base, v.fields, keys, inner, pieces, PiecesInOrder(env, v, fields, o));
  }

  /** encodeSymbolValue for a symbol of type typ and the given size: what it returns is what some order of
      the maps gives, and the order is part of the result. */
  method EncodeSymbolValue(env: Env, v: Value, typ: TypeInfo, size: u32)
    returns (r: Outcome<seq<byte>>, ghost o: Order)
    ensures IsOrderOf(v, o) && r == EncodeInOrder(env, v, typ.name, size, o)
    ensures r.Ok? <==> Encoded(env, v, typ.name, size).Some?
    ensures r.Err? ==> MayErr(env, v, typ.name, size)
    ensures r.Panic? ==> MayPanic(env, v, typ.name, size)
    ensures r.Ok? ==> |r.value| == |Encoded(env, v, typ.name, size).value|
    ensures r.Ok? && OrderFree(env, v, typ.name, size) ==> r.value == Encoded(env, v, typ.name, size).value
    decreases v, 1
  {
    if v.Struct? {
      r, o := EncodeNestedStruct(env, v, typ, size);
    } else {
      o := AnyOrder(v);
      r := EncodeScalar(env.fl, v, typ.name, size);
    }
    hide EncodeInOrder, Encoded, MayErr, MayPanic, OrderFree, IsOrderOf;
    EncodesInOrder(env, v, typ.name, size, o);
    OrderMayFail(env, v, typ.name, size, o);
    if r.Ok? && OrderFree(env, v, typ.name, size) {
      OrderFreeBytes(env, v, typ.name, size, o);
    }
  }

  /** encodeNestedStruct: the entries in whatever order the map yields them. */
  method EncodeNestedStruct(env: Env, v: Value, typ: TypeInfo, size: u32)
    returns (r: Outcome<seq<byte>>, ghost o: Order)
    requires v.Struct?
    ensures IsOrderOf(v, o) && r == EncodeInOrder(env, v, typ.name, size, o)
    decreases v, 0
  {
    hide IsOrderOf, CopyInOrder, Encoded, MayErr, MayPanic, OrderFree, Overlay, PiecesInOrder;
    o := AnyOrder(v);
    var found := env.lookup(typ.name);
    if found.None? {
      return Err, o;
    }
    var fields := found.value.fields;
    if fields == [] {
      return Err, o;
    }
    var data := MakeBuffer(size);
    ghost var base := data[..];
    ghost var keys: seq<GoString>, inner: map<GoString, Order>, pieces: Pieces := [], map[], map[];
    var remaining := v.fields.Keys;
    EncodingStarts(env, v, fields, base);
    hide Encoding;
    while remaining != {}
      invariant remaining <= v.fields.Keys && data.Length == size && fresh(data)
      invariant IsOrder(v.fields.Keys - remaining, keys)
      invariant Encoding(env, v, fields, base, keys, inner, pieces, data[..])
      decreases remaining
    {
      var k :| k in remaining;
      var i := FindField(fields, k);
      if i == -1 {
        o := EncodingStep(env, v, fields, base, keys, inner, pieces, data[..], k, AnyOrder(v.fields[k]));
        return Err, o;
      }
      var encoded, ok := EncodeSymbolValue(env, v.fields[k], fields[i].typ, fields[i].typ.size);
      o := EncodingStep(env, v, fields, base, keys, inner, pieces, data[..], k, ok);
      if !encoded.Ok? {
        return encoded, o;
      }
      if fields[i].offset > size {
        return Panic, o;
      }
      CopyInto(data, fields[i].offset, encoded.value);
      keys, inner, pieces := keys + [k], inner[k := ok], pieces[k := PieceInOrder(env, v.fields[k], fields, k, ok)];
      remaining := remaining - {k};
    }
    o := EncodingEnds(env, v, fields, base, keys, inner, pieces, data[..]);
    r := Ok(data[..]);
  }
}
