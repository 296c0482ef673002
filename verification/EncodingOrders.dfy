/** What encoding a value can come to: every map in it, at any depth, is iterated in some order. */
module EncodingOrders {
  import opened Bytes
  import opened Outcomes
  import opened Types
  import opened Values
  import opened Windows

  /** What the codec asks for: facts about floats, and the description of a type by name (from the
      registry or the PLC, see Registry.CacheTransparent). */
  datatype Env = Env(fl: Floats, lookup: GoString -> Option<TypeInfo>)

  // ---------- what encoding produces ----------

  /** The bytes of v for a symbol of the given type name and size, None when no iteration order of the
      maps in v lets encoding succeed. */
  ghost function Encoded(env: Env, v: Value, name: GoString, size: u32): Option<seq<byte>>
    decreases v, 2
  {
    if !v.Struct? then
      match EncodeScalar(env.fl, v, name, size)
      case Ok(bs) => Some(bs)
      case Err => None
      case Panic => None
    else if Encodable(env, v, name, size) then Some(Paint(Zeros(size), Patches(env, v, name, size)))
    else None
  }

  /** The type is known, has fields, and every entry of the map names one, encodes, and starts inside. */
  ghost predicate Encodable(env: Env, v: Value, name: GoString, size: u32)
    requires v.Struct?
    decreases v, 0
  {
    && env.lookup(name).Some? && env.lookup(name).value.fields != []
    && forall k :: k in v.fields ==> FieldEncodes(env, v.fields[k], env.lookup(name).value.fields, k, size)
  }

  ghost predicate FieldEncodes(env: Env, v: Value, fields: seq<FieldInfo>, k: GoString, size: u32)
    decreases v, 3
  {
    var i := FieldIndex(fields, k);
    i >= 0 && fields[i].offset <= size && Encoded(env, v, fields[i].typ.name, fields[i].typ.size).Some?
  }

  ghost function FieldPatch(env: Env, v: Value, fields: seq<FieldInfo>, k: GoString, size: u32): (p: Patch)
    requires FieldEncodes(env, v, fields, k, size)
    ensures p.offset <= size
    decreases v, 4
  {
    var f := fields[FieldIndex(fields, k)];
    Patch(f.offset, Encoded(env, v, f.typ.name, f.typ.size).value)
  }

  /** Each entry's bytes at its field's offset: not cut to the field's size. */
  ghost function Patches(env: Env, v: Value, name: GoString, size: u32): (patches: map<GoString, Patch>)
    requires v.Struct? && Encodable(env, v, name, size)
    ensures patches.Keys == v.fields.Keys
    decreases v, 1
  {
    map k | k in v.fields :: FieldPatch(env, v.fields[k], env.lookup(name).value.fields, k, size)
  }

  // ---------- one order for every map ----------

  /** An order for the keys of a map, and one for each map inside it. */
  datatype Order = Order(keys: seq<GoString>, inner: map<GoString, Order>)

  ghost predicate IsOrderOf(v: Value, o: Order)
    decreases v
  {
    v.Struct? ==>
      && IsOrder(v.fields.Keys, o.keys)
      && forall k :: k in v.fields ==> k in o.inner && IsOrderOf(v.fields[k], o.inner[k])
  }

  ghost function AnyOrder(v: Value): (o: Order)
    ensures IsOrderOf(v, o)
    decreases v
  {
    if v.Struct? then Order(AnyKeys(v.fields.Keys), map k | k in v.fields :: AnyOrder(v.fields[k]))
    else Order([], map[])
  }

  /** What encodeSymbolValue returns when it iterates in this order. */
  ghost function EncodeInOrder(env: Env, v: Value, name: GoString, size: u32, o: Order): Outcome<seq<byte>>
    requires IsOrderOf(v, o)
    decreases v, 1
  {
    if !v.Struct? then EncodeScalar(env.fl, v, name, size)
    else
      var t := env.lookup(name);
      if t.None? || t.value.fields == [] then Err
      else CopyInOrder(Zeros(size), PiecesInOrder(env, v, t.value.fields, o), o.keys)
  }

  ghost function PiecesInOrder(env: Env, v: Value, fields: seq<FieldInfo>, o: Order): (pieces: Pieces)
    requires v.Struct? && IsOrderOf(v, o)
    ensures pieces.Keys == v.fields.Keys
    decreases v, 0
  {
    map k | k in v.fields :: PieceInOrder(env, v.fields[k], fields, k, o.inner[k])
  }

  /** The field is searched, the value encoded for it. */
  ghost function PieceInOrder(env: Env, v: Value, fields: seq<FieldInfo>, k: GoString, o: Order): Outcome<Patch>
    requires IsOrderOf(v, o)
    decreases v, 2
  {
    var i := FieldIndex(fields, k);
    if i == -1 then Err
    else
      match EncodeInOrder(env, v, fields[i].typ.name, fields[i].typ.size, o)
      case Ok(bs) => Ok(Patch(fields[i].offset, bs))
      case Err => Err
      case Panic => Panic
  }

  // ---------- success does not depend on the order ----------

  /** Whether a value encodes, and at what length, is the same in every order. */
  lemma {:induction false} EncodesInOrder(env: Env, v: Value, name: GoString, size: u32, o: Order)
    requires IsOrderOf(v, o)
    ensures var r := EncodeInOrder(env, v, name, size, o);
            && (r.Ok? <==> Encoded(env, v, name, size).Some?)
            && (r.Ok? ==> |r.value| == |Encoded(env, v, name, size).value|)
    decreases v, 0
  {
    hide Paint, EncodeScalar, CopyInOrder;
    if v.Struct? && env.lookup(name).Some? {
      var fields := env.lookup(name).value.fields;
      var pieces := PiecesInOrder(env, v, fields, o);
      forall k | k in v.fields
        ensures Fine(pieces[k], size) <==> FieldEncodes(env, v.fields[k], fields, k, size)
      {
        PieceEncodes(env, v.fields[k], fields, k, size, o.inner[k]);
      }
      CopyOk(Zeros(size), pieces, o.keys);
      hide PiecesInOrder, PieceInOrder, FieldEncodes;
    }
  }

  lemma {:induction false} PieceEncodes(env: Env, v: Value, fields: seq<FieldInfo>, k: GoString, size: u32, o: Order)
    requires IsOrderOf(v, o)
    ensures var piece := PieceInOrder(env, v, fields, k, o);
            && (Fine(piece, size) <==> FieldEncodes(env, v, fields, k, size))
            && (Fine(piece, size) ==>
                  && piece.value.offset == FieldPatch(env, v, fields, k, size).offset
                  && |piece.value.bytes| == |FieldPatch(env, v, fields, k, size).bytes|)
    decreases v, 1
  {
    var i := FieldIndex(fields, k);
    if i >= 0 {
      EncodesInOrder(env, v, fields[i].typ.name, fields[i].typ.size, o);
      hide EncodeInOrder, Encoded;
    }
  }

  /** In every order, a byte of a struct that no entry's field covers is zero. */
  lemma UncoveredIsZero(env: Env, v: Value, name: GoString, size: u32, o: Order, j: nat)
    requires IsOrderOf(v, o) && v.Struct? && EncodeInOrder(env, v, name, size, o).Ok? && j < size
    requires Encodable(env, v, name, size)
             && forall k :: k in v.fields ==> !Covers(Patches(env, v, name, size)[k], j)
    ensures |EncodeInOrder(env, v, name, size, o).value| == size && EncodeInOrder(env, v, name, size, o).value[j] == 0
  {
    hide CopyInOrder, PieceInOrder, FieldPatch, FieldEncodes;
    var fields := env.lookup(name).value.fields;
    var pieces := PiecesInOrder(env, v, fields, o);
    forall k | k in v.fields
      ensures Fine(pieces[k], size) && MissesByte(pieces[k], j)
    {
      assert FieldEncodes(env, v.fields[k], fields, k, size);
      assert Patches(env, v, name, size)[k] == FieldPatch(env, v.fields[k], fields, k, size);
      PieceEncodes(env, v.fields[k], fields, k, size, o.inner[k]);
    }
    CopyByte(Zeros(size), pieces, o.keys, j);
  }

  // ---------- how encoding can fail ----------

  /** Some iteration order ends in an error. */
  ghost predicate MayErr(env: Env, v: Value, name: GoString, size: u32)
    decreases v, 0
  {
    if !v.Struct? then EncodeScalar(env.fl, v, name, size) == Err
    else
      var t := env.lookup(name);
      t.None? || t.value.fields == [] || exists k :: k in v.fields && FieldMayErr(env, v.fields[k], t.value.fields, k)
  }

  ghost predicate FieldMayErr(env: Env, v: Value, fields: seq<FieldInfo>, k: GoString)
    decreases v, 1
  {
    var i := FieldIndex(fields, k);
    i == -1 || MayErr(env, v, fields[i].typ.name, fields[i].typ.size)
  }

  /** Some iteration order ends in a panic: a string for a window of size 0, or an encoded field that
      starts beyond its struct. */
  ghost predicate MayPanic(env: Env, v: Value, name: GoString, size: u32)
    decreases v, 0
  {
    if !v.Struct? then EncodeScalar(env.fl, v, name, size) == Panic
    else
      var t := env.lookup(name);
      t.Some? && exists k :: k in v.fields && FieldMayPanic(env, v.fields[k], t.value.fields, k, size)
  }

  ghost predicate FieldMayPanic(env: Env, v: Value, fields: seq<FieldInfo>, k: GoString, size: u32)
    decreases v, 1
  {
    var i := FieldIndex(fields, k);
    i != -1
    && if Encoded(env, v, fields[i].typ.name, fields[i].typ.size).Some? then fields[i].offset > size
       else MayPanic(env, v, fields[i].typ.name, fields[i].typ.size)
  }

  /** Whatever an order ends in may happen. */
  lemma {:induction false} OrderMayFail(env: Env, v: Value, name: GoString, size: u32, o: Order)
    requires IsOrderOf(v, o)
    ensures EncodeInOrder(env, v, name, size, o) == Err ==> MayErr(env, v, name, size)
    ensures EncodeInOrder(env, v, name, size, o) == Panic ==> MayPanic(env, v, name, size)
    decreases v, 0
  {
    hide EncodeScalar, CopyInOrder;
    if v.Struct? && env.lookup(name).Some? && env.lookup(name).value.fields != [] {
      var fields := env.lookup(name).value.fields;
      var pieces := PiecesInOrder(env, v, fields, o);
      CopyFails(Zeros(size), pieces, o.keys);
      if !EncodeInOrder(env, v, name, size, o).Ok? {
        var k :| k in o.keys && !Fine(pieces[k], size)
                 && CopyPiece(Zeros(size), pieces[k]) == EncodeInOrder(env, v, name, size, o);
        PieceMayFail(env, v.fields[k], fields, k, size, o.inner[k]);
        hide PieceInOrder, FieldMayErr, FieldMayPanic;
      }
    }
  }

  lemma {:induction false} PieceMayFail(env: Env, v: Value, fields: seq<FieldInfo>, k: GoString, size: u32, o: Order)
    requires IsOrderOf(v, o)
    ensures var r := CopyPiece(Zeros(size), PieceInOrder(env, v, fields, k, o));
            && (r == Err ==> FieldMayErr(env, v, fields, k))
            && (r == Panic ==> FieldMayPanic(env, v, fields, k, size))
    decreases v, 1
  {
    var i := FieldIndex(fields, k);
    if i >= 0 {
      OrderMayFail(env, v, fields[i].typ.name, fields[i].typ.size, o);
      EncodesInOrder(env, v, fields[i].typ.name, fields[i].typ.size, o);
      hide EncodeInOrder, Encoded, MayErr, MayPanic;
    }
  }

  /** An order that visits a given key first. */
  ghost function FirstOrder(v: Value, k: GoString, o: Order): (r: Order)
    requires v.Struct? && k in v.fields && IsOrderOf(v.fields[k], o)
    ensures IsOrderOf(v, r) && r.inner[k] == o
  {
    LastOrFirst(v.fields.Keys, k);
    Order([k] + AnyKeys(v.fields.Keys - {k}),
          map i | i in v.fields :: if i == k then o else AnyOrder(v.fields[i]))
  }

  /** An order that visits a given key last. */
  ghost function LastOrder(v: Value, k: GoString, o: Order): (r: Order)
    requires v.Struct? && k in v.fields && IsOrderOf(v.fields[k], o)
    ensures IsOrderOf(v, r) && r.inner[k] == o
  {
    LastOrFirst(v.fields.Keys, k);
    Order(AnyKeys(v.fields.Keys - {k}) + [k],
          map i | i in v.fields :: if i == k then o else AnyOrder(v.fields[i]))
  }

  lemma FailsFirstInOrder(env: Env, v: Value, name: GoString, size: u32, k: GoString, o: Order)
    requires v.Struct? && k in v.fields && IsOrderOf(v.fields[k], o)
    requires env.lookup(name).Some? && env.lookup(name).value.fields != []
    requires !Fine(PieceInOrder(env, v.fields[k], env.lookup(name).value.fields, k, o), size)
    ensures EncodeInOrder(env, v, name, size, FirstOrder(v, k, o))
            == CopyPiece(Zeros(size), PieceInOrder(env, v.fields[k], env.lookup(name).value.fields, k, o))
  {
    hide PieceInOrder, CopyInOrder, AnyKeys, CopyPiece;
    var fields := env.lookup(name).value.fields;
    var whole := FirstOrder(v, k, o);
    FailsFirst(Zeros(size), PiecesInOrder(env, v, fields, whole), k, AnyKeys(v.fields.Keys - {k}));
  }

  /** If encoding may end in an error, some order does. */
  lemma {:induction false} ErrOrder(env: Env, v: Value, name: GoString, size: u32) returns (o: Order)
    requires MayErr(env, v, name, size)
    ensures IsOrderOf(v, o) && EncodeInOrder(env, v, name, size, o) == Err
    decreases v
  {
    hide EncodeScalar;
    o := AnyOrder(v);
    if v.Struct? && env.lookup(name).Some? && env.lookup(name).value.fields != [] {
      var fields := env.lookup(name).value.fields;
      var k :| k in v.fields && FieldMayErr(env, v.fields[k], fields, k);
      var i := FieldIndex(fields, k);
      var inner := AnyOrder(v.fields[k]);
      if i >= 0 {
        inner := ErrOrder(env, v.fields[k], fields[i].typ.name, fields[i].typ.size);
      }
      assert PieceInOrder(env, v.fields[k], fields, k, inner) == Err;
      hide PieceInOrder, MayErr, EncodeInOrder;
      FailsFirstInOrder(env, v, name, size, k, inner);
      o := FirstOrder(v, k, inner);
    }
  }

  /** If it may end in a panic, some order does. */
  lemma {:induction false} PanicOrder(env: Env, v: Value, name: GoString, size: u32) returns (o: Order)
    requires MayPanic(env, v, name, size)
    ensures IsOrderOf(v, o) && EncodeInOrder(env, v, name, size, o) == Panic
    decreases v
  {
    hide EncodeScalar;
    o := AnyOrder(v);
    if v.Struct? {
      var fields := env.lookup(name).value.fields;
      var k :| k in v.fields && FieldMayPanic(env, v.fields[k], fields, k, size);
      var f := fields[FieldIndex(fields, k)];
      var inner := AnyOrder(v.fields[k]);
      if Encoded(env, v.fields[k], f.typ.name, f.typ.size).Some? {
        EncodesInOrder(env, v.fields[k], f.typ.name, f.typ.size, inner);
      } else {
        inner := PanicOrder(env, v.fields[k], f.typ.name, f.typ.size);
      }
      assert CopyPiece(Zeros(size), PieceInOrder(env, v.fields[k], fields, k, inner)) == Panic;
      assert !Fine(PieceInOrder(env, v.fields[k], fields, k, inner), size);
      hide PieceInOrder, MayPanic, EncodeInOrder, CopyPiece, Fine;
      FailsFirstInOrder(env, v, name, size, k, inner);
      o := FirstOrder(v, k, inner);
    }
  }

  /** Exactly how encoding can fail: MayErr and MayPanic are what some order ends in, and when neither
      holds every order succeeds. */
  lemma FailsExactly(env: Env, v: Value, name: GoString, size: u32)
    ensures MayErr(env, v, name, size) <==>
              exists o :: IsOrderOf(v, o) && EncodeInOrder(env, v, name, size, o) == Err
    ensures MayPanic(env, v, name, size) <==>
              exists o :: IsOrderOf(v, o) && EncodeInOrder(env, v, name, size, o) == Panic
    ensures !MayErr(env, v, name, size) && !MayPanic(env, v, name, size) <==>
              forall o :: IsOrderOf(v, o) ==> EncodeInOrder(env, v, name, size, o).Ok?
    ensures !MayErr(env, v, name, size) && !MayPanic(env, v, name, size) <==> Encoded(env, v, name, size).Some?
  {
    hide MayErr, MayPanic, EncodeInOrder, Encoded, IsOrderOf;
    if MayErr(env, v, name, size) {
      var o := ErrOrder(env, v, name, size);
    }
    if MayPanic(env, v, name, size) {
      var o := PanicOrder(env, v, name, size);
    }
    forall o | IsOrderOf(v, o)
      ensures EncodeInOrder(env, v, name, size, o) == Err ==> MayErr(env, v, name, size)
      ensures EncodeInOrder(env, v, name, size, o) == Panic ==> MayPanic(env, v, name, size)
      ensures EncodeInOrder(env, v, name, size, o).Ok? <==> Encoded(env, v, name, size).Some?
    {
      OrderMayFail(env, v, name, size, o);
      EncodesInOrder(env, v, name, size, o);
    }
    assert IsOrderOf(v, AnyOrder(v));
  }

  // ---------- when the bytes do not depend on the order ----------

  /** Byte j is the same in every order: all pieces that cover it are themselves the same there, and hold
      the same value. What a piece holds beyond the end of the buffer does not matter. */
  ghost predicate Settled(env: Env, v: Value, name: GoString, size: u32, j: nat)
    requires Encoded(env, v, name, size).Some?
    decreases v, 0
  {
    v.Struct? ==>
      && AgreeAt(Patches(env, v, name, size), j)
      && forall k :: k in v.fields ==>
           assert FieldEncodes(env, v.fields[k], env.lookup(name).value.fields, k, size);
           FieldSettled(env, v.fields[k], env.lookup(name).value.fields, k, size, j)
  }

  ghost predicate FieldSettled(env: Env, v: Value, fields: seq<FieldInfo>, k: GoString, size: u32, j: nat)
    requires FieldEncodes(env, v, fields, k, size)
    decreases v, 1
  {
    var f := fields[FieldIndex(fields, k)];
    Covers(FieldPatch(env, v, fields, k, size), j) ==> Settled(env, v, f.typ.name, f.typ.size, j - f.offset)
  }

  ghost predicate OrderFree(env: Env, v: Value, name: GoString, size: u32)
    requires Encoded(env, v, name, size).Some?
  {
    forall j :: 0 <= j < |Encoded(env, v, name, size).value| ==> Settled(env, v, name, size, j)
  }

  /** A settled byte is the same in every order. */
  lemma {:induction false} SettledByte(env: Env, v: Value, name: GoString, size: u32, o: Order, j: nat)
    requires IsOrderOf(v, o) && Encoded(env, v, name, size).Some? && Settled(env, v, name, size, j)
    requires j < |Encoded(env, v, name, size).value|
    ensures EncodeInOrder(env, v, name, size, o).Ok?
    ensures j < |EncodeInOrder(env, v, name, size, o).value|
    ensures EncodeInOrder(env, v, name, size, o).value[j] == Encoded(env, v, name, size).value[j]
    decreases v, 0
  {
    EncodesInOrder(env, v, name, size, o);
    hide Paint, EncodeScalar, CopyInOrder, AgreeAt;
    if v.Struct? {
      var fields := env.lookup(name).value.fields;
      var pieces, patches := PiecesInOrder(env, v, fields, o), Patches(env, v, name, size);
      forall k | k in v.fields
        ensures Fine(pieces[k], size) && MatchesAt(pieces[k], patches[k], j)
      {
        assert FieldSettled(env, v.fields[k], fields, k, size, j);
        SettledPiece(env, v.fields[k], fields, k, size, o.inner[k], j);
      }
      hide PieceInOrder, FieldPatch, FieldSettled, Fine, MatchesAt;
      PaintedByte(Zeros(size), pieces, o.keys, patches, j);
    }
  }

  lemma {:induction false} SettledPiece(env: Env, v: Value, fields: seq<FieldInfo>, k: GoString, size: u32, o: Order,
                                        j: nat)
    requires IsOrderOf(v, o) && FieldEncodes(env, v, fields, k, size) && FieldSettled(env, v, fields, k, size, j)
    ensures Fine(PieceInOrder(env, v, fields, k, o), size)
    ensures MatchesAt(PieceInOrder(env, v, fields, k, o), FieldPatch(env, v, fields, k, size), j)
    decreases v, 1
  {
    hide EncodeInOrder, Encoded, Settled, MatchesAt, Fine, IsOrderOf;
    PieceEncodes(env, v, fields, k, size, o);
    var f := fields[FieldIndex(fields, k)];
    var bs := EncodeInOrder(env, v, f.typ.name, f.typ.size, o);
    EncodesInOrder(env, v, f.typ.name, f.typ.size, o);
    var p := FieldPatch(env, v, fields, k, size);
    if Covers(p, j) {
      SettledByte(env, v, f.typ.name, f.typ.size, o, j - f.offset);
    }
    SameByte(Patch(f.offset, bs.value), p, j);
  }

  lemma SameByte(q: Patch, p: Patch, j: nat)
    requires q.offset == p.offset && |q.bytes| == |p.bytes|
    requires Covers(p, j) ==> q.bytes[j - p.offset] == p.bytes[j - p.offset]
    ensures MatchesAt(Ok(q), p, j)
  {
  }

  /** A key visited last leaves its bytes. */
  lemma LastInOrder(env: Env, v: Value, name: GoString, size: u32, k: GoString, o: Order, j: nat)
    requires v.Struct? && Encoded(env, v, name, size).Some? && k in v.fields && IsOrderOf(v.fields[k], o) && j < size
    requires env.lookup(name).Some?
    requires FieldEncodes(env, v.fields[k], env.lookup(name).value.fields, k, size)
    requires Covers(FieldPatch(env, v.fields[k], env.lookup(name).value.fields, k, size), j)
    ensures var r := EncodeInOrder(env, v, name, size, LastOrder(v, k, o));
            && r.Ok? && |r.value| == size
            && HasByte(PieceInOrder(env, v.fields[k], env.lookup(name).value.fields, k, o), j, r.value[j])
  {
    var fields := env.lookup(name).value.fields;
    var whole := LastOrder(v, k, o);
    EncodesInOrder(env, v, name, size, whole);
    PieceEncodes(env, v.fields[k], fields, k, size, o);
    hide PieceInOrder, CopyInOrder, AnyKeys, Encoded, FieldPatch;
    LastWins(Zeros(size), PiecesInOrder(env, v, fields, whole), AnyKeys(v.fields.Keys - {k}), k, j);
  }

  /** A byte that is not settled differs between two orders. */
  lemma {:induction false} UnsettledByte(env: Env, v: Value, name: GoString, size: u32, j: nat)
    returns (o1: Order, o2: Order)
    requires Encoded(env, v, name, size).Some? && !Settled(env, v, name, size, j)
    requires j < |Encoded(env, v, name, size).value|
    ensures IsOrderOf(v, o1) && IsOrderOf(v, o2)
    ensures var r1, r2 := EncodeInOrder(env, v, name, size, o1), EncodeInOrder(env, v, name, size, o2);
            && r1.Ok? && j < |r1.value| && r2.Ok? && j < |r2.value| && r1.value[j] != r2.value[j]
    decreases v
  {
    hide EncodeInOrder, Encoded, Settled, FieldPatch, FieldEncodes, Clash, IsOrderOf, FieldSettled;
    var k := WhyUnsettled(env, v, name, size, j);
    if k == None {
      o1, o2 := ClashDiffers(env, v, name, size, j);
    } else {
      var fields := env.lookup(name).value.fields;
      UnsettledPiece(env, v.fields[k.value], fields, k.value, size, j);
      var f := fields[FieldIndex(fields, k.value)];
      var i1, i2 := UnsettledByte(env, v.fields[k.value], f.typ.name, f.typ.size, j - f.offset);
      o1, o2 := LastDiffers(env, v, name, size, k.value, i1, i2, j);
    }
  }

  /** Orders that visit k last leave its bytes, so they differ where its encodings do. */
  lemma LastDiffers(env: Env, v: Value, name: GoString, size: u32, k: GoString, i1: Order, i2: Order, j: nat)
    returns (o1: Order, o2: Order)
    requires v.Struct? && Encoded(env, v, name, size).Some? && k in v.fields && j < size && env.lookup(name).Some?
    requires IsOrderOf(v.fields[k], i1) && IsOrderOf(v.fields[k], i2)
    requires FieldEncodes(env, v.fields[k], env.lookup(name).value.fields, k, size)
    requires Covers(FieldPatch(env, v.fields[k], env.lookup(name).value.fields, k, size), j)
    requires var f := env.lookup(name).value.fields[FieldIndex(env.lookup(name).value.fields, k)];
             var r1 := EncodeInOrder(env, v.fields[k], f.typ.name, f.typ.size, i1);
             var r2 := EncodeInOrder(env, v.fields[k], f.typ.name, f.typ.size, i2);
             f.offset <= j && r1.Ok? && r2.Ok? && j - f.offset < |r1.value| && j - f.offset < |r2.value|
             && r1.value[j - f.offset] != r2.value[j - f.offset]
    ensures IsOrderOf(v, o1) && IsOrderOf(v, o2)
    ensures var r1, r2 := EncodeInOrder(env, v, name, size, o1), EncodeInOrder(env, v, name, size, o2);
            && r1.Ok? && j < |r1.value| && r2.Ok? && j < |r2.value| && r1.value[j] != r2.value[j]
  {
    hide EncodeInOrder, Encoded, FieldPatch, LastOrder, PieceInOrder, IsOrderOf, HasByte;
    LastInOrder(env, v, name, size, k, i1, j);
    LastInOrder(env, v, name, size, k, i2, j);
    PiecesDiffer(env, v.fields[k], env.lookup(name).value.fields, k, i1, i2, j);
    o1, o2 := LastOrder(v, k, i1), LastOrder(v, k, i2);
  }

  lemma ClashDiffers(env: Env, v: Value, name: GoString, size: u32, j: nat) returns (o1: Order, o2: Order)
    requires v.Struct? && Encoded(env, v, name, size).Some? && j < size && env.lookup(name).Some?
    requires forall k :: k in v.fields ==> FieldEncodes(env, v.fields[k], env.lookup(name).value.fields, k, size)
    requires forall k | k in v.fields && FieldEncodes(env, v.fields[k], env.lookup(name).value.fields, k, size) ::
               FieldSettled(env, v.fields[k], env.lookup(name).value.fields, k, size, j)
    requires exists k1, k2 :: k1 in v.fields && k2 in v.fields
               && Clash(env, v, env.lookup(name).value.fields, size, k1, k2, j)
    ensures IsOrderOf(v, o1) && IsOrderOf(v, o2)
    ensures var r1, r2 := EncodeInOrder(env, v, name, size, o1), EncodeInOrder(env, v, name, size, o2);
            && r1.Ok? && j < |r1.value| && r2.Ok? && j < |r2.value| && r1.value[j] != r2.value[j]
  {
    hide EncodeInOrder, Encoded, FieldPatch, FieldEncodes, FieldSettled, IsOrderOf;
    var fields := env.lookup(name).value.fields;
    var k1, k2 :| k1 in v.fields && k2 in v.fields && Clash(env, v, fields, size, k1, k2, j);
    o1 := SettledLast(env, v, name, size, k1, j);
    o2 := SettledLast(env, v, name, size, k2, j);
  }

  /** Two entries that hold different values for a byte. */
  ghost predicate Clash(env: Env, v: Value, fields: seq<FieldInfo>, size: u32, k1: GoString, k2: GoString, j: nat)
    requires v.Struct? && k1 in v.fields && k2 in v.fields
  {
    && FieldEncodes(env, v.fields[k1], fields, k1, size) && FieldEncodes(env, v.fields[k2], fields, k2, size)
    && var p1, p2 := FieldPatch(env, v.fields[k1], fields, k1, size), FieldPatch(env, v.fields[k2], fields, k2, size);
    && Covers(p1, j) && Covers(p2, j) && ByteOf(p1, j) != ByteOf(p2, j)
  }

  /** An entry that is not settled itself, or, if all are, two that clash. */
  lemma WhyUnsettled(env: Env, v: Value, name: GoString, size: u32, j: nat) returns (k: Option<GoString>)
    requires Encoded(env, v, name, size).Some? && !Settled(env, v, name, size, j)
    ensures v.Struct? && env.lookup(name).Some? && |Encoded(env, v, name, size).value| == size
    ensures forall i :: i in v.fields ==> FieldEncodes(env, v.fields[i], env.lookup(name).value.fields, i, size)
    ensures k.Some? ==>
              && k.value in v.fields
              && FieldEncodes(env, v.fields[k.value], env.lookup(name).value.fields, k.value, size)
              && !FieldSettled(env, v.fields[k.value], env.lookup(name).value.fields, k.value, size, j)
    ensures k.None? ==>
              && (forall i | i in v.fields && FieldEncodes(env, v.fields[i], env.lookup(name).value.fields, i, size) ::
                    FieldSettled(env, v.fields[i], env.lookup(name).value.fields, i, size, j))
              && exists k1, k2 :: k1 in v.fields && k2 in v.fields
                   && Clash(env, v, env.lookup(name).value.fields, size, k1, k2, j)
  {
    var fields := env.lookup(name).value.fields;
    var patches := Patches(env, v, name, size);
    hide FieldPatch, FieldEncodes, FieldSettled, Paint;
    if i :| i in v.fields && FieldEncodes(env, v.fields[i], fields, i, size)
            && !FieldSettled(env, v.fields[i], fields, i, size, j) {
      k := Some(i);
    } else {
      k := None;
      var k1, k2 :| k1 in patches && k2 in patches && Covers(patches[k1], j) && Covers(patches[k2], j)
                    && ByteOf(patches[k1], j) != ByteOf(patches[k2], j);
      assert Clash(env, v, fields, size, k1, k2, j);
    }
  }

  lemma UnsettledPiece(env: Env, v: Value, fields: seq<FieldInfo>, k: GoString, size: u32, j: nat)
    requires FieldEncodes(env, v, fields, k, size) && !FieldSettled(env, v, fields, k, size, j)
    ensures FieldIndex(fields, k) >= 0
    ensures var f := fields[FieldIndex(fields, k)];
            && Covers(FieldPatch(env, v, fields, k, size), j) && f.offset <= j
            && Encoded(env, v, f.typ.name, f.typ.size).Some?
            && j - f.offset < |Encoded(env, v, f.typ.name, f.typ.size).value|
            && !Settled(env, v, f.typ.name, f.typ.size, j - f.offset)
  {
    hide Encoded, Settled;
  }

  lemma PiecesDiffer(env: Env, v: Value, fields: seq<FieldInfo>, k: GoString, o1: Order, o2: Order, j: nat)
    requires IsOrderOf(v, o1) && IsOrderOf(v, o2) && FieldIndex(fields, k) >= 0
    requires var f := fields[FieldIndex(fields, k)];
             var r1 := EncodeInOrder(env, v, f.typ.name, f.typ.size, o1);
             var r2 := EncodeInOrder(env, v, f.typ.name, f.typ.size, o2);
             f.offset <= j && r1.Ok? && r2.Ok? && j - f.offset < |r1.value| && j - f.offset < |r2.value|
             && r1.value[j - f.offset] != r2.value[j - f.offset]
    ensures forall b1, b2 | HasByte(PieceInOrder(env, v, fields, k, o1), j, b1) ::
              HasByte(PieceInOrder(env, v, fields, k, o2), j, b2) ==> b1 != b2
  {
    hide EncodeInOrder;
  }

  /** An order that leaves the byte of a settled piece. */
  lemma SettledLast(env: Env, v: Value, name: GoString, size: u32, k: GoString, j: nat) returns (o: Order)
    requires v.Struct? && Encoded(env, v, name, size).Some? && k in v.fields && j < size && env.lookup(name).Some?
    requires FieldEncodes(env, v.fields[k], env.lookup(name).value.fields, k, size)
    requires FieldSettled(env, v.fields[k], env.lookup(name).value.fields, k, size, j)
    requires Covers(FieldPatch(env, v.fields[k], env.lookup(name).value.fields, k, size), j)
    ensures IsOrderOf(v, o)
    ensures var r := EncodeInOrder(env, v, name, size, o);
            && r.Ok? && |r.value| == size
            && r.value[j] == ByteOf(FieldPatch(env, v.fields[k], env.lookup(name).value.fields, k, size), j)
  {
    hide EncodeInOrder, Encoded, FieldEncodes, FieldSettled, FieldPatch, PieceInOrder;
    var inner := AnyOrder(v.fields[k]);
    SettledPiece(env, v.fields[k], env.lookup(name).value.fields, k, size, inner, j);
    LastInOrder(env, v, name, size, k, inner, j);
    o := LastOrder(v, k, inner);
  }

  /** Order independence, exactly and at every depth: all iteration orders of all the maps in a value give
      the same result if and only if every byte is settled. */
  lemma OrderIndependence(env: Env, v: Value, name: GoString, size: u32)
    requires Encoded(env, v, name, size).Some?
    ensures OrderFree(env, v, name, size) <==>
              forall o1, o2 | IsOrderOf(v, o1) && IsOrderOf(v, o2) ::
                EncodeInOrder(env, v, name, size, o1) == EncodeInOrder(env, v, name, size, o2)
    ensures OrderFree(env, v, name, size) ==>
              forall o :: IsOrderOf(v, o) ==>
                EncodeInOrder(env, v, name, size, o) == Ok(Encoded(env, v, name, size).value)
  {
    hide EncodeInOrder, Encoded, Settled, IsOrderOf;
    if OrderFree(env, v, name, size) {
      forall o | IsOrderOf(v, o)
        ensures EncodeInOrder(env, v, name, size, o) == Ok(Encoded(env, v, name, size).value)
      {
        OrderFreeBytes(env, v, name, size, o);
      }
    } else {
      var j :| 0 <= j < |Encoded(env, v, name, size).value| && !Settled(env, v, name, size, j);
      var o1, o2 := UnsettledByte(env, v, name, size, j);
    }
  }

  /** All orders end the same way, in bytes, an error or a panic, if and only if: either encoding succeeds and
      every byte is settled, or only one kind of failure may happen. */
  lemma SameOutcomeExactly(env: Env, v: Value, name: GoString, size: u32)
    ensures (forall o1, o2 | IsOrderOf(v, o1) && IsOrderOf(v, o2) ::
               EncodeInOrder(env, v, name, size, o1) == EncodeInOrder(env, v, name, size, o2)) <==>
            if Encoded(env, v, name, size).Some? then OrderFree(env, v, name, size)
            else !(MayErr(env, v, name, size) && MayPanic(env, v, name, size))
  {
    hide MayErr, MayPanic, EncodeInOrder, Encoded, IsOrderOf, OrderFree;
    if Encoded(env, v, name, size).Some? {
      OrderIndependence(env, v, name, size);
    } else {
      FailsExactly(env, v, name, size);
      forall o | IsOrderOf(v, o)
        ensures !EncodeInOrder(env, v, name, size, o).Ok?
      {
        EncodesInOrder(env, v, name, size, o);
      }
    }
  }

  lemma OrderFreeBytes(env: Env, v: Value, name: GoString, size: u32, o: Order)
    requires IsOrderOf(v, o) && Encoded(env, v, name, size).Some? && OrderFree(env, v, name, size)
    ensures EncodeInOrder(env, v, name, size, o) == Ok(Encoded(env, v, name, size).value)
  {
    EncodesInOrder(env, v, name, size, o);
    hide EncodeInOrder, Encoded, Settled, IsOrderOf;
    var r, bs := EncodeInOrder(env, v, name, size, o).value, Encoded(env, v, name, size).value;
    forall j | 0 <= j < |bs|
      ensures r[j] == bs[j]
    {
      SettledByte(env, v, name, size, o, j);
    }
    assert r == bs;
  }

  /** Pieces that agree, of entries whose own bytes do not depend on the order. */
  lemma OrderFreePieces(env: Env, v: Value, name: GoString, size: u32)
    requires v.Struct? && Encodable(env, v, name, size) && Agree(Patches(env, v, name, size), size)
    requires forall k :: k in v.fields ==>
               var fields := env.lookup(name).value.fields;
               assert FieldEncodes(env, v.fields[k], fields, k, size);
               var f := fields[FieldIndex(fields, k)];
               OrderFree(env, v.fields[k], f.typ.name, f.typ.size)
    ensures OrderFree(env, v, name, size)
  {
    hide AgreeAt;
    forall j | 0 <= j < size
      ensures Settled(env, v, name, size, j)
    {
      forall k | k in v.fields
        ensures FieldEncodes(env, v.fields[k], env.lookup(name).value.fields, k, size)
        ensures FieldSettled(env, v.fields[k], env.lookup(name).value.fields, k, size, j)
      {
      }
    }
  }
}
