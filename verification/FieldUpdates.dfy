/** The loop of WriteStructFields: some fields of a struct are overwritten in its bytes, in whatever order
    the map of values yields them. */
module FieldUpdates {
  import opened Bytes
  import opened Outcomes
  import opened Types
  import opened Values
  import opened Windows
  import opened EncodingOrders
  import opened StructCodec
  import opened StructParser
  import opened StructRoundTrip

  /** The field k exists, its value encodes, and its window lies in a struct of n bytes. */
  ghost predicate FieldWrites(env: Env, v: Value, fields: seq<FieldInfo>, k: GoString, n: nat) {
    var i := FieldIndex(fields, k);
    && i >= 0 && fields[i].offset + fields[i].typ.size <= n
    && Encoded(env, v, fields[i].typ.name, fields[i].typ.size).Some?
  }

  /** What is copied: the encoded value, cut to the size of its field. */
  ghost function FieldUpdate(env: Env, v: Value, fields: seq<FieldInfo>, k: GoString, n: nat): (p: Patch)
    requires FieldWrites(env, v, fields, k, n)
    ensures p.offset <= n && |p.bytes| <= FieldNamed(fields, k).typ.size
  {
    var f := FieldNamed(fields, k);
    var bs := Encoded(env, v, f.typ.name, f.typ.size).value;
    Patch(f.offset, bs[..Min(|bs|, f.typ.size)])
  }

  ghost predicate AllWrite(env: Env, values: map<GoString, Value>, fields: seq<FieldInfo>, n: nat) {
    forall k :: k in values ==> FieldWrites(env, values[k], fields, k, n)
  }

  ghost function Updates(env: Env, values: map<GoString, Value>, fields: seq<FieldInfo>, n: nat)
    : (us: map<GoString, Patch>)
    requires AllWrite(env, values, fields, n)
    ensures us.Keys == values.Keys
  {
    map k | k in values :: FieldUpdate(env, values[k], fields, k, n)
  }

  /** The struct's bytes after all named fields were copied in. */
  ghost function Updated(env: Env, values: map<GoString, Value>, fields: seq<FieldInfo>, data: seq<byte>)
    : (r: seq<byte>)
    requires AllWrite(env, values, fields, |data|)
    ensures |r| == |data|
  {
    Paint(data, Updates(env, values, fields, |data|))
  }

  // ---------- one order ----------

  /** What one entry comes to: its encoding checked against the struct's bounds in uint32 arithmetic, and
      cut to the field. */
  ghost function UpdatePiece(env: Env, v: Value, fields: seq<FieldInfo>, k: GoString, n: nat, o: Order): Outcome<Patch>
    requires IsOrderOf(v, o)
  {
    var i := FieldIndex(fields, k);
    if i == -1 then Err
    else
      var f := fields[i];
      match EncodeInOrder(env, v, f.typ.name, f.typ.size, o)
      case Err => Err
      case Panic => Panic
      case Ok(bs) =>
        if Wrap32(f.offset + f.typ.size) > n then Err
        else if Wrap32(f.offset + f.typ.size) < f.offset then Panic
        else Ok(Patch(f.offset, bs[..Min(|bs|, f.typ.size)]))
  }

  ghost function UpdatePieces(env: Env, values: map<GoString, Value>, fields: seq<FieldInfo>, n: nat,
                              o: Order): (p: Pieces)
    requires IsOrderOf(Struct(values), o)
    ensures p.Keys == values.Keys
  {
    assert Struct(values).fields == values;
    map k | k in values :: UpdatePiece(env, values[k], fields, k, n, o.inner[k])
  }

  /** The struct's bytes after the loop, iterating in this order. */
  ghost function UpdateInOrder(env: Env, values: map<GoString, Value>, fields: seq<FieldInfo>, data: seq<byte>,
                               o: Order)
    : Outcome<seq<byte>>
    requires IsOrderOf(Struct(values), o)
  {
    assert Struct(values).fields == values;
    CopyInOrder(data, UpdatePieces(env, values, fields, |data|, o), o.keys)
  }

  // ---------- success ----------

  lemma PieceWrites(env: Env, v: Value, fields: seq<FieldInfo>, k: GoString, n: u32, o: Order)
    requires IsOrderOf(v, o)
    ensures var piece := UpdatePiece(env, v, fields, k, n, o);
            && (Fine(piece, n) <==> FieldWrites(env, v, fields, k, n))
            && (piece.Ok? ==> Fine(piece, n))
            && (Fine(piece, n) ==>
                  && piece.value.offset == FieldUpdate(env, v, fields, k, n).offset
                  && |piece.value.bytes| == |FieldUpdate(env, v, fields, k, n).bytes|)
  {
    hide EncodeInOrder, Encoded, IsOrderOf;
    var i := FieldIndex(fields, k);
    if i >= 0 {
      EncodesInOrder(env, v, fields[i].typ.name, fields[i].typ.size, o);
    }
  }

  /** Whether the update succeeds is the same in every order. */
  lemma UpdatesInOrder(env: Env, values: map<GoString, Value>, fields: seq<FieldInfo>, data: seq<byte>, o: Order)
    requires IsOrderOf(Struct(values), o) && |data| < U32_MODULUS
    ensures UpdateInOrder(env, values, fields, data, o).Ok? <==> AllWrite(env, values, fields, |data|)
  {
    var pieces := UpdatePieces(env, values, fields, |data|, o);
    forall k | k in values
      ensures Fine(pieces[k], |data|) <==> FieldWrites(env, values[k], fields, k, |data|)
    {
      PieceWrites(env, values[k], fields, k, |data|, o.inner[k]);
    }
    hide UpdatePiece, FieldWrites, CopyInOrder;
    CopyOk(data, pieces, o.keys);
  }

  // ---------- how an update can fail ----------

  /** An entry whose update may end in an error. */
  ghost predicate UpdateMayErr(env: Env, v: Value, fields: seq<FieldInfo>, k: GoString, n: nat) {
    var i := FieldIndex(fields, k);
    || FieldMayErr(env, v, fields, k)
    || (Encoded(env, v, fields[i].typ.name, fields[i].typ.size).Some?
        && Wrap32(fields[i].offset + fields[i].typ.size) > n)
  }

  /** An entry whose update may end in a panic: in encoding, or because a wrapped bound passes the check and makes the
      slice run backwards. */
  ghost predicate UpdateMayPanic(env: Env, v: Value, fields: seq<FieldInfo>, k: GoString, n: nat) {
    var i := FieldIndex(fields, k);
    i != -1
    && if Encoded(env, v, fields[i].typ.name, fields[i].typ.size).Some?
       then fields[i].offset + fields[i].typ.size >= U32_MODULUS && Wrap32(fields[i].offset + fields[i].typ.size) <= n
       else MayPanic(env, v, fields[i].typ.name, fields[i].typ.size)
  }

  lemma UpdatePieceMayFail(env: Env, v: Value, fields: seq<FieldInfo>, k: GoString, n: u32, o: Order)
    requires IsOrderOf(v, o)
    ensures UpdatePiece(env, v, fields, k, n, o) == Err ==> UpdateMayErr(env, v, fields, k, n)
    ensures UpdatePiece(env, v, fields, k, n, o) == Panic ==> UpdateMayPanic(env, v, fields, k, n)
  {
    hide EncodeInOrder, Encoded, MayErr, MayPanic, IsOrderOf;
    var i := FieldIndex(fields, k);
    if i >= 0 {
      OrderMayFail(env, v, fields[i].typ.name, fields[i].typ.size, o);
      EncodesInOrder(env, v, fields[i].typ.name, fields[i].typ.size, o);
    }
  }

  /** Whatever an order ends in may happen at some entry. */
  lemma UpdateOrderMayFail(env: Env, values: map<GoString, Value>, fields: seq<FieldInfo>, data: seq<byte>, o: Order)
    requires IsOrderOf(Struct(values), o) && |data| < U32_MODULUS
    ensures var r := UpdateInOrder(env, values, fields, data, o);
            && (r == Err ==> exists k :: k in values && UpdateMayErr(env, values[k], fields, k, |data|))
            && (r == Panic ==> exists k :: k in values && UpdateMayPanic(env, values[k], fields, k, |data|))
  {
    var pieces := UpdatePieces(env, values, fields, |data|, o);
    CopyFails(data, pieces, o.keys);
    var r := UpdateInOrder(env, values, fields, data, o);
    if !r.Ok? {
      var k :| k in o.keys && !Fine(pieces[k], |data|) && CopyPiece(data, pieces[k]) == r;
      PieceWrites(env, values[k], fields, k, |data|, o.inner[k]);
      UpdatePieceMayFail(env, values[k], fields, k, |data|, o.inner[k]);
      hide UpdatePiece, UpdateMayErr, UpdateMayPanic;
    }
  }

  lemma UpdateFailsFirst(env: Env, values: map<GoString, Value>, fields: seq<FieldInfo>, data: seq<byte>,
                         k: GoString, o: Order)
    requires k in values && IsOrderOf(values[k], o)
    requires UpdatePiece(env, values[k], fields, k, |data|, o) == Err
             || UpdatePiece(env, values[k], fields, k, |data|, o) == Panic
    ensures IsOrderOf(Struct(values), FirstOrder(Struct(values), k, o))
    ensures match UpdatePiece(env, values[k], fields, k, |data|, o)
            case Err => UpdateInOrder(env, values, fields, data, FirstOrder(Struct(values), k, o)) == Err
            case Panic => UpdateInOrder(env, values, fields, data, FirstOrder(Struct(values), k, o)) == Panic
            case Ok(_) => true
  {
    hide UpdatePiece, CopyInOrder, AnyKeys;
    var whole := FirstOrder(Struct(values), k, o);
    FailsFirst(data, UpdatePieces(env, values, fields, |data|, whole), k, AnyKeys(values.Keys - {k}));
  }

  lemma UpdateErrOrder(env: Env, v: Value, fields: seq<FieldInfo>, k: GoString, n: u32) returns (o: Order)
    requires UpdateMayErr(env, v, fields, k, n)
    ensures IsOrderOf(v, o) && UpdatePiece(env, v, fields, k, n, o) == Err
  {
    hide EncodeInOrder, Encoded, MayErr, IsOrderOf;
    var i := FieldIndex(fields, k);
    o := AnyOrder(v);
    if i >= 0 {
      var f := fields[i];
      if MayErr(env, v, f.typ.name, f.typ.size) {
        o := ErrOrder(env, v, f.typ.name, f.typ.size);
      } else {
        EncodesInOrder(env, v, f.typ.name, f.typ.size, o);
      }
    }
  }

  lemma UpdatePanicOrder(env: Env, v: Value, fields: seq<FieldInfo>, k: GoString, n: u32) returns (o: Order)
    requires UpdateMayPanic(env, v, fields, k, n)
    ensures IsOrderOf(v, o) && UpdatePiece(env, v, fields, k, n, o) == Panic
  {
    hide EncodeInOrder, Encoded, MayPanic, IsOrderOf;
    var f := fields[FieldIndex(fields, k)];
    o := AnyOrder(v);
    if Encoded(env, v, f.typ.name, f.typ.size).Some? {
      EncodesInOrder(env, v, f.typ.name, f.typ.size, o);
    } else {
      o := PanicOrder(env, v, f.typ.name, f.typ.size);
    }
  }

  /** Exactly how an update can fail: some order ends in an error or a panic if and only if some entry may,
      and every order succeeds if and only if none may. */
  lemma UpdateFailsExactly(env: Env, values: map<GoString, Value>, fields: seq<FieldInfo>, data: seq<byte>)
    requires |data| < U32_MODULUS
    ensures (exists k :: k in values && UpdateMayErr(env, values[k], fields, k, |data|)) <==>
              exists o :: IsOrderOf(Struct(values), o) && UpdateInOrder(env, values, fields, data, o) == Err
    ensures (exists k :: k in values && UpdateMayPanic(env, values[k], fields, k, |data|)) <==>
              exists o :: IsOrderOf(Struct(values), o) && UpdateInOrder(env, values, fields, data, o) == Panic
    ensures AllWrite(env, values, fields, |data|) <==>
              forall o :: IsOrderOf(Struct(values), o) ==> UpdateInOrder(env, values, fields, data, o).Ok?
  {
    hide UpdateMayErr, UpdateMayPanic, UpdateInOrder, IsOrderOf, AllWrite, UpdatePiece, FirstOrder;
    if k :| k in values && UpdateMayErr(env, values[k], fields, k, |data|) {
      var o := UpdateErrOrder(env, values[k], fields, k, |data|);
      UpdateFailsFirst(env, values, fields, data, k, o);
    }
    if k :| k in values && UpdateMayPanic(env, values[k], fields, k, |data|) {
      var o := UpdatePanicOrder(env, values[k], fields, k, |data|);
      UpdateFailsFirst(env, values, fields, data, k, o);
    }
    forall o | IsOrderOf(Struct(values), o)
      ensures UpdateInOrder(env, values, fields, data, o).Ok? <==> AllWrite(env, values, fields, |data|)
      ensures UpdateInOrder(env, values, fields, data, o) == Err ==>
                exists k :: k in values && UpdateMayErr(env, values[k], fields, k, |data|)
      ensures UpdateInOrder(env, values, fields, data, o) == Panic ==>
                exists k :: k in values && UpdateMayPanic(env, values[k], fields, k, |data|)
    {
      UpdateOrderMayFail(env, values, fields, data, o);
      UpdatesInOrder(env, values, fields, data, o);
    }
    assert IsOrderOf(Struct(values), AnyOrder(Struct(values)));
  }

  // ---------- when the bytes do not depend on the order ----------

  ghost predicate PieceSettled(env: Env, v: Value, fields: seq<FieldInfo>, k: GoString, n: nat, j: nat)
    requires FieldWrites(env, v, fields, k, n)
  {
    var f := FieldNamed(fields, k);
    Covers(FieldUpdate(env, v, fields, k, n), j) ==> Settled(env, v, f.typ.name, f.typ.size, j - f.offset)
  }

  /** Byte j of the struct is the same in every order. */
  ghost predicate UpdateSettled(env: Env, values: map<GoString, Value>, fields: seq<FieldInfo>, n: nat, j: nat)
    requires AllWrite(env, values, fields, n)
  {
    && AgreeAt(Updates(env, values, fields, n), j)
    && forall k :: k in values ==>
         assert FieldWrites(env, values[k], fields, k, n);
         PieceSettled(env, values[k], fields, k, n, j)
  }

  ghost predicate UpdateOrderFree(env: Env, values: map<GoString, Value>, fields: seq<FieldInfo>, n: nat)
    requires AllWrite(env, values, fields, n)
  {
    forall j :: 0 <= j < n ==> UpdateSettled(env, values, fields, n, j)
  }

  lemma SettledUpdatePiece(env: Env, v: Value, fields: seq<FieldInfo>, k: GoString, n: u32, o: Order, j: nat)
    requires IsOrderOf(v, o) && FieldWrites(env, v, fields, k, n) && PieceSettled(env, v, fields, k, n, j)
    ensures Fine(UpdatePiece(env, v, fields, k, n, o), n)
    ensures MatchesAt(UpdatePiece(env, v, fields, k, n, o), FieldUpdate(env, v, fields, k, n), j)
  {
    hide EncodeInOrder, Encoded, Settled, IsOrderOf, MatchesAt;
    PieceWrites(env, v, fields, k, n, o);
    var f := FieldNamed(fields, k);
    EncodesInOrder(env, v, f.typ.name, f.typ.size, o);
    var p := FieldUpdate(env, v, fields, k, n);
    if Covers(p, j) {
      SettledByte(env, v, f.typ.name, f.typ.size, o, j - f.offset);
    }
    SameByte(UpdatePiece(env, v, fields, k, n, o).value, p, j);
  }

  lemma SettledUpdate(env: Env, values: map<GoString, Value>, fields: seq<FieldInfo>, data: seq<byte>, o: Order, j: nat)
    requires IsOrderOf(Struct(values), o) && |data| < U32_MODULUS && j < |data|
    requires AllWrite(env, values, fields, |data|) && UpdateSettled(env, values, fields, |data|, j)
    ensures UpdateInOrder(env, values, fields, data, o).Ok?
    ensures UpdateInOrder(env, values, fields, data, o).value[j] == Updated(env, values, fields, data)[j]
  {
    hide Paint, CopyInOrder, AgreeAt, UpdatePiece, FieldUpdate, PieceSettled, Fine, MatchesAt, FieldWrites;
    var n := |data|;
    var pieces, updates := UpdatePieces(env, values, fields, n, o), Updates(env, values, fields, n);
    forall k | k in values
      ensures Fine(pieces[k], n) && MatchesAt(pieces[k], updates[k], j)
    {
      SettledUpdatePiece(env, values[k], fields, k, n, o.inner[k], j);
    }
    PaintedByte(data, pieces, o.keys, updates, j);
  }

  /** An entry visited last leaves its bytes. */
  lemma LastUpdate(env: Env, values: map<GoString, Value>, fields: seq<FieldInfo>, data: seq<byte>,
                   k: GoString, o: Order, j: nat)
    requires |data| < U32_MODULUS && j < |data| && AllWrite(env, values, fields, |data|)
    requires k in values && IsOrderOf(values[k], o) && FieldWrites(env, values[k], fields, k, |data|)
    requires Covers(FieldUpdate(env, values[k], fields, k, |data|), j)
    ensures IsOrderOf(Struct(values), LastOrder(Struct(values), k, o))
    ensures var r := UpdateInOrder(env, values, fields, data, LastOrder(Struct(values), k, o));
            && r.Ok? && |r.value| == |data|
            && HasByte(UpdatePiece(env, values[k], fields, k, |data|, o), j, r.value[j])
  {
    var whole := LastOrder(Struct(values), k, o);
    UpdatesInOrder(env, values, fields, data, whole);
    PieceWrites(env, values[k], fields, k, |data|, o);
    hide UpdatePiece, CopyInOrder, AnyKeys, FieldUpdate, FieldWrites;
    LastWins(data, UpdatePieces(env, values, fields, |data|, whole), AnyKeys(values.Keys - {k}), k, j);
  }

  lemma UpdatePiecesDiffer(env: Env, v: Value, fields: seq<FieldInfo>, k: GoString, n: nat, o1: Order, o2: Order,
                           j: nat)
    requires IsOrderOf(v, o1) && IsOrderOf(v, o2) && FieldIndex(fields, k) >= 0
    requires var f := fields[FieldIndex(fields, k)];
             var r1 := EncodeInOrder(env, v, f.typ.name, f.typ.size, o1);
             var r2 := EncodeInOrder(env, v, f.typ.name, f.typ.size, o2);
             f.offset <= j && r1.Ok? && r2.Ok? && j - f.offset < |r1.value| && j - f.offset < |r2.value|
             && r1.value[j - f.offset] != r2.value[j - f.offset]
    ensures forall b1, b2 | HasByte(UpdatePiece(env, v, fields, k, n, o1), j, b1) ::
              HasByte(UpdatePiece(env, v, fields, k, n, o2), j, b2) ==> b1 != b2
  {
    hide EncodeInOrder;
  }

  /** A byte that is not settled differs between two orders. */
  lemma UnsettledUpdate(env: Env, values: map<GoString, Value>, fields: seq<FieldInfo>, data: seq<byte>, j: nat)
    returns (o1: Order, o2: Order)
    requires |data| < U32_MODULUS && j < |data|
    requires AllWrite(env, values, fields, |data|) && !UpdateSettled(env, values, fields, |data|, j)
    ensures IsOrderOf(Struct(values), o1) && IsOrderOf(Struct(values), o2)
    ensures var r1, r2 := UpdateInOrder(env, values, fields, data, o1), UpdateInOrder(env, values, fields, data, o2);
            r1.Ok? && r2.Ok? && |r1.value| == |r2.value| == |data| && r1.value[j] != r2.value[j]
  {
    hide IsOrderOf, UpdateInOrder, FieldUpdate, PieceSettled, FieldWrites, UpdatePiece, LastOrder, HasByte;
    var n := |data|;
    if k :| k in values && FieldWrites(env, values[k], fields, k, n) && !PieceSettled(env, values[k], fields, k, n, j) {
      var i1, i2 := UnsettledUpdatePiece(env, values[k], fields, k, n, j);
      LastUpdate(env, values, fields, data, k, i1, j);
      LastUpdate(env, values, fields, data, k, i2, j);
      o1, o2 := LastOrder(Struct(values), k, i1), LastOrder(Struct(values), k, i2);
    } else {
      var updates := Updates(env, values, fields, n);
      var k1, k2 :| k1 in updates && k2 in updates && Covers(updates[k1], j) && Covers(updates[k2], j)
                    && ByteOf(updates[k1], j) != ByteOf(updates[k2], j);
      assert FieldWrites(env, values[k1], fields, k1, n) && FieldWrites(env, values[k2], fields, k2, n);
      o1 := SettledLastUpdate(env, values, fields, data, k1, j);
      o2 := SettledLastUpdate(env, values, fields, data, k2, j);
    }
  }

  lemma UnsettledUpdatePiece(env: Env, v: Value, fields: seq<FieldInfo>, k: GoString, n: u32, j: nat)
    returns (o1: Order, o2: Order)
    requires FieldWrites(env, v, fields, k, n) && !PieceSettled(env, v, fields, k, n, j)
    ensures IsOrderOf(v, o1) && IsOrderOf(v, o2) && Covers(FieldUpdate(env, v, fields, k, n), j)
    ensures forall b1, b2 | HasByte(UpdatePiece(env, v, fields, k, n, o1), j, b1) ::
              HasByte(UpdatePiece(env, v, fields, k, n, o2), j, b2) ==> b1 != b2
  {
    hide EncodeInOrder, Encoded, Settled, IsOrderOf, UpdatePiece;
    var f := FieldNamed(fields, k);
    o1, o2 := UnsettledByte(env, v, f.typ.name, f.typ.size, j - f.offset);
    UpdatePiecesDiffer(env, v, fields, k, n, o1, o2, j);
  }

  lemma SettledLastUpdate(env: Env, values: map<GoString, Value>, fields: seq<FieldInfo>, data: seq<byte>,
                          k: GoString, j: nat)
    returns (o: Order)
    requires |data| < U32_MODULUS && j < |data| && AllWrite(env, values, fields, |data|) && k in values
    requires FieldWrites(env, values[k], fields, k, |data|) && PieceSettled(env, values[k], fields, k, |data|, j)
    requires Covers(FieldUpdate(env, values[k], fields, k, |data|), j)
    ensures IsOrderOf(Struct(values), o)
    ensures var r := UpdateInOrder(env, values, fields, data, o);
            r.Ok? && |r.value| == |data| && r.value[j] == ByteOf(FieldUpdate(env, values[k], fields, k, |data|), j)
  {
    hide UpdateInOrder, FieldWrites, PieceSettled, FieldUpdate, UpdatePiece;
    var inner := AnyOrder(values[k]);
    SettledUpdatePiece(env, values[k], fields, k, |data|, inner, j);
    LastUpdate(env, values, fields, data, k, inner, j);
    o := LastOrder(Struct(values), k, inner);
  }

  /** Order independence of the update, exactly: all orders leave the same bytes if and only if every byte
      is settled. */
  lemma UpdateOrderIndependence(env: Env, values: map<GoString, Value>, fields: seq<FieldInfo>, data: seq<byte>)
    requires AllWrite(env, values, fields, |data|) && |data| < U32_MODULUS
    ensures UpdateOrderFree(env, values, fields, |data|) <==>
              forall o1, o2 | IsOrderOf(Struct(values), o1) && IsOrderOf(Struct(values), o2) ::
                UpdateInOrder(env, values, fields, data, o1) == UpdateInOrder(env, values, fields, data, o2)
    ensures UpdateOrderFree(env, values, fields, |data|) ==>
              forall o :: IsOrderOf(Struct(values), o) ==>
                UpdateInOrder(env, values, fields, data, o) == Ok(Updated(env, values, fields, data))
  {
    hide UpdateInOrder, UpdateSettled, IsOrderOf, Updated, AllWrite;
    if UpdateOrderFree(env, values, fields, |data|) {
      forall o | IsOrderOf(Struct(values), o)
        ensures UpdateInOrder(env, values, fields, data, o) == Ok(Updated(env, values, fields, data))
      {
        UpdateOrderFreeBytes(env, values, fields, data, o);
      }
    } else {
      var j :| 0 <= j < |data| && !UpdateSettled(env, values, fields, |data|, j);
      var o1, o2 := UnsettledUpdate(env, values, fields, data, j);
    }
  }

  /** All orders of the update end the same way if and only if: either it succeeds and every byte is
      settled, or only one kind of failure may happen. */
  lemma UpdateSameOutcomeExactly(env: Env, values: map<GoString, Value>, fields: seq<FieldInfo>, data: seq<byte>)
    requires |data| < U32_MODULUS
    ensures (forall o1, o2 | IsOrderOf(Struct(values), o1) && IsOrderOf(Struct(values), o2) ::
               UpdateInOrder(env, values, fields, data, o1) == UpdateInOrder(env, values, fields, data, o2)) <==>
            if AllWrite(env, values, fields, |data|) then UpdateOrderFree(env, values, fields, |data|)
            else !((exists k :: k in values && UpdateMayErr(env, values[k], fields, k, |data|))
                   && (exists k :: k in values && UpdateMayPanic(env, values[k], fields, k, |data|)))
  {
    hide UpdateMayErr, UpdateMayPanic, UpdateInOrder, IsOrderOf, AllWrite, UpdateOrderFree;
    if AllWrite(env, values, fields, |data|) {
      UpdateOrderIndependence(env, values, fields, data);
    } else {
      UpdateFailsExactly(env, values, fields, data);
      forall o | IsOrderOf(Struct(values), o)
        ensures !UpdateInOrder(env, values, fields, data, o).Ok?
      {
        UpdatesInOrder(env, values, fields, data, o);
      }
    }
  }

  lemma UpdateOrderFreeBytes(env: Env, values: map<GoString, Value>, fields: seq<FieldInfo>, data: seq<byte>, o: Order)
    requires IsOrderOf(Struct(values), o) && AllWrite(env, values, fields, |data|) && |data| < U32_MODULUS
    requires UpdateOrderFree(env, values, fields, |data|)
    ensures UpdateInOrder(env, values, fields, data, o) == Ok(Updated(env, values, fields, data))
  {
    UpdatesInOrder(env, values, fields, data, o);
    hide UpdateSettled, IsOrderOf, Updated, AllWrite, CopyInOrder, UpdatePieces;
    var r, bs := UpdateInOrder(env, values, fields, data, o).value, Updated(env, values, fields, data);
    forall j | 0 <= j < |data|
      ensures r[j] == bs[j]
    {
      SettledUpdate(env, values, fields, data, o, j);
    }
    assert r == bs;
  }

  // ---------- what an update does to the struct ----------

  predicate NamedApart(fields: seq<FieldInfo>, values: map<GoString, Value>) {
    forall k1, k2 | k1 in values && k2 in values && k1 != k2 ::
      FieldIndex(fields, k1) >= 0 && FieldIndex(fields, k2) >= 0
      ==> Apart(FieldNamed(fields, k1), FieldNamed(fields, k2))
  }

  /** Named fields with disjoint windows, whose values are encoded the same in every order, are updated
      the same in every order. */
  lemma DisjointFieldsAnyOrder(env: Env, values: map<GoString, Value>, fields: seq<FieldInfo>, n: nat)
    requires AllWrite(env, values, fields, n) && NamedApart(fields, values)
    requires forall k :: k in values ==>
               assert FieldWrites(env, values[k], fields, k, n);
               OrderFree(env, values[k], FieldNamed(fields, k).typ.name, FieldNamed(fields, k).typ.size)
    ensures UpdateOrderFree(env, values, fields, n)
  {
    UpdatesApart(env, values, fields, n);
    hide Updates, AgreeAt, Encoded;
    forall j | 0 <= j < n
      ensures UpdateSettled(env, values, fields, n, j)
    {
      forall k | k in values
        ensures FieldWrites(env, values[k], fields, k, n) && PieceSettled(env, values[k], fields, k, n, j)
      {
      }
    }
  }

  lemma UpdatesApart(env: Env, values: map<GoString, Value>, fields: seq<FieldInfo>, n: nat)
    requires AllWrite(env, values, fields, n) && NamedApart(fields, values)
    ensures Agree(Updates(env, values, fields, n), n)
  {
    hide Encoded, OrderFree, FieldIndex, FieldNamed, Updates, FieldWrites;
    var updates := Updates(env, values, fields, n);
    forall k1, k2, j | k1 in updates && k2 in updates && Covers(updates[k1], j) && Covers(updates[k2], j)
      ensures k1 == k2
    {
      UpdateWindow(env, values, fields, n, k1);
      UpdateWindow(env, values, fields, n, k2);
      assert k1 == k2 || Apart(FieldNamed(fields, k1), FieldNamed(fields, k2));
    }
  }

  lemma UpdateWindow(env: Env, values: map<GoString, Value>, fields: seq<FieldInfo>, n: nat, k: GoString)
    requires AllWrite(env, values, fields, n) && k in values
    ensures FieldIndex(fields, k) >= 0 && Inside(FieldNamed(fields, k), n)
    ensures var f, u := FieldNamed(fields, k), Updates(env, values, fields, n)[k];
            u.offset == f.offset && |u.bytes| <= f.typ.size
  {
    assert FieldWrites(env, values[k], fields, k, n);
  }

  /** In every order, bytes outside the windows of the named fields keep their old value. */
  lemma UpdateKeepsRest(env: Env, values: map<GoString, Value>, fields: seq<FieldInfo>, data: seq<byte>, o: Order,
                        j: nat)
    requires IsOrderOf(Struct(values), o) && UpdateInOrder(env, values, fields, data, o).Ok?
    requires |data| < U32_MODULUS && j < |data|
    requires forall k | k in values && FieldIndex(fields, k) >= 0 ::
               var f := FieldNamed(fields, k); !(f.offset <= j < f.offset + f.typ.size)
    ensures UpdateInOrder(env, values, fields, data, o).value[j] == data[j]
  {
    var pieces := UpdatePieces(env, values, fields, |data|, o);
    CopyOk(data, pieces, o.keys);
    CopyByte(data, pieces, o.keys, j);
    forall k | k in values
      ensures !exists b :: HasByte(pieces[k], j, b)
    {
      PieceWindow(env, values[k], fields, k, |data|, o.inner[k]);
    }
    hide UpdatePiece, CopyInOrder, FieldNamed;
  }

  lemma PieceWindow(env: Env, v: Value, fields: seq<FieldInfo>, k: GoString, n: nat, o: Order)
    requires IsOrderOf(v, o)
    ensures var piece := UpdatePiece(env, v, fields, k, n, o);
            piece.Ok? ==>
              && FieldIndex(fields, k) >= 0
              && piece.value.offset == FieldNamed(fields, k).offset
              && |piece.value.bytes| <= FieldNamed(fields, k).typ.size
  {
    hide EncodeInOrder;
  }

  lemma ExactPiece(env: Env, v: Value, fields: seq<FieldInfo>, k: GoString, n: nat, o: Order)
    requires IsOrderOf(v, o) && FieldIndex(fields, k) >= 0 && EncodesExactly(env, v, FieldNamed(fields, k).typ)
    requires UpdatePiece(env, v, fields, k, n, o).Ok?
    ensures var f := FieldNamed(fields, k);
            UpdatePiece(env, v, fields, k, n, o) == Ok(Patch(f.offset, Encoded(env, v, f.typ.name, f.typ.size).value))
  {
    hide EncodeInOrder, Encoded, OrderFree, IsOrderOf;
    var f := FieldNamed(fields, k);
    OrderFreeBytes(env, v, f.typ.name, f.typ.size, o);
    var bs := Encoded(env, v, f.typ.name, f.typ.size).value;
    assert bs[..|bs|] == bs;
  }

  predicate NoneReachesInto(fields: seq<FieldInfo>, values: map<GoString, Value>, k: GoString)
    requires FieldIndex(fields, k) >= 0
  {
    forall i | i in values && i != k
      && FieldIndex(fields, i) >= 0 :: Apart(FieldNamed(fields, i), FieldNamed(fields, k))
  }

  lemma OtherApart(env: Env, values: map<GoString, Value>, fields: seq<FieldInfo>, n: nat, o: Order, k: GoString,
                   i: GoString)
    requires IsOrderOf(Struct(values), o) && k in values && i in values && i != k
    requires FieldIndex(fields, k) >= 0 && NoneReachesInto(fields, values, k)
    requires UpdatePiece(env, values[k], fields, k, n, o.inner[k]).Ok?
             && UpdatePiece(env, values[i], fields, i, n, o.inner[i]).Ok?
    ensures PatchesApart(UpdatePiece(env, values[i], fields, i, n, o.inner[i]).value,
                         UpdatePiece(env, values[k], fields, k, n, o.inner[k]).value)
  {
    hide UpdatePiece, FieldIndex, FieldNamed;
    PieceWindow(env, values[i], fields, i, n, o.inner[i]);
    PieceWindow(env, values[k], fields, k, n, o.inner[k]);
    assert Apart(FieldNamed(fields, i), FieldNamed(fields, k));
  }

  /** The window of a field that no other named field reaches into holds its value's encoding. */
  lemma UpdatedBytes(env: Env, values: map<GoString, Value>, fields: seq<FieldInfo>, data: seq<byte>, o: Order,
                     k: GoString)
    requires IsOrderOf(Struct(values), o) && UpdateInOrder(env, values, fields, data, o).Ok? && |data| < U32_MODULUS
    requires k in values && FieldIndex(fields, k) >= 0 && EncodesExactly(env, values[k], FieldNamed(fields, k).typ)
    requires NoneReachesInto(fields, values, k)
    ensures var f := FieldNamed(fields, k);
            && EncodesExactly(env, values[k], f.typ) && Inside(f, |data|)
            && |UpdateInOrder(env, values, fields, data, o).value| == |data|
            && FieldBytes(UpdateInOrder(env, values, fields, data, o).value, f)
               == Encoded(env, values[k], f.typ.name, f.typ.size).value
  {
    var pieces := UpdatePieces(env, values, fields, |data|, o);
    UpdatesInOrder(env, values, fields, data, o);
    assert FieldWrites(env, values[k], fields, k, |data|);
    CopyOk(data, pieces, o.keys);
    hide UpdatePiece, CopyInOrder, FieldNamed, FieldIndex, Encoded, OrderFree, FieldWrites, AllWrite, NoneReachesInto;
    ExactPiece(env, values[k], fields, k, |data|, o.inner[k]);
    forall i | i in values && i != k
      ensures PatchesApart(pieces[i].value, pieces[k].value)
    {
      OtherApart(env, values, fields, |data|, o, k, i);
    }
    ApartStays(data, pieces, o.keys, k);
  }

  /** In every order, a named field whose value fits it and whose window no other named field reaches into
      parses back, from the updated struct, as the value written. */
  lemma UpdatedFieldParses(env: Env, values: map<GoString, Value>, fields: seq<FieldInfo>, data: seq<byte>, o: Order,
                           k: GoString)
    requires IsOrderOf(Struct(values), o) && UpdateInOrder(env, values, fields, data, o).Ok? && |data| < U32_MODULUS
    requires k in values && FieldIndex(fields, k) >= 0 && Fits(env, values[k], FieldNamed(fields, k).typ)
    requires NoneReachesInto(fields, values, k)
    ensures Inside(FieldNamed(fields, k), |data|)
    ensures var f := FieldNamed(fields, k);
            |UpdateInOrder(env, values, fields, data, o).value| == |data|
            && ParseField(FieldBytes(UpdateInOrder(env, values, fields, data, o).value, f), f.typ) == values[k]
  {
    hide *;
    RoundTrip(env, values[k], FieldNamed(fields, k).typ);
    UpdatedBytes(env, values, fields, data, o, k);
  }

  // ---------- the loop ----------

  /** The loop under way: the pieces of the keys visited have been copied. */
  ghost predicate Updating(env: Env, values: map<GoString, Value>, fields: seq<FieldInfo>, data: seq<byte>,
                           keys: seq<GoString>, inner: map<GoString, Order>, pieces: Pieces, buf: seq<byte>)
  {
    && Visiting(values, keys, inner)
    && (forall k :: k in keys ==>
          k in pieces && pieces[k] == UpdatePiece(env, values[k], fields, k, |data|, inner[k]))
    && CopyInOrder(data, pieces, keys) == Ok(buf)
  }

  lemma UpdatingStarts(env: Env, values: map<GoString, Value>, fields: seq<FieldInfo>, data: seq<byte>)
    ensures Updating(env, values, fields, data, [], map[], map[], data)
  {
  }

  /** One more entry is copied, or the loop ends here. */
  lemma UpdatingStep(env: Env, values: map<GoString, Value>, fields: seq<FieldInfo>, data: seq<byte>,
                     keys: seq<GoString>,
                     inner: map<GoString, Order>, pieces: Pieces, buf: seq<byte>, k: GoString, ok: Order)
    returns (o: Order)
    requires Updating(env, values, fields, data, keys, inner, pieces, buf)
    requires k in values && k !in keys && IsOrderOf(values[k], ok)
    ensures IsOrderOf(Struct(values), o)
    ensures var piece := UpdatePiece(env, values[k], fields, k, |data|, ok);
            var r := CopyPiece(buf, piece);
            if r.Ok? then Updating(env, values, fields, data, keys + [k], inner[k := ok], pieces[k := piece], r.value)
            else UpdateInOrder(env, values, fields, data, o) == r
  {
    hide IsOrderOf, CopyInOrder, CopyPiece, UpdatePiece, Completed;
    var piece := UpdatePiece(env, values[k], fields, k, |data|, ok);
    CopyOneMore(data, pieces, keys, k, piece);
    VisitOne(values, keys, inner, k, ok);
    o := Completed(values, keys + [k], inner[k := ok]);
    if !CopyPiece(buf, piece).Ok? {
      LoopEnds(data, values, keys + [k], inner[k := ok], pieces[k := piece], UpdatePieces(env, values, fields,
        |data|, o));
    }
  }

  lemma UpdatingEnds(env: Env, values: map<GoString, Value>, fields: seq<FieldInfo>, data: seq<byte>,
                     keys: seq<GoString>,
                     inner: map<GoString, Order>, pieces: Pieces, buf: seq<byte>) returns (o: Order)
    requires Updating(env, values, fields, data, keys, inner, pieces, buf)
    requires forall k :: k in values ==> k in keys
    ensures IsOrderOf(Struct(values), o) && UpdateInOrder(env, values, fields, data, o) == Ok(buf)
  {
    hide IsOrderOf, CopyInOrder, UpdatePiece, Completed;
    o := Completed(values, keys, inner);
    LoopEnds(data, values, keys, inner, pieces, UpdatePieces(env, values, fields, |data|, o));
  }

  /** One round of the loop. */
  lemma UpdateRound(env: Env, v: Value, fields: seq<FieldInfo>, k: GoString, o: Order, buf: seq<byte>)
    requires IsOrderOf(v, o) && |buf| < U32_MODULUS
    ensures var i := FieldIndex(fields, k);
            var r := CopyPiece(buf, UpdatePiece(env, v, fields, k, |buf|, o));
            if i == -1 then r == Err
            else
              var f := fields[i];
              match EncodeInOrder(env, v, f.typ.name, f.typ.size, o)
              case Err => r == Err
              case Panic => r == Panic
              case Ok(bs) =>
                if Wrap32(f.offset + f.typ.size) > |buf| then r == Err
                else if Wrap32(f.offset + f.typ.size) < f.offset then r == Panic
                else f.offset <= |buf| && r == Ok(Overlay(buf, f.offset, bs[..Min(|bs|, f.typ.size)]))
  {
    hide EncodeInOrder, Overlay;
  }

  /** Every named field's bytes are copied into the struct's bytes, in whatever order the map yields them:
      the outcome, and on success the bytes, are those of some order. */
  method UpdateFields(env: Env, fields: seq<FieldInfo>, values: map<GoString, Value>, structData: array<byte>)
    returns (r: Outcome<()>, ghost o: Order)
    requires structData.Length < U32_MODULUS
    modifies structData
    ensures IsOrderOf(Struct(values), o)
    ensures match UpdateInOrder(env, values, fields, old(structData[..]), o)
            case Ok(bs) => r == Ok(()) && structData[..] == bs
            case Err => r == Err
            case Panic => r == Panic
    ensures r.Ok? <==> AllWrite(env, values, fields, structData.Length)
    ensures r.Ok? && UpdateOrderFree(env, values, fields, structData.Length) ==>
              structData[..] == Updated(env, values, fields, old(structData[..]))
  {
    ghost var data := structData[..];
    r, o := UpdateLoop(env, fields, values, structData);
    hide UpdateInOrder, AllWrite, UpdateOrderFree, Updated, IsOrderOf;
    UpdatesInOrder(env, values, fields, data, o);
    if r.Ok? && UpdateOrderFree(env, values, fields, structData.Length) {
      UpdateOrderFreeBytes(env, values, fields, data, o);
    }
  }

  method UpdateLoop(env: Env, fields: seq<FieldInfo>, values: map<GoString, Value>, structData: array<byte>)
    returns (r: Outcome<()>, ghost o: Order)
    requires structData.Length < U32_MODULUS
    modifies structData
    ensures IsOrderOf(Struct(values), o)
    ensures match UpdateInOrder(env, values, fields, old(structData[..]), o)
            case Ok(bs) => r == Ok(()) && structData[..] == bs
            case Err => r == Err
            case Panic => r == Panic
  {
    hide IsOrderOf, UpdateInOrder, Overlay, EncodeInOrder, Encoded, MayErr, MayPanic, OrderFree, UpdatePiece,
         CopyPiece, Wrap32, FieldIndex, CopyInOrder;
    ghost var data := structData[..];
    ghost var keys: seq<GoString>, inner: map<GoString, Order>, pieces: Pieces := [], map[], map[];
    var remaining := values.Keys;
    UpdatingStarts(env, values, fields, data);
    hide Updating;
    while remaining != {}
      invariant remaining <= values.Keys
      invariant IsOrder(values.Keys - remaining, keys)
      invariant Updating(env, values, fields, data, keys, inner, pieces, structData[..])
      invariant |data| == structData.Length
      decreases remaining
    {
      var k :| k in remaining;
      var i := FindField(fields, k);
      if i == -1 {
        UpdateRound(env, values[k], fields, k, AnyOrder(values[k]), structData[..]);
        o := UpdatingStep(env, values, fields, data, keys, inner, pieces, structData[..], k, AnyOrder(values[k]));
        return Err, o;
      }
      var f := fields[i];
      var encoded, ok := EncodeSymbolValue(env, values[k], f.typ, f.typ.size);
      UpdateRound(env, values[k], fields, k, ok, structData[..]);
      o := UpdatingStep(env, values, fields, data, keys, inner, pieces, structData[..], k, ok);
      if !encoded.Ok? {
        return if encoded.Err? then Err else Panic, o;
      }
      if Wrap32(f.offset + f.typ.size) > Wrap32(structData.Length) {
        return Err, o;
      }
      if Wrap32(f.offset + f.typ.size) < f.offset {
        return Panic, o;
      }
      CopyInto(structData, f.offset, encoded.value[..Min(|encoded.value|, f.typ.size)]);
      keys, inner := keys + [k], inner[k := ok];
      pieces := pieces[k := UpdatePiece(env, values[k], fields, k, |data|, ok)];
      remaining := remaining - {k};
    }
    o := UpdatingEnds(env, values, fields, data, keys, inner, pieces, structData[..]);
    r := Ok(());
  }
}
