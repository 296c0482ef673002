/** Copying named pieces into a buffer one after the other, as a Go loop over a map does: what each order
    leaves behind. */
module Windows {
  import opened Bytes
  import opened Outcomes

  /** Bytes to copy into a buffer from an offset on, as far as they fit. */
  datatype Patch = Patch(offset: nat, bytes: seq<byte>)

  predicate Covers(p: Patch, j: int) {
    p.offset <= j < p.offset + |p.bytes|
  }

  function ByteOf(p: Patch, j: int): byte
    requires Covers(p, j)
  {
    p.bytes[j - p.offset]
  }

  /** Patches that cover a byte hold the same value for it. */
  ghost predicate AgreeAt(patches: map<GoString, Patch>, j: int) {
    forall k1, k2 | k1 in patches && k2 in patches && Covers(patches[k1], j) && Covers(patches[k2], j) ::
      ByteOf(patches[k1], j) == ByteOf(patches[k2], j)
  }

  /** Where two patches overlap inside a buffer of n bytes, they hold the same bytes. Patches that do not
      overlap agree. */
  ghost predicate Agree(patches: map<GoString, Patch>, n: nat) {
    forall j :: 0 <= j < n ==> AgreeAt(patches, j)
  }

  // ---------- the buffer all patches leave behind ----------

  /** The buffer after every patch was copied: each byte is a covering patch's, or the old one. */
  ghost function Paint(base: seq<byte>, patches: map<GoString, Patch>): (r: seq<byte>)
    ensures |r| == |base|
  {
    seq(|base|, j requires 0 <= j < |base| =>
      if exists k :: k in patches && Covers(patches[k], j)
      then var k :| k in patches && Covers(patches[k], j); ByteOf(patches[k], j)
      else base[j])
  }

  /** A patch that fits can be read back from the painted buffer, and bytes outside all patches stay. */
  lemma PaintedBytes(base: seq<byte>, patches: map<GoString, Patch>)
    requires Agree(patches, |base|)
    ensures forall k | k in patches && patches[k].offset + |patches[k].bytes| <= |base| ::
              Paint(base, patches)[patches[k].offset..patches[k].offset + |patches[k].bytes|] == patches[k].bytes
    ensures forall j | 0 <= j < |base| && (forall k :: k in patches ==> !Covers(patches[k], j)) ::
              Paint(base, patches)[j] == base[j]
  {
    var r := Paint(base, patches);
    forall k | k in patches && patches[k].offset + |patches[k].bytes| <= |base|
      ensures r[patches[k].offset..patches[k].offset + |patches[k].bytes|] == patches[k].bytes
    {
      var p := patches[k];
      forall i | 0 <= i < |p.bytes|
        ensures r[p.offset + i] == p.bytes[i]
      {
        assert Covers(p, p.offset + i) && AgreeAt(patches, p.offset + i);
      }
    }
  }

  // ---------- one order ----------

  /** What each key of the map comes to: a patch, or a failure. */
  type Pieces = map<GoString, Outcome<Patch>>

  function CopyPiece(buf: seq<byte>, piece: Outcome<Patch>): Outcome<seq<byte>> {
    match piece
    case Err => Err
    case Panic => Panic
    case Ok(p) => if p.offset > |buf| then Panic else Ok(Overlay(buf, p.offset, p.bytes))
  }

  /** The loop over the keys in a given order; the first failure ends it. */
  function CopyInOrder(base: seq<byte>, pieces: Pieces, order: seq<GoString>): (r: Outcome<seq<byte>>)
    requires forall k :: k in order ==> k in pieces
    ensures r.Ok? ==> |r.value| == |base|
    decreases |order|
  {
    if order == [] then Ok(base)
    else
      match CopyInOrder(base, pieces, order[..|order| - 1])
      case Ok(buf) => CopyPiece(buf, pieces[order[|order| - 1]])
      case Err => Err
      case Panic => Panic
  }

  /** An order visits each key once. */
  predicate IsOrder(keys: set<GoString>, order: seq<GoString>) {
    && (forall k :: k in order ==> k in keys)
    && (forall k :: k in keys ==> k in order)
    && (forall i, j :: 0 <= i < j < |order| ==> order[i] != order[j])
  }

  predicate Fine(piece: Outcome<Patch>, n: nat) {
    piece.Ok? && piece.value.offset <= n
  }

  /** A piece holds value b at byte j of the buffer. */
  predicate HasByte(piece: Outcome<Patch>, j: int, b: byte) {
    piece.Ok? && Covers(piece.value, j) && ByteOf(piece.value, j) == b
  }

  predicate MissesByte(piece: Outcome<Patch>, j: int) {
    piece.Ok? && !Covers(piece.value, j)
  }

  /** A piece agrees with a patch at byte j: both cover it with the same value, or neither does. */
  predicate MatchesAt(piece: Outcome<Patch>, p: Patch, j: int) {
    if Covers(p, j) then HasByte(piece, j, ByteOf(p, j)) else MissesByte(piece, j)
  }

  /** One more key. */
  lemma CopyOneMore(base: seq<byte>, pieces: Pieces, order: seq<GoString>, k: GoString, piece: Outcome<Patch>)
    requires (forall i :: i in order ==> i in pieces) && k !in order
    ensures forall i :: i in order + [k] ==> i in pieces[k := piece]
    ensures CopyInOrder(base, pieces[k := piece], order + [k])
            == match CopyInOrder(base, pieces, order)
               case Ok(buf) => CopyPiece(buf, piece)
               case Err => Err
               case Panic => Panic
  {
    assert (order + [k])[..|order|] == order;
    hide CopyPiece;
    CopySame(base, pieces, pieces[k := piece], order);
  }

  lemma {:induction false} CopySame(base: seq<byte>, p1: Pieces, p2: Pieces, order: seq<GoString>)
    requires forall k :: k in order ==> k in p1 && k in p2 && p1[k] == p2[k]
    ensures CopyInOrder(base, p1, order) == CopyInOrder(base, p2, order)
    decreases |order|
  {
    hide CopyPiece;
    if order != [] {
      CopySame(base, p1, p2, order[..|order| - 1]);
    }
  }

  /** What comes after a failure does not matter. */
  lemma {:induction false} FailureStays(base: seq<byte>, pieces: Pieces, a: seq<GoString>, b: seq<GoString>)
    requires forall k :: k in a + b ==> k in pieces
    requires (forall k :: k in a ==> k in pieces) && !CopyInOrder(base, pieces, a).Ok?
    ensures CopyInOrder(base, pieces, a + b) == CopyInOrder(base, pieces, a)
    decreases |b|
  {
    hide CopyPiece;
    if b == [] {
      assert a + b == a;
    } else {
      var b' := b[..|b| - 1];
      assert (a + b)[..|a + b| - 1] == a + b';
      FailureStays(base, pieces, a, b');
    }
  }

  /** A key that fails, visited first, decides the outcome. */
  lemma FailsFirst(base: seq<byte>, pieces: Pieces, k: GoString, rest: seq<GoString>)
    requires (forall i :: i in [k] + rest ==> i in pieces) && !Fine(pieces[k], |base|)
    ensures CopyInOrder(base, pieces, [k] + rest) == CopyPiece(base, pieces[k])
  {
    assert k in [k] + rest;
    assert [k][..0] == [] && CopyInOrder(base, pieces, []) == Ok(base);
    assert CopyInOrder(base, pieces, [k]) == CopyPiece(base, pieces[k]);
    FailureStays(base, pieces, [k], rest);
  }

  lemma {:induction false} CopyOk(base: seq<byte>, pieces: Pieces, order: seq<GoString>)
    requires forall k :: k in order ==> k in pieces
    ensures CopyInOrder(base, pieces, order).Ok? <==> forall k :: k in order ==> Fine(pieces[k], |base|)
    decreases |order|
  {
    if order != [] {
      CopyOk(base, pieces, order[..|order| - 1]);
      assert order == order[..|order| - 1] + [order[|order| - 1]];
    }
  }

  lemma {:induction false} CopyFails(base: seq<byte>, pieces: Pieces, order: seq<GoString>)
    requires forall k :: k in order ==> k in pieces
    ensures !CopyInOrder(base, pieces, order).Ok? ==>
              exists k :: k in order && !Fine(pieces[k], |base|)
                          && CopyPiece(base, pieces[k]) == CopyInOrder(base, pieces, order)
    decreases |order|
  {
    if order != [] {
      var init, last := order[..|order| - 1], order[|order| - 1];
      CopyFails(base, pieces, init);
      assert order == init + [last];
      if CopyInOrder(base, pieces, init).Ok? && !CopyInOrder(base, pieces, order).Ok? {
        assert last in order && !Fine(pieces[last], |base|);
      }
    }
  }

  /** A byte of the result is some covering patch's, or the old one. */
  lemma {:induction false} CopyByte(base: seq<byte>, pieces: Pieces, order: seq<GoString>, j: nat)
    requires (forall k :: k in order ==> k in pieces && Fine(pieces[k], |base|)) && j < |base|
    requires CopyInOrder(base, pieces, order).Ok?
    ensures var b := CopyInOrder(base, pieces, order).value[j];
            || (exists k :: k in order && HasByte(pieces[k], j, b))
            || (b == base[j] && forall k :: k in order ==> MissesByte(pieces[k], j))
    decreases |order|
  {
    if order != [] {
      var init, last := order[..|order| - 1], order[|order| - 1];
      assert order == init + [last] && last in order;
      CopyByte(base, pieces, init, j);
    }
  }

  /** The patch copied last is there whole. */
  lemma LastWins(base: seq<byte>, pieces: Pieces, order: seq<GoString>, k: GoString, j: nat)
    requires (forall i :: i in order + [k] ==> i in pieces) && j < |base|
    requires CopyInOrder(base, pieces, order + [k]).Ok?
    requires k in pieces && pieces[k].Ok? && Covers(pieces[k].value, j)
    ensures HasByte(pieces[k], j, CopyInOrder(base, pieces, order + [k]).value[j])
  {
    assert (order + [k])[..|order|] == order;
  }

  predicate PatchesApart(p: Patch, q: Patch) {
    p.offset + |p.bytes| <= q.offset || q.offset + |q.bytes| <= p.offset
  }

  /** A patch that fits and lies apart from all others is there whole, in every order. */
  lemma ApartStays(base: seq<byte>, pieces: Pieces, order: seq<GoString>, k: GoString)
    requires (forall i :: i in order ==> i in pieces) && CopyInOrder(base, pieces, order).Ok?
    requires k in order && pieces[k].Ok? && pieces[k].value.offset + |pieces[k].value.bytes| <= |base|
    requires forall i :: i in order && i != k ==> pieces[i].Ok? && PatchesApart(pieces[i].value, pieces[k].value)
    ensures var p := pieces[k].value;
            CopyInOrder(base, pieces, order).value[p.offset..p.offset + |p.bytes|] == p.bytes
  {
    CopyOk(base, pieces, order);
    hide CopyInOrder;
    var r, p := CopyInOrder(base, pieces, order).value, pieces[k].value;
    forall j | p.offset <= j < p.offset + |p.bytes|
      ensures r[j] == p.bytes[j - p.offset]
    {
      CopyByte(base, pieces, order, j);
      assert !MissesByte(pieces[k], j);
    }
  }

  ghost function AnyKeys(keys: set<GoString>): (order: seq<GoString>)
    ensures IsOrder(keys, order)
    decreases |keys|
  {
    if keys == {} then []
    else
      var k :| k in keys;
      AnyKeys(keys - {k}) + [k]
  }

  /** Orders that visit a given key last, or first. */
  lemma LastOrFirst(keys: set<GoString>, k: GoString)
    requires k in keys
    ensures IsOrder(keys, AnyKeys(keys - {k}) + [k])
    ensures IsOrder(keys, [k] + AnyKeys(keys - {k}))
  {
    hide AnyKeys;
    var rest := AnyKeys(keys - {k});
    assert k !in rest;
  }

  /** If every piece holds, at a byte, what its patch does, and the patches agree there, the order leaves
      the painted byte. */
  lemma PaintedByte(base: seq<byte>, pieces: Pieces, order: seq<GoString>, patches: map<GoString, Patch>, j: nat)
    requires IsOrder(patches.Keys, order) && j < |base|
    requires forall k :: k in patches ==> k in pieces && Fine(pieces[k], |base|)
    requires forall k :: k in patches ==> MatchesAt(pieces[k], patches[k], j)
    requires AgreeAt(patches, j)
    ensures CopyInOrder(base, pieces, order).Ok?
    ensures CopyInOrder(base, pieces, order).value[j] == Paint(base, patches)[j]
  {
    CopyOk(base, pieces, order);
    CopyByte(base, pieces, order, j);
    hide CopyInOrder;
  }
}
