/** WSTRING values: UTF-16LE text in a fixed, zero-padded window (RFC 2781, sections 2.1 and 2.2). */
module WString {
  import opened Bytes
  import opened Outcomes

  /** A Unicode scalar value. */
  type Scalar = x: int | 0 <= x < 0xD800 || 0xE000 <= x < 0x11_0000

  const REPLACEMENT: Scalar := 0xFFFD

  predicate IsHigh(u: u16) { 0xD800 <= u < 0xDC00 }

  predicate IsLow(u: u16) { 0xDC00 <= u < 0xE000 }

  /** utf16.Encode: a surrogate pair above the basic plane. */
  function EncodeScalar(c: Scalar): (us: seq<u16>)
    ensures 1 <= |us| <= 2
  {
    if c < 0x1_0000 then [c]
    else [0xD800 + (c - 0x1_0000) / 0x400, 0xDC00 + (c - 0x1_0000) % 0x400]
  }

  function Encode(text: seq<Scalar>): (us: seq<u16>)
    ensures |us| >= |text|
  {
    if text == [] then [] else EncodeScalar(text[0]) + Encode(text[1..])
  }

  /** utf16.Decode: a surrogate without its partner becomes U+FFFD. */
  function Decode(us: seq<u16>): seq<Scalar> {
    if us == [] then []
    else if IsHigh(us[0]) && |us| > 1 && IsLow(us[1]) then
      [(us[0] - 0xD800) * 0x400 + (us[1] - 0xDC00) + 0x1_0000] + Decode(us[2..])
    else if IsHigh(us[0]) || IsLow(us[0]) then [REPLACEMENT] + Decode(us[1..])
    else [us[0]] + Decode(us[1..])
  }

  lemma {:induction false} DecodeEncode(text: seq<Scalar>)
    ensures Decode(Encode(text)) == text
  {
    if text == [] {
    } else {
      var c := text[0];
      DecodeEncode(text[1..]);
      assert Encode(text)[|EncodeScalar(c)|..] == Encode(text[1..]);
      assert text == [c] + text[1..];
    }
  }

  /** Decoding and encoding again may change units but never their number. */
  lemma {:induction false} ReencodedLength(us: seq<u16>)
    ensures |Encode(Decode(us))| == |us|
  {
    if us == [] {
    } else if IsHigh(us[0]) && |us| > 1 && IsLow(us[1]) {
      ReencodedLength(us[2..]);
      assert Decode(us)[1..] == Decode(us[2..]);
    } else {
      ReencodedLength(us[1..]);
      assert Decode(us)[1..] == Decode(us[1..]);
    }
  }

  lemma {:induction false} DecodeEndsInZero(us: seq<u16>)
    ensures Decode(us + [0]) == Decode(us) + [0]
  {
    if us == [] {
      assert us + [0] == [0];
      assert Decode([0]) == [0] + Decode([0][1..]);
    } else if IsHigh(us[0]) && |us| > 1 && IsLow(us[1]) {
      DecodeEndsInZero(us[2..]);
      assert (us + [0])[2..] == us[2..] + [0];
    } else {
      DecodeEndsInZero(us[1..]);
      assert (us + [0])[1..] == us[1..] + [0];
    }
  }

  lemma {:induction false} ZeroUnits(text: seq<Scalar>)
    ensures 0 in Encode(text) <==> 0 in text
    ensures text != [] ==>
              var us := Encode(text);
              (us[|us| - 1] == 0 <==> text[|text| - 1] == 0)
  {
    if text == [] {
    } else {
      ZeroUnits(text[1..]);
      var head := EncodeScalar(text[0]);
      assert 0 in head <==> text[0] == 0;
      assert Encode(text) == head + Encode(text[1..]);
      assert text == [text[0]] + text[1..];
      if |text| > 1 {
        assert Encode(text)[|Encode(text)| - 1] == Encode(text[1..])[|Encode(text[1..])| - 1];
      } else {
        assert Encode(text) == head;
      }
    }
  }

  // ---------- the window ----------

  function UnitBytes(us: seq<u16>): (bs: seq<byte>)
    ensures |bs| == 2 * |us|
  {
    seq(2 * |us|, i requires 0 <= i < 2 * |us| => if i % 2 == 0 then us[i / 2] % 256 else us[i / 2] / 256)
  }

  /** uint16(lo) | uint16(hi) << 8 */
  function Unit(lo: int, hi: int): u16
    requires 0 <= lo < 256 && 0 <= hi < 256
  {
    lo + 256 * hi
  }

  function UnitsOf(bs: seq<byte>): (us: seq<u16>)
    ensures |us| == |bs| / 2
  {
    seq(|bs| / 2, i requires 0 <= i < |bs| / 2 => Unit(bs[2 * i], bs[2 * i + 1]))
  }

  /** The units that go into the window: all, or as many as leave room for the terminator. */
  function Kept(size: u32, units: seq<u16>): (us: seq<u16>)
    requires size >= 2
    ensures |us| <= size / 2 - 1 && us <= units
    ensures |us| < |units| ==> |us| == size / 2 - 1
  {
    if |units| > size / 2 - 1 then units[..size / 2 - 1] else units
  }

  /** The bytes WriteWString sends for a window of size bytes; slicing to a negative number of units
      panics. */
  function WindowBytes(size: u32, text: seq<Scalar>): Outcome<seq<byte>> {
    if size < 2 then Panic
    else
      var kept := Kept(size, Encode(text));
      Ok(UnitBytes(kept) + Zeros(size - 2 * |kept|))
  }

  /** The position of the first zero unit, or the number of units. */
  function FirstZero(us: seq<u16>): (k: nat)
    ensures k <= |us|
    ensures k < |us| ==> us[k] == 0
    ensures forall i :: 0 <= i < k ==> us[i] != 0
  {
    if us == [] || us[0] == 0 then 0 else 1 + FirstZero(us[1..])
  }

  /** ReadWString: up to the terminator; a terminator at the very start counts as none. */
  function WindowText(data: seq<byte>): seq<Scalar> {
    var us := UnitsOf(data);
    var z := FirstZero(us);
    Decode(if z == 0 then us else us[..z])
  }

  lemma UnitsOfBytes(us: seq<u16>, n: nat)
    ensures UnitsOf(UnitBytes(us) + Zeros(n)) == us + ZeroUnitsSeq(n / 2)
  {
    var bs := UnitBytes(us) + Zeros(n);
    forall i | 0 <= i < |bs| / 2
      ensures UnitsOf(bs)[i] == (us + ZeroUnitsSeq(n / 2))[i]
    {
      if i < |us| {
        assert bs[2 * i] == us[i] % 256 && bs[2 * i + 1] == us[i] / 256;
      }
    }
  }

  function ZeroUnitsSeq(n: nat): (us: seq<u16>)
    ensures |us| == n
  {
    seq(n, i => 0)
  }

  lemma FirstZeroPadded(us: seq<u16>, n: nat)
    requires n > 0
    ensures FirstZero(us + ZeroUnitsSeq(n)) == FirstZero(us)
  {
    var all := us + ZeroUnitsSeq(n);
    var z, w := FirstZero(us), FirstZero(all);
    assert all[|us|] == 0;
    assert forall i :: 0 <= i < |us| ==> all[i] == us[i];
    assert all[z] == 0;
  }

  /** What is read back after writing, in terms of the units kept. */
  lemma ReadBack(size: u32, text: seq<Scalar>)
    requires size >= 2
    ensures var kept := Kept(size, Encode(text));
            var z := FirstZero(kept);
            WindowText(WindowBytes(size, text).value)
            == Decode(if z == 0 then kept + ZeroUnitsSeq(size / 2 - |kept|) else kept[..z])
  {
    hide Encode, Decode, UnitBytes, UnitsOf, FirstZero, Kept;
    var kept := Kept(size, Encode(text));
    UnitsOfBytes(kept, size - 2 * |kept|);
    assert (size - 2 * |kept|) / 2 == size / 2 - |kept|;
    FirstZeroPadded(kept, size / 2 - |kept|);
    var z := FirstZero(kept);
    assert (kept + ZeroUnitsSeq(size / 2 - |kept|))[..z] == kept[..z];
  }

  /** A prefix decodes to the whole text only if it is the whole encoding. */
  lemma PrefixDecodesToAll(text: seq<Scalar>, prefix: seq<u16>)
    requires prefix <= Encode(text)
    ensures Decode(prefix) == text <==> prefix == Encode(text)
  {
    hide Encode, Decode;
    DecodeEncode(text);
    ReencodedLength(prefix);
    if Decode(prefix) == text {
      assert |prefix| == |Encode(text)|;
    }
  }

  /** The units before the first zero are all the units exactly when none was cut and none is zero. */
  lemma PlainPrefix(units: seq<u16>, kept: seq<u16>)
    requires kept <= units
    ensures kept[..FirstZero(kept)] == units <==> kept == units && 0 !in units
    ensures FirstZero(kept) > 0 ==> units != [] && units[0] != 0
  {
    var z := FirstZero(kept);
    if kept[..z] == units {
      assert |kept| == z == |units|;
      assert forall i :: 0 <= i < |units| ==> units[i] == kept[i];
    }
    if kept == units && 0 !in units {
      assert z == |kept|;
    }
    if z > 0 {
      assert kept[0] == units[0];
    }
  }

  /** Text whose first kept unit is not zero is read back up to its first U+0000. */
  lemma RoundTripPlain(size: u32, text: seq<Scalar>)
    requires size >= 2 && FirstZero(Kept(size, Encode(text))) > 0
    ensures WindowText(WindowBytes(size, text).value) == text
            <==> 0 !in text && |Encode(text)| <= size / 2 - 1
    ensures text != [] && text[0] != 0
  {
    hide WindowText, WindowBytes, Encode, Decode, FirstZero;
    ReadBack(size, text);
    var units := Encode(text);
    var kept := Kept(size, units);
    assert kept == units <==> |units| <= size / 2 - 1;
    hide Kept;
    PlainPrefix(units, kept);
    assert text != [] by { EmptyEncoding(); }
    PrefixDecodesToAll(text, kept[..FirstZero(kept)]);
    ZeroUnits(text);
    FirstUnit(text);
  }

  lemma EmptyEncoding()
    ensures Encode([]) == []
  {
  }

  /** Text that is empty, starts with U+0000, or meets a window with no room is read back padded. */
  lemma RoundTripPadded(size: u32, text: seq<Scalar>)
    requires size >= 2 && FirstZero(Kept(size, Encode(text))) == 0
    ensures WindowText(WindowBytes(size, text).value) == text
            <==> text != [] && |Encode(text)| == size / 2 && text[|text| - 1] == 0
  {
    hide WindowText, WindowBytes, Encode, Decode, FirstZero;
    ReadBack(size, text);
    var units := Encode(text);
    var kept := Kept(size, units);
    var pad := ZeroUnitsSeq(size / 2 - |kept|);
    var shorter := kept + pad[..|pad| - 1];
    assert kept + pad == shorter + [0];
    DecodeEncode(text);
    ZeroUnits(text);
    DecodeEndsInZero(shorter);
    ReencodedLength(kept + pad);
    if text != [] && |units| == size / 2 && text[|text| - 1] == 0 {
      assert kept + pad == units;
    }
    if text == Decode(kept + pad) {
      assert text[|text| - 1] == 0;
    }
  }

  /** Reading after writing returns the text exactly when it is non-empty, free of U+0000 and leaves
      room for a terminator; or when it fills the window with U+0000 at both ends. */
  lemma RoundTrip(size: u32, text: seq<Scalar>)
    requires size >= 2
    ensures var units := Encode(text);
            WindowText(WindowBytes(size, text).value) == text
            <==> || (text != [] && 0 !in text && |units| <= size / 2 - 1)
                 || (text != [] && |units| == size / 2 && text[0] == 0 && text[|text| - 1] == 0)
  {
    hide WindowText, WindowBytes, Encode;
    var units := Encode(text);
    var kept := Kept(size, units);
    FirstUnit(text);
    ZeroUnits(text);
    if FirstZero(kept) > 0 {
      RoundTripPlain(size, text);
    } else {
      RoundTripPadded(size, text);
      if kept != [] {
        assert kept[0] == units[0] == 0;
      } else if text != [] && |units| == 1 {
        OneUnit(text);
      }
    }
  }

  lemma OneUnit(text: seq<Scalar>)
    requires |Encode(text)| == 1
    ensures |text| == 1
  {
  }

  lemma FirstUnit(text: seq<Scalar>)
    ensures text != [] ==> (Encode(text)[0] == 0 <==> text[0] == 0)
  {
  }

  /** The documented case: text without U+0000 survives exactly when it is non-empty and fits. */
  lemma RoundTripWithoutNul(size: u32, text: seq<Scalar>)
    requires size >= 2 && 0 !in text
    ensures WindowText(WindowBytes(size, text).value) == text
            <==> text != [] && |Encode(text)| <= size / 2 - 1
  {
    hide WindowText, WindowBytes, Encode;
    RoundTrip(size, text);
  }

  lemma {:induction false} DecodeZeros(n: nat)
    ensures Decode(ZeroUnitsSeq(n)) == seq(n, i => 0)
  {
    if n > 0 {
      DecodeZeros(n - 1);
      assert ZeroUnitsSeq(n)[1..] == ZeroUnitsSeq(n - 1);
    }
  }

  /** The empty text reads back as a window full of U+0000. */
  lemma EmptyTextReadsAsNuls(size: u32)
    requires size >= 2
    ensures WindowText(WindowBytes(size, []).value) == seq(size / 2, i => 0)
  {
    ReadBack(size, []);
    assert Encode([]) == [] && Kept(size, []) == [];
    assert FirstZero([]) == 0;
    assert [] + ZeroUnitsSeq(size / 2) == ZeroUnitsSeq(size / 2);
    hide WindowText, WindowBytes, Decode;
    DecodeZeros(size / 2);
  }

  /** How a scalar is encoded: as itself in the basic plane, and as a high and a low surrogate that carry its ten
      upper and ten lower bits above it. A surrogate without its partner decodes to U+FFFD. */
  lemma Surrogates(c: Scalar, u: u16)
    ensures c < 0x1_0000 ==> EncodeScalar(c) == [c]
    ensures c >= 0x1_0000 ==>
              var us := EncodeScalar(c);
              && |us| == 2 && 0xD800 <= us[0] < 0xDC00 && 0xDC00 <= us[1] < 0xE000
              && 0x400 * (us[0] as int - 0xD800) + (us[1] as int - 0xDC00) == c - 0x1_0000
    ensures 0xD800 <= u < 0xE000 ==> Decode([u]) == [0xFFFD]
  {
    assert [u][1..] == [];
  }

  /** The window on the wire: each unit kept as two bytes, the lower first, then zeros to its size. */
  lemma WindowLayout(size: u32, text: seq<Scalar>)
    requires size >= 2
    ensures var kept, bs := Kept(size, Encode(text)), WindowBytes(size, text).value;
            && |bs| == size
            && (forall k :: 0 <= k < |kept| ==> bs[2 * k] as int + 0x100 * (bs[2 * k + 1] as int) == kept[k])
            && (forall j :: 2 * |kept| <= j < size ==> bs[j] == 0)
  {
    hide Encode, Kept;
  }

  /** Any buffer reads up to its first zero unit, the whole of it if there is none or it comes first. */
  lemma ReadsUpToNul(us: seq<u16>, rest: seq<u16>)
    requires us != [] && 0 !in us
    ensures WindowText(UnitBytes(us)) == Decode(us)
    ensures WindowText(UnitBytes(us + [0] + rest)) == Decode(us)
    ensures WindowText(UnitBytes([0] + rest)) == Decode([0] + rest)
  {
    hide Decode, UnitBytes, UnitsOf;
    WholeUnits(us);
    WholeUnits(us + [0] + rest);
    WholeUnits([0] + rest);
    var all := us + [0] + rest;
    assert all[|us|] == 0 && forall i :: 0 <= i < |us| ==> all[i] == us[i] && us[i] in us;
    assert FirstZero(all) == |us| && all[..|us|] == us;
    assert FirstZero(us) == |us| && us[..|us|] == us;
  }

  lemma WholeUnits(us: seq<u16>)
    ensures UnitsOf(UnitBytes(us)) == us
  {
    UnitsOfBytes(us, 0);
    assert UnitBytes(us) + Zeros(0) == UnitBytes(us);
    assert us + ZeroUnitsSeq(0) == us;
  }

  // ---------- the methods ----------

  method WriteWString(size: u32, text: seq<Scalar>) returns (r: Outcome<seq<byte>>)
    ensures r == WindowBytes(size, text)
    ensures r == Panic <==> size < 2
    ensures r.Ok? ==> |r.value| == size
  {
    hide Encode;
    var data := MakeBuffer(size);
    var units := Encode(text);
    var maxUnits: int := size / 2 - 1;
    if |units| > maxUnits {
      if maxUnits < 0 {
        return Panic;
      }
      units := units[..maxUnits];
    }
    ghost var whole := UnitBytes(units) + Zeros(size - 2 * |units|);
    var i := 0;
    while i < |units|
      invariant i <= |units|
      invariant forall j :: 0 <= j < 2 * i ==> data[j] == whole[j]
      invariant forall j :: 2 * i <= j < size ==> data[j] == 0
    {
      data[i * 2] := units[i] % 256;
      data[i * 2 + 1] := units[i] / 256;
      i := i + 1;
    }
    assert data[..] == whole;
    r := Ok(data[..]);
  }

  lemma UnitAt(data: seq<byte>, k: nat)
    requires 2 * k + 1 < |data|
    ensures UnitsOf(data)[k] == 0 <==> data[2 * k] == 0 && data[2 * k + 1] == 0
  {
  }

  /** The scan for the terminator, and its fallback to the whole buffer. */
  method TextLength(data: seq<byte>) returns (length: nat)
    ensures length <= |data|
    ensures var z := FirstZero(UnitsOf(data));
            length / 2 == if z == 0 then |data| / 2 else z
  {
    ghost var us := UnitsOf(data);
    ghost var z := FirstZero(us);
    hide UnitsOf, FirstZero;
    length := 0;
    var i := 0;
    ghost var k := 0;
    while i < |data| - 1
      invariant i == 2 * k && k <= z && length == 0
    {
      UnitAt(data, k);
      if data[i] == 0 && data[i + 1] == 0 {
        length := i;
        break;
      }
      i := i + 2;
      k := k + 1;
    }
    if length == 0 {
      length := |data|;
    }
  }

  method ReadWString(data: seq<byte>) returns (text: seq<Scalar>)
    ensures text == WindowText(data)
  {
    hide Decode, FirstZero;
    var length := TextLength(data);
    ghost var us := UnitsOf(data);
    var units: seq<u16> := [];
    var k := 0;
    while k < length / 2
      invariant k <= length / 2
      invariant units == us[..k]
    {
      units := units + [Unit(data[k * 2], data[k * 2 + 1])];
      k := k + 1;
    }
    assert us[..|us|] == us;
    text := Decode(units);
  }
}
