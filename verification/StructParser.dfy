/** Parsing the bytes of a field or a struct into values, by the description of its type. */
module StructParser {
  import opened Bytes
  import opened Outcomes
  import opened Text
  import opened Types
  import opened Values

  /** Lower-case hexadecimal, two digits a byte. */
  function Hex(bs: seq<byte>): (s: GoString)
    ensures |s| == 2 * |bs|
  {
    if bs == [] then [] else [HexDigit(bs[0] / 16), HexDigit(bs[0] % 16)] + Hex(bs[1..])
  }

  function HexDigit(d: nat): byte
    requires d < 16
  {
    if d < 10 then 48 + d else 87 + d
  }

  predicate Inside(f: FieldInfo, n: nat) {
    f.offset + f.typ.size <= n
  }

  function FieldBytes(data: seq<byte>, f: FieldInfo): (bs: seq<byte>)
    requires Inside(f, |data|)
    ensures |bs| == f.typ.size
  {
    data[f.offset..f.offset + f.typ.size]
  }

  /** parseFieldValue. */
  function ParseField(data: seq<byte>, t: TypeInfo): Value
    decreases t, 1
  {
    if data == [] then Nil
    else if t.isArray then Str(Ascii("<array ") + PrintNat(|data|) + Ascii(" bytes>"))
    else if t.isStruct then NestedStruct(data, t)
    else
      match ParseSimple(data, t.baseType)
      case Some(v) => v
      case None => Str(Ascii("0x") + Hex(data))
  }

  /** parseNestedStruct. */
  function NestedStruct(data: seq<byte>, t: TypeInfo): Value
    decreases t, 0
  {
    if t.fields == [] then
      Str(Ascii("<struct ") + t.name + Ascii(", ") + PrintNat(|data|) + Ascii(" bytes>"))
    else Struct(ParseFields(data, t.fields))
  }

  /** Every field that lies inside the data, later fields replacing earlier ones of the same name. */
  function ParseFields(data: seq<byte>, fields: seq<FieldInfo>): map<GoString, Value>
    decreases fields, 1
  {
    if fields == [] then map[]
    else
      var n := |fields| - 1;
      var m := ParseFields(data, fields[..n]);
      var f := fields[n];
      if Inside(f, |data|) then m[f.name := ParseField(FieldBytes(data, f), f.typ)] else m
  }

  /** The loop over a type's fields that parseNestedStruct and parseStructWithTypeInfo share. */
  method ParseAllFields(data: seq<byte>, fields: seq<FieldInfo>) returns (result: map<GoString, Value>)
    requires |data| < U32_MODULUS
    ensures result == ParseFields(data, fields)
    decreases fields, 1
  {
    result := map[];
    var i := 0;
    while i < |fields|
      invariant i <= |fields|
      invariant result == ParseFields(data, fields[..i])
    {
      var field := fields[i];
      assert fields[..i + 1][..i] == fields[..i];
      if field.offset + field.typ.size <= |data| {
        // the slice bound is a uint32 sum, which cannot wrap below the data's length
        var value := ParseFieldValue(data[field.offset..Wrap32(field.offset + field.typ.size)], field.typ);
        result := result[field.name := value];
      }
      i := i + 1;
    }
    assert fields[..i] == fields;
  }

  method ParseFieldValue(data: seq<byte>, t: TypeInfo) returns (v: Value)
    requires |data| < U32_MODULUS
    ensures v == ParseField(data, t)
    decreases t, 2
  {
    if |data| == 0 {
      return Nil;
    }
    if t.isArray {
      return Str(Ascii("<array ") + PrintNat(|data|) + Ascii(" bytes>"));
    }
    if t.isStruct {
      v := ParseNestedStruct(data, t);
      return;
    }
    var simple := ParseSimple(data, t.baseType);
    if simple.Some? {
      return simple.value;
    }
    v := Str(Ascii("0x") + Hex(data));
  }

  method ParseNestedStruct(data: seq<byte>, t: TypeInfo) returns (v: Value)
    requires |data| < U32_MODULUS
    ensures v == NestedStruct(data, t)
    decreases t, 1
  {
    if |t.fields| == 0 {
      return Str(Ascii("<struct ") + t.name + Ascii(", ") + PrintNat(|data|) + Ascii(" bytes>"));
    }
    var fields := ParseAllFields(data, t.fields);
    v := Struct(fields);
  }

  predicate DistinctNames(fields: seq<FieldInfo>) {
    forall i, j :: 0 <= i < j < |fields| ==> fields[i].name != fields[j].name
  }

  lemma {:induction false} ParseFieldsKeys(data: seq<byte>, fields: seq<FieldInfo>, k: GoString)
    ensures k in ParseFields(data, fields) <==>
              exists i :: 0 <= i < |fields| && Inside(fields[i], |data|) && fields[i].name == k
    decreases |fields|
  {
    hide ParseField, Inside;
    if fields == [] {
    } else {
      var n := |fields| - 1;
      ParseFieldsKeys(data, fields[..n], k);
      assert forall i :: 0 <= i < n ==> fields[..n][i] == fields[i];
    }
  }

  /** A field inside the data, and the last one inside it that bears its name, is parsed from its own window. */
  lemma {:induction false} ParseFieldsAt(data: seq<byte>, fields: seq<FieldInfo>, i: nat)
    requires i < |fields| && fields[i].offset + fields[i].typ.size <= |data|
    requires forall j :: i < j < |fields| && fields[j].name == fields[i].name ==>
               fields[j].offset + fields[j].typ.size > |data|
    ensures fields[i].name in ParseFields(data, fields)
    ensures ParseFields(data, fields)[fields[i].name]
            == ParseField(data[fields[i].offset..fields[i].offset + fields[i].typ.size], fields[i].typ)
    decreases |fields|
  {
    hide ParseField;
    var n := |fields| - 1;
    if i < n {
      assert fields[..n][i] == fields[i];
      ParseFieldsAt(data, fields[..n], i);
    }
  }

  /** Each byte as two lower-case hexadecimal digits, the upper half first. */
  lemma {:induction false} HexDigits(bs: seq<byte>, k: nat)
    requires k < |bs|
    ensures Hex(bs)[2 * k] == Ascii("0123456789abcdef")[bs[k] / 16]
    ensures Hex(bs)[2 * k + 1] == Ascii("0123456789abcdef")[bs[k] % 16]
  {
    if k > 0 {
      HexDigits(bs[1..], k - 1);
      assert Hex(bs) == [HexDigit(bs[0] / 16), HexDigit(bs[0] % 16)] + Hex(bs[1..]);
    } else {
      DigitOf(bs[0] / 16);
      DigitOf(bs[0] % 16);
    }
  }

  lemma DigitOf(d: nat)
    requires d < 16
    ensures HexDigit(d) == Ascii("0123456789abcdef")[d]
  {
  }

  /** What is not parsed as a value: no bytes are nothing, an array and a struct without fields are described by
      how many bytes they take, and bytes of an unknown type, or too few for their type, are shown in hexadecimal. */
  lemma Unparsed(data: seq<byte>, t: TypeInfo)
    ensures data == [] ==> ParseField(data, t) == Nil
    ensures data != [] && t.isArray ==>
              ParseField(data, t) == Str(Ascii("<array ") + PrintNat(|data|) + Ascii(" bytes>"))
    ensures data != [] && !t.isArray && t.isStruct && t.fields == [] ==>
              ParseField(data, t) == Str(Ascii("<struct ") + t.name + Ascii(", ") + PrintNat(|data|) + Ascii(" bytes>"))
    ensures data != [] && !t.isArray && !t.isStruct && ParseSimple(data, t.baseType) == None ==>
              ParseField(data, t) == Str(Ascii("0x") + Hex(data))
  {
    hide Ascii, PrintNat, Hex, ParseSimple;
  }
}
