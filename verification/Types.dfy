/** TwinCAT data types and the descriptions the client keeps of them. */
module Types {
  import opened Bytes

  type DataType = u32

  const INT8: DataType := 16
  const UINT8: DataType := 17
  const INT16: DataType := 2
  const UINT16: DataType := 18
  const INT32: DataType := 3
  const UINT32: DataType := 19
  const INT64: DataType := 20
  const UINT64: DataType := 21
  const REAL32: DataType := 4
  const REAL64: DataType := 5
  const BOOL: DataType := 33
  const STRING: DataType := 30
  const BIT: DataType := 1
  const BIG_TYPE: DataType := 65

  datatype TypeInfo = TypeInfo(
    name: GoString,
    baseType: DataType,
    size: u32,
    arrayDims: seq<u32>,
    isArray: bool,
    isStruct: bool,
    fields: seq<FieldInfo>)

  datatype FieldInfo = FieldInfo(name: GoString, offset: u32, typ: TypeInfo)

  /** The position of the first field with a name, as every field search of the client finds it. */
  function FieldIndex(fields: seq<FieldInfo>, name: GoString): (i: int)
    ensures -1 <= i < |fields|
    ensures i >= 0 ==> fields[i].name == name
    ensures i >= 0 ==> forall j :: 0 <= j < i ==> fields[j].name != name
    ensures i == -1 ==> forall j :: 0 <= j < |fields| ==> fields[j].name != name
  {
    if fields == [] then -1
    else if fields[0].name == name then 0
    else
      var i := FieldIndex(fields[1..], name);
      if i == -1 then -1 else i + 1
  }

  /** The search loop itself. */
  method FindField(fields: seq<FieldInfo>, name: GoString) returns (i: int)
    ensures i == FieldIndex(fields, name)
  {
    i := 0;
    while i < |fields|
      invariant 0 <= i <= |fields|
      invariant forall j :: 0 <= j < i ==> fields[j].name != name
    {
      if fields[i].name == name {
        return;
      }
      i := i + 1;
    }
    i := -1;
  }
}
