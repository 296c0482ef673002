/** Reading and writing symbols in the PLC's memory, and rewriting some fields of a struct there. */
module SymbolAccess {
  import opened Bytes
  import opened Text
  import opened Outcomes
  import opened Values
  import opened EncodingOrders
  import opened FieldUpdates
  import opened Addressing

  /** A write request: where, and what. */
  datatype Request = Request(group: u32, offset: u32, data: seq<byte>)

  type Memory = map<u32, seq<byte>>

  predicate Has(memory: Memory, l: Location) {
    l.group in memory && l.offset + l.size <= |memory[l.group]|
  }

  function ReadAt(memory: Memory, l: Location): (bs: seq<byte>)
    requires Has(memory, l)
    ensures |bs| == l.size
  {
    BytesAt(memory[l.group], l)
  }

  function Written(memory: Memory, l: Location, data: seq<byte>): Memory
    requires Has(memory, l)
  {
    memory[l.group := Overlay(memory[l.group], l.offset, data)]
  }

  /** A write is seen by reading the same window, and changes no other byte of the memory. */
  lemma WriteThenRead(memory: Memory, l: Location, data: seq<byte>)
    requires Has(memory, l) && |data| == l.size
    ensures var after := Written(memory, l, data);
            && Has(after, l) && ReadAt(after, l) == data
            && after.Keys == memory.Keys
            && forall g, p: nat | g in memory && p < |memory[g]| ::
                 && |after[g]| == |memory[g]|
                 && (g != l.group || p < l.offset || l.offset + l.size <= p ==> after[g][p] == memory[g][p])
  {
  }

  /** What becomes of a request on its way: answered, lost before the PLC sees it, or its answer lost. */
  datatype Fate = Answered | RequestLost | AnswerLost

  /** The PLC behind a connection: fate(i) is what becomes of the i-th request. */
  class Device {
    const fate: nat -> Fate
    var asked: nat
    var memory: Memory
    /** The write requests sent, in order. */
    var requests: seq<Request>

    constructor (initial: Memory, fate: nat -> Fate)
      ensures memory == initial && requests == [] && asked == 0 && this.fate == fate
    {
      this.fate := fate;
      memory, requests, asked := initial, [], 0;
    }

    method Read(l: Location) returns (r: Outcome<seq<byte>>)
      modifies this`asked
      ensures asked == old(asked) + 1
      ensures r == if Has(memory, l) && fate(old(asked)).Answered? then Ok(ReadAt(memory, l)) else Err
    {
      var f := fate(asked);
      asked := asked + 1;
      if l.group in memory && l.offset + l.size <= |memory[l.group]| && f.Answered? {
        return Ok(ReadAt(memory, l));
      }
      r := Err;
    }

    /** A write whose answer is lost is reported as failed but has reached the memory. */
    method Write(l: Location, data: seq<byte>) returns (r: Outcome<()>)
      requires |data| == l.size
      modifies this
      ensures asked == old(asked) + 1
      ensures requests == old(requests) + [Request(l.group, l.offset, data)]
      ensures memory == if Has(old(memory), l) && !fate(old(asked)).RequestLost? then Written(old(memory), l, data)
                        else old(memory)
      ensures r == if Has(old(memory), l) && fate(old(asked)).Answered? then Ok(()) else Err
    {
      var f := fate(asked);
      asked := asked + 1;
      requests := requests + [Request(l.group, l.offset, data)];
      if f.RequestLost? || !(l.group in memory && l.offset + l.size <= |memory[l.group]|) {
        return Err;
      }
      memory := Written(memory, l, data);
      r := if f.Answered? then Ok(()) else Err;
    }
  }

  /** Everything that is checked before the write is sent. */
  ghost predicate Ready(env: Env, symbols: SymbolIndex, name: GoString, values: map<GoString, Value>) {
    && name in symbols && symbols[name].typ.name != []
    && env.lookup(symbols[name].typ.name).Some?
    && env.lookup(symbols[name].typ.name).value.fields != []
    && Resolve(env, symbols, name).Ok?
    && AllWrite(env, values, env.lookup(symbols[name].typ.name).value.fields, Resolve(env, symbols, name).value.size)
  }

  /** The client's access to a loaded symbol table and a PLC. */
  class Client {
    const env: Env
    const device: Device
    const symbols: SymbolIndex

    constructor (env: Env, device: Device, symbols: SymbolIndex)
      ensures this.env == env && this.device == device && this.symbols == symbols
    {
      this.env, this.device, this.symbols := env, device, symbols;
    }

    method ReadSymbol(path: GoString) returns (r: Outcome<seq<byte>>)
      modifies device`asked
      ensures match Resolve(env, symbols, path)
              case Err => r == Err && device.asked == old(device.asked)
              case Panic => r == Panic && device.asked == old(device.asked)
              case Ok(l) =>
                && device.asked == old(device.asked) + 1
                && r == if Has(device.memory, l) && device.fate(old(device.asked)).Answered?
                        then Ok(ReadAt(device.memory, l)) else Err
      ensures LBRACKET !in path && path !in symbols ==> r == Err && device.asked == old(device.asked)
      ensures LBRACKET !in path && path in symbols ==>
                var s := symbols[path];
                && device.asked == old(device.asked) + 1
                && r == if s.indexGroup in device.memory
                           && s.indexOffset + s.size <= |device.memory[s.indexGroup]|
                           && device.fate(old(device.asked)).Answered?
                        then Ok(device.memory[s.indexGroup][s.indexOffset..s.indexOffset + s.size]) else Err
    {
      if LBRACKET !in path { PlainLocation(env, symbols, path); }
      hide Resolve;
      var l := Resolve(env, symbols, path);
      if !l.Ok? {
        return if l.Err? then Err else Panic;
      }
      r := device.Read(l.value);
    }

    /** WriteSymbol: data of any other size than the symbol's is refused. */
    method WriteSymbol(path: GoString, data: seq<byte>) returns (r: Outcome<()>)
      requires |data| < U32_MODULUS
      modifies device
      ensures var l := Resolve(env, symbols, path);
              if l.Ok? && |data| == l.value.size then
                && device.asked == old(device.asked) + 1
                && device.requests == old(device.requests) + [Request(l.value.group, l.value.offset, data)]
                && device.memory == (if Has(old(device.memory), l.value) && !device.fate(old(device.asked)).RequestLost?
                                     then Written(old(device.memory), l.value, data) else old(device.memory))
                && r == if Has(old(device.memory), l.value) && device.fate(old(device.asked)).Answered?
                        then Ok(()) else Err
              else
                && r == (if l.Panic? then Panic else Err)
                && device.requests == old(device.requests) && device.memory == old(device.memory)
      ensures LBRACKET !in path && path in symbols && |data| == symbols[path].size && r.Ok? ==>
                var s := symbols[path];
                && device.requests == old(device.requests) + [Request(s.indexGroup, s.indexOffset, data)]
                && device.memory.Keys == old(device.memory.Keys) && s.indexGroup in device.memory
                && s.indexOffset + s.size <= |device.memory[s.indexGroup]|
                && device.memory[s.indexGroup][s.indexOffset..s.indexOffset + s.size] == data
                && forall g, p: nat | g in device.memory && p < |device.memory[g]| ::
                     && |old(device.memory)[g]| == |device.memory[g]|
                     && (g != s.indexGroup || p < s.indexOffset || s.indexOffset + s.size <= p ==>
                           device.memory[g][p] == old(device.memory)[g][p])
    {
      if LBRACKET !in path { PlainLocation(env, symbols, path); }
      hide Resolve, Written;
      if Resolve(env, symbols, path).Ok? && |data| == Resolve(env, symbols, path).value.size {
        var l := Resolve(env, symbols, path).value;
        if Has(device.memory, l) { WriteThenRead(device.memory, l, data); }
      }
      var l := Resolve(env, symbols, path);
      if !l.Ok? {
        return if l.Err? then Err else Panic;
      }
      if Wrap32(|data|) != l.value.size {
        return Err;
      }
      r := device.Write(l.value, data);
    }

    /** The write of WriteStructFields is sent: every check passes and the struct can be read. */
    ghost predicate Sends(name: GoString, values: map<GoString, Value>)
      reads device
    {
      && Ready(env, symbols, name, values)
      && Has(device.memory, Resolve(env, symbols, name).value)
      && device.fate(device.asked).Answered?
    }

    /** WriteStructFields: read the struct, update the named fields in some order of the map, write the
        struct back. */
    method WriteStructFields(name: GoString, values: map<GoString, Value>) returns (r: Outcome<()>, ghost o: Order)
      modifies device
      ensures !old(Sends(name, values)) ==>
                !r.Ok? && device.requests == old(device.requests) && device.memory == old(device.memory)
      ensures name !in symbols || symbols[name].typ.name == [] ==> r == Err && device.asked == old(device.asked)
      ensures name in symbols && symbols[name].typ.name != [] ==>
                var info := env.lookup(symbols[name].typ.name);
                && (info.None? || info.value.fields == [] ==> r == Err && device.asked == old(device.asked))
                && (info.Some? && info.value.fields != [] ==>
                      match Resolve(env, symbols, name)
                      case Err => r == Err
                      case Panic => r == Panic
                      case Ok(l) =>
                        if !Has(old(device.memory), l) || !device.fate(old(device.asked)).Answered? then r == Err
                        else
                          && IsOrderOf(Struct(values), o)
                          && match UpdateInOrder(env, values, info.value.fields, ReadAt(old(device.memory), l), o)
                             case Err => r == Err
                             case Panic => r == Panic
                             case Ok(_) => r != Panic)
      ensures old(Sends(name, values)) ==>
                var l := Resolve(env, symbols, name).value;
                var fields := env.lookup(symbols[name].typ.name).value.fields;
                && |device.requests| == |old(device.requests)| + 1
                && var data := device.requests[|old(device.requests)|].data;
                && device.requests == old(device.requests) + [Request(l.group, l.offset, data)]
                && IsOrderOf(Struct(values), o)
                && UpdateInOrder(env, values, fields, ReadAt(old(device.memory), l), o) == Ok(data)
                && (UpdateOrderFree(env, values, fields, l.size) ==>
                      data == Updated(env, values, fields, ReadAt(old(device.memory), l)))
                && device.memory == (if device.fate(old(device.asked) + 1).RequestLost? then old(device.memory)
                                     else Written(old(device.memory), l, data))
                && r == if device.fate(old(device.asked) + 1).Answered? then Ok(()) else Err
    {
      hide Resolve, AllWrite, UpdateOrderFree, Updated, UpdateInOrder, IsOrderOf, Written, BytesAt, Encoded;
      o := AnyOrder(Struct(values));
      if name !in symbols || symbols[name].typ.name == [] {
        return Err, o;
      }
      var info := env.lookup(symbols[name].typ.name);
      if info.None? || info.value.fields == [] {
        return Err, o;
      }
      var read := ReadSymbol(name);
      if !read.Ok? {
        return if read.Err? then Err else Panic, o;
      }
      var structData := new byte[|read.value|](i requires 0 <= i < |read.value| => read.value[i]);
      assert structData[..] == read.value;
      var updated;
      updated, o := UpdateFields(env, info.value.fields, values, structData);
      if !updated.Ok? {
        return updated, o;
      }
      r := WriteSymbol(name, structData[..]);
    }
  }
}
