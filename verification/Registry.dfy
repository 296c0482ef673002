/** The type registry as a cache in front of the fetch: what it holds, and when that is what the PLC says. */
module Registry {
  import opened Bytes
  import opened Outcomes
  import opened Types
  import opened Discovery
  import TypeUpload

  class TypeRegistry {
    var types: map<GoString, TypeInfo>

    constructor ()
      ensures types == map[]
    {
      types := map[];
    }

    method Register(typeName: GoString, typeInfo: TypeInfo)
      modifies this
      ensures types == old(types)[typeName := typeInfo]
    {
      types := types[typeName := typeInfo];
    }

    method Get(typeName: GoString) returns (r: Option<TypeInfo>)
      ensures r == if typeName in types then Some(types[typeName]) else None
    {
      r := if typeName in types then Some(types[typeName]) else None;
    }
  }

  /** The registry holds only the types the names stand for. */
  ghost predicate CacheOk(types: map<GoString, TypeInfo>, plc: Plc, rank: Rank)
    requires Ranked(plc, rank)
  {
    forall name :: name in types ==> Fetch(plc, rank, name) == Ok(types[name])
  }

  /** The fetch whose requests are numbered from at on lost no nested request that mattered. */
  ghost predicate Faithful(plc: Plc, rank: Rank, answered: nat -> bool, at: nat, name: GoString)
    requires Ranked(plc, rank)
  {
    Undisturbed(plc, answered, at + 1, Fetched(plc, rank, answered, at, name).1)
  }

  /** getOrFetchTypeInfo: the cached description, whatever it is, or a fetch whose success is cached,
      whatever its nested requests met. */
  method GetOrFetchTypeInfo(registry: TypeRegistry, link: Link, ghost rank: Rank, typeName: GoString)
    returns (r: Outcome<TypeInfo>)
    requires Ranked(link.plc, rank)
    modifies registry, link`asked
    ensures typeName in old(registry.types) ==>
              && r == Ok(old(registry.types)[typeName]) && registry.types == old(registry.types)
              && link.asked == old(link.asked)
    ensures typeName !in old(registry.types) ==>
              var (result, asks) := Fetched(link.plc, rank, link.answered, old(link.asked), typeName);
              && r == result && link.asked == old(link.asked) + 1 + |asks|
              && registry.types == if r.Ok? then old(registry.types)[typeName := r.value] else old(registry.types)
    ensures old(CacheOk(registry.types, link.plc, rank)) ==>
              (CacheOk(registry.types, link.plc, rank) <==>
                 typeName in old(registry.types) || !r.Ok?
                   || Faithful(link.plc, rank, link.answered, old(link.asked), typeName))
    ensures CacheOk(registry.types, link.plc, rank) && r.Ok? ==> r == Fetch(link.plc, rank, typeName)
  {
    hide Fetched, Fetch, Undisturbed;
    var cached := registry.Get(typeName);
    if cached.Some? {
      return Ok(cached.value);
    }
    FetchedExactly(link.plc, rank, link.answered, link.asked, typeName);
    r := FetchTypeInfoFromPLC(link, rank, typeName);
    if !r.Ok? {
      return;
    }
    registry.Register(typeName, r.value);
  }

  // ---------- any number of callers ----------

  /** One atomic access of some caller: the read, or the write that ends a fetch of its own. answered and
      at say what became of the requests of that fetch. */
  datatype Access = Lookup(name: GoString) | Store(name: GoString, answered: nat -> bool, at: nat)

  ghost function Result(plc: Plc, rank: Rank, a: Access): Outcome<TypeInfo>
    requires Ranked(plc, rank) && a.Store?
  {
    Fetched(plc, rank, a.answered, a.at, a.name).0
  }

  ghost function After(types: map<GoString, TypeInfo>, plc: Plc, rank: Rank, accesses: seq<Access>)
    : map<GoString, TypeInfo>
    requires Ranked(plc, rank)
    decreases |accesses|
  {
    if accesses == [] then types
    else
      var n := |accesses| - 1;
      var before := After(types, plc, rank, accesses[..n]);
      if accesses[n].Store? && Result(plc, rank, accesses[n]).Ok?
      then before[accesses[n].name := Result(plc, rank, accesses[n]).value]
      else before
  }

  ghost predicate Stores(plc: Plc, rank: Rank, a: Access, name: GoString)
    requires Ranked(plc, rank)
  {
    a.Store? && a.name == name && Result(plc, rank, a).Ok?
  }

  /** The last successful store under a name. */
  ghost predicate LastStore(plc: Plc, rank: Rank, accesses: seq<Access>, k: int, name: GoString)
    requires Ranked(plc, rank)
  {
    && 0 <= k < |accesses| && Stores(plc, rank, accesses[k], name)
    && forall j :: k < j < |accesses| ==> !Stores(plc, rank, accesses[j], name)
  }

  /** The registry holds what the last successful store under a name wrote. */
  lemma {:induction false} HeldType(plc: Plc, rank: Rank, accesses: seq<Access>, name: GoString)
    requires Ranked(plc, rank)
    ensures var types := After(map[], plc, rank, accesses);
            && (name in types <==> exists k :: LastStore(plc, rank, accesses, k, name))
            && (forall k :: LastStore(plc, rank, accesses, k, name) ==>
                  name in types && Result(plc, rank, accesses[k]) == Ok(types[name]))
    decreases |accesses|
  {
    hide Result;
    if accesses == [] {
    } else {
      var n := |accesses| - 1;
      HeldType(plc, rank, accesses[..n], name);
      if Stores(plc, rank, accesses[n], name) {
        assert LastStore(plc, rank, accesses, n, name);
        assert forall k :: LastStore(plc, rank, accesses, k, name) ==> k == n;
      } else {
        forall k
          ensures LastStore(plc, rank, accesses[..n], k, name) <==> LastStore(plc, rank, accesses, k, name)
        {
          LastStoreInit(plc, rank, accesses, k, name);
        }
        hide LastStore;
      }
    }
  }

  lemma LastStoreInit(plc: Plc, rank: Rank, accesses: seq<Access>, k: int, name: GoString)
    requires Ranked(plc, rank) && accesses != [] && !Stores(plc, rank, accesses[|accesses| - 1], name)
    ensures LastStore(plc, rank, accesses[..|accesses| - 1], k, name) <==> LastStore(plc, rank, accesses, k, name)
  {
    hide Stores;
    var n := |accesses| - 1;
    assert forall j :: 0 <= j < n ==> accesses[..n][j] == accesses[j];
  }

  /** However callers' reads and writes interleave, the registry holds only the types its names stand for
      exactly when, for every name, the fetch behind its last store lost no nested request that mattered. */
  lemma CacheHoldsExactly(plc: Plc, rank: Rank, accesses: seq<Access>)
    requires Ranked(plc, rank)
    ensures CacheOk(After(map[], plc, rank, accesses), plc, rank) <==>
              forall name, k | LastStore(plc, rank, accesses, k, name) ::
                Faithful(plc, rank, accesses[k].answered, accesses[k].at, name)
  {
    hide Fetched, Fetch, Undisturbed, After;
    var types := After(map[], plc, rank, accesses);
    forall name, k | LastStore(plc, rank, accesses, k, name)
      ensures name in types
      ensures Fetch(plc, rank, name) == Ok(types[name]) <==>
                Faithful(plc, rank, accesses[k].answered, accesses[k].at, name)
    {
      HeldType(plc, rank, accesses, name);
      FetchedExactly(plc, rank, accesses[k].answered, accesses[k].at, name);
      StoreAnswered(plc, rank, accesses[k]);
    }
    forall name
      ensures name in types <==> exists k :: LastStore(plc, rank, accesses, k, name)
    {
      HeldType(plc, rank, accesses, name);
    }
    hide Faithful, LastStore;
  }

  lemma StoreAnswered(plc: Plc, rank: Rank, a: Access)
    requires Ranked(plc, rank) && a.Store? && Result(plc, rank, a).Ok?
    ensures a.answered(a.at)
  {
  }

  /** When no fetch loses a nested request that matters, every lookup that hits returns what its name
      stands for, and a name is held exactly if some fetch of it was answered and succeeded. */
  lemma CacheTransparent(plc: Plc, rank: Rank, accesses: seq<Access>, name: GoString)
    requires Ranked(plc, rank)
    requires forall a | a in accesses && a.Store? :: Faithful(plc, rank, a.answered, a.at, a.name)
    ensures var types := After(map[], plc, rank, accesses);
            && CacheOk(types, plc, rank)
            && (name in types ==> Fetch(plc, rank, name) == Ok(types[name]))
            && (name in types <==>
                  && Fetch(plc, rank, name).Ok?
                  && exists a :: a in accesses && a.Store? && a.name == name && a.answered(a.at))
  {
    hide Fetched, Fetch, Undisturbed, After;
    CacheHoldsExactly(plc, rank, accesses);
    HeldType(plc, rank, accesses, name);
    forall a | a in accesses && a.Store? && a.name == name
      ensures Stores(plc, rank, a, name) <==> Fetch(plc, rank, name).Ok? && a.answered(a.at)
    {
      FetchedExactly(plc, rank, a.answered, a.at, name);
    }
    if exists a :: a in accesses && Stores(plc, rank, a, name) {
      var k := SomeLastStore(plc, rank, accesses, name);
    }
  }

  lemma {:induction false} SomeLastStore(plc: Plc, rank: Rank, accesses: seq<Access>, name: GoString) returns (k: int)
    requires Ranked(plc, rank) && exists a :: a in accesses && Stores(plc, rank, a, name)
    ensures LastStore(plc, rank, accesses, k, name)
    decreases |accesses|
  {
    hide Stores;
    var n := |accesses| - 1;
    if Stores(plc, rank, accesses[n], name) {
      k := n;
    } else {
      var a :| a in accesses && Stores(plc, rank, a, name);
      assert accesses == accesses[..n] + [accesses[n]];
      assert a in accesses[..n];
      k := SomeLastStore(plc, rank, accesses[..n], name);
      LastStoreInit(plc, rank, accesses, k, name);
    }
  }

  // ---------- a lost nested request ----------

  lemma StuntedStore(plc: Plc, rank: Rank, answered: nat -> bool, at: nat, name: GoString)
    requires Ranked(plc, rank) && Fetched(plc, rank, answered, at, name).0.Ok?
    requires Fetched(plc, rank, answered, at, name).0 != Fetch(plc, rank, name)
    ensures var types := After(map[], plc, rank, [Store(name, answered, at)]);
            name in types && Fetch(plc, rank, name) != Ok(types[name]) && !CacheOk(types, plc, rank)
  {
    hide Fetched, Fetch, After;
    var a := Store(name, answered, at);
    HeldType(plc, rank, [a], name);
    assert LastStore(plc, rank, [a], 0, name);
  }

  const NO_MISC: TypeUpload.Misc := [0, 0, 0, 0, 0, 0, 0, 0, 0, 0, 0, 0]

  function OneField(typeName: GoString, dataType: DataType): TypeUpload.TypeEntry {
    TypeUpload.TypeEntry(
      [], [], 2, BIG_TYPE, NO_MISC, 0,
      [TypeUpload.SubEntry([120], typeName, [], 2, 0, dataType, NO_MISC, 0, 0, [])], [])
  }

  /** A type P with one field of type C, which has one INT field. */
  function TwoTypes(): TypeUpload.Table {
    map[[80] := OneField([67], BIG_TYPE), [67] := OneField([73, 78, 84], INT16)]
  }

  lemma TwoTypesOk(rank: Rank)
    requires rank([80]) == 1 && rank([67]) == 0
    ensures TypeUpload.TableWellFormed(TwoTypes()) && TypeUpload.Acyclic(TwoTypes(), rank)
  {
  }

  /** P's entry names C, and C has a field. */
  lemma TwoTypesParsed(rank: Rank)
    requires rank([80]) == 1 && rank([67]) == 0
    requires TypeUpload.TableWellFormed(TwoTypes()) && TypeUpload.Acyclic(TwoTypes(), rank)
    ensures var plc := TypeUpload.Encoded(TwoTypes());
            && Ranked(plc, rank) && [80] in plc && ParseResponse(plc[[80]]).Ok?
            && var items := ParseResponse(plc[[80]]).value.items;
            && items != [] && IsNested(items[0].dataType) && items[0].typeName == [67]
            && Fetch(plc, rank, [67]).Ok? && Fetch(plc, rank, [67]).value.fields != []
            && Fetch(plc, rank, [80]).Ok?
  {
    var t := TwoTypes();
    hide TypeUpload.PrintEntry, ParseResponse, Fetch, TypeUpload.WellFormed, TypeUpload.Acyclic,
         TypeUpload.ExpandFields;
    TypeUpload.EncodedRanked(t, rank);
    TypeUpload.ParsePrinted([80], t[[80]]);
    TypeUpload.FetchExpands(t, rank, [67]);
    TypeUpload.FetchExpands(t, rank, [80]);
  }

  /** The request for P is answered, the one for C is lost: P is cached without C's fields, for good. */
  lemma StuntedTypeIsCached(rank: Rank, answered: nat -> bool, at: nat)
    requires rank([80]) == 1 && rank([67]) == 0 && answered(at) && !answered(at + 1)
    ensures TypeUpload.TableWellFormed(TwoTypes()) && TypeUpload.Acyclic(TwoTypes(), rank)
    ensures var plc := TypeUpload.Encoded(TwoTypes());
            && Ranked(plc, rank)
            && var types := After(map[], plc, rank, [Store([80], answered, at)]);
            && [80] in types && Fetch(plc, rank, [80]).Ok? && Fetch(plc, rank, [80]) != Ok(types[[80]])
            && !CacheOk(types, plc, rank)
  {
    TwoTypesOk(rank);
    hide TwoTypes, TypeUpload.Encoded, TypeUpload.TableWellFormed, TypeUpload.Acyclic, Fetched, Fetch, ParseResponse,
         Ranked;
    var plc := TypeUpload.Encoded(TwoTypes());
    TwoTypesParsed(rank);
    StuntedParent(plc, rank, answered, at, [80]);
    hide CacheOk, After;
    StuntedStore(plc, rank, answered, at, [80]);
  }

  /** A fetched type's nested fields carry exactly what asking for their types would return, so a
      registry of fetched types agrees with the types embedded in them. */
  lemma FetchedFieldsAgree(plc: Plc, rank: Rank, name: GoString, i: nat)
    requires Ranked(plc, rank) && Fetch(plc, rank, name).Ok?
    requires i < |Fetch(plc, rank, name).value.fields|
    ensures var items := ParseResponse(plc[name]).value.items;
            var f := Fetch(plc, rank, name).value.fields[i];
            && i < |items|
            && f.name == items[i].name && f.offset == items[i].offset
            && f.typ.name == items[i].typeName
            && (IsNested(items[i].dataType) && Fetch(plc, rank, items[i].typeName).Ok? ==>
                  Fetch(plc, rank, f.typ.name) == Ok(f.typ))
  {
    FieldsAgree(plc, rank, ParseResponse(plc[name]).value.items, rank(name), i);
  }

  lemma {:induction false} FieldsAgree(plc: Plc, rank: Rank, items: seq<Item>, bound: nat, i: nat)
    requires Ranked(plc, rank) && ItemsRanked(plc, rank, items, bound) && i < |items|
    ensures ItemsRanked(plc, rank, [items[i]], bound)
    ensures FetchFields(plc, rank, items, bound)[i] == FetchField(plc, rank, items[i], bound)
  {
    hide FetchField;
    if i == 0 {
    } else {
      assert forall j :: 0 <= j < |items| - 1 ==> items[1..][j] == items[j + 1];
      FieldsAgree(plc, rank, items[1..], bound, i - 1);
    }
  }
}
