/** The cached symbol table: an index by name over the parsed upload. */
module SymbolTable {
  import opened Bytes
  import opened Outcomes
  import opened Text
  import opened SymbolParser

  /** Later symbols replace earlier ones of the same name. */
  function Indexed(symbols: seq<Symbol>): (m: map<GoString, Symbol>)
    ensures forall k :: k in m ==> m[k].name == k
    decreases |symbols|
  {
    if symbols == [] then map[]
    else
      var last := symbols[|symbols| - 1];
      Indexed(symbols[..|symbols| - 1])[last.name := last]
  }

  /** The last symbol with its name. */
  predicate LastNamed(symbols: seq<Symbol>, i: int) {
    0 <= i < |symbols| && forall j :: i < j < |symbols| ==> symbols[j].name != symbols[i].name
  }

  lemma LastNamedInit(symbols: seq<Symbol>, name: GoString, i: int)
    requires symbols != [] && symbols[|symbols| - 1].name != name
    ensures var init := symbols[..|symbols| - 1];
            LastNamed(init, i) && init[i].name == name <==> LastNamed(symbols, i) && symbols[i].name == name
  {
    var n := |symbols| - 1;
    var init := symbols[..n];
    if LastNamed(init, i) && init[i].name == name {
      assert forall j :: i < j < n ==> symbols[j].name == init[j].name;
    }
    if LastNamed(symbols, i) && symbols[i].name == name {
      assert forall j :: i < j < n ==> init[j].name == symbols[j].name;
    }
  }

  lemma {:induction false} IndexedIsLast(symbols: seq<Symbol>, name: GoString)
    ensures name in Indexed(symbols) <==> exists i :: LastNamed(symbols, i) && symbols[i].name == name
    ensures forall i :: LastNamed(symbols, i) && symbols[i].name == name ==>
              name in Indexed(symbols) && Indexed(symbols)[name] == symbols[i]
    decreases |symbols|
  {
    if symbols == [] {
    } else {
      var n := |symbols| - 1;
      if symbols[n].name == name {
        assert LastNamed(symbols, n);
        assert forall i :: LastNamed(symbols, i) && symbols[i].name == name ==> i == n;
      } else {
        IndexedIsLast(symbols[..n], name);
        forall i
          ensures LastNamed(symbols[..n], i) && symbols[..n][i].name == name
                  <==> LastNamed(symbols, i) && symbols[i].name == name
        {
          LastNamedInit(symbols, name, i);
        }
        hide LastNamed;
      }
    }
  }

  predicate Matches(name: GoString, pattern: GoString, lower: GoString -> GoString) {
    Index(lower(name), lower(pattern)) != -1
  }

  /** A name matches when the lower-cased pattern stands somewhere in the lower-cased name. */
  lemma MatchesExactly(name: GoString, pattern: GoString, lower: GoString -> GoString)
    ensures Matches(name, pattern, lower) <==> exists pre, post :: lower(name) == pre + lower(pattern) + post
  {
    var s, sub := lower(name), lower(pattern);
    hide Index;
    if exists pre, post :: s == pre + sub + post {
      var pre, post :| s == pre + sub + post;
      IndexOfPart(pre, sub, post);
    }
    if Index(s, sub) != -1 {
      PartAtIndex(s, sub);
      hide OccursAt;
      var i := Index(s, sub);
      var pre, post := s[..i], s[i + |sub|..];
      assert s == pre + sub + post;
    }
  }

  lemma IndexOfPart(pre: GoString, sub: GoString, post: GoString)
    ensures Index(pre + sub + post, sub) != -1
  {
    var s := pre + sub + post;
    assert s[|pre|..|pre| + |sub|] == sub;
    assert OccursAt(s, sub, |pre|);
    hide OccursAt;
  }

  lemma PartAtIndex(s: GoString, sub: GoString)
    requires Index(s, sub) != -1
    ensures var i := Index(s, sub); 0 <= i <= i + |sub| <= |s| && s == s[..i] + sub + s[i + |sub|..]
  {
    var i := Index(s, sub);
    assert OccursAt(s, sub, i);
    hide Index;
  }

  /** A listing of a map's values, each once, in some order. */
  ghost predicate Lists(r: seq<Symbol>, m: map<GoString, Symbol>, keys: set<GoString>)
    requires keys <= m.Keys
  {
    && |r| == |keys|
    && (forall i :: 0 <= i < |r| ==> r[i].name in keys && r[i] == m[r[i].name])
    && (forall i, j :: 0 <= i < j < |r| ==> r[i].name != r[j].name)
  }

  lemma ListsAdd(r: seq<Symbol>, m: map<GoString, Symbol>, keys: set<GoString>, k: GoString)
    requires keys <= m.Keys && Lists(r, m, keys)
    requires k in m && k !in keys && m[k].name == k
    ensures Lists(r + [m[k]], m, keys + {k})
  {
  }

  function MatchingKeys(keys: set<GoString>, pattern: GoString, lower: GoString -> GoString): set<GoString> {
    set k | k in keys && Matches(k, pattern, lower)
  }

  /** With distinct names, as many items as keys cover every key. */
  lemma ListsAll(r: seq<Symbol>, m: map<GoString, Symbol>, keys: set<GoString>, k: GoString)
    requires keys <= m.Keys && Lists(r, m, keys) && k in keys
    ensures m[k] in r
  {
    var names := set i | 0 <= i < |r| :: r[i].name;
    DistinctNames(r);
    assert names <= keys;
    SubsetOfSameSize(names, keys);
    var i :| 0 <= i < |r| && r[i].name == k;
  }

  lemma {:induction false} DistinctNames(r: seq<Symbol>)
    requires forall i, j :: 0 <= i < j < |r| ==> r[i].name != r[j].name
    ensures |set i | 0 <= i < |r| :: r[i].name| == |r|
    decreases |r|
  {
    var names := set i | 0 <= i < |r| :: r[i].name;
    if r == [] {
    } else {
      var n := |r| - 1;
      var init := r[..n];
      DistinctNames(init);
      var rest := set i | 0 <= i < |init| :: init[i].name;
      assert forall i :: 0 <= i < n ==> init[i].name == r[i].name;
      assert names == rest + {r[n].name};
    }
  }

  lemma SubsetOfSameSize<T>(a: set<T>, b: set<T>)
    requires a <= b && |a| == |b|
    ensures a == b
  {
    assert |b - a| == 0;
  }

  class Table {
    var symbols: map<GoString, Symbol>
    var loaded: bool

    ghost predicate Valid()
      reads this
    {
      forall k :: k in symbols ==> symbols[k].name == k
    }

    constructor ()
      ensures Valid() && !loaded && symbols == map[]
    {
      symbols, loaded := map[], false;
    }

    /** Replaces the index by that of the parsed upload; a failing Load changes nothing. */
    method Load(data: seq<byte>) returns (r: Outcome<()>)
      modifies this
      ensures match ParseTable(data)
              case Ok(parsed) => r == Ok(()) && loaded && symbols == Indexed(parsed)
              case Err => r == Err && loaded == old(loaded) && symbols == old(symbols)
              case Panic => r == Panic && loaded == old(loaded) && symbols == old(symbols)
      ensures old(Valid()) ==> Valid()
    {
      var parsed := ParseSymbolTable(data);
      match parsed {
        case Err => return Err;
        case Panic => return Panic;
        case Ok(list) =>
          symbols := map[];
          var i := 0;
          while i < |list|
            invariant i <= |list|
            invariant symbols == Indexed(list[..i])
          {
            assert list[..i + 1][..i] == list[..i];
            symbols := symbols[list[i].name := list[i]];
            i := i + 1;
          }
          assert list[..i] == list;
          loaded := true;
          r := Ok(());
      }
    }

    method Get(name: GoString) returns (r: Outcome<Symbol>)
      ensures r == if loaded && name in symbols then Ok(symbols[name]) else Err
    {
      if !loaded {
        return Err;
      }
      if name !in symbols {
        return Err;
      }
      r := Ok(symbols[name]);
    }

    method List() returns (r: Outcome<seq<Symbol>>)
      requires Valid()
      ensures if loaded then r.Ok? else r == Err
      ensures r.Ok? ==> Lists(r.value, symbols, symbols.Keys)
      ensures r.Ok? ==> forall k :: k in symbols ==> symbols[k] in r.value
    {
      if !loaded {
        return Err;
      }
      var all: seq<Symbol> := [];
      var remaining := symbols.Keys;
      assert symbols.Keys - remaining == {} && Lists(all, symbols, {});
      hide Lists;
      while remaining != {}
        invariant remaining <= symbols.Keys
        invariant Lists(all, symbols, symbols.Keys - remaining)
        decreases remaining
      {
        var k :| k in remaining;
        assert symbols.Keys - (remaining - {k}) == (symbols.Keys - remaining) + {k};
        ListsAdd(all, symbols, symbols.Keys - remaining, k);
        all := all + [symbols[k]];
        remaining := remaining - {k};
      }
      assert symbols.Keys - remaining == symbols.Keys;
      forall k | k in symbols { ListsAll(all, symbols, symbols.Keys, k); }
      r := Ok(all);
    }

    /** Exactly the symbols whose lower-cased name contains the lower-cased pattern, each once. */
    method Find(pattern: GoString, lower: GoString -> GoString) returns (r: Outcome<seq<Symbol>>)
      requires Valid()
      ensures if loaded then r.Ok? else r == Err
      ensures r.Ok? ==> Lists(r.value, symbols, MatchingKeys(symbols.Keys, pattern, lower))
      ensures r.Ok? ==> forall k :: k in symbols && Matches(k, pattern, lower) ==> symbols[k] in r.value
    {
      if !loaded {
        return Err;
      }
      var lowered := lower(pattern);
      var matches: seq<Symbol> := [];
      var remaining := symbols.Keys;
      assert symbols.Keys - remaining == {} && Lists(matches, symbols, {});
      hide Lists, Index;
      while remaining != {}
        invariant remaining <= symbols.Keys
        invariant Lists(matches, symbols, MatchingKeys(symbols.Keys - remaining, pattern, lower))
        decreases remaining
      {
        var k :| k in remaining;
        ghost var before := MatchingKeys(symbols.Keys - remaining, pattern, lower);
        ghost var after := MatchingKeys(symbols.Keys - (remaining - {k}), pattern, lower);
        if Index(lower(k), lowered) != -1 {
          ListsAdd(matches, symbols, before, k);
          matches := matches + [symbols[k]];
          assert after == before + {k};
        } else {
          assert after == before;
        }
        remaining := remaining - {k};
      }
      assert symbols.Keys - remaining == symbols.Keys;
      ghost var keys := MatchingKeys(symbols.Keys, pattern, lower);
      forall k | k in keys { ListsAll(matches, symbols, keys, k); }
      r := Ok(matches);
    }
  }

  /** After loading a printed upload, the index holds for every name the last entry printed with it. */
  lemma LoadedPrinted(es: seq<Entry>, tail: seq<byte>, i: nat)
    requires (forall e :: e in es ==> WellFormed(e)) && EndsTable(tail)
    requires i < |es| && forall j :: i < j < |es| ==> es[j].name != es[i].name
    ensures var parsed := ParseTable(PrintEntries(es) + tail);
            && parsed.Ok?
            && es[i].name in Indexed(parsed.value)
            && Indexed(parsed.value)[es[i].name] == SymbolOf(es[i])
  {
    hide ParseTable, PrintEntries, WellFormed;
    TableRoundTrip(es, tail);
    var symbols := SymbolsOf(es);
    assert LastNamed(symbols, i);
    IndexedIsLast(symbols, es[i].name);
  }
}
