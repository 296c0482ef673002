/** Symbol paths: base[i1]...[in] with an optional rest, and element types of array type names. */
module SymbolPath {
  import opened Bytes
  import opened Outcomes
  import opened Text

  // ---------- parseArrayAccess ----------

  function Prepend(indices: seq<int>, parsed: Option<(seq<int>, GoString)>): Option<(seq<int>, GoString)> {
    match parsed
    case None => None
    case Some((more, rest)) => Some((indices + more, rest))
  }

  /** The bracketed indices at the front of a string and what follows them. */
  function ParseIndices(s: GoString): Option<(seq<int>, GoString)> {
    if s == [] || s[0] != LBRACKET then Some(([], s))
    else
      var close := IndexByte(s, RBRACKET);
      if close == -1 then None
      else
        assert s[close] == RBRACKET;
        match ScanInt(s[1..close])
        case None => None
        case Some(i) => Prepend([i], ParseIndices(s[close + 1..]))
  }

  /** The base name, with what follows the indices appended, and the indices. */
  function ParseArrayAccess(s: GoString): Outcome<(GoString, seq<int>)> {
    var open := IndexByte(s, LBRACKET);
    if open == -1 then Ok((s, []))
    else
      match ParseIndices(s[open..])
      case None => Err
      case Some((indices, remainder)) => Ok((s[..open] + remainder, indices))
  }

  /** One round of the loop moves an index from the front of the remainder to the list. */
  lemma OneMoreIndex(indices: seq<int>, s: GoString)
    requires s != [] && s[0] == LBRACKET
    ensures var close := IndexByte(s, RBRACKET);
            if close == -1 then Prepend(indices, ParseIndices(s)).None?
            else
              && close >= 1
              && match ScanInt(s[1..close])
                 case None => Prepend(indices, ParseIndices(s)).None?
                 case Some(i) =>
                   Prepend(indices, ParseIndices(s)) == Prepend(indices + [i], ParseIndices(s[close + 1..]))
  {
    hide IndexByte, ScanInt;
    var close := IndexByte(s, RBRACKET);
    if close != -1 {
      assert s[close] == RBRACKET;
      var i := ScanInt(s[1..close]);
      if i.Some? {
        PrependTwice(indices, i.value, ParseIndices(s[close + 1..]));
      }
    }
  }

  lemma PrependTwice(indices: seq<int>, i: int, parsed: Option<(seq<int>, GoString)>)
    ensures Prepend(indices, Prepend([i], parsed)) == Prepend(indices + [i], parsed)
  {
    if parsed.Some? {
      assert indices + ([i] + parsed.value.0) == indices + [i] + parsed.value.0;
    }
  }

  method ScanArrayAccess(symbolName: GoString) returns (r: Outcome<(GoString, seq<int>)>)
    ensures r == ParseArrayAccess(symbolName)
  {
    hide IndexByte, ScanInt, ParseIndices, Prepend;
    var firstBracket := IndexByte(symbolName, LBRACKET);
    if firstBracket == -1 {
      return Ok((symbolName, []));
    }
    var baseName := symbolName[..firstBracket];
    var indices: seq<int> := [];
    var remainder := symbolName[firstBracket..];
    ghost var whole := ParseIndices(remainder);
    PrependNothing(whole);
    while |remainder| > 0 && remainder[0] == LBRACKET
      invariant Prepend(indices, ParseIndices(remainder)) == whole
      decreases |remainder|
    {
      OneMoreIndex(indices, remainder);
      var closeBracket := IndexByte(remainder, RBRACKET);
      if closeBracket == -1 {
        return Err;
      }
      var idx := ScanInt(remainder[1..closeBracket]);
      if idx.None? {
        return Err;
      }
      indices := indices + [idx.value];
      remainder := remainder[closeBracket + 1..];
    }
    NoIndices(remainder);
    PrependToNothing(indices, remainder);
    assert baseName + [] == baseName;
    if |remainder| > 0 {
      baseName := baseName + remainder;
    }
    r := Ok((baseName, indices));
  }

  lemma PrependNothing(parsed: Option<(seq<int>, GoString)>)
    ensures Prepend([], parsed) == parsed
  {
    if parsed.Some? {
      assert [] + parsed.value.0 == parsed.value.0;
    }
  }

  lemma PrependToNothing(indices: seq<int>, rest: GoString)
    ensures Prepend(indices, Some(([], rest))) == Some((indices, rest))
  {
    assert indices + [] == indices;
  }

  lemma NoIndices(rest: GoString)
    requires rest == [] || rest[0] != LBRACKET
    ensures ParseIndices(rest) == Some(([], rest))
  {
  }

  /** [i1]...[in] */
  function PrintIndices(indices: seq<int>): GoString {
    if indices == [] then [] else PrintIndex(indices[0]) + PrintIndices(indices[1..])
  }

  /** [i] */
  function PrintIndex(i: int): (s: GoString)
    ensures |s| >= 2 && s[0] == LBRACKET
  {
    [LBRACKET] + PrintInt(i) + [RBRACKET]
  }

  lemma PrintIndicesStart(indices: seq<int>)
    requires indices != []
    ensures PrintIndices(indices) == PrintIndex(indices[0]) + PrintIndices(indices[1..])
    ensures if |indices| == 1 then PrintIndices(indices[1..]) == []
            else PrintIndices(indices[1..]) != [] && PrintIndices(indices[1..])[0] == LBRACKET
  {
  }

  lemma CloseOfPrintedIndex(i: int, after: GoString)
    ensures IndexByte(PrintIndex(i) + after, RBRACKET) == |PrintIndex(i)| - 1
    ensures (PrintIndex(i) + after)[1..|PrintIndex(i)| - 1] == PrintInt(i)
    ensures (PrintIndex(i) + after)[|PrintIndex(i)|..] == after
  {
    hide IndexByte, PrintInt;
    var digits := PrintInt(i);
    assert PrintIndex(i) + after == ([LBRACKET] + digits) + [RBRACKET] + after;
    IndexByteAfter([LBRACKET] + digits, RBRACKET, after);
  }

  lemma ParseOneIndex(i: int, after: GoString)
    requires IsInt(i)
    ensures ParseIndices(PrintIndex(i) + after) == Prepend([i], ParseIndices(after))
  {
    CloseOfPrintedIndex(i, after);
    ScanPrintedInt(i, []);
    hide IndexByte, PrintIndex, ScanInt, PrintInt;
    assert PrintInt(i) + [] == PrintInt(i);
    var s := PrintIndex(i) + after;
    assert s[|PrintIndex(i)| - 1 + 1..] == after;
  }

  lemma PrependOne(indices: seq<int>, rest: GoString)
    requires indices != []
    ensures Prepend([indices[0]], Some((indices[1..], rest))) == Some((indices, rest))
  {
    assert [indices[0]] + indices[1..] == indices;
  }

  lemma Joined(a: GoString, b: GoString, c: GoString)
    ensures a + b + c == a + (b + c)
  {
  }

  lemma {:induction false} ParsePrintedIndices(indices: seq<int>, rest: GoString)
    requires forall i :: i in indices ==> IsInt(i)
    requires rest == [] || rest[0] != LBRACKET
    ensures ParseIndices(PrintIndices(indices) + rest) == Some((indices, rest))
  {
    if indices == [] {
      assert PrintIndices(indices) + rest == rest;
      NoIndices(rest);
    } else {
      hide ParseIndices, PrintIndex, PrintIndices, Prepend, IsInt;
      PrintIndicesStart(indices);
      Joined(PrintIndex(indices[0]), PrintIndices(indices[1..]), rest);
      ParseOneIndex(indices[0], PrintIndices(indices[1..]) + rest);
      ParsePrintedIndices(indices[1..], rest);
      PrependOne(indices, rest);
    }
  }

  lemma OpenOfPrintedPath(base: GoString, tail: GoString)
    requires LBRACKET !in base && tail != [] && tail[0] == LBRACKET
    ensures IndexByte(base + tail, LBRACKET) == |base|
    ensures (base + tail)[..|base|] == base && (base + tail)[|base|..] == tail
  {
    hide IndexByte;
    assert base + tail == base + [LBRACKET] + tail[1..];
    IndexByteAfter(base, LBRACKET, tail[1..]);
  }

  /** Parsing base[i1]...[in]rest gives base joined with rest, and the indices. */
  lemma ParsePrintedPath(base: GoString, indices: seq<int>, rest: GoString)
    requires LBRACKET !in base && indices != [] && (forall i :: i in indices ==> IsInt(i))
    requires rest == [] || rest[0] != LBRACKET
    ensures ParseArrayAccess(base + PrintIndices(indices) + rest) == Ok((base + rest, indices))
  {
    hide IndexByte, ParseIndices, PrintIndex;
    var tail := PrintIndices(indices) + rest;
    assert base + PrintIndices(indices) + rest == base + tail;
    OpenOfPrintedPath(base, tail);
    ParsePrintedIndices(indices, rest);
  }

  // ---------- paths that are refused ----------

  lemma PrependJoin(a: seq<int>, b: seq<int>, parsed: Option<(seq<int>, GoString)>)
    ensures Prepend(a, Prepend(b, parsed)) == Prepend(a + b, parsed)
  {
    if parsed.Some? {
      assert a + (b + parsed.value.0) == a + b + parsed.value.0;
    }
  }

  lemma {:induction false} ParseIndicesThen(indices: seq<int>, tail: GoString)
    requires forall i :: i in indices ==> IsInt(i)
    ensures ParseIndices(PrintIndices(indices) + tail) == Prepend(indices, ParseIndices(tail))
  {
    if indices == [] {
      assert PrintIndices(indices) + tail == tail;
      PrependNothing(ParseIndices(tail));
    } else {
      hide ParseIndices, PrintIndex, PrintIndices, Prepend, IsInt;
      PrintIndicesStart(indices);
      Joined(PrintIndex(indices[0]), PrintIndices(indices[1..]), tail);
      ParseOneIndex(indices[0], PrintIndices(indices[1..]) + tail);
      ParseIndicesThen(indices[1..], tail);
      PrependJoin([indices[0]], indices[1..], ParseIndices(tail));
      assert [indices[0]] + indices[1..] == indices;
    }
  }

  lemma RefusedAfter(base: GoString, indices: seq<int>, tail: GoString)
    requires LBRACKET !in base && (forall i :: i in indices ==> IsInt(i))
    requires tail != [] && tail[0] == LBRACKET && ParseIndices(tail) == None
    ensures ParseArrayAccess(base + PrintIndices(indices) + tail) == Err
  {
    hide IndexByte, ParseIndices, PrintIndex;
    ParseIndicesThen(indices, tail);
    var rest := PrintIndices(indices) + tail;
    assert rest != [] && rest[0] == LBRACKET;
    assert base + PrintIndices(indices) + tail == base + rest;
    OpenOfPrintedPath(base, rest);
  }

  /** A bracket that is never closed is an error. */
  lemma UnclosedIndex(base: GoString, indices: seq<int>, s: GoString)
    requires LBRACKET !in base && (forall i :: i in indices ==> IsInt(i)) && RBRACKET !in s
    ensures ParseArrayAccess(base + PrintIndices(indices) + ([LBRACKET] + s)) == Err
  {
    var tail := [LBRACKET] + s;
    assert RBRACKET !in tail;
    hide ParseArrayAccess, PrintIndices;
    RefusedAfter(base, indices, tail);
  }

  /** So is anything but a number between brackets. */
  lemma BadIndex(base: GoString, indices: seq<int>, s: GoString, rest: GoString)
    requires LBRACKET !in base && (forall i :: i in indices ==> IsInt(i))
    requires RBRACKET !in s && ScanInt(s) == None
    ensures ParseArrayAccess(base + PrintIndices(indices) + ([LBRACKET] + s + [RBRACKET] + rest)) == Err
  {
    var tail := [LBRACKET] + s + [RBRACKET] + rest;
    IndexByteAfter([LBRACKET] + s, RBRACKET, rest);
    assert tail[1..|s| + 1] == s;
    hide ParseArrayAccess, PrintIndices, ScanInt, IndexByte;
    RefusedAfter(base, indices, tail);
  }

  // ---------- a field after the first index ----------

  /** Just past the first closing bracket that follows the first opening one, or None. */
  function AfterFirstIndex(s: GoString): (r: Option<nat>)
    ensures r.Some? ==> 0 < r.value <= |s|
  {
    var open := IndexByte(s, LBRACKET);
    if open == -1 then None
    else
      var close := IndexByte(s[open..], RBRACKET);
      if close == -1 then None else Some(open + close + 1)
  }

  /** hasStructFieldAfterArray. */
  predicate HasFieldAfterIndex(s: GoString) {
    var after := AfterFirstIndex(s);
    after.Some? && after.value < |s| && s[after.value] == DOT
  }

  /** splitArrayAndField: the path up to the index, and the path after the dot. */
  function SplitArrayAndField(s: GoString): (GoString, GoString)
    requires HasFieldAfterIndex(s)
  {
    var after := AfterFirstIndex(s).value;
    (s[..after], s[after + 1..])
  }

  lemma AfterPrintedIndex(base: GoString, i: int, rest: GoString)
    requires LBRACKET !in base && IsInt(i)
    ensures AfterFirstIndex(base + PrintIndex(i) + rest) == Some(|base + PrintIndex(i)|)
  {
    hide IndexByte, PrintIndex;
    assert base + PrintIndex(i) + rest == base + (PrintIndex(i) + rest);
    OpenOfPrintedPath(base, PrintIndex(i) + rest);
    CloseOfPrintedIndex(i, rest);
  }

  /** For one index and a field, splitting gives back the element's path and the field. */
  lemma SplitPrintedPath(base: GoString, i: int, field: GoString)
    requires LBRACKET !in base && IsInt(i)
    ensures var element := base + PrintIndex(i);
            && HasFieldAfterIndex(element + [DOT] + field)
            && SplitArrayAndField(element + [DOT] + field) == (element, field)
  {
    AfterPrintedIndex(base, i, [DOT] + field);
    var element := base + PrintIndex(i);
    hide AfterFirstIndex, PrintIndex;
    assert element + ([DOT] + field) == element + [DOT] + field;
  }

  lemma DotAfterIndex(base: GoString, i: int, after: GoString)
    requires LBRACKET !in base && IsInt(i)
    ensures HasFieldAfterIndex(base + PrintIndex(i) + after) <==> after != [] && after[0] == DOT
  {
    AfterPrintedIndex(base, i, after);
    hide AfterFirstIndex, PrintIndex;
  }

  /** A printed path is taken for an element's field exactly when a dot follows its first index. */
  lemma PrintedPathHasField(base: GoString, indices: seq<int>, rest: GoString)
    requires LBRACKET !in base && indices != [] && (forall i :: i in indices ==> IsInt(i))
    requires rest == [] || rest[0] != LBRACKET
    ensures HasFieldAfterIndex(base + PrintIndices(indices) + rest) <==>
              |indices| == 1 && rest != [] && rest[0] == DOT
  {
    hide HasFieldAfterIndex, PrintIndex, PrintIndices;
    PrintIndicesStart(indices);
    var after := PrintIndices(indices[1..]) + rest;
    assert base + PrintIndices(indices) + rest == base + PrintIndex(indices[0]) + after;
    DotAfterIndex(base, indices[0], after);
  }
}
