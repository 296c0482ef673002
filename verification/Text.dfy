/** The string operations the client uses on names and paths: searching, splitting, trimming, and
    scanning decimal numbers. Strings are byte sequences. */
module Text {
  import opened Bytes
  import opened Outcomes

  function Ascii(s: string): (r: GoString)
    requires forall i :: 0 <= i < |s| ==> s[i] < 128 as char
    ensures |r| == |s|
  {
    seq(|s|, i requires 0 <= i < |s| => s[i] as byte)
  }

  const NEWLINE: byte := 10
  const PLUS: byte := 43
  const MINUS: byte := 45
  const DOT: byte := 46
  const LBRACKET: byte := 91
  const RBRACKET: byte := 93

  // ---------- searching ----------

  predicate OccursAt(s: GoString, sub: GoString, i: int) {
    0 <= i <= |s| - |sub| && s[i..i + |sub|] == sub
  }

  /** strings.Index: the first position of sub at or after start, or -1. */
  function IndexFrom(s: GoString, sub: GoString, start: nat): (i: int)
    ensures i == -1 || (start <= i && OccursAt(s, sub, i))
    ensures i != -1 ==> forall j :: start <= j < i ==> !OccursAt(s, sub, j)
    ensures i == -1 ==> forall j :: start <= j ==> !OccursAt(s, sub, j)
    decreases |s| - start
  {
    if start + |sub| > |s| then -1
    else if OccursAt(s, sub, start) then start
    else IndexFrom(s, sub, start + 1)
  }

  function Index(s: GoString, sub: GoString): (i: int)
    ensures i == -1 || OccursAt(s, sub, i)
  {
    IndexFrom(s, sub, 0)
  }

  /** strings.Index of a single byte. */
  function IndexByte(s: GoString, b: byte): (i: int)
    ensures -1 <= i < |s|
    ensures i >= 0 ==> s[i] == b && b !in s[..i]
    ensures i == -1 <==> b !in s
  {
    if s == [] then -1
    else if s[0] == b then 0
    else
      var i := IndexByte(s[1..], b);
      if i == -1 then -1 else i + 1
  }

  lemma {:induction false} IndexByteAfter(pre: GoString, b: byte, post: GoString)
    requires b !in pre
    ensures IndexByte(pre + [b] + post, b) == |pre|
  {
    if pre == [] {
    } else {
      IndexByteAfter(pre[1..], b, post);
      assert (pre + [b] + post)[1..] == pre[1..] + [b] + post;
    }
  }

  // ---------- splitting and trimming ----------

  /** strings.Split around every occurrence of a non-empty separator. */
  function Split(s: GoString, sep: GoString): (parts: seq<GoString>)
    requires sep != []
    ensures |parts| >= 1
    decreases |s|
  {
    var i := Index(s, sep);
    if i == -1 then [s] else [s[..i]] + Split(s[i + |sep|..], sep)
  }

  predicate IsSpace(b: byte) { b == 32 || 9 <= b <= 13 }

  function TrimLeft(s: GoString): (r: GoString)
    ensures |r| <= |s|
    ensures r != [] ==> !IsSpace(r[0])
  {
    if s == [] || !IsSpace(s[0]) then s else TrimLeft(s[1..])
  }

  function TrimRight(s: GoString): (r: GoString)
    ensures |r| <= |s|
    ensures r != [] ==> !IsSpace(r[|r| - 1])
  {
    if s == [] || !IsSpace(s[|s| - 1]) then s else TrimRight(s[..|s| - 1])
  }

  function TrimSpace(s: GoString): GoString { TrimRight(TrimLeft(s)) }

  // ---------- decimal numbers ----------

  predicate IsDigit(b: byte) { 48 <= b <= 57 }

  function PrintNat(n: nat): (s: GoString)
    ensures |s| > 0 && forall i :: 0 <= i < |s| ==> IsDigit(s[i])
  {
    if n < 10 then [48 + n] else PrintNat(n / 10) + [48 + n % 10]
  }

  function PrintInt(i: int): (s: GoString)
    ensures |s| > 0 && forall k :: 0 <= k < |s| ==> IsDigit(s[k]) || s[k] == MINUS
  {
    if i < 0 then [MINUS] + PrintNat(-i) else PrintNat(i)
  }

  /** The value of the leading digits, starting from acc. */
  function ScanDigits(s: GoString, acc: nat): nat {
    if s == [] || !IsDigit(s[0]) then acc else ScanDigits(s[1..], acc * 10 + (s[0] - 48))
  }

  /** The number a decimal scan finds at the front of s: at least one digit is needed, what follows the
      digits is left alone, and a value outside the bounds is an error. */
  function ScanNat(s: GoString, bound: nat): Option<nat> {
    if s == [] || !IsDigit(s[0]) then None
    else
      var n := ScanDigits(s, 0);
      if n < bound then Some(n) else None
  }

  const INT_BOUND: int := 0x8000_0000_0000_0000

  predicate IsInt(i: int) { -INT_BOUND <= i < INT_BOUND }

  /** A scan skips blanks, but not a newline. */
  function SkipBlanks(s: GoString): (r: GoString)
    ensures s != [] && !IsSpace(s[0]) ==> r == s
  {
    if s == [] || !IsSpace(s[0]) || s[0] == NEWLINE then s else SkipBlanks(s[1..])
  }

  /** An optional sign, then digits, within 64 bits. */
  function ScanSigned(s: GoString): (r: Option<int>)
    ensures r.Some? ==> IsInt(r.value)
  {
    if s != [] && s[0] == MINUS then
      match ScanNat(s[1..], INT_BOUND + 1)
      case None => None
      case Some(n) => Some(0 - n as int)
    else
      match ScanNat(if s != [] && s[0] == PLUS then s[1..] else s, INT_BOUND)
      case None => None
      case Some(n) => Some(n)
  }

  /** fmt.Sscanf with %d into an int. */
  function ScanInt(s: GoString): (r: Option<int>)
    ensures r.Some? ==> IsInt(r.value)
  {
    ScanSigned(SkipBlanks(s))
  }

  lemma {:induction false} ScanPrintedDigits(n: nat, rest: GoString)
    ensures ScanDigits(PrintNat(n) + rest, 0) == ScanDigits(rest, n)
  {
    if n < 10 {
      assert (PrintNat(n) + rest)[1..] == rest;
    } else {
      var last: GoString := [48 + n % 10];
      ScanPrintedDigits(n / 10, last + rest);
      assert PrintNat(n) + rest == PrintNat(n / 10) + (last + rest);
      assert (last + rest)[1..] == rest;
    }
  }

  /** Scanning a printed number returns it, if nothing that looks like a digit follows. */
  lemma ScanPrintedInt(i: int, rest: GoString)
    requires IsInt(i) && (rest == [] || !IsDigit(rest[0]))
    ensures ScanInt(PrintInt(i) + rest) == Some(i)
  {
    var n: nat := if i < 0 then -i else i;
    ScanPrintedDigits(n, rest);
    var digits := PrintNat(n) + rest;
    assert IsDigit(digits[0]);
    if i < 0 {
      assert PrintInt(i) + rest == [MINUS] + digits;
      assert ([MINUS] + digits)[1..] == digits;
    }
  }

  // ---------- what trimming and scanning accept ----------

  predicate AllSpace(s: GoString) {
    forall i :: 0 <= i < |s| ==> s[i] in {9, 10, 11, 12, 13, 32}
  }

  lemma {:induction false} TrimLeftExactly(s: GoString) returns (a: GoString)
    ensures s == a + TrimLeft(s) && AllSpace(a)
  {
    if s == [] || !IsSpace(s[0]) {
      a := [];
    } else {
      a := TrimLeftExactly(s[1..]);
      a := [s[0]] + a;
    }
  }

  lemma {:induction false} TrimRightExactly(s: GoString) returns (b: GoString)
    ensures s == TrimRight(s) + b && AllSpace(b)
    ensures s != [] && TrimRight(s) != [] ==> TrimRight(s)[0] == s[0]
    decreases |s|
  {
    if s == [] || !IsSpace(s[|s| - 1]) {
      b := [];
    } else {
      b := TrimRightExactly(s[..|s| - 1]);
      b := b + [s[|s| - 1]];
    }
  }

  /** Trimming takes white space off both ends, and all of it. */
  lemma TrimExactly(s: GoString) returns (a: GoString, b: GoString)
    ensures s == a + TrimSpace(s) + b && AllSpace(a) && AllSpace(b)
    ensures TrimSpace(s) != [] ==> !IsSpace(TrimSpace(s)[0]) && !IsSpace(TrimSpace(s)[|TrimSpace(s)| - 1])
  {
    a := TrimLeftExactly(s);
    b := TrimRightExactly(TrimLeft(s));
  }

  lemma {:induction false} SkipOver(blanks: GoString, s: GoString)
    requires AllSpace(blanks) && NEWLINE !in blanks && s != [] && !IsSpace(s[0])
    ensures SkipBlanks(blanks + s) == s
  {
    if blanks == [] {
      assert blanks + s == s;
    } else {
      SkipOver(blanks[1..], s);
      assert (blanks + s)[1..] == blanks[1..] + s;
    }
  }

  lemma ScanNatPrinted(n: nat, rest: GoString, bound: nat)
    requires rest == [] || !IsDigit(rest[0])
    ensures ScanNat(PrintNat(n) + rest, bound) == if n < bound then Some(n) else None
    ensures IsDigit((PrintNat(n) + rest)[0])
  {
    ScanPrintedDigits(n, rest);
    assert (PrintNat(n) + rest)[0] == PrintNat(n)[0];
    hide PrintNat;
  }

  lemma ScanSignedPrinted(i: int, rest: GoString)
    requires rest == [] || !IsDigit(rest[0])
    ensures ScanSigned(PrintInt(i) + rest) == if IsInt(i) then Some(i) else None
    ensures i >= 0 ==> ScanSigned([PLUS] + PrintInt(i) + rest) == if IsInt(i) then Some(i) else None
  {
    var n: nat := if i < 0 then -i else i;
    hide PrintNat, ScanNat;
    var digits := PrintNat(n) + rest;
    ScanNatPrinted(n, rest, INT_BOUND);
    ScanNatPrinted(n, rest, INT_BOUND + 1);
    Signs(digits);
    if i < 0 {
      assert PrintInt(i) + rest == [MINUS] + digits;
    } else {
      assert [PLUS] + PrintInt(i) + rest == [PLUS] + digits;
    }
  }

  /** What a sign in front of digits does to a scan. */
  lemma Signs(digits: GoString)
    requires digits != [] && IsDigit(digits[0])
    ensures ScanSigned([MINUS] + digits)
            == match ScanNat(digits, INT_BOUND + 1) case None => None case Some(n) => Some(0 - n as int)
    ensures ScanSigned([PLUS] + digits) == ScanSigned(digits)
    ensures ScanSigned(digits) == match ScanNat(digits, INT_BOUND) case None => None case Some(n) => Some(n)
  {
    hide ScanNat;
    assert ([MINUS] + digits)[1..] == digits && ([PLUS] + digits)[1..] == digits;
  }

  /** A decimal scan skips blanks other than newlines, takes a sign, stops at the first byte that is no digit, and
      fails on a number that does not fit 64 bits. */
  lemma ScanExactly(blanks: GoString, i: int, plus: bool, rest: GoString)
    requires AllSpace(blanks) && NEWLINE !in blanks && (rest == [] || !IsDigit(rest[0])) && (plus ==> i >= 0)
    ensures ScanInt(blanks + ((if plus then [PLUS] else []) + PrintInt(i) + rest)) == if IsInt(i) then Some(i) else None
  {
    hide PrintInt, ScanSigned, SkipBlanks, IsInt;
    ScanSignedPrinted(i, rest);
    var s := (if plus then [PLUS] else []) + PrintInt(i) + rest;
    assert s == if plus then [PLUS] + PrintInt(i) + rest else PrintInt(i) + rest;
    PrintedStart(i);
    SkipOver(blanks, s);
  }

  lemma PrintedStart(i: int)
    ensures !IsSpace(PrintInt(i)[0])
  {
  }

  /** Where a number should be and no digit is, a scan fails. */
  lemma ScanNeedsDigit(s: GoString)
    requires s == [] || (!IsDigit(s[0]) && !IsSpace(s[0]))
    requires s != [] && (s[0] == PLUS || s[0] == MINUS) ==> |s| == 1 || !IsDigit(s[1])
    ensures ScanInt(s) == None
  {
  }
}
