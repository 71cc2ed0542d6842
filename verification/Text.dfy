/**
 * The text routines the codec uses: decimal numbers as Go prints and scans
 * them, white space, line ends. White space and letter case are ASCII.
 */
module Text {
  import opened Bytes

  /** A literal as bytes. */
  function Ascii(s: string): Str {
    seq(|s|, i requires 0 <= i < |s| => s[i] as int % 256)
  }

  // ---------- Letters and white space ----------

  function UpperByte(b: Byte): Byte {
    if 97 <= b <= 122 then b - 32 else b
  }

  function Upper(s: Str): (r: Str)
    ensures |r| == |s| && forall i :: 0 <= i < |s| ==> r[i] == UpperByte(s[i])
  {
    seq(|s|, i requires 0 <= i < |s| => UpperByte(s[i]))
  }

  predicate IsSpace(b: Byte) {
    9 <= b <= 13 || b == SPACE
  }

  function TrimLeft(s: Str): Str {
    if s != [] && IsSpace(s[0]) then TrimLeft(s[1..]) else s
  }

  function TrimRight(s: Str): Str {
    if s != [] && IsSpace(s[|s| - 1]) then TrimRight(s[..|s| - 1]) else s
  }

  /** strings.TrimSpace */
  function Trim(s: Str): Str {
    TrimRight(TrimLeft(s))
  }

  /** The longest prefix without white space. */
  function Word(s: Str): (w: Str)
    ensures |w| <= |s|
    ensures s != [] && !IsSpace(s[0]) ==> w != []
  {
    if s == [] || IsSpace(s[0]) then [] else [s[0]] + Word(s[1..])
  }

  /** strings.Fields */
  function Fields(s: Str): seq<Str>
    decreases |s|
  {
    if s == [] then []
    else if IsSpace(s[0]) then Fields(s[1..])
    else [Word(s)] + Fields(s[|Word(s)|..])
  }

  /** Trimming a line that ends in CR LF. */
  lemma TrimLine(t: Str)
    requires t != [] && !IsSpace(t[0]) && !IsSpace(t[|t| - 1])
    ensures Trim(t + CRLF) == t
  {
    var d := t + CRLF;
    assert TrimLeft(d) == d;
    assert d[..|d| - 1] == t + [CR] && (t + [CR])[..|t|] == t;
    assert TrimRight(t) == t && TrimRight(t + [CR]) == t;
  }

  // ---------- Line ends ----------

  predicate CrlfAt(s: Str, i: int) {
    0 <= i && i + 1 < |s| && s[i] == CR && s[i + 1] == LF
  }

  /** Position of the first CR LF pair, or -1 (parser.go:193-200). */
  function IndexCrlf(s: Str): (r: int)
    ensures r == -1 || CrlfAt(s, r)
    ensures forall i :: 0 <= i < (if r == -1 then |s| else r) ==> !CrlfAt(s, i)
  {
    if |s| < 2 then -1
    else if CrlfAt(s, 0) then 0
    else
      var r := IndexCrlf(s[1..]);
      assert forall i :: 1 <= i ==> CrlfAt(s, i) == CrlfAt(s[1..], i - 1);
      if r == -1 then -1 else r + 1
  }

  lemma CrlfExtend(s: Str, x: Str)
    requires IndexCrlf(s) >= 0
    ensures IndexCrlf(s + x) == IndexCrlf(s)
  {
    var a, b := IndexCrlf(s), IndexCrlf(s + x);
    assert CrlfAt(s + x, a);
    assert forall i :: 0 <= i < a ==> CrlfAt(s + x, i) == CrlfAt(s, i);
  }

  /** Position of the first line feed, or -1. */
  function IndexLf(s: Str): (r: int)
    ensures r == -1 || (0 <= r < |s| && s[r] == LF)
    ensures forall i :: 0 <= i < (if r == -1 then |s| else r) ==> s[i] != LF
  {
    if s == [] then -1
    else if s[0] == LF then 0
    else
      var r := IndexLf(s[1..]);
      if r == -1 then -1 else r + 1
  }

  // ---------- Numbers ----------

  const INT64_LIMIT := 0x8000_0000_0000_0000

  predicate IsDigit(b: Byte) {
    48 <= b <= 57
  }

  /** %d of a non-negative number */
  function Dec(n: nat): (s: Str)
    ensures s != [] && forall i :: 0 <= i < |s| ==> IsDigit(s[i])
  {
    if n < 10 then [48 + n] else Dec(n / 10) + [48 + n % 10]
  }

  /** %d of any number */
  function DecInt(n: int): Str {
    if n < 0 then [MINUS] + Dec(-n) else Dec(n)
  }

  function LeadingDigits(s: Str): (d: Str)
    ensures |d| <= |s| && forall i :: 0 <= i < |d| ==> IsDigit(d[i])
  {
    if s == [] || !IsDigit(s[0]) then [] else [s[0]] + LeadingDigits(s[1..])
  }

  function Value(d: Str): nat
    requires forall i :: 0 <= i < |d| ==> IsDigit(d[i])
  {
    if d == [] then 0
    else
      var last: int := d[|d| - 1];
      assert IsDigit(d[|d| - 1]);
      10 * Value(d[..|d| - 1]) + (last - 48)
  }

  /** Leading blanks are skipped; a line feed among them is an error. */
  function SkipBlanks(s: Str): Option<Str> {
    if s == [] || !IsSpace(s[0]) then Some(s)
    else if s[0] == LF then None
    else SkipBlanks(s[1..])
  }

  function ScanDigits(s: Str, negative: bool): Option<int> {
    var d := LeadingDigits(s);
    if d == [] then None
    else
      var v: int := if negative then 0 - Value(d) else Value(d);
      if -INT64_LIMIT <= v < INT64_LIMIT then Some(v) else None
  }

  /** fmt.Sscanf with %d: blanks, an optional sign, digits; what follows is ignored. */
  function ScanInt(s: Str): Option<int> {
    match SkipBlanks(s)
    case None => None
    case Some(t) =>
      if t != [] && (t[0] == MINUS || t[0] == PLUS) then ScanDigits(t[1..], t[0] == MINUS)
      else ScanDigits(t, false)
  }

  lemma {:induction false} AllDigitsLead(s: Str)
    requires forall i :: 0 <= i < |s| ==> IsDigit(s[i])
    ensures LeadingDigits(s) == s
  {
    if s != [] {
      AllDigitsLead(s[1..]);
    }
  }

  lemma {:induction false} ValueOfDec(n: nat)
    ensures Value(Dec(n)) == n
  {
    if n >= 10 {
      var s := Dec(n);
      assert s[..|s| - 1] == Dec(n / 10);
      ValueOfDec(n / 10);
    } else {
      assert Dec(n)[..0] == [];
    }
  }

  /** A printed number scans back to itself. */
  lemma ScanDec(n: nat)
    requires n < INT64_LIMIT
    ensures ScanInt(Dec(n)) == Some(n)
  {
    AllDigitsLead(Dec(n));
    ValueOfDec(n);
    assert IsDigit(Dec(n)[0]);
  }

  /** Numbers of either sign scan back. */
  lemma ScanDecInt(n: int)
    requires -0x8000_0000_0000_0000 <= n < 0x8000_0000_0000_0000
    ensures ScanInt(DecInt(n)) == Some(n)
  {
    if n >= 0 {
      ScanDec(n);
    } else {
      var d := Dec(-n);
      assert ([45] + d)[1..] == d;
      AllDigitsLead(d);
      ValueOfDec(-n);
    }
  }

  /** A number ends where its digits end. */
  lemma ScanFollowed(n: nat, x: Str)
    requires n < INT64_LIMIT && (x == [] || !(48 <= x[0] <= 57))
    ensures Dec(n) + x != [] && 48 <= (Dec(n) + x)[0] <= 57
    ensures LeadingDigits(Dec(n) + x) == Dec(n) && ScanInt(Dec(n) + x) == Some(n)
  {
    var d := Dec(n);
    DigitsLead(d, x);
    ValueOfDec(n);
    assert IsDigit(d[0]) && (d + x)[0] == d[0];
    hide Dec, Value, LeadingDigits;
  }

  /** What the scan accepts around a number: a blank or a sign before it, anything but a digit after it. */
  lemma ScanAround(n: nat, x: Str)
    requires n < INT64_LIMIT && (x == [] || !(48 <= x[0] <= 57))
    ensures ScanInt([43] + (Dec(n) + x)) == Some(n) && ScanInt([45] + (Dec(n) + x)) == Some(0 - n)
    ensures ScanInt([32] + (Dec(n) + x)) == Some(n) && ScanInt([10] + (Dec(n) + x)) == None
  {
    ScanFollowed(n, x);
    ValueOfDec(n);
    SignThenDigits(Dec(n) + x, n);
    BlankThenDigits(Dec(n) + x);
    hide ScanInt, Dec, Value, LeadingDigits;
  }

  lemma SignThenDigits(s: Str, n: nat)
    requires s != [] && 48 <= s[0] <= 57 && n < INT64_LIMIT
    requires LeadingDigits(s) != [] && Value(LeadingDigits(s)) == n
    ensures ScanInt([43] + s) == Some(n) && ScanInt([45] + s) == Some(0 - n)
  {
    assert ([43] + s)[1..] == s && ([45] + s)[1..] == s;
    hide Value, LeadingDigits;
  }

  lemma BlankThenDigits(s: Str)
    requires s != [] && 48 <= s[0] <= 57
    ensures ScanInt([32] + s) == ScanInt(s) && ScanInt([10] + s) == None
  {
    assert ([32] + s)[1..] == s && ([32] + s)[0] == 32;
    assert SkipBlanks(s) == Some(s);
    assert SkipBlanks([32] + s) == SkipBlanks(s);
    hide ScanDigits;
  }

  /** A text that does not begin with a number is refused, and so is one that does not fit in 64 bits. */
  lemma ScanRefuses(s: Str, n: nat)
    ensures s == [] || (s[0] != 43 && s[0] != 45 && !(9 <= s[0] <= 13) && s[0] != 32 && !(48 <= s[0] <= 57)) ==>
      ScanInt(s) == None
    ensures n >= 0x8000_0000_0000_0000 ==> ScanInt(Dec(n)) == None
  {
    AllDigitsLead(Dec(n));
    ValueOfDec(n);
    assert IsDigit(Dec(n)[0]);
  }

  lemma {:induction false} DigitsLead(d: Str, x: Str)
    requires (forall i :: 0 <= i < |d| ==> IsDigit(d[i])) && (x == [] || !IsDigit(x[0]))
    ensures LeadingDigits(d + x) == d
    decreases |d|
  {
    if d == [] {
      assert d + x == x;
    } else {
      assert (d + x)[1..] == d[1..] + x;
      DigitsLead(d[1..], x);
    }
  }

  /** Decimal digits, written out. */
  lemma DecDigits(n: nat)
    ensures n < 10 ==> Dec(n) == [48 + n]
    ensures 10 <= n ==> Dec(n) == Dec(n / 10) + [48 + n % 10]
    ensures n > 0 ==> DecInt(0 - n) == [45] + Dec(n)
    ensures DecInt(n) == Dec(n)
  {
  }

  // ---------- Headers ----------

  /** A RESP header: a type byte, a number and a line end. */
  function Header(kind: Byte, n: nat): (h: Str)
    ensures |h| >= 4
  {
    [kind] + Dec(n) + CRLF
  }

  predicate IsKind(kind: Byte) {
    kind == STAR || kind == DOLLAR
  }

  /** Both ways of finding the end of a header find the whole header. */
  lemma HeaderEnds(kind: Byte, n: nat, x: Str)
    requires IsKind(kind)
    ensures IndexCrlf(Header(kind, n) + x) == |Header(kind, n)| - 2
    ensures IndexLf(Header(kind, n) + x) == |Header(kind, n)| - 1
  {
    var h := Header(kind, n);
    var s := h + x;
    var a, b := IndexCrlf(s), IndexLf(s);
    assert forall i :: 0 <= i < |h| - 2 ==> s[i] == h[i] && h[i] != CR && h[i] != LF by {
      forall i | 0 < i < |h| - 2 ensures IsDigit(h[i]) {
        assert h[i] == Dec(n)[i - 1];
      }
    }
    assert CrlfAt(s, |h| - 2);
    assert a == |h| - 2;
    assert s[|h| - 1] == LF && s[|h| - 2] == CR;
    assert b == |h| - 1;
  }

  lemma TrimHeader(kind: Byte, n: nat)
    requires IsKind(kind)
    ensures Trim(Header(kind, n)) == [kind] + Dec(n)
  {
    var h, t := Header(kind, n), [kind] + Dec(n);
    assert TrimLeft(h) == h;
    assert !IsSpace(t[|t| - 1]) by {
      assert t[|t| - 1] == Dec(n)[|Dec(n)| - 1];
    }
    assert h[..|h| - 1] == t + [CR];
    assert TrimRight(t) == t;
    assert (t + [CR])[..|t|] == t;
    assert TrimRight(t + [CR]) == t;
  }

  /** How a header followed by `body` looks to the byte parser. */
  lemma HeaderInBytes(kind: Byte, n: nat, body: Str)
    requires IsKind(kind) && n < INT64_LIMIT
    ensures var h := Header(kind, n); var d := h + body;
      && d[0] == kind && IndexCrlf(d) == |h| - 2
      && ScanInt(d[1..|h| - 2]) == Some(n) && d[|h|..] == body
  {
    var h := Header(kind, n);
    HeaderEnds(kind, n, body);
    ScanDec(n);
    assert (h + body)[1..|h| - 2] == Dec(n);
  }

  /** How it looks to the stream parser. */
  lemma HeaderInStream(kind: Byte, n: nat, body: Str)
    requires IsKind(kind) && n < INT64_LIMIT
    ensures var h := Header(kind, n); var d := h + body; var t := Trim(d[..|h|]);
      && IndexLf(d) == |h| - 1 && d[|h|..] == body
      && t != [] && t[0] == kind && ScanInt(t[1..]) == Some(n)
  {
    var h := Header(kind, n);
    HeaderEnds(kind, n, body);
    TrimHeader(kind, n);
    ScanDec(n);
    assert (h + body)[..|h|] == h;
    assert ([kind] + Dec(n))[1..] == Dec(n);
  }
}
