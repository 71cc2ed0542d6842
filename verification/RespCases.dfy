/**
 * The wire format by its bytes (pkg/protocol/parser.go, pkg/protocol/writer.go): what
 * is printed, and where the two parsers draw their lines.
 */
module RespCases {
  import opened Bytes
  import opened Text
  import opened Resp
  import opened InlineCommands

  // ---------- What is printed ----------

  /** An array of bulk strings, byte by byte. */
  lemma PrintedForm(args: seq<Str>)
    ensures Encode(args) == [42] + Dec(|args|) + [13, 10] + Bulks(args)
    ensures args == [] ==> Bulks(args) == []
    ensures args != [] ==>
      Bulks(args) == [36] + Dec(|args[0]|) + [13, 10] + args[0] + [13, 10] + Bulks(args[1..])
  {
  }

  /** A bulk string of one byte. */
  lemma PrintedByte(b: Byte)
    ensures Bulk([b]) == [36, 49, 13, 10, b, 13, 10]
  {
    DecDigits(1);
    hide Dec;
  }

  lemma PrintedName()
    ensures Bulk([83, 69, 84]) == [36, 51, 13, 10, 83, 69, 84, 13, 10] && Header(42, 3) == [42, 51, 13, 10]
  {
    DecDigits(3);
    hide Dec;
  }

  /** SET k v, for a key and a value of one byte. */
  lemma PrintedSet(k: Byte, v: Byte)
    ensures Encode([[83, 69, 84], [k], [v]])
      == [42, 51, 13, 10] + [36, 51, 13, 10, 83, 69, 84, 13, 10]
         + [36, 49, 13, 10, k, 13, 10] + [36, 49, 13, 10, v, 13, 10]
  {
    var args: seq<Str> := [[83, 69, 84], [k], [v]];
    assert args[1..] == [[k], [v]] && args[1..][1..] == [[v]] && args[1..][1..][1..] == [];
    PrintedName();
    PrintedByte(k);
    PrintedByte(v);
    hide Bulk, Header;
    assert Bulks(args[1..][1..]) == Bulk([v]);
    assert Bulks(args[1..]) == Bulk([k]) + Bulk([v]);
    assert Bulks(args) == Bulk([83, 69, 84]) + (Bulk([k]) + Bulk([v]));
  }

  /** The limits: 1 to 1024 arguments of at most 524288 bytes. */
  lemma LimitsAre(args: seq<Str>)
    ensures InLimits(args) <==> 1 <= |args| <= 1024 && forall a :: a in args ==> |a| <= 524288
  {
  }

  // ---------- A line, for both parsers ----------

  lemma LineInBoth(line: Str, tail: Str)
    requires line != [] && (forall i :: 0 <= i < |line| ==> line[i] != 10)
    requires !IsSpace(line[0]) && !IsSpace(line[|line| - 1])
    ensures var d := line + [13, 10] + tail;
      && IndexCrlf(d) == |line| && IndexLf(d) == |line| + 1 && d[0] == line[0]
      && d[1..|line|] == line[1..] && Trim(d[..|line| + 2]) == line && d[|line| + 2..] == tail
  {
    LineEnds(line, tail);
    TrimLine(line);
    var d := line + [13, 10] + tail;
    assert d[1..|line|] == d[..|line|][1..];
  }

  /** A type byte and a signed number. */
  function NumberLine(kind: Byte, n: int): Str {
    [kind] + DecInt(n)
  }

  lemma NumberInBoth(kind: Byte, n: int, tail: Str)
    requires (kind == 42 || kind == 36) && -INT64_LIMIT <= n < INT64_LIMIT
    ensures var line := NumberLine(kind, n); var d := line + [13, 10] + tail;
      && IndexCrlf(d) == |line| && IndexLf(d) == |line| + 1 && d[0] == kind
      && d[1..|line|] == DecInt(n) && Trim(d[..|line| + 2]) == line && line[1..] == DecInt(n)
      && d[|line| + 2..] == tail && ScanInt(DecInt(n)) == Some(n)
  {
    var line := NumberLine(kind, n);
    NumberBytes(n);
    assert line[1..] == DecInt(n);
    LineInBoth(line, tail);
    ScanDecInt(n);
  }

  lemma NumberBytes(n: int)
    ensures DecInt(n) != [] && forall i :: 0 <= i < |DecInt(n)| ==> DecInt(n)[i] == 45 || 48 <= DecInt(n)[i] <= 57
  {
  }

  // ---------- Array headers ----------

  /** Array lengths: more than 1024 is refused, zero is no command, a negative one is a panic. */
  lemma ArrayLengths(n: int, tail: Str)
    requires -INT64_LIMIT <= n < INT64_LIMIT
    ensures var line := NumberLine(42, n); var d := line + [13, 10] + tail;
      && (n > 1024 ==> ParseBytes(d) == Invalid(TooManyArguments) && ParseStream(d) == Failed(TooManyArguments))
      && (n == 0 ==> ParseBytes(d) == Parsed(None, |line| + 2) && ParseStream(d) == Read(None, tail))
      && (n < 0 ==> ParseBytes(d) == Fault && ParseStream(d) == Crash)
  {
    NumberInBoth(42, n, tail);
    hide IndexCrlf, IndexLf, Trim, ScanInt, DecInt;
  }

  /** An array header without a number is refused. */
  lemma ArrayWithoutNumber(tail: Str)
    ensures ParseBytes([42, 13, 10] + tail) == Invalid(InvalidArrayLength)
    ensures ParseStream([42, 13, 10] + tail) == Failed(InvalidArrayLength)
  {
    var line: Str := [42];
    assert [42, 13, 10] + tail == line + [13, 10] + tail;
    LineInBoth(line, tail);
    assert line[1..] == [];
    ScanRefuses([], 0);
    hide IndexCrlf, IndexLf, Trim, ScanInt;
  }

  // ---------- Argument headers ----------

  /** Argument lengths: more than 524288 is refused, -1 is the empty argument, less is a panic. */
  lemma BulkLengths(n: int, tail: Str)
    requires -INT64_LIMIT <= n < INT64_LIMIT
    ensures var line := NumberLine(36, n); var d := line + [13, 10] + tail;
      && (n > 524288 ==> ParseBulk(d) == BulkBad(BulkTooLarge) && StreamBulk(d) == ArgFailed(BulkTooLarge))
      && (n == -1 ==> ParseBulk(d) == BulkDone([], |line| + 2) && StreamBulk(d) == ArgRead([], tail))
      && (n < -1 ==> ParseBulk(d) == BulkFault && StreamBulk(d) == ArgCrash)
  {
    NumberInBoth(36, n, tail);
    hide IndexCrlf, IndexLf, Trim, ScanInt, DecInt;
  }

  /** How much of an argument has to be there: its bytes and two more. */
  lemma BulkArrives(n: nat, tail: Str)
    requires n <= 524288
    ensures var line := NumberLine(36, n); var d := line + [13, 10] + tail;
      && (|tail| < n + 2 ==> ParseBulk(d) == BulkMore)
      && (|tail| >= n + 2 ==> ParseBulk(d) == BulkDone(tail[..n], |line| + 2 + n + 2))
      && (tail == [] ==> StreamBulk(d) == ArgEof)
      && (0 < |tail| < n + 2 ==> StreamBulk(d) == ArgFailed(UnexpectedEof))
      && (|tail| >= n + 2 && tail[n] == 13 && tail[n + 1] == 10 ==>
            StreamBulk(d) == ArgRead(tail[..n], tail[n + 2..]))
      && (|tail| >= n + 2 && !(tail[n] == 13 && tail[n + 1] == 10) ==>
            StreamBulk(d) == ArgFailed(BadTermination))
  {
    NumberInBoth(36, n, tail);
    var line := NumberLine(36, n);
    var d := line + [13, 10] + tail;
    if |tail| >= n + 2 {
      assert d[|line| + 2..][..n] == d[|line| + 2..|line| + 2 + n];
    }
    hide IndexCrlf, IndexLf, Trim, ScanInt, DecInt;
  }

  /** An argument header without a number is refused. */
  lemma BulkWithoutNumber(tail: Str)
    ensures ParseBulk([36, 13, 10] + tail) == BulkBad(InvalidBulkLength)
    ensures StreamBulk([36, 13, 10] + tail) == ArgFailed(InvalidBulkLength)
  {
    var line: Str := [36];
    assert [36, 13, 10] + tail == line + [13, 10] + tail;
    LineInBoth(line, tail);
    assert line[1..] == [];
    ScanRefuses([], 0);
    hide IndexCrlf, IndexLf, Trim, ScanInt;
  }

  /** Where an argument should be and is not: the byte parser waits, the stream parser fails. */
  lemma NoDollar(line: Str, tail: Str)
    requires line != [] && (forall i :: 0 <= i < |line| ==> line[i] != 10)
    requires line[0] != 36 && !IsSpace(line[0]) && !IsSpace(line[|line| - 1])
    ensures ParseBulk(line + [13, 10] + tail) == BulkMore
    ensures StreamBulk(line + [13, 10] + tail) == ArgFailed(InvalidBulkLength)
  {
    LineInBoth(line, tail);
    hide IndexCrlf, IndexLf, Trim, ScanInt;
  }

  // ---------- The first argument that is not there ----------

  /** What an argument that cannot be read makes of a whole command. */
  ghost predicate Spoils(bytes: BulkResult, r: ParseResult) {
    match bytes
    case BulkMore => r == Incomplete
    case BulkBad(e) => r == Invalid(e)
    case BulkFault => r == Fault
    case BulkDone(_, _) => true
  }

  ghost predicate SpoilsStream(stream: StreamArg, r: StreamResult) {
    match stream
    case ArgEof => r == Eof
    case ArgFailed(e) => r == Failed(e)
    case ArgCrash => r == Crash
    case ArgRead(_, _) => true
  }

  /** Both parsers end a command as its first unreadable argument ends, however many come before and after it. */
  lemma FirstBadArgument(args: seq<Str>, n: nat, d: Str)
    requires |args| < n <= 1024 && forall a :: a in args ==> |a| <= 524288
    ensures var s := [42] + Dec(n) + [13, 10] + Bulks(args) + d;
      Spoils(ParseBulk(d), ParseBytes(s)) && SpoilsStream(StreamBulk(d), ParseStream(s))
  {
    assert [42] + Dec(n) + [13, 10] + Bulks(args) + d == Header(42, n) + (Bulks(args) + d);
    SpoiltBytes(args, n, d);
    SpoiltStream(args, n, d);
    hide *;
  }

  lemma SpoiltBytes(args: seq<Str>, n: nat, d: Str)
    requires |args| < n <= MAX_ARGS && forall a :: a in args ==> |a| <= MAX_BULK
    ensures Spoils(ParseBulk(d), ParseBytes(Header(STAR, n) + (Bulks(args) + d)))
  {
    BytesLoop(n, Bulks(args) + d);
    BadInArgs(args, n, d);
    hide Header, Dec, Bulks, ParseBulk, ParseArgs, ParseBytes;
  }

  lemma SpoiltStream(args: seq<Str>, n: nat, d: Str)
    requires |args| < n <= MAX_ARGS && forall a :: a in args ==> |a| <= MAX_BULK
    ensures SpoilsStream(StreamBulk(d), ParseStream(Header(STAR, n) + (Bulks(args) + d)))
  {
    StreamLoop(n, Bulks(args) + d);
    BadInArgs(args, n, d);
    hide Header, Dec, Bulks, StreamBulk, StreamBulks, ParseStream;
  }

  /** After a header that says `n` the rest is up to the argument loop. */
  lemma BytesLoop(n: nat, body: Str)
    requires n <= MAX_ARGS
    ensures var r := ParseBytes(Header(STAR, n) + body);
      match ParseArgs(body, n)
      case ArgsMore => r == Incomplete
      case ArgsBad(e) => r == Invalid(e)
      case ArgsFault => r == Fault
      case ArgsDone(_, _) => true
  {
    HeaderInBytes(STAR, n, body);
    hide Header, Dec, ParseArgs, ScanInt, IndexCrlf;
  }

  lemma StreamLoop(n: nat, body: Str)
    requires n <= MAX_ARGS
    ensures var r := ParseStream(Header(STAR, n) + body);
      match StreamBulks(body, n)
      case ArgsEof => r == Eof
      case ArgsFailed(e) => r == Failed(e)
      case ArgsCrash => r == Crash
      case ArgsRead(_, _) => true
  {
    HeaderInStream(STAR, n, body);
    hide Header, Dec, StreamBulks, ScanInt, IndexLf, Trim;
  }

  /** The same for the two argument loops. */
  lemma {:induction false} BadInArgs(args: seq<Str>, n: nat, d: Str)
    requires |args| < n && forall a :: a in args ==> |a| <= MAX_BULK
    ensures var r := ParseArgs(Bulks(args) + d, n);
      match ParseBulk(d)
      case BulkMore => r == ArgsMore
      case BulkBad(e) => r == ArgsBad(e)
      case BulkFault => r == ArgsFault
      case BulkDone(_, _) => true
    ensures var r := StreamBulks(Bulks(args) + d, n);
      match StreamBulk(d)
      case ArgEof => r == ArgsEof
      case ArgFailed(e) => r == ArgsFailed(e)
      case ArgCrash => r == ArgsCrash
      case ArgRead(_, _) => true
    decreases |args|
  {
    hide Bulk, Bulks, ParseBulk, StreamBulk, ParseArgs;
    if args == [] {
      BulksNil(d);
      ArgsStep(d, n);
    } else {
      var rest := Bulks(args[1..]) + d;
      BulksCons(args, d);
      ParseBulkOf(args[0], rest);
      StreamBulkOf(args[0], rest);
      ArgsStep(Bulk(args[0]) + rest, n);
      StreamRound(Bulk(args[0]) + rest, n, args[0], rest);
      assert (Bulk(args[0]) + rest)[|Bulk(args[0])|..] == rest;
      BadInArgs(args[1..], n - 1, d);
    }
  }

  /** Without a line end nothing is read. */
  lemma NoLineYet(d: Str)
    requires forall i :: 0 <= i < |d| ==> d[i] != 10
    ensures ParseBytes(d) == Incomplete && ParseStream(d) == Eof
  {
    var a, b := IndexCrlf(d), IndexLf(d);
    assert b == -1;
    hide Trim, ScanInt, Fields;
  }
}
