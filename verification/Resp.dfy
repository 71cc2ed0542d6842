/**
 * The RESP codec (pkg/protocol/parser.go, pkg/protocol/writer.go): what the
 * printer writes, what the incremental byte parser and the stream parser read.
 */
module Resp {
  import opened Bytes
  import opened Text

  const MAX_ARGS := 1024
  const MAX_BULK := 512 * 1024
  const MAX_INLINE := 8 * 1024

  datatype Command = Command(name: Str, args: seq<Str>)

  datatype ParseError =
    | InvalidArrayLength | TooManyArguments | InvalidBulkLength | BulkTooLarge
    | InlineTooLong | BadTermination | UnexpectedEof

  /** The command a non-empty argument list stands for. */
  function ToCommand(args: seq<Str>): Command
    requires args != []
  {
    Command(Upper(args[0]), args[1..])
  }

  /** What an argument list parses to: no command when it is empty. */
  function CommandOf(args: seq<Str>): Option<Command> {
    if args == [] then None else Some(ToCommand(args))
  }

  // ---------- Printing ----------

  function Bulk(arg: Str): Str {
    Header(DOLLAR, |arg|) + arg + CRLF
  }

  function Bulks(args: seq<Str>): Str {
    if args == [] then [] else Bulk(args[0]) + Bulks(args[1..])
  }

  /** WriteCommand's output: an array of bulk strings. */
  function Encode(args: seq<Str>): Str {
    Header(STAR, |args|) + Bulks(args)
  }

  /** What both parsers accept. */
  predicate InLimits(args: seq<Str>) {
    1 <= |args| <= MAX_ARGS && forall a :: a in args ==> |a| <= MAX_BULK
  }

  // ---------- The incremental parser ----------

  /** `Fault` is a run-time panic of the source, on a negative length. */
  datatype ParseResult =
    | Incomplete
    | Invalid(error: ParseError)
    | Fault
    | Parsed(cmd: Option<Command>, consumed: nat)

  datatype BulkResult = BulkMore | BulkBad(error: ParseError) | BulkFault | BulkDone(arg: Str, used: nat)

  datatype ArgsResult = ArgsMore | ArgsBad(error: ParseError) | ArgsFault | ArgsDone(args: seq<Str>, used: nat)

  /** One round of the argument loop (parser.go:159-182) at the start of `d`. */
  function ParseBulk(d: Str): (r: BulkResult)
    ensures r.BulkDone? ==> 0 < r.used <= |d|
  {
    if d == [] || d[0] != DOLLAR then BulkMore
    else
      var end := IndexCrlf(d);
      if end < 0 then BulkMore
      else
        match ScanInt(d[1..end])
        case None => BulkBad(InvalidBulkLength)
        case Some(n) =>
          var pos := end + 2;
          if n > MAX_BULK then BulkBad(BulkTooLarge)
          else if n == -1 then BulkDone([], pos)
          else if n < -1 then BulkFault
          else if pos + n + 2 > |d| then BulkMore
          else BulkDone(d[pos..pos + n], pos + n + 2)
  }

  /** The argument loop for `n` more arguments. */
  function ParseArgs(d: Str, n: nat): (r: ArgsResult)
    ensures r.ArgsDone? ==> r.used <= |d| && |r.args| == n
    decreases n
  {
    if n == 0 then ArgsDone([], 0)
    else
      match ParseBulk(d)
      case BulkMore => ArgsMore
      case BulkBad(e) => ArgsBad(e)
      case BulkFault => ArgsFault
      case BulkDone(arg, used) => Prepend([arg], used, ParseArgs(d[used..], n - 1))
  }

  function Prepend(args: seq<Str>, used: nat, r: ArgsResult): ArgsResult {
    if r.ArgsDone? then ArgsDone(args + r.args, used + r.used) else r
  }

  /** parseRESPArray */
  function ParseArray(d: Str): ParseResult
    requires d != [] && d[0] == STAR
  {
    var end := IndexCrlf(d);
    if end < 0 then Incomplete
    else
      match ScanInt(d[1..end])
      case None => Invalid(InvalidArrayLength)
      case Some(n) =>
        if n > MAX_ARGS then Invalid(TooManyArguments)
        else if n < 0 then Fault
        else
          match ParseArgs(d[end + 2..], n)
          case ArgsMore => Incomplete
          case ArgsBad(e) => Invalid(e)
          case ArgsFault => Fault
          case ArgsDone(args, used) => Parsed(CommandOf(args), end + 2 + used)
  }

  /** parseInline */
  function ParseInline(d: Str): ParseResult {
    var end := IndexCrlf(d);
    if end < 0 then Incomplete
    else if end > MAX_INLINE then Invalid(InlineTooLong)
    else
      var line := Trim(d[..end]);
      Parsed(if line == [] then None else CommandOf(Fields(line)), end + 2)
  }

  /** ParseCommandFromBytes: a command is reported with the bytes it takes, between 1 and all. */
  function ParseBytes(d: Str): (r: ParseResult)
    ensures r.Parsed? ==> 0 < r.consumed <= |d|
  {
    if d == [] then Incomplete
    else if d[0] == STAR then ParseArray(d)
    else ParseInline(d)
  }

  // ---------- The stream parser ----------

  /** The reader's bytes are all that is left of the stream; `Eof` is io.EOF. */
  datatype StreamResult =
    | Eof
    | Failed(error: ParseError)
    | Crash
    | Read(cmd: Option<Command>, rest: Str)

  datatype StreamArg = ArgEof | ArgFailed(error: ParseError) | ArgCrash | ArgRead(arg: Str, rest: Str)

  datatype StreamArgs = ArgsEof | ArgsFailed(error: ParseError) | ArgsCrash | ArgsRead(args: seq<Str>, rest: Str)

  /** One round of ParseCommand's loop (parser.go:61-93). */
  function StreamBulk(d: Str): (r: StreamArg)
    ensures r.ArgRead? ==> |r.rest| < |d|
  {
    var i := IndexLf(d);
    if i < 0 then ArgEof
    else
      var t := Trim(d[..i + 1]);
      if t == [] || t[0] != DOLLAR then ArgFailed(InvalidBulkLength)
      else
        match ScanInt(t[1..])
        case None => ArgFailed(InvalidBulkLength)
        case Some(n) =>
          var body := d[i + 1..];
          if n > MAX_BULK then ArgFailed(BulkTooLarge)
          else if n == -1 then ArgRead([], body)
          else if n < -1 then ArgCrash
          else if body == [] then ArgEof
          else if |body| < n + 2 then ArgFailed(UnexpectedEof)
          else if body[n] != CR || body[n + 1] != LF then ArgFailed(BadTermination)
          else ArgRead(body[..n], body[n + 2..])
  }

  function StreamBulks(d: Str, n: nat): (r: StreamArgs)
    ensures r.ArgsRead? ==> |r.rest| <= |d| && |r.args| == n
    decreases n
  {
    if n == 0 then ArgsRead([], d)
    else
      match StreamBulk(d)
      case ArgEof => ArgsEof
      case ArgFailed(e) => ArgsFailed(e)
      case ArgCrash => ArgsCrash
      case ArgRead(arg, rest) => PrependRead([arg], StreamBulks(rest, n - 1))
  }

  function PrependRead(args: seq<Str>, r: StreamArgs): StreamArgs {
    if r.ArgsRead? then ArgsRead(args + r.args, r.rest) else r
  }

  /** ParseCommand */
  function ParseStream(d: Str): (r: StreamResult)
    ensures r.Read? ==> |r.rest| < |d|
  {
    var i := IndexLf(d);
    if i < 0 then Eof
    else
      var line := Trim(d[..i + 1]);
      if line == [] then Read(None, d[i + 1..])
      else if line[0] != STAR then Read(CommandOf(Fields(line)), d[i + 1..])
      else
        match ScanInt(line[1..])
        case None => Failed(InvalidArrayLength)
        case Some(n) =>
          if n > MAX_ARGS then Failed(TooManyArguments)
          else if n < 0 then Crash
          else
            match StreamBulks(d[i + 1..], n)
            case ArgsEof => Eof
            case ArgsFailed(e) => Failed(e)
            case ArgsCrash => Crash
            case ArgsRead(args, rest) => Read(CommandOf(args), rest)
  }

  // ---------- A result stands when more bytes arrive ----------

  lemma BulkExtend(d: Str, x: Str)
    requires !ParseBulk(d).BulkMore?
    ensures ParseBulk(d + x) == ParseBulk(d)
  {
    CrlfExtend(d, x);
    var end := IndexCrlf(d);
    assert (d + x)[1..end] == d[1..end];
    match ScanInt(d[1..end])
    case None =>
    case Some(n) =>
      if 0 <= n <= MAX_BULK {
        assert (d + x)[end + 2..end + 2 + n] == d[end + 2..end + 2 + n];
      }
  }

  /** One round of the argument loop. */
  lemma ArgsStep(d: Str, n: nat)
    ensures n == 0 ==> ParseArgs(d, n) == ArgsDone([], 0)
    ensures n > 0 ==> ParseArgs(d, n) == match ParseBulk(d)
      case BulkMore => ArgsMore
      case BulkBad(e) => ArgsBad(e)
      case BulkFault => ArgsFault
      case BulkDone(arg, used) => Prepend([arg], used, ParseArgs(d[used..], n - 1))
  {
  }

  lemma {:induction false} ArgsExtend(d: Str, n: nat, x: Str)
    requires !ParseArgs(d, n).ArgsMore?
    ensures ParseArgs(d + x, n) == ParseArgs(d, n)
    decreases n
  {
    hide ParseBulk, ParseArgs;
    ArgsStep(d, n);
    ArgsStep(d + x, n);
    if n > 0 {
      BulkExtend(d, x);
      var b := ParseBulk(d);
      if b.BulkDone? {
        assert (d + x)[b.used..] == d[b.used..] + x;
        ArgsExtend(d[b.used..], n - 1, x);
      }
    }
  }

  /** Anything but "incomplete" is final: appending bytes does not change it. */
  lemma ParseExtend(d: Str, x: Str)
    requires !ParseBytes(d).Incomplete?
    ensures ParseBytes(d + x) == ParseBytes(d)
  {
    hide ParseArgs, ScanInt, Trim, Fields;
    CrlfExtend(d, x);
    var end := IndexCrlf(d);
    if d[0] == STAR {
      assert (d + x)[1..end] == d[1..end];
      match ScanInt(d[1..end])
      case None =>
      case Some(n) =>
        if 0 <= n <= MAX_ARGS {
          assert (d + x)[end + 2..] == d[end + 2..] + x;
          ArgsExtend(d[end + 2..], n, x);
        }
    } else {
      assert (d + x)[..end] == d[..end];
    }
  }

  // ---------- Round trip ----------

  lemma BulkShape(arg: Str, tail: Str)
    ensures Bulk(arg) + tail == Header(DOLLAR, |arg|) + (arg + CRLF + tail)
    ensures |Bulk(arg)| == |Header(DOLLAR, |arg|)| + |arg| + 2
    ensures var body := arg + CRLF + tail;
      body[..|arg|] == arg && body[|arg|] == CR && body[|arg| + 1] == LF && body[|arg| + 2..] == tail
  {
    assert (arg + CRLF + tail)[|arg| + 2..] == tail;
  }

  lemma ParseBulkOf(arg: Str, tail: Str)
    requires |arg| <= MAX_BULK
    ensures ParseBulk(Bulk(arg) + tail) == BulkDone(arg, |Bulk(arg)|)
  {
    hide Header, ScanInt, IndexCrlf;
    var h, d, body := Header(DOLLAR, |arg|), Bulk(arg) + tail, arg + CRLF + tail;
    BulkShape(arg, tail);
    HeaderInBytes(DOLLAR, |arg|, body);
    assert d[|h|..|h| + |arg|] == arg;
  }

  lemma StreamBulkOf(arg: Str, tail: Str)
    requires |arg| <= MAX_BULK
    ensures StreamBulk(Bulk(arg) + tail) == ArgRead(arg, tail)
  {
    hide Header, ScanInt, IndexLf, Trim;
    BulkShape(arg, tail);
    HeaderInStream(DOLLAR, |arg|, arg + CRLF + tail);
  }

  lemma BulksNil(tail: Str)
    ensures Bulks([]) == [] && Bulks([]) + tail == tail
  {
  }

  lemma BulksCons(args: seq<Str>, tail: Str)
    requires args != []
    ensures Bulks(args) + tail == Bulk(args[0]) + (Bulks(args[1..]) + tail)
    ensures |Bulks(args)| == |Bulk(args[0])| + |Bulks(args[1..])|
  {
    hide Bulk;
  }

  lemma {:induction false} ParseBulksOf(args: seq<Str>, tail: Str)
    requires forall a :: a in args ==> |a| <= MAX_BULK
    ensures ParseArgs(Bulks(args) + tail, |args|) == ArgsDone(args, |Bulks(args)|)
    decreases |args|
  {
    hide Bulk, Bulks, ParseBulk, ParseArgs;
    ArgsStep(Bulks(args) + tail, |args|);
    if args == [] {
      BulksNil(tail);
    } else {
      var rest := Bulks(args[1..]) + tail;
      BulksCons(args, tail);
      ParseBulkOf(args[0], rest);
      ParseBulksOf(args[1..], tail);
      assert (Bulk(args[0]) + rest)[|Bulk(args[0])|..] == rest;
      assert args == [args[0]] + args[1..];
    }
  }

  lemma NoArguments(d: Str)
    ensures StreamBulks(d, 0) == ArgsRead([], d)
  {
  }

  lemma {:induction false} StreamBulksOf(args: seq<Str>, tail: Str)
    requires forall a :: a in args ==> |a| <= MAX_BULK
    ensures StreamBulks(Bulks(args) + tail, |args|) == ArgsRead(args, tail)
    decreases |args|
  {
    hide Bulk, Bulks, StreamBulk, StreamBulks;
    if args == [] {
      BulksNil(tail);
      NoArguments(tail);
    } else {
      var rest := Bulks(args[1..]) + tail;
      BulksCons(args, tail);
      StreamBulkOf(args[0], rest);
      StreamRound(Bulk(args[0]) + rest, |args|, args[0], rest);
      StreamBulksOf(args[1..], tail);
      assert args == [args[0]] + args[1..];
    }
  }

  /**
   * Round trip and agreement: on the printed form of any in-limit arguments,
   * followed by anything, both parsers return the same command and stop exactly
   * at the end of the printed form.
   */
  lemma RoundTrip(args: seq<Str>, tail: Str)
    requires InLimits(args)
    ensures ParseBytes(Encode(args) + tail) == Parsed(Some(ToCommand(args)), |Encode(args)|)
    ensures ParseStream(Encode(args) + tail) == Read(Some(ToCommand(args)), tail)
  {
    hide Header, ScanInt, IndexLf, IndexCrlf, Trim, Bulks, ParseArgs, StreamBulks;
    var body := Bulks(args) + tail;
    assert Encode(args) + tail == Header(STAR, |args|) + body;
    HeaderInBytes(STAR, |args|, body);
    HeaderInStream(STAR, |args|, body);
    ParseBulksOf(args, tail);
    StreamBulksOf(args, tail);
  }

  /** On every strict prefix of the printed form the byte parser waits for more. */
  lemma PrefixIncomplete(args: seq<Str>, k: nat)
    requires InLimits(args) && k < |Encode(args)|
    ensures ParseBytes(Encode(args)[..k]) == Incomplete
  {
    hide Encode;
    var e := Encode(args);
    RoundTrip(args, []);
    assert e + [] == e == e[..k] + e[k..];
    if !ParseBytes(e[..k]).Incomplete? {
      ParseExtend(e[..k], e[k..]);
    }
  }

  const NULL_BULK: Str := [DOLLAR, MINUS, 49, CR, LF]

  lemma NullBulkHeader(tail: Str)
    ensures var d := NULL_BULK + tail;
      && IndexCrlf(d) == 3 && IndexLf(d) == 4 && d[5..] == tail
      && d[1..3] == [MINUS, 49] && Trim(d[..5]) == [DOLLAR, MINUS, 49]
  {
    var d := NULL_BULK + tail;
    assert CrlfAt(d, 3) && !CrlfAt(d, 0) && !CrlfAt(d, 1) && !CrlfAt(d, 2);
    assert d[4] == LF && d[0] != LF && d[1] != LF && d[2] != LF && d[3] != LF;
    var t: Str := [DOLLAR, MINUS, 49];
    assert d[..5] == t + [CR, LF];
    assert TrimRight(t) == t;
    assert (t + [CR])[..3] == t && TrimRight(t + [CR]) == t;
    assert (t + [CR, LF])[..4] == t + [CR];
  }

  lemma ScanMinusOne()
    ensures ScanInt([MINUS, 49]) == Some(-1)
  {
    var d: Str := [49];
    assert [MINUS, 49][1..] == d;
    AllDigitsLead(d);
    assert d[..0] == [];
    assert Value(d) == 1;
  }

  /** Both parsers take a null bulk string for an empty argument. */
  lemma NullBulkIsEmpty(tail: Str)
    ensures ParseBulk(NULL_BULK + tail) == BulkDone([], |NULL_BULK|)
    ensures StreamBulk(NULL_BULK + tail) == ArgRead([], tail)
  {
    NullBulkHeader(tail);
    ScanMinusOne();
    assert [DOLLAR, MINUS, 49][1..] == [MINUS, 49];
    hide ScanInt, IndexCrlf, IndexLf, Trim;
  }

  // ---------- The two bytes after an argument ----------

  /**
   * The byte parser does not look at them; the stream parser takes the argument if
   * and only if they are CR LF.
   */
  lemma BulkTerminator(n: nat, body: Str)
    requires n <= MAX_BULK && |body| >= n + 2
    ensures var h := Header(DOLLAR, n);
      && ParseBulk(h + body) == BulkDone(body[..n], |h| + n + 2)
      && StreamBulk(h + body)
         == if body[n..n + 2] == CRLF then ArgRead(body[..n], body[n + 2..]) else ArgFailed(BadTermination)
  {
    hide Header, ScanInt, IndexCrlf, IndexLf, Trim;
    var h := Header(DOLLAR, n);
    HeaderInBytes(DOLLAR, n, body);
    HeaderInStream(DOLLAR, n, body);
    assert (h + body)[|h|..|h| + n] == body[..n];
    assert body[n..n + 2] == [body[n], body[n + 1]];
  }

  /** Bulk strings with these ends in place of CR LF. */
  function BulksEnding(args: seq<Str>, ends: seq<Str>): Str
    requires |ends| == |args|
  {
    if args == [] then []
    else Header(DOLLAR, |args[0]|) + (args[0] + ends[0] + BulksEnding(args[1..], ends[1..]))
  }

  lemma BulksEndingShape(args: seq<Str>, ends: seq<Str>, tail: Str)
    requires args != [] && |ends| == |args|
    ensures var h, rest := Header(DOLLAR, |args[0]|), BulksEnding(args[1..], ends[1..]);
      && BulksEnding(args, ends) + tail == h + (args[0] + ends[0] + (rest + tail))
      && |BulksEnding(args, ends)| == |h| + |args[0]| + |ends[0]| + |rest|
  {
    hide Header;
  }

  /** The first argument of such a list, for both parsers. */
  lemma BulksEndingCons(args: seq<Str>, ends: seq<Str>, tail: Str)
    requires args != [] && |ends| == |args| && |args[0]| <= MAX_BULK && |ends[0]| == 2
    ensures var d := BulksEnding(args, ends) + tail;
      var used := |Header(DOLLAR, |args[0]|)| + |args[0]| + 2;
      var rest := BulksEnding(args[1..], ends[1..]) + tail;
      && |BulksEnding(args, ends)| == used + |BulksEnding(args[1..], ends[1..])|
      && |d| >= used && d[used..] == rest
      && ParseBulk(d) == BulkDone(args[0], used)
      && StreamBulk(d) == if ends[0] == CRLF then ArgRead(args[0], rest) else ArgFailed(BadTermination)
  {
    hide Header, ParseBulk, StreamBulk, BulksEnding;
    var h, a, e := Header(DOLLAR, |args[0]|), args[0], ends[0];
    var rest := BulksEnding(args[1..], ends[1..]) + tail;
    var body := a + e + rest;
    BulksEndingShape(args, ends, tail);
    assert body[..|a|] == a && body[|a|..|a| + 2] == e && body[|a| + 2..] == rest;
    BulkTerminator(|a|, body);
  }

  predicate WellEnded(ends: seq<Str>) {
    forall i :: 0 <= i < |ends| ==> ends[i] == CRLF
  }

  lemma WellEndedCons(ends: seq<Str>)
    requires ends != []
    ensures WellEnded(ends) <==> ends[0] == CRLF && WellEnded(ends[1..])
  {
    if WellEnded(ends[1..]) && ends[0] == CRLF {
      forall i | 0 <= i < |ends| ensures ends[i] == CRLF {
        assert i > 0 ==> ends[i] == ends[1..][i - 1];
      }
    }
  }

  /** One round of the byte parser's loop. */
  lemma ArgsRound(d: Str, n: nat, arg: Str, used: nat, args: seq<Str>, more: nat)
    requires n > 0 && used <= |d| && ParseBulk(d) == BulkDone(arg, used)
    requires ParseArgs(d[used..], n - 1) == ArgsDone(args, more)
    ensures ParseArgs(d, n) == ArgsDone([arg] + args, used + more)
  {
  }

  /** One round of the stream parser's loop. */
  lemma StreamRound(d: Str, n: nat, arg: Str, rest: Str)
    requires n > 0 && StreamBulk(d) == ArgRead(arg, rest)
    ensures StreamBulks(d, n) == PrependRead([arg], StreamBulks(rest, n - 1))
  {
  }

  lemma StreamBadRound(d: Str, n: nat)
    requires n > 0 && StreamBulk(d) == ArgFailed(BadTermination)
    ensures StreamBulks(d, n) == ArgsFailed(BadTermination)
  {
  }

  lemma BulksEndingNil(tail: Str)
    ensures BulksEnding([], []) + tail == tail
    ensures |BulksEnding([], [])| == 0 && ParseArgs(tail, 0) == ArgsDone([], 0)
    ensures StreamBulks(tail, 0) == ArgsRead([], tail) && WellEnded([])
  {
  }

  lemma {:induction false} BulksTerminators(args: seq<Str>, ends: seq<Str>, tail: Str)
    requires |ends| == |args| && (forall e :: e in ends ==> |e| == 2)
    requires forall a :: a in args ==> |a| <= MAX_BULK
    ensures ParseArgs(BulksEnding(args, ends) + tail, |args|) == ArgsDone(args, |BulksEnding(args, ends)|)
    ensures StreamBulks(BulksEnding(args, ends) + tail, |args|)
      == if WellEnded(ends) then ArgsRead(args, tail) else ArgsFailed(BadTermination)
    decreases |args|
  {
    hide BulksEnding, ParseBulk, StreamBulk, Header, ParseArgs, StreamBulks, WellEnded;
    if args == [] {
      BulksEndingNil(tail);
    } else {
      var d, rest := BulksEnding(args, ends) + tail, BulksEnding(args[1..], ends[1..]) + tail;
      var used := |Header(DOLLAR, |args[0]|)| + |args[0]| + 2;
      BulksEndingCons(args, ends, tail);
      BulksTerminators(args[1..], ends[1..], tail);
      ArgsRound(d, |args|, args[0], used, args[1..], |BulksEnding(args[1..], ends[1..])|);
      WellEndedCons(ends);
      assert args == [args[0]] + args[1..];
      if ends[0] == CRLF {
        StreamRound(d, |args|, args[0], rest);
      } else {
        StreamBadRound(d, |args|);
      }
    }
  }

  /**
   * Where the parsers part: of an array whose arguments end in any two bytes, the
   * byte parser reads the command; the stream parser reads the same command if and
   * only if every argument ends in CR LF, and fails otherwise.
   */
  lemma TerminatorsMatter(args: seq<Str>, ends: seq<Str>, tail: Str)
    requires InLimits(args) && |ends| == |args| && (forall e :: e in ends ==> |e| == 2)
    ensures var d := Header(STAR, |args|) + BulksEnding(args, ends);
      && ParseBytes(d + tail) == Parsed(Some(ToCommand(args)), |d|)
      && ParseStream(d + tail)
         == if WellEnded(ends) then Read(Some(ToCommand(args)), tail)
            else Failed(BadTermination)
  {
    hide Header, ScanInt, IndexLf, IndexCrlf, Trim, BulksEnding, ParseArgs, StreamBulks, WellEnded;
    var h, body := Header(STAR, |args|), BulksEnding(args, ends) + tail;
    assert h + BulksEnding(args, ends) + tail == h + body;
    HeaderInBytes(STAR, |args|, body);
    HeaderInStream(STAR, |args|, body);
    BulksTerminators(args, ends, tail);
  }
}
