/** The loops of pkg/protocol, proved against the functions of `Resp`. */
module RespCode {
  import opened Bytes
  import opened Text
  import opened Resp

  /** indexCRLF */
  method ScanCrlf(b: Str) returns (r: int)
    ensures r == IndexCrlf(b)
  {
    var i := 0;
    while i + 1 < |b|
      invariant 0 <= i && (i <= |b| - 1 || i == 0)
      invariant forall j :: 0 <= j < i ==> !CrlfAt(b, j)
    {
      if b[i] == CR && b[i + 1] == LF {
        assert CrlfAt(b, i);
        return i;
      }
      i := i + 1;
    }
    return -1;
  }

  /** WriteCommand's buffer */
  method WriteCommand(args: seq<Str>) returns (buf: Str)
    ensures buf == Encode(args)
  {
    hide Bulk, Header;
    buf := Header(STAR, |args|);
    for i := 0 to |args|
      invariant buf + Bulks(args[i..]) == Encode(args)
    {
      BulksCons(args[i..], []);
      assert args[i..][1..] == args[i + 1..];
      assert Bulks(args[i..]) == Bulk(args[i]) + Bulks(args[i + 1..]);
      buf := buf + Bulk(args[i]);
    }
    assert args[|args|..] == [];
    BulksNil([]);
  }

  /** ParseCommandFromBytes */
  method ParseCommandFromBytes(data: Str) returns (r: ParseResult)
    ensures r == ParseBytes(data)
  {
    if |data| == 0 {
      return Incomplete;
    }
    if data[0] == STAR {
      r := ParseRespArray(data);
    } else {
      r := ParseInlineLine(data);
    }
  }

  method ParseInlineLine(data: Str) returns (r: ParseResult)
    ensures r == ParseInline(data)
  {
    var idx := ScanCrlf(data);
    if idx < 0 {
      return Incomplete;
    }
    if idx > MAX_INLINE {
      return Invalid(InlineTooLong);
    }
    var line := Trim(data[..idx]);
    if line == [] {
      return Parsed(None, idx + 2);
    }
    var parts := Fields(line);
    if |parts| == 0 {
      return Parsed(None, idx + 2);
    }
    return Parsed(Some(Command(Upper(parts[0]), parts[1..])), idx + 2);
  }

  /** One round of the loop leaves the outcome of the whole loop unchanged. */
  lemma LoopStep(d: Str, n: nat, args: seq<Str>, used: nat)
    requires n > 0 && ParseBulk(d).BulkDone?
    ensures var b := ParseBulk(d);
      Prepend(args, used, ParseArgs(d, n))
        == Prepend(args + [b.arg], used + b.used, ParseArgs(d[b.used..], n - 1))
  {
    hide ParseBulk;
    var b := ParseBulk(d);
    var r := ParseArgs(d[b.used..], n - 1);
    if r.ArgsDone? {
      assert args + ([b.arg] + r.args) == args + [b.arg] + r.args;
    }
  }

  /** parseRESPArray */
  method ParseRespArray(data: Str) returns (r: ParseResult)
    requires data != [] && data[0] == STAR
    ensures r == ParseArray(data)
  {
    hide ParseArgs, ScanInt;
    var idx := ScanCrlf(data);
    if idx < 0 {
      return Incomplete;
    }
    var scanned := ScanInt(data[1..idx]);
    if scanned.None? {
      return Invalid(InvalidArrayLength);
    }
    var count := scanned.value;
    if count > MAX_ARGS {
      return Invalid(TooManyArguments);
    }
    if count < 0 {
      return Fault;
    }
    var outcome := ParseArgLoop(data, idx + 2, count);
    match outcome {
      case ArgsMore =>
        return Incomplete;
      case ArgsBad(e) =>
        return Invalid(e);
      case ArgsFault =>
        return Fault;
      case ArgsDone(args, used) =>
        if |args| == 0 {
          return Parsed(None, idx + 2 + used);
        }
        return Parsed(Some(Command(Upper(args[0]), args[1..])), idx + 2 + used);
    }
  }

  /** The argument loop of parseRESPArray (parser.go:156-183). */
  method ParseArgLoop(data: Str, start: nat, count: nat) returns (r: ArgsResult)
    requires start <= |data|
    ensures r == ParseArgs(data[start..], count)
  {
    hide ParseBulk;
    var pos := start;
    var args: seq<Str> := [];
    ghost var whole := ParseArgs(data[pos..], count);
    for i := 0 to count
      invariant start <= pos <= |data|
      invariant whole == Prepend(args, pos - start, ParseArgs(data[pos..], count - i))
    {
      var b := NextBulk(data, pos);
      match b {
        case BulkMore =>
          return ArgsMore;
        case BulkBad(e) =>
          return ArgsBad(e);
        case BulkFault =>
          return ArgsFault;
        case BulkDone(arg, used) =>
          LoopStep(data[pos..], count - i, args, pos - start);
          assert data[pos..][used..] == data[pos + used..];
          args := args + [arg];
          pos := pos + used;
      }
    }
    assert args + [] == args;
    return ArgsDone(args, pos - start);
  }

  /** The body of the argument loop at `pos` (parser.go:159-182). */
  method NextBulk(data: Str, pos: nat) returns (b: BulkResult)
    requires pos <= |data|
    ensures b == ParseBulk(data[pos..])
  {
    if pos >= |data| || data[pos] != DOLLAR {
      return BulkMore;
    }
    var lenEnd := ScanCrlf(data[pos..]);
    if lenEnd < 0 {
      return BulkMore;
    }
    assert data[pos + 1..pos + lenEnd] == data[pos..][1..lenEnd];
    var scanned := ScanInt(data[pos + 1..pos + lenEnd]);
    if scanned.None? {
      return BulkBad(InvalidBulkLength);
    }
    var blen := scanned.value;
    if blen > MAX_BULK {
      return BulkBad(BulkTooLarge);
    }
    var start := pos + lenEnd + 2;
    if blen == -1 {
      return BulkDone([], lenEnd + 2);
    }
    if blen < -1 {
      return BulkFault;
    }
    if start + blen + 2 > |data| {
      return BulkMore;
    }
    assert data[start..start + blen] == data[pos..][lenEnd + 2..lenEnd + 2 + blen];
    return BulkDone(data[start..start + blen], lenEnd + 2 + blen + 2);
  }

  // ---------- The stream parser ----------

  datatype FullRead = FullEof | FullShort | FullOk(data: Str)

  datatype Outcome = AtEof | Error(error: ParseError) | Crashed | Got(cmd: Option<Command>)

  function OutcomeOf(r: StreamResult): Outcome {
    match r
    case Eof => AtEof
    case Failed(e) => Error(e)
    case Crash => Crashed
    case Read(cmd, _) => Got(cmd)
  }

  /** A buffered reader over a finite file: what is left of it. */
  class Reader {
    var rest: Str

    constructor (content: Str)
      ensures rest == content
    {
      rest := content;
    }

    /** ReadString('\n'): a whole line, or io.EOF with nothing left */
    method ReadLine() returns (line: Option<Str>)
      modifies this
      ensures IndexLf(old(rest)) < 0 ==> line == None && rest == []
      ensures IndexLf(old(rest)) >= 0 ==>
        line == Some(old(rest)[..IndexLf(old(rest)) + 1]) && rest == old(rest)[IndexLf(old(rest)) + 1..]
    {
      var i := IndexLf(rest);
      if i < 0 {
        rest := [];
        return None;
      }
      line := Some(rest[..i + 1]);
      rest := rest[i + 1..];
    }

    /** io.ReadFull of n > 0 bytes */
    method ReadFull(n: nat) returns (r: FullRead)
      requires n > 0
      modifies this
      ensures |old(rest)| >= n ==> r == FullOk(old(rest)[..n]) && rest == old(rest)[n..]
      ensures |old(rest)| < n ==> rest == [] && r == if old(rest) == [] then FullEof else FullShort
    {
      if |rest| >= n {
        r := FullOk(rest[..n]);
        rest := rest[n..];
      } else {
        r := if rest == [] then FullEof else FullShort;
        rest := [];
      }
    }
  }

  lemma StreamLoopStep(d: Str, n: nat, args: seq<Str>)
    requires n > 0 && StreamBulk(d).ArgRead?
    ensures var b := StreamBulk(d);
      PrependRead(args, StreamBulks(d, n)) == PrependRead(args + [b.arg], StreamBulks(b.rest, n - 1))
  {
    hide StreamBulk;
    var b := StreamBulk(d);
    var r := StreamBulks(b.rest, n - 1);
    if r.ArgsRead? {
      assert args + ([b.arg] + r.args) == args + [b.arg] + r.args;
    }
  }

  /** ParseCommand */
  method ParseCommand(reader: Reader) returns (r: Outcome)
    modifies reader
    ensures r == OutcomeOf(ParseStream(old(reader.rest)))
    ensures ParseStream(old(reader.rest)).Read? ==> reader.rest == ParseStream(old(reader.rest)).rest
  {
    hide StreamBulk, ScanInt, Trim, Fields;
    var first := reader.ReadLine();
    if first.None? {
      return AtEof;
    }
    var line := Trim(first.value);
    if line == [] {
      return Got(None);
    }
    if line[0] != STAR {
      var parts := Fields(line);
      if |parts| == 0 {
        return Got(None);
      }
      return Got(Some(Command(Upper(parts[0]), parts[1..])));
    }
    var scanned := ScanInt(line[1..]);
    if scanned.None? {
      return Error(InvalidArrayLength);
    }
    var argc := scanned.value;
    if argc > MAX_ARGS {
      return Error(TooManyArguments);
    }
    if argc < 0 {
      return Crashed;
    }
    var args: seq<Str> := [];
    ghost var whole := StreamBulks(reader.rest, argc);
    for i := 0 to argc
      invariant |args| == i
      invariant whole == PrependRead(args, StreamBulks(reader.rest, argc - i))
    {
      ghost var before := reader.rest;
      var b := ReadBulk(reader);
      match b {
        case ArgEof =>
          return AtEof;
        case ArgFailed(e) =>
          return Error(e);
        case ArgCrash =>
          return Crashed;
        case ArgRead(arg, _) =>
          StreamLoopStep(before, argc - i, args);
          args := args + [arg];
      }
    }
    assert args + [] == args;
    if |args| == 0 {
      return Got(None);
    }
    return Got(Some(Command(Upper(args[0]), args[1..])));
  }

  /** The body of ParseCommand's loop (parser.go:61-93). */
  method ReadBulk(reader: Reader) returns (b: StreamArg)
    modifies reader
    ensures b == StreamBulk(old(reader.rest))
    ensures b.ArgRead? ==> reader.rest == b.rest
  {
    hide ScanInt, Trim;
    var header := reader.ReadLine();
    if header.None? {
      return ArgEof;
    }
    var t := Trim(header.value);
    if t == [] || t[0] != DOLLAR {
      return ArgFailed(InvalidBulkLength);
    }
    var scanned := ScanInt(t[1..]);
    if scanned.None? {
      return ArgFailed(InvalidBulkLength);
    }
    var length := scanned.value;
    if length > MAX_BULK {
      return ArgFailed(BulkTooLarge);
    }
    if length == -1 {
      return ArgRead([], reader.rest);
    }
    if length < -1 {
      return ArgCrash;
    }
    var full := reader.ReadFull(length + 2);
    match full {
      case FullEof =>
        return ArgEof;
      case FullShort =>
        return ArgFailed(UnexpectedEof);
      case FullOk(data) =>
        if data[length] != CR || data[length + 1] != LF {
          return ArgFailed(BadTermination);
        }
        return ArgRead(data[..length], reader.rest);
    }
  }
}
