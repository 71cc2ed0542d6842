/**
 * The append-only log (pkg/persistence/aof.go) as the bytes of its file, and
 * what is read back from it, whole or cut short by a crash.
 */
module AppendLog {
  import opened Bytes
  import opened Text
  import opened Resp
  import opened RespCode
  import opened Draining

  /** How reading ended: at the end of the file, with an error, or in a panic. */
  datatype LogRead = LogRead(cmds: seq<Command>, ended: Outcome)

  /** ReadCommands on a file with these bytes. */
  function ReadLog(d: Str): LogRead
    decreases |d|
  {
    match ParseStream(d)
    case Eof => LogRead([], AtEof)
    case Failed(e) => LogRead([], Error(e))
    case Crash => LogRead([], Crashed)
    case Read(cmd, rest) =>
      var r := ReadLog(rest);
      LogRead(Optional(cmd) + r.cmds, r.ended)
  }

  /** One round of reading. */
  lemma ReadLogStep(d: Str)
    ensures match ParseStream(d)
      case Eof => ReadLog(d) == LogRead([], AtEof)
      case Failed(e) => ReadLog(d) == LogRead([], Error(e))
      case Crash => ReadLog(d) == LogRead([], Crashed)
      case Read(cmd, rest) => ReadLog(d) == LogRead(Optional(cmd) + ReadLog(rest).cmds, ReadLog(rest).ended)
  {
  }

  function Optional(cmd: Option<Command>): seq<Command> {
    if cmd.Some? then [cmd.value] else []
  }

  /** The arguments logged for a command. */
  function Logged(cmd: Command): seq<Str> {
    [cmd.name] + cmd.args
  }

  class Aof {
    var content: Str

    constructor (content: Str)
      ensures this.content == content
    {
      this.content := content;
    }

    /** Write: one command is appended (and flushed) */
    method Write(cmd: Command)
      modifies this
      ensures content == old(content) + Encode(Logged(cmd))
    {
      var buf := WriteCommand([cmd.name] + cmd.args);
      content := content + buf;
    }

    /** ReadCommands: the commands handed to the callback, in order, and how it ended */
    method ReadCommands() returns (cmds: seq<Command>, ended: Outcome)
      ensures LogRead(cmds, ended) == ReadLog(content)
    {
      hide ParseStream, ReadLog;
      var reader := new Reader(content);
      cmds := [];
      while true
        invariant fresh(reader)
        invariant ReadLog(content) == LogRead(cmds + ReadLog(reader.rest).cmds, ReadLog(reader.rest).ended)
        decreases |reader.rest|
      {
        ghost var before := reader.rest;
        ReadLogStep(before);
        var r := ParseCommand(reader);
        match r {
          case Got(cmd) =>
            assert cmds + (Optional(cmd) + ReadLog(reader.rest).cmds)
              == cmds + Optional(cmd) + ReadLog(reader.rest).cmds;
            cmds := cmds + Optional(cmd);
          case _ =>
            assert cmds + [] == cmds;
            return cmds, r;
        }
      }
    }
  }

  // ---------- A log that was cut ----------

  /** The number of leading requests that lie wholly within the first `n` bytes. */
  function Whole(requests: seq<seq<Str>>, n: nat): (k: nat)
    ensures k <= |requests|
  {
    if requests == [] || n < |Encode(requests[0])| then 0
    else 1 + Whole(requests[1..], n - |Encode(requests[0])|)
  }

  /** Byte `k` of the printed arguments is inside an argument or its line end, not at its start. */
  predicate InsideArgument(args: seq<Str>, k: nat) {
    if args == [] then false
    else if k < |Bulk(args[0])| then k > |Header(DOLLAR, |args[0]|)|
    else InsideArgument(args[1..], k - |Bulk(args[0])|)
  }

  /** A cut at byte `n` leaves a torn argument behind. */
  predicate Torn(requests: seq<seq<Str>>, n: nat) {
    if requests == [] then false
    else if n < |Encode(requests[0])| then
      var h := |Header(STAR, |requests[0]|)|;
      n >= h && InsideArgument(requests[0], n - h)
    else Torn(requests[1..], n - |Encode(requests[0])|)
  }

  /** A header that is cut short has no line end yet. */
  lemma CutHeader(kind: Byte, n: nat, k: nat)
    requires IsKind(kind) && k < |Header(kind, n)|
    ensures IndexLf(Header(kind, n)[..k]) == -1
  {
    HeaderEnds(kind, n, []);
    var h := Header(kind, n);
    assert h + [] == h;
  }

  lemma CutBulk(arg: Str, k: nat)
    requires |arg| <= MAX_BULK && k < |Bulk(arg)|
    ensures StreamBulk(Bulk(arg)[..k])
      == if k > |Header(DOLLAR, |arg|)| then ArgFailed(UnexpectedEof) else ArgEof
  {
    hide Header, ScanInt, IndexLf, Trim;
    var h := Header(DOLLAR, |arg|);
    BulkShape(arg, []);
    assert Bulk(arg) + [] == Bulk(arg);
    if k < |h| {
      CutHeader(DOLLAR, |arg|, k);
      assert Bulk(arg)[..k] == h[..k];
    } else {
      var body := (arg + CRLF + [])[..k - |h|];
      assert Bulk(arg)[..k] == h + body;
      HeaderInStream(DOLLAR, |arg|, body);
    }
  }

  lemma {:induction false} CutBulks(args: seq<Str>, k: nat)
    requires forall a :: a in args ==> |a| <= MAX_BULK
    requires k < |Bulks(args)|
    ensures StreamBulks(Bulks(args)[..k], |args|)
      == if InsideArgument(args, k) then ArgsFailed(UnexpectedEof) else ArgsEof
    decreases |args|
  {
    hide Bulk, Bulks, StreamBulk, Header;
    if args == [] {
      BulksNil([]);
      assert false;
    }
    BulksCons(args, []);
    var b, rest := Bulk(args[0]), Bulks(args[1..]);
    assert Bulks(args) + [] == Bulks(args) && rest + [] == rest;
    if k < |b| {
      CutBulk(args[0], k);
      assert Bulks(args)[..k] == b[..k];
    } else {
      assert Bulks(args)[..k] == b + rest[..k - |b|];
      StreamBulkOf(args[0], rest[..k - |b|]);
      CutBulks(args[1..], k - |b|);
    }
  }

  lemma CutCommand(args: seq<Str>, k: nat)
    requires InLimits(args) && k < |Encode(args)|
    ensures ParseStream(Encode(args)[..k])
      == if Torn([args], k) then Failed(UnexpectedEof) else Eof
  {
    hide Header, ScanInt, IndexLf, Trim, Bulks, StreamBulks, InsideArgument;
    var h := Header(STAR, |args|);
    if k < |h| {
      CutHeader(STAR, |args|, k);
      assert Encode(args)[..k] == h[..k];
    } else {
      var body := Bulks(args)[..k - |h|];
      assert Encode(args)[..k] == h + body;
      HeaderInStream(STAR, |args|, body);
      CutBulks(args, k - |h|);
    }
  }

  /**
   * Log truncation: from a log of in-limit commands cut at any byte, exactly the
   * commands wholly before the cut are read back, in order, none partial or
   * altered; reading ends with an error if and only if the cut tore an argument.
   */
  lemma {:induction false} TruncatedLog(requests: seq<seq<Str>>, n: nat)
    requires forall r :: r in requests ==> InLimits(r)
    requires n <= |Stream(requests)|
    ensures var k := Whole(requests, n);
      && (forall r :: r in requests[..k] ==> InLimits(r))
      && ReadLog(Stream(requests)[..n])
         == LogRead(Commands(requests[..k]), if Torn(requests, n) then Error(UnexpectedEof) else AtEof)
    decreases |requests|
  {
    hide ParseStream, Encode, ReadLog, Commands, Whole, Torn, Stream, InLimits;
    if requests == [] {
      NothingCut(n);
    } else {
      assert InLimits(requests[0]);
      if n < |Encode(requests[0])| {
        CutInFirst(requests, n);
      } else {
        CutLater(requests, n);
        var m := n - |Encode(requests[0])|;
        var rest := Stream(requests[1..])[..m];
        TruncatedLog(requests[1..], m);
        RoundTrip(requests[0], rest);
        ReadLogStep(Encode(requests[0]) + rest);
        CommandsCons(requests, Whole(requests, n));
      }
    }
  }

  lemma NothingCut(n: nat)
    requires n <= |Stream([])|
    ensures Whole([], n) == 0 && !Torn([], n) && Commands([]) == []
    ensures ReadLog(Stream([])[..n]) == LogRead([], AtEof)
  {
    ReadNothing();
    assert Stream([])[..n] == [];
  }

  /** A cut inside the first command. */
  lemma CutInFirst(requests: seq<seq<Str>>, n: nat)
    requires requests != [] && InLimits(requests[0]) && n < |Encode(requests[0])| && n <= |Stream(requests)|
    ensures Whole(requests, n) == 0 && Commands(requests[..0]) == []
    ensures ReadLog(Stream(requests)[..n]) == LogRead([], if Torn(requests, n) then Error(UnexpectedEof) else AtEof)
  {
    hide ParseStream, Encode, InsideArgument, Header, InLimits, ReadLog;
    var e := Encode(requests[0]);
    assert Stream(requests)[..n] == e[..n] && requests[..0] == [];
    CutCommand(requests[0], n);
    ReadLogStep(e[..n]);
    assert [requests[0]][0] == requests[0];
  }

  /** A cut after the first command. */
  lemma CutLater(requests: seq<seq<Str>>, n: nat)
    requires requests != [] && |Encode(requests[0])| <= n <= |Stream(requests)|
    ensures var m := n - |Encode(requests[0])|;
      && m <= |Stream(requests[1..])|
      && Stream(requests)[..n] == Encode(requests[0]) + Stream(requests[1..])[..m]
      && Whole(requests, n) == 1 + Whole(requests[1..], m)
      && Torn(requests, n) == Torn(requests[1..], m)
  {
    hide Encode, InsideArgument, Header;
  }

  /** The first command of the first `k`. */
  lemma CommandsCons(requests: seq<seq<Str>>, k: nat)
    requires (forall r :: r in requests ==> InLimits(r)) && 0 < k <= |requests| && InLimits(requests[0])
    ensures forall r :: r in requests[..k] ==> InLimits(r)
    ensures forall r :: r in requests[1..][..k - 1] ==> InLimits(r)
    ensures Commands(requests[..k]) == [ToCommand(requests[0])] + Commands(requests[1..][..k - 1])
  {
    assert requests[..k][1..] == requests[1..][..k - 1];
  }

  lemma ReadNothing()
    ensures ReadLog([]) == LogRead([], AtEof)
  {
    assert IndexLf([]) == -1;
  }

  /** An intact log reads back completely and without error. */
  lemma IntactLog(requests: seq<seq<Str>>)
    requires forall r :: r in requests ==> InLimits(r)
    ensures ReadLog(Stream(requests)) == LogRead(Commands(requests), AtEof)
  {
    var d := Stream(requests);
    TruncatedLog(requests, |d|);
    WholeAll(requests);
    assert d[..|d|] == d && requests[..|requests|] == requests;
  }

  lemma {:induction false} WholeAll(requests: seq<seq<Str>>)
    ensures Whole(requests, |Stream(requests)|) == |requests|
    ensures !Torn(requests, |Stream(requests)|)
    decreases |requests|
  {
    if requests != [] {
      WholeAll(requests[1..]);
    }
  }
}
