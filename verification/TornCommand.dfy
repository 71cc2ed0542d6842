/**
 * A printed command that was cut in its headers and is followed by another one: what the
 * stream parser (pkg/protocol/parser.go:24-104) makes of the two.
 */
module TornCommands {
  import opened Bytes
  import opened Text
  import opened Resp
  import opened AppendLog
  import opened Restart

  /** The first bytes of every logged SET. */
  const START: Str := [STAR, 51, CR, LF]

  lemma StartIsHeader()
    ensures Header(STAR, 3) == START
  {
    assert Dec(3) == [51];
  }

  // ---------- Part of a header and then an appended command ----------

  /** A partial line and the start of an appended command look like one line. */
  lemma JoinedLine(p: Str, rest: Str)
    requires p != [] && !IsSpace(p[0]) && LF !in p
    ensures var d := p + (START + rest); var t := Trim(d[..|p| + 4]);
      && IndexLf(d) == |p| + 3 && d[|p| + 4..] == rest
      && t == p + [STAR, 51] && t[0] == p[0] && t[1..] == p[1..] + [STAR, 51]
  {
    var d, t := p + (START + rest), p + [STAR, 51];
    assert forall i :: 0 <= i < |p| ==> d[i] == p[i] && p[i] in p;
    assert d[|p|] == STAR && d[|p| + 1] == 51 && d[|p| + 2] == CR && d[|p| + 3] == LF;
    assert IndexLf(d) == |p| + 3;
    assert d[..|p| + 4] == t + CRLF;
    TrimLine(t);
  }

  /** Digits followed by something else scan as the number they form. */
  lemma ScanPrefix(d: Str, x: Str)
    requires d != [] && (forall i :: 0 <= i < |d| ==> IsDigit(d[i])) && Value(d) < INT64_LIMIT
    requires x == [] || !IsDigit(x[0])
    ensures ScanInt(d + x) == Some(Value(d))
  {
    DigitsLead(d, x);
    assert IsDigit(d[0]) && (d + x)[0] == d[0];
  }

  lemma ScanStar()
    ensures ScanInt([STAR, 51]) == None
  {
  }

  /** What the arguments of a command make of it. */
  function ToResult(r: StreamArgs): StreamResult {
    match r
    case ArgsEof => Eof
    case ArgsFailed(e) => Failed(e)
    case ArgsCrash => Crash
    case ArgsRead(args, rest) => Read(CommandOf(args), rest)
  }

  /** The stream parser on an array line it has found and scanned. */
  lemma ParseByLine(d: Str, i: nat, n: nat)
    requires IndexLf(d) == i && n <= MAX_ARGS
    requires var t := Trim(d[..i + 1]); t != [] && t[0] == STAR && ScanInt(t[1..]) == Some(n)
    ensures ParseStream(d) == ToResult(StreamBulks(d[i + 1..], n))
  {
    hide ScanInt, IndexLf, Trim, StreamBulks, CommandOf, Fields;
  }

  // ---------- A cut inside the array header ----------

  lemma ScanTorn(m: nat)
    requires 1 <= m <= 3
    ensures ScanInt(START[..m][1..] + [STAR, 51]) == if m == 1 then None else Some(3)
  {
    var d: Str := [51];
    assert d[..0] == [] && Value(d) == 3;
    if m == 1 {
      assert START[..m][1..] + [STAR, 51] == [STAR, 51];
      ScanStar();
    } else if m == 2 {
      assert START[..m][1..] + [STAR, 51] == d + [STAR, 51];
      ScanPrefix(d, [STAR, 51]);
    } else {
      assert START[..m] == [STAR, 51, CR];
      assert START[..m][1..] + [STAR, 51] == d + [CR, STAR, 51];
      ScanPrefix(d, [CR, STAR, 51]);
    }
  }

  lemma ParseTornHeader(m: nat, args: seq<Str>, tail: Str)
    requires 1 <= m <= 3 && InLimits(args) && |args| == 3
    ensures ParseStream(START[..m] + (Encode(args) + tail))
      == if m == 1 then Failed(InvalidArrayLength) else Read(Some(ToCommand(args)), tail)
  {
    hide Header, ScanInt, IndexLf, Trim, Bulks, StreamBulks, ParseStream;
    StartIsHeader();
    var body := Bulks(args) + tail;
    assert Encode(args) + tail == START + body;
    assert LF !in START[..m];
    JoinedLine(START[..m], body);
    ScanTorn(m);
    var d := START[..m] + (START + body);
    if m == 1 {
      ParseNoLength(d, m + 3);
    } else {
      ParseByLine(d, m + 3, 3);
      StreamBulksOf(args, tail);
    }
  }

  lemma ParseNoLength(d: Str, i: nat)
    requires IndexLf(d) == i
    requires var t := Trim(d[..i + 1]); t != [] && t[0] == STAR && ScanInt(t[1..]) == None
    ensures ParseStream(d) == Failed(InvalidArrayLength)
  {
    hide ScanInt, IndexLf, Trim;
  }

  // ---------- A cut inside the header of an argument ----------

  /** What the stream parser takes for an argument of `n` bytes. */
  function Take(n: nat, body: Str): StreamArg {
    if body == [] then ArgEof
    else if |body| < n + 2 then ArgFailed(UnexpectedEof)
    else if body[n..n + 2] != CRLF then ArgFailed(BadTermination)
    else ArgRead(body[..n], body[n + 2..])
  }

  /** The length that is read from the first `q` bytes of the header of an argument. */
  function Survived(len: nat, q: nat): nat
    requires q >= 1
  {
    Value(Dec(len)[..if q <= |Dec(len)| then q - 1 else |Dec(len)|])
  }

  lemma {:induction false} PrefixValue(n: nat, i: nat)
    requires i <= |Dec(n)|
    ensures Value(Dec(n)[..i]) <= n
  {
    if i == |Dec(n)| {
      assert Dec(n)[..i] == Dec(n);
      ValueOfDec(n);
    } else if n < 10 {
      assert Dec(n)[..i] == [];
    } else {
      assert Dec(n)[..i] == Dec(n / 10)[..i];
      PrefixValue(n / 10, i);
    }
  }

  /** The first `q` bytes of such a header: the dollar sign, digits and perhaps the CR. */
  lemma HeaderPart(len: nat, q: nat)
    requires 1 < q < |Header(DOLLAR, len)|
    ensures var p := Header(DOLLAR, len)[..q]; var i := if q <= |Dec(len)| then q - 1 else |Dec(len)|;
      && p[0] == DOLLAR && LF !in p
      && p[1..] == Dec(len)[..i] + (if q == |Dec(len)| + 2 then [CR] else [])
  {
    var d, p := Dec(len), Header(DOLLAR, len)[..q];
    assert p == if q == |d| + 2 then [DOLLAR] + d + [CR] else [DOLLAR] + d[..q - 1];
    forall i | 0 <= i < |p| ensures p[i] != LF {
      if 0 < i <= |d| {
        assert p[i] == d[i - 1] && IsDigit(d[i - 1]);
      }
    }
  }

  lemma ScanPart(len: nat, q: nat)
    requires len <= MAX_BULK && 1 < q < |Header(DOLLAR, len)|
    ensures ScanInt(Header(DOLLAR, len)[..q][1..] + [STAR, 51]) == Some(Survived(len, q))
  {
    var i := if q <= |Dec(len)| then q - 1 else |Dec(len)|;
    var d := Dec(len)[..i];
    HeaderPart(len, q);
    PrefixValue(len, i);
    hide Header, Value;
    if q == |Dec(len)| + 2 {
      assert d + [CR] + [STAR, 51] == d + [CR, STAR, 51];
      ScanPrefix(d, [CR, STAR, 51]);
    } else {
      assert d + [] + [STAR, 51] == d + [STAR, 51];
      ScanPrefix(d, [STAR, 51]);
    }
  }

  /** A round of the stream parser on a line it has found and scanned. */
  lemma BulkByLine(d: Str, i: nat, n: Option<int>)
    requires IndexLf(d) == i
    requires var t := Trim(d[..i + 1]); t != [] && t[0] == DOLLAR && ScanInt(t[1..]) == n
    ensures n.None? ==> StreamBulk(d) == ArgFailed(InvalidBulkLength)
    ensures n.Some? && 0 <= n.value <= MAX_BULK ==> StreamBulk(d) == Take(n.value, d[i + 1..])
  {
    hide ScanInt, IndexLf, Trim;
    if n.Some? && 0 <= n.value <= MAX_BULK {
      TakeIsRest(n.value, d[i + 1..]);
    }
  }

  /** `Take` is the last part of that round. */
  lemma TakeIsRest(n: nat, body: Str)
    ensures Take(n, body)
      == if body == [] then ArgEof
         else if |body| < n + 2 then ArgFailed(UnexpectedEof)
         else if body[n] != CR || body[n + 1] != LF then ArgFailed(BadTermination)
         else ArgRead(body[..n], body[n + 2..])
  {
    if |body| >= n + 2 {
      assert body[n..n + 2] == [body[n], body[n + 1]];
    }
  }

  lemma CutAfterDollar(len: nat, rest: Str)
    ensures StreamBulk(Header(DOLLAR, len)[..1] + (START + rest)) == ArgFailed(InvalidBulkLength)
  {
    var p := Header(DOLLAR, len)[..1];
    assert p == [DOLLAR] && p[1..] + [STAR, 51] == [STAR, 51];
    ScanStar();
    JoinedLine(p, rest);
    hide Header, ScanInt, IndexLf, Trim, StreamBulk;
    BulkByLine(p + (START + rest), 4, None);
  }

  lemma CutInDigits(len: nat, q: nat, rest: Str)
    requires len <= MAX_BULK && 1 < q < |Header(DOLLAR, len)|
    ensures StreamBulk(Header(DOLLAR, len)[..q] + (START + rest)) == Take(Survived(len, q), rest)
  {
    var p := Header(DOLLAR, len)[..q];
    HeaderPart(len, q);
    ScanPart(len, q);
    PrefixValue(len, if q <= |Dec(len)| then q - 1 else |Dec(len)|);
    JoinedLine(p, rest);
    hide Header, ScanInt, IndexLf, Trim, StreamBulk, Take;
    BulkByLine(p + (START + rest), q + 3, Some(Survived(len, q)));
  }

  lemma CutAfterHeader(len: nat, body: Str)
    requires len <= MAX_BULK
    ensures StreamBulk(Header(DOLLAR, len) + body) == Take(len, body)
  {
    var h := Header(DOLLAR, len);
    HeaderInStream(DOLLAR, len, body);
    hide Header, ScanInt, IndexLf, Trim, StreamBulk, Take;
    BulkByLine(h + body, |h| - 1, Some(len));
  }

  lemma SurvivedWhole(len: nat)
    ensures Survived(len, |Header(DOLLAR, len)|) == len
  {
    assert Dec(len)[..|Dec(len)|] == Dec(len);
    ValueOfDec(len);
  }

  /** Where the contents of the cut argument are taken from. */
  function TakenFrom(len: nat, q: nat, s: Str): Str
    requires |s| >= 4
  {
    if q < |Header(DOLLAR, len)| then s[4..] else s
  }

  /**
   * A header cut after `q` bytes and then an appended command. Without a digit the read
   * fails. Otherwise the digits that survived decide how many bytes are taken, from
   * behind the joined line or, after a whole header, from the appended command itself.
   */
  lemma CutHeaderReads(len: nat, q: nat, rest: Str)
    requires len <= MAX_BULK && q <= |Header(DOLLAR, len)|
    ensures StreamBulk(Header(DOLLAR, len)[..q] + (START + rest))
      == if q <= 1 then ArgFailed(InvalidBulkLength)
         else Take(Survived(len, q), TakenFrom(len, q, START + rest))
  {
    var h := Header(DOLLAR, len);
    assert (START + rest)[4..] == rest;
    if q == 0 {
      assert h[..0] + (START + rest) == START + rest;
      ArrayForArgument(rest);
    } else if q == 1 {
      CutAfterDollar(len, rest);
    } else if q < |h| {
      CutInDigits(len, q, rest);
    } else {
      assert h[..q] == h;
      SurvivedWhole(len);
      CutAfterHeader(len, START + rest);
    }
  }

  /** A command where an argument should be. */
  lemma ArrayForArgument(rest: Str)
    ensures StreamBulk(START + rest) == ArgFailed(InvalidBulkLength)
  {
    StartIsHeader();
    HeaderInStream(STAR, 3, rest);
    hide Header, ScanInt, Trim, IndexLf;
  }

  // ---------- The argument in which the log was cut ----------

  /** The whole arguments before the cut are read as they were written. */
  lemma {:induction false} BulksThen(args: seq<Str>, i: nat, x: Str)
    requires i <= |args| && forall a :: a in args ==> |a| <= MAX_BULK
    ensures StreamBulks(Bulks(args[..i]) + x, |args|) == PrependRead(args[..i], StreamBulks(x, |args| - i))
    decreases i
  {
    hide Bulk, Bulks, StreamBulk, StreamBulks;
    if i == 0 {
      assert args[..0] == [];
      BulksNil(x);
      PrependNothing(StreamBulks(x, |args|));
    } else {
      var front, rest := args[..i], Bulks(args[1..][..i - 1]) + x;
      assert front[1..] == args[1..][..i - 1] && front[0] == args[0] && front == [args[0]] + front[1..];
      BulksCons(front, x);
      StreamBulkOf(args[0], rest);
      BulksThen(args[1..], i - 1, x);
      StreamRound(Bulk(args[0]) + rest, |args|, args[0], rest);
      PrependTwice(args[0], front[1..], StreamBulks(x, |args| - i));
    }
  }

  lemma PrependNothing(r: StreamArgs)
    ensures PrependRead([], r) == r
  {
  }

  lemma PrependTwice(a: Str, b: seq<Str>, r: StreamArgs)
    ensures PrependRead([a], PrependRead(b, r)) == PrependRead([a] + b, r)
  {
    if r.ArgsRead? {
      assert [a] + (b + r.args) == [a] + b + r.args;
    }
  }

  /** The rest of a command whose next argument reads as `first`. */
  function Resume(args: seq<Str>, first: StreamArg, more: nat): StreamResult {
    match first
    case ArgEof => Eof
    case ArgFailed(e) => Failed(e)
    case ArgCrash => Crash
    case ArgRead(arg, rest) => ToResult(PrependRead(args + [arg], StreamBulks(rest, more)))
  }

  lemma ResumeArgs(args: seq<Str>, x: Str, n: nat)
    requires n > 0
    ensures ToResult(PrependRead(args, StreamBulks(x, n))) == Resume(args, StreamBulk(x), n - 1)
  {
    hide StreamBulk, CommandOf;
    if StreamBulk(x).ArgRead? {
      var arg, r := StreamBulk(x).arg, StreamBulks(StreamBulk(x).rest, n - 1);
      if r.ArgsRead? {
        assert args + ([arg] + r.args) == args + [arg] + r.args;
      }
    }
  }

  /** A command of which the first `i` arguments are whole, and then `x`. */
  lemma ParseFrom(args: seq<Str>, i: nat, x: Str)
    requires InLimits(args) && i < |args|
    ensures ParseStream(Header(STAR, |args|) + Bulks(args[..i]) + x)
      == Resume(args[..i], StreamBulk(x), |args| - i - 1)
  {
    hide Header, ScanInt, IndexLf, Trim, Bulks, StreamBulk, StreamBulks, ParseStream, ToResult, Resume, PrependRead;
    var h, body := Header(STAR, |args|), Bulks(args[..i]) + x;
    assert h + Bulks(args[..i]) + x == h + body;
    HeaderInStream(STAR, |args|, body);
    BulksThen(args, i, x);
    ResumeArgs(args[..i], x, |args| - i);
    ParseByLine(h + body, |h| - 1, |args|);
  }

  // ---------- The bytes of a SET ----------

  lemma {:induction false} BulksAt(args: seq<Str>, i: nat)
    requires i < |args|
    ensures Bulks(args)
      == Bulks(args[..i]) + Header(DOLLAR, |args[i]|) + (args[i] + CRLF + Bulks(args[i + 1..]))
    decreases i
  {
    hide Header;
    if i == 0 {
      assert args[..0] == [] && Bulks([]) == [];
      BulkShape(args[0], Bulks(args[1..]));
    } else {
      var front, rest := args[..i], args[1..];
      assert front[1..] == rest[..i - 1] && front[0] == args[0] && rest[i..] == args[i + 1..];
      hide Bulk;
      BulksAt(rest, i - 1);
    }
  }

  /** Where argument `i` of a logged SET starts. */
  function ArgumentStart(w: Write, i: nat): nat
    requires i < 3
  {
    4 + |Bulks(SetRequest(w)[..i])|
  }

  /** The length of the header of argument `i`. */
  function HeaderLength(w: Write, i: nat): nat
    requires i < 3
  {
    |Header(DOLLAR, |SetRequest(w)[i]|)|
  }

  lemma PartOf(x: Str, h: Str, y: Str, q: nat)
    requires q <= |h|
    ensures |x| + q <= |x + h + y| && (x + h + y)[..|x| + q] == x + h[..q]
  {
  }

  lemma CutInBulks(args: seq<Str>, i: nat, q: nat)
    requires i < |args| && q <= |Header(DOLLAR, |args[i]|)|
    ensures var x := Header(STAR, |args|) + Bulks(args[..i]);
      && |x| + q <= |Encode(args)|
      && Encode(args)[..|x| + q] == x + Header(DOLLAR, |args[i]|)[..q]
  {
    hide Header, Bulks;
    BulksAt(args, i);
    var h, b, d := Header(STAR, |args|), Bulks(args[..i]), Header(DOLLAR, |args[i]|);
    var y := args[i] + CRLF + Bulks(args[i + 1..]);
    PartOf(h + b, d, y, q);
    assert h + (b + d + y) == h + b + d + y;
  }

  lemma CutInArgument(w: Write, i: nat, q: nat)
    requires i < 3 && q <= HeaderLength(w, i)
    ensures ArgumentStart(w, i) + q <= |Encode(SetRequest(w))|
    ensures Encode(SetRequest(w))[..ArgumentStart(w, i) + q]
      == Header(STAR, 3) + Bulks(SetRequest(w)[..i]) + Header(DOLLAR, |SetRequest(w)[i]|)[..q]
  {
    hide Header, Bulks, SET_NAME, Encode;
    StartIsHeader();
    CutInBulks(SetRequest(w), i, q);
  }

  /** The bytes of an appended SET. */
  lemma SetStarts(v: Write, tail: Str)
    ensures Encode(SetRequest(v)) + tail == START + (Bulk(SET_NAME) + (Bulks([v.key, v.value]) + tail))
  {
    hide SET_NAME, Header, Bulk;
    StartIsHeader();
    assert SetRequest(v)[1..] == [v.key, v.value];
    BulksCons(SetRequest(v), tail);
  }

  lemma NameBytes(tail: Str)
    ensures Bulk(SET_NAME) + tail == [DOLLAR, 51, CR, LF, 83, 69, 84, CR, LF] + tail
  {
    assert SET_NAME == [83, 69, 84];
    assert Dec(3) == [51];
  }

  // ---------- Every cut that tears no argument ----------

  /** Inside the header of the name the read always fails. */
  lemma NameFails(q: nat, tail: Str)
    requires 1 < q <= 4
    ensures Take(Survived(3, q), TakenFrom(3, q, START + (Bulk(SET_NAME) + tail))) == ArgFailed(BadTermination)
  {
    NameBytes(tail);
    hide SET_NAME, Bulk;
    var d: Str := [51];
    assert Dec(3) == d && d[..1] == d && d[..0] == [] && Value(d) == 3;
    assert |Header(DOLLAR, 3)| == 4 && Survived(3, q) == 3;
    var s := START + (Bulk(SET_NAME) + tail);
    var rest := s[4..];
    assert rest == Bulk(SET_NAME) + tail;
    assert rest[3..5] == [LF, 83] && s[3..5] == [LF, DOLLAR];
  }

  /** What a command cut `q` bytes into the header of argument `i` becomes before the bytes `s`. */
  function Resumed(w: Write, i: nat, q: nat, s: Str): StreamResult
    requires i < 3 && |s| >= 4
  {
    var len := |SetRequest(w)[i]|;
    if q <= 1 then Failed(InvalidBulkLength)
    else if i == 0 then Failed(BadTermination)
    else
      match Take(Survived(len, q), TakenFrom(len, q, s))
      case ArgEof => Eof
      case ArgFailed(e) => Failed(e)
      case ArgCrash => Crash
      case ArgRead(arg, rest) =>
        if i == 2 then Read(Some(Command(SET_NAME, [w.key, arg])), rest)
        else
          match StreamBulk(rest)
          case ArgEof => Eof
          case ArgFailed(e) => Failed(e)
          case ArgCrash => Crash
          case ArgRead(value, after) => Read(Some(Command(SET_NAME, [arg, value])), after)
  }

  /** The last argument, read or not. */
  lemma ResumeValue(args: seq<Str>, first: StreamArg)
    requires |args| == 2
    ensures Resume(args, first, 0) == match first
      case ArgEof => Eof
      case ArgFailed(e) => Failed(e)
      case ArgCrash => Crash
      case ArgRead(arg, rest) => Read(Some(Command(Upper(args[0]), [args[1], arg])), rest)
  {
    hide Upper;
    if first.ArgRead? {
      assert args + [first.arg] + [] == [args[0], args[1], first.arg];
      assert [args[0], args[1], first.arg][1..] == [args[1], first.arg];
    }
  }

  /** The key, and then the value. */
  lemma ResumeKey(args: seq<Str>, first: StreamArg)
    requires |args| == 1
    ensures Resume(args, first, 1) == match first
      case ArgEof => Eof
      case ArgFailed(e) => Failed(e)
      case ArgCrash => Crash
      case ArgRead(arg, rest) => Resume(args + [arg], StreamBulk(rest), 0)
  {
    hide StreamBulk, CommandOf;
    if first.ArgRead? {
      ResumeArgs(args + [first.arg], first.rest, 1);
    }
  }

  lemma ResumedReads(w: Write, i: nat, q: nat, rest: Str)
    requires InLimits(SetRequest(w)) && i < 3 && q <= HeaderLength(w, i)
    ensures var s := START + (Bulk(SET_NAME) + rest);
      && ArgumentStart(w, i) + q <= |Encode(SetRequest(w))|
      && ParseStream(Encode(SetRequest(w))[..ArgumentStart(w, i) + q] + s) == Resumed(w, i, q, s)
  {
    hide SET_NAME, Header, Bulk, Bulks, StreamBulk, ParseStream, Encode, Upper, Take, Survived, TakenFrom;
    hide ArgumentStart, Resume, Resumed;
    var args := SetRequest(w);
    var s, x, p := START + (Bulk(SET_NAME) + rest), Header(STAR, 3) + Bulks(args[..i]), Header(DOLLAR, |args[i]|)[..q];
    CutInArgument(w, i, q);
    CutHeaderReads(|args[i]|, q, Bulk(SET_NAME) + rest);
    ParseFrom(args, i, p + s);
    assert x + p + s == x + (p + s);
    ResumedIs(w, i, q, rest);
  }

  /** How the cut argument reads. */
  function CutArgument(len: nat, q: nat, s: Str): StreamArg
    requires |s| >= 4
  {
    if q <= 1 then ArgFailed(InvalidBulkLength) else Take(Survived(len, q), TakenFrom(len, q, s))
  }

  /** The closed form of the outcome, for each argument. */
  lemma ResumedIs(w: Write, i: nat, q: nat, rest: Str)
    requires i < 3 && q <= HeaderLength(w, i)
    ensures var s := START + (Bulk(SET_NAME) + rest);
      Resumed(w, i, q, s) == Resume(SetRequest(w)[..i], CutArgument(|SetRequest(w)[i]|, q, s), 2 - i)
  {
    hide Resumed, Resume, CutArgument, Bulk, SET_NAME;
    var s := START + (Bulk(SET_NAME) + rest);
    if i == 0 {
      ResumedName(w, q, rest);
    } else if i == 1 {
      ResumedKey(w, q, s);
    } else {
      ResumedValue(w, q, s);
    }
  }

  lemma ResumedName(w: Write, q: nat, rest: Str)
    requires q <= HeaderLength(w, 0)
    ensures var s := START + (Bulk(SET_NAME) + rest);
      Resumed(w, 0, q, s) == Resume(SetRequest(w)[..0], CutArgument(|SetRequest(w)[0]|, q, s), 2)
  {
    NameHeader();
    hide SET_NAME, Bulk, Take, Survived, TakenFrom, Header;
    if q > 1 {
      NameFails(q, rest);
    }
  }

  lemma ResumedKey(w: Write, q: nat, s: Str)
    requires |s| >= 4
    ensures Resumed(w, 1, q, s) == Resume(SetRequest(w)[..1], CutArgument(|SetRequest(w)[1]|, q, s), 1)
  {
    SetNameIsUpper();
    hide SET_NAME, StreamBulk, Upper, Take, Survived, TakenFrom, Resume, Header;
    var args := SetRequest(w);
    var first := CutArgument(|args[1]|, q, s);
    assert args[..1] == [SET_NAME];
    ResumeKey(args[..1], first);
    if first.ArgRead? {
      assert [SET_NAME] + [first.arg] == [SET_NAME, first.arg];
      ResumeValue([SET_NAME, first.arg], StreamBulk(first.rest));
    }
  }

  lemma ResumedValue(w: Write, q: nat, s: Str)
    requires |s| >= 4
    ensures Resumed(w, 2, q, s) == Resume(SetRequest(w)[..2], CutArgument(|SetRequest(w)[2]|, q, s), 0)
  {
    SetNameIsUpper();
    hide SET_NAME, StreamBulk, Upper, Take, Survived, TakenFrom, Resume, Header;
    var args := SetRequest(w);
    assert args[..2] == [SET_NAME, w.key];
    ResumeValue(args[..2], CutArgument(|args[2]|, q, s));
  }

  lemma NameHeader()
    ensures |Header(DOLLAR, |SET_NAME|)| == 4 && |SET_NAME| == 3
  {
    SetNameIsUpper();
    assert Dec(3) == [51];
  }

  lemma {:induction false} CleanBulks(args: seq<Str>, k: nat) returns (i: nat, q: nat)
    requires k < |Bulks(args)| && !InsideArgument(args, k)
    ensures i < |args| && q <= |Header(DOLLAR, |args[i]|)| && k == |Bulks(args[..i])| + q
    decreases |args|
  {
    hide Bulk, Header;
    if k < |Bulk(args[0])| {
      i, q := 0, k;
      assert args[..0] == [];
    } else {
      i, q := CleanBulks(args[1..], k - |Bulk(args[0])|);
      i := i + 1;
      assert args[..i][1..] == args[1..][..i - 1] && args[..i][0] == args[0];
    }
  }

  /** The cut is `q` bytes into the header of argument `i`, at its start or just after it included. */
  predicate InHeader(w: Write, m: nat, i: nat, q: nat) {
    i < 3 && q <= HeaderLength(w, i) && m == ArgumentStart(w, i) + q
  }

  lemma {:induction false} CleanAt(args: seq<Str>, i: nat, q: nat)
    requires i < |args| && q <= |Header(DOLLAR, |args[i]|)|
    ensures !InsideArgument(args, |Bulks(args[..i])| + q)
    decreases i
  {
    BulkShape(args[i], []);
    hide Header, Bulk;
    if i == 0 {
      assert args[..0] == [];
    } else {
      assert args[..i][1..] == args[1..][..i - 1] && args[..i][0] == args[0];
      CleanAt(args[1..], i - 1, q);
    }
  }

  /** A cut tears no argument exactly when it is in the array header, in the header of an argument or at the end. */
  lemma CleanCut(w: Write, m: nat)
    requires m <= |Encode(SetRequest(w))|
    ensures !Torn([SetRequest(w)], m)
      <==> m < 4 || m == |Encode(SetRequest(w))| || exists i: nat, q: nat :: InHeader(w, m, i, q)
  {
    var args := SetRequest(w);
    var one: seq<seq<Str>> := [args];
    assert one[0] == args && one[1..] == [];
    StartIsHeader();
    hide Bulk, Header, SET_NAME, Bulks, InsideArgument;
    if 4 <= m < |Encode(args)| {
      if !InsideArgument(args, m - 4) {
        var i, q := CleanBulks(args, m - 4);
        assert InHeader(w, m, i, q);
      }
      if i: nat, q: nat :| InHeader(w, m, i, q) {
        CleanAt(args, i, q);
      }
    }
  }
}
