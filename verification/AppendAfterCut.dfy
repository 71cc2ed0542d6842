/**
 * A server that started from a cut log keeps the bytes of the last, incomplete
 * command and appends after them (pkg/persistence/aof.go:33-50). What a second
 * restart then reads, for every cut after which the server starts.
 */
module AppendAfterCut {
  import opened Bytes
  import opened Text
  import opened Resp
  import opened RespCode
  import opened Draining
  import opened AppendLog
  import opened Restart
  import opened TornCommands

  // ---------- Reading past whole commands ----------

  lemma StreamCons(requests: seq<seq<Str>>, tail: Str)
    requires requests != []
    ensures Stream(requests) + tail == Encode(requests[0]) + (Stream(requests[1..]) + tail)
  {
    hide Encode;
  }

  lemma StreamNil(tail: Str)
    ensures Stream([]) + tail == tail && Commands([]) == []
  {
  }

  lemma {:induction false} ReadWhole(requests: seq<seq<Str>>, tail: Str)
    requires forall r :: r in requests ==> InLimits(r)
    ensures ReadLog(Stream(requests) + tail)
      == LogRead(Commands(requests) + ReadLog(tail).cmds, ReadLog(tail).ended)
    decreases |requests|
  {
    hide ParseStream, Encode, ReadLog, Stream, Commands, InLimits;
    if requests == [] {
      StreamNil(tail);
      assert [] + ReadLog(tail).cmds == ReadLog(tail).cmds;
    } else {
      assert InLimits(requests[0]);
      var rest := Stream(requests[1..]) + tail;
      StreamCons(requests, tail);
      RoundTrip(requests[0], rest);
      ReadLogStep(Encode(requests[0]) + rest);
      ReadWhole(requests[1..], tail);
      CommandsSplit(requests, ReadLog(tail).cmds);
    }
  }

  lemma CommandsSplit(requests: seq<seq<Str>>, more: seq<Command>)
    requires requests != [] && (forall r :: r in requests ==> InLimits(r)) && InLimits(requests[0])
    ensures Commands(requests) + more == Optional(Some(ToCommand(requests[0]))) + (Commands(requests[1..]) + more)
  {
  }

  /** The log of `ws` cut `m` bytes into its SET number `k`. */
  function Cut(ws: seq<Write>, k: nat, m: nat): Str
    requires k < |ws| && m <= |Encode(SetRequest(ws[k]))|
  {
    Stream(SetRequests(ws[..k])) + Encode(SetRequest(ws[k]))[..m]
  }

  lemma {:induction false} CutIsPrefix(ws: seq<Write>, k: nat, m: nat)
    requires k < |ws| && m <= |Encode(SetRequest(ws[k]))|
    ensures Cut(ws, k, m) <= Stream(SetRequests(ws))
    decreases k
  {
    hide Encode;
    var rs := SetRequests(ws);
    assert rs[1..] == SetRequests(ws[1..]);
    if k == 0 {
      assert SetRequests(ws[..0]) == [];
    } else {
      CutIsPrefix(ws[1..], k - 1, m);
      assert SetRequests(ws[..k])[1..] == SetRequests(ws[1..][..k - 1]);
      assert SetRequests(ws[..k])[0] == rs[0];
      assert Cut(ws, k, m) == Encode(rs[0]) + Cut(ws[1..], k - 1, m);
    }
  }

  // ---------- The second restart ----------

  /** The cut log with the SETs that were appended after it. */
  function Appended(ws: seq<Write>, k: nat, m: nat, vs: seq<Write>): Str
    requires k < |ws| && m <= |Encode(SetRequest(ws[k]))|
  {
    Cut(ws, k, m) + Stream(SetRequests(vs))
  }

  /** Reading on after `kept` when the next read gives `r`. */
  function Continue(kept: seq<Command>, r: StreamResult): LogRead {
    match r
    case Eof => LogRead(kept, AtEof)
    case Failed(e) => LogRead(kept, Error(e))
    case Crash => LogRead(kept, Crashed)
    case Read(cmd, rest) => LogRead(kept + Optional(cmd) + ReadLog(rest).cmds, ReadLog(rest).ended)
  }

  /** Only the read that follows the whole commands is in question. */
  lemma ReadAppended(ws: seq<Write>, k: nat, m: nat, vs: seq<Write>)
    requires Loggable(ws) && k < |ws| && m <= |Encode(SetRequest(ws[k]))|
    requires forall r :: r in SetRequests(ws[..k]) ==> InLimits(r)
    ensures ReadLog(Appended(ws, k, m, vs))
      == Continue(Commands(SetRequests(ws[..k])),
                  ParseStream(Encode(SetRequest(ws[k]))[..m] + Stream(SetRequests(vs))))
  {
    hide ReadLog, Encode, InLimits, Stream, ParseStream, Commands;
    var tail := Encode(SetRequest(ws[k]))[..m] + Stream(SetRequests(vs));
    var kept := Commands(SetRequests(ws[..k]));
    assert Appended(ws, k, m, vs) == Stream(SetRequests(ws[..k])) + tail;
    ReadWhole(SetRequests(ws[..k]), tail);
    ReadLogStep(tail);
    assert kept + [] == kept;
    if ParseStream(tail).Read? {
      var cmd, rest := ParseStream(tail).cmd, ParseStream(tail).rest;
      assert kept + (Optional(cmd) + ReadLog(rest).cmds) == kept + Optional(cmd) + ReadLog(rest).cmds;
    }
  }

  lemma LoggablePrefix(ws: seq<Write>, k: nat)
    requires Loggable(ws) && k <= |ws|
    ensures Loggable(ws[..k]) && forall r :: r in SetRequests(ws[..k]) ==> InLimits(r)
  {
    assert forall w :: w in ws[..k] ==> w in ws;
    LoggableRequests(ws[..k]);
  }

  lemma LoggableOne(ws: seq<Write>, k: nat)
    requires Loggable(ws) && k < |ws|
    ensures InLimits(SetRequest(ws[k]))
  {
    LoggableRequests(ws);
    assert SetRequests(ws)[k] == SetRequest(ws[k]);
  }

  /** The first appended SET and the rest. */
  lemma FirstAppended(vs: seq<Write>)
    requires Loggable(vs) && vs != []
    ensures var rest := Stream(SetRequests(vs[1..]));
      && Stream(SetRequests(vs)) == Encode(SetRequest(vs[0])) + rest
      && Stream(SetRequests(vs)) == START + (Bulk(SET_NAME) + (Bulks([vs[0].key, vs[0].value]) + rest))
      && ParseStream(Stream(SetRequests(vs))) == Read(Some(ToCommand(SetRequest(vs[0]))), rest)
    ensures forall r :: r in SetRequests(vs) ==> InLimits(r)
    ensures ReadLog(Stream(SetRequests(vs))) == LogRead(Commands(SetRequests(vs)), AtEof)
  {
    LoggableRequests(vs);
    LoggableOne(vs, 0);
    hide ReadLog, InLimits, Encode, ParseStream, SET_NAME, Bulk, Bulks;
    assert SetRequests(vs)[0] == SetRequest(vs[0]) && SetRequests(vs)[1..] == SetRequests(vs[1..]);
    IntactLog(SetRequests(vs));
    RoundTrip(SetRequest(vs[0]), Stream(SetRequests(vs[1..])));
    SetStarts(vs[0], Stream(SetRequests(vs[1..])));
  }

  /** What is read from the appended SETs alone. */
  lemma ContinueNew(kept: seq<Command>, vs: seq<Write>)
    requires Loggable(vs) && vs != []
    ensures forall r :: r in SetRequests(vs) ==> InLimits(r)
    ensures Continue(kept, ParseStream(Stream(SetRequests(vs))))
      == LogRead(kept + Commands(SetRequests(vs)), AtEof)
  {
    FirstAppended(vs);
    hide ReadLog, InLimits, Encode, ParseStream, Stream, Commands;
    ReadLogStep(Stream(SetRequests(vs)));
    var r := ParseStream(Stream(SetRequests(vs)));
    assert kept + (Optional(r.cmd) + ReadLog(r.rest).cmds) == kept + Optional(r.cmd) + ReadLog(r.rest).cmds;
  }

  /** A cut inside the array header, or none. */
  lemma SecondRestartHeader(w: Write, m: nat, vs: seq<Write>)
    requires Loggable(vs) && vs != [] && m <= 3 && m <= |Encode(SetRequest(w))|
    ensures ParseStream(Encode(SetRequest(w))[..m] + Stream(SetRequests(vs)))
      == if m == 1 then Failed(InvalidArrayLength) else ParseStream(Stream(SetRequests(vs)))
  {
    FirstAppended(vs);
    LoggableOne(vs, 0);
    StartIsHeader();
    assert Encode(SetRequest(w))[..m] == START[..m];
    hide Encode, InLimits, Stream, ParseStream;
    if m == 0 {
      assert START[..0] + Stream(SetRequests(vs)) == Stream(SetRequests(vs));
    } else {
      ParseTornHeader(m, SetRequest(vs[0]), Stream(SetRequests(vs[1..])));
    }
  }

  lemma SecondRestartArgument(w: Write, i: nat, q: nat, vs: seq<Write>)
    requires InLimits(SetRequest(w)) && Loggable(vs) && vs != [] && i < 3 && q <= HeaderLength(w, i)
    ensures ArgumentStart(w, i) + q <= |Encode(SetRequest(w))| && |Stream(SetRequests(vs))| >= 4
    ensures ParseStream(Encode(SetRequest(w))[..ArgumentStart(w, i) + q] + Stream(SetRequests(vs)))
      == Resumed(w, i, q, Stream(SetRequests(vs)))
  {
    hide Encode, InLimits, Stream, ParseStream, Resumed, ArgumentStart, HeaderLength, Bulk, Bulks, SET_NAME;
    FirstAppended(vs);
    ResumedReads(w, i, q, Bulks([vs[0].key, vs[0].value]) + Stream(SetRequests(vs[1..])));
  }

  /** A cut after a whole SET. */
  lemma SecondRestartWhole(ws: seq<Write>, k: nat, vs: seq<Write>)
    requires Loggable(ws) && Loggable(vs) && vs != [] && k < |ws|
    ensures forall r :: r in SetRequests(ws[..k + 1]) ==> InLimits(r)
    ensures forall r :: r in SetRequests(vs) ==> InLimits(r)
    ensures ReadLog(Appended(ws, k, |Encode(SetRequest(ws[k]))|, vs))
      == LogRead(Commands(SetRequests(ws[..k + 1])) + Commands(SetRequests(vs)), AtEof)
  {
    hide ReadLog, Encode, InLimits, Stream, ParseStream, Commands;
    LoggablePrefix(ws, k + 1);
    FirstAppended(vs);
    var e := Encode(SetRequest(ws[k]));
    assert e[..|e|] == e;
    WholeCut(ws, k);
    ReadWhole(SetRequests(ws[..k + 1]), Stream(SetRequests(vs)));
  }

  lemma WholeCut(ws: seq<Write>, k: nat)
    requires k < |ws|
    ensures Stream(SetRequests(ws[..k])) + Encode(SetRequest(ws[k])) == Stream(SetRequests(ws[..k + 1]))
  {
    hide Encode;
    var rs := SetRequests(ws[..k + 1]);
    assert rs == SetRequests(ws[..k]) + [SetRequest(ws[k])];
    StreamSnoc(SetRequests(ws[..k]), SetRequest(ws[k]));
  }

  /**
   * After a restart from a log cut `m` bytes into a SET, and further SETs `vs`, what a
   * second restart reads, for every cut that tore no argument. At a command boundary,
   * and two or three bytes into the array header, the whole old SETs and the new ones;
   * after one byte the old ones and an error; inside or just after the header of an
   * argument what `Resumed` computes from the surviving digits and the appended bytes.
   */
  lemma SecondRestart(ws: seq<Write>, k: nat, m: nat, vs: seq<Write>)
    requires Loggable(ws) && Loggable(vs) && vs != [] && k < |ws|
    requires m <= |Encode(SetRequest(ws[k]))| && !Torn([SetRequest(ws[k])], m)
    ensures Cut(ws, k, m) <= Stream(SetRequests(ws)) && |Stream(SetRequests(vs))| >= 4
    ensures forall r :: r in SetRequests(ws[..k]) ==> InLimits(r)
    ensures forall r :: r in SetRequests(ws[..k + 1]) ==> InLimits(r)
    ensures forall r :: r in SetRequests(vs) ==> InLimits(r)
    ensures m < 4 || m == |Encode(SetRequest(ws[k]))|
      || exists i: nat, q: nat :: InHeader(ws[k], m, i, q)
    ensures var r, kept := ReadLog(Appended(ws, k, m, vs)), Commands(SetRequests(ws[..k]));
      && (m in {0, 2, 3} ==> r == LogRead(kept + Commands(SetRequests(vs)), AtEof))
      && (m == 1 ==> r == LogRead(kept, Error(InvalidArrayLength)))
      && (m == |Encode(SetRequest(ws[k]))| ==>
            r == LogRead(Commands(SetRequests(ws[..k + 1])) + Commands(SetRequests(vs)), AtEof))
      && (forall i: nat, q: nat :: InHeader(ws[k], m, i, q) ==>
            r == Continue(kept, Resumed(ws[k], i, q, Stream(SetRequests(vs)))))
  {
    hide ReadLog, Encode, InLimits, Stream, ParseStream, Commands, ArgumentStart, HeaderLength, Cut, Torn, Resumed;
    hide Appended, Continue, Loggable;
    CleanCut(ws[k], m);
    CutIsPrefix(ws, k, m);
    LoggablePrefix(ws, k);
    LoggableOne(ws, k);
    SecondRestartWhole(ws, k, vs);
    ReadAppended(ws, k, m, vs);
    var kept := Commands(SetRequests(ws[..k]));
    ContinueNew(kept, vs);
    ContinueFailed(kept);
    SecondRestartArgument(ws[k], 0, 0, vs);
    if m < 4 {
      SecondRestartHeader(ws[k], m, vs);
    }
    forall i: nat, q: nat | InHeader(ws[k], m, i, q)
      ensures ReadLog(Appended(ws, k, m, vs)) == Continue(kept, Resumed(ws[k], i, q, Stream(SetRequests(vs))))
    {
      SecondRestartArgument(ws[k], i, q, vs);
    }
  }

  lemma ContinueFailed(kept: seq<Command>)
    ensures Continue(kept, Failed(InvalidArrayLength)) == LogRead(kept, Error(InvalidArrayLength))
  {
  }

  /** A header that is read as a command of its own. */
  lemma HeaderAsLine(n: nat, body: Str)
    ensures ParseStream(Header(DOLLAR, n) + body) == Read(Some(Command([DOLLAR] + Dec(n), [])), body)
  {
    var h, t := Header(DOLLAR, n), [DOLLAR] + Dec(n);
    HeaderEnds(DOLLAR, n, body);
    TrimHeader(DOLLAR, n);
    assert (h + body)[..|h|] == h && (h + body)[|h|..] == body;
    forall i | 0 <= i < |t| ensures !IsSpace(t[i]) && UpperByte(t[i]) == t[i] {
      assert i > 0 ==> t[i] == Dec(n)[i - 1] && IsDigit(Dec(n)[i - 1]);
    }
    OneWord(t);
    assert Upper(t) == t;
    hide Header, IndexLf, Trim, Fields;
    assert [t][1..] == [];
  }

  lemma {:induction false} WordAll(t: Str)
    requires forall i :: 0 <= i < |t| ==> !IsSpace(t[i])
    ensures Word(t) == t
  {
    if t != [] {
      WordAll(t[1..]);
    }
  }

  lemma OneWord(t: Str)
    requires t != [] && forall i :: 0 <= i < |t| ==> !IsSpace(t[i])
    ensures Fields(t) == [t]
  {
    WordAll(t);
    assert t[|t|..] == [];
  }

  /** An argument of two bytes takes the start of an appended SET for its contents. */
  lemma TakesStart(w: Write, rest: Str)
    requires |w.key| == 2
    ensures Resumed(w, 1, 4, START + (Bulk(SET_NAME) + rest))
      == Read(Some(Command(SET_NAME, [[STAR, 51], SET_NAME])), rest)
    ensures HeaderLength(w, 1) == 4
  {
    SetNameIsUpper();
    var d: Str := [50];
    assert Dec(2) == d && d[..1] == d && d[..0] == [] && Value(d) == 2;
    assert |Header(DOLLAR, 2)| == 4 && Survived(2, 4) == 2;
    hide SET_NAME, Bulk, StreamBulk, Header, Survived;
    var s := START + (Bulk(SET_NAME) + rest);
    assert s[..2] == [STAR, 51] && s[2..4] == CRLF && s[4..] == Bulk(SET_NAME) + rest;
    StreamBulkOf(SET_NAME, rest);
  }

  /**
   * It can go wrong silently: cut after the header of a two-byte key, the first new SET
   * is read as a SET of the key "*3" to the value "SET" and as the inline command "$n",
   * n being the length of its own key; reading goes on at the bytes of that key.
   */
  lemma SecondRestartBogus(ws: seq<Write>, k: nat, vs: seq<Write>) returns (m: nat)
    requires Loggable(ws) && Loggable(vs) && vs != [] && k < |ws| && |ws[k].key| == 2
    ensures m <= |Encode(SetRequest(ws[k]))| && !Torn([SetRequest(ws[k])], m)
    ensures forall r :: r in SetRequests(ws[..k]) ==> InLimits(r)
    ensures var v, rest := vs[0], Stream(SetRequests(vs[1..]));
      var next := ReadLog(v.key + CRLF + (Bulk(v.value) + rest));
      ReadLog(Appended(ws, k, m, vs))
      == LogRead(Commands(SetRequests(ws[..k]))
                 + [Command(SET_NAME, [[STAR, 51], SET_NAME]), Command([DOLLAR] + Dec(|v.key|), [])]
                 + next.cmds, next.ended)
  {
    hide ReadLog, Encode, InLimits, Stream, ParseStream, Commands, ArgumentStart, HeaderLength, Torn, Resumed;
    hide Loggable, Bulk, Bulks, SET_NAME, Header, Appended, Continue;
    var v, rest := vs[0], Stream(SetRequests(vs[1..]));
    FirstAppended(vs);
    LoggablePrefix(ws, k);
    LoggableOne(ws, k);
    TakesStart(ws[k], Bulks([v.key, v.value]) + rest);
    m := ArgumentStart(ws[k], 1) + 4;
    SecondRestartArgument(ws[k], 1, 4, vs);
    assert InHeader(ws[k], m, 1, 4);
    CleanCut(ws[k], m);
    ReadAppended(ws, k, m, vs);
    KeyAsLine(v, rest);
    ContinueTwice(Commands(SetRequests(ws[..k])), Command(SET_NAME, [[STAR, 51], SET_NAME]),
                  Bulks([v.key, v.value]) + rest, Command([DOLLAR] + Dec(|v.key|), []),
                  v.key + CRLF + (Bulk(v.value) + rest));
  }

  lemma ContinueTwice(kept: seq<Command>, a: Command, x: Str, b: Command, y: Str)
    requires ReadLog(x) == LogRead([b] + ReadLog(y).cmds, ReadLog(y).ended)
    ensures Continue(kept, Read(Some(a), x)) == LogRead(kept + [a, b] + ReadLog(y).cmds, ReadLog(y).ended)
  {
    hide ReadLog;
    assert kept + [a] + ([b] + ReadLog(y).cmds) == kept + [a, b] + ReadLog(y).cmds;
  }

  /** The rest of the appended SET is read as lines. */
  lemma KeyAsLine(v: Write, rest: Str)
    ensures var next := ReadLog(v.key + CRLF + (Bulk(v.value) + rest));
      ReadLog(Bulks([v.key, v.value]) + rest)
      == LogRead([Command([DOLLAR] + Dec(|v.key|), [])] + next.cmds, next.ended)
  {
    var args := [v.key, v.value];
    hide Header, ReadLog, ParseStream;
    BulksCons(args, rest);
    assert args[1..] == [v.value] && [v.value][1..] == [];
    BulksCons([v.value], rest);
    BulksNil(rest);
    BulkShape(v.key, Bulk(v.value) + rest);
    var body := v.key + CRLF + (Bulk(v.value) + rest);
    HeaderAsLine(|v.key|, body);
    ReadLogStep(Header(DOLLAR, |v.key|) + body);
  }

  /** The log up to the contents of the value. */
  function UpToValue(w: Write): Str {
    START + Bulks([SET_NAME, w.key]) + Header(DOLLAR, |w.value|)
  }

  lemma UpToValueIsCut(w: Write)
    ensures var e, m := Encode(SetRequest(w)), ArgumentStart(w, 2) + HeaderLength(w, 2);
      && m == |UpToValue(w)| && e == UpToValue(w) + (w.value + CRLF)
      && e[..m] == UpToValue(w)
  {
    var args := SetRequest(w);
    assert args[..2] == [SET_NAME, w.key];
    StartIsHeader();
    BulksAt(args, 2);
    assert args[3..] == [];
    BulksNil([]);
    hide Header, Bulks, SET_NAME;
    var x := UpToValue(w);
    assert args[2] + CRLF + Bulks(args[3..]) == w.value + CRLF;
    assert Encode(args) == x + (w.value + CRLF);
  }

  lemma EndsInCrlf(w: Write)
    ensures |UpToValue(w)| >= 2 && UpToValue(w)[|UpToValue(w)| - 2..] == CRLF
  {
    var h := Header(DOLLAR, |w.value|);
    assert h[|h| - 2..] == CRLF;
  }

  /**
   * No condition on the cut alone is exact: when a value is two bytes shorter than what
   * precedes its contents in the log, a cut there, followed by a SET of the same key to
   * the first bytes of that very text, reads back exactly right.
   */
  lemma LuckyCut(w: Write)
    requires Loggable([w]) && |UpToValue(w)| == |w.value| + 2
    ensures var v := Write(w.key, UpToValue(w)[..|w.value|]); var m := |UpToValue(w)|;
      && m <= |Encode(SetRequest(w))| && !Torn([SetRequest(w)], m)
      && ReadLog(Encode(SetRequest(w))[..m] + Stream(SetRequests([v])))
         == LogRead([Command(SET_NAME, [v.key, v.value])], AtEof)
  {
    hide Encode, InLimits, Stream, ParseStream, ArgumentStart, HeaderLength, SET_NAME, UpToValue, ReadLog, Torn;
    var n, p := |w.value|, UpToValue(w);
    var v := Write(w.key, p[..n]);
    var s := Stream(SetRequests([v]));
    LoggableOne([w], 0);
    LuckyBytes(w);
    UpToValueIsCut(w);
    SecondRestartArgument(w, 2, HeaderLength(w, 2), [v]);
    WholeValue(w, s);
    assert InHeader(w, |p|, 2, HeaderLength(w, 2));
    CleanCut(w, |p|);
    CutCommand(SetRequest(w), |p|);
    ReadLogStep(p);
    ReadLogStep(p + s);
  }

  /** The appended SET, after as many bytes as the cut value had, goes on with the text before the cut. */
  lemma LuckyBytes(w: Write)
    requires Loggable([w]) && |UpToValue(w)| == |w.value| + 2
    ensures var n, p := |w.value|, UpToValue(w); var v := Write(w.key, p[..n]);
      var s := Stream(SetRequests([v]));
      Loggable([v]) && |s| >= n + 4 && s[..n] == p[..n] && s[n..n + 2] == CRLF && s[n + 2..] == p
  {
    hide Encode, Stream, ArgumentStart, HeaderLength, SET_NAME, UpToValue;
    var n, p := |w.value|, UpToValue(w);
    var v := Write(w.key, p[..n]);
    SameStart(w, v);
    SingleStream(v);
    UpToValueIsCut(v);
    EndsInCrlf(w);
    var s := Stream(SetRequests([v]));
    assert v.value + CRLF == p && s == p + p;
    StartLength(w);
  }

  lemma StartLength(w: Write)
    ensures |UpToValue(w)| >= 4
  {
  }

  lemma SameStart(w: Write, v: Write)
    requires v.key == w.key && |v.value| == |w.value|
    ensures UpToValue(v) == UpToValue(w)
  {
  }

  lemma SingleStream(v: Write)
    ensures Stream(SetRequests([v])) == Encode(SetRequest(v))
  {
    hide Encode;
    var rs := SetRequests([v]);
    assert rs[0] == SetRequest(v) && rs[1..] == [];
  }

  /** After the whole header of the value, its old length is taken from the appended bytes. */
  lemma WholeValue(w: Write, s: Str)
    requires |s| >= |w.value| + 2 && |s| >= 4 && s[|w.value|..|w.value| + 2] == CRLF
    ensures Resumed(w, 2, HeaderLength(w, 2), s)
      == Read(Some(Command(SET_NAME, [w.key, s[..|w.value|]])), s[|w.value| + 2..])
  {
    SurvivedWhole(|w.value|);
    hide SET_NAME, Header, Survived;
  }
}
