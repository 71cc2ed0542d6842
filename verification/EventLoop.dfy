/**
 * A connection of the event loop (pkg/server/eventloop_linux.go:158-299): bytes
 * in, commands through the authentication gate, replies out in pieces.
 *
 * Command execution is a parameter: any function from a server state and a
 * command to a new state and a response text. Socket reads are chunks, socket
 * writes take any number of bytes, epoll calls succeed.
 */
module EventLoops {
  import opened Bytes
  import opened Text
  import opened Resp
  import opened RespCode
  import opened Draining

  datatype Auth = Auth(enabled: bool, password: Str)

  type Executor<!S> = (S, Command) -> (S, Str)

  const WRONG_AUTH: Str := Ascii("-ERR ") + Ascii("wrong number of arguments for 'auth' command") + CRLF

  // ---------- Replies ----------

  /** The reply bytes for a response text (eventloop_linux.go:219-232). */
  function ReplyBytes(resp: Str): Str {
    if Ascii("ERR ") <= resp then Ascii("-ERR ") + resp[4..] + CRLF
    else if Ascii("(integer) ") <= resp then
      var n := ScanInt(resp[10..]);
      Ascii(":") + DecInt(if n.Some? then n.value else 0) + CRLF
    else if resp == Ascii("(nil)") then Ascii("$-1\r\n")
    else if resp == Ascii("OK") then Ascii("+OK\r\n")
    else Bulk(resp)
  }

  /** Response texts with a meaning of their own. */
  predicate Reserved(resp: Str) {
    Ascii("ERR ") <= resp || Ascii("(integer) ") <= resp || resp == Ascii("(nil)") || resp == Ascii("OK")
  }

  /** Any other text, such as a stored value, reaches the client as itself. */
  lemma ValueReply(resp: Str, tail: Str)
    requires !Reserved(resp) && |resp| <= MAX_BULK
    ensures ParseBulk(ReplyBytes(resp) + tail) == BulkDone(resp, |ReplyBytes(resp)|)
  {
    hide ParseBulk, Bulk;
    ParseBulkOf(resp, tail);
  }

  predicate IsAuth(cmd: Command) {
    Upper(cmd.name) == Ascii("AUTH")
  }

  predicate CorrectAuth(auth: Auth, cmd: Command) {
    IsAuth(cmd) && |cmd.args| == 1 && cmd.args[0] == auth.password
  }

  /** What the gate answers to a command it does not let through. */
  function GateReply(auth: Auth, cmd: Command): Str {
    if !IsAuth(cmd) then Ascii("-NOAUTH Authentication required\r\n")
    else if |cmd.args| != 1 then WRONG_AUTH
    else if cmd.args[0] == auth.password then Ascii("+OK\r\n")
    else Ascii("-ERR invalid password\r\n")
  }

  // ---------- Serving a sequence of commands ----------

  datatype Served<S> = Served(server: S, authed: bool, replies: seq<Str>, executed: seq<Command>)

  function ServeOne<S>(auth: Auth, exec: Executor<S>, s: Served<S>, cmd: Command): Served<S> {
    if auth.enabled && !s.authed then
      s.(authed := CorrectAuth(auth, cmd), replies := s.replies + [GateReply(auth, cmd)])
    else
      var (server, resp) := exec(s.server, cmd);
      Served(server, s.authed, s.replies + [ReplyBytes(resp)], s.executed + [cmd])
  }

  function Serve<S>(auth: Auth, exec: Executor<S>, s: Served<S>, cmds: seq<Command>): Served<S> {
    if cmds == [] then s
    else ServeOne(auth, exec, Serve(auth, exec, s, cmds[..|cmds| - 1]), cmds[|cmds| - 1])
  }

  /** The commands after the first correct AUTH. */
  function AfterAuth(auth: Auth, cmds: seq<Command>): seq<Command> {
    if cmds == [] then []
    else if CorrectAuth(auth, cmds[0]) then cmds[1..]
    else AfterAuth(auth, cmds[1..])
  }

  predicate SawAuth(auth: Auth, cmds: seq<Command>) {
    exists cmd :: cmd in cmds && CorrectAuth(auth, cmd)
  }

  lemma {:induction false} AfterAuthSnoc(auth: Auth, cmds: seq<Command>, cmd: Command)
    ensures AfterAuth(auth, cmds + [cmd]) ==
      if SawAuth(auth, cmds) then AfterAuth(auth, cmds) + [cmd] else []
  {
    if cmds == [] {
      assert cmds + [cmd] == [cmd];
    } else {
      assert (cmds + [cmd])[1..] == cmds[1..] + [cmd];
      AfterAuthSnoc(auth, cmds[1..], cmd);
      assert SawAuth(auth, cmds) == (CorrectAuth(auth, cmds[0]) || SawAuth(auth, cmds[1..])) by {
        assert cmds == [cmds[0]] + cmds[1..];
      }
    }
  }

  /** How one more command moves the gate. */
  lemma GateStep(auth: Auth, cmds: seq<Command>, cmd: Command)
    ensures SawAuth(auth, cmds + [cmd]) == (SawAuth(auth, cmds) || CorrectAuth(auth, cmd))
    ensures !SawAuth(auth, cmds) ==> AfterAuth(auth, cmds) == AfterAuth(auth, cmds + [cmd]) == []
    ensures SawAuth(auth, cmds) ==> AfterAuth(auth, cmds + [cmd]) == AfterAuth(auth, cmds) + [cmd]
  {
    AfterAuthSnoc(auth, cmds, cmd);
    assert forall c :: c in cmds + [cmd] <==> c in cmds || c == cmd;
    if !SawAuth(auth, cmds) {
      NoAuthNothing(auth, cmds);
    }
  }

  /**
   * One reply per command, and the executor sees exactly the commands after the
   * first correct AUTH (all of them when authentication is off).
   */
  lemma {:induction false} ServeGate<S>(auth: Auth, exec: Executor<S>, server: S, cmds: seq<Command>)
    ensures var r := Serve(auth, exec, Served(server, !auth.enabled, [], []), cmds);
      && |r.replies| == |cmds|
      && r.authed == (!auth.enabled || SawAuth(auth, cmds))
      && r.executed == if auth.enabled then AfterAuth(auth, cmds) else cmds
    decreases |cmds|
  {
    hide ServeOne, AfterAuth, SawAuth;
    if cmds == [] {
      NoAuthYet(auth);
    } else {
      var n := |cmds| - 1;
      var s := Serve(auth, exec, Served(server, !auth.enabled, [], []), cmds[..n]);
      ServeGate(auth, exec, server, cmds[..n]);
      ServeGateStep(auth, exec, s, cmds[..n], cmds[n]);
      assert cmds == cmds[..n] + [cmds[n]];
    }
  }

  lemma NoAuthYet(auth: Auth)
    ensures !SawAuth(auth, []) && AfterAuth(auth, []) == []
  {
  }

  lemma ServeGateStep<S>(auth: Auth, exec: Executor<S>, s: Served<S>, cmds: seq<Command>, cmd: Command)
    requires s.authed == (!auth.enabled || SawAuth(auth, cmds))
    requires s.executed == if auth.enabled then AfterAuth(auth, cmds) else cmds
    ensures var r, all := ServeOne(auth, exec, s, cmd), cmds + [cmd];
      && |r.replies| == |s.replies| + 1
      && r.authed == (!auth.enabled || SawAuth(auth, all))
      && r.executed == if auth.enabled then AfterAuth(auth, all) else all
  {
    hide ServeOne, AfterAuth, SawAuth, CorrectAuth;
    GateStep(auth, cmds, cmd);
    ServeParts(auth, exec, s, cmd);
  }

  /** One command at the gate. */
  lemma ServeParts<S>(auth: Auth, exec: Executor<S>, s: Served<S>, cmd: Command)
    ensures var r := ServeOne(auth, exec, s, cmd); var let := !auth.enabled || s.authed;
      && |r.replies| == |s.replies| + 1
      && r.authed == (if let then s.authed else CorrectAuth(auth, cmd))
      && r.executed == if let then s.executed + [cmd] else s.executed
  {
    hide CorrectAuth, GateReply, ReplyBytes;
  }

  lemma AuthBytes()
    ensures Ascii("AUTH") == [65, 85, 84, 72] && Ascii("OK") == [79, 75] && Ascii("+OK\r\n") == [43, 79, 75, 13, 10]
  {
  }

  lemma ErrorBytes()
    ensures Ascii("ERR ") == [69, 82, 82, 32] && Ascii("-ERR ") == [45, 69, 82, 82, 32]
  {
  }

  lemma NilBytes()
    ensures Ascii("(nil)") == [40, 110, 105, 108, 41] && Ascii("$-1\r\n") == [36, 45, 49, 13, 10]
  {
  }

  lemma IntegerBytes()
    ensures Ascii("(integer) ") == [40, 105, 110, 116, 101, 103, 101, 114, 41, 32] && Ascii(":") == [58]
  {
  }

  /** The response texts with a meaning of their own, and the bytes they become. */
  lemma ReservedReplies(resp: Str)
    ensures resp == [79, 75] ==> ReplyBytes(resp) == [43, 79, 75, 13, 10]
    ensures resp == [40, 110, 105, 108, 41] ==> ReplyBytes(resp) == [36, 45, 49, 13, 10]
    ensures [69, 82, 82, 32] <= resp ==> ReplyBytes(resp) == [45, 69, 82, 82, 32] + resp[4..] + [13, 10]
  {
    AuthBytes();
    ErrorBytes();
    NilBytes();
    IntegerBytes();
    hide Ascii, Bulk, DecInt, ScanInt;
    if resp == [79, 75] {
      assert !(Ascii("ERR ") <= resp) && !(Ascii("(integer) ") <= resp);
    }
    if resp == [40, 110, 105, 108, 41] {
      assert resp[0] == 40 && resp != [79, 75];
      assert !(Ascii("ERR ") <= resp) && !(Ascii("(integer) ") <= resp);
    }
  }

  /** An integer response becomes an integer reply, sign included. */
  lemma IntegerReply(n: int)
    requires -INT64_LIMIT <= n < INT64_LIMIT
    ensures ReplyBytes([40, 105, 110, 116, 101, 103, 101, 114, 41, 32] + DecInt(n)) == [58] + DecInt(n) + [13, 10]
  {
    ErrorBytes();
    IntegerBytes();
    ScanDecInt(n);
    var resp := [40, 105, 110, 116, 101, 103, 101, 114, 41, 32] + DecInt(n);
    assert resp[10..] == DecInt(n) && resp[..10] == [40, 105, 110, 116, 101, 103, 101, 114, 41, 32];
    assert resp[0] == 40;
    hide Ascii, DecInt, ScanInt;
  }

  /** The gate opens on AUTH with the password, in letters of any case, and on nothing else. */
  lemma GateOpensOn(auth: Auth, cmd: Command)
    ensures CorrectAuth(auth, cmd) <==>
      && cmd.args == [auth.password] && |cmd.name| == 4
      && (cmd.name[0] == 65 || cmd.name[0] == 97) && (cmd.name[1] == 85 || cmd.name[1] == 117)
      && (cmd.name[2] == 84 || cmd.name[2] == 116) && (cmd.name[3] == 72 || cmd.name[3] == 104)
  {
    AuthBytes();
    hide Ascii;
    assert cmd.args == [auth.password] <==> |cmd.args| == 1 && cmd.args[0] == auth.password;
    var u := Upper(cmd.name);
    assert u == [65, 85, 84, 72] <==> |u| == 4 && u[0] == 65 && u[1] == 85 && u[2] == 84 && u[3] == 72;
  }

  /** A line that begins with a minus sign. */
  predicate ErrorLine(r: Str) {
    |r| > 3 && r[0] == 45 && r[|r| - 2] == 13 && r[|r| - 1] == 10
  }

  lemma AsciiAt(s: string)
    ensures |Ascii(s)| == |s| && forall i :: 0 <= i < |s| ==> Ascii(s)[i] == s[i] as int % 256
  {
  }

  lemma ErrorTexts()
    ensures ErrorLine(Ascii("-NOAUTH Authentication required\r\n"))
    ensures ErrorLine(WRONG_AUTH)
    ensures ErrorLine(Ascii("-ERR invalid password\r\n"))
  {
    AsciiAt("-NOAUTH Authentication required\r\n");
    AsciiAt("-ERR ");
    AsciiAt("-ERR invalid password\r\n");
    hide Ascii;
  }

  /** What the gate says: OK to the password, an error line to everything else. */
  lemma GateAnswers(auth: Auth, cmd: Command)
    ensures CorrectAuth(auth, cmd) ==> GateReply(auth, cmd) == [43, 79, 75, 13, 10]
    ensures !CorrectAuth(auth, cmd) ==> ErrorLine(GateReply(auth, cmd))
  {
    AuthBytes();
    ErrorTexts();
    hide Ascii, ErrorLine;
  }

  /** The commands the gate lets through. */
  function LetThrough(auth: Auth, cmds: seq<Command>): seq<Command> {
    if auth.enabled then AfterAuth(auth, cmds) else cmds
  }

  /** The state of the server after these commands, run one after the other. */
  function StateAfter<S>(exec: Executor<S>, server: S, cmds: seq<Command>): S {
    if cmds == [] then server
    else exec(StateAfter(exec, server, cmds[..|cmds| - 1]), cmds[|cmds| - 1]).0
  }

  /** The reply to command `i`: of the gate while it is closed, then of the command itself. */
  function ReplyAt<S>(auth: Auth, exec: Executor<S>, server: S, cmds: seq<Command>, i: nat): Str
    requires i < |cmds|
  {
    if auth.enabled && !SawAuth(auth, cmds[..i]) then GateReply(auth, cmds[i])
    else ReplyBytes(exec(StateAfter(exec, server, LetThrough(auth, cmds[..i])), cmds[i]).1)
  }

  /**
   * The commands let through run one after the other, each on what the ones before it
   * left, and each command is answered in its place.
   */
  lemma {:induction false} ServeReplies<S>(auth: Auth, exec: Executor<S>, server: S, cmds: seq<Command>)
    ensures var r := Serve(auth, exec, Served(server, !auth.enabled, [], []), cmds);
      && r.server == StateAfter(exec, server, LetThrough(auth, cmds)) && |r.replies| == |cmds|
      && forall i :: 0 <= i < |cmds| ==> r.replies[i] == ReplyAt(auth, exec, server, cmds, i)
    decreases |cmds|
  {
    hide AfterAuth, SawAuth, ServeOne, StateAfter, ReplyAt;
    if cmds == [] {
      NoAuthYet(auth);
      NothingRun(exec, server);
    } else {
      var n := |cmds| - 1;
      ServeReplies(auth, exec, server, cmds[..n]);
      ServeGate(auth, exec, server, cmds[..n]);
      OneReply(auth, exec, server, Serve(auth, exec, Served(server, !auth.enabled, [], []), cmds[..n]), cmds);
      forall i | 0 <= i < n ensures ReplyAt(auth, exec, server, cmds, i) == ReplyAt(auth, exec, server, cmds[..n], i) {
        SamePrefix(auth, exec, server, cmds, n, i);
      }
    }
  }

  lemma NothingRun<S>(exec: Executor<S>, server: S)
    ensures StateAfter(exec, server, []) == server
  {
  }

  lemma SamePrefix<S>(auth: Auth, exec: Executor<S>, server: S, cmds: seq<Command>, n: nat, i: nat)
    requires i < n <= |cmds|
    ensures ReplyAt(auth, exec, server, cmds, i) == ReplyAt(auth, exec, server, cmds[..n], i)
  {
    assert cmds[..n][..i] == cmds[..i];
    hide AfterAuth, SawAuth, GateReply, ReplyBytes, StateAfter;
  }

  /** The last command, and the reply to it. */
  lemma OneReply<S>(auth: Auth, exec: Executor<S>, server: S, s: Served<S>, cmds: seq<Command>)
    requires cmds != []
    requires var before := cmds[..|cmds| - 1];
      && s.server == StateAfter(exec, server, LetThrough(auth, before))
      && s.authed == (!auth.enabled || SawAuth(auth, before))
    ensures var n := |cmds| - 1; var r := ServeOne(auth, exec, s, cmds[n]);
      && r.server == StateAfter(exec, server, LetThrough(auth, cmds))
      && r.replies == s.replies + [ReplyAt(auth, exec, server, cmds, n)]
  {
    var n := |cmds| - 1;
    GateStep(auth, cmds[..n], cmds[n]);
    assert cmds == cmds[..n] + [cmds[n]];
    hide AfterAuth, SawAuth, CorrectAuth, GateReply, ReplyBytes;
    var through := LetThrough(auth, cmds[..n]);
    if !auth.enabled || s.authed {
      assert (through + [cmds[n]])[..|through|] == through;
    }
  }

  /** Without the password nothing is executed, whatever is sent. */
  lemma {:induction false} NoPasswordNoEntry<S>(auth: Auth, exec: Executor<S>, server: S, cmds: seq<Command>)
    requires auth.enabled && forall cmd :: cmd in cmds ==> cmd.args != [auth.password]
    ensures var r := Serve(auth, exec, Served(server, false, [], []), cmds);
      && !r.authed && r.executed == [] && r.server == server
      && |r.replies| == |cmds| && forall i :: 0 <= i < |cmds| ==> |r.replies[i]| > 3 && r.replies[i][0] == 45
    decreases |cmds|
  {
    hide CorrectAuth, GateReply, ReplyBytes;
    if cmds != [] {
      var n := |cmds| - 1;
      assert cmds[n] in cmds && forall cmd :: cmd in cmds[..n] ==> cmd in cmds;
      NoPasswordNoEntry(auth, exec, server, cmds[..n]);
      GateOpensOn(auth, cmds[n]);
      GateAnswers(auth, cmds[n]);
    }
  }

  lemma {:induction false} NoAuthNothing(auth: Auth, cmds: seq<Command>)
    requires !SawAuth(auth, cmds)
    ensures AfterAuth(auth, cmds) == []
  {
    if cmds != [] {
      assert cmds[0] in cmds;
      assert forall c :: c in cmds[1..] ==> c in cmds;
      NoAuthNothing(auth, cmds[1..]);
    }
  }

  lemma FlattenSnoc(parts: seq<Str>, x: Str)
    ensures Flatten(parts + [x]) == Flatten(parts) + x
  {
    assert (parts + [x])[..|parts|] == parts;
  }

  // ---------- The connection ----------

  datatype WriteStatus = Wrote | Again | Broken

  /** Output: nothing lost, nothing duplicated, nothing stuck, one reply per command. */
  ghost predicate OutputInv(sent: Str, pending: Str, replies: seq<Str>, commands: nat, watched: bool) {
    && sent + pending == Flatten(replies)
    && |replies| == commands
    && (pending != [] ==> watched)
  }

  lemma WatchedOrClosed(sent: Str, pending: Str, replies: seq<Str>, commands: nat, watched: bool, open: bool)
    requires OutputInv(sent, pending, replies, commands, watched)
    ensures OutputInv(sent, pending, replies, commands, open ==> watched)
  {
  }

  /** Some pending bytes are sent. */
  lemma Advance(sent: Str, pending: Str, replies: seq<Str>, commands: nat, watched: bool, n: nat)
    requires OutputInv(sent, pending, replies, commands, watched) && n <= |pending|
    ensures OutputInv(sent + pending[..n], pending[n..], replies, commands, watched)
    ensures OutputInv(sent + pending[..n], pending[n..], replies, commands, true)
    ensures pending[n..] == [] ==> OutputInv(sent + pending[..n], pending[n..], replies, commands, false)
  {
    hide Flatten;
    assert sent + pending[..n] + pending[n..] == sent + pending;
  }

  /** A part and then a further part. */
  lemma PartThenPart(out: Str, k: nat, n: nat)
    requires k + n <= |out|
    ensures out[k..][n..] == out[k + n..] && out[..k] + out[k..][..n] == out[..k + n]
  {
  }

  /** The gate: what has been executed is what came after the first correct AUTH. */
  ghost predicate GateInv(auth: Auth, authed: bool, parsed: seq<Command>, executed: seq<Command>) {
    && authed == (!auth.enabled || SawAuth(auth, parsed))
    && executed == if auth.enabled then AfterAuth(auth, parsed) else parsed
  }

  /** Input: the commands so far are those of the whole stream so far. */
  ghost predicate InputInv(received: Str, parsed: seq<Command>, buffer: Str, open: bool) {
    && parsed == Drain(received).cmds
    && (open ==> Drain(received).status.Waiting? && buffer == Drain(received).rest)
  }

  lemma InputClosed(received: Str, parsed: seq<Command>, buffer: Str)
    requires InputInv(received, parsed, buffer, true)
    ensures InputInv(received, parsed, buffer, false)
  {
  }

  /** One more command keeps the output and gate invariants. */
  lemma HandledInv<S>(auth: Auth, exec: Executor<S>, s: Served<S>, parsed: seq<Command>, cmd: Command,
                      sent: Str, pending: Str, watched: bool)
    requires OutputInv(sent, pending, s.replies, |parsed|, watched)
    requires GateInv(auth, s.authed, parsed, s.executed)
    ensures var r := ServeOne(auth, exec, s, cmd);
      && |r.replies| == |s.replies| + 1
      && OutputInv(sent, pending + r.replies[|s.replies|], r.replies, |parsed + [cmd]|, true)
      && GateInv(auth, r.authed, parsed + [cmd], r.executed)
  {
    hide AfterAuth, SawAuth, CorrectAuth, Flatten, GateReply, ReplyBytes;
    GateStep(auth, parsed, cmd);
    var r := ServeOne(auth, exec, s, cmd);
    var reply := r.replies[|s.replies|];
    FlattenSnoc(s.replies, reply);
    assert sent + (pending + reply) == sent + pending + reply;
  }

  lemma FeedIsAfter(d: Drained, chunk: Str)
    requires d.status.Waiting?
    ensures Feed(d, chunk) == After(d.cmds, Drain(d.rest + chunk))
    ensures Feed(d, chunk).cmds == d.cmds + Drain(d.rest + chunk).cmds
    ensures Feed(d, chunk).rest == Drain(d.rest + chunk).rest
    ensures Feed(d, chunk).status == Drain(d.rest + chunk).status
  {
  }

  /** How a round of reading ended: nothing more for now, end of file, or an error. */
  datatype ReadEnd = WouldBlock | EndOfFile | ReadFailed

  /**
   * ClientState, with what has been observed of it: the bytes received and sent,
   * and the outcome of serving every command parsed so far.
   */
  class Client<S> {
    const auth: Auth
    const exec: Executor<S>
    var buffer: Str
    var writeBuffer: Str
    var writeEnabled: bool
    var authed: bool
    var open: bool
    ghost var received: Str  // the bytes handed to the parser
    ghost var sent: Str
    ghost var parsed: seq<Command>
    ghost var replies: seq<Str>
    ghost var executed: seq<Command>

    ghost predicate Valid()
      reads this
    {
      && OutputInv(sent, writeBuffer, replies, |parsed|, open ==> writeEnabled)
      && GateInv(auth, authed, parsed, executed)
      && InputInv(received, parsed, buffer, open)
    }

    /** accept */
    constructor (auth: Auth, exec: Executor<S>)
      ensures Valid() && open && received == [] && sent == []
      ensures this.auth == auth && this.exec == exec
    {
      this.auth, this.exec := auth, exec;
      buffer, writeBuffer, writeEnabled, authed, open := [], [], false, !auth.enabled, true;
      received, sent, parsed, replies, executed := [], [], [], [], [];
      new;
      assert Drain([]) == Drained([], [], Waiting);
    }

    /** queueWrite, with enableWrite */
    method QueueWrite(data: Str)
      requires open
      modifies this`writeBuffer, this`writeEnabled
      ensures writeBuffer == old(writeBuffer) + data && writeEnabled
    {
      writeBuffer := writeBuffer + data;
      writeEnabled := true;
    }

    /** One command of the drain loop, from the gate to the queued reply. */
    method HandleCommand(cmd: Command, server: S) returns (server': S)
      requires open
      requires OutputInv(sent, writeBuffer, replies, |parsed|, writeEnabled)
      requires GateInv(auth, authed, parsed, executed)
      modifies this`writeBuffer, this`writeEnabled, this`authed, this`parsed, this`replies, this`executed
      ensures OutputInv(sent, writeBuffer, replies, |parsed|, writeEnabled)
      ensures GateInv(auth, authed, parsed, executed)
      ensures parsed == old(parsed) + [cmd]
      ensures Served(server', authed, replies, executed)
        == ServeOne(auth, exec, Served(server, old(authed), old(replies), old(executed)), cmd)
    {
      hide OutputInv, GateInv, ReplyBytes, Ascii, Upper;
      HandledInv(auth, exec, Served(server, authed, replies, executed), parsed, cmd, sent, writeBuffer, writeEnabled);
      ghost var reply;
      server' := server;
      if auth.enabled && !authed {
        reply := GateReply(auth, cmd);
        if Upper(cmd.name) != Ascii("AUTH") {
          QueueWrite(Ascii("-NOAUTH Authentication required\r\n"));
        } else if |cmd.args| != 1 {
          QueueWrite(WRONG_AUTH);
        } else if cmd.args[0] == auth.password {
          authed := true;
          QueueWrite(Ascii("+OK\r\n"));
        } else {
          QueueWrite(Ascii("-ERR invalid password\r\n"));
        }
      } else {
        var (next, resp) := exec(server, cmd);
        server' := next;
        executed := executed + [cmd];
        reply := ReplyBytes(resp);
        QueueWrite(ReplyBytes(resp));
      }
      parsed := parsed + [cmd];
      replies := replies + [reply];
    }

    /**
     * read: chunks arrive until the socket has no more for now, and the buffer is
     * drained. When the socket reports its end or an error instead, the connection
     * is closed and what arrived in this call is never parsed. `server` is the shared
     * server state before and after.
     */
    method Read(chunks: seq<Str>, end: ReadEnd, server: S) returns (server': S, panicked: bool)
      requires Valid() && open
      modifies this
      ensures Valid() && sent == old(sent)
      ensures end.WouldBlock? ==>
        var d := Drain(old(buffer) + Flatten(chunks));
        && received == old(received) + Flatten(chunks) && parsed == old(parsed) + d.cmds
        && Served(server', authed, replies, executed)
           == Serve(auth, exec, Served(server, old(authed), old(replies), old(executed)), d.cmds)
        && open == d.status.Waiting? && panicked == d.status.Panicked?
      ensures !end.WouldBlock? ==>
        && !open && !panicked && server' == server && buffer == old(buffer) + Flatten(chunks)
        && authed == old(authed) && received == old(received) && parsed == old(parsed)
        && replies == old(replies) && executed == old(executed)
    {
      hide OutputInv, GateInv, Drain, Serve, After;
      for i := 0 to |chunks|
        invariant buffer == old(buffer) + Flatten(chunks[..i])
        invariant open && unchanged(this`writeBuffer, this`writeEnabled, this`authed, this`received, this`sent)
        invariant unchanged(this`parsed, this`replies, this`executed)
      {
        assert chunks[..i + 1][..i] == chunks[..i];
        buffer := buffer + chunks[i];
      }
      assert chunks[..|chunks|] == chunks;
      if !end.WouldBlock? {
        open := false;
        WatchedOrClosed(sent, writeBuffer, replies, |parsed|, writeEnabled, open);
        return server, false;
      }
      DrainSplit(received, Flatten(chunks));
      FeedIsAfter(Drain(received), Flatten(chunks));
      received := received + Flatten(chunks);
      server', panicked := DrainBuffer(server);
      WatchedOrClosed(sent, writeBuffer, replies, |parsed|, writeEnabled, open);
    }

    /** The drain loop (eventloop_linux.go:184-234). */
    method DrainBuffer(server: S) returns (server': S, panicked: bool)
      requires open && OutputInv(sent, writeBuffer, replies, |parsed|, writeEnabled)
      requires GateInv(auth, authed, parsed, executed)
      modifies this`buffer, this`open, this`writeBuffer, this`writeEnabled, this`authed,
               this`parsed, this`replies, this`executed
      ensures OutputInv(sent, writeBuffer, replies, |parsed|, writeEnabled)
      ensures GateInv(auth, authed, parsed, executed)
      ensures var d := Drain(old(buffer));
        && parsed == old(parsed) + d.cmds
        && Served(server', authed, replies, executed)
           == Serve(auth, exec, Served(server, old(authed), old(replies), old(executed)), d.cmds)
        && buffer == d.rest && open == d.status.Waiting? && panicked == d.status.Panicked?
    {
      hide ParseBytes, ServeOne, OutputInv, GateInv, Drain;
      ghost var start := Served(server, authed, replies, executed);
      ghost var whole, cmds := Drain(buffer), [];
      assert After([], whole) == whole;
      server' := server;
      panicked := false;
      while true
        invariant open && OutputInv(sent, writeBuffer, replies, |parsed|, writeEnabled)
        invariant GateInv(auth, authed, parsed, executed)
        invariant parsed == old(parsed) + cmds && whole == After(cmds, Drain(buffer))
        invariant Served(server', authed, replies, executed) == Serve(auth, exec, start, cmds)
        decreases |buffer|
      {
        var r := ParseCommandFromBytes(buffer);
        if r.Invalid? || r.Fault? {
          DrainStops(cmds, buffer);
          open := false;
          panicked := r.Fault?;
          return;
        }
        if r.Incomplete? || r.cmd.None? {
          DrainStops(cmds, buffer);
          return;
        }
        DrainTakes(cmds, buffer);
        buffer := buffer[r.consumed..];
        server' := HandleCommand(r.cmd.value, server');
        assert (cmds + [r.cmd.value])[..|cmds|] == cmds;
        cmds := cmds + [r.cmd.value];
      }
    }

    /** write: any number of partial writes, until the buffer or the socket is exhausted. */
    method Write() returns (blocked: bool)
      requires Valid() && open
      modifies this`writeBuffer, this`writeEnabled, this`open, this`sent
      ensures Valid()
      ensures exists n :: 0 <= n <= |old(writeBuffer)| && sent == old(sent) + old(writeBuffer)[..n]
                          && writeBuffer == old(writeBuffer)[n..]
      ensures open && !blocked && writeBuffer == [] ==> !writeEnabled
    {
      hide OutputInv, InputInv, GateInv;
      blocked := false;
      ghost var out, k := writeBuffer, 0;
      while |writeBuffer| > 0
        invariant Valid() && open
        invariant 0 <= k <= |out| && writeBuffer == out[k..] && sent == old(sent) + out[..k]
        decreases |writeBuffer|
      {
        var n: nat :| n <= |writeBuffer|;
        var status: WriteStatus := *;
        Advance(sent, writeBuffer, replies, |parsed|, open ==> writeEnabled, n);
        PartThenPart(out, k, n);
        sent := sent + writeBuffer[..n];
        writeBuffer := writeBuffer[n..];
        k := k + n;
        if status == Again {
          writeEnabled := true;
          blocked := true;
          return;
        }
        if status == Broken {
          open := false;
          InputClosed(received, parsed, buffer);
          return;
        }
        if n == 0 {
          break;
        }
      }
      if |writeBuffer| == 0 {
        Advance(sent, writeBuffer, replies, |parsed|, open ==> writeEnabled, 0);
        assert writeBuffer[0..] == writeBuffer && sent + writeBuffer[..0] == sent;
        writeEnabled := false;
      }
    }
  }
}
