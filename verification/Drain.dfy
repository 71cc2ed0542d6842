/**
 * The drain loop of the event loop (pkg/server/eventloop_linux.go:184-198) and
 * its independence from how the network cuts the byte stream.
 */
module Draining {
  import opened Bytes
  import opened Resp

  datatype Status = Waiting | Closed(error: ParseError) | Panicked

  datatype Drained = Drained(cmds: seq<Command>, rest: Str, status: Status)

  /**
   * One read pass over the buffer. It stops at a line or an array that parses to
   * no command, without consuming it, as the source does.
   */
  function Drain(buf: Str): Drained
    decreases |buf|
  {
    match ParseBytes(buf)
    case Incomplete => Drained([], buf, Waiting)
    case Invalid(e) => Drained([], buf, Closed(e))
    case Fault => Drained([], buf, Panicked)
    case Parsed(None, _) => Drained([], buf, Waiting)
    case Parsed(Some(cmd), n) => After([cmd], Drain(buf[n..]))
  }

  function After(cmds: seq<Command>, d: Drained): Drained {
    d.(cmds := cmds + d.cmds)
  }

  lemma AfterTwice(a: seq<Command>, b: seq<Command>, d: Drained)
    ensures After(a, After(b, d)) == After(a + b, d)
  {
    assert a + (b + d.cmds) == a + b + d.cmds;
  }

  lemma DrainOnce(buf: Str)
    requires ParseBytes(buf).Parsed? && ParseBytes(buf).cmd.Some?
    ensures var p := ParseBytes(buf); Drain(buf) == After([p.cmd.value], Drain(buf[p.consumed..]))
  {
    hide ParseBytes, After;
  }

  /** One round of the drain loop that finds a command. */
  lemma DrainTakes(cmds: seq<Command>, buf: Str)
    requires ParseBytes(buf).Parsed? && ParseBytes(buf).cmd.Some?
    ensures var p := ParseBytes(buf);
      After(cmds, Drain(buf)) == After(cmds + [p.cmd.value], Drain(buf[p.consumed..]))
  {
    hide ParseBytes, Drain, After;
    var p := ParseBytes(buf);
    DrainOnce(buf);
    AfterTwice(cmds, [p.cmd.value], Drain(buf[p.consumed..]));
  }

  /** The round that ends it. */
  lemma DrainStops(cmds: seq<Command>, buf: Str)
    requires !(ParseBytes(buf).Parsed? && ParseBytes(buf).cmd.Some?)
    ensures After(cmds, Drain(buf)) == Drained(cmds, buf, Drain(buf).status)
    ensures Drain(buf).status.Waiting? <==> ParseBytes(buf).Incomplete? || ParseBytes(buf).Parsed?
    ensures Drain(buf).status.Panicked? <==> ParseBytes(buf).Fault?
  {
    hide ParseBytes;
    assert cmds + [] == cmds;
  }

  /** A connection after some read passes; a closed one takes no more input. */
  function Feed(d: Drained, chunk: Str): Drained {
    if d.status.Waiting? then After(d.cmds, Drain(d.rest + chunk)) else d
  }

  function FeedAll(chunks: seq<Str>): Drained {
    if chunks == [] then Drained([], [], Waiting)
    else Feed(FeedAll(chunks[..|chunks| - 1]), chunks[|chunks| - 1])
  }

  function Flatten(chunks: seq<Str>): Str {
    if chunks == [] then [] else Flatten(chunks[..|chunks| - 1]) + chunks[|chunks| - 1]
  }

  /** Same commands and same status; the same unread bytes while the connection is open. */
  predicate SameOutcome(a: Drained, b: Drained) {
    && a.cmds == b.cmds
    && a.status == b.status
    && (a.status.Waiting? ==> a.rest == b.rest)
  }

  /** Where a pass ends, and how: at the first bytes that are no command, an error closing the connection. */
  lemma {:induction false} DrainEnds(buf: Str)
    ensures var d := Drain(buf);
      && |d.rest| <= |buf| && d.rest == buf[|buf| - |d.rest|..]
      && match ParseBytes(d.rest)
         case Incomplete => d.status == Waiting
         case Invalid(e) => d.status == Closed(e)
         case Fault => d.status == Panicked
         case Parsed(cmd, _) => cmd == None && d.status == Waiting
    decreases |buf|
  {
    hide ParseBytes;
    var p := ParseBytes(buf);
    if p.Parsed? && p.cmd.Some? {
      DrainEnds(buf[p.consumed..]);
    }
  }

  /** Draining in two passes is draining once. */
  lemma {:induction false} DrainSplit(a: Str, b: Str)
    ensures SameOutcome(Feed(Drain(a), b), Drain(a + b))
    decreases |a|
  {
    hide ParseBytes;
    var p := ParseBytes(a);
    if p.Parsed? && p.cmd.Some? {
      ParseExtend(a, b);
      var n := p.consumed;
      assert (a + b)[n..] == a[n..] + b;
      DrainSplit(a[n..], b);
      var d := Drain(a[n..]);
      if d.status.Waiting? {
        var e := Drain(d.rest + b);
        assert [p.cmd.value] + (d.cmds + e.cmds) == [p.cmd.value] + d.cmds + e.cmds;
      }
    } else if p.Invalid? || p.Fault? {
      ParseExtend(a, b);
    } else {
      assert Drain(a) == Drained([], a, Waiting);
    }
  }

  lemma FeedSame(d: Drained, e: Drained, chunk: Str)
    requires SameOutcome(d, e)
    ensures SameOutcome(Feed(d, chunk), Feed(e, chunk))
  {
  }

  /**
   * Chunking independence: however the stream is cut into read passes, the
   * connection yields exactly the commands, and ends in the status, of parsing
   * the whole stream at once.
   */
  lemma {:induction false} ChunkingIndependence(chunks: seq<Str>)
    ensures SameOutcome(FeedAll(chunks), Drain(Flatten(chunks)))
    decreases |chunks|
  {
    if chunks != [] {
      var front, last := chunks[..|chunks| - 1], chunks[|chunks| - 1];
      ChunkingIndependence(front);
      FeedSame(FeedAll(front), Drain(Flatten(front)), last);
      DrainSplit(Flatten(front), last);
    }
  }

  /** The stream of a client that sends these commands. */
  function Stream(requests: seq<seq<Str>>): Str {
    if requests == [] then [] else Encode(requests[0]) + Stream(requests[1..])
  }

  lemma {:induction false} StreamSnoc(rs: seq<seq<Str>>, r: seq<Str>)
    ensures Stream(rs + [r]) == Stream(rs) + Encode(r)
  {
    hide Encode;
    if rs == [] {
      assert rs + [r] == [r] && [r][1..] == [];
    } else {
      assert (rs + [r])[1..] == rs[1..] + [r];
      StreamSnoc(rs[1..], r);
    }
  }

  function Commands(requests: seq<seq<Str>>): seq<Command>
    requires forall r :: r in requests ==> InLimits(r)
  {
    if requests == [] then []
    else
      assert InLimits(requests[0]);
      [ToCommand(requests[0])] + Commands(requests[1..])
  }

  lemma {:induction false} DrainStream(requests: seq<seq<Str>>)
    requires forall r :: r in requests ==> InLimits(r)
    ensures Drain(Stream(requests)) == Drained(Commands(requests), [], Waiting)
    decreases |requests|
  {
    if requests != [] {
      hide ParseBytes, Encode;
      var e, tail := Encode(requests[0]), Stream(requests[1..]);
      RoundTrip(requests[0], tail);
      assert (e + tail)[|e|..] == tail;
      DrainStream(requests[1..]);
    } else {
      assert ParseBytes([]) == Incomplete;
    }
  }

  /** A well-behaved client: its commands arrive, all of them, in order, whatever the cuts. */
  lemma RequestsArrive(requests: seq<seq<Str>>, chunks: seq<Str>)
    requires forall r :: r in requests ==> InLimits(r)
    requires Flatten(chunks) == Stream(requests)
    ensures FeedAll(chunks) == Drained(Commands(requests), [], Waiting)
  {
    ChunkingIndependence(chunks);
    DrainStream(requests);
  }
}
