/** Writing to a client without blocking: what does not go out now waits, in order, in `outbound`. */
module ClientIo {
  import opened Ints
  import opened Wrappers
  import opened Sequences

  const OUTBOUND_CAP: nat := 4 * 1024 * 1024
  const CHUNK: nat := 8 * 1024

  /** How the socket answers one write, and how much of the ring buffer was contiguous then. */
  datatype Reply = Took(contiguous: nat, count: nat) | Blocked | PeerGone | Broken

  datatype Outcome = Done | WouldBlock | Disconnect | Failed

  /** The bytes the peer can read, the bytes still queued, and the answers the socket will give.
      A socket that has no answer left would block. */
  datatype Client = Client(wire: seq<Byte>, outbound: seq<Byte>, replies: seq<Reply>)

  function Ask(c: Client): Reply {
    if c.replies == [] then Blocked else c.replies[0]
  }

  function Asked(c: Client): Client {
    if c.replies == [] then c else c.(replies := c.replies[1..])
  }

  /** Part of a nonempty queue's front slice, at most eight kilobytes. */
  function ChunkLength(queued: nat, contiguous: nat): (n: nat)
    requires queued > 0
    ensures 0 < n <= queued && n <= CHUNK
  {
    Min(if 0 < contiguous < queued then contiguous else queued, CHUNK)
  }

  function OutcomeOf(r: Reply): Outcome {
    match r
    case Took(_, _) => Done
    case Blocked => WouldBlock
    case PeerGone => Disconnect
    case Broken => Failed
  }

  function Drain(c: Client): (Outcome, Client)
    decreases |c.outbound|
  {
    if c.outbound == [] then (Done, c)
    else
      var r := Ask(c);
      if !r.Took? then (OutcomeOf(r), Asked(c))
      else
        var n := Min(r.count, ChunkLength(|c.outbound|, r.contiguous));
        if n == 0 then (Disconnect, Asked(c))
        else Drain(Asked(c).(wire := c.wire + c.outbound[..n], outbound := c.outbound[n..]))
  }

  function Enqueue(c: Client, bytes: seq<Byte>): (Outcome, Client) {
    if c.outbound != [] && |c.outbound| + |bytes| > OUTBOUND_CAP then (Disconnect, c)
    else (WouldBlock, c.(outbound := c.outbound + bytes))
  }

  function WriteDirectly(c: Client, bytes: seq<Byte>): (Outcome, Client) {
    var r := Ask(c);
    if r.Took? then
      var n := Min(r.count, |bytes|);
      var sent := Asked(c).(wire := c.wire + bytes[..n]);
      if n == |bytes| then (Done, sent)
      else if n == 0 then (Disconnect, sent)
      else Enqueue(sent, bytes[n..])
    else if r.Blocked? then Enqueue(Asked(c), bytes)
    else (OutcomeOf(r), Asked(c))
  }

  function Send(c: Client, bytes: seq<Byte>): (Outcome, Client) {
    if c.outbound == [] then WriteDirectly(c, bytes)
    else
      var (o, d) := Drain(c);
      if o.Done? then WriteDirectly(d, bytes)
      else if o.WouldBlock? then Enqueue(d, bytes)
      else (o, d)
  }

  class ClientState {
    var outbound: seq<Byte>
    var wire: seq<Byte>
    var replies: seq<Reply>

    function Value(): Client reads this {
      Client(wire, outbound, replies)
    }

    constructor ()
      ensures Value() == Client([], [], [])
    {
      outbound, wire, replies := [], [], [];
    }

    /** One write to the socket. */
    method Write(bytes: seq<Byte>, contiguous: nat) returns (r: Reply)
      modifies this`wire, this`replies
      ensures var c := old(Value());
              r == (if Ask(c).Took? then Took(contiguous, Min(Ask(c).count, |bytes|)) else Ask(c))
              && replies == Asked(c).replies
              && wire == if r.Took? then c.wire + bytes[..r.count] else c.wire
    {
      r := if replies == [] then Blocked else replies[0];
      if replies != [] {
        replies := replies[1..];
      }
      if r.Took? {
        var n := Min(r.count, |bytes|);
        r := Took(contiguous, n);
        wire := wire + bytes[..n];
      }
    }

    method DrainOutbound() returns (o: Outcome)
      modifies this
      ensures (o, Value()) == Drain(old(Value()))
    {
      while outbound != []
        invariant Drain(Value()) == Drain(old(Value()))
        decreases |outbound|
      {
        ghost var c := Value();
        var contiguous := if replies != [] && replies[0].Took? then replies[0].contiguous else 0;
        var length := ChunkLength(|outbound|, contiguous);
        var chunk := outbound[..length];
        var r := Write(chunk, contiguous);
        match r {
          case Took(_, n) =>
            if n == 0 {
              assert wire == c.wire;
              return Disconnect;
            }
            assert chunk[..n] == outbound[..n];
            outbound := outbound[n..];
          case Blocked => return WouldBlock;
          case PeerGone => return Disconnect;
          case Broken => return Failed;
        }
      }
      return Done;
    }

    method BufferOrDisconnect(bytes: seq<Byte>) returns (o: Outcome)
      modifies this`outbound
      ensures (o, Value()) == Enqueue(old(Value()), bytes)
    {
      if outbound != [] && |outbound| + |bytes| > OUTBOUND_CAP {
        return Disconnect;
      }
      outbound := outbound + bytes;
      return WouldBlock;
    }

    method WriteOrBuffer(bytes: seq<Byte>) returns (o: Outcome)
      modifies this
      ensures (o, Value()) == Send(old(Value()), bytes)
    {
      if outbound != [] {
        o := DrainOutbound();
        match o {
          case Done =>
          case WouldBlock =>
            o := BufferOrDisconnect(bytes);
            return;
          case Disconnect => return;
          case Failed => return;
        }
      }
      var r := Write(bytes, 0);
      match r {
        case Took(_, n) =>
          if n == |bytes| {
            return Done;
          }
          if n == 0 {
            return Disconnect;
          }
          o := BufferOrDisconnect(bytes[n..]);
        case Blocked => o := BufferOrDisconnect(bytes);
        case PeerGone => o := Disconnect;
        case Broken => o := Failed;
      }
    }
  }

  // ----- No byte is lost, doubled or moved -----

  /** Everything the client was given so far, in the order it was given. */
  function Stream(c: Client): seq<Byte> {
    c.wire + c.outbound
  }

  lemma {:induction false} DrainConserves(c: Client)
    ensures var (o, d) := Drain(c);
            && Stream(d) == Stream(c)
            && c.wire <= d.wire
            && (o.Done? <==> d.outbound == [])
            && |d.outbound| <= |c.outbound|
    decreases |c.outbound|
  {
    if c.outbound != [] && Ask(c).Took? {
      var r := Ask(c);
      var n := Min(r.count, ChunkLength(|c.outbound|, r.contiguous));
      if n > 0 {
        var d := Asked(c).(wire := c.wire + c.outbound[..n], outbound := c.outbound[n..]);
        assert c.outbound == c.outbound[..n] + c.outbound[n..];
        assert Stream(d) == Stream(c);
        DrainConserves(d);
      }
    }
  }

  predicate Accepted(o: Outcome) {
    o.Done? || o.WouldBlock?
  }

  lemma DirectWriteIsAllOrNothing(c: Client, bytes: seq<Byte>)
    requires c.outbound == []
    ensures var (o, d) := WriteDirectly(c, bytes);
            && Stream(d) == Stream(c) + (if Accepted(o) then bytes else [])
            && c.wire <= d.wire
            && (o.Done? ==> d.outbound == [])
            && (d.outbound == [] ==> o.Done? || !Accepted(o) || bytes == [])
            && |d.outbound| <= |bytes|
  {
    var r := Ask(c);
    if r.Took? {
      var n := Min(r.count, |bytes|);
      assert bytes == bytes[..n] + bytes[n..];
      assert bytes[..|bytes|] == bytes;
    }
  }

  /** A payload joins the stream as a whole or not at all; Done means the peer has everything, and a
      payload that was taken otherwise leaves bytes waiting. */
  lemma SendIsAllOrNothing(c: Client, bytes: seq<Byte>)
    ensures var (o, d) := Send(c, bytes);
            && Stream(d) == Stream(c) + (if Accepted(o) then bytes else [])
            && c.wire <= d.wire
            && (o.Done? ==> d.outbound == [])
            && (o.WouldBlock? && bytes != [] ==> d.outbound != [])
            && |d.outbound| <= Max(|c.outbound|, Max(OUTBOUND_CAP, |bytes|))
  {
    DrainConserves(c);
    if c.outbound == [] {
      DirectWriteIsAllOrNothing(c, bytes);
    } else {
      var (o, d) := Drain(c);
      if o.Done? {
        DirectWriteIsAllOrNothing(d, bytes);
      } else {
        assert Stream(d) + bytes == d.wire + (d.outbound + bytes);
      }
    }
  }

  // ----- What ends a write -----

  /** A flush goes on while the socket takes bytes. It ends with an empty queue, or with the first answer that is
      none or nothing, and says which. */
  lemma {:induction false} DrainStops(c: Client) returns (k: nat)
    ensures k <= |c.replies| && forall i :: 0 <= i < k ==> c.replies[i].Took? && c.replies[i].count > 0
    ensures var (o, d) := Drain(c);
            if d.outbound == [] then o == Done && d.replies == c.replies[k..]
            else if k == |c.replies| then o == WouldBlock && d.replies == []
            else d.replies == c.replies[k + 1..]
                 && match c.replies[k]
                    case Took(_, n) => n == 0 && o == Disconnect
                    case Blocked => o == WouldBlock
                    case PeerGone => o == Disconnect
                    case Broken => o == Failed
    decreases |c.outbound|
  {
    hide ChunkLength;
    k := 0;
    if c.outbound != [] && Ask(c).Took? && Ask(c).count > 0 {
      var r := Ask(c);
      var n := Min(r.count, ChunkLength(|c.outbound|, r.contiguous));
      var d := Asked(c).(wire := c.wire + c.outbound[..n], outbound := c.outbound[n..]);
      var l := DrainStops(d);
      k := l + 1;
    }
  }

  /** The last answer that the socket has given in between, if it has given any. */
  function LastAnswer(before: Client, after: Client): Option<Reply> {
    var n := |before.replies| - |after.replies|;
    if 0 < n <= |before.replies| then Some(before.replies[n - 1]) else None
  }

  lemma DrainAnswer(c: Client)
    ensures var (o, d) := Drain(c); var last := LastAnswer(c, d);
            && (exists k: nat :: k <= |c.replies| && d.replies == c.replies[k..])
            && (o == Failed <==> last == Some(Broken))
            && (o == Disconnect <==> last == Some(PeerGone) || (last.Some? && last.value.Took? && last.value.count == 0))
  {
    hide Drain;
    var k := DrainStops(c);
    var d := Drain(c).1;
    if d.outbound == [] || k == |c.replies| {
      NothingMore(c, d, k);
    } else {
      assert d.replies == c.replies[k + 1..];
    }
  }

  /** After `k` answers that took bytes the last answer is one of them. */
  lemma NothingMore(c: Client, d: Client, k: nat)
    requires k <= |c.replies| && d.replies == c.replies[k..]
    requires forall i :: 0 <= i < k ==> c.replies[i].Took? && c.replies[i].count > 0
    ensures var last := LastAnswer(c, d); last.Some? ==> last.value.Took? && last.value.count > 0
  {
  }

  /** A payload fails only because of the socket's last answer, or is refused for the cap: a broken socket is an
      error, a peer that is gone or takes nothing a disconnection. */
  lemma SendEnds(c: Client, bytes: seq<Byte>)
    ensures var (o, d) := Send(c, bytes); var last := LastAnswer(c, d);
            && (o == Failed <==> last == Some(Broken))
            && (last == Some(PeerGone) ==> o == Disconnect)
            && (o == Disconnect ==>
                  || last == Some(PeerGone) || (last.Some? && last.value.Took? && last.value.count == 0)
                  || (d.outbound != [] && |d.outbound| + |bytes| > OUTBOUND_CAP))
  {
    DrainAnswer(c);
    if c.outbound == [] {
      DirectAnswer(c, c, bytes);
    } else {
      var (o, d) := Drain(c);
      hide Drain;
      if o.Done? {
        DrainConserves(c);
        DirectAnswer(c, d, bytes);
      }
    }
  }

  lemma DirectAnswer(b: Client, c: Client, bytes: seq<Byte>)
    requires c.outbound == [] && exists k: nat :: k <= |b.replies| && c.replies == b.replies[k..]
    requires var last := LastAnswer(b, c);
             last != Some(Broken) && last != Some(PeerGone) && !(last.Some? && last.value.Took? && last.value.count == 0)
    ensures var (o, d) := WriteDirectly(c, bytes); var last := LastAnswer(b, d);
            && (o == Failed <==> last == Some(Broken))
            && (last == Some(PeerGone) ==> o == Disconnect)
            && (o == Disconnect ==> last == Some(PeerGone) || (last.Some? && last.value.Took? && last.value.count == 0))
  {
    hide LastAnswer, Enqueue, Asked;
    NextAnswer(b, c);
    DirectReplies(b, c, bytes);
    DirectOutcome(c, bytes);
    hide WriteDirectly;
  }

  lemma DirectOutcome(c: Client, bytes: seq<Byte>)
    requires c.outbound == []
    ensures var o, r := WriteDirectly(c, bytes).0, Ask(c);
            && (o == Failed <==> r == Broken) && (r == PeerGone ==> o == Disconnect)
            && (o == Disconnect ==> r == PeerGone || (r.Took? && r.count == 0))
            && (c.replies == [] ==> r == Blocked)
  {
  }

  lemma NextAnswer(b: Client, c: Client)
    requires exists k: nat :: k <= |b.replies| && c.replies == b.replies[k..]
    ensures LastAnswer(b, Asked(c)) == if c.replies != [] then Some(Ask(c)) else LastAnswer(b, c)
  {
    var k: nat :| k <= |b.replies| && c.replies == b.replies[k..];
    if c.replies != [] {
      assert c.replies[0] == b.replies[k];
    }
  }

  lemma DirectReplies(b: Client, c: Client, bytes: seq<Byte>)
    ensures LastAnswer(b, WriteDirectly(c, bytes).1) == LastAnswer(b, Asked(c))
  {
  }

  // ----- Whole connections -----

  /** What the core does with a connection: send a payload, or flush when the socket is writable. */
  datatype Job = Payload(bytes: seq<Byte>) | Flush

  function Serve(c: Client, j: Job): (Outcome, Client) {
    match j
    case Payload(bytes) => Send(c, bytes)
    case Flush => Drain(c)
  }

  /** The payloads the connection took, in order, and the client afterwards. */
  function ServeAll(c: Client, js: seq<Job>): (seq<Byte>, Client)
    decreases |js|
  {
    if js == [] then ([], c)
    else
      var (rest, d) := ServeAll(Serve(c, js[0]).1, js[1..]);
      (Taken(c, js[0]) + rest, d)
  }

  function Biggest(js: seq<Job>): nat {
    if js == [] then 0
    else Max(if js[0].Payload? then |js[0].bytes| else 0, Biggest(js[1..]))
  }

  function Taken(c: Client, j: Job): seq<Byte> {
    if j.Payload? && Accepted(Serve(c, j).0) then j.bytes else []
  }

  lemma ServeConserves(c: Client, j: Job)
    ensures var d := Serve(c, j).1;
            && Stream(d) == Stream(c) + Taken(c, j)
            && c.wire <= d.wire
            && |d.outbound| <= Max(|c.outbound|, Max(OUTBOUND_CAP, Biggest([j])))
  {
    DrainConserves(c);
    if j.Payload? {
      SendIsAllOrNothing(c, j.bytes);
    }
  }

  /** Whatever the socket does: the bytes at the peer followed by the queue are exactly the payloads
      taken, in order, and the queue never outgrows the cap and the biggest single payload. */
  lemma {:induction false} ConnectionConserves(c: Client, js: seq<Job>)
    ensures var (taken, d) := ServeAll(c, js);
            && Stream(d) == Stream(c) + taken
            && c.wire <= d.wire
            && |d.outbound| <= Max(|c.outbound|, Max(OUTBOUND_CAP, Biggest(js)))
    decreases |js|
  {
    hide Serve, Accepted, Stream;
    if js == [] {
      assert Stream(c) + [] == Stream(c);
    } else {
      var d := Serve(c, js[0]).1;
      ServeConserves(c, js[0]);
      ConnectionConserves(d, js[1..]);
      SeqAssoc(Stream(c), Taken(c, js[0]), ServeAll(d, js[1..]).0);
    }
  }

  lemma {:induction false} FlushEnds(c: Client)
    requires |c.replies| >= |c.outbound|
    requires forall i :: 0 <= i < |c.replies| ==> c.replies[i].Took? && c.replies[i].count > 0
    ensures Drain(c).0 == Done
    decreases |c.outbound|
  {
    hide ChunkLength;
    if c.outbound == [] {
    } else {
      var r := Ask(c);
      var n := Min(r.count, ChunkLength(|c.outbound|, r.contiguous));
      FlushEnds(Asked(c).(wire := c.wire + c.outbound[..n], outbound := c.outbound[n..]));
    }
  }

  /** A flush gets everything out once the socket takes at least a byte as often as there are bytes. */
  lemma FlushDelivers(c: Client)
    requires |c.replies| >= |c.outbound|
    requires forall i :: 0 <= i < |c.replies| ==> c.replies[i].Took? && c.replies[i].count > 0
    ensures Drain(c).0 == Done && Drain(c).1.wire == Stream(c)
  {
    FlushEnds(c);
    DrainConserves(c);
    hide Drain;
    assert Drain(c).1.wire + [] == Drain(c).1.wire;
  }

  /** A client is cut off for being slow exactly when the queue is stuck and the payload would take it
      past the cap; a payload finding the queue empty is never refused for its size. */
  lemma SlowClientIff(c: Client, bytes: seq<Byte>)
    requires forall i :: 0 <= i < |c.replies| ==> c.replies[i].Blocked? || (c.replies[i].Took? && c.replies[i].count > 0)
    ensures var (o, d) := Drain(c);
            Send(c, bytes).0 == Disconnect <==> o.WouldBlock? && |d.outbound| + |bytes| > OUTBOUND_CAP
  {
    HealthySocket(c);
    DrainConserves(c);
    var (o, d) := Drain(c);
    if o.Done? {
      HealthySocket(d);
    }
  }

  /** A socket that never fails never makes a flush fail. */
  lemma {:induction false} HealthySocket(c: Client)
    requires forall i :: 0 <= i < |c.replies| ==> c.replies[i].Blocked? || (c.replies[i].Took? && c.replies[i].count > 0)
    ensures Accepted(Drain(c).0)
    ensures forall i :: 0 <= i < |Drain(c).1.replies| ==>
      Drain(c).1.replies[i].Blocked? || (Drain(c).1.replies[i].Took? && Drain(c).1.replies[i].count > 0)
    decreases |c.outbound|
  {
    if c.outbound != [] && Ask(c).Took? {
      var r := Ask(c);
      var n := Min(r.count, ChunkLength(|c.outbound|, r.contiguous));
      HealthySocket(Asked(c).(wire := c.wire + c.outbound[..n], outbound := c.outbound[n..]));
    }
  }
}
