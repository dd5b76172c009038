/** Message framing over a byte stream (src/net.h:8-29, 111-121, 210-224, 248-290). */
module Framing {
  import opened Basics
  import opened Codec

  const M_HELLO: byte := 1
  const M_TIP: byte := 2
  const MAX_FRAME := 8 * 1024 * 1024
  const MAX_INBUF := 16 * 1024 * 1024

  /** Our own side of a link. */
  datatype Config = Config(netId: u32, listenPort: u16, outbound: bool)

  /** What a link remembers besides its input buffer. */
  datatype Link = Link(
    ready: bool,
    dead: bool,
    dedupDrop: bool,
    peerPort: u16,
    tipHeight: u64,
    tipWork: u64,
    tipHash: H256
  )

  datatype Event = Ready | Msg(kind: byte, payload: Bytes)

  datatype Frame = Frame(kind: byte, payload: Bytes)

  // ---------- what the parser must do ----------

  function FrameBytes(f: Frame): Bytes {
    LE(|f.payload| % U32, 4) + [f.kind] + f.payload
  }

  /** One complete frame. */
  function Receive(c: Config, l: Link, kind: byte, payload: Bytes): (Link, seq<Event>) {
    if kind == M_HELLO then
      if |payload| < 10 || U32At(payload, 0) != c.netId then (l.(dead := true), [])
      else
        var port := U16At(payload, 8);
        if port != 0 && (c.listenPort < port) != c.outbound then
          (l.(peerPort := port, dead := true, dedupDrop := true), [])
        else
          (l.(peerPort := port, ready := true), if l.ready then [] else [Ready])
    else if kind == M_TIP then
      if |payload| < 8 then (l.(dead := true), [])
      else if |payload| < 16 then (l.(dead := true, tipHeight := U64At(payload, 0)), [])
      else if |payload| < 48 then (l.(dead := true, tipHeight := U64At(payload, 0), tipWork := U64At(payload, 8)), [])
      else
        (l.(tipHeight := U64At(payload, 0), tipWork := U64At(payload, 8), tipHash := payload[16..48]),
         [Msg(kind, payload)])
    else (l, [Msg(kind, payload)])
  }

  datatype Drained = Drained(link: Link, events: seq<Event>, rest: Bytes)

  /** All complete frames of a buffer. */
  function Drain(c: Config, l: Link, buf: Bytes): Drained
    decreases |buf|
  {
    if l.dead || |buf| < 5 then Drained(l, [], buf)
    else
      var len := U32At(buf, 0);
      if len > MAX_FRAME then Drained(l.(dead := true), [], buf)
      else if |buf| < 5 + len then Drained(l, [], buf)
      else
        var (l', es) := Receive(c, l, buf[4], buf[5..5 + len]);
        var d := Drain(c, l', buf[5 + len..]);
        Drained(d.link, es + d.events, d.rest)
  }

  /** Draining after every chunk. */
  function DrainChunks(c: Config, l: Link, buf: Bytes, chunks: seq<Bytes>): Drained
    decreases |chunks|
  {
    if chunks == [] then Drained(l, [], buf)
    else
      var d := Drain(c, l, buf + chunks[0]);
      var d' := DrainChunks(c, d.link, d.rest, chunks[1..]);
      Drained(d'.link, d.events + d'.events, d'.rest)
  }

  // ---------- fragmentation does not matter ----------

  /** A complete frame stands at the front of the buffer. */
  predicate FrameReady(buf: Bytes) {
    |buf| >= 5 && U32At(buf, 0) <= MAX_FRAME && |buf| >= 5 + U32At(buf, 0)
  }

  lemma {:induction false} DrainStep(c: Config, l: Link, buf: Bytes)
    requires !l.dead && FrameReady(buf)
    ensures var len := U32At(buf, 0);
            var (l', es) := Receive(c, l, buf[4], buf[5..5 + len]);
            var d := Drain(c, l', buf[5 + len..]);
            Drain(c, l, buf) == Drained(d.link, es + d.events, d.rest)
  {
    hide Receive, FromLE;
  }

  lemma {:induction false} DrainStop(c: Config, l: Link, buf: Bytes)
    requires l.dead || !FrameReady(buf)
    ensures var l' := if !l.dead && |buf| >= 5 && U32At(buf, 0) > MAX_FRAME then l.(dead := true) else l;
            Drain(c, l, buf) == Drained(l', [], buf)
  {
    hide Receive, FromLE;
  }

  /** More bytes behind a frame do not change it. */
  lemma {:induction false} FrontUnchanged(x: Bytes, y: Bytes)
    requires |x| >= 5
    ensures U32At(x + y, 0) == U32At(x, 0) && (x + y)[4] == x[4]
    ensures FrameReady(x) ==>
              var len := U32At(x, 0);
              FrameReady(x + y) && (x + y)[5..5 + len] == x[5..5 + len] && (x + y)[5 + len..] == x[5 + len..] + y
  {
    hide FromLE;
    assert (x + y)[0..4] == x[0..4];
  }

  /** Draining in two portions is draining at once, whatever the bytes are. */
  lemma {:induction false} DrainSplit(c: Config, l: Link, x: Bytes, y: Bytes)
    ensures var d := Drain(c, l, x);
            var d' := Drain(c, d.link, d.rest + y);
            Drain(c, l, x + y) == Drained(d'.link, d.events + d'.events, d'.rest)
    decreases |x|
  {
    hide Drain, Receive, U32At;
    if l.dead || !FrameReady(x) {
      DrainStop(c, l, x);
      if !l.dead && |x| >= 5 {
        FrontUnchanged(x, y);
        DrainStop(c, l.(dead := true), x + y);
        if U32At(x, 0) > MAX_FRAME {
          DrainStop(c, l, x + y);
        }
      }
    } else {
      FrontUnchanged(x, y);
      DrainStep(c, l, x);
      DrainStep(c, l, x + y);
      var len := U32At(x, 0);
      var (l', es) := Receive(c, l, x[4], x[5..5 + len]);
      DrainSplit(c, l', x[5 + len..], y);
      var d := Drain(c, l', x[5 + len..]);
      var d' := Drain(c, d.link, d.rest + y);
      assert es + (d.events + d'.events) == es + d.events + d'.events;
    }
  }

  lemma {:induction false} DrainIdle(c: Config, l: Link, x: Bytes)
    ensures var d := Drain(c, l, x);
            Drain(c, d.link, d.rest) == Drained(d.link, [], d.rest)
    decreases |x|
  {
    hide Receive, FromLE;
    if !l.dead && |x| >= 5 {
      var len := U32At(x, 0);
      if len <= MAX_FRAME && |x| >= 5 + len {
        DrainIdle(c, Receive(c, l, x[4], x[5..5 + len]).0, x[5 + len..]);
      }
    }
  }

  /** However the stream is cut into chunks, the events and the leftover are the same. */
  lemma {:induction false} FragmentationIrrelevant(c: Config, l: Link, buf: Bytes, chunks: seq<Bytes>)
    requires Drain(c, l, buf) == Drained(l, [], buf)
    ensures DrainChunks(c, l, buf, chunks) == Drain(c, l, buf + Concat(chunks))
    decreases |chunks|
  {
    hide Drain;
    if chunks == [] {
      assert buf + Concat(chunks) == buf;
    } else {
      var x := buf + chunks[0];
      var d := Drain(c, l, x);
      DrainIdle(c, l, x);
      FragmentationIrrelevant(c, d.link, d.rest, chunks[1..]);
      DrainSplit(c, l, x, Concat(chunks[1..]));
      assert x + Concat(chunks[1..]) == buf + Concat(chunks);
    }
  }

  // ---------- well-formed streams ----------

  function Stream(fs: seq<Frame>): Bytes {
    if fs == [] then [] else FrameBytes(fs[0]) + Stream(fs[1..])
  }

  /** An ordinary message: any type but HELLO, a TIP long enough to carry its fields. */
  predicate Ordinary(f: Frame) {
    |f.payload| <= MAX_FRAME && f.kind != M_HELLO && (f.kind == M_TIP ==> |f.payload| >= 48)
  }

  function Messages(fs: seq<Frame>): (es: seq<Event>)
    ensures |es| == |fs|
  {
    seq(|fs|, i requires 0 <= i < |fs| => Msg(fs[i].kind, fs[i].payload))
  }

  /** A frame that has not arrived completely yet. */
  predicate Unfinished(tail: Bytes) {
    |tail| < 5 || (U32At(tail, 0) <= MAX_FRAME && |tail| < 5 + U32At(tail, 0))
  }

  lemma {:induction false} LengthReads(k: nat)
    requires k <= MAX_FRAME
    ensures k % U32 == k && FromLE(LE(k, 4)) == k
  {
    Pow256Values();
    hide LE, FromLE;
    FromLEOfLE(k, 4);
  }

  lemma {:induction false} FrameAt(f: Frame, rest: Bytes)
    requires |f.payload| <= MAX_FRAME
    ensures var s := FrameBytes(f) + rest;
            && |s| >= 5 + |f.payload| && U32At(s, 0) == |f.payload| && s[4] == f.kind
            && s[5..5 + |f.payload|] == f.payload && s[5 + |f.payload|..] == rest
  {
    hide LE, FromLE;
    LengthReads(|f.payload|);
    FrameLayout(LE(|f.payload| % U32, 4), f.kind, f.payload, rest);
  }

  lemma {:induction false} FrameLayout(len: Bytes, kind: byte, payload: Bytes, rest: Bytes)
    requires |len| == 4
    ensures var s := len + [kind] + payload + rest;
            && |s| >= 5 + |payload| && s[0..4] == len && s[4] == kind
            && s[5..5 + |payload|] == payload && s[5 + |payload|..] == rest
  {
  }

  lemma {:induction false} DrainFrame(c: Config, l: Link, f: Frame, rest: Bytes)
    requires |f.payload| <= MAX_FRAME && !l.dead
    ensures var (l', es) := Receive(c, l, f.kind, f.payload);
            var d := Drain(c, l', rest);
            Drain(c, l, FrameBytes(f) + rest) == Drained(d.link, es + d.events, d.rest)
  {
    hide Receive, FrameBytes, FromLE;
    FrameAt(f, rest);
  }

  /** What a TIP says is what the link remembers: height, work and hash, as they were sent. */
  lemma {:induction false} TipReceived(c: Config, l: Link, height: u64, work: u64, hash: H256)
    ensures var payload := LE(height, 8) + LE(work, 8) + hash;
            Receive(c, l, 2, payload) ==
            (l.(tipHeight := height, tipWork := work, tipHash := hash), [Msg(2, payload)])
  {
    Pow256Values();
    FromLEOfLE(height, 8);
    FromLEOfLE(work, 8);
    hide LE, FromLE;
    var payload := LE(height, 8) + LE(work, 8) + hash;
    assert payload[0..8] == LE(height, 8) && payload[8..16] == LE(work, 8) && payload[16..48] == hash;
  }

  /** A TIP or HELLO too short for its fields ends the link unheard. */
  lemma {:induction false} ShortReceived(c: Config, l: Link, kind: byte, payload: Bytes)
    requires (kind == 1 && |payload| < 10) || (kind == 2 && |payload| < 48)
    ensures var (l', es) := Receive(c, l, kind, payload);
            l'.dead && es == [] && l'.ready == l.ready
  {
    hide U64At, U32At, U16At;
  }

  /** The payload of the last TIP of a stream. */
  function LastTip(fs: seq<Frame>): Option<Bytes> {
    if fs == [] then None
    else if LastTip(fs[1..]).Some? then LastTip(fs[1..])
    else if fs[0].kind == M_TIP then Some(fs[0].payload)
    else None
  }

  /** `l` remembers the peer's tip from `tip`, or still from `l0` if there was none. */
  predicate Remembers(l: Link, l0: Link, tip: Option<Bytes>) {
    match tip
    case None => l.tipHeight == l0.tipHeight && l.tipWork == l0.tipWork && l.tipHash == l0.tipHash
    case Some(p) =>
      && |p| >= 48
      && l.tipHeight == U64At(p, 0) && l.tipWork == U64At(p, 8) && l.tipHash == p[16..48]
  }

  lemma {:induction false} OrdinaryReceived(c: Config, l: Link, f: Frame)
    requires Ordinary(f)
    ensures var (l', es) := Receive(c, l, f.kind, f.payload);
            && es == [Msg(f.kind, f.payload)]
            && l'.dead == l.dead && l'.ready == l.ready && l'.peerPort == l.peerPort
            && Remembers(l', l, if f.kind == M_TIP then Some(f.payload) else None)
  {
    hide U64At, U32At, U16At;
  }

  /** A stream of ordinary messages yields exactly those messages, in order, and leaves
      exactly the unfinished suffix. */
  lemma {:induction false} StreamParses(c: Config, l: Link, fs: seq<Frame>, tail: Bytes)
    requires !l.dead && Unfinished(tail)
    requires forall i :: 0 <= i < |fs| ==> Ordinary(fs[i])
    ensures var d := Drain(c, l, Stream(fs) + tail);
            && d.events == Messages(fs) && d.rest == tail
            && !d.link.dead && d.link.ready == l.ready && d.link.peerPort == l.peerPort
            && Remembers(d.link, l, LastTip(fs))
    decreases |fs|
  {
    hide FrameBytes, FromLE, LE, Receive, U64At;
    if fs == [] {
      assert Stream(fs) + tail == tail;
    } else {
      assert Stream(fs) + tail == FrameBytes(fs[0]) + (Stream(fs[1..]) + tail);
      DrainFrame(c, l, fs[0], Stream(fs[1..]) + tail);
      OrdinaryReceived(c, l, fs[0]);
      StreamParses(c, Receive(c, l, fs[0].kind, fs[0].payload).0, fs[1..], tail);
      assert Messages(fs) == [Msg(fs[0].kind, fs[0].payload)] + Messages(fs[1..]);
    }
  }

  /** The HELLO a peer listening on `port` queues. */
  function Hello(netId: u32, port: u16): Frame {
    Frame(M_HELLO, LE(netId, 4) + LE(CL_VERSION, 4) + LE(port, 2))
  }

  lemma {:induction false} HelloReceived(c: Config, l: Link, netId: u32, port: u16)
    ensures Receive(c, l, M_HELLO, Hello(netId, port).payload) ==
            if netId != c.netId then (l.(dead := true), [])
            else if port != 0 && (c.listenPort < port) != c.outbound then
              (l.(peerPort := port, dead := true, dedupDrop := true), [])
            else (l.(peerPort := port, ready := true), if l.ready then [] else [Ready])
  {
    Pow256Values();
    FromLEOfLE(netId, 4);
    FromLEOfLE(port, 2);
    hide LE, FromLE;
    var p := Hello(netId, port).payload;
    assert p[0..4] == LE(netId, 4) && p[8..10] == LE(port, 2);
  }

  /** A link whose HELLO we accept: for any fragmentation of the stream the events are
      `Ready` and then the messages, in order, and the buffer holds the unfinished suffix. */
  lemma {:induction false} LinkDelivers(c: Config, l: Link, netId: u32, port: u16, fs: seq<Frame>, tail: Bytes,
      chunks: seq<Bytes>)
    requires !l.dead && !l.ready && netId == c.netId
    requires port == 0 || (c.listenPort < port) == c.outbound
    requires forall i :: 0 <= i < |fs| ==> Ordinary(fs[i])
    requires Unfinished(tail)
    requires Concat(chunks) == FrameBytes(Hello(netId, port)) + (Stream(fs) + tail)
    ensures var d := DrainChunks(c, l, [], chunks);
            && d.events == [Ready] + Messages(fs) && d.rest == tail
            && d.link.ready && !d.link.dead && d.link.peerPort == port
            && Remembers(d.link, l, LastTip(fs))
  {
    hide FrameBytes, Receive, Messages, Stream, Unfinished, Hello, LastTip, U64At;
    var rest := Stream(fs) + tail;
    FragmentationIrrelevant(c, l, [], chunks);
    assert [] + Concat(chunks) == Concat(chunks);
    HelloSize(netId, port);
    DrainFrame(c, l, Hello(netId, port), rest);
    HelloReceived(c, l, netId, port);
    StreamParses(c, l.(peerPort := port, ready := true), fs, tail);
  }

  lemma {:induction false} HelloSize(netId: u32, port: u16)
    ensures |Hello(netId, port).payload| == 10 && Hello(netId, port).kind == M_HELLO
  {
  }

  // ---------- the source's code ----------

  /** Length, type and payload, behind what is already queued. */
  method FrameInto(out: Bytes, kind: byte, payload: Bytes) returns (out': Bytes)
    ensures out' == out + FrameBytes(Frame(kind, payload))
  {
    var w := new Writer();
    w.PutRaw(out);
    w.PutLE(|payload| % U32, 4);
    w.PutU8(kind);
    w.PutRaw(payload);
    hide LE;
    out' := w.b;
  }

  class Peer {
    var link: Link
    var inbuf: Bytes

    constructor ()
      ensures inbuf == [] && link == Link(false, false, false, 0, 0, 0, Zeros(32))
    {
      link, inbuf := Link(false, false, false, 0, 0, 0, Zeros(32)), [];
    }

    /** Bytes from the socket, then everything complete is parsed; a peer that lets more
        than 16 MiB pile up is dropped unparsed. */
    method OnBytes(c: Config, chunk: Bytes) returns (events: seq<Event>)
      requires !link.dead
      modifies this
      ensures |old(inbuf) + chunk| <= MAX_INBUF ==>
                Drained(link, events, inbuf) == Drain(c, old(link), old(inbuf) + chunk)
      ensures |old(inbuf) + chunk| > MAX_INBUF ==> link.dead && events == []
    {
      inbuf := inbuf + chunk;
      if |inbuf| > MAX_INBUF {
        link := link.(dead := true);
        return [];
      }
      events := ParseFrames(c);
    }

    method ParseFrames(c: Config) returns (events: seq<Event>)
      requires !link.dead
      modifies this
      ensures Drained(link, events, inbuf) == Drain(c, old(link), old(inbuf))
    {
      hide FromLE, Receive, FourBytes;
      events := [];
      ghost var goal := Drain(c, link, inbuf);
      while |inbuf| >= 5
        invariant !link.dead
        invariant var d := Drain(c, link, inbuf);
                  goal == Drained(d.link, events + d.events, d.rest)
        decreases |inbuf|
      {
        var len := FourBytes(inbuf[0], inbuf[1], inbuf[2], inbuf[3]);
        LengthWord(inbuf);
        if len > MAX_FRAME {
          link := link.(dead := true);
          return;
        }
        if |inbuf| < 5 + len { return; }
        var kind, payload := inbuf[4], inbuf[5..5 + len];
        ghost var d := Drain(c, Receive(c, link, kind, payload).0, inbuf[5 + len..]);
        ghost var es := Receive(c, link, kind, payload).1;
        assert events + (es + d.events) == events + es + d.events;
        inbuf := inbuf[5 + len..];
        var fresh_ := Dispatch(c, kind, payload);
        events := events + fresh_;
        if link.dead { return; }
      }
    }

    method Dispatch(c: Config, kind: byte, payload: Bytes) returns (events: seq<Event>)
      modifies this`link
      ensures (link, events) == Receive(c, old(link), kind, payload)
    {
      hide FromLE;
      Pow256Values();
      var r := new Reader(payload);
      if kind == M_HELLO {
        var nid := r.GetLE(4);
        if nid.None? { link := link.(dead := true); return []; }
        var version := r.GetLE(4);
        if version.None? { link := link.(dead := true); return []; }
        var port := r.GetLE(2);
        if port.None? { link := link.(dead := true); return []; }
        if nid.value != c.netId { link := link.(dead := true); return []; }
        link := link.(peerPort := port.value);
        var shouldDial := c.listenPort < port.value;
        if port.value != 0 && shouldDial != c.outbound {
          link := link.(dead := true, dedupDrop := true);
          return [];
        }
        if !link.ready {
          link := link.(ready := true);
          return [Ready];
        }
        return [];
      }
      if kind == M_TIP {
        var height := r.GetLE(8);
        if height.None? { link := link.(dead := true); return []; }
        link := link.(tipHeight := height.value);
        var work := r.GetLE(8);
        if work.None? { link := link.(dead := true); return []; }
        link := link.(tipWork := work.value);
        var hash := r.GetRaw(32);
        if hash.None? { link := link.(dead := true); return []; }
        link := link.(tipHash := hash.value);
      }
      events := [Msg(kind, payload)];
    }
  }

  /** The longest chunk that cannot overflow the buffer behind an unfinished frame. */
  const MAX_CHUNK := MAX_INBUF - MAX_FRAME - 4

  /** What stands in the buffer never outgrows its limit while the chunks arrive. */
  predicate BufferFits(c: Config, l: Link, buf: Bytes, chunks: seq<Bytes>)
    decreases |chunks|
  {
    chunks != [] ==>
      && |buf + chunks[0]| <= MAX_INBUF
      && var d := Drain(c, l, buf + chunks[0]);
         BufferFits(c, d.link, d.rest, chunks[1..])
  }

  lemma {:induction false} DrainLeaves(c: Config, l: Link, buf: Bytes)
    ensures var d := Drain(c, l, buf);
            !d.link.dead ==> |d.rest| < 5 + MAX_FRAME
    decreases |buf|
  {
    hide FromLE, Receive;
    if !l.dead && FrameReady(buf) {
      var len := U32At(buf, 0);
      DrainLeaves(c, Receive(c, l, buf[4], buf[5..5 + len]).0, buf[5 + len..]);
    }
  }

  lemma {:induction false} DeadStays(c: Config, l: Link, buf: Bytes, chunks: seq<Bytes>)
    requires l.dead
    ensures var d := DrainChunks(c, l, buf, chunks);
            d.link == l && d.events == []
    decreases |chunks|
  {
    if chunks != [] {
      DeadStays(c, l, buf + chunks[0], chunks[1..]);
    }
  }

  /** Chunks of up to 8 MiB less 4 bytes always fit, as long as the link lives. */
  lemma {:induction false} SmallChunksFit(c: Config, l: Link, buf: Bytes, chunks: seq<Bytes>)
    requires |buf| < 5 + MAX_FRAME && forall i :: 0 <= i < |chunks| ==> |chunks[i]| <= MAX_CHUNK
    requires !DrainChunks(c, l, buf, chunks).link.dead
    ensures BufferFits(c, l, buf, chunks)
    decreases |chunks|
  {
    hide Drain;
    if chunks != [] {
      var d := Drain(c, l, buf + chunks[0]);
      DrainLeaves(c, l, buf + chunks[0]);
      if d.link.dead {
        DeadStays(c, d.link, d.rest, chunks[1..]);
      }
      SmallChunksFit(c, d.link, d.rest, chunks[1..]);
    }
  }

  /** The receiving loop over the chunks a connection delivers, up to the death of the link. */
  method ReceiveAll(p: Peer, c: Config, chunks: seq<Bytes>) returns (events: seq<Event>)
    requires !p.link.dead && BufferFits(c, p.link, p.inbuf, chunks)
    modifies p
    ensures var d := DrainChunks(c, old(p.link), old(p.inbuf), chunks);
            && p.link == d.link && events == d.events
            && (!d.link.dead ==> p.inbuf == d.rest)
  {
    hide Drain;
    events := [];
    ghost var goal := DrainChunks(c, p.link, p.inbuf, chunks);
    var i := 0;
    assert chunks[0..] == chunks;
    while i < |chunks| && !p.link.dead
      invariant 0 <= i <= |chunks|
      invariant BufferFits(c, p.link, p.inbuf, chunks[i..])
      invariant var d := DrainChunks(c, p.link, p.inbuf, chunks[i..]);
                goal == Drained(d.link, events + d.events, d.rest)
    {
      assert chunks[i..][0] == chunks[i] && chunks[i..][1..] == chunks[i + 1..];
      ghost var done := events;
      var fresh_ := p.OnBytes(c, chunks[i]);
      events := events + fresh_;
      i := i + 1;
      ghost var rest := DrainChunks(c, p.link, p.inbuf, chunks[i..]);
      assert done + (fresh_ + rest.events) == done + fresh_ + rest.events;
    }
    if p.link.dead {
      DeadStays(c, p.link, p.inbuf, chunks[i..]);
    } else {
      assert chunks[i..] == [];
    }
  }

  /** A fresh link to a peer whose HELLO we accept delivers `Ready` and then exactly the
      messages, in order, however its stream is cut into chunks of up to 8 MiB less 4 bytes. */
  method ReceiveLink(c: Config, port: u16, fs: seq<Frame>, tail: Bytes, chunks: seq<Bytes>)
    returns (p: Peer, events: seq<Event>)
    requires port == 0 || (c.listenPort < port) == c.outbound
    requires forall i :: 0 <= i < |fs| ==> Ordinary(fs[i])
    requires Unfinished(tail)
    requires Concat(chunks) == FrameBytes(Hello(c.netId, port)) + (Stream(fs) + tail)
    requires forall i :: 0 <= i < |chunks| ==> |chunks[i]| <= MAX_CHUNK
    ensures events == [Ready] + Messages(fs) && p.inbuf == tail
    ensures p.link.ready && !p.link.dead && p.link.peerPort == port
    ensures match LastTip(fs)
            case None => p.link.tipHeight == 0 && p.link.tipWork == 0
            case Some(tip) =>
              && |tip| >= 48
              && p.link.tipHeight == U64At(tip, 0) && p.link.tipWork == U64At(tip, 8) && p.link.tipHash == tip[16..48]
  {
    hide FrameBytes, Messages, Stream, Unfinished, Hello, DrainChunks, BufferFits, Ordinary, LastTip, U64At;
    p := new Peer();
    LinkDelivers(c, p.link, c.netId, port, fs, tail, chunks);
    SmallChunksFit(c, p.link, p.inbuf, chunks);
    events := ReceiveAll(p, c, chunks);
  }

  function FourBytes(a: nat, b: nat, c: nat, d: nat): nat {
    a + 0x100 * b + 0x1_0000 * c + 0x100_0000 * d
  }

  lemma {:induction false} LengthWord(buf: Bytes)
    requires |buf| >= 5
    ensures U32At(buf, 0) == FourBytes(buf[0], buf[1], buf[2], buf[3])
  {
    var s := buf[0..4];
    assert s[1..][1..] == s[2..] && s[2..][1..] == s[3..] && s[3..][1..] == [];
    assert FromLE(s[3..]) == buf[3];
    assert FromLE(s[2..]) == buf[2] + 256 * FromLE(s[3..]);
    assert FromLE(s[1..]) == buf[1] + 256 * FromLE(s[2..]);
  }
}
