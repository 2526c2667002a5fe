/** Bytes, frames and the client's side of the terminal stream protocol.

  Everything here is about values: chunks of output, the frames a socket was
  handed, and what a client that receives a prefix of those frames shows.
 */
module PtyStream {
  import opened Wrappers

  type Byte = b: int | 0 <= b < 256

  const SCROLLBACK_LIMIT_BYTES: nat := 256 * 1024
  const PTY_FRAME_MAX_BYTES: nat := 16 * 1024
  const PTY_SLOW_CONSUMER_CLOSE_CODE: int := 1013
  const PTY_WS_BUFFERED_AMOUNT_LIMIT: nat := 512 * 1024

  // Longest header of an unmasked frame, section 5.2 of RFC 6455.
  const WS_HEADER_MAX: nat := 10

  /** What the client asked for in its connection request: no cursor at all
      (an old client), a cursor of -1, or an absolute position. */
  datatype Hello = Legacy | Fresh | From(at: nat)

  datatype Frame = Data(bytes: seq<Byte>) | Cursor(at: nat, reset: bool) | Exit(code: int)

  function FrameBytes(f: Frame): seq<Byte> {
    if f.Data? then f.bytes else []
  }

  /** Upper bound on what one frame adds to the transport's send buffer. */
  function WireSize(f: Frame): nat {
    WS_HEADER_MAX + match f
                    case Data(bytes) => 1 + |bytes|
                    case Cursor(_, _) => 10
                    case Exit(_) => 5
  }

  function Flatten(chunks: seq<seq<Byte>>): seq<Byte> {
    if chunks == [] then [] else chunks[0] + Flatten(chunks[1..])
  }

  lemma {:induction false} FlattenPush(a: seq<seq<Byte>>, c: seq<Byte>)
    ensures Flatten(a + [c]) == Flatten(a) + c
  {
    if a == [] {
      assert [] + [c] == [c] && Flatten([c]) == c + Flatten([]);
    } else {
      FlattenPush(a[1..], c);
      FlattenHead(a[0], a[1..] + [c]);
      assert a + [c] == [a[0]] + (a[1..] + [c]);
      Reassociate(a[0], Flatten(a[1..]), c);
    }
  }

  lemma FlattenHead(c: seq<Byte>, rest: seq<seq<Byte>>)
    ensures Flatten([c] + rest) == c + Flatten(rest)
  {
    assert ([c] + rest)[1..] == rest;
  }

  lemma Reassociate(a: seq<Byte>, b: seq<Byte>, c: seq<Byte>)
    ensures (a + b) + c == a + (b + c)
  {
  }

  lemma FlattenNext(q: seq<Byte>, a: seq<seq<Byte>>, i: nat)
    requires i < |a|
    ensures q + Flatten(a[..i + 1]) == (q + Flatten(a[..i])) + a[i]
  {
    assert a[..i + 1] == a[..i] + [a[i]];
    FlattenPush(a[..i], a[i]);
  }

  /** The terminal bytes carried by a sequence of frames. */
  function Payload(frames: seq<Frame>): seq<Byte> {
    if frames == [] then []
    else Payload(frames[..|frames| - 1]) + FrameBytes(frames[|frames| - 1])
  }

  lemma PayloadPush(frames: seq<Frame>, f: Frame)
    ensures Payload(frames + [f]) == Payload(frames) + FrameBytes(f)
  {
    assert (frames + [f])[..|frames|] == frames;
  }

  lemma {:induction false} PayloadTake(frames: seq<Frame>, k: nat)
    requires k <= |frames|
    ensures Payload(frames[..k]) <= Payload(frames)
  {
    if k == |frames| {
      assert frames[..k] == frames;
    } else {
      PayloadTake(frames[..|frames| - 1], k);
      assert frames[..|frames| - 1][..k] == frames[..k];
    }
  }

  // ---------------------------------------------------------------------
  // What the server keeps true of a session's values
  // ---------------------------------------------------------------------

  /** The ring is the tail of the stream from `start`, bounded, empty only while
      the shell has printed nothing, and whole while it has printed no more than
      the ring can hold. */
  ghost predicate RingIsTail(ring: seq<seq<Byte>>, bytes: nat, start: nat, end: nat, stream: seq<Byte>) {
    && bytes == |Flatten(ring)| <= 262144
    && start + bytes == end == |stream|
    && Flatten(ring) == stream[start..]
    && (bytes == 0 ==> stream == [])
    && (start > 0 ==> end > 262144)
  }

  /** What remains of the chunks when the oldest are dropped one by one, each
      only because the bytes from it on are too many. */
  ghost predicate DropsOnlyExcess(all: seq<seq<Byte>>, kept: seq<seq<Byte>>) {
    exists j | 0 <= j <= |all| :: DropsFirst(all, kept, j)
  }

  ghost predicate DropsFirst(all: seq<seq<Byte>>, kept: seq<seq<Byte>>, j: nat)
    requires j <= |all|
  {
    kept == all[j..] && (j > 0 ==> |Flatten(all[j - 1..])| > 262144)
  }

  ghost predicate DataFrames(frames: seq<Frame>) {
    forall i | 0 <= i < |frames| && frames[i].Data? :: 1 <= |frames[i].bytes| <= 16384
  }

  /** A cursor frame comes first if the client asked for cursors, never later,
      and never for an old client. */
  ghost predicate Greeted(hello: Hello, base: nat, sent: seq<Frame>) {
    && (forall i | 1 <= i < |sent| :: !sent[i].Cursor?)
    && (sent != [] ==>
          match hello
          case Legacy => !sent[0].Cursor?
          case Fresh => sent[0] == Cursor(base, false)
          case From(at) => sent[0] == Cursor(base, true) || (sent[0] == Cursor(base, false) && base == at))
  }

  /** Everything a socket was handed is the stream from `base` on, in order. */
  ghost predicate SocketExact(hello: Hello, base: nat, sent: seq<Frame>, stream: seq<Byte>) {
    && Greeted(hello, base, sent)
    && DataFrames(sent)
    && base <= |stream|
    && Payload(sent) <= stream[base..]
  }

  /** Handed over plus pending is the whole stream: nothing is missing. */
  ghost predicate Linked(base: nat, sent: seq<Frame>, pending: seq<seq<Byte>>, stream: seq<Byte>) {
    && base <= |stream|
    && Payload(sent) + Flatten(pending) == stream[base..]
  }

  /** A socket that was handed nothing yet is exact. */
  lemma UnsentExact(hello: Hello, base: nat, stream: seq<Byte>)
    requires base <= |stream|
    ensures SocketExact(hello, base, [], stream)
  {
  }

  /** The greeting of a shell that has printed nothing. */
  lemma EmptyGreeting(hello: Hello, w: Wire)
    requires w.base == 0
    requires w.sent == (if hello == Legacy then [] else [Cursor(0, hello != Fresh && hello != From(0))])
    ensures SocketExact(hello, 0, w.sent, []) && Live(w, hello, [], [])
  {
    if hello != Legacy {
      PayloadPush([], w.sent[0]);
      assert w.sent == [] + [w.sent[0]];
    }
  }

  lemma SocketExactGrows(hello: Hello, base: nat, sent: seq<Frame>, stream: seq<Byte>, more: seq<Byte>)
    requires SocketExact(hello, base, sent, stream)
    ensures SocketExact(hello, base, sent, stream + more)
  {
    assert (stream + more)[base..] == stream[base..] + more;
  }

  /** `after` is `before` and further data frames, and its bytes are still an
      initial piece of `budget`. */
  ghost predicate Handing(before: seq<Frame>, after: seq<Frame>, budget: seq<Byte>) {
    && |before| <= |after| && after[..|before|] == before
    && (forall i | |before| <= i < |after| ::
          after[i].Data? && 1 <= |after[i].bytes| <= PTY_FRAME_MAX_BYTES)
    && Payload(before) <= Payload(after) <= budget
  }

  lemma HandingOne(a: seq<Frame>, bytes: seq<Byte>)
    requires 1 <= |bytes| <= PTY_FRAME_MAX_BYTES
    ensures Payload(a + [Data(bytes)]) == Payload(a) + bytes
    ensures Handing(a, a + [Data(bytes)], Payload(a) + bytes)
  {
    PayloadPush(a, Data(bytes));
  }

  /** The state of a socket as the server sees it. A steady one has a transport
      that is not lost by itself. */
  datatype Wire = Wire(open: bool, buffered: nat, sent: seq<Frame>, closeCode: Option<int>, base: nat, steady: bool)

  /** An open consumer has been greeted and nothing it is owed is missing. */
  ghost predicate Live(w: Wire, hello: Hello, pending: seq<seq<Byte>>, stream: seq<Byte>) {
    && (hello != Legacy ==> w.sent != [])
    && Linked(w.base, w.sent, pending, stream)
  }

  /** An exit frame carries nothing; behind a live consumer's last byte it
      closes an exact and complete output. */
  lemma ExitIsExact(w: Wire, hello: Hello, pending: seq<seq<Byte>>, code: int, stream: seq<Byte>)
    requires SocketExact(hello, w.base, w.sent, stream) && Live(w, hello, pending, stream)
    requires |Flatten(pending)| == 0
    ensures SocketExact(hello, w.base, w.sent + [Exit(code)], stream)
    ensures w.base <= |stream| && Payload(w.sent) == stream[w.base..]
  {
    PayloadPush(w.sent, Exit(code));
    assert Payload(w.sent) + [] == Payload(w.sent);
  }

  /** Enough bytes to reach the eviction limit from this buffer level. */
  ghost predicate Overloads(buffered: nat, bytes: int) {
    PTY_FRAME_MAX_BYTES * buffered + (PTY_FRAME_MAX_BYTES + 11) * bytes
    > 16384 * (524288 - 16384 - 1)
  }

  ghost predicate StaysSteady(a: Wire, b: Wire) {
    && b.steady == a.steady
    && (a.closeCode.Some? ==> b.closeCode == a.closeCode)
    && (a.steady && a.open && b.closeCode == None ==> b.open)
  }

  /** What queueing output may do to a socket: hand it full data frames, in
      order, of at most the given bytes (each adding at most 11 bytes of
      framing to the transport buffer), and close it as too slow only if that
      many bytes could overload the buffer. A closed socket stays as it is, and
      a steady one stays open unless it is closed. */
  ghost predicate Advanced(a: Wire, b: Wire, budget: seq<Byte>) {
    && b.base == a.base && StaysSteady(a, b)
    && PTY_FRAME_MAX_BYTES * (|b.sent| - |a.sent|) == |Payload(b.sent)| - |Payload(a.sent)|
    && (!a.open ==> !b.open && b.sent == a.sent && b.closeCode == a.closeCode && b.buffered <= a.buffered)
    && Handing(a.sent, b.sent, budget)
    && PTY_FRAME_MAX_BYTES * (b.buffered - a.buffered)
       <= (PTY_FRAME_MAX_BYTES + 11) * (|Payload(b.sent)| - |Payload(a.sent)|)
    && (b.closeCode != a.closeCode ==> Overloads(a.buffered, |budget| - |Payload(a.sent)|))
  }

  predicate TooSlow(a: Wire, payload: seq<Byte>) {
    a.buffered + |payload| + 1 > 524288
  }

  /** What one flush does: hand over the whole payload as one frame, or
      nothing. Then the send failed, with or without the loss of the transport,
      or the socket is closed as too slow, which happens exactly if the frame
      would pass the limit. */
  ghost predicate Flushed(a: Wire, b: Wire, payload: seq<Byte>) {
    && b.base == a.base && StaysSteady(a, b)
    && (!a.open ==> b == a)
    && (b.sent == a.sent || (b.sent == a.sent + [Data(payload)] && |payload| >= 1 && !TooSlow(a, payload)))
    && (b.sent == a.sent && |payload| >= 1 ==> !b.open || !b.steady)
    && b.buffered <= a.buffered + (if b.sent == a.sent then 0 else |payload| + 11)
    && b.closeCode == (if a.open && |payload| >= 1 && TooSlow(a, payload) && a.closeCode == None
                       then Some(1013) else a.closeCode)
  }

  lemma FullFlushAdvances(a: Wire, b: Wire, payload: seq<Byte>)
    requires |payload| == PTY_FRAME_MAX_BYTES
    requires Flushed(a, b, payload)
    ensures Advanced(a, b, Payload(a.sent) + payload)
  {
    HandingOne(a.sent, payload);
    assert Handing(a.sent, a.sent, Payload(a.sent) + payload);
    hide Payload, Handing;
  }

  lemma AdvancedNothing(a: Wire, q: seq<Byte>, pending: seq<Byte>)
    requires Payload(a.sent) + pending == q
    ensures Advanced(a, a, q)
  {
  }

  lemma AdvancedMore(a: Wire, b: Wire, q: seq<Byte>, more: seq<Byte>)
    requires Advanced(a, b, q)
    ensures Advanced(a, b, q + more)
  {
  }

  lemma AdvancedThen(a: Wire, b: Wire, c: Wire, q: seq<Byte>, r: seq<Byte>, more: seq<Byte>)
    requires Advanced(a, b, q) && Advanced(b, c, r)
    requires b.open ==> r == q + more
    ensures Advanced(a, c, q + more)
  {
    hide Payload, Handing;
    HandingLength(a.sent, b.sent, q);
    HandingLength(b.sent, c.sent, r);
    if b.open {
      HandingTransitive(a.sent, b.sent, c.sent, q, r);
    } else {
      HandingMore(a.sent, b.sent, q, more);
    }
  }

  lemma HandingLength(a: seq<Frame>, b: seq<Frame>, q: seq<Byte>)
    requires Handing(a, b, q)
    ensures |Payload(a)| <= |Payload(b)| <= |q|
  {
  }

  lemma HandingMore(a: seq<Frame>, b: seq<Frame>, q: seq<Byte>, more: seq<Byte>)
    requires Handing(a, b, q)
    ensures Handing(a, b, q + more)
  {
  }

  lemma HandingTransitive(a: seq<Frame>, b: seq<Frame>, c: seq<Frame>, q: seq<Byte>, r: seq<Byte>)
    requires Handing(a, b, q) && Handing(b, c, r)
    ensures Handing(a, c, r)
  {
    assert c[..|a|] == c[..|b|][..|a|];
    forall i | |a| <= i < |c|
      ensures c[i].Data? && 1 <= |c[i].bytes| <= PTY_FRAME_MAX_BYTES
    {
      assert i < |b| ==> c[i] == c[..|b|][i];
    }
  }

  /** A socket that was exact stays exact when handed more of the stream. */
  lemma ExactAfterHanding(hello: Hello, base: nat, a: seq<Frame>, b: seq<Frame>, stream: seq<Byte>)
    requires Greeted(hello, base, a) && DataFrames(a) && base <= |stream|
    requires a == [] ==> hello == Legacy
    requires Handing(a, b, stream[base..])
    ensures SocketExact(hello, base, b, stream)
  {
    forall i | 0 <= i < |b|
      ensures i < |a| ==> b[i] == a[i]
    {
      assert i < |a| ==> b[..|a|][i] == b[i];
    }
  }

  // ---------------------------------------------------------------------
  // The client
  // ---------------------------------------------------------------------

  /** A client's cursor and the terminal output it shows. */
  datatype Client = Client(cursor: Option<nat>, transcript: seq<Byte>)

  const NEW_CLIENT: Client := Client(None, [])

  function HelloOf(c: Client): Hello {
    match c.cursor
    case None => Fresh
    case Some(at) => From(at)
  }

  function Receive(c: Client, f: Frame): Client {
    match f
    case Data(bytes) =>
      Client(if c.cursor.Some? then Some(c.cursor.value + |bytes|) else None, c.transcript + bytes)
    case Cursor(at, reset) => Client(Some(at), if reset then [] else c.transcript)
    case Exit(_) => c
  }

  function ReceiveAll(c: Client, frames: seq<Frame>): Client {
    if frames == [] then c
    else Receive(ReceiveAll(c, frames[..|frames| - 1]), frames[|frames| - 1])
  }

  /** One connection of a client: what it asked for, what the server handed
      the socket, and how many of those frames arrived before it was lost. */
  datatype Connection = Connection(hello: Hello, base: nat, sent: seq<Frame>, arrived: nat)

  function AfterConnections(conns: seq<Connection>): Client
    requires forall i | 0 <= i < |conns| :: conns[i].arrived <= |conns[i].sent|
  {
    if conns == [] then NEW_CLIENT
    else
      var last := conns[|conns| - 1];
      ReceiveAll(AfterConnections(conns[..|conns| - 1]), last.sent[..last.arrived])
  }

  /** Each connection asks for what the client had reached before it, and the
      server treated each socket exactly. */
  ghost predicate ClientHistory(conns: seq<Connection>, stream: seq<Byte>) {
    && (forall i | 0 <= i < |conns| :: conns[i].arrived <= |conns[i].sent|)
    && (forall i | 0 <= i < |conns| ::
          && conns[i].hello == HelloOf(AfterConnections(conns[..i]))
          && SocketExact(conns[i].hello, conns[i].base, conns[i].sent, stream))
  }

  /** The transcript is a contiguous piece of the stream ending at the cursor. */
  ghost predicate Exact(c: Client, stream: seq<Byte>) {
    match c.cursor
    case None => c.transcript == []
    case Some(at) =>
      && |c.transcript| <= at <= |stream|
      && c.transcript == stream[at - |c.transcript|..at]
  }

  /** After k > 0 frames of one socket the client's cursor is `base` plus the
      bytes received, and those bytes follow what the greeting kept. */
  lemma {:induction false} ReceivedSoFar(c: Client, base: nat, sent: seq<Frame>, k: nat)
    requires Greeted(HelloOf(c), base, sent)
    requires 0 < k <= |sent|
    ensures ReceiveAll(c, sent[..k]).cursor == Some(base + |Payload(sent[..k])|)
    ensures ReceiveAll(c, sent[..k]).transcript
         == (if sent[0].reset then [] else c.transcript) + Payload(sent[..k])
    decreases k
  {
    assert sent[..k][..k - 1] == sent[..k - 1];
    if k == 1 {
      assert Payload(sent[..1]) == Payload([]) + FrameBytes(sent[0]);
      assert ReceiveAll(c, sent[..1]) == Receive(ReceiveAll(c, []), sent[0]);
    } else {
      ReceivedSoFar(c, base, sent, k - 1);
      var last := sent[k - 1];
      assert !last.Cursor?;
      assert Payload(sent[..k]) == Payload(sent[..k - 1]) + FrameBytes(last);
      assert ReceiveAll(c, sent[..k]) == Receive(ReceiveAll(c, sent[..k - 1]), last);
      ReceiveAppends(ReceiveAll(c, sent[..k - 1]), last);
      var kept := if sent[0].reset then [] else c.transcript;
      Reassociate(kept, Payload(sent[..k - 1]), FrameBytes(last));
      hide Payload, ReceiveAll, Greeted;
    }
  }

  lemma OneConnection(c: Client, base: nat, sent: seq<Frame>, k: nat, stream: seq<Byte>)
    requires Exact(c, stream)
    requires SocketExact(HelloOf(c), base, sent, stream)
    requires 0 < k <= |sent|
    ensures Exact(ReceiveAll(c, sent[..k]), stream)
  {
    var p := ReceivedPiece(c, base, sent, k, stream);
    var d := ReceiveAll(c, sent[..k]);
    GreetingFits(c, base, sent, stream);
    hide Exact, SocketExact, Greeted, ReceiveAll, HelloOf;
    if sent[0].reset || c.cursor == None {
      ResetIsExact(d, base, p, stream);
    } else {
      ContinuesExactly(c, d, base, p, stream);
    }
  }

  /** What was received is the stream from the socket's base on, and the cursor
      stands at its end. */
  lemma ReceivedPiece(c: Client, base: nat, sent: seq<Frame>, k: nat, stream: seq<Byte>) returns (p: seq<Byte>)
    requires SocketExact(HelloOf(c), base, sent, stream) && 0 < k <= |sent|
    ensures base + |p| <= |stream| && p == stream[base..base + |p|]
    ensures ReceiveAll(c, sent[..k]).cursor == Some(base + |p|)
    ensures ReceiveAll(c, sent[..k]).transcript == (if sent[0].reset then [] else c.transcript) + p
  {
    p := Payload(sent[..k]);
    ReceivedSoFar(c, base, sent, k);
    PayloadTake(sent, k);
    PieceOf(stream, base, p, Payload(sent));
    hide Payload, ReceiveAll, Greeted;
  }

  /** Without a reset the socket starts at the client's cursor. */
  lemma GreetingFits(c: Client, base: nat, sent: seq<Frame>, stream: seq<Byte>)
    requires SocketExact(HelloOf(c), base, sent, stream) && sent != []
    ensures sent[0].Cursor?
    ensures !sent[0].reset && c.cursor.Some? ==> c.cursor.value == base
  {
    hide Payload, DataFrames;
  }

  lemma ResetIsExact(d: Client, base: nat, p: seq<Byte>, stream: seq<Byte>)
    requires base + |p| <= |stream| && p == stream[base..base + |p|]
    requires d.cursor == Some(base + |p|) && d.transcript == [] + p
    ensures Exact(d, stream)
  {
    assert [] + p == p;
  }

  /** Continuing at the cursor makes an exact transcript exactly of one that
      was exact. */
  lemma ContinuesExactly(c: Client, d: Client, base: nat, p: seq<Byte>, stream: seq<Byte>)
    requires base + |p| <= |stream| && p == stream[base..base + |p|]
    requires c.cursor == Some(base) && |c.transcript| <= base
    requires d.cursor == Some(base + |p|) && d.transcript == c.transcript + p
    ensures Exact(d, stream) <==> Exact(c, stream)
  {
    var from := base - |c.transcript|;
    JoinPieces(stream, from, base, base + |p|);
    var whole := stream[from..base + |p|];
    assert whole[..|c.transcript|] == stream[from..base];
    assert d.transcript[..|c.transcript|] == c.transcript;
  }

  lemma PieceOf(stream: seq<Byte>, base: nat, p: seq<Byte>, all: seq<Byte>)
    requires base <= |stream| && all <= stream[base..] && p <= all
    ensures base + |p| <= |stream| && p == stream[base..base + |p|]
  {
    assert p == stream[base..][..|p|];
  }

  lemma JoinPieces(s: seq<Byte>, from: nat, mid: nat, to: nat)
    requires from <= mid <= to <= |s|
    ensures s[from..mid] + s[mid..to] == s[from..to]
  {
  }

  /** Over every history of one client with one shell, whatever was lost on
      the way, the transcript is exactly a piece of the shell's output ending
      at the client's cursor. */
  lemma {:induction false} TranscriptIsExact(conns: seq<Connection>, stream: seq<Byte>)
    requires ClientHistory(conns, stream)
    ensures Exact(AfterConnections(conns), stream)
  {
    if conns != [] {
      hide SocketExact, ReceiveAll, HelloOf;
      var init := conns[..|conns| - 1];
      EarlierHistory(conns, stream);
      TranscriptIsExact(init, stream);
      var last := conns[|conns| - 1];
      if last.arrived > 0 {
        OneConnection(AfterConnections(init), last.base, last.sent, last.arrived, stream);
      }
    }
  }

  lemma EarlierHistory(conns: seq<Connection>, stream: seq<Byte>)
    requires conns != [] && ClientHistory(conns, stream)
    ensures ClientHistory(conns[..|conns| - 1], stream)
  {
    hide SocketExact, AfterConnections, HelloOf;
    var init := conns[..|conns| - 1];
    assert forall i | 0 <= i < |init| :: init[..i] == conns[..i];
  }

  /** A transcript is only ever extended or emptied: bytes already shown are
      never changed in place, and they are emptied only by a reset frame. */
  lemma {:induction false} TranscriptGrowsOrResets(c: Client, frames: seq<Frame>)
    requires forall i | 0 <= i < |frames| :: frames[i].Cursor? ==> !frames[i].reset
    ensures ReceiveAll(c, frames).transcript == c.transcript + Payload(frames)
  {
    if frames == [] {
      assert c.transcript + [] == c.transcript;
    } else {
      var init, last := frames[..|frames| - 1], frames[|frames| - 1];
      TranscriptGrowsOrResets(c, init);
      assert Payload(frames) == Payload(init) + FrameBytes(last);
      ReceiveAppends(ReceiveAll(c, init), last);
      Reassociate(c.transcript, Payload(init), FrameBytes(last));
      hide Payload, FrameBytes, Receive;
    }
  }

  /** A new client that was never told where its socket stands shows what it is
      sent, but keeps no cursor: it is exact only as long as it was sent nothing,
      and asks for all of the output again. */
  lemma {:induction false} UngreetedIsExactIff(sent: seq<Frame>, stream: seq<Byte>)
    requires forall i | 0 <= i < |sent| :: sent[i].Data?
    ensures ReceiveAll(NEW_CLIENT, sent) == Client(None, Payload(sent))
    ensures Exact(ReceiveAll(NEW_CLIENT, sent), stream) <==> Payload(sent) == []
    ensures HelloOf(ReceiveAll(NEW_CLIENT, sent)) == Fresh
  {
    if sent != [] {
      UngreetedIsExactIff(sent[..|sent| - 1], stream);
    }
  }

  lemma ReceiveAppends(c: Client, frame: Frame)
    requires frame.Cursor? ==> !frame.reset
    ensures Receive(c, frame).transcript == c.transcript + FrameBytes(frame)
  {
    assert c.transcript + [] == c.transcript;
  }

  // ---------------------------------------------------------------------
  // Gaps
  // ---------------------------------------------------------------------

  /** Handed over plus pending is the stream without `lost` bytes that begin
      `from` bytes after the socket's base. */
  ghost predicate Missing(base: nat, sent: seq<Frame>, pending: seq<seq<Byte>>, stream: seq<Byte>, from: nat,
                          lost: nat)
  {
    && base + from + lost <= |stream|
    && Payload(sent) + Flatten(pending) == stream[base..base + from] + stream[base + from + lost..]
  }

  /** Then nothing is missing exactly if no byte was lost. */
  lemma MissingIsLinked(base: nat, sent: seq<Frame>, pending: seq<seq<Byte>>, stream: seq<Byte>, from: nat, lost: nat)
    requires Missing(base, sent, pending, stream, from, lost)
    ensures Linked(base, sent, pending, stream) <==> lost == 0
  {
    hide Payload, Flatten;
    assert |stream[base..]| == |stream[base..base + from] + stream[base + from + lost..]| + lost;
    if lost == 0 {
      assert stream[base..] == stream[base..base + from] + stream[base + from..];
    }
  }

  /** Dropping what waits loses exactly that. */
  lemma DroppingIsMissing(base: nat, sent: seq<Frame>, pending: seq<seq<Byte>>, stream: seq<Byte>)
    requires Linked(base, sent, pending, stream)
    ensures Missing(base, sent, [], stream, |Payload(sent)|, |Flatten(pending)|)
  {
    hide Payload;
    assert Payload(sent) == stream[base..][..|Payload(sent)|] == stream[base..base + |Payload(sent)|];
    assert Payload(sent) + [] == Payload(sent) + stream[|stream|..];
  }

  /** More output leaves the gap where it is. */
  lemma MissingGrows(base: nat, sent: seq<Frame>, pending: seq<seq<Byte>>, later: seq<Frame>, waiting: seq<seq<Byte>>,
                     stream: seq<Byte>, data: seq<Byte>, from: nat, lost: nat)
    requires Missing(base, sent, pending, stream, from, lost)
    requires Payload(later) + Flatten(waiting) == (Payload(sent) + Flatten(pending)) + data
    ensures Missing(base, later, waiting, stream + data, from, lost)
  {
    hide Payload, Flatten;
    assert (stream + data)[base..base + from] == stream[base..base + from];
    assert (stream + data)[base + from + lost..] == stream[base + from + lost..] + data;
    Reassociate(stream[base..base + from], stream[base + from + lost..], data);
  }

  // ---------------------------------------------------------------------
  // Cursors of another shell
  // ---------------------------------------------------------------------

  /** A cursor says nothing of the shell it was reached with. A client that
      continues at its cursor shows a piece of this shell's output exactly if
      what it already showed was one. */
  lemma ContinuedIsExactIff(c: Client, base: nat, sent: seq<Frame>, k: nat, stream: seq<Byte>)
    requires SocketExact(HelloOf(c), base, sent, stream) && 0 < k <= |sent|
    requires c.cursor.Some? && |c.transcript| <= c.cursor.value && !sent[0].reset
    ensures Exact(ReceiveAll(c, sent[..k]), stream) <==> Exact(c, stream)
  {
    var p := ReceivedPiece(c, base, sent, k, stream);
    var d := ReceiveAll(c, sent[..k]);
    GreetingFits(c, base, sent, stream);
    hide Exact, SocketExact, Greeted, ReceiveAll, HelloOf;
    ContinuesExactly(c, d, base, p, stream);
  }

  /** One byte of an old shell, then a new shell under the same thread, whose
      ring reaches the old cursor: no reset, and a transcript of neither. */
  lemma OldCursorCanMislead()
    ensures var c, sent := Client(Some(1), [7]), [Cursor(1, false), Data([9])];
            && Exact(c, [7]) && SocketExact(HelloOf(c), 1, sent, [8, 9])
            && !Exact(ReceiveAll(c, sent), [8, 9])
  {
    var c, sent := Client(Some(1), [7]), [Cursor(1, false), Data([9])];
    PayloadPush([Cursor(1, false)], Data([9]));
    PayloadPush([], Cursor(1, false));
    assert [] + [Cursor(1, false)] == [Cursor(1, false)];
    assert [Cursor(1, false)] + [Data([9])] == sent;
    assert Payload(sent) == [9] == [8, 9][1..];
    assert sent[..2] == sent;
    ContinuedIsExactIff(c, 1, sent, 2, [8, 9]);
    assert [8, 9][0..1][0] == 8;
  }
}
