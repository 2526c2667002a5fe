/** One terminal session of the server: the output ring, the coalescing queue,
  slow-consumer eviction, detaching and reattaching.

  `stream` is the shell's whole output so far; it exists only for the proofs.
 */
module PtySessions {
  import opened Wrappers
  import opened PtyStream

  const DETACH_GRACE_MS: nat := 300_000

  /** A server-side socket. Its transport may stop being open at any moment,
      also inside `Send`, unless it is a steady one; it never opens again. */
  class Socket {
    const hello: Hello
    const steady: bool
    var open: bool
    var buffered: nat
    var sent: seq<Frame>
    var closeCode: Option<int>
    // The stream position of the first payload byte.
    ghost var base: nat

    constructor (hello: Hello, open: bool, steady: bool)
      ensures this.hello == hello && this.open == open && this.steady == steady
      ensures sent == [] && buffered == 0 && closeCode == None
    {
      this.hello, this.open, this.steady := hello, open, steady;
      sent, buffered, closeCode := [], 0, None;
      base := 0;
    }

    /** Open, with a transport that holds and nothing waiting in it. */
    ghost predicate Healthy()
      reads this
    {
      steady && open && buffered == 0 && closeCode == None
    }

    /** Open for good, with room for a greeting. */
    ghost predicate Takes()
      reads this
    {
      steady && open && buffered + 10 <= 524288
    }

    /** No longer open, with this code if it had none before. */
    ghost predicate ClosedWith(before: Option<int>, code: int)
      reads this
    {
      !open && closeCode == if before == None then Some(code) else before
    }

    /** Open, and not told where it stands. */
    ghost predicate Ungreeted()
      reads this
    {
      open && hello != Legacy && sent == []
    }

    /** The last send failed: the transport was lost, or the send threw and the
        socket was closed after it. */
    ghost predicate FailedLast(before: Option<int>)
      reads this
    {
      !steady && (closeCode == before || (before == None && closeCode == Some(1000)))
    }

    ghost function View(): Wire
      reads this
    {
      Wire(open, buffered, sent, closeCode, base, steady)
    }

    /** Hands one frame to the transport; fails without effect on the frames
        if the transport is, or just now stops being, open, or if the call
        throws. */
    method Send(f: Frame) returns (ok: bool)
      modifies this`open, this`buffered, this`sent
      ensures ok ==> open && sent == old(sent) + [f] && buffered <= old(buffered) + WireSize(f)
      ensures !ok ==> sent == old(sent) && buffered == old(buffered)
      ensures open ==> old(open)
      ensures steady ==> ok == open == old(open)
    {
      var lost: bool, throws: bool := *, *;
      open := open && (steady || !lost);
      ok := open && (steady || !throws);
      if ok {
        sent := sent + [f];
        // The kernel may have taken any part of it already.
        var left: nat :| left <= buffered + WireSize(f);
        buffered := left;
      }
    }

    method Close(code: int)
      modifies this`open, this`closeCode
      ensures !open
      ensures closeCode == if old(closeCode).None? then Some(code) else old(closeCode)
    {
      open := false;
      if closeCode == None {
        closeCode := Some(code);
      }
    }
  }

  /** What says whether and since when a session is attached. */
  datatype Attachment = Attachment(
    ws: Socket?, detachTimer: Option<nat>, detachedAt: nat, timers: map<nat, DetachTimer>, nextId: nat, now: nat)

  datatype DetachTimer = DetachTimer(session: PtySession, due: nat)

  /** The part of the event loop that detach timers live in. */
  class EventLoop {
    var now: nat
    var timers: map<nat, DetachTimer>
    var nextId: nat

    ghost predicate Valid()
      reads this
    {
      forall id | id in timers :: id < nextId
    }

    constructor ()
      ensures Valid() && timers == map[]
    {
      now, timers, nextId := 0, map[], 0;
    }

    method SetTimeout(session: PtySession, delay: nat) returns (id: nat)
      requires Valid()
      modifies this`timers, this`nextId
      ensures Valid()
      ensures id == old(nextId) && nextId == id + 1 && timers == old(timers)[id := DetachTimer(session, now + delay)]
    {
      id := nextId;
      timers := timers[id := DetachTimer(session, now + delay)];
      nextId := nextId + 1;
    }

    method ClearTimeout(id: nat)
      requires Valid()
      modifies this`timers
      ensures Valid()
      ensures timers == old(timers) - {id}
    {
      timers := timers - {id};
    }
  }

  class PtySession {
    const threadId: string
    const loop: EventLoop
    var ws: Socket?
    var scrollback: seq<seq<Byte>>
    var scrollbackBytes: nat
    var scrollbackStart: nat
    var streamEnd: nat
    var pendingOutput: seq<seq<Byte>>
    var pendingOutputBytes: nat
    var flushTimer: Option<nat>
    var detachTimer: Option<nat>

    // Flush timers set and not yet fired or cancelled.
    var liveFlush: set<nat>
    var nextFlush: nat

    ghost var stream: seq<Byte>
    // Every socket ever attached, and those of them whose output is exact; a
    // socket that is attached without its greeting is not among the latter, and
    // a kill frame takes a socket out of them.
    ghost var served: set<Socket>
    ghost var exact: set<Socket>
    ghost var detachedAt: nat

    constructor (threadId: string, loop: EventLoop)
      ensures this.threadId == threadId && this.loop == loop
      ensures Valid() && Idle()
      ensures stream == [] && served == {} && exact == {}
    {
      this.threadId, this.loop := threadId, loop;
      ws := null;
      scrollback, scrollbackBytes, scrollbackStart, streamEnd := [], 0, 0, 0;
      pendingOutput, pendingOutputBytes, flushTimer, detachTimer := [], 0, None, None;
      liveFlush, nextFlush := {}, 0;
      stream, served, exact, detachedAt := [], {}, {}, 0;
    }

    // -------------------------------------------------------------------
    // Invariants
    // -------------------------------------------------------------------

    ghost predicate Idle()
      reads this
    {
      ws == null && pendingOutput == [] && detachTimer == None
    }

    ghost predicate RingValid()
      reads this`scrollback, this`scrollbackBytes, this`scrollbackStart, this`streamEnd, this`stream
    {
      RingIsTail(scrollback, scrollbackBytes, scrollbackStart, streamEnd, stream)
    }

    /** Fewer bytes than one frame wait, and only for an attached socket. */
    ghost predicate QueueValid()
      reads this`pendingOutput, this`pendingOutputBytes, this`ws, this`detachTimer
    {
      && pendingOutputBytes == |Flatten(pendingOutput)| < PTY_FRAME_MAX_BYTES
      && (ws == null ==> pendingOutputBytes == 0)
      && (ws != null ==> detachTimer == None)
    }

    /** A non-null handle names a timer that will still fire, and bytes wait
        only while there is one. */
    ghost predicate TimerValid()
      reads this`flushTimer, this`liveFlush, this`nextFlush
    {
      && (flushTimer.Some? ==> flushTimer.value in liveFlush)
      && (forall id | id in liveFlush :: id < nextFlush)
    }

    ghost predicate Valid()
      reads this, served
    {
      && RingValid() && QueueValid() && TimerValid()
      && (pendingOutputBytes > 0 ==> flushTimer.Some?)
      && (ws != null ==> ws in served)
      && exact <= served
      && (forall s | s in exact :: SocketExact(s.hello, s.base, s.sent, stream))
      && (ws != null && ws in exact && ws.open ==> Live(ws.View(), ws.hello, pendingOutput, stream))
    }

    lemma ConsumerIsServed()
      requires Valid()
      ensures Consumer() <= served
    {
    }

    ghost function Consumer(): set<object>
      reads this
    {
      if ws == null then {} else {ws}
    }

    /** Bytes handed to the attached socket followed by the bytes waiting. */
    ghost function Queued(w: Socket): seq<Byte>
      reads this, w
    {
      Payload(w.sent) + Flatten(pendingOutput)
    }

    /** The consumer is still attached and no detach timer was touched, or it
        was dropped and the grace period starts now. */
    twostate predicate KeptOrDropped()
      reads this, loop
    {
      && old(loop.nextId) <= loop.nextId
      && (|| (ws == old(ws) && detachTimer == old(detachTimer) && detachedAt == old(detachedAt)
              && loop.timers == old(loop.timers))
          || (old(ws) != null && Dropped()))
    }

    ghost function AttachedAs(): Attachment
      reads this, loop
    {
      Attachment(ws, detachTimer, detachedAt, loop.timers, loop.nextId, loop.now)
    }

    /** The same since an earlier moment. */
    ghost predicate KeptSince(a: Attachment)
      reads this, loop
    {
      && a.nextId <= loop.nextId && loop.now == a.now
      && (|| (ws == a.ws && detachTimer == a.detachTimer && detachedAt == a.detachedAt && loop.timers == a.timers)
          || (a.ws != null && ws == null && detachedAt == loop.now
              && detachTimer.Some? && a.nextId <= detachTimer.value < loop.nextId
              && loop.timers == a.timers[detachTimer.value := DetachTimer(this, loop.now + 300_000)]))
    }

    twostate lemma KeptOn(a: Attachment)
      requires old(KeptSince(a)) && KeptOrDropped() && loop.now == old(loop.now)
      ensures KeptSince(a)
    {
    }

    twostate lemma KeptSinceEntry()
      requires KeptSince(old(AttachedAs()))
      ensures KeptOrDropped()
    {
    }

    /** The attached socket lacks `lost` bytes of the output, `from` bytes after
        where it started. */
    ghost predicate Gap(from: nat, lost: nat)
      requires ws != null
      reads this, ws
    {
      Missing(ws.base, ws.sent, pendingOutput, stream, from, lost)
    }

    /** Every gap stays where it is while the consumer stays open. */
    twostate predicate GapsStay()
      reads this, Consumer()
    {
      old(ws) != null && ws == old(ws) && ws.open ==>
        forall from: nat, lost: nat :: old(Gap(from, lost)) ==> Gap(from, lost)
    }

    twostate lemma GapsGrow(data: seq<Byte>)
      requires stream == old(stream) + data
      requires old(ws) != null && ws == old(ws) && ws.open ==>
        ws.base == old(ws.base) && Queued(ws) == old(Queued(ws)) + data
      ensures GapsStay()
    {
      hide Missing, Payload, Flatten;
      if old(ws) != null && ws == old(ws) && ws.open {
        forall from: nat, lost: nat | old(Gap(from, lost))
          ensures Gap(from, lost)
        {
          MissingGrows(ws.base, old(ws.sent), old(pendingOutput), ws.sent, pendingOutput, old(stream), data, from,
                       lost);
        }
      }
    }

    twostate predicate Dropped()
      reads this, loop
    {
      && ws == null
      && detachedAt == loop.now
      && detachTimer.Some? && old(loop.nextId) <= detachTimer.value < loop.nextId
      && loop.timers == old(loop.timers)[detachTimer.value := DetachTimer(this, loop.now + 300_000)]
    }

    // -------------------------------------------------------------------
    // The ring
    // -------------------------------------------------------------------

    /** The oldest chunks make room for new output, and only if they must; output
        that would fill the ring alone leaves exactly a full ring of its own. */
    method AppendScrollback(data: seq<Byte>)
      requires RingValid()
      modifies this`scrollback, this`scrollbackBytes, this`scrollbackStart, this`streamEnd, this`stream
      ensures RingValid()
      ensures stream == old(stream) + data
      ensures |data| >= SCROLLBACK_LIMIT_BYTES ==> scrollback == [data[|data| - SCROLLBACK_LIMIT_BYTES..]]
      ensures |data| < SCROLLBACK_LIMIT_BYTES ==> DropsOnlyExcess(old(scrollback) + [data], scrollback)
      ensures old(scrollbackBytes) + |data| <= SCROLLBACK_LIMIT_BYTES ==> scrollbackStart == old(scrollbackStart)
    {
      var nextEnd := streamEnd + |data|;
      stream := stream + data;
      if |data| >= SCROLLBACK_LIMIT_BYTES {
        scrollback := [data[|data| - SCROLLBACK_LIMIT_BYTES..]];
        scrollbackBytes := SCROLLBACK_LIMIT_BYTES;
        scrollbackStart := nextEnd - SCROLLBACK_LIMIT_BYTES;
        streamEnd := nextEnd;
        assert Flatten(scrollback) == scrollback[0] + Flatten([]);
        return;
      }
      FlattenPush(scrollback, data);
      scrollback := scrollback + [data];
      scrollbackBytes := scrollbackBytes + |data|;
      streamEnd := nextEnd;
      DropExcess(data, scrollbackStart);
    }

    /** The loop of `AppendScrollback`. */
    method DropExcess(data: seq<Byte>, ghost start: nat)
      requires scrollback != [] && scrollback[|scrollback| - 1] == data && |data| < SCROLLBACK_LIMIT_BYTES
      requires scrollbackBytes == |Flatten(scrollback)| && scrollbackStart + scrollbackBytes == streamEnd == |stream|
      requires Flatten(scrollback) == stream[scrollbackStart..]
      requires |scrollback| == 1 ==> scrollbackBytes == |data|
      requires data == [] ==> scrollbackBytes <= SCROLLBACK_LIMIT_BYTES
      requires scrollbackBytes == 0 ==> stream == []
      requires scrollbackStart == start && (start > 0 ==> streamEnd > SCROLLBACK_LIMIT_BYTES)
      modifies this`scrollback, this`scrollbackBytes, this`scrollbackStart
      ensures RingValid()
      ensures DropsOnlyExcess(old(scrollback), scrollback)
      ensures old(scrollbackBytes) <= SCROLLBACK_LIMIT_BYTES ==> scrollbackStart == start
    {
      ghost var j := 0;
      while scrollbackBytes > SCROLLBACK_LIMIT_BYTES && |scrollback| > 1
        invariant scrollbackBytes == |Flatten(scrollback)|
        invariant scrollbackStart + scrollbackBytes == streamEnd == |stream|
        invariant Flatten(scrollback) == stream[scrollbackStart..]
        invariant scrollback != [] && scrollback[|scrollback| - 1] == data
        invariant |scrollback| == 1 ==> scrollbackBytes == |data|
        invariant data == [] ==> scrollbackBytes <= SCROLLBACK_LIMIT_BYTES
        invariant scrollbackBytes == 0 ==> stream == []
        invariant j <= |old(scrollback)| && DropsFirst(old(scrollback), scrollback, j)
        invariant old(scrollbackBytes) <= SCROLLBACK_LIMIT_BYTES ==> scrollbackStart == start
        invariant scrollbackStart > 0 ==> streamEnd > SCROLLBACK_LIMIT_BYTES
        decreases |scrollback|
      {
        hide Flatten, RingIsTail, DropsFirst;
        var dropped := scrollback[0];
        FlattenRest(scrollback, stream, scrollbackStart);
        DropsNext(old(scrollback), scrollback, j);
        j := j + 1;
        scrollback := scrollback[1..];
        scrollbackBytes := scrollbackBytes - |dropped|;
        scrollbackStart := scrollbackStart + |dropped|;
        LastChunk(scrollback, data);
      }
    }

    static lemma DropsNext(all: seq<seq<Byte>>, kept: seq<seq<Byte>>, j: nat)
      requires j <= |all| && DropsFirst(all, kept, j) && kept != [] && |Flatten(kept)| > 262144
      ensures j < |all| && DropsFirst(all, kept[1..], j + 1)
    {
    }

    static lemma FlattenRest(chunks: seq<seq<Byte>>, stream: seq<Byte>, start: nat)
      requires chunks != [] && start <= |stream| && Flatten(chunks) == stream[start..]
      ensures |Flatten(chunks)| == |chunks[0]| + |Flatten(chunks[1..])|
      ensures start + |chunks[0]| <= |stream| && Flatten(chunks[1..]) == stream[start + |chunks[0]|..]
    {
      assert Flatten(chunks) == chunks[0] + Flatten(chunks[1..]);
      assert Flatten(chunks[1..]) == Flatten(chunks)[|chunks[0]|..];
    }

    static lemma LastChunk(chunks: seq<seq<Byte>>, data: seq<Byte>)
      requires chunks != [] && chunks[|chunks| - 1] == data
      ensures |Flatten(chunks)| >= |data|
      ensures |chunks| == 1 ==> Flatten(chunks) == data
    {
      FlattenPush(chunks[..|chunks| - 1], data);
      assert chunks == chunks[..|chunks| - 1] + [data];
    }

    /** The retained output from an absolute cursor on: all of it if the
        cursor lies before the ring, none of it if it lies after. */
    method ScrollbackFrom(cursor: int) returns (output: seq<seq<Byte>>)
      requires RingValid()
      ensures Flatten(output)
           == if cursor < scrollbackStart then stream[scrollbackStart..]
              else if cursor <= streamEnd then stream[cursor..]
              else []
    {
      output := [];
      var remaining: int := cursor - scrollbackStart;
      var i := 0;
      assert scrollback[..0] == [];
      while i < |scrollback|
        invariant 0 <= i <= |scrollback|
        invariant remaining > 0 ==>
          output == [] && |Flatten(scrollback[..i])| == cursor - scrollbackStart - remaining
        invariant remaining <= 0 ==>
          Flatten(output) == DropUpTo(Flatten(scrollback[..i]), cursor - scrollbackStart)
        invariant remaining <= 0 && cursor > scrollbackStart ==>
          |Flatten(scrollback[..i])| >= cursor - scrollbackStart
      {
        var chunk := scrollback[i];
        assert scrollback[..i + 1] == scrollback[..i] + [chunk];
        FlattenPush(scrollback[..i], chunk);
        if remaining >= |chunk| {
          remaining := remaining - |chunk|;
        } else {
          FlattenPush(output, if remaining > 0 then chunk[remaining..] else chunk);
          output := output + [if remaining > 0 then chunk[remaining..] else chunk];
          remaining := 0;
        }
        i := i + 1;
      }
      assert scrollback[..i] == scrollback;
    }

    // -------------------------------------------------------------------
    // Detaching
    // -------------------------------------------------------------------

    method ClearPendingPtyOutput()
      requires TimerValid()
      modifies this`flushTimer, this`liveFlush, this`pendingOutput, this`pendingOutputBytes
      ensures TimerValid() && flushTimer == None
      ensures pendingOutput == [] && pendingOutputBytes == 0
    {
      if flushTimer.Some? {
        liveFlush := liveFlush - {flushTimer.value};
        flushTimer := None;
      }
      pendingOutput := [];
      pendingOutputBytes := 0;
    }

    method ArmPtyDetach()
      requires loop.Valid()
      modifies this`detachTimer, this`detachedAt, loop`timers, loop`nextId
      ensures loop.Valid()
      ensures detachTimer.Some? && old(loop.nextId) <= detachTimer.value < loop.nextId
      ensures loop.timers
           == (if old(detachTimer).Some? then old(loop.timers) - {old(detachTimer).value} else old(loop.timers))
              [detachTimer.value := DetachTimer(this, loop.now + DETACH_GRACE_MS)]
      ensures detachedAt == loop.now
    {
      if detachTimer.Some? {
        loop.ClearTimeout(detachTimer.value);
      }
      var id := loop.SetTimeout(this, DETACH_GRACE_MS);
      detachTimer := Some(id);
      detachedAt := loop.now;
    }

    method DetachPtyConsumer(w: Socket)
      requires TimerValid() && loop.Valid()
      requires ws != null ==> detachTimer == None
      modifies this`ws, this`pendingOutput, this`pendingOutputBytes, this`flushTimer, this`liveFlush,
               this`detachTimer, this`detachedAt, loop`timers, loop`nextId
      ensures TimerValid() && loop.Valid()
      ensures if old(ws) == w
              then Dropped() && flushTimer == None && pendingOutput == [] && pendingOutputBytes == 0
              else unchanged(this) && unchanged(loop)
    {
      if ws != w {
        return;
      }
      ws := null;
      ClearPendingPtyOutput();
      ArmPtyDetach();
    }

    method EvictSlowPtyConsumer(w: Socket)
      requires TimerValid() && loop.Valid()
      requires ws != null ==> detachTimer == None
      modifies this`ws, this`pendingOutput, this`pendingOutputBytes, this`flushTimer, this`liveFlush,
               this`detachTimer, this`detachedAt, loop`timers, loop`nextId, w`open, w`closeCode
      ensures TimerValid() && loop.Valid()
      ensures if old(ws) == w
              then Dropped() && flushTimer == None && pendingOutput == [] && pendingOutputBytes == 0 && !w.open
                   && w.closeCode == if old(w.closeCode) == None then Some(1013)
                                     else old(w.closeCode)
              else unchanged(this) && unchanged(loop) && unchanged(w)
    {
      if ws != w {
        return;
      }
      DetachPtyConsumer(w);
      w.Close(PTY_SLOW_CONSUMER_CLOSE_CODE);
    }

    // -------------------------------------------------------------------
    // Sending
    // -------------------------------------------------------------------

    method FlushPtyOutput()
      requires pendingOutputBytes == |Flatten(pendingOutput)| <= PTY_FRAME_MAX_BYTES
      requires ws == null ==> pendingOutputBytes == 0
      requires ws != null ==> detachTimer == None
      requires (forall id | id in liveFlush :: id < nextFlush) && loop.Valid()
      modifies this`ws, this`pendingOutput, this`pendingOutputBytes, this`flushTimer, this`liveFlush,
               this`detachTimer, this`detachedAt, loop`timers, loop`nextId, Consumer()
      ensures TimerValid() && loop.Valid() && flushTimer == None
      ensures QueueValid() && pendingOutputBytes == 0
      ensures KeptOrDropped()
      ensures old(ws) != null && ws == null ==> !old(ws).open || !old(ws).steady
      ensures ws != null ==> ws.open == old(ws.open) && ws.closeCode == old(ws.closeCode)
      ensures ws != null && ws.open ==> Queued(ws) == old(Queued(ws))
      ensures old(ws) != null ==> Flushed(old(ws.View()), old(ws).View(), old(Flatten(pendingOutput)))
    {
      flushTimer := None;
      if ws == null || pendingOutputBytes == 0 {
        assert ws != null ==> Flatten(pendingOutput) == [];
        return;
      }
      assert Flatten([]) == [];
      var payload := Concat(pendingOutput);
      hide Flatten, Payload;
      HandingOne(ws.sent, payload);
      ClearPendingPtyOutput();
      if !ws.open {
        return;
      }
      SendOrDrop(payload);
    }

    /** The rest of a flush: hand one frame to the open consumer, or evict a
        slow one, or detach one whose transport failed. */
    method SendOrDrop(payload: seq<Byte>)
      requires ws != null && ws.open && pendingOutput == [] && pendingOutputBytes == 0
      requires 1 <= |payload| && detachTimer == None && flushTimer == None
      requires TimerValid() && loop.Valid()
      modifies this`ws, this`pendingOutput, this`pendingOutputBytes, this`flushTimer, this`liveFlush,
               this`detachTimer, this`detachedAt, loop`timers, loop`nextId,
               ws`open, ws`buffered, ws`sent, ws`closeCode
      ensures TimerValid() && loop.Valid() && flushTimer == None
      ensures pendingOutput == [] && pendingOutputBytes == 0
      ensures KeptOrDropped() && (ws != null ==> detachTimer == None && ws.sent == old(ws.sent) + [Data(payload)])
      ensures Flushed(old(ws.View()), old(ws).View(), payload)
      ensures if ws == null then !old(ws).open || !old(ws).steady else ws.open && ws.closeCode == old(ws.closeCode)
    {
      var w := ws;
      if w.buffered + |payload| + 1 > PTY_WS_BUFFERED_AMOUNT_LIMIT {
        EvictSlowPtyConsumer(w);
        return;
      }
      var ok := w.Send(Data(payload));
      if !ok {
        DetachPtyConsumer(w);
      }
    }

    method Concat(chunks: seq<seq<Byte>>) returns (bytes: seq<Byte>)
      ensures bytes == Flatten(chunks)
    {
      bytes := [];
      var i := 0;
      assert chunks[..0] == [];
      while i < |chunks|
        invariant 0 <= i <= |chunks|
        invariant bytes == Flatten(chunks[..i])
      {
        assert chunks[..i + 1] == chunks[..i] + [chunks[i]];
        FlattenPush(chunks[..i], chunks[i]);
        bytes := bytes + chunks[i];
        i := i + 1;
      }
      assert chunks[..i] == chunks;
    }

    /** Conservation: what the socket was handed plus what waits grows by
        exactly `data` while the socket stays attached and open. */
    method QueuePtyOutput(data: seq<Byte>)
      requires QueueValid() && TimerValid() && loop.Valid()
      requires pendingOutputBytes > 0 ==> flushTimer.Some?
      modifies this`ws, this`pendingOutput, this`pendingOutputBytes, this`flushTimer, this`liveFlush,
               this`nextFlush, this`detachTimer, this`detachedAt, loop`timers, loop`nextId, Consumer()
      ensures QueueValid() && TimerValid() && loop.Valid()
      ensures pendingOutputBytes > 0 ==> flushTimer.Some?
      ensures KeptOrDropped()
      ensures old(ws) != null && ws == null ==> !old(ws).open || !old(ws).steady
      ensures old(ws) != null ==> Advanced(old(ws.View()), old(ws).View(), old(Queued(ws)) + data)
      ensures ws != null && ws.open ==> old(ws.open) && Queued(ws) == old(Queued(ws)) + data
    {
      hide Flatten, Payload, Advanced;
      if ws == null || data == [] {
        if ws != null {
          assert Queued(ws) + data == Queued(ws);
          AdvancedNothing(ws.View(), Queued(ws), Flatten(pendingOutput));
        }
        return;
      }
      FillFrames(data);
      if ws != null && pendingOutputBytes > 0 && flushTimer == None {
        flushTimer := Some(nextFlush);
        liveFlush := liveFlush + {nextFlush};
        nextFlush := nextFlush + 1;
      }
    }

    /** The loop of `QueuePtyOutput`: full frames leave at once, a short rest
        stays. */
    method FillFrames(data: seq<Byte>)
      requires ws != null && QueueValid() && TimerValid() && loop.Valid()
      modifies this`ws, this`pendingOutput, this`pendingOutputBytes, this`flushTimer, this`liveFlush,
               this`detachTimer, this`detachedAt, loop`timers, loop`nextId, Consumer()
      ensures QueueValid() && TimerValid() && loop.Valid()
      ensures KeptOrDropped()
      ensures old(ws) != null && ws == null ==> !old(ws).open || !old(ws).steady
      ensures Advanced(old(ws.View()), old(ws).View(), old(Queued(ws)) + data)
      ensures ws != null && ws.open ==> old(ws.open) && Queued(ws) == old(Queued(ws)) + data
    {
      hide Flatten, Payload, Advanced;
      ghost var w := ws;
      ghost var a := ws.View();
      ghost var q := Queued(ws);
      assert q + data[..0] == q;
      AdvancedNothing(a, q, Flatten(pendingOutput));
      var offset := 0;
      while offset < |data| && ws != null
        invariant 0 <= offset <= |data|
        invariant QueueValid() && TimerValid() && loop.Valid()
        invariant KeptOrDropped() && (ws == null ==> !w.open || !w.steady)
        invariant Advanced(a, w.View(), q + data[..offset])
        invariant ws != null && ws.open ==> Queued(ws) == q + data[..offset]
        decreases |data| - offset
      {
        var room := PTY_FRAME_MAX_BYTES - pendingOutputBytes;
        var take := if room < |data| - offset then room else |data| - offset;
        var chunk := data[offset..offset + take];
        assert q + data[..offset + take] == (q + data[..offset]) + chunk;
        ghost var b, r := w.View(), Queued(w) + chunk;
        QueueSlice(chunk);
        AdvancedThen(a, b, w.View(), q + data[..offset], r, chunk);
        offset := offset + take;
      }
      AdvancedMore(a, w.View(), q + data[..offset], data[offset..]);
      assert (q + data[..offset]) + data[offset..] == q + data;
      assert offset == |data| ==> data[..offset] == data;
    }

    /** One turn of that loop: a slice that fits the current frame. */
    method QueueSlice(chunk: seq<Byte>)
      requires ws != null && QueueValid() && TimerValid() && loop.Valid()
      requires 1 <= |chunk| <= PTY_FRAME_MAX_BYTES - pendingOutputBytes
      modifies this`ws, this`pendingOutput, this`pendingOutputBytes, this`flushTimer, this`liveFlush,
               this`detachTimer, this`detachedAt, loop`timers, loop`nextId, Consumer()
      ensures QueueValid() && TimerValid() && loop.Valid()
      ensures KeptOrDropped()
      ensures old(ws) != null && ws == null ==> !old(ws).open || !old(ws).steady
      ensures Advanced(old(ws.View()), old(ws).View(), old(Queued(ws)) + chunk)
      ensures ws != null && ws.open ==> old(ws.open) && Queued(ws) == old(Queued(ws)) + chunk
    {
      hide Flatten, Payload, Advanced;
      FlattenPush(pendingOutput, chunk);
      AdvancedNothing(ws.View(), Queued(ws), Flatten(pendingOutput));
      AdvancedMore(ws.View(), ws.View(), Queued(ws), chunk);
      assert Queued(ws) + chunk == Payload(ws.sent) + (Flatten(pendingOutput) + chunk);
      pendingOutput := pendingOutput + [chunk];
      pendingOutputBytes := pendingOutputBytes + |chunk|;
      if pendingOutputBytes == PTY_FRAME_MAX_BYTES {
        ghost var w, a, payload := ws, ws.View(), Flatten(pendingOutput);
        FlushPtyOutput();
        FullFlushAdvances(a, w.View(), payload);
      }
    }

    /** One chunk of several, for a consumer that may be gone by now. */
    method QueueNext(chunk: seq<Byte>, ghost w: Socket, ghost a: Wire, ghost done: seq<Byte>, ghost from: Attachment)
      requires QueueValid() && TimerValid() && loop.Valid() && KeptSince(from)
      requires pendingOutputBytes > 0 ==> flushTimer.Some?
      requires if ws == null then !w.open || !w.steady else ws == w
      requires Advanced(a, w.View(), done) && (ws != null && ws.open ==> Queued(ws) == done)
      modifies this`ws, this`pendingOutput, this`pendingOutputBytes, this`flushTimer, this`liveFlush,
               this`nextFlush, this`detachTimer, this`detachedAt, loop`timers, loop`nextId, Consumer()
      ensures QueueValid() && TimerValid() && loop.Valid() && KeptSince(from)
      ensures pendingOutputBytes > 0 ==> flushTimer.Some?
      ensures if ws == null then !w.open || !w.steady else ws == w
      ensures Advanced(a, w.View(), done + chunk) && (ws != null && ws.open ==> Queued(ws) == done + chunk)
    {
      hide Flatten, Payload, Advanced, PtySession.TimerValid, PtySession.KeptSince;
      ghost var b, r := w.View(), Queued(w) + chunk;
      if ws == null {
        AdvancedMore(a, b, done, chunk);
      }
      ghost var attached := ws != null;
      QueuePtyOutput(chunk);
      KeptOn(from);
      if attached {
        AdvancedThen(a, b, w.View(), done, r, chunk);
      }
    }

    method QueueAll(chunks: seq<seq<Byte>>)
      requires ws != null && QueueValid() && TimerValid() && loop.Valid()
      requires pendingOutputBytes > 0 ==> flushTimer.Some?
      modifies this`ws, this`pendingOutput, this`pendingOutputBytes, this`flushTimer, this`liveFlush,
               this`nextFlush, this`detachTimer, this`detachedAt, loop`timers, loop`nextId, Consumer()
      ensures QueueValid() && TimerValid() && loop.Valid()
      ensures pendingOutputBytes > 0 ==> flushTimer.Some?
      ensures KeptOrDropped()
      ensures old(ws) != null && ws == null ==> !old(ws).open || !old(ws).steady
      ensures Advanced(old(ws.View()), old(ws).View(), old(Queued(ws)) + Flatten(chunks))
      ensures ws != null && ws.open ==> old(ws.open) && Queued(ws) == old(Queued(ws)) + Flatten(chunks)
    {
      ghost var w := ws;
      ghost var a := ws.View();
      ghost var q := Queued(ws);
      ghost var from := AttachedAs();
      assert chunks[..0] == [] && Flatten([]) == [] && q + [] == q && KeptSince(from);
      hide Flatten, Payload, Advanced, PtySession.TimerValid, PtySession.QueueValid, PtySession.KeptSince;
      AdvancedNothing(a, q, Flatten(pendingOutput));
      var i := 0;
      ghost var done := q;
      while i < |chunks|
        invariant 0 <= i <= |chunks| && done == q + Flatten(chunks[..i])
        invariant QueueValid() && TimerValid() && loop.Valid() && KeptSince(from)
        invariant pendingOutputBytes > 0 ==> flushTimer.Some?
        invariant if ws == null then !w.open || !w.steady else ws == w
        invariant Advanced(a, w.View(), done) && (ws != null && ws.open ==> Queued(ws) == done)
      {
        QueueNext(chunks[i], w, a, done, from);
        FlattenNext(q, chunks, i);
        done := done + chunks[i];
        i := i + 1;
      }
      KeptSinceEntry();
      assert chunks[..i] == chunks;
    }

    // -------------------------------------------------------------------
    // Attaching
    // -------------------------------------------------------------------

    predicate CursorIsRetained(hello: Hello)
      reads this`scrollbackStart, this`streamEnd
    {
      hello.From? && scrollbackStart <= hello.at <= streamEnd
    }

    /** Where a replay starts: at the client's cursor if the ring still reaches
        it, at the ring otherwise. */
    function ReplayStart(hello: Hello): nat
      reads this`scrollbackStart, this`streamEnd
    {
      if CursorIsRetained(hello) then hello.at else scrollbackStart
    }

    /** What a cursor client is told first: a reset exactly if its cursor
        cannot be continued. */
    function Greeting(hello: Hello): Frame
      reads this`scrollbackStart, this`streamEnd
    {
      Cursor(ReplayStart(hello), hello.From? && !CursorIsRetained(hello))
    }

    /** The socket stands where the replay starts and was told so. */
    ghost predicate StartedRight(w: Socket)
      reads this`scrollbackStart, this`streamEnd, w
    {
      w.base == ReplayStart(w.hello) && (w.sent != [] && w.hello != Legacy ==> w.sent[0] == Greeting(w.hello))
    }

    /** Replays the ring to a socket that has not been handed anything: all of
        it to an old client, the missed suffix to a cursor client. With an
        empty transport buffer the replay itself never evicts: the socket is
        closed as slow only if not even the greeting could be handed over. */
    method ReplayPtyOutput(hello: Hello)
      requires RingValid() && QueueValid() && TimerValid() && loop.Valid()
      requires ws != null ==> ws.hello == hello && ws.sent == [] && pendingOutput == []
      requires pendingOutputBytes > 0 ==> flushTimer.Some?
      modifies this`ws, this`pendingOutput, this`pendingOutputBytes, this`flushTimer, this`liveFlush,
               this`nextFlush, this`detachTimer, this`detachedAt, loop`timers, loop`nextId, Consumer()
      ensures QueueValid() && TimerValid() && loop.Valid()
      ensures pendingOutputBytes > 0 ==> flushTimer.Some?
      ensures KeptOrDropped()
      ensures old(ws) != null && ws == null ==> !old(ws).open || !old(ws).steady
      ensures old(ws) != null ==> SocketExact(hello, old(ws).base, old(ws).sent, stream) && StartedRight(old(ws))
      ensures ws != null && ws.open && !ws.Ungreeted() ==> Live(ws.View(), hello, pendingOutput, stream)
      ensures old(ws) != null && old(ws.buffered) == 0 && old(ws).closeCode != old(ws.closeCode) ==>
        old(ws).sent == [] && hello != Legacy
      ensures old(ws) != null && hello != Legacy && old(ws.Takes()) ==> old(ws).sent != []
      ensures old(ws) != null && old(ws.Healthy()) ==>
        ws == old(ws) && ws.open && ws.closeCode == None && !ws.Ungreeted()
    {
      if ws == null || scrollbackBytes == 0 {
        if ws != null {
          GreetEmpty(hello);
        }
        return;
      }
      assert |stream[scrollbackStart..]| == scrollbackBytes;
      assert ws.hello == Legacy ==> Greeted(ws.hello, scrollbackStart, ws.sent);
      hide SocketExact, Live, Flatten, Greeted;
      if hello == Legacy {
        ws.base := scrollbackStart;
        ReplayFrom(scrollback);
        return;
      }
      GreetAndReplay(hello);
    }

    /** Before the shell has printed anything a cursor client only learns
        where it stands. The outcome of that send is not looked at, so if it
        throws the socket stays attached without its greeting. */
    method GreetEmpty(hello: Hello)
      requires RingValid() && scrollbackBytes == 0
      requires ws != null && ws.hello == hello && ws.sent == [] && pendingOutput == []
      modifies ws
      ensures SocketExact(hello, ws.base, ws.sent, stream) && StartedRight(ws)
      ensures ws.open ==> old(ws.open)
      ensures ws.open && !ws.Ungreeted() ==> Live(ws.View(), hello, pendingOutput, stream)
      ensures ws.closeCode == old(ws.closeCode)
      ensures hello != Legacy && old(ws.Takes()) ==> ws.sent != []
      ensures old(ws.Healthy()) ==> ws.open && !ws.Ungreeted()
    {
      ws.base := 0;
      UnsentExact(hello, 0, stream);
      hide SocketExact, Live, Flatten, Payload;
      if hello != Legacy {
        var _ := ws.Send(Cursor(streamEnd, hello != Fresh && hello != From(streamEnd)));
      }
      if hello == Legacy || ws.sent != [] {
        EmptyGreeting(hello, ws.View());
      }
    }

    /** The cursor branch of a replay of a non-empty ring. */
    method GreetAndReplay(hello: Hello)
      requires RingValid() && QueueValid() && TimerValid() && loop.Valid()
      requires hello != Legacy
      requires ws != null && ws.hello == hello && ws.sent == [] && pendingOutput == []
      modifies this`ws, this`pendingOutput, this`pendingOutputBytes, this`flushTimer, this`liveFlush,
               this`nextFlush, this`detachTimer, this`detachedAt, loop`timers, loop`nextId, Consumer()
      ensures QueueValid() && TimerValid() && loop.Valid()
      ensures pendingOutputBytes > 0 ==> flushTimer.Some?
      ensures KeptOrDropped()
      ensures old(ws) != null && ws == null ==> !old(ws).open || !old(ws).steady
      ensures SocketExact(hello, old(ws).base, old(ws).sent, stream) && StartedRight(old(ws))
      ensures ws != null && ws.open ==> old(ws.open) && Live(ws.View(), hello, pendingOutput, stream)
      ensures old(ws.buffered) == 0 && old(ws).closeCode != old(ws.closeCode) ==> old(ws).sent == []
      ensures old(ws.Takes()) ==> old(ws).sent != []
      ensures old(ws.Healthy()) ==> ws == old(ws) && ws.open && ws.closeCode == None
    {
      var validCursor := hello.From? && scrollbackStart <= hello.at <= streamEnd;
      var start := if validCursor then hello.at else scrollbackStart;
      var reset := hello.From? && !validCursor;
      ws.base := start;
      UnsentExact(hello, start, stream);
      assert start == ReplayStart(hello) && Cursor(start, reset) == Greeting(hello);
      hide SocketExact, Live, Flatten, Payload, PtySession.TimerValid, PtySession.QueueValid,
           PtySession.RingValid, PtySession.ReplayStart, PtySession.Greeting;
      var ok := Greet(Cursor(start, reset));
      if ok {
        ReplaySuffix(start);
      }
    }

    /** After the greeting: the retained output the client misses. */
    method ReplaySuffix(start: nat)
      requires RingValid() && QueueValid() && TimerValid() && loop.Valid()
      requires ws != null && ws.hello != Legacy && pendingOutput == []
      requires ws.base == start == ReplayStart(ws.hello) && ws.sent == [Greeting(ws.hello)]
      modifies this`ws, this`pendingOutput, this`pendingOutputBytes, this`flushTimer, this`liveFlush,
               this`nextFlush, this`detachTimer, this`detachedAt, loop`timers, loop`nextId, Consumer()
      ensures QueueValid() && TimerValid() && loop.Valid()
      ensures pendingOutputBytes > 0 ==> flushTimer.Some?
      ensures KeptOrDropped()
      ensures old(ws) != null && ws == null ==> !old(ws).open || !old(ws).steady
      ensures SocketExact(old(ws).hello, old(ws).base, old(ws).sent, stream) && StartedRight(old(ws))
      ensures old(ws).sent != []
      ensures ws != null && ws.open ==> Live(ws.View(), ws.hello, pendingOutput, stream)
      ensures old(ws.buffered) <= 20 ==> old(ws).closeCode == old(ws.closeCode)
      ensures old(ws.steady && ws.open && ws.buffered <= 20 && ws.closeCode == None) ==>
        ws == old(ws) && ws.open && ws.closeCode == None
    {
      ghost var w, greeting := ws, Greeting(ws.hello);
      assert Greeted(ws.hello, ws.base, [greeting]) && |stream[scrollbackStart..]| == scrollbackBytes;
      var chunks := ScrollbackFrom(start);
      hide SocketExact, Live, Flatten, Greeted, Payload, PtySession.TimerValid, PtySession.QueueValid,
           PtySession.RingValid;
      ReplayFrom(chunks);
      assert w.sent[0] == greeting;
    }

    /** Hands over the first frame, or evicts a socket that cannot take it. */
    method Greet(greeting: Frame) returns (ok: bool)
      requires QueueValid() && TimerValid() && loop.Valid()
      requires greeting.Cursor? && ws != null && ws.sent == [] && pendingOutput == []
      modifies this`ws, this`pendingOutput, this`pendingOutputBytes, this`flushTimer, this`liveFlush,
               this`detachTimer, this`detachedAt, loop`timers, loop`nextId, ws`open, ws`buffered, ws`sent, ws`closeCode
      ensures QueueValid() && TimerValid() && loop.Valid() && pendingOutput == [] && pendingOutputBytes == 0
      ensures KeptOrDropped()
      ensures ok ==>
        && ws == old(ws) && old(ws.open) && ws.open && ws.sent == [greeting] && ws.closeCode == old(ws.closeCode)
        && ws.buffered <= old(ws.buffered) + 20
      ensures !ok ==> ws == null && old(ws).sent == []
      ensures !ok ==> old(ws).ClosedWith(old(ws.closeCode), 1013)
      ensures ok ==> old(ws.buffered) + 10 <= 524288
      ensures old(ws.Takes()) ==> ok
    {
      var w := ws;
      assert Flatten([]) == [];
      if w.buffered + 10 > PTY_WS_BUFFERED_AMOUNT_LIMIT {
        EvictSlowPtyConsumer(w);
        return false;
      }
      ok := w.Send(greeting);
      if !ok {
        EvictSlowPtyConsumer(w);
      }
    }

    /** Attaches a new socket: the previous one is told it was replaced, a
        pending reap is cancelled, and the output the client misses is
        replayed. */
    method AdoptSession(w: Socket)
      requires Valid() && loop.Valid()
      requires w !in served && w.sent == []
      modifies this`ws, this`pendingOutput, this`pendingOutputBytes, this`flushTimer, this`liveFlush,
               this`nextFlush, this`detachTimer, this`detachedAt, this`served, this`exact,
               loop`timers, loop`nextId, Consumer(), w
      ensures Valid() && loop.Valid()
      ensures served == old(served) + {w}
      ensures exact == old(exact) + if ws == w && w.Ungreeted() then {} else {w}
      ensures (ws == w || ws == null) && AdoptedOrDropped()
      ensures old(ws) != null ==> old(ws).ClosedWith(old(ws.closeCode), 1000) && old(ws).sent == old(ws.sent)
      ensures StartedRight(w) && (w.hello != Legacy && old(w.Takes()) ==> w.sent != [])
      ensures old(w.Healthy()) ==> ws == w && w.open && w.closeCode == None && !w.Ungreeted()
    {
      hide SocketExact, Live, Flatten, Greeted, PtySession.RingValid, PtySession.QueueValid, PtySession.TimerValid,
           PtySession.ReplayStart, PtySession.Greeting;
      SwitchConsumer(w);
      ReplayPtyOutput(w.hello);
      if ws == w && w.Ungreeted() {
        exact := exact - {w};
      }
      forall s | s in exact
        ensures SocketExact(s.hello, s.base, s.sent, stream)
      {
        assert s == w || s in old(exact);
      }
    }

    /** The part of attaching that precedes the replay. */
    method SwitchConsumer(w: Socket)
      requires TimerValid() && loop.Valid()
      requires w != ws
      modifies this`ws, this`pendingOutput, this`pendingOutputBytes, this`flushTimer, this`liveFlush,
               this`detachTimer, this`served, this`exact, loop`timers
      modifies if ws == null then {} else {ws}
      ensures TimerValid() && loop.Valid() && QueueValid()
      ensures ws == w && flushTimer == None && detachTimer == None
      ensures pendingOutput == [] && pendingOutputBytes == 0
      ensures served == old(served) + {w} && exact == old(exact) + {w}
      ensures loop.timers == old(TimersWithoutOwn())
      ensures old(ws) != null ==>
        old(ws).ClosedWith(old(ws.closeCode), 1000) && old(ws).sent == old(ws.sent) && old(ws).base == old(ws.base)
    {
      if detachTimer.Some? {
        loop.ClearTimeout(detachTimer.value);
        detachTimer := None;
      }
      var previous := ws;
      ClearPendingPtyOutput();
      ws := w;
      served, exact := served + {w}, exact + {w};
      if previous != null && previous != w {
        previous.Close(1000);
      }
    }

    /** The timers left once the current handle is cancelled. */
    ghost function TimersWithoutOwn(): map<nat, DetachTimer>
      reads this, loop
    {
      if detachTimer.Some? then loop.timers - {detachTimer.value} else loop.timers
    }

    /** The handle that was set on entry is cancelled; then the new socket is
        attached, or it was dropped again and a new grace period starts. */
    twostate predicate AdoptedOrDropped()
      reads this, loop
    {
      && old(loop.nextId) <= loop.nextId
      && (|| (ws != null && detachTimer == None && loop.timers == old(TimersWithoutOwn())
              && detachedAt == old(detachedAt))
          || (ws == null && detachedAt == loop.now
              && detachTimer.Some? && old(loop.nextId) <= detachTimer.value < loop.nextId
              && loop.timers == old(TimersWithoutOwn())
                                [detachTimer.value := DetachTimer(this, loop.now + DETACH_GRACE_MS)]))
    }

    /** The shell's output handler: the ring keeps filling while detached, and
        live output goes to whichever socket is attached now. */
    method OnData(data: seq<Byte>)
      requires Valid() && loop.Valid()
      modifies this, loop`timers, loop`nextId, Consumer()
      ensures Valid() && loop.Valid()
      ensures stream == old(stream) + data && served == old(served) && exact == old(exact)
      ensures KeptOrDropped()
      ensures old(ws) != null && ws == null ==> !old(ws).open || !old(ws).steady
      ensures old(ws) != null ==> Advanced(old(ws.View()), old(ws).View(), old(Queued(ws)) + data)
      ensures ws != null && ws.open ==> old(ws.open) && Queued(ws) == old(Queued(ws)) + data
      ensures GapsStay()
    {
      hide SocketExact, Live, Flatten, Payload, Advanced, PtySession.RingValid, PtySession.QueueValid,
           PtySession.TimerValid;
      ghost var before := stream;
      AppendScrollback(data);
      forall s | s in exact
        ensures SocketExact(s.hello, s.base, s.sent, stream)
      {
        SocketExactGrows(s.hello, s.base, s.sent, before, data);
      }
      Deliver(data, before);
      KeepsBase(data);
      GapsGrow(data);
    }

    twostate lemma KeepsBase(data: seq<Byte>)
      requires old(ws) != null ==> Advanced(old(ws.View()), old(ws).View(), old(Queued(ws)) + data)
      ensures old(ws) != null ==> old(ws).base == old(ws.base)
    {
    }

    /** Live output, once it is in the ring. */
    method Deliver(data: seq<Byte>, ghost before: seq<Byte>)
      requires RingValid() && QueueValid() && TimerValid() && loop.Valid()
      requires pendingOutputBytes > 0 ==> flushTimer.Some?
      requires stream == before + data && (ws != null ==> ws in served)
      requires exact <= served && forall s | s in exact :: SocketExact(s.hello, s.base, s.sent, stream)
      requires ws != null && ws in exact ==> SocketExact(ws.hello, ws.base, ws.sent, before)
      requires ws != null && ws in exact && ws.open ==> Live(ws.View(), ws.hello, pendingOutput, before)
      modifies this`ws, this`pendingOutput, this`pendingOutputBytes, this`flushTimer, this`liveFlush,
               this`nextFlush, this`detachTimer, this`detachedAt, loop`timers, loop`nextId, Consumer()
      ensures Valid() && loop.Valid() && KeptOrDropped()
      ensures old(ws) != null && ws == null ==> !old(ws).open || !old(ws).steady
      ensures old(ws) != null ==> Advanced(old(ws.View()), old(ws).View(), old(Queued(ws)) + data)
      ensures ws != null && ws.open ==> old(ws.open) && Queued(ws) == old(Queued(ws)) + data
    {
      ghost var w := ws;
      ghost var a := if w == null then Wire(false, 0, [], None, 0, false) else w.View();
      ghost var pending := pendingOutput;
      hide SocketExact, Live, Flatten, Payload, Advanced, PtySession.RingValid, PtySession.TimerValid;
      QueuePtyOutput(data);
      if w != null && w in exact {
        QueuedLive(w.hello, a, w.View(), pending, pendingOutput, before, data);
      }
      forall s | s in exact
        ensures SocketExact(s.hello, s.base, s.sent, stream)
      {
        assert s == w || unchanged(s);
      }
    }

    /** A coalescing timer fires; it need not be the current one. */
    method OnFlushTimer(id: nat)
      requires Valid() && loop.Valid()
      requires id in liveFlush
      modifies this`ws, this`pendingOutput, this`pendingOutputBytes, this`flushTimer, this`liveFlush,
               this`detachTimer, this`detachedAt, loop`timers, loop`nextId, Consumer()
      ensures Valid() && loop.Valid()
      ensures KeptOrDropped()
      ensures old(ws) != null && ws == null ==> !old(ws).open || !old(ws).steady
      ensures pendingOutputBytes == 0
      ensures ws != null && ws.open ==> Queued(ws) == old(Queued(ws))
      ensures old(ws) != null ==> Flushed(old(ws.View()), old(ws).View(), old(Flatten(pendingOutput)))
      ensures GapsStay()
    {
      hide SocketExact, Live, Flatten, Payload;
      liveFlush := liveFlush - {id};
      Flush();
      assert stream + [] == stream && (ws != null ==> Queued(ws) + [] == Queued(ws));
      GapsGrow([]);
      hide Flushed;
    }

    /** Flushing keeps every socket exact and an open consumer live. */
    method Flush()
      requires RingValid() && QueueValid() && loop.Valid()
      requires forall id | id in liveFlush :: id < nextFlush
      requires ws != null ==> ws in served
      requires exact <= served && forall s | s in exact :: SocketExact(s.hello, s.base, s.sent, stream)
      requires ws != null && ws in exact && ws.open ==> Live(ws.View(), ws.hello, pendingOutput, stream)
      modifies this`ws, this`pendingOutput, this`pendingOutputBytes, this`flushTimer, this`liveFlush,
               this`detachTimer, this`detachedAt, loop`timers, loop`nextId, Consumer()
      ensures Valid() && loop.Valid()
      ensures KeptOrDropped()
      ensures old(ws) != null && ws == null ==> !old(ws).open || !old(ws).steady
      ensures pendingOutputBytes == 0
      ensures ws != null ==> ws.open == old(ws.open) && ws.closeCode == old(ws.closeCode)
      ensures ws != null && ws.open ==> Queued(ws) == old(Queued(ws))
      ensures old(ws) != null ==> Flushed(old(ws.View()), old(ws).View(), old(Flatten(pendingOutput)))
    {
      ghost var w := ws;
      ghost var a := if w == null then Wire(false, 0, [], None, 0, false) else w.View();
      ghost var pending := pendingOutput;
      hide SocketExact, Live, Flatten, Payload, Flushed;
      FlushPtyOutput();
      if w != null && w in exact {
        FlushedLive(w.hello, a, w.View(), pending, pendingOutput, stream);
      }
    }

    /** The exit frame is the last one, after all that was queued, which for an
        exact socket completes the whole output. */
    ghost predicate ToldOfExit(w: Socket, code: int, queued: seq<Byte>, before: Option<int>)
      reads this, w
    {
      && w.ClosedWith(before, 1000)
      && w.sent != [] && w.sent[|w.sent| - 1] == Exit(code) && Payload(w.sent) == queued
      && (w in exact ==> w.base <= |stream| && queued == stream[w.base..])
    }

    /** The shell exited. Output seen before is flushed ahead of the exit
        frame; a registered shell also gives up its timer and its queue. */
    method OnExit(code: int, registered: bool)
      requires Valid() && loop.Valid()
      modifies this`ws, this`pendingOutput, this`pendingOutputBytes, this`flushTimer, this`liveFlush,
               this`detachTimer, this`detachedAt, loop`timers, loop`nextId, Consumer()
      ensures Valid() && loop.Valid()
      ensures registered ==>
        && old(loop.nextId) <= loop.nextId
        && loop.timers == old(TimersWithoutOwn())
        && (detachTimer == old(detachTimer)
            || (detachTimer.Some? && old(loop.nextId) <= detachTimer.value < loop.nextId))
      ensures !registered ==> KeptOrDropped()
      ensures ws != null ==> ws == old(ws) && !ws.open
      ensures ws != null && old(ws.open) ==>
        ToldOfExit(ws, code, old(Queued(ws)), old(ws.closeCode)) || ws.FailedLast(old(ws.closeCode))
    {
      Flush();
      if registered {
        FinishExit(code);
      } else if ws != null {
        SendExitAndClose(code);
      }
    }

    method FinishExit(code: int)
      requires Valid() && loop.Valid() && pendingOutputBytes == 0
      modifies this`pendingOutput, this`pendingOutputBytes, this`flushTimer, this`liveFlush,
               loop`timers, Consumer()
      ensures Valid() && loop.Valid()
      ensures loop.timers == old(TimersWithoutOwn())
      ensures ws != null ==>
        && !ws.open
        && (old(ws.open) ==>
              ToldOfExit(ws, code, old(Payload(ws.sent)), old(ws.closeCode)) || ws.FailedLast(old(ws.closeCode)))
    {
      if detachTimer.Some? {
        loop.ClearTimeout(detachTimer.value);
      }
      assert Flatten(pendingOutput) == Flatten([]);
      ClearPendingPtyOutput();
      if ws != null {
        SendExitAndClose(code);
      }
    }

    /** The exit frame, and then the end of the connection. */
    method SendExitAndClose(code: int)
      requires Valid() && ws != null && pendingOutputBytes == 0
      modifies ws
      ensures Valid() && !ws.open
      ensures old(ws.open) ==>
        ToldOfExit(ws, code, old(Payload(ws.sent)), old(ws.closeCode)) || ws.FailedLast(old(ws.closeCode))
    {
      PayloadPush(ws.sent, Exit(code));
      assert Payload(ws.sent) + [] == Payload(ws.sent);
      if ws in exact && ws.open {
        ExitIsExact(ws.View(), ws.hello, pendingOutput, code, stream);
      }
      hide SocketExact, Live, Flatten, Payload, PtySession.RingValid, PtySession.QueueValid, PtySession.TimerValid;
      FinalFrame(ws, Exit(code));
    }

    /** Sends a last frame, if it still can, and closes. */
    static method FinalFrame(w: Socket, f: Frame)
      modifies w
      ensures !w.open && w.base == old(w.base)
      ensures if w.sent == old(w.sent) then old(w.open) ==> w.FailedLast(old(w.closeCode))
              else old(w.open) && w.sent == old(w.sent) + [f] && w.ClosedWith(old(w.closeCode), 1000)
    {
      if w.open {
        var _ := w.Send(f);
        if !w.open {
          return;
        }
      }
      w.Close(1000);
    }

    /** The attached socket closed: detach, and wait for it to come back. */
    method OnClose(w: Socket)
      requires Valid() && loop.Valid()
      modifies this`ws, this`pendingOutput, this`pendingOutputBytes, this`flushTimer, this`liveFlush,
               this`detachTimer, this`detachedAt, loop`timers, loop`nextId
      ensures Valid() && loop.Valid()
      ensures if old(ws) == w then Dropped() else unchanged(this) && unchanged(loop)
    {
      assert Flatten([]) == [];
      hide SocketExact, Live, Flatten;
      DetachPtyConsumer(w);
    }

    /** Nothing a transport does on its own affects a session's invariant. */
    twostate lemma TransportKeepsValid()
      requires old(Valid()) && unchanged(this)
      requires forall s | s in served :: s.sent == old(s.sent) && s.base == old(s.base) && (s.open ==> old(s.open))
      ensures Valid()
    {
      hide SocketExact, Flatten;
    }

    /** A kill frame: the queue is dropped while the socket stays attached, so
        from here on its output is exact only if nothing was waiting. */
    method OnKill()
      requires Valid() && loop.Valid()
      modifies this`pendingOutput, this`pendingOutputBytes, this`flushTimer, this`liveFlush, this`exact, loop`timers
      ensures Valid() && loop.Valid()
      ensures loop.timers == old(TimersWithoutOwn())
      ensures pendingOutputBytes == 0
      ensures exact == if old(pendingOutputBytes) == 0 then old(exact) else old(exact) - {old(ws)}
      ensures ws != null && ws in old(exact) && ws.open ==>
        && Gap(|Payload(ws.sent)|, old(pendingOutputBytes))
        && (Linked(ws.base, ws.sent, pendingOutput, stream) <==> old(pendingOutputBytes) == 0)
    {
      assert Flatten([]) == [];
      if ws != null && ws in exact && ws.open {
        KillDropsQueue(ws.View(), ws.hello, pendingOutput, stream);
      }
      hide SocketExact, Live, Linked, Missing, Payload, Flatten, RingIsTail, PtySession.RingValid, Socket.View;
      DropQueue();
    }

    /** What a kill frame does to the session before the shell is killed. */
    method DropQueue()
      requires TimerValid() && loop.Valid()
      modifies this`pendingOutput, this`pendingOutputBytes, this`flushTimer, this`liveFlush, this`exact, loop`timers
      ensures TimerValid() && loop.Valid() && flushTimer == None
      ensures pendingOutput == [] && pendingOutputBytes == 0
      ensures loop.timers == old(TimersWithoutOwn())
      ensures exact == if old(pendingOutputBytes) == 0 then old(exact) else old(exact) - {ws}
    {
      if detachTimer.Some? {
        loop.ClearTimeout(detachTimer.value);
      }
      exact := if pendingOutputBytes == 0 then exact else exact - {ws};
      ClearPendingPtyOutput();
    }

    /** Queues the stream from the socket's base on, right after its greeting. */
    method ReplayFrom(chunks: seq<seq<Byte>>)
      requires ws != null && QueueValid() && TimerValid() && loop.Valid()
      requires pendingOutput == []
      requires ws.base <= |stream| && Flatten(chunks) == stream[ws.base..]
      requires |Flatten(chunks)| <= SCROLLBACK_LIMIT_BYTES
      requires Greeted(ws.hello, ws.base, ws.sent)
      requires if ws.hello == Legacy then ws.sent == [] else |ws.sent| == 1 && ws.sent[0].Cursor?
      modifies this`ws, this`pendingOutput, this`pendingOutputBytes, this`flushTimer, this`liveFlush,
               this`nextFlush, this`detachTimer, this`detachedAt, loop`timers, loop`nextId, Consumer()
      ensures QueueValid() && TimerValid() && loop.Valid()
      ensures pendingOutputBytes > 0 ==> flushTimer.Some?
      ensures KeptOrDropped()
      ensures old(ws) != null && ws == null ==> !old(ws).open || !old(ws).steady
      ensures SocketExact(old(ws).hello, old(ws).base, old(ws).sent, stream)
      ensures ws != null && ws.open ==> Live(ws.View(), ws.hello, pendingOutput, stream)
      ensures old(ws.buffered) <= 20 ==> old(ws).closeCode == old(ws.closeCode)
      ensures old(ws.sent) <= old(ws).sent && old(ws).base == old(ws.base)
      ensures old(ws.steady && ws.open && ws.buffered <= 20 && ws.closeCode == None) ==>
        ws == old(ws) && ws.open && ws.closeCode == None
    {
      ghost var w, a := ws, ws.View();
      GreetingCarriesNothing(a.sent);
      assert Queued(w) == [] && [] + Flatten(chunks) == Flatten(chunks);
      hide SocketExact, Flatten, Payload, Greeted;
      QueueAll(chunks);
      HandedAfterGreeting(w.hello, a, w.View(), stream);
    }

    // -------------------------------------------------------------------
    // What a client sees
    // -------------------------------------------------------------------

    /** The connections a client made, from the sockets the server holds. */
    static ghost function ConnectionsOf(sockets: seq<Socket>, arrived: seq<nat>): (c: seq<Connection>)
      requires |sockets| == |arrived|
      reads sockets
      ensures |c| == |sockets|
    {
      seq(|sockets|, i requires 0 <= i < |sockets| reads sockets =>
        Connection(sockets[i].hello, sockets[i].base, sockets[i].sent, arrived[i]))
    }

    /** While the shell has printed no more than the ring can hold, a new client
        is replayed everything, and no cursor it ever gave out is reset. */
    lemma NothingIsForgottenWhileShort(at: nat)
      requires Valid() && |stream| <= SCROLLBACK_LIMIT_BYTES && at <= |stream|
      ensures ReplayStart(Fresh) == ReplayStart(Legacy) == 0 && Flatten(scrollback) == stream
      ensures ReplayStart(From(at)) == at && Greeting(From(at)) == Cursor(at, false)
    {
      assert stream[0..] == stream;
    }

    /** In every valid state, a client that reached this shell through any
        number of its sockets, each time asking for what it had reached and
        each time losing any number of final frames, shows exactly a piece of
        the shell's output that ends at its cursor. */
    lemma ClientTranscriptIsExact(sockets: seq<Socket>, arrived: seq<nat>)
      requires Valid() && |sockets| == |arrived|
      requires forall i | 0 <= i < |sockets| :: sockets[i] in exact && arrived[i] <= |sockets[i].sent|
      requires forall i | 0 <= i < |sockets| ::
        sockets[i].hello == HelloOf(AfterConnections(ConnectionsOf(sockets, arrived)[..i]))
      ensures Exact(AfterConnections(ConnectionsOf(sockets, arrived)), stream)
    {
      TranscriptIsExact(ConnectionsOf(sockets, arrived), stream);
    }

    /** While its socket is attached and open, a cursor client that received
        every frame stands exactly the pending bytes before the end. */
    lemma AttachedClientIsCurrent(c: Client)
      requires Valid() && ws != null && ws in exact && ws.open && ws.hello == HelloOf(c)
      ensures var now := ReceiveAll(c, ws.sent);
              now.cursor.Some? && now.cursor.value + pendingOutputBytes == streamEnd
    {
      ReceivedSoFar(c, ws.base, ws.sent, |ws.sent|);
      assert ws.sent[..|ws.sent|] == ws.sent;
    }
  }

  /** A new shell printed one byte, which waits for a healthy socket. */
  method OneByteWaits() returns (s: PtySession, w: Socket)
    ensures fresh(s) && fresh(s.loop) && fresh(w) && s.served == {w} == s.exact
    ensures s.Valid() && s.loop.Valid() && s.stream == [1]
    ensures s.ws == w && w.Healthy() && w.base == 0
    ensures Payload(w.sent) == [] && Flatten(s.pendingOutput) == [1]
  {
    s, w := EmptyShell();
    ghost var before := w.View();
    assert [] + [1] == [1];
    hide SocketExact, Live, Flatten, Payload, Advanced, PtySession.Valid;
    s.OnData([1]);
    OneByteIsKept(before, w.View(), [1]);
    assert [] + Flatten(s.pendingOutput) == Flatten(s.pendingOutput);
  }

  /** A new shell that printed nothing yet, attached to a healthy socket. */
  method EmptyShell() returns (s: PtySession, w: Socket)
    ensures fresh(s) && fresh(s.loop) && fresh(w) && s.served == {w} == s.exact
    ensures s.Valid() && s.loop.Valid() && s.stream == []
    ensures s.ws == w && w.Healthy() && w.base == 0
    ensures Payload(w.sent) == [] && Flatten(s.pendingOutput) == []
  {
    hide SocketExact, Live, Flatten, Payload, RingIsTail, PtySession.Valid;
    var loop := new EventLoop();
    s := new PtySession("thread", loop);
    w := new Socket(Fresh, true, true);
    AttachFirst(s, w);
    KernelTakesAll(s, w);
  }

  /** A healthy socket is attached to a shell that printed nothing. */
  method AttachFirst(s: PtySession, w: Socket)
    requires s.Valid() && s.loop.Valid() && s.ws == null && s.stream == [] && s.served == {} == s.exact
    requires w.Healthy() && w.sent == []
    modifies s, s.loop, w
    ensures s.Valid() && s.loop.Valid() && s.stream == [] && s.served == {w} == s.exact
    ensures s.ws == w && w.open && w.closeCode == None && w.base == 0
    ensures Payload(w.sent) == [] && Flatten(s.pendingOutput) == []
  {
    hide SocketExact, Live, Flatten, Payload, PtySession.Valid, PtySession.StartedRight;
    s.AdoptSession(w);
    NothingPrinted(s, w);
  }

  /** A transport takes what is in its buffer. */
  method KernelTakesAll(s: PtySession, w: Socket)
    requires s.Valid()
    modifies w`buffered
    ensures s.Valid() && w.buffered == 0
  {
    w.buffered := 0;
    s.TransportKeepsValid();
  }

  /** Before the first output an attached socket has nothing to be handed. */
  lemma NothingPrinted(s: PtySession, w: Socket)
    requires s.Valid() && s.stream == [] && s.ws == w && w in s.exact && w.open
    ensures w.base == 0 && Payload(w.sent) == [] && Flatten(s.pendingOutput) == []
  {
  }

  /** Live output of one byte stays in the queue of a healthy socket. */
  lemma OneByteIsKept(a: Wire, b: Wire, q: seq<Byte>)
    requires Advanced(a, b, q) && |q| == 1 && Payload(a.sent) == []
    requires a.steady && a.open && a.closeCode == None && a.buffered == 0
    ensures b.sent == a.sent && b.open && b.closeCode == None && b.buffered == 0 && b.base == a.base
  {
    HandingLength(a.sent, b.sent, q);
    assert b.sent[..|a.sent|] == a.sent;
    hide Payload, Handing;
    assert |b.sent| == |a.sent|;
    assert b.sent == b.sent[..|a.sent|];
  }

  /** The loss, step by step: a byte waits, a kill frame drops it while the
      socket stays attached, and the shell prints one more byte before it dies.
      The socket is handed the second byte and never the first. */
  method KillLosesOutput() returns (s: PtySession, w: Socket)
    ensures s.ws == w && w.open && w in s.served && s.stream == [1, 2]
    ensures Payload(w.sent) == [2] && !SocketExact(w.hello, w.base, w.sent, s.stream)
  {
    hide SocketExact, Live, Flatten, Payload, PtySession.Valid;
    s, w := OneByteWaits();
    s.OnKill();
    NothingWaits(s);
    DeliverOneByte(s, w, 2);
    SecondWithoutFirst(w.hello, w.base, w.sent, 1, 2);
    assert s.stream == [1] + [2] == [1, 2];
  }

  lemma NothingWaits(s: PtySession)
    requires s.Valid() && s.pendingOutputBytes == 0
    ensures Flatten(s.pendingOutput) == []
  {
  }

  /** A socket that starts at the first byte and was handed only the second. */
  lemma SecondWithoutFirst(hello: Hello, base: nat, sent: seq<Frame>, first: Byte, second: Byte)
    requires base == 0 && Payload(sent) == [second] && first != second
    ensures !SocketExact(hello, base, sent, [first, second])
  {
    var all, handed := [first, second], [second];
    assert all[0..] == all && handed[0] != all[0] && !(handed <= all);
  }

  /** One more byte is queued and flushed to a healthy socket. */
  method DeliverOneByte(s: PtySession, w: Socket, byte: Byte)
    requires s.Valid() && s.loop.Valid() && s.ws == w && w.Healthy()
    requires Payload(w.sent) == [] && Flatten(s.pendingOutput) == []
    modifies s, s.loop, w
    ensures s.ws == w && w.open && w.base == old(w.base)
    ensures s.stream == old(s.stream) + [byte] && s.served == old(s.served)
    ensures Payload(w.sent) == [byte]
  {
    ghost var before := w.View();
    assert [] + [byte] == [byte];
    hide SocketExact, Live, Flatten, Payload, Advanced, Flushed;
    s.OnData([byte]);
    OneByteIsKept(before, w.View(), [byte]);
    assert [] + Flatten(s.pendingOutput) == Flatten(s.pendingOutput);
    FlushOf(s, w);
  }

  method FlushOf(s: PtySession, w: Socket)
    requires s.Valid() && s.loop.Valid() && s.ws == w && w.Healthy()
    requires Payload(w.sent) == [] && |Flatten(s.pendingOutput)| == 1
    modifies s, s.loop, w
    ensures s.ws == w && w.open && w.base == old(w.base) && s.stream == old(s.stream) && s.served == old(s.served)
    ensures Payload(w.sent) == old(Flatten(s.pendingOutput))
  {
    ghost var before, waiting := w.View(), Flatten(s.pendingOutput);
    assert s.Queued(w) == [] + waiting == waiting;
    hide SocketExact, Live, Flatten, Payload;
    s.OnFlushTimer(s.flushTimer.value);
    StaysOpen(before, w.View(), waiting);
    assert s.pendingOutputBytes == 0;
    assert Payload(w.sent) + [] == Payload(w.sent);
  }

  lemma StaysOpen(a: Wire, b: Wire, payload: seq<Byte>)
    requires Flushed(a, b, payload) && |payload| == 1
    requires a.steady && a.open && a.closeCode == None && a.buffered == 0
    ensures b.open && b.base == a.base && b.sent == a.sent + [Data(payload)]
  {
  }

  /** A consumer whose queue is dropped misses exactly what waited. */
  lemma KillDropsQueue(w: Wire, hello: Hello, pending: seq<seq<Byte>>, stream: seq<Byte>)
    requires Live(w, hello, pending, stream)
    ensures Missing(w.base, w.sent, [], stream, |Payload(w.sent)|, |Flatten(pending)|)
    ensures Linked(w.base, w.sent, [], stream) <==> |Flatten(pending)| == 0
    ensures |Flatten(pending)| == 0 ==> Live(w, hello, [], stream)
  {
    DroppingIsMissing(w.base, w.sent, pending, stream);
    MissingIsLinked(w.base, w.sent, [], stream, |Payload(w.sent)|, |Flatten(pending)|);
  }

  lemma QueuedLive(hello: Hello, a: Wire, b: Wire, before: seq<seq<Byte>>, after: seq<seq<Byte>>,
                   stream: seq<Byte>, data: seq<Byte>)
    requires SocketExact(hello, a.base, a.sent, stream)
    requires a.open ==> Live(a, hello, before, stream)
    requires Advanced(a, b, Payload(a.sent) + Flatten(before) + data)
    ensures SocketExact(hello, b.base, b.sent, stream + data)
    ensures b.open && a.open && Payload(b.sent) + Flatten(after) == Payload(a.sent) + Flatten(before) + data ==>
      Live(b, hello, after, stream + data)
  {
    SocketExactGrows(hello, a.base, a.sent, stream, data);
    if a.open {
      assert (stream + data)[a.base..] == stream[a.base..] + data;
      ExactAfterHanding(hello, a.base, a.sent, b.sent, stream + data);
    }
  }

  lemma FlushedLive(hello: Hello, a: Wire, b: Wire, before: seq<seq<Byte>>, after: seq<seq<Byte>>, stream: seq<Byte>)
    requires SocketExact(hello, a.base, a.sent, stream)
    requires a.open ==> Live(a, hello, before, stream)
    requires |Flatten(before)| <= PTY_FRAME_MAX_BYTES && Flushed(a, b, Flatten(before))
    ensures SocketExact(hello, b.base, b.sent, stream)
    ensures b.open && a.open && Payload(b.sent) + Flatten(after) == Payload(a.sent) + Flatten(before) ==>
      Live(b, hello, after, stream)
  {
    if b.sent != a.sent {
      HandingOne(a.sent, Flatten(before));
      ExactAfterHanding(hello, a.base, a.sent, b.sent, stream);
    }
  }

  lemma GreetingCarriesNothing(sent: seq<Frame>)
    requires sent == [] || (|sent| == 1 && sent[0].Cursor?)
    ensures Payload(sent) == []
  {
    if sent != [] {
      assert sent == [] + [sent[0]];
      PayloadPush([], sent[0]);
    }
  }

  /** A greeted socket that was handed more of the stream is exact; a replay
      of at most a whole ring to an almost empty buffer closes nothing. */
  lemma HandedAfterGreeting(hello: Hello, a: Wire, b: Wire, stream: seq<Byte>)
    requires a.base <= |stream| && Greeted(hello, a.base, a.sent) && Payload(a.sent) == []
    requires if hello == Legacy then a.sent == [] else |a.sent| == 1 && a.sent[0].Cursor?
    requires Advanced(a, b, stream[a.base..])
    ensures SocketExact(hello, b.base, b.sent, stream)
    ensures a.buffered <= 20 && |stream| - a.base <= SCROLLBACK_LIMIT_BYTES ==> b.closeCode == a.closeCode
  {
    ExactAfterHanding(hello, a.base, a.sent, b.sent, stream);
  }

  /** A sequence without its first n elements; all of it when n is negative. */
  function DropUpTo(s: seq<Byte>, n: int): (r: seq<Byte>) {
    if n <= 0 then s else if n <= |s| then s[n..] else []
  }
}
