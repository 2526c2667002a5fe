/** The registry of terminal sessions and the event handlers that use it. */
module PtyServers {
  import opened Wrappers
  import opened PtyStream
  import opened PtySessions

  class PtyServer {
    const loop: EventLoop
    var sessions: map<string, PtySession>

    // Every shell ever spawned and every socket ever connected; a shell stays
    // here after it left the registry, because its handlers may still run.
    ghost var shells: set<PtySession>
    ghost var pool: set<Socket>

    constructor ()
      ensures Valid() && fresh(loop) && sessions == map[] && shells == {} && pool == {}
    {
      loop := new EventLoop();
      sessions, shells, pool := map[], {}, {};
    }

    predicate Registered(s: PtySession)
      reads this
    {
      s.threadId in sessions && sessions[s.threadId] == s
    }

    ghost predicate Valid()
      reads this, loop, shells, pool
    {
      && Wired()
      && (forall s | s in shells :: s.Valid())
      && (forall s | s in shells :: HandleOwned(s))
      && (forall k | k in loop.timers :: TimerCurrent(k))
      && (forall id | id in sessions :: Reaping(sessions[id]))
    }

    /** Who belongs to whom: no two shells ever served the same socket. */
    ghost predicate Wired()
      reads this, loop, shells
    {
      && loop.Valid()
      && (forall s | s in shells :: s.loop == loop && s.served <= pool)
      && (forall s, t | s in shells && t in shells && s != t :: s.served !! t.served)
      && (forall id | id in sessions :: sessions[id] in shells && sessions[id].threadId == id)
    }

    /** A live detach timer is the current one of a detached shell and runs
        for the full grace period from when that shell was detached. */
    ghost predicate TimerCurrent(k: nat)
      requires k in loop.timers
      reads this, loop, shells
    {
      var s := loop.timers[k].session;
      && s in shells && s.ws == null && s.detachTimer == Some(k)
      && s.detachedAt <= loop.now && loop.timers[k].due == s.detachedAt + DETACH_GRACE_MS
    }

    /** A shell's handle, current or stale, never names another's timer. */
    ghost predicate HandleOwned(s: PtySession)
      reads loop, s
    {
      s.detachTimer.Some? ==>
        && s.detachTimer.value < loop.nextId
        && (s.detachTimer.value in loop.timers ==> loop.timers[s.detachTimer.value].session == s)
    }

    /** A detached shell has a live detach timer. */
    ghost predicate Reaping(s: PtySession)
      reads loop, s
    {
      s.ws == null ==>
        s.detachTimer.Some? && s.detachTimer.value in loop.timers && loop.timers[s.detachTimer.value].session == s
    }

    /** In every valid state a registered session is attached without any
        detach timer, or detached with exactly one. */
    lemma AttachedOrReaping(id: string)
      requires Valid() && id in sessions
      ensures sessions[id].ws != null ==> forall k | k in loop.timers :: loop.timers[k].session != sessions[id]
      ensures sessions[id].ws == null ==>
        exists k | k in loop.timers ::
          && loop.timers[k].session == sessions[id]
          && forall j | j in loop.timers :: loop.timers[j].session == sessions[id] ==> j == k
    {
      var s := sessions[id];
      assert Reaping(s);
      forall j | j in loop.timers
        ensures TimerCurrent(j)
      {
      }
    }

    /** One shell's handler ran: no other shell and no other shell's socket
        changed. */
    twostate predicate OnlyTouched(s: PtySession)
      reads this, shells, pool, s
    {
      && old(pool) <= pool
      && old(shells) - {s} <= shells && shells <= old(shells) + {s}
      && (forall t | t in old(shells) && t != s :: unchanged(t))
      && (forall w | w in old(pool) && w in pool && w !in s.served :: unchanged(w))
    }

    /** Nor did any other shell's timer; its own is the current one. */
    twostate predicate OwnTimersOnly(s: PtySession)
      reads this, loop, shells, s
    {
      && loop.Valid() && loop.now == old(loop.now) && old(loop.nextId) <= loop.nextId
      && (forall k | k in loop.timers && loop.timers[k].session != s ::
            k in old(loop.timers) && loop.timers[k] == old(loop.timers)[k])
      && (forall k | k in loop.timers && k < old(loop.nextId) ::
            k in old(loop.timers) && loop.timers[k] == old(loop.timers)[k])
      && (forall k | k in old(loop.timers) && old(loop.timers)[k].session != s ::
            k in loop.timers && loop.timers[k] == old(loop.timers)[k])
      && (forall k | k in loop.timers && loop.timers[k].session == s :: TimerCurrent(k))
      && HandleOwned(s)
    }

    /** Every live timer of a shell is the one its handle names. */
    lemma OwnsNamedTimer(s: PtySession)
      requires Valid()
      ensures s in shells ==> HandleOwned(s)
      ensures s !in shells && s.detachTimer == None ==> HandleOwned(s)
      ensures forall k | k in loop.timers && loop.timers[k].session == s :: s.detachTimer == Some(k)
      ensures s !in shells ==> forall k | k in loop.timers :: loop.timers[k].session != s
    {
      hide PtySession.Valid, Reaping;
      forall k | k in loop.timers
        ensures TimerCurrent(k)
      {
      }
    }

    twostate lemma AdoptTouchesOwnTimers(s: PtySession)
      requires s in shells && s.loop == loop && loop.Valid() && loop.now == old(loop.now)
      requires old(loop.Valid()) && old(HandleOwned(s))
      requires forall k | k in old(loop.timers) && old(loop.timers)[k].session == s :: old(s.detachTimer) == Some(k)
      requires s.AdoptedOrDropped()
      ensures OwnTimersOnly(s) && Reaping(s)
    {
    }

    twostate lemma DropTouchesOwnTimers(s: PtySession)
      requires s in shells && s.loop == loop && loop.Valid() && loop.now == old(loop.now)
      requires old(loop.Valid()) && old(s.ws) != null
      requires forall k | k in old(loop.timers) && old(loop.timers)[k].session == s :: old(s.ws) == null
      requires s.Dropped()
      ensures OwnTimersOnly(s) && Reaping(s)
    {
    }

    twostate lemma StepTouchesOwnTimers(s: PtySession)
      requires s in shells && s.loop == loop && loop.Valid() && loop.now == old(loop.now)
      requires old(s in shells && s.Valid() && Valid())
      requires s.KeptOrDropped()
      ensures OwnTimersOnly(s)
      ensures old(Reaping(s)) ==> Reaping(s)
    {
      hide PtySession.RingValid, PtySession.TimerValid, SocketExact, Live;
      forall k | k in old(loop.timers) && old(loop.timers)[k].session == s
        ensures old(s.ws) == null && old(TimerCurrent(k))
      {
      }
      assert old(HandleOwned(s));
      if s.ws == old(s.ws) && loop.timers == old(loop.timers) {
        assert OwnTimersOnly(s);
      } else {
        DropTouchesOwnTimers(s);
      }
    }

    twostate lemma CancelTouchesOwnTimers(s: PtySession)
      requires s in shells && s.loop == loop && loop.Valid() && loop.now == old(loop.now)
      requires old(s in shells && Valid())
      requires old(loop.nextId) <= loop.nextId && loop.timers == old(s.TimersWithoutOwn())
      requires s.detachTimer == old(s.detachTimer)
            || (s.detachTimer.Some? && old(loop.nextId) <= s.detachTimer.value < loop.nextId)
      ensures OwnTimersOnly(s)
    {
      forall k | k in old(loop.timers) && old(loop.timers)[k].session == s
        ensures old(s.detachTimer) == Some(k)
      {
        assert old(TimerCurrent(k));
      }
      assert old(HandleOwned(s));
    }

    twostate lemma HandlerKeepsValid(s: PtySession)
      requires old(Valid()) && Wired() && s in shells && s.Valid()
      requires OnlyTouched(s) && OwnTimersOnly(s)
      requires forall id | id in sessions && sessions[id] != s ::
        id in old(sessions) && sessions[id] == old(sessions[id])
      requires Registered(s) ==> Reaping(s)
      ensures Valid()
    {
      hide PtySession.RingValid, PtySession.QueueValid, PtySession.TimerValid, SocketExact, Live;
      forall t | t in shells
        ensures t.Valid()
      {
        if t != s {
          assert t in old(shells) && unchanged(t);
          assert forall w | w in t.served :: w in old(pool) && w !in s.served;
          assert old(t.Valid());
        }
      }
      forall t | t in shells
        ensures HandleOwned(t)
      {
        if t != s {
          assert old(HandleOwned(t));
        }
      }
      forall k | k in loop.timers
        ensures TimerCurrent(k)
      {
        if loop.timers[k].session != s {
          assert old(TimerCurrent(k));
        }
      }
      forall id | id in sessions
        ensures Reaping(sessions[id])
      {
        if sessions[id] != s {
          assert old(Reaping(sessions[id]));
        }
      }
    }

    // -------------------------------------------------------------------
    // Event handlers
    // -------------------------------------------------------------------

    /** The new socket, unless it is attached without its greeting. */
    static ghost function Told(s: PtySession, w: Socket): set<Socket>
      reads s, w
    {
      if s.ws == w && w.Ungreeted() then {} else {w}
    }

    /** A connection adopts the shell registered under its thread, or spawns
        one; no other shell changes. */
    method HandlePtyConnection(w: Socket, threadId: string)
      requires Valid() && w !in pool && w.sent == []
      modifies this`sessions, this`shells, this`pool, loop`timers, loop`nextId, w
      modifies if threadId in sessions then {sessions[threadId]} + sessions[threadId].Consumer() else {}
      ensures Valid() && pool == old(pool) + {w}
      ensures threadId in sessions && sessions[threadId].served
           == (if threadId in old(sessions) then old(sessions[threadId].served) else {}) + {w}
      ensures sessions[threadId].exact
           == (if threadId in old(sessions) then old(sessions[threadId].exact) else {}) + Told(sessions[threadId], w)
      ensures threadId in old(sessions) ==> sessions[threadId].stream == old(sessions[threadId].stream)
      ensures sessions[threadId].StartedRight(w)
      ensures old(w.Healthy()) ==> sessions[threadId].ws == w && w.open && w.closeCode == None
      ensures threadId in old(sessions) && old(sessions[threadId].ws) != null ==>
        var previous := old(sessions[threadId].ws);
        && previous.ClosedWith(old(sessions[threadId].ws.closeCode), 1000)
        && previous.sent == old(sessions[threadId].ws.sent)
      ensures threadId in old(sessions) ==> sessions == old(sessions) && shells == old(shells)
      ensures threadId !in old(sessions) ==>
        && fresh(sessions[threadId]) && sessions == old(sessions)[threadId := sessions[threadId]]
        && shells == old(shells) + {sessions[threadId]}
    {
      if threadId in sessions {
        Adopt(sessions[threadId], w);
      } else {
        SpawnPty(threadId, w);
      }
    }

    method Adopt(existing: PtySession, w: Socket)
      requires Valid() && w !in pool && w.sent == [] && existing in shells
      modifies this`pool, loop`timers, loop`nextId, w, existing, existing.Consumer()
      ensures Valid() && pool == old(pool) + {w}
      ensures existing.served == old(existing.served) + {w} && existing.exact == old(existing.exact) + Told(existing, w)
      ensures existing.stream == old(existing.stream) && existing.StartedRight(w)
      ensures old(w.Healthy()) ==> existing.ws == w && w.open && w.closeCode == None
      ensures old(existing.ws) != null ==>
        && old(existing.ws).ClosedWith(old(existing.ws.closeCode), 1000)
        && old(existing.ws).sent == old(existing.ws.sent)
    {
      hide PtySession.Valid, PtySession.StartedRight, OwnTimersOnly, Reaping, HandleOwned, TimerCurrent;
      existing.ConsumerIsServed();
      OwnsNamedTimer(existing);
      pool := pool + {w};
      existing.AdoptSession(w);
      AdoptTouchesOwnTimers(existing);
      HandlerKeepsValid(existing);
    }

    method SpawnPty(threadId: string, w: Socket)
      requires Valid() && w !in pool && w.sent == [] && threadId !in sessions
      modifies this`sessions, this`shells, this`pool, loop`timers, loop`nextId, w
      ensures Valid() && pool == old(pool) + {w}
      ensures threadId in sessions && fresh(sessions[threadId])
      ensures sessions[threadId].served == {w} && sessions[threadId].exact == Told(sessions[threadId], w)
      ensures sessions == old(sessions)[threadId := sessions[threadId]]
      ensures shells == old(shells) + {sessions[threadId]}
      ensures sessions[threadId].StartedRight(w)
      ensures old(w.Healthy()) ==> sessions[threadId].ws == w && w.open && w.closeCode == None
    {
      var shell := new PtySession(threadId, loop);
      AdoptFresh(shell, w);
    }

    method AdoptFresh(shell: PtySession, w: Socket)
      requires Valid() && w !in pool && w.sent == []
      requires shell !in shells && shell.loop == loop && shell.threadId !in sessions
      requires shell.Valid() && shell.Idle() && shell.served == shell.exact == {}
      modifies this`sessions, this`shells, this`pool, loop`timers, loop`nextId, w, shell
      ensures Valid() && pool == old(pool) + {w}
      ensures shell.served == {w} && shell.exact == Told(shell, w)
      ensures sessions == old(sessions)[shell.threadId := shell]
      ensures shells == old(shells) + {shell} && shell.StartedRight(w)
      ensures old(w.Healthy()) ==> shell.ws == w && w.open && w.closeCode == None
    {
      hide PtySession.Valid, PtySession.StartedRight, OwnTimersOnly, Reaping, HandleOwned, TimerCurrent;
      OwnsNamedTimer(shell);
      sessions := sessions[shell.threadId := shell];
      shells := shells + {shell};
      pool := pool + {w};
      shell.AdoptSession(w);
      forall t | t in old(shells)
        ensures unchanged(t) && t.served <= old(pool)
      {
      }
      assert Wired();
      AdoptTouchesOwnTimers(shell);
      HandlerKeepsValid(shell);
    }

    method OnShellData(shell: PtySession, data: seq<Byte>)
      requires Valid() && shell in shells
      modifies shell, loop`timers, loop`nextId, shell.Consumer()
      ensures Valid()
      ensures shell.stream == old(shell.stream) + data && shell.exact == old(shell.exact)
      ensures shell.ws == old(shell.ws) || (shell.ws == null && (!old(shell.ws).open || !old(shell.ws).steady))
      ensures shell.ws != null && shell.ws.open ==>
        old(shell.ws.open) && shell.Queued(shell.ws) == old(shell.Queued(shell.ws)) + data
    {
      hide PtySession.Valid, PtySession.StartedRight, OwnTimersOnly, Reaping, HandleOwned, TimerCurrent;
      shell.ConsumerIsServed();
      shell.OnData(data);
      StepTouchesOwnTimers(shell);
      HandlerKeepsValid(shell);
    }

    method OnFlushTimer(shell: PtySession, timer: nat)
      requires Valid() && shell in shells && timer in shell.liveFlush
      modifies shell, loop`timers, loop`nextId, shell.Consumer()
      ensures Valid()
      ensures shell.stream == old(shell.stream) && shell.exact == old(shell.exact)
      ensures shell.pendingOutputBytes == 0
      ensures shell.ws == old(shell.ws) || (shell.ws == null && (!old(shell.ws).open || !old(shell.ws).steady))
      ensures shell.ws != null && shell.ws.open ==> shell.Queued(shell.ws) == old(shell.Queued(shell.ws))
    {
      hide PtySession.Valid, PtySession.StartedRight, OwnTimersOnly, Reaping, HandleOwned, TimerCurrent;
      shell.ConsumerIsServed();
      shell.OnFlushTimer(timer);
      StepTouchesOwnTimers(shell);
      HandlerKeepsValid(shell);
    }

    /** The exit of a shell that is no longer the registered one changes
        nothing but that shell. */
    method OnShellExit(shell: PtySession, code: int)
      requires Valid() && shell in shells
      modifies this`sessions, shell, loop`timers, loop`nextId, shell.Consumer()
      ensures Valid()
      ensures sessions == if old(Registered(shell)) then old(sessions) - {shell.threadId} else old(sessions)
      ensures shell.stream == old(shell.stream) && shell.exact == old(shell.exact)
      ensures shell.ws != null ==> shell.ws == old(shell.ws) && !shell.ws.open
      ensures shell.ws != null && old(shell.ws.open) ==>
        || shell.ToldOfExit(shell.ws, code, old(shell.Queued(shell.ws)), old(shell.ws.closeCode))
        || shell.ws.FailedLast(old(shell.ws.closeCode))
    {
      hide PtySession.Valid, PtySession.StartedRight, PtySession.ToldOfExit, Socket.FailedLast, OwnTimersOnly, Reaping,
        HandleOwned, TimerCurrent;
      var registered := Registered(shell);
      shell.ConsumerIsServed();
      shell.OnExit(code, registered);
      if registered {
        sessions := sessions - {shell.threadId};
        CancelTouchesOwnTimers(shell);
      } else {
        StepTouchesOwnTimers(shell);
      }
      HandlerKeepsValid(shell);
    }

    /** An explicit tab close: the shell registered under the sender's thread
        leaves the registry now, whichever of that thread's sockets sent the
        frame, so also if a newer socket has adopted the shell since. */
    method OnKillMessage(threadId: string, ghost sender: Socket)
      requires Valid() && sender in pool
      modifies this`sessions, loop`timers
      modifies if threadId in sessions then {sessions[threadId]} else {}
      ensures Valid()
      ensures sessions == old(sessions) - {threadId}
      ensures threadId in old(sessions) && old(sessions[threadId].ws) != sender ==>
        threadId !in sessions && unchanged(sender)
      ensures threadId in old(sessions) ==>
        var shell := old(sessions)[threadId];
        && shell.stream == old(sessions[threadId].stream)
        && shell.exact == (if old(sessions[threadId].pendingOutputBytes) == 0 then old(sessions[threadId].exact)
                           else old(sessions[threadId].exact) - {old(sessions[threadId].ws)})
    {
      hide PtySession.Valid, PtySession.StartedRight, OwnTimersOnly, Reaping, HandleOwned, TimerCurrent;
      if threadId in sessions {
        var shell := sessions[threadId];
        shell.OnKill();
        sessions := sessions - {threadId};
        CancelTouchesOwnTimers(shell);
        HandlerKeepsValid(shell);
      }
    }

    /** A socket closed. Unless it is the one now attached to the shell now
        registered under its thread, nothing changes. */
    method OnSocketClose(w: Socket, threadId: string)
      requires Valid() && w in pool && !w.open
      modifies loop`timers, loop`nextId
      modifies if threadId in sessions then {sessions[threadId]} else {}
      ensures Valid()
      ensures threadId in sessions && old(sessions[threadId].ws) == w ==>
        && sessions[threadId].ws == null && sessions[threadId].detachedAt == loop.now
        && sessions[threadId].exact == old(sessions[threadId].exact)
        && sessions[threadId].stream == old(sessions[threadId].stream)
      ensures threadId in sessions && old(sessions[threadId].ws) != w ==>
        unchanged(loop) && unchanged(sessions[threadId])
    {
      hide PtySession.Valid, PtySession.StartedRight, OwnTimersOnly, Reaping, HandleOwned, TimerCurrent;
      if threadId !in sessions || sessions[threadId].ws != w {
        return;
      }
      var shell := sessions[threadId];
      shell.OnClose(w);
      StepTouchesOwnTimers(shell);
      HandlerKeepsValid(shell);
    }

    /** A detach timer fires. It takes the shell out of the registry exactly if
        that shell is the one registered; then the shell has been detached for
        the whole grace period. No other shell is touched. */
    method OnDetachTimer(k: nat) returns (reaped: bool)
      requires Valid() && k in loop.timers && loop.timers[k].due <= loop.now
      modifies this`sessions, loop`timers
      ensures Valid()
      ensures reaped <==> old(Registered(loop.timers[k].session))
      ensures var shell := old(loop.timers[k].session);
              if reaped
              then sessions == old(sessions) - {shell.threadId}
                   && shell.ws == null && loop.now - shell.detachedAt >= 300_000
              else sessions == old(sessions)
    {
      assert TimerCurrent(k);
      reaped := Expire(loop.timers[k].session, k);
    }

    method Expire(shell: PtySession, k: nat) returns (reaped: bool)
      requires Valid() && shell in shells && shell.detachTimer == Some(k) && shell.ws == null
      modifies this`sessions, loop`timers
      ensures Valid()
      ensures reaped <==> old(Registered(shell))
      ensures sessions == if reaped then old(sessions) - {shell.threadId} else old(sessions)
    {
      hide PtySession.Valid, PtySession.StartedRight, OwnTimersOnly, Reaping, HandleOwned, TimerCurrent;
      loop.ClearTimeout(k);
      reaped := Registered(shell) && shell.ws == null;
      if reaped {
        sessions := sessions - {shell.threadId};
      }
      CancelTouchesOwnTimers(shell);
      HandlerKeepsValid(shell);
    }

    /** Time passes. */
    method Elapse(milliseconds: nat)
      requires Valid()
      modifies loop`now
      ensures Valid() && loop.now == old(loop.now) + milliseconds
    {
      loop.now := loop.now + milliseconds;
      hide PtySession.Valid;
      NothingRan();
    }

    /** The transport of a socket takes bytes from its buffer, or is lost. */
    method TransportChanges(w: Socket, lost: bool, buffered: nat)
      requires Valid() && w in pool && buffered <= w.buffered
      modifies w`open, w`buffered
      ensures Valid()
    {
      w.open := w.open && !lost;
      w.buffered := buffered;
      hide PtySession.Valid;
      NothingRan();
    }

    twostate lemma NothingRan()
      requires old(Valid()) && unchanged(this) && forall s | s in shells :: unchanged(s)
      requires loop.timers == old(loop.timers) && loop.nextId == old(loop.nextId) && loop.now >= old(loop.now)
      requires forall w | w in pool :: w.sent == old(w.sent) && w.base == old(w.base) && (w.open ==> old(w.open))
      ensures Valid()
    {
      hide PtySession.Valid;
      forall s | s in shells
        ensures s.Valid()
      {
        s.TransportKeepsValid();
      }
      forall k | k in loop.timers
        ensures TimerCurrent(k)
      {
        assert k in old(loop.timers) && old(TimerCurrent(k));
        var s := loop.timers[k].session;
        assert s in shells && unchanged(s);
      }
      assert forall id | id in sessions :: old(Reaping(sessions[id]));
      assert forall s | s in shells :: old(HandleOwned(s));
    }
  }
}
