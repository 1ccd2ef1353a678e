/** The two views of the interposed calls agree: what the methods of module Interposers do, one call at a time, is what the
  step machine of module Threads does in a call, or a destructor, that no other thread disturbs; with a connection or
  without, and wherever the connection breaks. */
module Refinement {
  import opened Wrappers
  import opened Bytes
  import opened Wire
  import opened CStrings
  import opened Sessions
  import opened Net
  import opened Settings
  import opened Env
  import opened Propagation
  import opened Interposers
  import opened Meaning
  import T = Threads

  /** How many bytes more a connection accepts. */
  function Left(out: Outgoing): nat {
    out.limit - |out.sent|
  }

  ghost function Room(s: Socket?): nat
    reads s
  {
    if s == null then 0 else Left(s.out)
  }

  /** The current socket of the one view is that of the other: the same bytes, for the same events; and where it is broken,
    the connection accepts no more. */
  ghost predicate SameSocket(s: Socket?, log: seq<Event>, l: T.Lib)
    reads s
  {
    if l.current.None? then s == null else
    && s != null && l.current.value < |l.socks|
    && SameBytes(s.out, log, l.socks[l.current.value])
  }

  predicate SameBytes(out: Outgoing, log: seq<Event>, t: T.Sock) {
    out.sent == t.sent && log == t.log && (t.broken ==> |out.sent| == out.limit)
  }

  /** Thread `t` may call the library, and nobody else is in it. */
  ghost predicate Idle(l: T.Lib, t: nat) {
    T.Inv(l) && l.alive && l.holder.None? && T.At(l, t).Outside?
  }

  ghost predicate SameOpen(lib: OpenLib, l: T.Lib, t: nat)
    reads lib, lib.sock
  {
    && lib.Valid() && Idle(l, t) && !l.guarded && lib.initialized == l.initialized
    && (l.initialized ==> lib.options == l.options.open && SameSocket(lib.sock, lib.log, l))
  }

  ghost predicate SameSpawn(lib: SpawnLib, l: T.Lib, t: nat)
    reads lib, lib.sock
  {
    && lib.Valid() && Idle(l, t) && !l.guarded && lib.initialized == l.initialized
    && (l.initialized ==> lib.Opts() == l.options && SameSocket(lib.sock, lib.log, l))
  }

  ghost predicate SameClose(lib: CloseLib, l: T.Lib, t: nat)
    reads lib, lib.created
  {
    && lib.Valid() && lib.loaded && !lib.locked && Idle(l, t) && l.guarded
    && lib.initialized == l.initialized && lib.finalized == l.finalized && lib.resolved == l.resolved
    && (l.initialized ==> SameSocket(lib.created, lib.log, l))
  }

  // ----- Undisturbed steps keep the machine's invariant -----

  lemma SendAllKeeps(l: T.Lib, t: nat, room: nat)
    requires T.Inv(l)
    ensures T.Inv(T.SendAll(l, t, room))
    ensures T.SendAll(l, t, room).options == l.options && T.SendAll(l, t, room).guarded == l.guarded
  {
    hide T.Inv, T.Step;
    var left := T.LeftOf(T.At(l, t));
    if left == [] || l.current.None? || l.current.value >= |l.socks| {
    } else if |left| <= room || l.socks[l.current.value].broken {
      T.StepKeepsInv(l, T.Send(t, |left|));
    } else {
      var breaks := T.Break(l.current.value);
      var l1 := if room == 0 then l else T.Step(l, T.Send(t, room - 1));
      if room > 0 {
        T.StepKeepsInv(l, T.Send(t, room - 1));
      }
      T.StepKeepsInv(l1, breaks);
      T.StepKeepsInv(T.Step(l1, breaks), T.Send(t, 0));
    }
  }

  lemma WholeCallKeeps(l: T.Lib, t: nat, event: Option<Event>, connected: bool, room: nat)
    requires T.Inv(l)
    ensures var l' := T.WholeCall(l, t, event, connected, room);
            T.Inv(l') && l'.options == l.options && l'.guarded == l.guarded
  {
    hide T.Inv, T.Step, T.SendAll;
    var l1 := T.Step(l, T.Call(t));
    T.StepKeepsInv(l, T.Call(t));
    var l2 := T.Step(l1, T.Lock(t));
    T.StepKeepsInv(l1, T.Lock(t));
    var l3 := T.Step(l2, T.Init(t, connected));
    T.StepKeepsInv(l2, T.Init(t, connected));
    var l4 := T.Step(l3, T.CallNext(t));
    T.StepKeepsInv(l3, T.CallNext(t));
    var l5 := T.Step(l4, T.Report(t, event));
    T.StepKeepsInv(l4, T.Report(t, event));
    SendAllKeeps(l5, t, room);
    T.StepKeepsInv(T.SendAll(l5, t, room), T.Unlock(t));
  }

  lemma WholeDestructorKeeps(l: T.Lib, t: nat, room: nat)
    requires T.Inv(l)
    ensures var l' := T.WholeDestructor(l, t, room);
            T.Inv(l') && l'.options == l.options && l'.guarded == l.guarded
  {
    hide T.Inv, T.Step, T.SendAll;
    var l1 := T.Step(l, T.Destroy(t));
    T.StepKeepsInv(l, T.Destroy(t));
    var l2 := T.Step(l1, T.Lock(t));
    T.StepKeepsInv(l1, T.Lock(t));
    var l3 := T.Step(l2, T.Finalize(t));
    T.StepKeepsInv(l2, T.Finalize(t));
    SendAllKeeps(l3, t, room);
    var l4 := T.SendAll(l3, t, room);
    T.StepKeepsInv(l4, T.Shut(t));
    T.StepKeepsInv(T.Step(l4, T.Shut(t)), T.Unlock(t));
  }

  // ----- Bytes -----

  /** Putting more on a stream that the limit may already have cut. */
  lemma MoreCarried(out: Outgoing, out': Outgoing, whole: bytes, data: bytes, ts: T.Sock)
    requires out.sent == Clip(whole, out.limit) && out'.limit == out.limit
    requires out'.sent == Clip(whole + data, out.limit)
    requires ts.sent == out.sent && (ts.broken ==> |out.sent| == out.limit)
    ensures var ts' := T.PutOn(ts, data, Left(out));
            && out'.sent == ts'.sent && (ts'.broken ==> |out'.sent| == out'.limit)
            && ts' == ts.(sent := ts'.sent, broken := ts'.broken)
  {
    if data == [] {
      assert whole + data == whole;
    } else if |out.sent| < out.limit {
      assert whole == out.sent;
    }
  }

  lemma OpenMessage(o: Options, o': Options, e: Event)
    requires e.Open? && o.open == o'.open
    ensures Message(o, e) == Message(o', e)
  {
  }

  lemma CloseMessage(o: Options, o': Options, e: Event)
    requires e.Close?
    ensures Message(o, e) == Message(o', e)
  {
  }

  lemma NothingWritten(o: Options, limit: nat)
    ensures Clip(Stream(o, []), limit) == [] && Stream(o, []) == []
  {
  }

  /** One event more is carried by both views alike. */
  lemma EventCarried(out: Outgoing, out': Outgoing, o: Options, log: seq<Event>, e: Event, ts: T.Sock)
    requires out.sent == Clip(Stream(o, log), out.limit) && out'.limit == out.limit
    requires out'.sent == Clip(Stream(o, log + [e]), out.limit)
    requires SameBytes(out, log, ts)
    ensures SameBytes(out', log + [e], T.PutOn(ts.(log := ts.log + [e]), Message(o, e), Left(out)))
  {
    hide Message, Stream;
    StreamSnoc(o, log, e);
    MoreCarried(out, out', Stream(o, log), Message(o, e), ts.(log := ts.log + [e]));
  }

  lemma DoneCarried(out: Outgoing, out': Outgoing, o: Options, log: seq<Event>, ts: T.Sock)
    requires out.sent == Clip(Stream(o, log), out.limit) && out'.limit == out.limit
    requires out'.sent == Clip(Written(o, log, true), out.limit)
    requires SameBytes(out, log, ts)
    ensures SameBytes(out', log, T.PutOn(ts.(finished := true), Done(), Left(out)).(shut := true))
  {
    hide Message, Stream, Done;
    MoreCarried(out, out', Stream(o, log), Done(), ts.(finished := true));
  }

  lemma StaysFinished(s: T.Sock, data: bytes, room: nat)
    ensures T.PutOn(s, data, room).finished == s.finished
  {
  }

  lemma CurrentExists(l: T.Lib)
    requires T.Inv(l)
    ensures l.current.Some? ==> l.current.value < |l.socks|
  {
  }

  // ----- open -----

  /** A call of open. */
  method OpenCall(lib: OpenLib, own: Environment, e: Event, created: Socket?, createdFd: int32, ghost l: T.Lib, ghost t: nat)
    requires SameOpen(lib, l, t) && e.Open?
    requires GetEnv(own, SOCKET).Some? && DecodeOptions(GetEnv(own, OPTS), 2) == l.options.open
    requires Unused(created) && (created != null ==> created != lib.sock)
    modifies lib, lib.sock, created
    ensures SameOpen(lib, T.WholeCall(l, t, Some(e), created != null, old(Room(if l.initialized then lib.sock else created))), t)
  {
    hide Message, Stream, T.WholeCall, T.Inv, GetEnv, T.PutOn;
    CurrentExists(l);
    ghost var s := if l.initialized then lib.sock else created;
    ghost var log := if l.initialized then lib.log else [];
    ghost var out := if s == null then Outgoing([], 0) else s.out;
    T.UndisturbedCall(l, t, Some(e), created != null, Left(out));
    WholeCallKeeps(l, t, Some(e), created != null, Left(out));
    NothingWritten(Options(0, 0, l.options.open, 0), out.limit);
    var crashed := lib.Open(own, e, created, createdFd);
    OpenMessage(lib.Opts(), l.options, e);
    assert [] + [e] == [e];
    if s != null {
      EventCarried(out, s.out, lib.Opts(), log, e, T.SocketBefore(l, T.SocketFor(l, true).value));
    }
  }

  /** The destructor of libvoyeur-open. */
  method OpenCleanup(lib: OpenLib, closer: CloseLib, ghost l: T.Lib, ghost t: nat) returns (crashed: bool)
    requires SameOpen(lib, l, t) && l.initialized
    requires closer.Valid() && closer.Free() && (lib.sock != null ==> lib.sock != closer.created)
    modifies lib, lib.sock, closer, closer.created
    ensures !crashed ==> SameOpen(lib, T.WholeDestructor(l, t, old(Room(lib.sock))), t)
    ensures l.current.Some? ==>
              && l.current.value < |T.WholeDestructor(l, t, old(Room(lib.sock))).socks|
              && SameBytes(old(lib.sock).out, lib.log, T.WholeDestructor(l, t, old(Room(lib.sock))).socks[l.current.value])
  {
    hide Message, Stream, T.WholeDestructor, T.Inv, Closed, T.PutOn, GetEnv;
    CurrentExists(l);
    ghost var s := lib.sock;
    ghost var out := if s == null then Outgoing([], 0) else s.out;
    T.UndisturbedDestructor(l, t, Left(out));
    WholeDestructorKeeps(l, t, Left(out));
    crashed := lib.Cleanup(closer);
    if s != null {
      DoneCarried(out, s.out, lib.Opts(), lib.log, l.socks[l.current.value]);
    }
  }

  // ----- posix_spawn -----

  /** Whatever the options say is to be reported, the machine may report. */
  lemma ReportedMay(o: Options, accessible: bool, e: Event)
    requires ExecReported(o, accessible)
    ensures T.MayReport(o, e)
  {
  }

  /** The event of an exec, if it is one to report. */
  function EventIf(o: Options, accessible: bool, e: Event): Option<Event> {
    if ExecReported(o, accessible) then Some(e) else None
  }

  /** A call of posix_spawn. */
  method SpawnCall(lib: SpawnLib, own: Environment, envp: Environment, e: Event, created: Socket?, createdFd: int32,
                   accessible: bool, ghost l: T.Lib, ghost t: nat)
    returns (newenvp: Option<array<Option<cstring>>>)
    requires SameSpawn(lib, l, t) && e.Exec? && EventOf(own, envp, e)
    requires ClientOptions(GetEnv(own, OPTS)) == l.options
    requires Unused(created) && (created != null ==> created != lib.sock)
    modifies lib, lib.sock, created
    ensures newenvp.Some? == (if l.initialized then old(lib.Settings()) else VarsOf(own)).Some?
    ensures newenvp.Some? ==>
              SameSpawn(lib, T.WholeCall(l, t, EventIf(l.options, accessible, e), created != null,
                                         old(Room(if l.initialized then lib.sock else created))), t)
  {
    hide Message, Stream, T.WholeCall, T.Inv, GetEnv, T.PutOn, Augment, EventOf, ClientOptions;
    CurrentExists(l);
    ghost var s := if l.initialized then lib.sock else created;
    ghost var log := if l.initialized then lib.log else [];
    ghost var out := if s == null then Outgoing([], 0) else s.out;
    ghost var event := EventIf(l.options, accessible, e);
    T.UndisturbedCall(l, t, event, created != null, Left(out));
    WholeCallKeeps(l, t, event, created != null, Left(out));
    NothingWritten(l.options, out.limit);
    newenvp := lib.Spawn(own, envp, created, createdFd, accessible, e);
    assert [] + Reported(l.options, accessible, e) == Reported(l.options, accessible, e);
    assert log + [] == log;
    if newenvp.Some? && s != null {
      if ExecReported(l.options, accessible) {
        ReportedMay(l.options, accessible, e);
        EventCarried(out, s.out, l.options, log, e, T.SocketBefore(l, T.SocketFor(l, true).value));
      }
    }
  }

  /** Its destructor. */
  method SpawnCleanup(lib: SpawnLib, closer: CloseLib, ghost l: T.Lib, ghost t: nat) returns (crashed: bool)
    requires SameSpawn(lib, l, t) && l.initialized
    requires closer.Valid() && closer.Free() && (lib.sock != null ==> lib.sock != closer.created)
    modifies lib, lib.sock, closer, closer.created
    ensures !crashed ==> SameSpawn(lib, T.WholeDestructor(l, t, old(Room(lib.sock))), t)
    ensures l.current.Some? ==>
              && l.current.value < |T.WholeDestructor(l, t, old(Room(lib.sock))).socks|
              && SameBytes(old(lib.sock).out, lib.log, T.WholeDestructor(l, t, old(Room(lib.sock))).socks[l.current.value])
  {
    hide Message, Stream, T.WholeDestructor, T.Inv, Closed, T.PutOn, GetEnv, ClientOptions;
    CurrentExists(l);
    ghost var s := lib.sock;
    ghost var out := if s == null then Outgoing([], 0) else s.out;
    T.UndisturbedDestructor(l, t, Left(out));
    WholeDestructorKeeps(l, t, Left(out));
    crashed := lib.Cleanup(closer);
    if s != null {
      DoneCarried(out, s.out, l.options, lib.log, l.socks[l.current.value]);
    }
  }

  // ----- exec and exit -----

  /** One call of a fresh library, and its destructor: a connection used once, which accepts `limit` bytes. */
  function OneShot(o: Options, t: nat, event: Option<Event>, connected: bool, limit: nat): T.Lib {
    var l := T.WholeCall(T.Fresh(false, o), t, event, connected, limit);
    T.WholeDestructor(l, t, if |l.socks| == 1 && |l.socks[0].sent| <= limit then limit - |l.socks[0].sent| else 0)
  }

  /** A connection used once carries its event, if that is reported, and DONE, as far as it goes. */
  lemma OneShotSends(o: Options, t: nat, event: Option<Event>, connected: bool, limit: nat)
    requires event.Some? ==> T.MayReport(o, event.value)
    ensures var l, log := OneShot(o, t, event, connected, limit), if event.Some? then [event.value] else [];
            && |l.socks| == (if connected then 1 else 0)
            && (connected ==>
                  && l.socks[0].log == log && l.socks[0].finished && l.socks[0].shut
                  && l.socks[0].sent == Clip(Written(o, log, true), limit))
  {
    hide Message, Stream, T.WholeCall, T.WholeDestructor, T.PutOn, Done;
    var l0 := T.Fresh(false, o);
    T.FreshInv(false, o);
    T.UndisturbedCall(l0, t, event, connected, limit);
    WholeCallKeeps(l0, t, event, connected, limit);
    var l1 := T.WholeCall(l0, t, event, connected, limit);
    if connected {
      var log := if event.Some? then [event.value] else [];
      NothingWritten(o, limit);
      var out0, out1 := Outgoing([], limit), Outgoing(Clip(Stream(o, log), limit), limit);
      if event.Some? {
        assert [] + [event.value] == log;
        EventCarried(out0, out1, o, [], event.value, T.Empty());
      }
      T.UndisturbedDestructor(l1, t, Left(out1));
      var out2 := Outgoing(Clip(Written(o, log, true), limit), limit);
      DoneCarried(out1, out2, o, log, l1.socks[0]);
      StaysFinished(l1.socks[0].(finished := true), Done(), Left(out1));
    } else {
      T.UndisturbedDestructor(l1, t, 0);
    }
  }

  /** The exit event: the first time it is a connection used once. */
  method ExitCall(lib: ExitLib, own: Environment, created: Socket?, createdFd: int32, closer: CloseLib,
                  o: Options, status: int32, pid: int32, ppid: int32, ghost t: nat)
    returns (crashed: bool)
    requires Unused(created) && !lib.didExit && GetEnv(own, SOCKET).Some?
    requires closer.Valid() && closer.Free() && (created != null ==> created != closer.created)
    modifies lib, created, closer, closer.created
    ensures var l := OneShot(o, t, Some(Exit(status, pid, ppid)), created != null,
                             if created == null then 0 else created.out.limit);
            && |l.socks| == (if created == null then 0 else 1)
            && (created != null ==> created.out.sent == l.socks[0].sent)
  {
    hide Written, OneShot, GetEnv;
    crashed := lib.WriteExitEvent(own, created, createdFd, closer, o, status, pid, ppid);
    OneShotSends(o, t, Some(Exit(status, pid, ppid)), created != null, if created == null then 0 else created.out.limit);
  }

  /** execve: the event, if it is to be reported, goes over a connection used once. */
  method ExecveCall(own: Environment, envp: Environment, created: Socket?, createdFd: int32, closer: CloseLib,
                    accessible: bool, e: Event, ghost t: nat)
    returns (newenvp: Option<array<Option<cstring>>>)
    requires e.Exec? && EventOf(own, envp, e) && Unused(created) && GetEnv(own, SOCKET).Some?
    requires closer.Valid() && closer.Free() && (created != null ==> created != closer.created)
    modifies created, closer, closer.created
    ensures var o := ClientOptions(GetEnv(own, OPTS));
            var l := OneShot(o, t, EventIf(o, accessible, e), created != null,
                             if created == null then 0 else created.out.limit);
            && |l.socks| == (if created == null then 0 else 1)
            && (created != null ==> created.out.sent == l.socks[0].sent)
  {
    hide Written, OneShot, GetEnv, ClientOptions, EventOf, Augment, Closed;
    newenvp := Execve(own, envp, created, createdFd, closer, accessible, e);
    var o := ClientOptions(GetEnv(own, OPTS));
    if ExecReported(o, accessible) {
      ReportedMay(o, accessible, e);
    }
    OneShotSends(o, t, EventIf(o, accessible, e), created != null, if created == null then 0 else created.out.limit);
  }

  /** An exec of an accessible file, at the default options or any that are not silent, over a connection that takes it:
    what the server makes of the connection is exactly the callback of that exec. */
  method ExecveCalledBack(own: Environment, envp: Environment, created: Socket, createdFd: int32, closer: CloseLib,
                          e: Event, ghost cfg: Config)
    returns (newenvp: Option<array<Option<cstring>>>)
    requires e.Exec? && EventOf(own, envp, e) && Unused(created) && GetEnv(own, "LIBVOYEUR_SOCKET").Some?
    requires ClientOptions(GetEnv(own, "LIBVOYEUR_OPTS")).exec & 16 == 0
    requires Agree(ClientOptions(GetEnv(own, "LIBVOYEUR_OPTS")), cfg.options)
    requires |Message(ClientOptions(GetEnv(own, "LIBVOYEUR_OPTS")), e)| + 4 <= created.out.limit
    requires closer.Valid() && closer.Free() && created != closer.created
    modifies created, closer, closer.created
    ensures Session(cfg, created.out.sent)
            == HandleMessage(cfg, Message(ClientOptions(GetEnv(own, "LIBVOYEUR_OPTS")), e)).calls
    ensures cfg.execCb ==> |Session(cfg, created.out.sent)| == 1
  {
    hide Message, GetEnv, ClientOptions, EventOf, Augment, HandleMessage, Agree, Closed;
    newenvp := Execve(own, envp, created, createdFd, closer, true, e);
    var o := ClientOptions(GetEnv(own, OPTS));
    assert |Done()| == 4;
    EventThenRest(cfg, o, e, Done());
    EventThenRest(cfg, o, e, []);
    assert Message(o, e) + [] == Message(o, e);
    OnlyDone(cfg, Done());
    ExecMeaning(cfg, o, e, []);
  }

  // ----- close -----

  /** A call of close before finalization; the machine reports what the real close answered. */
  method CloseCall(lib: CloseLib, fildes: int32, ghost l: T.Lib, ghost t: nat) returns (retval: int32)
    requires SameClose(lib, l, t) && !lib.finalized && GetEnv(lib.own, SOCKET).Some?
    modifies lib, lib.created
    ensures SameClose(lib, T.WholeCall(l, t, Some(Event.Close(fildes, retval, lib.pid)), lib.created != null,
                                       old(Room(lib.created))), t)
  {
    hide Message, Stream, T.WholeCall, T.Inv, GetEnv, T.PutOn;
    CurrentExists(l);
    ghost var s, log := lib.created, lib.log;
    ghost var out := if s == null then Outgoing([], 0) else s.out;
    NothingWritten(lib.Opts(), out.limit);
    NotEnded(lib.Opts(), log);
    var crashed, answer := lib.Close(fildes);
    retval := answer.retval;
    ghost var e := Event.Close(fildes, retval, lib.pid);
    T.UndisturbedCall(l, t, Some(e), s != null, Left(out));
    WholeCallKeeps(l, t, Some(e), s != null, Left(out));
    NotEnded(lib.Opts(), lib.log);
    CloseMessage(lib.Opts(), l.options, e);
    if s != null {
      EventCarried(out, s.out, lib.Opts(), log, e, T.SocketBefore(l, T.SocketFor(l, true).value));
    }
  }

  /** A call of close after finalization: it leaves the machine where it is, or both views jump through NULL. */
  method CloseCallFinalized(lib: CloseLib, fildes: int32, ghost l: T.Lib, ghost t: nat) returns (crashed: bool)
    requires SameClose(lib, l, t) && lib.finalized
    modifies lib, lib.created
    ensures crashed <==> T.At(T.Step(l, T.Call(t)), t).NullCall?
    ensures !crashed ==> T.Step(l, T.Call(t)) == l && SameClose(lib, l, t) && lib.log == old(lib.log)
  {
    var answer;
    crashed, answer := lib.Close(fildes);
  }

  /** The destructor of libvoyeur-close. */
  method CloseCleanup(lib: CloseLib, ghost l: T.Lib, ghost t: nat)
    requires SameClose(lib, l, t) && l.initialized
    modifies lib, lib.created
    ensures SameClose(lib, T.WholeDestructor(l, t, old(Room(lib.created))), t)
    ensures l.current.Some? ==>
              && l.current.value < |T.WholeDestructor(l, t, old(Room(lib.created))).socks|
              && SameBytes(lib.created.out, lib.log, T.WholeDestructor(l, t, old(Room(lib.created))).socks[l.current.value])
              && old(lib.sockFd) in lib.closed
  {
    hide Message, Stream, T.WholeDestructor, T.Inv, T.PutOn, GetEnv;
    CurrentExists(l);
    ghost var s := lib.created;
    ghost var out := if s == null then Outgoing([], 0) else s.out;
    T.UndisturbedDestructor(l, t, Left(out));
    WholeDestructorKeeps(l, t, Left(out));
    NotEnded(lib.Opts(), lib.log);
    lib.Cleanup();
    if s != null {
      DoneCarried(out, s.out, lib.Opts(), lib.log, l.socks[l.current.value]);
      assert lib.closed[|lib.closed| - 1] == old(lib.sockFd);
    }
  }
}
