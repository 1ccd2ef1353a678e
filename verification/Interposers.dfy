/** The interposed calls (src/voyeur-exec.c, src/voyeur-exit.c, src/voyeur-open.c, src/voyeur-close.c), one call at a
  time. What several threads do to one library is the subject of module Threads.

  What comes from outside is a parameter: results of the real calls, getcwd and getpid, the environment `own` of the
  process as it is at the call, and the socket created by voyeur_create_client_socket with its descriptor (null for a
  negative one). That function passes its argument to strlcpy, so a process without LIBVOYEUR_SOCKET crashes in it. */
module Interposers {
  import opened Wrappers
  import opened Bytes
  import opened Wire
  import opened CStrings
  import opened Sessions
  import opened Net
  import opened Settings
  import opened Env
  import opened Propagation

  /** A socket on which nothing has been sent. */
  ghost predicate Unused(s: Socket?)
    reads s
  {
    s != null ==> s.out.sent == []
  }

  /** The socket carries the start of `intended`, all of it unless the connection has broken. */
  ghost predicate Carries(s: Socket?, intended: bytes)
    reads s
  {
    s != null ==> s.out.sent == Clip(intended, s.out.limit)
  }

  lemma PutOnUnused(out: Outgoing, data: bytes)
    requires out.sent == []
    ensures Put(out, data) == Outgoing(Clip(data, out.limit), out.limit)
  {
    assert [] + data == data;
  }

  method WriteHeader(s: Socket, e: Event)
    modifies s`out, s`schedule
    ensures s.out == Put(old(s.out), Header(e))
  {
    PutPut(s.out, IntBytes(MSG_EVENT), IntBytes(EventType(e)));
    var _ := WriteInt(s, MSG_EVENT);
    var _ := WriteInt(s, EventType(e));
  }

  method WriteDone(s: Socket)
    modifies s`out, s`schedule
    ensures s.out == Put(old(s.out), Done())
  {
    var _ := WriteInt(s, MSG_DONE);
  }

  method WriteTwo(s: Socket, a: int32, b: int32)
    modifies s`out, s`schedule
    ensures s.out == Put(old(s.out), TwoInts(a, b))
  {
    PutPut(s.out, IntBytes(a), IntBytes(b));
    var _ := WriteInt(s, a);
    var _ := WriteInt(s, b);
  }

  method WriteThree(s: Socket, a: int32, b: int32, c: int32)
    modifies s`out, s`schedule
    ensures s.out == Put(old(s.out), ThreeInts(a, b, c))
  {
    PutPut(s.out, IntBytes(a), TwoInts(b, c));
    var _ := WriteInt(s, a);
    WriteTwo(s, b, c);
  }

  lemma {:induction false} ListBytesAppend(a: seq<cstr>, b: seq<cstr>)
    ensures ListBytes(a + b) == ListBytes(a) + ListBytes(b)
  {
    if a == [] {
      assert a + b == b;
    } else {
      assert (a + b)[1..] == a[1..] + b;
      ListBytesAppend(a[1..], b);
      Assoc(StrBytes(Some(a[0])), ListBytes(a[1..]), ListBytes(b));
    }
  }

  lemma ListBytesSnoc(l: seq<cstr>, i: nat)
    requires i < |l|
    ensures ListBytes(l[..i + 1]) == ListBytes(l[..i]) + StrBytes(Some(l[i]))
  {
    assert l[..i + 1] == l[..i] + [l[i]];
    ListBytesAppend(l[..i], [l[i]]);
    assert ListBytes([l[i]]) == StrBytes(Some(l[i])) + [];
  }

  /** Counts the strings of a NULL-terminated array, then emits the count and the strings. */
  method WriteCounted(s: Socket, l: cstrs)
    modifies s`out, s`schedule
    ensures s.out == Put(old(s.out), CountedBytes(l))
  {
    ghost var o := s.out;
    var count: int32 := 0;
    while count < |l|
      invariant 0 <= count <= |l|
    {
      count := count + 1;
    }
    var _ := WriteInt(s, count);
    assert IntBytes(count) + ListBytes(l[..0]) == IntBytes(count);
    var i := 0;
    while i < count
      invariant 0 <= i <= count
      invariant s.out == Put(o, IntBytes(count) + ListBytes(l[..i]))
    {
      ListBytesSnoc(l, i);
      Assoc(IntBytes(count), ListBytes(l[..i]), StrBytes(Some(l[i])));
      PutPut(o, IntBytes(count) + ListBytes(l[..i]), StrBytes(Some(l[i])));
      var _ := WriteString(s, Some(l[i]), 0);
      i := i + 1;
    }
    assert l[..i] == l;
  }

  lemma OneMore(limit: nat, o: Options, log: seq<Event>, e: Event)
    ensures Clip(Clip(Stream(o, log), limit) + Message(o, e), limit) == Clip(Stream(o, log + [e]), limit)
  {
    ClipAppend(Stream(o, log), Message(o, e), limit);
    StreamSnoc(o, log, e);
  }

  lemma LastOne(limit: nat, o: Options, log: seq<Event>)
    ensures Clip(Clip(Stream(o, log), limit) + Done(), limit) == Clip(Written(o, log, true), limit)
  {
    ClipAppend(Stream(o, log), Done(), limit);
  }

  lemma NotEnded(o: Options, log: seq<Event>)
    ensures Written(o, log, false) == Stream(o, log)
  {
    assert Stream(o, log) + [] == Stream(o, log);
  }

  // ----- exec -----

  /** The environment in the event is the one passed to the call, and PATH is looked up in the process's own. */
  predicate EventOf(own: Environment, envp: Environment, e: Event)
    requires e.Exec?
  {
    SameTexts(e.envp, envp) && SamePointer(e.pathVar, GetEnv(own, "PATH"))
  }

  /** Is this exec reported at all? Not by a library that is only there to propagate the instrumentation, and, unless
    asked for, not when the file cannot be executed. */
  predicate ExecReported(o: Options, accessible: bool) {
    !Has(o.exec, OBSERVE_EXEC_SILENT) && (Has(o.exec, OBSERVE_EXEC_NOACCESS) || accessible)
  }

  function Reported(o: Options, accessible: bool, e: Event): seq<Event> {
    if ExecReported(o, accessible) then [e] else []
  }

  method WriteExtra(s: Socket, o: Options, e: Event)
    requires e.Exec?
    modifies s`out, s`schedule
    ensures s.out == Put(old(s.out), ExtraBytes(o, e.envp, e.pathVar, e.cwd))
  {
    ghost var out := s.out;
    ghost var a := BytesIf(Has(o.exec, OBSERVE_EXEC_ENV), CountedBytes(e.envp));
    ghost var b := BytesIf(Has(o.exec, OBSERVE_EXEC_PATH), StrBytes(e.pathVar));
    ghost var c := BytesIf(Has(o.exec, OBSERVE_EXEC_CWD), StrBytes(e.cwd));
    if Has(o.exec, OBSERVE_EXEC_ENV) {
      WriteCounted(s, e.envp);
    } else {
      PutNothing(s.out);
    }
    assert s.out == Put(out, a);
    if Has(o.exec, OBSERVE_EXEC_PATH) {
      var _ := WriteString(s, e.pathVar, 0);
    } else {
      PutNothing(s.out);
    }
    PutPut(out, a, b);
    if Has(o.exec, OBSERVE_EXEC_CWD) {
      var _ := WriteString(s, e.cwd, 0);
    } else {
      PutNothing(s.out);
    }
    PutPut(out, a + b, c);
  }

  method WriteExecPayload(s: Socket, o: Options, e: Event)
    requires e.Exec?
    modifies s`out, s`schedule
    ensures s.out == Put(old(s.out), Payload(o, e))
  {
    ghost var out := s.out;
    ghost var a, b := StrBytes(e.path), CountedBytes(e.argv);
    ghost var c, d := ExtraBytes(o, e.envp, e.pathVar, e.cwd), TwoInts(e.pid, e.ppid);
    var _ := WriteString(s, e.path, 0);
    WriteCounted(s, e.argv);
    PutPut(out, a, b);
    WriteExtra(s, o, e);
    PutPut(out, a + b, c);
    WriteTwo(s, e.pid, e.ppid);
    PutPut(out, a + b + c, d);
  }

  /** write_exec_event: nothing at all, or one complete message. Failing writes are ignored. */
  method WriteExecEvent(s: Socket, o: Options, accessible: bool, e: Event)
    requires e.Exec?
    modifies s`out, s`schedule
    ensures s.out == Put(old(s.out), Stream(o, Reported(o, accessible, e)))
    ensures o.exec & 16 == 0 && (accessible || o.exec & 8 != 0) ==> s.out == Put(old(s.out), Message(o, e))
    ensures o.exec & 16 != 0 || (!accessible && o.exec & 8 == 0) ==> s.out == old(s.out)
  {
    ghost var out := s.out;
    StreamOne(o, e);
    PutNothing(out);
    if Has(o.exec, OBSERVE_EXEC_SILENT) {
      return;
    }
    if !Has(o.exec, OBSERVE_EXEC_NOACCESS) {
      if !accessible {
        return;
      }
    }
    WriteHeader(s, e);
    WriteExecPayload(s, o, e);
    PutPut(out, Header(e), Payload(o, e));
  }

  /** The one-shot connection of an exec: at most one event, then DONE. */
  method ReportExec(s: Socket, o: Options, accessible: bool, e: Event)
    requires e.Exec? && Unused(s)
    modifies s`out, s`schedule
    ensures Carries(s, Written(o, Reported(o, accessible, e), true))
    ensures o.exec & 16 == 0 && (accessible || o.exec & 8 != 0) ==> Carries(s, Message(o, e) + Done())
    ensures o.exec & 16 != 0 || (!accessible && o.exec & 8 == 0) ==> Carries(s, Done())
    ensures s.out.limit == old(s.out.limit)
  {
    ghost var out := s.out;
    WriteExecEvent(s, o, accessible, e);
    WriteDone(s);
    PutPut(out, Stream(o, Reported(o, accessible, e)), Done());
    PutOnUnused(out, Written(o, Reported(o, accessible, e), true));
    StreamOne(o, e);
    assert Written(o, [], true) == Done();
  }

  /** The report of an exec on a connection of its own, which is closed after it. It crashes if libvoyeur-close does. */
  method ReportAndClose(created: Socket?, createdFd: int32, closer: CloseLib, o: Options, accessible: bool, e: Event)
    returns (crashed: bool)
    requires e.Exec? && Unused(created)
    requires closer.Valid() && closer.Free() && (created != null ==> created != closer.created)
    modifies created, closer, closer.created
    ensures crashed == (created != null && old(closer.Crashes()))
    ensures Carries(created, Written(o, Reported(o, accessible, e), true))
    ensures o.exec & 16 == 0 && (accessible || o.exec & 8 != 0) ==> Carries(created, Message(o, e) + Done())
    ensures o.exec & 16 != 0 || (!accessible && o.exec & 8 == 0) ==> Carries(created, Done())
    ensures created != null ==> created.out.limit == old(created.out.limit)
    ensures !crashed ==> if created != null then closer.MadeSome(old(closer.State()), createdFd) else unchanged(closer)
  {
    hide Message, Written, Reported, Closed;
    crashed := false;
    if created != null {
      ReportExec(created, o, accessible, e);
      crashed := closer.CloseSocket(createdFd);
    }
  }

  /** execve and execvpe in a process with environment `own`: reports the call on a connection of its own, closes that,
    and hands the next program its environment. A missing variable makes the call crash on a NULL pointer (`None`): at
    once if it is the socket path, after the report otherwise. So does closing if libvoyeur-close crashes. */
  method Execve(own: Environment, envp: Environment, created: Socket?, createdFd: int32, closer: CloseLib,
                accessible: bool, e: Event)
    returns (newenvp: Option<array<Option<cstring>>>)
    requires e.Exec? && EventOf(own, envp, e) && Unused(created)
    requires closer.Valid() && closer.Free() && (created != null ==> created != closer.created)
    modifies created, closer, closer.created
    ensures var o := ClientOptions(GetEnv(own, OPTS));
            GetEnv(own, SOCKET).Some? ==> Carries(created, Written(o, Reported(o, accessible, e), true))
    ensures var o := ClientOptions(GetEnv(own, "LIBVOYEUR_OPTS"));
            GetEnv(own, "LIBVOYEUR_SOCKET").Some? ==>
              && (o.exec & 16 == 0 && (accessible || o.exec & 8 != 0) ==> Carries(created, Message(o, e) + Done()))
              && (o.exec & 16 != 0 || (!accessible && o.exec & 8 == 0) ==> Carries(created, Done()))
    ensures created != null ==> created.out.limit == old(created.out.limit)
    ensures newenvp.Some? ==>
              && GetEnv(own, "LIBVOYEUR_LIBS").Some? && GetEnv(own, "LIBVOYEUR_OPTS").Some?
              && GetEnv(own, "LIBVOYEUR_SOCKET").Some?
              && HoldsEnvironment(newenvp.value,
                                  Augment(envp, Vars(GetEnv(own, "LIBVOYEUR_LIBS").value,
                                                     GetEnv(own, "LIBVOYEUR_OPTS").value,
                                                     GetEnv(own, "LIBVOYEUR_SOCKET").value)))
    ensures newenvp.Some? == (Execed(own, envp).Some? && !(created != null && old(closer.Crashes())))
    ensures newenvp.Some? ==>
              && HoldsEnvironment(newenvp.value, Execed(own, envp).value)
              && if created != null then closer.MadeSome(old(closer.State()), createdFd) else unchanged(closer)
  {
    hide Message, Written, Reported, Closed, Augment, ClientOptions, GetEnv;
    var libs, opts, socket := GetEnv(own, LIBS), GetEnv(own, OPTS), GetEnv(own, SOCKET);
    if socket.None? {
      return None;
    }
    var crashed := ReportAndClose(created, createdFd, closer, ClientOptions(opts), accessible, e);
    if crashed {
      return None;
    }
    if libs.None? || opts.None? {
      return None;
    }
    var a := AugmentEnvironment(envp, Vars(libs.value, opts.value, socket.value));
    newenvp := Some(a);
  }

  // ----- posix_spawn -----

  /** The static state of the posix_spawn part of libvoyeur-exec: the settings are read once and cached. `log` is the
    list of events put on the current socket. */
  class SpawnLib {
    var locked: bool
    var initialized: bool
    var libs: Option<cstring>
    var opts: Option<cstring>
    var sockpath: cstring
    var sock: Socket?
    var sockFd: int32
    ghost var log: seq<Event>

    function Opts(): Options
      reads this
    {
      ClientOptions(opts)
    }

    /** The cached settings; none if LIBVOYEUR_LIBS or LIBVOYEUR_OPTS was missing. */
    function Settings(): Option<Vars>
      reads this
    {
      if libs.Some? && opts.Some? then Some(Vars(libs.value, opts.value, sockpath)) else None
    }

    ghost predicate Valid()
      reads this, sock
    {
      !locked && (initialized ==> Carries(sock, Stream(Opts(), log)))
    }

    constructor ()
      ensures Valid() && !initialized
    {
      locked, initialized, libs, opts, sockpath, sock, sockFd, log := false, false, None, None, "", null, 0, [];
    }

    method Lock()
      requires !locked
      modifies this`locked
      ensures locked
    {
      locked := true;
    }

    method Append(accessible: bool, e: Event)
      requires e.Exec? && Carries(sock, Stream(Opts(), log))
      modifies sock, this`log
      ensures log == old(log) + Reported(Opts(), accessible, e)
      ensures Carries(sock, Stream(Opts(), log)) && (sock != null ==> sock.out.limit == old(sock.out.limit))
    {
      if sock != null {
        StreamAppend(Opts(), log, Reported(Opts(), accessible, e));
        ClipAppend(Stream(Opts(), log), Stream(Opts(), Reported(Opts(), accessible, e)), sock.out.limit);
        WriteExecEvent(sock, Opts(), accessible, e);
      }
      log := log + Reported(Opts(), accessible, e);
    }

    /** voyeur_init_posix_spawn: reads the settings once. It crashes (`!ok`) exactly if there is no LIBVOYEUR_SOCKET; that
      one of the others is missing shows only when the environment is augmented. */
    method Init(own: Environment, created: Socket?, createdFd: int32) returns (ok: bool)
      requires initialized ==> Carries(sock, Stream(Opts(), log))
      requires Unused(created)
      modifies this`initialized, this`libs, this`opts, this`sockpath, this`sock, this`sockFd, this`log
      ensures ok == (old(initialized) || GetEnv(own, SOCKET).Some?)
      ensures ok ==> initialized && Carries(sock, Stream(Opts(), log))
      ensures old(initialized) ==> sock == old(sock) && log == old(log) && opts == old(opts) && Settings() == old(Settings())
      ensures ok && !old(initialized) ==>
                && sock == created && log == [] && opts == GetEnv(own, OPTS) && Settings() == VarsOf(own)
                && libs == GetEnv(own, LIBS) && Some(sockpath) == GetEnv(own, SOCKET)
      ensures !ok ==> sock == old(sock)
    {
      if !initialized {
        libs, opts := GetEnv(own, LIBS), GetEnv(own, OPTS);
        if GetEnv(own, SOCKET).None? {
          return false;
        }
        sockpath := GetEnv(own, SOCKET).value;
        sock, sockFd := created, createdFd;
        initialized, log := true, [];
      }
      return true;
    }

    /** Augments the child's environment, which crashes (`None`) without LIBVOYEUR_LIBS or LIBVOYEUR_OPTS, and reports. */
    method Launch(envp: Environment, accessible: bool, e: Event) returns (newenvp: Option<array<Option<cstring>>>)
      requires e.Exec? && Carries(sock, Stream(Opts(), log))
      modifies sock, this`log
      ensures newenvp.Some? == Settings().Some?
      ensures Carries(sock, Stream(Opts(), log))
      ensures newenvp.Some? ==>
                HoldsEnvironment(newenvp.value, Augment(envp, Settings().value)) && fresh(newenvp.value)
      ensures log == old(log) + if newenvp.Some? then Reported(Opts(), accessible, e) else []
      ensures newenvp.None? && sock != null ==> sock.out == old(sock.out)
      ensures sock != null ==> sock.out.limit == old(sock.out.limit)
    {
      hide Augment, Stream, Message, Reported, ClientOptions;
      if libs.None? || opts.None? {
        assert log + [] == log;
        return None;
      }
      var a := AugmentEnvironment(envp, Vars(libs.value, opts.value, sockpath));
      Append(accessible, e);
      newenvp := Some(a);
    }

    /** posix_spawn and posix_spawnp: hands the child its environment, and afterwards, whether or not the real call
      succeeded, puts the event on the cached socket if it is one to report. `None` is a crash on a missing setting,
      before anything is sent. */
    method Spawn(own: Environment, envp: Environment, created: Socket?, createdFd: int32, accessible: bool, e: Event)
      returns (newenvp: Option<array<Option<cstring>>>)
      requires Valid() && e.Exec? && EventOf(own, envp, e)
      requires Unused(created) && (created != null ==> created != sock)
      modifies this, sock, created
      ensures newenvp.Some? == (if old(initialized) then old(Settings()) else VarsOf(own)).Some?
      ensures newenvp.Some? ==> Valid() && initialized && Settings().Some?
      ensures newenvp.Some? ==> HoldsEnvironment(newenvp.value, Augment(envp, Settings().value))
      ensures newenvp.Some? && old(initialized) ==>
                && Settings() == old(Settings()) && Opts() == old(Opts()) && sock == old(sock)
                && log == old(log) + Reported(Opts(), accessible, e)
      ensures newenvp.Some? && !old(initialized) ==>
                && Settings() == VarsOf(own) && Opts() == ClientOptions(GetEnv(own, OPTS)) && sock == created
                && log == Reported(Opts(), accessible, e)
      ensures newenvp.Some? ==>
                && (Opts().exec & 16 == 0 && (accessible || Opts().exec & 8 != 0) ==>
                      log == (if old(initialized) then old(log) else []) + [e])
                && (Opts().exec & 16 != 0 || (!accessible && Opts().exec & 8 == 0) ==>
                      log == if old(initialized) then old(log) else [])
      ensures newenvp.Some? && !old(initialized) ==>
                && libs == GetEnv(own, "LIBVOYEUR_LIBS") && opts == GetEnv(own, "LIBVOYEUR_OPTS")
                && Some(sockpath) == GetEnv(own, "LIBVOYEUR_SOCKET")
      ensures newenvp.Some? ==>
                && libs.Some? && opts.Some?
                && HoldsEnvironment(newenvp.value, Augment(envp, Vars(libs.value, opts.value, sockpath)))
      ensures newenvp.None? ==> Unused(created) && (old(sock) != null ==> old(sock).out == old(sock.out))
      ensures created != null ==> created.out.limit == old(created.out.limit)
      ensures old(sock) != null ==> old(sock).out.limit == old(sock.out.limit)
    {
      hide Augment, Stream, Message, ClientOptions, GetEnv;
      Lock();
      var ok := Init(own, created, createdFd);
      if !ok {
        return None;
      }
      newenvp := Launch(envp, accessible, e);
      if newenvp.Some? {
        locked := false;
      }
    }

    /** The destructor ends the socket's stream with DONE, closes the socket and forgets it. It crashes if libvoyeur-close
      does. */
    method Cleanup(closer: CloseLib) returns (crashed: bool)
      requires Valid() && closer.Valid() && closer.Free() && (sock != null ==> sock != closer.created)
      modifies this, sock, closer, closer.created
      ensures crashed == (old(initialized) && old(sock) != null && old(closer.Crashes()))
      ensures log == old(log)
      ensures old(sock) != null ==> old(sock).out.limit == old(sock.out.limit)
      ensures old(initialized) ==> Carries(old(sock), Written(old(Opts()), log, true))
      ensures !old(initialized) && old(sock) != null ==> old(sock).out == old(sock.out)
      ensures !crashed ==> Valid() && !initialized && (old(initialized) ==> sock == null)
      ensures !crashed ==>
                if old(initialized) && old(sock) != null then closer.MadeSome(old(closer.State()), old(sockFd)) else unchanged(closer)
    {
      crashed := false;
      Lock();
      if initialized {
        if sock != null {
          LastOne(sock.out.limit, Opts(), log);
          WriteDone(sock);
          crashed := closer.CloseSocket(sockFd);
          if crashed {
            return;
          }
          sock := null;
        }
        initialized := false;
      }
      locked := false;
    }
  }

  // ----- exit -----

  class ExitLib {
    var didExit: bool

    constructor ()
      ensures !didExit
    {
      didExit := false;
    }

    /** The first of the exit variants to be called reports the exit, with DONE, on a connection of its own and closes
      that; the others are silent. It crashes without LIBVOYEUR_SOCKET, and if libvoyeur-close does in closing. */
    method WriteExitEvent(own: Environment, created: Socket?, createdFd: int32, closer: CloseLib,
                          o: Options, status: int32, pid: int32, ppid: int32)
      returns (crashed: bool)
      requires Unused(created)
      requires closer.Valid() && closer.Free() && (created != null ==> created != closer.created)
      modifies this, created, closer, closer.created
      ensures didExit && (created != null ==> created.out.limit == old(created.out.limit))
      ensures crashed == (!old(didExit) &&
                            (GetEnv(own, SOCKET).None? || (created != null && old(closer.Crashes()))))
      ensures Carries(created, if old(didExit) || GetEnv(own, SOCKET).None? then []
                               else Written(o, [Exit(status, pid, ppid)], true))
      ensures !crashed ==>
                if !old(didExit) && created != null then closer.MadeSome(old(closer.State()), createdFd) else unchanged(closer)
    {
      crashed := false;
      var e := Exit(status, pid, ppid);
      if !didExit {
        didExit := true;
        if GetEnv(own, SOCKET).None? {
          return true;
        }
        if created != null {
          ghost var out := created.out;
          WriteHeader(created, e);
          WriteThree(created, status, pid, ppid);
          PutPut(out, Header(e), Payload(o, e));
          WriteDone(created);
          PutPut(out, Message(o, e), Done());
          StreamOne(o, e);
          PutOnUnused(out, Message(o, e) + Done());
          crashed := closer.CloseSocket(createdFd);
        }
      }
    }
  }

  // ----- open -----

  method WriteOpenEvent(s: Socket, o: Options, e: Event)
    requires e.Open?
    modifies s`out, s`schedule
    ensures s.out == Put(old(s.out), Message(o, e))
  {
    ghost var out := s.out;
    ghost var a, b := StrBytes(e.path), ThreeInts(e.oflag, ToSigned(SentMode(e.oflag, e.mode)), e.retval);
    ghost var c, d := BytesIf(Has(o.open, OBSERVE_OPEN_CWD), StrBytes(e.cwd)), IntBytes(e.pid);
    WriteHeader(s, e);
    ghost var start := s.out;
    var _ := WriteString(s, e.path, 0);
    var mode: int32 := 0;
    if Creates(e.oflag) {
      mode := ToSigned(e.mode);
    }
    WriteThree(s, e.oflag, mode, e.retval);
    PutPut(start, a, b);
    if Has(o.open, OBSERVE_OPEN_CWD) {
      var _ := WriteString(s, e.cwd, 0);
    } else {
      PutNothing(s.out);
    }
    PutPut(start, a + b, c);
    var _ := WriteInt(s, e.pid);
    PutPut(start, a + b + c, d);
    PutPut(out, Header(e), Payload(o, e));
  }

  /** The static state of libvoyeur-open. `log` is the list of events put on the current socket. */
  class OpenLib {
    var locked: bool
    var initialized: bool
    var options: bv8
    var sock: Socket?
    var sockFd: int32
    ghost var log: seq<Event>

    function Opts(): Options
      reads this
    {
      Options(0, 0, options, 0)
    }

    ghost predicate Valid()
      reads this, sock
    {
      !locked && (initialized ==> Carries(sock, Stream(Opts(), log)))
    }

    constructor ()
      ensures Valid() && !initialized
    {
      locked, initialized, options, sock, sockFd, log := false, false, 0, null, 0, [];
    }

    /** pthread_mutex_lock on a mutex that is not recursive: a second lock by its holder would never return. */
    method Lock()
      requires !locked
      modifies this`locked
      ensures locked
    {
      locked := true;
    }

    /** A call appends its event, complete, to the current socket, which is a new one if there was none. The first call
      crashes if there is no LIBVOYEUR_SOCKET. */
    method Open(own: Environment, e: Event, created: Socket?, createdFd: int32) returns (crashed: bool)
      requires Valid() && e.Open?
      requires Unused(created) && (created != null ==> created != sock)
      modifies this, sock, created
      ensures crashed == (!old(initialized) && GetEnv(own, SOCKET).None?)
      ensures !crashed ==> Valid() && initialized
      ensures old(initialized) ==>
                sock == old(sock) && sockFd == old(sockFd) && options == old(options) && log == old(log) + [e]
      ensures !crashed && !old(initialized) ==>
                && sock == created && sockFd == createdFd
                && options == DecodeOptions(GetEnv(own, OPTS), 2) && log == [e]
      ensures old(initialized) || crashed ==> Unused(created)
      ensures created != null ==> created.out.limit == old(created.out.limit)
      ensures old(sock) != null ==> old(sock).out.limit == old(sock.out.limit)
      ensures !old(initialized) && old(sock) != null ==> old(sock).out == old(sock.out)
    {
      crashed := false;
      Lock();
      if !initialized {
        options := DecodeOptions(GetEnv(own, OPTS), 2);
        if GetEnv(own, SOCKET).None? {
          return true;
        }
        sock, sockFd := created, createdFd;
        initialized := true;
        log := [];
      }
      if sock != null {
        OneMore(sock.out.limit, Opts(), log, e);
        WriteOpenEvent(sock, Opts(), e);
      }
      log := log + [e];
      locked := false;
    }

    /** The destructor ends the socket's stream with DONE, closes the socket and forgets it. It crashes if libvoyeur-close
      does. */
    method Cleanup(closer: CloseLib) returns (crashed: bool)
      requires Valid() && closer.Valid() && closer.Free() && (sock != null ==> sock != closer.created)
      modifies this, sock, closer, closer.created
      ensures crashed == (old(initialized) && old(sock) != null && old(closer.Crashes()))
      ensures log == old(log) && options == old(options)
      ensures old(sock) != null ==> old(sock).out.limit == old(sock.out.limit)
      ensures old(initialized) ==> Carries(old(sock), Written(old(Opts()), log, true))
      ensures !old(initialized) && old(sock) != null ==> old(sock).out == old(sock.out)
      ensures !crashed ==> Valid() && !initialized && (old(initialized) ==> sock == null)
      ensures !crashed ==>
                if old(initialized) && old(sock) != null then closer.MadeSome(old(closer.State()), old(sockFd)) else unchanged(closer)
    {
      crashed := false;
      Lock();
      if initialized {
        if sock != null {
          LastOne(sock.out.limit, Opts(), log);
          WriteDone(sock);
          crashed := closer.CloseSocket(sockFd);
          if crashed {
            return;
          }
          sock := null;
        }
        initialized := false;
      }
      locked := false;
    }
  }

  // ----- close -----

  method WriteCloseEvent(s: Socket, o: Options, e: Event)
    requires e.Close?
    modifies s`out, s`schedule
    ensures s.out == Put(old(s.out), Message(o, e))
  {
    ghost var out := s.out;
    WriteHeader(s, e);
    WriteThree(s, e.fildes, e.retval, e.pid);
    PutPut(out, Header(e), Payload(o, e));
  }

  /** One answer of the real close: its return value and whether errno is EINTR. */
  datatype CloseAnswer = CloseAnswer(retval: int32, interrupted: bool)

  /** What libvoyeur-close looks like at one time; `out` is what its socket has carried. */
  datatype CloseState = CloseState(initialized: bool, resolved: bool, finalized: bool, locked: bool, sock: Socket?,
                                   sockFd: int32, log: seq<Event>, ended: bool, out: Outgoing, closed: seq<int32>)

  /** From `s` to `s'` the real close has been called `n` times, each time on `fd`. If libvoyeur-close is `reporting`, each
    of these calls has become an event; otherwise nothing of it has changed. */
  predicate Closed(reporting: bool, s: CloseState, s': CloseState, fd: int32, n: nat) {
    && s'.finalized == s.finalized && s'.locked == s.locked
    && |s'.closed| == |s.closed| + n && s.closed <= s'.closed
    && (forall i :: |s.closed| <= i < |s'.closed| ==> s'.closed[i] == fd)
    && if reporting then
         && s'.initialized && |s'.log| == |s.log| + n && s.log <= s'.log
         && (forall i :: |s.log| <= i < |s'.log| ==> s'.log[i].Close? && s'.log[i].fildes == fd)
       else s' == s.(closed := s'.closed)
  }

  lemma ClosedMore(reporting: bool, s1: CloseState, s2: CloseState, s3: CloseState, fd: int32, m: nat, n: nat)
    requires Closed(reporting, s1, s2, fd, m) && Closed(reporting, s2, s3, fd, n)
    ensures Closed(reporting, s1, s3, fd, m + n)
  {
  }

  /** How the process closes descriptors, and the static state of libvoyeur-close if that is `loaded`. `resolved` tells
    whether the pointer to the real close has been looked up; `answers` are the results the real close will give (success
    when used up), `closed` what it was called with. `own` is the environment at the first call and `created` the socket
    made then. */
  class CloseLib {
    const loaded: bool
    const own: Environment
    const pid: int32
    const created: Socket?
    const createdFd: int32
    var locked: bool
    var initialized: bool
    var finalized: bool
    var resolved: bool
    var sock: Socket?
    var sockFd: int32
    var answers: seq<CloseAnswer>
    var closed: seq<int32>
    ghost var log: seq<Event>
    ghost var ended: bool     // DONE has been put on the socket

    function Opts(): Options {
      Options(0, 0, 0, 0)
    }

    ghost function State(): CloseState
      reads this, created
    {
      CloseState(initialized, resolved, finalized, locked, sock, sockFd, log, ended,
                 if created == null then Outgoing([], 0) else created.out, closed)
    }

    ghost predicate Valid()
      reads this, created
    {
      && (initialized ==>
            resolved && sock == created && sockFd == createdFd && Carries(created, Written(Opts(), log, ended)))
      && (ended ==> finalized) && (initialized && ended ==> locked)
      && (!finalized ==> (resolved <==> initialized))
      && (!resolved ==> log == [] && Unused(created))
    }

    /** A call would not wait for the mutex for ever. */
    predicate Free()
      reads this
    {
      loaded && !finalized ==> !locked
    }

    /** A call would crash: after finalization if the pointer to the real close was never looked up, before it if the
      library has still to be initialized and there is no LIBVOYEUR_SOCKET. */
    predicate Crashes()
      reads this
    {
      loaded && if finalized then !resolved else !initialized && GetEnv(own, SOCKET).None?
    }

    /** `fd` has been closed since `s`: by one call, or more if they were interrupted. */
    ghost predicate MadeSome(s: CloseState, fd: int32)
      reads this, created
    {
      |closed| > |s.closed| && Closed(loaded && !finalized, s, State(), fd, |closed| - |s.closed|)
    }

    constructor (loaded: bool, own: Environment, pid: int32, created: Socket?, createdFd: int32, answers: seq<CloseAnswer>)
      requires Unused(created)
      ensures Valid() && !locked && !initialized && !finalized && closed == []
      ensures this.loaded == loaded && this.own == own && this.pid == pid && this.created == created
      ensures this.createdFd == createdFd && this.answers == answers
    {
      this.loaded, this.own, this.pid, this.created, this.createdFd := loaded, own, pid, created, createdFd;
      locked, initialized, finalized, resolved := false, false, false, false;
      sock, sockFd, log, closed, ended := null, 0, [], [], false;
      this.answers := answers;
    }

    method Lock()
      requires !locked
      modifies this`locked
      ensures locked
    {
      locked := true;
    }

    /** The real close. */
    method RealClose(fildes: int32) returns (answer: CloseAnswer)
      modifies this`answers, this`closed
      ensures closed == old(closed) + [fildes]
      ensures old(answers) != [] ==> answer == old(answers)[0] && answers == old(answers)[1..]
      ensures old(answers) == [] ==> answer == CloseAnswer(0, false) && answers == []
    {
      closed := closed + [fildes];
      if answers == [] {
        answer := CloseAnswer(0, false);
      } else {
        answer, answers := answers[0], answers[1..];
      }
    }

    /** The call through the looked-up pointer. */
    method CallNext(fildes: int32) returns (answer: CloseAnswer)
      requires resolved
      modifies this`answers, this`closed
      ensures closed == old(closed) + [fildes]
      ensures old(answers) != [] ==> answer == old(answers)[0] && answers == old(answers)[1..]
      ensures old(answers) == [] ==> answer == CloseAnswer(0, false) && answers == []
    {
      answer := RealClose(fildes);
    }

    /** The first call connects to the server. It crashes (`!ok`) if there is no LIBVOYEUR_SOCKET. */
    method Init() returns (ok: bool)
      requires Valid() && locked && !finalized
      modifies this`initialized, this`resolved, this`sock, this`sockFd
      ensures Valid() && ok == (old(initialized) || GetEnv(own, SOCKET).Some?)
      ensures ok ==> initialized
      ensures !ok || old(initialized) ==> State() == old(State())
    {
      if !initialized {
        if GetEnv(own, SOCKET).None? {
          return false;
        }
        sock, sockFd := created, createdFd;
        resolved, initialized := true, true;
        NotEnded(Opts(), log);
      }
      return true;
    }

    /** Puts the event of a close on the socket. */
    method Report(fildes: int32, retval: int32)
      requires initialized && !ended && sock == created && Carries(created, Stream(Opts(), log))
      modifies this`log, created
      ensures Carries(created, Stream(Opts(), log))
      ensures log == old(log) + [Event.Close(fildes, retval, pid)]
      ensures created != null ==> created.out.limit == old(created.out.limit)
    {
      ghost var e := Event.Close(fildes, retval, pid);
      if sock != null {
        OneMore(sock.out.limit, Opts(), log, e);
        WriteCloseEvent(sock, Opts(), Event.Close(fildes, retval, pid));
      }
      log := log + [e];
    }

    /** The interposed close. After finalization it only forwards, without the mutex; that jumps through a NULL pointer
      exactly when the library was never initialized. Before, it appends one event to the socket; the first call crashes
      if there is no LIBVOYEUR_SOCKET. */
    method Close(fildes: int32) returns (crashed: bool, answer: CloseAnswer)
      requires Valid() && loaded && Free()
      modifies this, created
      ensures Valid() && crashed == old(Crashes())
      ensures crashed ==> State() == old(State()).(locked := locked) && answers == old(answers)
      ensures !crashed ==> Closed(!finalized, old(State()), State(), fildes, 1)
      ensures !crashed ==> answers == if old(answers) == [] then [] else old(answers)[1..]
      ensures !crashed && old(answers) == [] ==> !answer.interrupted
      ensures !crashed && !finalized ==> log == old(log) + [Event.Close(fildes, answer.retval, pid)]
      ensures created != null ==> created.out.limit == old(created.out.limit)
    {
      hide Stream, Message, Written, GetEnv;
      crashed := false;
      if finalized {
        if !resolved {
          return true, CloseAnswer(0, false);
        }
        answer := CallNext(fildes);
        return;
      }
      Lock();
      var ok := Init();
      if !ok {
        return true, CloseAnswer(0, false);
      }
      NotEnded(Opts(), log);
      answer := CallNext(fildes);
      Report(fildes, answer.retval);
      NotEnded(Opts(), log);
      locked := false;
    }

    /** close as any code of the process reaches it: through libvoyeur-close if that is loaded. */
    method AnyClose(fildes: int32) returns (crashed: bool, answer: CloseAnswer)
      requires Valid() && Free()
      modifies this, created
      ensures Valid() && crashed == old(Crashes())
      ensures crashed ==> State() == old(State()).(locked := locked)
      ensures !crashed ==> Closed(loaded && !finalized, old(State()), State(), fildes, 1)
      ensures !crashed ==> answers == if old(answers) == [] then [] else old(answers)[1..]
      ensures !crashed && old(answers) == [] ==> !answer.interrupted
    {
      if loaded {
        crashed, answer := Close(fildes);
      } else {
        crashed := false;
        answer := RealClose(fildes);
      }
    }

    /** voyeur_close_socket, as every library calls it: tries again as long as the close is interrupted. Called by
      libvoyeur-close's own destructor, which is finalized and holds the mutex, it takes no lock and writes nothing after
      DONE. */
    method CloseSocket(fd: int32) returns (crashed: bool)
      requires Valid() && Free()
      modifies this, created
      ensures Valid() && crashed == old(Crashes())
      ensures crashed ==> State() == old(State()).(locked := locked)
      ensures !crashed ==> MadeSome(old(State()), fd)
    {
      var answer;
      ghost var s, n := State(), 1;
      crashed, answer := AnyClose(fd);
      while !crashed && answer.retval < 0 && answer.interrupted
        invariant Valid() && crashed == old(Crashes())
        invariant crashed ==> State() == s.(locked := locked)
        invariant !crashed ==> n > 0 && Closed(loaded && !finalized, s, State(), fd, n)
        invariant !crashed ==> Free() && !Crashes()
        decreases |answers|, answer.interrupted
      {
        ghost var before := State();
        crashed, answer := AnyClose(fd);
        ClosedMore(loaded && !finalized, s, before, State(), fd, n, 1);
        n := n + 1;
      }
    }

    /** DONE ends the stream. */
    method WriteEnd()
      requires Valid() && locked && finalized && initialized && !ended && sock != null
      modifies this`ended, created
      ensures Valid() && ended && sock.out.limit == old(sock.out.limit)
    {
      hide Stream, Message;
      NotEnded(Opts(), log);
      LastOne(sock.out.limit, Opts(), log);
      WriteDone(sock);
      ended := true;
    }

    /** The destructor: DONE ends the stream, then the socket is closed through the interposed close, which neither waits
      for the mutex nor crashes. */
    method Cleanup()
      requires Valid() && loaded && !locked
      modifies this, created
      ensures Valid() && !locked && finalized && !initialized && resolved == old(resolved) && log == old(log)
      ensures old(initialized) ==> sock == null && Carries(old(sock), Written(Opts(), log, true))
      ensures created != null ==> created.out.limit == old(created.out.limit)
      ensures old(initialized) && old(sock) != null ==>
                && |closed| > |old(closed)| && old(closed) <= closed
                && forall i :: |old(closed)| <= i < |closed| ==> closed[i] == old(sockFd)
      ensures !(old(initialized) && old(sock) != null) ==> closed == old(closed)
    {
      hide Stream, Message, Written, GetEnv;
      Lock();
      finalized := true;
      if initialized {
        if sock != null {
          WriteEnd();
          var crashed := CloseSocket(sockFd);
          assert !crashed;
          sock := null;
        }
        initialized := false;
      }
      locked := false;
    }
  }
}
