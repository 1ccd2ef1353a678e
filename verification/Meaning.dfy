/** What the user of the library is told, in terms of the public interface: for every call of an observed process, which
  callback is made and with which arguments. The statements name the options and constants of include/voyeur.h,
  src/event.h and src/net.h by their numbers and the callbacks by the fields of the context. */
module Meaning {
  import opened Wrappers
  import opened Bytes
  import opened Wire
  import opened Sessions

  // ----- One message -----

  /** An exec: strings of at most 4096 bytes, NULL as empty; the environment, PATH and the working directory exactly if
    the server's exec options have bit 2, 4 and 1. */
  lemma ExecMeaning(cfg: Config, client: Options, e: Event, rest: bytes)
    requires Agree(client, cfg.options) && e.Exec?
    ensures var r := HandleMessage(cfg, Message(client, e) + rest);
            && r.keep && r.rest == rest && |r.calls| == (if cfg.execCb then 1 else 0)
            && (cfg.execCb ==>
                  && r.calls[0].ExecSeen?
                  && var v := r.calls[0];
                     && (if e.path.None? then v.file == []
                         else v.file <= e.path.value && |v.file| == if |e.path.value| < 4096 then |e.path.value| else 4096)
                     && |v.argv| == |e.argv|
                     && (forall i :: 0 <= i < |v.argv| ==>
                           v.argv[i] <= e.argv[i] && |v.argv[i]| == if |e.argv[i]| < 4096 then |e.argv[i]| else 4096)
                     && v.pid == e.pid && v.ppid == e.ppid)
    ensures var r := HandleMessage(cfg, Message(client, e) + rest);
            cfg.execCb ==>
              && |r.calls| == 1 && r.calls[0].ExecSeen?
              && var v := r.calls[0];
                 && (v.envp.Some? <==> cfg.options.exec & 2 != 0)
                 && (v.envp.Some? ==>
                       && |v.envp.value| == |e.envp|
                       && forall i :: 0 <= i < |e.envp| ==>
                            && v.envp.value[i] <= e.envp[i]
                            && |v.envp.value[i]| == if |e.envp[i]| < 4096 then |e.envp[i]| else 4096)
                 && (v.pathVar.Some? <==> cfg.options.exec & 4 != 0)
                 && (v.pathVar.Some? ==>
                       if e.pathVar.None? then v.pathVar.value == [] else
                       && v.pathVar.value <= e.pathVar.value
                       && |v.pathVar.value| == if |e.pathVar.value| < 4096 then |e.pathVar.value| else 4096)
                 && (v.cwd.Some? <==> cfg.options.exec & 1 != 0)
                 && (v.cwd.Some? ==>
                       if e.cwd.None? then v.cwd.value == [] else
                       && v.cwd.value <= e.cwd.value
                       && |v.cwd.value| == if |e.cwd.value| < 4096 then |e.cwd.value| else 4096)
  {
    MessageTaken(client, cfg.options, e, rest);
    hide Message, TakeMessage;
    assert HandleMessage(cfg, Message(client, e) + rest) == Reply(true, Notified(cfg, ViewOf(client, e)), rest);
  }

  /** An exit. */
  lemma ExitMeaning(cfg: Config, client: Options, e: Event, rest: bytes)
    requires Agree(client, cfg.options) && e.Exit?
    ensures HandleMessage(cfg, Message(client, e) + rest)
            == Reply(true, if cfg.exitCb then [ExitSeen(e.status, e.pid, e.ppid)] else [], rest)
  {
    MessageTaken(client, cfg.options, e, rest);
    hide Message, TakeMessage;
  }

  /** Bit 6 of an integer, seen from the other side. */
  lemma BitSix(oflag: int32)
    ensures Creates(oflag) <==> oflag % 128 >= 64
  {
    assert oflag == 128 * (oflag / 128) + oflag % 128;
    assert oflag / 64 == 2 * (oflag / 128) + (oflag % 128) / 64;
  }

  /** An open: the mode if O_CREAT, bit 64 of the flags, is set, and 0 otherwise; the working directory exactly if the
    server's open options have bit 1. */
  lemma OpenMeaning(cfg: Config, client: Options, e: Event, rest: bytes)
    requires Agree(client, cfg.options) && e.Open?
    ensures var r := HandleMessage(cfg, Message(client, e) + rest);
            && r.keep && r.rest == rest && |r.calls| == (if cfg.openCb then 1 else 0)
            && (cfg.openCb ==>
                  && r.calls[0].OpenSeen?
                  && var v := r.calls[0];
                     && (if e.path.None? then v.path == []
                         else v.path <= e.path.value && |v.path| == if |e.path.value| < 4096 then |e.path.value| else 4096)
                     && v.oflag == e.oflag && v.mode == (if e.oflag % 128 >= 64 then e.mode else 0)
                     && v.retval == e.retval && v.pid == e.pid
                     && (v.cwd.Some? <==> cfg.options.open & 1 != 0)
                     && (v.cwd.Some? ==>
                           if e.cwd.None? then v.cwd.value == [] else
                           && v.cwd.value <= e.cwd.value
                           && |v.cwd.value| == if |e.cwd.value| < 4096 then |e.cwd.value| else 4096))
  {
    MessageTaken(client, cfg.options, e, rest);
    BitSix(e.oflag);
    hide Message, TakeMessage, Creates;
    assert HandleMessage(cfg, Message(client, e) + rest) == Reply(true, Notified(cfg, ViewOf(client, e)), rest);
  }

  /** A close. */
  lemma CloseMeaning(cfg: Config, client: Options, e: Event, rest: bytes)
    requires Agree(client, cfg.options) && e.Close?
    ensures HandleMessage(cfg, Message(client, e) + rest)
            == Reply(true, if cfg.closeCb then [CloseSeen(e.fildes, e.retval, e.pid)] else [], rest)
  {
    MessageTaken(client, cfg.options, e, rest);
    hide Message, TakeMessage;
  }

  /** The header of a message is its type and the number of its event: 0 for an event, 1 for DONE; 0 to 3 for exec, exit,
    open and close. */
  lemma Headers(o: Options, e: Event)
    ensures Message(o, e)[..4] == IntBytes(0) && IntBytes(0) == [0, 0, 0, 0]
    ensures Message(o, e)[4..8]
            == IntBytes(if e.Exec? then 0 else if e.Exit? then 1 else if e.Open? then 2 else 3)
    ensures Done() == IntBytes(1) && IntBytes(1) == [1, 0, 0, 0]
  {
    IntLayout(0);
    IntLayout(1);
    assert (Header(e) + Payload(o, e))[..4] == Header(e)[..4] == IntBytes(MSG_EVENT);
    assert (Header(e) + Payload(o, e))[4..8] == Header(e)[4..] == IntBytes(EventType(e));
  }

  /** A message or event of an unknown type makes no callback; for the former the connection is closed. */
  lemma UnknownTypes(cfg: Config, kind: int32, rest: bytes)
    ensures kind != 0 && kind != 1 ==> HandleMessage(cfg, IntBytes(kind) + rest) == Reply(false, [], rest)
    ensures kind < 0 || kind > 3 ==> HandleMessage(cfg, IntBytes(0) + (IntBytes(kind) + rest)) == Reply(true, [], rest)
    ensures HandleMessage(cfg, IntBytes(1) + rest) == Reply(false, [], rest)
  {
    IntTaken(kind, rest);
    IntTaken(1, rest);
    IntTaken(0, IntBytes(kind) + rest);
  }

  // ----- Whole streams -----

  /** With all four callbacks registered, every event is called back, in order, with the arguments given above. */
  lemma {:induction false} EveryEventCalledBack(cfg: Config, client: Options, events: seq<Event>)
    requires Agree(client, cfg.options) && cfg.execCb && cfg.exitCb && cfg.openCb && cfg.closeCb
    ensures var s := Session(cfg, Written(client, events, true));
            && |s| == |events|
            && forall k :: 0 <= k < |events| ==>
                 && HandleMessage(cfg, Message(client, events[k])).calls == [s[k]]
                 && (events[k].Exec? <==> s[k].ExecSeen?) && (events[k].Exit? <==> s[k].ExitSeen?)
                 && (events[k].Open? <==> s[k].OpenSeen?) && (events[k].Close? <==> s[k].CloseSeen?)
  {
    hide Message, HandleMessage;
    if events == [] {
      NothingToReport(cfg, client);
    } else {
      var e, tail := events[0], events[1..];
      WrittenFirst(client, events, true);
      EventThenRest(cfg, client, e, Written(client, tail, true));
      EventThenRest(cfg, client, e, []);
      assert Message(client, e) + [] == Message(client, e);
      EveryEventCalledBack(cfg, client, tail);
      forall k | 0 <= k < |events|
        ensures var s := Session(cfg, Written(client, events, true));
                && |s| == |events| && HandleMessage(cfg, Message(client, events[k])).calls == [s[k]]
                && (events[k].Exec? <==> s[k].ExecSeen?) && (events[k].Exit? <==> s[k].ExitSeen?)
                && (events[k].Open? <==> s[k].OpenSeen?) && (events[k].Close? <==> s[k].CloseSeen?)
      {
        assert k > 0 ==> events[k] == tail[k - 1];
      }
    }
  }

  lemma NothingToReport(cfg: Config, client: Options)
    ensures Session(cfg, Written(client, [], true)) == []
  {
    assert [] + Done() == Done() && Done() + [] == Done();
    DoneTaken(cfg.options, []);
  }

  /** The calls of the registered kinds among `views`. */
  function Kept(views: seq<View>, exec: bool, exit: bool, open: bool, close: bool): seq<View> {
    if views == [] then [] else
    var v := views[0];
    (if (v.ExecSeen? && exec) || (v.ExitSeen? && exit) || (v.OpenSeen? && open) || (v.CloseSeen? && close) then [v] else [])
    + Kept(views[1..], exec, exit, open, close)
  }

  /** With other callbacks registered, exactly those events are called back, as before. */
  lemma {:induction false} RegisteredKindsOnly(cfg: Config, client: Options, events: seq<Event>)
    requires Agree(client, cfg.options)
    ensures var all := Config(cfg.options, true, true, true, true);
            Session(cfg, Written(client, events, true))
            == Kept(Session(all, Written(client, events, true)), cfg.execCb, cfg.exitCb, cfg.openCb, cfg.closeCb)
  {
    hide Message, HandleMessage;
    var all := Config(cfg.options, true, true, true, true);
    if events == [] {
      NothingToReport(cfg, client);
      NothingToReport(all, client);
    } else {
      var e, tail := events[0], events[1..];
      WrittenFirst(client, events, true);
      EventThenRest(cfg, client, e, Written(client, tail, true));
      EventThenRest(all, client, e, Written(client, tail, true));
      RegisteredKindsOnly(cfg, client, tail);
      var v := ViewOf(client, e);
      assert ([v] + Session(all, Written(client, tail, true)))[1..] == Session(all, Written(client, tail, true));
    }
  }

  /** Whatever is called back was asked for: the kind is registered, and the optional arguments are there exactly if the
    options say so. */
  lemma {:induction false} OnlyWhatWasAsked(cfg: Config, o: Options, events: seq<Event>)
    requires Agree(o, cfg.options)
    ensures forall v :: v in Reports(cfg, o, events) ==>
              && (v.ExecSeen? ==>
                    && cfg.execCb && (v.envp.Some? <==> cfg.options.exec & 2 != 0)
                    && (v.pathVar.Some? <==> cfg.options.exec & 4 != 0) && (v.cwd.Some? <==> cfg.options.exec & 1 != 0))
              && (v.ExitSeen? ==> cfg.exitCb)
              && (v.OpenSeen? ==> cfg.openCb && (v.cwd.Some? <==> cfg.options.open & 1 != 0))
              && (v.CloseSeen? ==> cfg.closeCb)
  {
    if events != [] {
      OnlyWhatWasAsked(cfg, o, events[1..]);
    }
  }

  /** The reports of a list of events are the callbacks of their messages, one after the other. */
  lemma {:induction false} ReportsAreCallbacks(cfg: Config, o: Options, events: seq<Event>, k: nat)
    requires Agree(o, cfg.options) && k < |events|
    ensures Reports(cfg, o, events[..k + 1])
            == Reports(cfg, o, events[..k]) + HandleMessage(cfg, Message(o, events[k])).calls
  {
    hide Message, HandleMessage;
    assert events[..k + 1] == events[..k] + [events[k]];
    ReportsAppend(cfg, o, events[..k], [events[k]]);
    EventThenRest(cfg, o, events[k], []);
    assert Message(o, events[k]) + [] == Message(o, events[k]);
    assert Reports(cfg, o, [events[k]]) == Notified(cfg, ViewOf(o, events[k])) + [];
  }
}
