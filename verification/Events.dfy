/** src/event.c, the decoders: taking one event off a connection and calling the user back; and `handle_message` of
  src/voyeur.c, which dispatches to them. */
module Events {
  import opened Wrappers
  import opened Bytes
  import opened Wire
  import opened Sessions
  import opened Net

  /** A callback made while serving connection `conn`. */
  datatype Call = Call(conn: nat, view: View)

  /** voyeur_context: per kind of event the options and whether a callback is registered. The user data pointers are
    not modelled; instead `calls` logs every callback with the connection being served. */
  class Context {
    var execOpts: bv8
    var exitOpts: bv8
    var openOpts: bv8
    var closeOpts: bv8
    var execCb: bool
    var exitCb: bool
    var openCb: bool
    var closeCb: bool
    var calls: seq<Call>

    function Cfg(): Config
      reads this
    {
      Config(Options(execOpts, exitOpts, openOpts, closeOpts), execCb, exitCb, openCb, closeCb)
    }

    constructor (cfg: Config)
      ensures Cfg() == cfg && calls == []
    {
      execOpts, exitOpts := cfg.options.exec, cfg.options.exit;
      openOpts, closeOpts := cfg.options.open, cfg.options.close;
      execCb, exitCb, openCb, closeCb := cfg.execCb, cfg.exitCb, cfg.openCb, cfg.closeCb;
      calls := [];
    }

    /** Calls the user back if a callback is registered for the event. */
    method Notify(conn: nat, registered: bool, view: View)
      modifies this`calls
      ensures calls == old(calls) + if registered then [Call(conn, view)] else []
    {
      if registered {
        calls := calls + [Call(conn, view)];
      } else {
        assert calls + [] == calls;
      }
    }
  }

  function Tagged(conn: nat, views: seq<View>): (calls: seq<Call>)
    ensures |calls| == |views|
    ensures forall i :: 0 <= i < |views| ==> calls[i] == Call(conn, views[i])
  {
    seq(|views|, i requires 0 <= i < |views| => Call(conn, views[i]))
  }

  /** The callbacks made while serving connection `conn`, in order. */
  function On(conn: nat, calls: seq<Call>): seq<View> {
    if calls == [] then [] else
    (if calls[0].conn == conn then [calls[0].view] else []) + On(conn, calls[1..])
  }

  lemma {:induction false} OnAppend(conn: nat, a: seq<Call>, b: seq<Call>)
    ensures On(conn, a + b) == On(conn, a) + On(conn, b)
  {
    if a == [] {
      assert a + b == b;
    } else {
      assert (a + b)[1..] == a[1..] + b && (a + b)[0] == a[0];
      OnAppend(conn, a[1..], b);
      Assoc(if a[0].conn == conn then [a[0].view] else [], On(conn, a[1..]), On(conn, b));
    }
  }

  lemma {:induction false} OnTagged(conn: nat, other: nat, views: seq<View>)
    ensures On(conn, Tagged(other, views)) == if other == conn then views else []
  {
    if views != [] {
      assert Tagged(other, views)[1..] == Tagged(other, views[1..]);
      OnTagged(conn, other, views[1..]);
      assert views == [views[0]] + views[1..];
    }
  }

  /** The log of callbacks after handling what was parsed from connection `conn`. */
  function AfterEvent(cfg: Config, calls: seq<Call>, conn: nat, p: Parse<View>): seq<Call> {
    if p.Got? then calls + Tagged(conn, Notified(cfg, p.value)) else calls
  }

  /** `acc` in front of the strings still to be read. */
  function Prepend(acc: seq<bytes>, p: Parse<seq<bytes>>): Parse<seq<bytes>> {
    if p.Short? then Short else Got(acc + p.value, p.rest)
  }

  lemma PrependNext(acc: seq<bytes>, n: int, b: bytes)
    requires n > 0 && TakeString(b).Got?
    ensures Prepend(acc, TakeStrings(n, b))
            == Prepend(acc + [TakeString(b).value], TakeStrings(n - 1, TakeString(b).rest))
  {
    var tail := TakeStrings(n - 1, TakeString(b).rest);
    if tail.Got? {
      Assoc(acc, [TakeString(b).value], tail.value);
    }
  }

  /** The loops of handle_exec. A negative count makes no iteration. */
  method ReadStrings(s: Socket, count: int32) returns (ok: bool, list: seq<bytes>)
    modifies s`pending, s`schedule
    ensures var p := TakeStrings(count, old(s.pending));
            ok == p.Got? && (ok ==> list == p.value) && s.pending == p.Left()
  {
    hide TakeString;
    ghost var p := TakeStrings(count, s.pending);
    list := [];
    assert p.Got? ==> [] + p.value == p.value;
    var i := 0;
    while i < count
      invariant i <= count || i == 0
      invariant p == Prepend(list, TakeStrings(count - i, s.pending))
    {
      ghost var b := s.pending;
      var str;
      ok, str := ReadString(s, 0);
      if !ok {
        return;
      }
      PrependNext(list, count - i, b);
      list := list + [str];
      i := i + 1;
    }
    assert list + [] == list;
    ok := true;
  }

  method ReadCounted(s: Socket) returns (ok: bool, list: seq<bytes>)
    modifies s`pending, s`schedule
    ensures var p := TakeCounted(old(s.pending));
            ok == p.Got? && (ok ==> list == p.value) && s.pending == p.Left()
  {
    list := [];
    var count;
    ok, count := ReadInt(s);
    if !ok {
      return;
    }
    ok, list := ReadStrings(s, count);
  }

  method ReadCountedIf(s: Socket, on: bool) returns (ok: bool, list: Option<seq<bytes>>)
    modifies s`pending, s`schedule
    ensures var p := TakeCountedIf(on, old(s.pending));
            ok == p.Got? && (ok ==> list == p.value) && s.pending == p.Left()
  {
    ok, list := true, None;
    if on {
      var l;
      ok, l := ReadCounted(s);
      list := Some(l);
    }
  }

  method ReadStringIf(s: Socket, on: bool) returns (ok: bool, str: Option<bytes>)
    modifies s`pending, s`schedule
    ensures var p := TakeStringIf(on, old(s.pending));
            ok == p.Got? && (ok ==> str == p.value) && s.pending == p.Left()
  {
    ok, str := true, None;
    if on {
      var v;
      ok, v := ReadString(s, 0);
      str := Some(v);
    }
  }

  method ReadTwo(s: Socket) returns (ok: bool, v: Two)
    modifies s`pending, s`schedule
    ensures var p := TakeTwo(old(s.pending));
            ok == p.Got? && (ok ==> v == p.value) && s.pending == p.Left()
  {
    v := Two(0, 0);
    var x, y;
    ok, x := ReadInt(s);
    if !ok { return; }
    ok, y := ReadInt(s);
    v := Two(x, y);
  }

  method ReadThree(s: Socket) returns (ok: bool, v: Three)
    modifies s`pending, s`schedule
    ensures var p := TakeThree(old(s.pending));
            ok == p.Got? && (ok ==> v == p.value) && s.pending == p.Left()
  {
    v := Three(0, 0, 0);
    var x, yz;
    ok, x := ReadInt(s);
    if !ok { return; }
    ok, yz := ReadTwo(s);
    v := Three(x, yz.a, yz.b);
  }

  /** The fields of an exec event that the server's own option bits announce. */
  method ReadExtra(ctx: Context, s: Socket) returns (ok: bool, v: Extra)
    modifies s`pending, s`schedule
    ensures var p := TakeExtra(ctx.Cfg().options, old(s.pending));
            ok == p.Got? && (ok ==> v == p.value) && s.pending == p.Left()
  {
    v := Extra(None, None, None);
    var envp, path, cwd;
    ok, envp := ReadCountedIf(s, Has(ctx.execOpts, OBSERVE_EXEC_ENV));
    if !ok { return; }
    ok, path := ReadStringIf(s, Has(ctx.execOpts, OBSERVE_EXEC_PATH));
    if !ok { return; }
    ok, cwd := ReadStringIf(s, Has(ctx.execOpts, OBSERVE_EXEC_CWD));
    v := Extra(envp, path, cwd);
  }

  method HandleExec(ctx: Context, s: Socket)
    modifies s`pending, s`schedule, ctx`calls
    ensures var p := TakeExec(ctx.Cfg().options, old(s.pending));
            && s.pending == p.Left()
            && ctx.calls == AfterEvent(ctx.Cfg(), old(ctx.calls), s.id, p)
            && ctx.calls == old(ctx.calls) + (if p.Got? && ctx.execCb then [Call(s.id, p.value)] else [])
            && (p.Got? ==>
                  && p.value.ExecSeen? && (p.value.envp.Some? <==> ctx.execOpts & 2 != 0)
                  && (p.value.pathVar.Some? <==> ctx.execOpts & 4 != 0) && (p.value.cwd.Some? <==> ctx.execOpts & 1 != 0))
  {
    hide TakeExec, PresentAsAsked;
    assert ctx.calls + [] == ctx.calls;
    var ok, view := ReadExec(ctx, s);
    if ok {
      ctx.Notify(s.id, ctx.execCb, view);
    }
  }

  /** The arguments of the callback, read field by field. */
  method ReadExec(ctx: Context, s: Socket) returns (ok: bool, view: View)
    modifies s`pending, s`schedule
    ensures var p := TakeExec(ctx.Cfg().options, old(s.pending));
            ok == p.Got? && (ok ==> view == p.value) && s.pending == p.Left()
    ensures ok ==>
              && view.ExecSeen? && (view.envp.Some? <==> ctx.execOpts & 2 != 0)
              && (view.pathVar.Some? <==> ctx.execOpts & 4 != 0) && (view.cwd.Some? <==> ctx.execOpts & 1 != 0)
  {
    ExecPresence(ctx.Cfg().options, s.pending);
    hide TakeString, TakeCounted, TakeExtra, TakeTwo;
    view := CloseSeen(0, 0, 0);
    var file, argv, extra, pids;
    ok, file := ReadString(s, 0);
    if !ok { return; }
    ok, argv := ReadCounted(s);
    if !ok { return; }
    ok, extra := ReadExtra(ctx, s);
    if !ok { return; }
    ok, pids := ReadTwo(s);
    if !ok { return; }
    view := ExecSeen(file, argv, extra.envp, extra.pathVar, extra.cwd, pids.a, pids.b);
  }

  method HandleExit(ctx: Context, s: Socket)
    modifies s`pending, s`schedule, ctx`calls
    ensures var p := TakeExit(old(s.pending));
            && s.pending == p.Left()
            && ctx.calls == AfterEvent(ctx.Cfg(), old(ctx.calls), s.id, p)
            && ctx.calls == old(ctx.calls) + (if p.Got? && ctx.exitCb then [Call(s.id, p.value)] else [])
            && (p.Got? ==> p.value.ExitSeen?)
  {
    assert ctx.calls + [] == ctx.calls;
    var ok, ints := ReadThree(s);
    if !ok { return; }
    ctx.Notify(s.id, ctx.exitCb, ExitSeen(ints.a, ints.b, ints.c));
  }

  method HandleOpen(ctx: Context, s: Socket)
    modifies s`pending, s`schedule, ctx`calls
    ensures var p := TakeOpen(ctx.Cfg().options, old(s.pending));
            && s.pending == p.Left()
            && ctx.calls == AfterEvent(ctx.Cfg(), old(ctx.calls), s.id, p)
            && ctx.calls == old(ctx.calls) + (if p.Got? && ctx.openCb then [Call(s.id, p.value)] else [])
            && (p.Got? ==> p.value.OpenSeen? && (p.value.cwd.Some? <==> ctx.openOpts & 1 != 0))
  {
    hide TakeOpen, PresentAsAsked;
    assert ctx.calls + [] == ctx.calls;
    var ok, view := ReadOpen(ctx, s);
    if ok {
      ctx.Notify(s.id, ctx.openCb, view);
    }
  }

  method ReadOpen(ctx: Context, s: Socket) returns (ok: bool, view: View)
    modifies s`pending, s`schedule
    ensures var p := TakeOpen(ctx.Cfg().options, old(s.pending));
            ok == p.Got? && (ok ==> view == p.value) && s.pending == p.Left()
    ensures ok ==> view.OpenSeen? && (view.cwd.Some? <==> ctx.openOpts & 1 != 0)
  {
    OpenPresence(ctx.Cfg().options, s.pending);
    hide TakeString, TakeThree, TakeStringIf, TakeInt;
    view := CloseSeen(0, 0, 0);
    var path, ints, cwd, pid;
    ok, path := ReadString(s, 0);
    if !ok { return; }
    ok, ints := ReadThree(s);
    if !ok { return; }
    ok, cwd := ReadStringIf(s, Has(ctx.openOpts, OBSERVE_OPEN_CWD));
    if !ok { return; }
    ok, pid := ReadInt(s);
    if !ok { return; }
    view := OpenSeen(path, ints.a, ToUnsigned(ints.b), cwd, ints.c, pid);
  }

  method HandleClose(ctx: Context, s: Socket)
    modifies s`pending, s`schedule, ctx`calls
    ensures var p := TakeClose(old(s.pending));
            && s.pending == p.Left()
            && ctx.calls == AfterEvent(ctx.Cfg(), old(ctx.calls), s.id, p)
            && ctx.calls == old(ctx.calls) + (if p.Got? && ctx.closeCb then [Call(s.id, p.value)] else [])
            && (p.Got? ==> p.value.CloseSeen?)
  {
    assert ctx.calls + [] == ctx.calls;
    var ok, ints := ReadThree(s);
    if !ok { return; }
    ctx.Notify(s.id, ctx.closeCb, CloseSeen(ints.a, ints.b, ints.c));
  }

  /** One round on a connection: exactly the message at its front is consumed, exactly its callback is made. */
  method ServeMessage(ctx: Context, s: Socket) returns (keep: bool)
    modifies s`pending, s`schedule, ctx`calls
    ensures var reply := HandleMessage(ctx.Cfg(), old(s.pending));
            && keep == reply.keep
            && s.pending == reply.rest
            && ctx.calls == old(ctx.calls) + Tagged(s.id, reply.calls)
  {
    assert ctx.calls + [] == ctx.calls;
    var ok, msgtype := ReadInt(s);
    if !ok {
      return false;
    }
    if msgtype == MSG_DONE {
      return false;
    } else if msgtype == MSG_EVENT {
      var kind;
      ok, kind := ReadInt(s);
      if !ok {
        return false;
      }
      if kind == EVENT_EXEC {
        HandleExec(ctx, s);
      } else if kind == EVENT_EXIT {
        HandleExit(ctx, s);
      } else if kind == EVENT_OPEN {
        HandleOpen(ctx, s);
      } else if kind == EVENT_CLOSE {
        HandleClose(ctx, s);
      }
      return true;
    } else {
      return false;
    }
  }
}
