/** The whole system: any number of processes with any number of threads, their interposer libraries, the kernel and the
  server, under every interleaving and every splitting of sends and reads.

  A one-shot connection (execve, exit) is a library that is used once and destroyed. The server may turn to any accepted
  connection whenever it is not in the middle of a message; module Server shows which ones it does turn to. It reads byte
  by byte: a read of several bytes is several such steps in a row. */
module System {
  import opened Wrappers
  import opened Bytes
  import opened Wire
  import opened CStrings
  import opened Sessions
  import opened Settings
  import opened Env
  import opened Propagation
  import T = Threads

  /** Names a connection: a library and one of its sockets. */
  datatype Id = Id(lib: nat, sock: nat)

  /** Why the server is done with a connection: it read DONE, it read the end (or an error), or it closed the connection
    without reading, because the child had exited or select reported a failure. */
  datatype Fate = Live | AtDone | AtEnd | Abandoned

  /** The server's side of a connection. `read` are the complete messages consumed, `count` how many of them were events,
    `got` the bytes of the message being read. After `cut` a handler has given up in the middle of a message. */
  datatype Conn = Conn(read: bytes, got: bytes, count: nat, seen: seq<View>, cut: bool, fate: Fate)

  datatype System = System(cfg: Config, libs: seq<T.Lib>, conns: map<Id, Conn>, busy: Option<Id>, running: bool)

  datatype Action =
    | Launch(guarded: bool, own: Environment)  // a library is loaded into a process with this environment, whatever it is
    | Act(lib: nat, action: T.Action)
    | Accept(id: Id)
    | Read(id: Id)
    | End(id: Id)                              // a read reports end of file or an error
    | Drop(id: Id)                             // select reports a failure of the connection
    | Stop                                     // the child has exited: close the stragglers

  function Initial(cfg: Config): System {
    System(cfg, [], map[], None, true)
  }

  predicate Exists(sys: System, id: Id) {
    id.lib < |sys.libs| && id.sock < |sys.libs[id.lib].socks|
  }

  function SockOf(sys: System, id: Id): T.Sock
    requires Exists(sys, id)
  {
    sys.libs[id.lib].socks[id.sock]
  }

  /** The server can work on this connection: it is open and no other message is being read. */
  predicate Ready(sys: System, id: Id) {
    && sys.running && id in sys.conns && sys.conns[id].fate.Live? && Exists(sys, id)
    && (sys.busy == None || sys.busy == Some(id))
  }

  function DoLaunch(sys: System, guarded: bool, own: Environment): System {
    sys.(libs := sys.libs + [T.Fresh(guarded, ClientOptions(GetEnv(own, OPTS)))])
  }

  function DoAct(sys: System, i: nat, a: T.Action): System {
    if i < |sys.libs| then sys.(libs := sys.libs[i := T.Step(sys.libs[i], a)]) else sys
  }

  function DoAccept(sys: System, id: Id): System {
    if sys.running && Exists(sys, id) && id !in sys.conns then
      sys.(conns := sys.conns[id := Conn([], [], 0, [], false, Live)])
    else sys
  }

  /** One more byte of the message in progress; when it is complete, the callback and the next message, or closing. */
  function Consume(cfg: Config, c: Conn, x: byte): Conn {
    var got := c.got + [x];
    match TakeMessage(cfg.options, got)
    case Short => c.(got := got)
    case Got(Seen(view), _) =>
      c.(read := c.read + got, got := [], count := c.count + 1, seen := c.seen + Notified(cfg, view))
    case Got(Finished, _) => c.(read := c.read + got, got := [], fate := AtDone)
    case Got(Strange, _) => c.(read := c.read + got, got := [])
    case Got(Unknown, _) => c.(read := c.read + got, got := [], fate := AtEnd)
  }

  /** There is a byte to read on this connection. */
  predicate Readable(sys: System, id: Id) {
    && Ready(sys, id) && !sys.conns[id].cut
    && |sys.conns[id].read| + |sys.conns[id].got| < |SockOf(sys, id).sent|
  }

  function AfterByte(sys: System, id: Id): Conn
    requires Readable(sys, id)
  {
    var c := sys.conns[id];
    Consume(sys.cfg, c, SockOf(sys, id).sent[|c.read| + |c.got|])
  }

  function DoRead(sys: System, id: Id): System {
    if !Readable(sys, id) then sys
    else
      var c := AfterByte(sys, id);
      sys.(conns := sys.conns[id := c], busy := if c.got == [] then None else Some(id))
  }

  /** The connection has ended: closed or its process gone, and everything read; or broken. */
  predicate Ended(l: T.Lib, s: T.Sock, c: Conn) {
    s.broken || ((s.shut || !l.alive) && |c.read| + |c.got| == |s.sent|)
  }

  /** Inside the header the failing read closes the connection; later it only makes the handler give up, and the next
    read closes it. */
  function DoEnd(sys: System, id: Id): System {
    if !Ready(sys, id) || !Ended(sys.libs[id.lib], SockOf(sys, id), sys.conns[id]) then sys
    else
      var c := sys.conns[id];
      var c' := if |c.got| >= 8 && !c.cut then c.(cut := true) else c.(fate := AtEnd);
      sys.(conns := sys.conns[id := c'], busy := None)
  }

  function DoDrop(sys: System, id: Id): System {
    if sys.running && sys.busy == None && id in sys.conns && sys.conns[id].fate.Live? then
      sys.(conns := sys.conns[id := sys.conns[id].(fate := Abandoned)])
    else sys
  }

  function DoStop(sys: System): System {
    if sys.busy.Some? then sys else
    sys.(running := false,
         conns := map id | id in sys.conns ::
           if sys.conns[id].fate.Live? then sys.conns[id].(fate := Abandoned) else sys.conns[id])
  }

  function Step(sys: System, a: Action): System {
    match a
    case Launch(guarded, own) => DoLaunch(sys, guarded, own)
    case Act(i, action) => DoAct(sys, i, action)
    case Accept(id) => DoAccept(sys, id)
    case Read(id) => DoRead(sys, id)
    case End(id) => DoEnd(sys, id)
    case Drop(id) => DoDrop(sys, id)
    case Stop => DoStop(sys)
  }

  function Run(sys: System, actions: seq<Action>): System {
    if actions == [] then sys else Step(Run(sys, actions[..|actions| - 1]), actions[|actions| - 1])
  }

  // ----- Invariant -----

  ghost predicate LibOk(l: T.Lib) {
    T.Inv(l) && T.OnlyReportable(l)
  }

  /** What the server has made of a connection, against what its library has put there. */
  predicate ConnOk(cfg: Config, l: T.Lib, s: T.Sock, c: Conn) {
    && c.read + c.got <= s.sent
    && c.count <= |s.log|
    && c.seen == Reports(cfg, l.options, s.log[..c.count])
    && (if c.fate.AtDone? then
          c.count == |s.log| && s.finished && c.got == [] && c.read == Written(l.options, s.log, true)
        else
          c.read == Stream(l.options, s.log[..c.count]) && TakeMessage(cfg.options, c.got).Short?)
    && (c.cut || c.fate.AtEnd? ==> Ended(l, s, c))
  }

  /** The library and the server agree on the format: the only thing about a process's environment that matters. */
  predicate Agreeing(sys: System, i: nat) {
    i < |sys.libs| && Agree(sys.libs[i].options, sys.cfg.options)
  }

  ghost predicate SysOk(sys: System) {
    && (forall i :: 0 <= i < |sys.libs| ==> LibOk(sys.libs[i]))
    && (forall id :: id in sys.conns ==> Exists(sys, id) && (Agreeing(sys, id.lib) ==> BooksOk(sys, id)))
  }

  predicate BooksOk(sys: System, id: Id)
    requires id in sys.conns && Exists(sys, id)
  {
    ConnOk(sys.cfg, sys.libs[id.lib], SockOf(sys, id), sys.conns[id])
  }

  lemma SentIsIntended(l: T.Lib, j: nat)
    requires LibOk(l) && j < |l.socks|
    ensures l.socks[j].sent <= Written(l.options, l.socks[j].log, l.socks[j].finished)
  {
    assert T.SockOk(l, j);
  }

  lemma WrittenSplit(o: Options, log: seq<Event>, k: nat, finished: bool)
    requires k <= |log|
    ensures Written(o, log, finished) == Stream(o, log[..k]) + Written(o, log[k..], finished)
  {
    assert log == log[..k] + log[k..];
    StreamAppend(o, log[..k], log[k..]);
    Assoc(Stream(o, log[..k]), Stream(o, log[k..]), BytesIf(finished, Done()));
  }

  lemma PrefixAfter<A>(a: seq<A>, b: seq<A>, c: seq<A>)
    requires a + b <= a + c
    ensures b <= c
  {
    assert (a + b)[|a|..] == b && (a + c)[|a|..] == c;
    assert a + b == (a + c)[..|a| + |b|];
    assert b == c[..|b|];
  }

  lemma PrefixTrans<A>(a: seq<A>, b: seq<A>, c: seq<A>)
    requires a <= b && b <= c
    ensures a <= c
  {
  }

  /** The bytes of the message in progress are the start of what the writer wrote after the consumed messages. */
  lemma GotIsNext(l: T.Lib, j: nat, k: nat, got: bytes)
    requires LibOk(l) && j < |l.socks| && k <= |l.socks[j].log|
    requires Stream(l.options, l.socks[j].log[..k]) + got <= l.socks[j].sent
    ensures got <= Written(l.options, l.socks[j].log[k..], l.socks[j].finished)
  {
    var s := l.socks[j];
    SentIsIntended(l, j);
    WrittenSplit(l.options, s.log, k, s.finished);
    PrefixTrans(Stream(l.options, s.log[..k]) + got, s.sent, Written(l.options, s.log, s.finished));
    PrefixAfter(Stream(l.options, s.log[..k]), got, Written(l.options, s.log[k..], s.finished));
  }

  /** One byte more than an incomplete message is incomplete, or exactly the next event, or exactly DONE. */
  lemma NextByte(cfg: Config, o: Options, rest: seq<Event>, finished: bool, got: bytes, x: byte)
    requires Agree(o, cfg.options)
    requires TakeMessage(cfg.options, got).Short? && got + [x] <= Written(o, rest, finished)
    ensures var p := TakeMessage(cfg.options, got + [x]);
            || p.Short?
            || (rest != [] && got + [x] == Message(o, rest[0]) && p == Got(Seen(ViewOf(o, rest[0])), []))
            || (rest == [] && finished && got + [x] == Done() && p == Got(Finished, []))
  {
    var got' := got + [x];
    if rest == [] {
      assert [] + BytesIf(finished, Done()) == BytesIf(finished, Done());
      if |got'| < 4 {
        CutDoneIsShort(cfg.options, got');
      } else {
        assert got' == Done();
        DoneTaken(cfg.options, []);
        assert Done() + [] == Done();
      }
    } else {
      var m := Message(o, rest[0]);
      WrittenFirst(o, rest, finished);
      SplitPrefix(got', m, Written(o, rest[1..], finished));
      if |got'| < |m| {
        ProperPrefixIsShort(o, cfg.options, rest[0], got');
      } else {
        NotTooFar(cfg, o, rest[0], got, x);
      }
    }
  }

  lemma NotTooFar(cfg: Config, o: Options, e: Event, got: bytes, x: byte)
    requires Agree(o, cfg.options) && TakeMessage(cfg.options, got).Short?
    requires |got| + 1 >= |Message(o, e)| && got + [x] == Message(o, e) + (got + [x])[|Message(o, e)|..]
    ensures got + [x] == Message(o, e)
    ensures TakeMessage(cfg.options, got + [x]) == Got(Seen(ViewOf(o, e)), [])
  {
    hide Message, TakeMessage;
    var m, got' := Message(o, e), got + [x];
    var more := got'[|m|..];
    MessageTaken(o, cfg.options, e, []);
    assert m + [] == m;
    if more != [] {
      assert got == got'[..|got|] == m + more[..|more| - 1];
      MessageTaken(o, cfg.options, e, more[..|more| - 1]);
    }
  }

  lemma EventConsumed(cfg: Config, o: Options, log: seq<Event>, k: nat)
    requires k < |log|
    ensures Stream(o, log[..k + 1]) == Stream(o, log[..k]) + Message(o, log[k])
    ensures Reports(cfg, o, log[..k + 1]) == Reports(cfg, o, log[..k]) + Notified(cfg, ViewOf(o, log[k]))
  {
    assert log[..k + 1] == log[..k] + [log[k]];
    StreamSnoc(o, log[..k], log[k]);
    ReportsAppend(cfg, o, log[..k], [log[k]]);
    assert Reports(cfg, o, [log[k]]) == Notified(cfg, ViewOf(o, log[k])) + [];
  }

  function WithEvent(cfg: Config, o: Options, c: Conn, e: Event, got: bytes): Conn {
    c.(read := c.read + got, got := [], count := c.count + 1, seen := c.seen + Notified(cfg, ViewOf(o, e)))
  }

  lemma ConsumedEvent(cfg: Config, l: T.Lib, s: T.Sock, c: Conn, got: bytes)
    requires ConnOk(cfg, l, s, c) && c.fate.Live? && !c.cut && c.count < |s.log|
    requires c.read + got <= s.sent && got == Message(l.options, s.log[c.count])
    ensures ConnOk(cfg, l, s, WithEvent(cfg, l.options, c, s.log[c.count], got))
  {
    hide Message;
    EventConsumed(cfg, l.options, s.log, c.count);
    assert c.read + got + [] == c.read + got;
  }

  lemma ConsumedDone(cfg: Config, l: T.Lib, s: T.Sock, c: Conn, x: byte)
    requires ConnOk(cfg, l, s, c) && c.fate.Live? && !c.cut && c.count == |s.log| && s.finished
    requires c.read + (c.got + [x]) <= s.sent && c.got + [x] == Done()
    requires TakeMessage(cfg.options, c.got + [x]) == Got(Finished, [])
    ensures ConnOk(cfg, l, s, Consume(cfg, c, x))
  {
    assert s.log[..c.count] == s.log;
    assert c.read + Done() + [] == c.read + Done();
  }

  /** Consuming a byte keeps the connection's books; a message of a library closes it only when that message is DONE. */
  lemma ConsumeKeeps(cfg: Config, l: T.Lib, j: nat, c: Conn)
    requires LibOk(l) && j < |l.socks| && ConnOk(cfg, l, l.socks[j], c)
    requires Agree(l.options, cfg.options)
    requires c.fate.Live? && !c.cut && |c.read| + |c.got| < |l.socks[j].sent|
    ensures var c' := Consume(cfg, c, l.socks[j].sent[|c.read| + |c.got|]);
            ConnOk(cfg, l, l.socks[j], c') && (c'.fate.Live? || c'.fate.AtDone?)
  {
    hide TakeMessage, Message, Stream, Reports;
    var s, o := l.socks[j], l.options;
    var x := s.sent[|c.read| + |c.got|];
    assert (c.read + c.got) + [x] <= s.sent;
    Assoc(c.read, c.got, [x]);
    GotIsNext(l, j, c.count, c.got + [x]);
    NextByte(cfg, o, s.log[c.count..], s.finished, c.got, x);
    if TakeMessage(cfg.options, c.got + [x]).Got? {
      if c.count < |s.log| {
        assert s.log[c.count..][0] == s.log[c.count];
        ConsumedEvent(cfg, l, s, c, c.got + [x]);
      } else {
        ConsumedDone(cfg, l, s, c, x);
      }
    }
  }

  // ----- Every step keeps the invariant -----

  /** Whatever the library does next leaves the server's books right: what was sent stays sent, what was reported stays
    reported, and nothing is reported after DONE. */
  lemma LibraryMoves(cfg: Config, l: T.Lib, l': T.Lib, j: nat, c: Conn)
    requires j < |l.socks| && T.Grows(l, l') && ConnOk(cfg, l, l.socks[j], c)
    ensures j < |l'.socks| && ConnOk(cfg, l', l'.socks[j], c)
  {
    assert T.SockGrows(l.socks[j], l'.socks[j]);
    assert l'.socks[j].log[..c.count] == l.socks[j].log[..c.count];
  }

  lemma FreshOk(guarded: bool, o: Options)
    ensures LibOk(T.Fresh(guarded, o))
  {
    T.FreshInv(guarded, o);
  }

  lemma LaunchKeeps(sys: System, guarded: bool, own: Environment)
    requires SysOk(sys)
    ensures SysOk(DoLaunch(sys, guarded, own))
  {
    hide LibOk, BooksOk, Agree;
    var l := T.Fresh(guarded, ClientOptions(GetEnv(own, OPTS)));
    FreshOk(guarded, l.options);
    var sys' := DoLaunch(sys, guarded, own);
    forall id | id in sys.conns && Agreeing(sys', id.lib)
      ensures BooksOk(sys', id)
    {
      assert BooksOk(sys, id);
      SameBooks(sys, sys', id);
    }
  }

  /** The books of a connection depend on its library and on what the server has made of it. */
  lemma SameBooks(sys: System, sys': System, id: Id)
    requires id in sys.conns && Exists(sys, id) && BooksOk(sys, id)
    requires id in sys'.conns && Exists(sys', id) && sys'.cfg == sys.cfg
    requires sys'.libs[id.lib] == sys.libs[id.lib] && sys'.conns[id] == sys.conns[id]
    ensures BooksOk(sys', id)
  {
  }

  lemma ActKeeps(sys: System, i: nat, a: T.Action)
    requires SysOk(sys)
    ensures SysOk(DoAct(sys, i, a))
  {
    var sys' := DoAct(sys, i, a);
    if i < |sys.libs| {
      var l, l' := sys.libs[i], sys'.libs[i];
      assert LibOk(l);
      T.StepKeepsInv(l, a);
      T.StepReportsOnly(l, a);
      T.StepGrows(l, a);
      forall id | id in sys.conns
        ensures Exists(sys', id) && (Agreeing(sys', id.lib) ==> BooksOk(sys', id))
      {
        if id.lib == i && Agreeing(sys, i) {
          LibraryMoves(sys.cfg, l, l', id.sock, sys.conns[id]);
        }
      }
    }
  }

  /** Replacing the server's view of one connection by another right one. */
  lemma OneConnection(sys: System, id: Id, c: Conn, busy: Option<Id>)
    requires SysOk(sys) && Exists(sys, id)
    requires Agreeing(sys, id.lib) ==> ConnOk(sys.cfg, sys.libs[id.lib], SockOf(sys, id), c)
    ensures SysOk(sys.(conns := sys.conns[id := c], busy := busy))
  {
    hide LibOk, ConnOk;
  }

  lemma AcceptKeeps(sys: System, id: Id)
    requires SysOk(sys)
    ensures SysOk(DoAccept(sys, id))
  {
    if Exists(sys, id) {
      var s := SockOf(sys, id);
      assert s.log[..0] == [];
      OneConnection(sys, id, Conn([], [], 0, [], false, Live), sys.busy);
    }
  }

  lemma ByteKeeps(sys: System, id: Id)
    requires SysOk(sys) && Readable(sys, id) && Agreeing(sys, id.lib)
    ensures ConnOk(sys.cfg, sys.libs[id.lib], SockOf(sys, id), AfterByte(sys, id))
    ensures AfterByte(sys, id).fate.Live? || AfterByte(sys, id).fate.AtDone?
  {
    hide ConnOk, LibOk;
    ConsumeKeeps(sys.cfg, sys.libs[id.lib], id.sock, sys.conns[id]);
  }

  lemma ReadKeeps(sys: System, id: Id)
    requires SysOk(sys)
    ensures SysOk(DoRead(sys, id))
  {
    if Readable(sys, id) {
      if Agreeing(sys, id.lib) {
        ByteKeeps(sys, id);
      }
      OneConnection(sys, id, AfterByte(sys, id), if AfterByte(sys, id).got == [] then None else Some(id));
    }
  }

  lemma EndKeeps(sys: System, id: Id)
    requires SysOk(sys)
    ensures SysOk(DoEnd(sys, id))
  {
    hide TakeMessage, LibOk, Stream, Reports;
  }

  lemma DropKeeps(sys: System, id: Id)
    requires SysOk(sys)
    ensures SysOk(DoDrop(sys, id))
  {
    hide TakeMessage, LibOk, Stream, Reports;
  }

  lemma StopKeeps(sys: System)
    requires SysOk(sys)
    ensures SysOk(DoStop(sys))
  {
    hide TakeMessage, LibOk, Stream, Reports;
  }

  lemma StepKeeps(sys: System, a: Action)
    requires SysOk(sys)
    ensures SysOk(Step(sys, a)) && Step(sys, a).cfg == sys.cfg
  {
    match a
    case Launch(guarded, own) => LaunchKeeps(sys, guarded, own);
    case Act(i, action) => ActKeeps(sys, i, action);
    case Accept(id) => AcceptKeeps(sys, id);
    case Read(id) => ReadKeeps(sys, id);
    case End(id) => EndKeeps(sys, id);
    case Drop(id) => DropKeeps(sys, id);
    case Stop => StopKeeps(sys);
  }

  lemma {:induction false} RunKeeps(sys: System, actions: seq<Action>)
    requires SysOk(sys)
    ensures SysOk(Run(sys, actions)) && Run(sys, actions).cfg == sys.cfg
  {
    if actions != [] {
      RunKeeps(sys, actions[..|actions| - 1]);
      StepKeeps(Run(sys, actions[..|actions| - 1]), actions[|actions| - 1]);
    }
  }

  // ----- End to end -----

  /** End-to-end safety. In every reachable state, the callbacks made for a connection are those of an initial part of the
    events its library has put on it, in order, and all of these have been sent in full: none is invented, duplicated,
    reordered, or taken from another connection. Only the library of this connection has to agree with the server about
    the format; what the other processes have in their environments does not matter. */
  lemma EndToEndSafety(cfg: Config, actions: seq<Action>, id: Id)
    requires id in Run(Initial(cfg), actions).conns && Agreeing(Run(Initial(cfg), actions), id.lib)
    ensures var sys := Run(Initial(cfg), actions);
            && Exists(sys, id)
            && var l, s, c := sys.libs[id.lib], SockOf(sys, id), sys.conns[id];
               && c.count <= Whole(l.options, s.log, |s.sent|)
               && c.seen == Reports(cfg, l.options, s.log[..c.count])
  {
    hide TakeMessage, Message;
    RunKeeps(Initial(cfg), actions);
    var sys := Run(Initial(cfg), actions);
    var l, s, c := sys.libs[id.lib], SockOf(sys, id), sys.conns[id];
    assert ConnOk(cfg, l, s, c);
    if c.fate.AtDone? {
      assert s.log[..c.count] == s.log;
    }
    WholeIsExact(l.options, s.log, |s.sent|, c.count);
  }

  /** Exactly once: a connection the server closed because it read DONE has had all its events reported, and its library
    will never put another one on it. */
  lemma ExactlyOnceAtDone(cfg: Config, actions: seq<Action>, later: seq<T.Action>, id: Id)
    requires var sys := Run(Initial(cfg), actions);
             id in sys.conns && Agreeing(sys, id.lib) && sys.conns[id].fate.AtDone?
    ensures var sys := Run(Initial(cfg), actions);
            && Exists(sys, id)
            && var l := sys.libs[id.lib];
               && sys.conns[id].seen == Reports(cfg, l.options, SockOf(sys, id).log)
               && id.sock < |T.Run(l, later).socks|
               && T.Run(l, later).socks[id.sock].log == SockOf(sys, id).log
  {
    hide TakeMessage, Message;
    RunKeeps(Initial(cfg), actions);
    var sys := Run(Initial(cfg), actions);
    var l, s, c := sys.libs[id.lib], SockOf(sys, id), sys.conns[id];
    assert ConnOk(cfg, l, s, c) && LibOk(l);
    assert s.log[..c.count] == s.log;
    T.RunGrows(l, later);
    assert T.SockGrows(s, T.Run(l, later).socks[id.sock]);
  }

  lemma LongEnoughIsRead(cfg: Config, o: Options, rest: seq<Event>, finished: bool, got: bytes)
    requires Agree(o, cfg.options) && rest != []
    requires got <= Written(o, rest, finished) && |got| >= |Message(o, rest[0])|
    ensures TakeMessage(cfg.options, got).Got?
  {
    WrittenFirst(o, rest, finished);
    SplitPrefix(got, Message(o, rest[0]), Written(o, rest[1..], finished));
    MessageTaken(o, cfg.options, rest[0], got[|Message(o, rest[0])|..]);
  }

  /** A connection read to its end has had all whole events counted. */
  lemma CountIsWhole(cfg: Config, l: T.Lib, j: nat, c: Conn)
    requires LibOk(l) && j < |l.socks| && ConnOk(cfg, l, l.socks[j], c)
    requires Agree(l.options, cfg.options)
    requires !c.fate.AtDone? && |c.read| + |c.got| == |l.socks[j].sent|
    ensures c.count == Whole(l.options, l.socks[j].log, |l.socks[j].sent|)
  {
    hide Message, TakeMessage, Reports, Stream, Whole;
    var s := l.socks[j];
    var w := Whole(l.options, s.log, |s.sent|);
    WholeIsExact(l.options, s.log, |s.sent|, c.count);
    if c.count < w {
      WholeIsExact(l.options, s.log, |s.sent|, c.count + 1);
      EventConsumed(cfg, l.options, s.log, c.count);
      GotIsNext(l, j, c.count, c.got);
      assert s.log[c.count..][0] == s.log[c.count];
      LongEnoughIsRead(cfg, l.options, s.log[c.count..], s.finished, c.got);
    }
  }

  /** Nothing delivered is lost: a connection the server closed at its end, and that did not break, has had exactly those
    events reported that its process sent in full. */
  lemma AllWholeEventsAtEnd(cfg: Config, actions: seq<Action>, id: Id)
    requires var sys := Run(Initial(cfg), actions);
             && id in sys.conns && Agreeing(sys, id.lib)
             && sys.conns[id].fate.AtEnd? && Exists(sys, id) && !SockOf(sys, id).broken
    ensures var sys := Run(Initial(cfg), actions);
            var l, s := sys.libs[id.lib], SockOf(sys, id);
            sys.conns[id].seen == Reports(cfg, l.options, s.log[..Whole(l.options, s.log, |s.sent|)])
  {
    RunKeeps(Initial(cfg), actions);
    var sys := Run(Initial(cfg), actions);
    assert LibOk(sys.libs[id.lib]);
    assert BooksOk(sys, id);
    CountIsWhole(cfg, sys.libs[id.lib], id.sock, sys.conns[id]);
  }

  /** The interleaved server and the server loop agree: a connection closed at DONE, or at an end without a break, has
    made exactly the callbacks of the session its bytes amount to, and any other one a prefix of them. */
  lemma AgreesWithSession(cfg: Config, actions: seq<Action>, id: Id)
    requires id in Run(Initial(cfg), actions).conns && Agreeing(Run(Initial(cfg), actions), id.lib)
    ensures var sys := Run(Initial(cfg), actions);
            && Exists(sys, id)
            && sys.conns[id].seen <= Session(cfg, SockOf(sys, id).sent)
            && (sys.conns[id].fate.AtDone? || (sys.conns[id].fate.AtEnd? && !SockOf(sys, id).broken) ==>
                  sys.conns[id].seen == Session(cfg, SockOf(sys, id).sent))
  {
    hide TakeMessage, Message;
    RunKeeps(Initial(cfg), actions);
    var sys := Run(Initial(cfg), actions);
    assert LibOk(sys.libs[id.lib]);
    assert BooksOk(sys, id);
    SeenOfSession(cfg, sys.libs[id.lib], id.sock, sys.conns[id]);
  }

  lemma SeenOfSession(cfg: Config, l: T.Lib, j: nat, c: Conn)
    requires LibOk(l) && j < |l.socks| && ConnOk(cfg, l, l.socks[j], c) && Agree(l.options, cfg.options)
    ensures c.seen <= Session(cfg, l.socks[j].sent)
    ensures c.fate.AtDone? || (c.fate.AtEnd? && !l.socks[j].broken) ==> c.seen == Session(cfg, l.socks[j].sent)
  {
    hide TakeMessage, Message, Session;
    var s, o := l.socks[j], l.options;
    SentIsIntended(l, j);
    PrefixSafety(cfg, o, s.log, s.finished, s.sent);
    var w := Whole(o, s.log, |s.sent|);
    assert c.fate.AtDone? ==> s.log[..c.count] == s.log && c.read == Stream(o, s.log) + Done();
    WholeIsExact(o, s.log, |s.sent|, c.count);
    assert s.log[..w] == s.log[..c.count] + s.log[c.count..w];
    ReportsAppend(cfg, o, s.log[..c.count], s.log[c.count..w]);
    if c.fate.AtEnd? && !s.broken {
      CountIsWhole(cfg, l, j, c);
    }
  }

  // ----- Progress -----

  function ReadMany(sys: System, id: Id, n: nat): System
    decreases n
  {
    if n == 0 then sys else ReadMany(DoRead(sys, id), id, n - 1)
  }

  lemma ReadableStep(sys: System, id: Id)
    requires SysOk(sys) && Readable(sys, id) && Agreeing(sys, id.lib)
    ensures var sys' := DoRead(sys, id);
            && SysOk(sys') && sys'.libs == sys.libs && sys'.cfg == sys.cfg && id in sys'.conns && sys'.running
            && |sys'.conns[id].read| + |sys'.conns[id].got| == |sys.conns[id].read| + |sys.conns[id].got| + 1
            && !sys'.conns[id].cut && (sys'.busy == None || sys'.busy == Some(id))
            && (sys'.conns[id].fate.Live? || sys'.conns[id].fate.AtDone?)
  {
    hide LibOk, Message, TakeMessage, Stream, Reports;
    ReadKeeps(sys, id);
    ByteKeeps(sys, id);
  }

  /** A finished stream that has been read to its last byte has been read to DONE. */
  lemma AllReadIsDone(cfg: Config, l: T.Lib, j: nat, c: Conn)
    requires LibOk(l) && j < |l.socks| && ConnOk(cfg, l, l.socks[j], c) && Agree(l.options, cfg.options)
    requires l.socks[j].finished && l.socks[j].sent == Written(l.options, l.socks[j].log, true)
    requires |c.read| + |c.got| == |l.socks[j].sent|
    ensures c.fate.AtDone?
  {
    hide Message, TakeMessage, Reports;
    if !c.fate.AtDone? {
      var s, o := l.socks[j], l.options;
      GotIsNext(l, j, c.count, c.got);
      WrittenSplit(o, s.log, c.count, true);
      var rest := s.log[c.count..];
      assert |c.got| == |Written(o, rest, true)|;
      if rest != [] {
        WrittenFirst(o, rest, true);
        LongEnoughIsRead(cfg, o, rest, true, c.got);
      } else {
        assert [] + Done() == Done() && c.got == Done() && Done() + [] == Done();
        DoneTaken(cfg.options, []);
      }
    }
  }

  lemma DoneReportsAll(sys: System, id: Id)
    requires SysOk(sys) && id in sys.conns && Agreeing(sys, id.lib) && sys.conns[id].fate.AtDone?
    ensures Exists(sys, id)
    ensures sys.conns[id].seen == Reports(sys.cfg, sys.libs[id.lib].options, SockOf(sys, id).log)
    ensures |sys.conns[id].read| + |sys.conns[id].got| == |SockOf(sys, id).sent|
  {
    hide Message, TakeMessage, Stream, Reports;
    var l, s, c := sys.libs[id.lib], SockOf(sys, id), sys.conns[id];
    assert LibOk(l) && BooksOk(sys, id);
    assert s.log[..c.count] == s.log;
    SentIsIntended(l, id.sock);
  }

  lemma DoneAtLastByte(sys: System, id: Id)
    requires SysOk(sys) && id in sys.conns && Exists(sys, id) && Agreeing(sys, id.lib)
    requires SockOf(sys, id).finished
    requires SockOf(sys, id).sent == Written(sys.libs[id.lib].options, SockOf(sys, id).log, true)
    requires |sys.conns[id].read| + |sys.conns[id].got| == |SockOf(sys, id).sent|
    ensures sys.conns[id].fate.AtDone?
  {
    hide Message, TakeMessage, Stream, Reports;
    assert LibOk(sys.libs[id.lib]) && BooksOk(sys, id);
    AllReadIsDone(sys.cfg, sys.libs[id.lib], id.sock, sys.conns[id]);
  }

  /** Progress: once a library has sent a finished stream, a server that keeps reading the connection reaches DONE with its
    last byte and has then reported every event; nothing else in the system needs to move. */
  lemma {:induction false} ReadingReachesDone(sys: System, id: Id, n: nat)
    requires SysOk(sys) && id in sys.conns && Exists(sys, id) && SockOf(sys, id).finished && Agreeing(sys, id.lib)
    requires sys.conns[id].fate.AtDone? || (Ready(sys, id) && !sys.conns[id].cut)
    requires SockOf(sys, id).sent == Written(sys.libs[id.lib].options, SockOf(sys, id).log, true)
    requires n == |SockOf(sys, id).sent| - |sys.conns[id].read| - |sys.conns[id].got|
    ensures var sys' := ReadMany(sys, id, n);
            && id in sys'.conns && sys'.conns[id].fate.AtDone?
            && sys'.conns[id].seen == Reports(sys.cfg, sys.libs[id.lib].options, SockOf(sys, id).log)
    decreases n
  {
    hide SysOk, LibOk, Written, Reports, DoRead;
    if n == 0 {
      DoneAtLastByte(sys, id);
      DoneReportsAll(sys, id);
    } else {
      NotYetDone(sys, id);
      ReadableStep(sys, id);
      ReadingReachesDone(DoRead(sys, id), id, n - 1);
    }
  }

  lemma NotYetDone(sys: System, id: Id)
    requires SysOk(sys) && id in sys.conns && Exists(sys, id) && Agreeing(sys, id.lib)
    requires |sys.conns[id].read| + |sys.conns[id].got| < |SockOf(sys, id).sent|
    ensures !sys.conns[id].fate.AtDone?
  {
    if sys.conns[id].fate.AtDone? {
      DoneReportsAll(sys, id);
    }
  }

  // ----- Process trees -----

  /** The environments of the processes launched, in the order of their libraries. */
  function Launches(actions: seq<Action>): seq<Environment> {
    if actions == [] then [] else
    var last := actions[|actions| - 1];
    Launches(actions[..|actions| - 1]) + if last.Launch? then [last.own] else []
  }

  lemma {:induction false} LaunchedOptions(cfg: Config, actions: seq<Action>)
    ensures |Run(Initial(cfg), actions).libs| == |Launches(actions)|
    ensures forall i :: 0 <= i < |Launches(actions)| ==>
              Run(Initial(cfg), actions).libs[i].options == ClientOptions(GetEnv(Launches(actions)[i], OPTS))
  {
    hide T.Step, ClientOptions, GetEnv;
    if actions != [] {
      var front, last := actions[..|actions| - 1], actions[|actions| - 1];
      LaunchedOptions(cfg, front);
      StepKeepsOptions(Run(Initial(cfg), front), last);
    }
  }

  lemma StepKeepsOptions(sys: System, a: Action)
    ensures var libs, libs' := sys.libs, Step(sys, a).libs;
            && |libs'| == |libs| + (if a.Launch? then 1 else 0)
            && (forall i :: 0 <= i < |libs| ==> libs'[i].options == libs[i].options)
            && (a.Launch? ==> libs'[|libs|].options == ClientOptions(GetEnv(a.own, OPTS)))
  {
    hide ClientOptions, GetEnv;
  }

  /** The process of library `i` is at the end of a chain of execs that starts with the environment prepared for `cfg`
    and in which no argument gives LIBVOYEUR_OPTS another value. */
  predicate InTree(cfg: Config, libdir: cstring, socket: cstring, env: Environment, envps: seq<Environment>,
                   actions: seq<Action>, i: nat) {
    && Keeps(env, OPTS, OptionString(cfg.options)) && AllKeep(envps, OPTS, OptionString(cfg.options))
    && i < |Launches(actions)|
    && Descendant(Augment(env, SettingsOf(cfg, libdir, socket)), envps) == Some(Launches(actions)[i])
  }

  lemma TreeAgrees(cfg: Config, libdir: cstring, socket: cstring, env: Environment, envps: seq<Environment>,
                   actions: seq<Action>, i: nat)
    requires InTree(cfg, libdir, socket, env, envps, actions, i)
    ensures Run(Initial(cfg), actions).cfg == cfg && Agreeing(Run(Initial(cfg), actions), i)
    ensures Run(Initial(cfg), actions).libs[i].options == LowFive(cfg.options)
  {
    hide ClientOptions, GetEnv, Agree;
    RunKeeps(Initial(cfg), actions);
    LaunchedOptions(cfg, actions);
    AgreementAtEveryDepth(cfg, libdir, socket, env, envps);
  }

  /** From voyeur_prepare to the callbacks: a process at any depth of the tree, among others that may have done anything to
    their own environments, is observed as it should be. The reports are those for the server's own options. */
  lemma TreeIsObserved(cfg: Config, libdir: cstring, socket: cstring, env: Environment, envps: seq<Environment>,
                       actions: seq<Action>, id: Id)
    requires InTree(cfg, libdir, socket, env, envps, actions, id.lib)
    requires id in Run(Initial(cfg), actions).conns
    ensures var sys := Run(Initial(cfg), actions);
            && Exists(sys, id)
            && var o, s, c := LowFive(cfg.options), SockOf(sys, id), sys.conns[id];
               && c.count <= Whole(o, s.log, |s.sent|)
               && c.seen == Reports(cfg, o, s.log[..c.count])
               && (c.fate.AtDone? ==> c.seen == Reports(cfg, o, s.log))
               && (c.fate.AtEnd? && !s.broken ==> c.seen == Reports(cfg, o, s.log[..Whole(o, s.log, |s.sent|)]))
  {
    hide Whole, Reports, Run, InTree;
    var sys := Run(Initial(cfg), actions);
    TreeAgrees(cfg, libdir, socket, env, envps, actions, id.lib);
    EndToEndSafety(cfg, actions, id);
    if sys.conns[id].fate.AtDone? {
      ExactlyOnceAtDone(cfg, actions, [], id);
    } else if sys.conns[id].fate.AtEnd? && !SockOf(sys, id).broken {
      AllWholeEventsAtEnd(cfg, actions, id);
    }
  }

  /** Silent exec: when no exec callback is registered, no process of the tree, at any depth, ever puts an exec event on
    any connection. The exec library is there all the same: where the arguments are clean and do not mislead the search,
    the linker finds it in the process's own preload list. */
  lemma SilentExecEverywhere(cfg: Config, libdir: cstring, socket: cstring, env: Environment, envps: seq<Environment>,
                             actions: seq<Action>, id: Id)
    requires !cfg.execCb && InTree(Prepared(cfg), libdir, socket, env, envps, actions, id.lib)
    requires Exists(Run(Initial(Prepared(cfg)), actions), id)
    ensures forall e :: e in SockOf(Run(Initial(Prepared(cfg)), actions), id).log ==> !e.Exec?
    ensures var vars, paths := SettingsOf(Prepared(cfg), libdir, socket), Libraries(Prepared(cfg), libdir);
            Plain(libdir) && Startable(Prepared(cfg), libdir, socket, env) && AllClean(envps, vars)
            && !Mistaken(paths, Existing(env)) && NoneMistaken(paths, envps) ==>
              Listed([libdir + LIB_EXEC], GetEnv(Launches(actions)[id.lib], PRELOAD))
  {
    hide T.Step, ClientOptions, Clean, Mistaken;
    var cfg', vars, paths := Prepared(cfg), SettingsOf(Prepared(cfg), libdir, socket), Libraries(Prepared(cfg), libdir);
    NoExecEvents(cfg', libdir, socket, env, envps, actions, id);
    if Plain(libdir) && Startable(cfg', libdir, socket, env) && AllClean(envps, vars)
       && !Mistaken(paths, Existing(env)) && NoneMistaken(paths, envps) {
      LibrariesAtEveryDepth(cfg', libdir, socket, env, envps);
      var exec, root := libdir + LIB_EXEC, Augment(env, vars);
      assert paths[0] == exec;
      TracedIsDescendant(exec, root, envps, vars, paths);
      assert envps[..|envps|] == envps;
      assert InstrumentedEnd(exec, root, envps, vars, paths);
    }
  }

  lemma NoExecEvents(cfg: Config, libdir: cstring, socket: cstring, env: Environment, envps: seq<Environment>,
                     actions: seq<Action>, id: Id)
    requires Has(cfg.options.exec, OBSERVE_EXEC_SILENT)
    requires InTree(cfg, libdir, socket, env, envps, actions, id.lib)
    requires Exists(Run(Initial(cfg), actions), id)
    ensures forall e :: e in SockOf(Run(Initial(cfg), actions), id).log ==> !e.Exec?
  {
    TreeAgrees(cfg, libdir, socket, env, envps, actions, id.lib);
    RunKeeps(Initial(cfg), actions);
    var l := Run(Initial(cfg), actions).libs[id.lib];
    assert LibOk(l);
    LowFiveAgrees(cfg.options);
    assert T.LogReportable(l.options, l.socks[id.sock].log);
  }
}
