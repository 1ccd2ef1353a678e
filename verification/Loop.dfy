/** The select loop is one of the servers that module System leaves open: whatever it does to its clients is a sequence of
  accepts, reads, ends and drops there, with Stop after it. So what is proved of System holds of the loop.

  As in module Server, a client's connection delivers a stream that is settled from the start; in terms of System, the
  libraries have done all they will do when the server begins. Reading later cannot make a difference: a message is what
  it is whatever comes after it, and a server that waits for bytes does nothing else meanwhile. A process that outlives
  the server can be taken to die after it. */
module Loop {
  import opened Wrappers
  import opened Bytes
  import opened Wire
  import opened CStrings
  import opened Sessions
  import opened Events
  import opened Settings
  import opened Env
  import opened System
  import opened Delivery
  import opened Meaning
  import S = Server

  // ----- Several reads -----

  lemma {:induction false} OneReadMore(sys: System, id: Id, n: nat)
    ensures ReadMany(sys, id, n + 1) == DoRead(ReadMany(sys, id, n), id)
    decreases n
  {
    hide DoRead;
    if n > 0 {
      OneReadMore(DoRead(sys, id), id, n - 1);
    }
  }

  /** A connection in the middle of a message. */
  function Reading(sys: System, id: Id, got: bytes): System
    requires id in sys.conns
  {
    sys.(conns := sys.conns[id := sys.conns[id].(got := got)], busy := Some(id))
  }

  /** These are the next bytes to be read. */
  predicate Next(sys: System, id: Id, data: bytes) {
    && Ready(sys, id) && !sys.conns[id].cut
    && var at := |sys.conns[id].read| + |sys.conns[id].got|;
       at + |data| <= |SockOf(sys, id).sent| && SockOf(sys, id).sent[at..at + |data|] == data
  }

  lemma ShorterIsShort(o: Options, b: bytes, more: bytes)
    requires TakeMessage(o, b + more).Short?
    ensures TakeMessage(o, b).Short?
  {
    hide TakeMessage;
    if TakeMessage(o, b).Got? {
      MessageStable(o, b, more);
    }
  }

  lemma OneByteRead(sys: System, id: Id, data: bytes)
    requires Next(sys, id, data) && data != [] && TakeMessage(sys.cfg.options, sys.conns[id].got + data[..1]).Short?
    ensures var got := sys.conns[id].got + data[..1];
            DoRead(sys, id) == Reading(sys, id, got) && Next(Reading(sys, id, got), id, data[1..])
  {
    hide TakeMessage;
    var c, sent := sys.conns[id], SockOf(sys, id).sent;
    var at := |c.read| + |c.got|;
    assert sent[at] == data[0] && data[..1] == [data[0]];
    assert sent[at + 1..at + |data|] == sent[at..at + |data|][1..];
  }

  /** As long as no message is complete, reading only collects bytes. */
  lemma {:induction false} ShortRead(sys: System, id: Id, data: bytes)
    requires Next(sys, id, data) && data != [] && TakeMessage(sys.cfg.options, sys.conns[id].got + data).Short?
    ensures ReadMany(sys, id, |data|) == Reading(sys, id, sys.conns[id].got + data)
    decreases |data|
  {
    var c := sys.conns[id];
    hide TakeMessage, DoRead, Next;
    assert c.got + data == (c.got + data[..1]) + data[1..];
    ShorterIsShort(sys.cfg.options, c.got + data[..1], data[1..]);
    OneByteRead(sys, id, data);
    var sys1 := Reading(sys, id, c.got + data[..1]);
    assert ReadMany(sys, id, |data|) == ReadMany(sys1, id, |data| - 1);
    if |data| == 1 {
      assert data[..1] == data;
    } else {
      ShortRead(sys1, id, data[1..]);
      assert Reading(sys1, id, c.got + data) == Reading(sys, id, c.got + data);
    }
  }

  /** The connection after a complete message. */
  function After(cfg: Config, c: Conn, m: bytes): Conn
    requires m != []
  {
    Consume(cfg, c.(got := m[..|m| - 1]), m[|m| - 1])
  }

  lemma LastByteRead(sys: System, id: Id, m: bytes)
    requires m != [] && Next(sys, id, [m[|m| - 1]]) && sys.conns[id].got == m[..|m| - 1]
    requires TakeMessage(sys.cfg.options, m).Got?
    ensures DoRead(sys, id) == sys.(conns := sys.conns[id := After(sys.cfg, sys.conns[id], m)], busy := None)
  {
    hide TakeMessage;
    var c, sent, n := sys.conns[id], SockOf(sys, id).sent, |m| - 1;
    var at := |c.read| + |c.got|;
    assert sent[at] == sent[at..at + 1][0] == m[n];
    assert m[..n] + [m[n]] == m;
    assert c.(got := m[..n]) == c;
  }

  /** All but the last byte of a message have been read. */
  function AllButOne(sys: System, id: Id, m: bytes): System
    requires id in sys.conns && m != []
  {
    if |m| == 1 then sys else Reading(sys, id, m[..|m| - 1])
  }

  lemma FrontRead(sys: System, id: Id, m: bytes)
    requires Next(sys, id, m) && sys.conns[id].got == [] && m != []
    requires TakeMessage(sys.cfg.options, m[..|m| - 1]).Short?
    ensures ReadMany(sys, id, |m| - 1) == AllButOne(sys, id, m)
    ensures Next(AllButOne(sys, id, m), id, [m[|m| - 1]])
  {
    hide TakeMessage, DoRead, Consume, Next;
    var front := m[..|m| - 1];
    assert [] + front == front;
    FrontIsNext(sys, id, m);
    if front != [] {
      ShortRead(sys, id, front);
    }
  }

  lemma FrontIsNext(sys: System, id: Id, m: bytes)
    requires Next(sys, id, m) && sys.conns[id].got == [] && m != []
    ensures Next(sys, id, m[..|m| - 1])
    ensures Next(AllButOne(sys, id, m), id, [m[|m| - 1]])
  {
    var sent, n, at := SockOf(sys, id).sent, |m| - 1, |sys.conns[id].read|;
    assert at + |m| <= |sent| && sent[at..at + |m|] == m;
    SliceOfSlice(sent, at, |m|, 0, n);
    SliceOfSlice(sent, at, |m|, n, n + 1);
    assert m[n..n + 1] == [m[n]] && m[0..n] == m[..n];
  }

  lemma SliceOfSlice(b: bytes, at: nat, n: nat, i: nat, j: nat)
    requires at + n <= |b| && i <= j <= n
    ensures b[at..at + n][i..j] == b[at + i..at + j]
  {
    var l, r := b[at..at + n][i..j], b[at + i..at + j];
    assert |l| == |r|;
    forall k | 0 <= k < |l| ensures l[k] == r[k] {
      assert l[k] == b[at..at + n][i + k] == b[at + (i + k)];
    }
  }

  /** Reading a complete message. */
  lemma MessageRead(sys: System, id: Id, m: bytes)
    requires Next(sys, id, m) && sys.conns[id].got == [] && TakeMessage(sys.cfg.options, m).Got?
    requires TakeMessage(sys.cfg.options, m).rest == [] && m != []
    ensures ReadMany(sys, id, |m|) == sys.(conns := sys.conns[id := After(sys.cfg, sys.conns[id], m)], busy := None)
  {
    var c, n, mid := sys.conns[id], |m| - 1, AllButOne(sys, id, m);
    assert mid.conns[id] == c.(got := m[..n]);
    assert After(sys.cfg, c.(got := m[..n]), m) == After(sys.cfg, c, m);
    assert mid.conns[id := After(sys.cfg, c, m)] == sys.conns[id := After(sys.cfg, c, m)];
    assert mid.(conns := mid.conns[id := After(sys.cfg, c, m)], busy := None)
           == sys.(conns := sys.conns[id := After(sys.cfg, c, m)], busy := None);
    hide TakeMessage, DoRead, Consume, Next, After, AllButOne, ReadMany;
    ExactIsFirst(sys.cfg.options, m, n);
    FrontRead(sys, id, m);
    OneReadMore(sys, id, n);
    LastByteRead(mid, id, m);
  }

  // ----- One client -----

  /** The client's connection is `id`, and `stream` is all that it delivers: everything sent, by a process that has closed
    it or is gone, or a part of that on a broken one. */
  predicate Delivers(sys: System, id: Id, stream: bytes) {
    && Exists(sys, id) && stream <= SockOf(sys, id).sent
    && (SockOf(sys, id).broken
        || (stream == SockOf(sys, id).sent && (SockOf(sys, id).shut || !sys.libs[id.lib].alive)))
  }

  /** The book of a client says what the system says of its connection. */
  predicate MatchesConn(c: Conn, stream: bytes, b: S.Book) {
    && c.seen == b.seen
    && match b.phase
       case Awaited => false
       case Connected =>
         && c.fate.Live?
         && if c.cut then b.pending == [] && c.read + c.got == stream else c.got == [] && c.read + b.pending == stream
       case Closed => c.fate.AtDone? || c.fate.AtEnd?
       case Dropped => c.fate.Abandoned?
  }

  predicate Matches(conns: map<Id, Conn>, id: Id, stream: bytes, b: S.Book) {
    if b.phase.Awaited? then id !in conns && b == S.Book(stream, [], S.Awaited)
    else id in conns && MatchesConn(conns[id], stream, b)
  }

  /** What a handle_message is in the system: the reads of one message, or of what there is of it and then the end. */
  function Served(sys: System, id: Id, pending: bytes): System {
    match TakeMessage(sys.cfg.options, pending)
    case Got(_, rest) => ReadMany(sys, id, if |rest| <= |pending| then |pending| - |rest| else 0)
    case Short =>
      DoEnd(if id in sys.conns && sys.conns[id].cut then sys else ReadMany(sys, id, |pending|), id)
  }

  function BookServed(cfg: Config, b: S.Book): S.Book {
    var reply := HandleMessage(cfg, b.pending);
    S.Book(reply.rest, b.seen + reply.calls, if reply.keep then S.Connected else S.Closed)
  }

  /** Only this connection has changed, and the server is between two messages. */
  predicate OnlyChanged(sys: System, sys': System, id: Id) {
    && sys'.cfg == sys.cfg && sys'.libs == sys.libs && sys'.running == sys.running && sys'.busy == None
    && id in sys'.conns && sys'.conns == sys.conns[id := sys'.conns[id]]
  }

  predicate AtBoundary(sys: System, id: Id, stream: bytes, b: S.Book) {
    && sys.running && sys.busy == None && Delivers(sys, id, stream)
    && b.phase.Connected? && Matches(sys.conns, id, stream, b)
  }

  lemma AfterMatches(cfg: Config, c: Conn, stream: bytes, b: S.Book, m: bytes, rest: bytes)
    requires b.phase.Connected? && MatchesConn(c, stream, b) && !c.cut && m != [] && b.pending == m + rest
    requires TakeMessage(cfg.options, m).Got? && TakeMessage(cfg.options, m).rest == []
    requires TakeMessage(cfg.options, b.pending) == Got(TakeMessage(cfg.options, m).value, rest)
    ensures MatchesConn(After(cfg, c, m), stream, BookServed(cfg, b))
  {
    hide TakeMessage;
    assert m[..|m| - 1] + [m[|m| - 1]] == m;
    Assoc(c.read, m, rest);
    assert b.seen + [] == b.seen;
  }

  lemma ServedWhole(sys: System, id: Id, stream: bytes, b: S.Book)
    requires AtBoundary(sys, id, stream, b) && TakeMessage(sys.cfg.options, b.pending).Got?
    ensures var sys' := Served(sys, id, b.pending);
            OnlyChanged(sys, sys', id) && Matches(sys'.conns, id, stream, BookServed(sys.cfg, b))
  {
    hide TakeMessage, After, BookServed;
    var c, rest := sys.conns[id], TakeMessage(sys.cfg.options, b.pending).rest;
    EmptyIsShort(sys.cfg.options);
    var m := MessageExact(sys.cfg.options, b.pending);
    assert m != [];
    assert SockOf(sys, id).sent[|c.read|..|c.read| + |m|] == m by {
      assert stream == c.read + (m + rest);
      Assoc(c.read, m, rest);
      assert SockOf(sys, id).sent[..|stream|] == stream;
    }
    MessageRead(sys, id, m);
    AfterMatches(sys.cfg, c, stream, b, m, rest);
    StillConnected(sys.cfg, b);
  }

  lemma StillConnected(cfg: Config, b: S.Book)
    ensures !BookServed(cfg, b).phase.Awaited?
  {
  }

  lemma EmptyIsShort(o: Options)
    ensures TakeMessage(o, []).Short?
  {
  }

  /** The connection ends while this has been read of a message. */
  lemma EndsThere(sys: System, id: Id, stream: bytes)
    requires Ready(sys, id) && Delivers(sys, id, stream) && sys.conns[id].read + sys.conns[id].got == stream
    ensures var c := sys.conns[id];
            DoEnd(sys, id) == sys.(conns := sys.conns[id := if |c.got| >= 8 && !c.cut then c.(cut := true)
                                                           else c.(fate := AtEnd)], busy := None)
  {
  }

  /** How far the reads get: nothing more after a cut, all there is otherwise. */
  function ReadToEnd(sys: System, id: Id, pending: bytes): System
    requires id in sys.conns
  {
    if sys.conns[id].cut || pending == [] then sys else Reading(sys, id, pending)
  }

  lemma ReadsToEnd(sys: System, id: Id, stream: bytes, b: S.Book)
    requires AtBoundary(sys, id, stream, b) && TakeMessage(sys.cfg.options, b.pending).Short?
    ensures Served(sys, id, b.pending) == DoEnd(ReadToEnd(sys, id, b.pending), id)
    ensures var mid := ReadToEnd(sys, id, b.pending);
            Ready(mid, id) && mid.conns[id].read + mid.conns[id].got == stream
  {
    hide TakeMessage, DoEnd, DoRead;
    var c := sys.conns[id];
    if !c.cut && b.pending != [] {
      assert SockOf(sys, id).sent[|c.read|..|c.read| + |b.pending|] == b.pending by {
        assert SockOf(sys, id).sent[..|stream|] == stream;
      }
      assert [] + b.pending == b.pending;
      ShortRead(sys, id, b.pending);
    }
  }

  lemma ServedCut(sys: System, id: Id, stream: bytes, b: S.Book)
    requires AtBoundary(sys, id, stream, b) && TakeMessage(sys.cfg.options, b.pending).Short?
    ensures var sys' := Served(sys, id, b.pending);
            OnlyChanged(sys, sys', id) && Matches(sys'.conns, id, stream, BookServed(sys.cfg, b))
  {
    hide TakeMessage, DoEnd, DoRead, Served, Delivers;
    ReadsToEnd(sys, id, stream, b);
    var mid := ReadToEnd(sys, id, b.pending);
    SameStream(sys, mid, id, stream);
    EndsThere(mid, id, stream);
    assert b.seen + [] == b.seen;
  }

  lemma SameStream(sys: System, sys': System, id: Id, stream: bytes)
    requires Delivers(sys, id, stream) && sys'.libs == sys.libs
    ensures Delivers(sys', id, stream)
  {
  }

  /** The loop's handle_message and the system's steps do the same to a client, whatever its bytes are. */
  lemma ServedMatches(sys: System, id: Id, stream: bytes, b: S.Book)
    requires AtBoundary(sys, id, stream, b)
    ensures var sys' := Served(sys, id, b.pending);
            OnlyChanged(sys, sys', id) && Matches(sys'.conns, id, stream, BookServed(sys.cfg, b))
  {
    hide Served, BookServed, Matches, AtBoundary, TakeMessage;
    if TakeMessage(sys.cfg.options, b.pending).Got? {
      ServedWhole(sys, id, stream, b);
    } else {
      ServedCut(sys, id, stream, b);
    }
  }

  // ----- All clients -----

  predicate Distinct(ids: seq<Id>) {
    forall i, j :: 0 <= i < j < |ids| ==> ids[i] != ids[j]
  }

  /** The server is between two messages, and all books agree with the system. */
  predicate Similar(sys: System, ids: seq<Id>, streams: seq<bytes>, books: seq<S.Book>) {
    && |ids| == |streams| == |books| && Distinct(ids) && sys.running && sys.busy == None
    && forall i :: 0 <= i < |ids| ==> Delivers(sys, ids[i], streams[i]) && Matches(sys.conns, ids[i], streams[i], books[i])
  }

  /** What a deed of the loop is in the system. */
  function DeedOf(sys: System, ids: seq<Id>, books: seq<S.Book>, d: S.Deed): System
    requires |ids| == |books|
  {
    if d.i >= |ids| then sys else
    match d
    case DidAccept(i) => if books[i].phase.Awaited? then DoAccept(sys, ids[i]) else sys
    case DidServe(i) => if books[i].phase.Connected? then Served(sys, ids[i], books[i].pending) else sys
    case DidDrop(i) => if books[i].phase.Connected? then DoDrop(sys, ids[i]) else sys
  }

  /** Changing one connection and its book alike. */
  lemma OneChanged(sys: System, sys': System, ids: seq<Id>, streams: seq<bytes>, books: seq<S.Book>, i: nat, b: S.Book)
    requires Similar(sys, ids, streams, books) && i < |ids| && OnlyChanged(sys, sys', ids[i])
    requires Matches(sys'.conns, ids[i], streams[i], b)
    ensures Similar(sys', ids, streams, books[i := b])
  {
    hide MatchesConn;
    forall j | 0 <= j < |ids|
      ensures Delivers(sys', ids[j], streams[j]) && Matches(sys'.conns, ids[j], streams[j], books[i := b][j])
    {
      assert Delivers(sys, ids[j], streams[j]) && Matches(sys.conns, ids[j], streams[j], books[j]);
      assert j != i ==> ids[j] != ids[i];
      SameStream(sys, sys', ids[j], streams[j]);
    }
  }

  /** Every deed keeps the books in agreement with the system. */
  lemma DeedSimilar(sys: System, ids: seq<Id>, streams: seq<bytes>, books: seq<S.Book>, d: S.Deed)
    requires Similar(sys, ids, streams, books)
    ensures Similar(DeedOf(sys, ids, books, d), ids, streams, S.DeedStep(sys.cfg, books, d))
    ensures DeedOf(sys, ids, books, d).cfg == sys.cfg && DeedOf(sys, ids, books, d).libs == sys.libs
  {
    hide Served, HandleMessage;
    if d.i < |ids| {
      var i, id, b := d.i, ids[d.i], books[d.i];
      assert Delivers(sys, id, streams[i]) && Matches(sys.conns, id, streams[i], b);
      var sys' := DeedOf(sys, ids, books, d);
      match d
      case DidAccept(_) =>
        if b.phase.Awaited? {
          assert [] + b.pending == b.pending;
          OneChanged(sys, sys', ids, streams, books, i, b.(phase := S.Connected));
        }
      case DidServe(_) =>
        if b.phase.Connected? {
          ServedMatches(sys, id, streams[i], b);
          OneChanged(sys, sys', ids, streams, books, i, BookServed(sys.cfg, b));
        }
      case DidDrop(_) =>
        if b.phase.Connected? {
          OneChanged(sys, sys', ids, streams, books, i, b.(phase := S.Dropped));
        }
    }
  }

  /** And it is a sequence of the system's steps. */
  lemma DeedReached(sys: System, sys': System, ids: seq<Id>, books: seq<S.Book>, d: S.Deed)
    requires Reaches(sys, [], sys') && |ids| == |books|
    ensures Reaches(sys, [], DeedOf(sys', ids, books, d))
  {
    hide Reaches, DoAccept, DoDrop, DoEnd, DoRead, TakeMessage;
    if d.i < |ids| {
      var id, b := ids[d.i], books[d.i];
      OneStep(sys, [], sys', Accept(id));
      OneStep(sys, [], sys', Drop(id));
      var none: seq<Environment> := [];
    assert none + none == none;
      if d.DidServe? {
        ServedReached(sys, sys', id, b.pending);
      }
    }
  }

  lemma ServedReached(sys: System, sys': System, id: Id, pending: bytes)
    requires Reaches(sys, [], sys')
    ensures Reaches(sys, [], Served(sys', id, pending))
  {
    hide Reaches, DoEnd, DoRead, TakeMessage;
    var none: seq<Environment> := [];
    assert none + none == none;
    match TakeMessage(sys'.cfg.options, pending)
    case Got(_, rest) => ReadsReached(sys, [], sys', id, if |rest| <= |pending| then |pending| - |rest| else 0);
    case Short =>
      var mid := if id in sys'.conns && sys'.conns[id].cut then sys' else ReadMany(sys', id, |pending|);
      ReadsReached(sys, [], sys', id, |pending|);
      OneStep(sys, [], mid, End(id));
  }

  /** Whatever the loop does, the system can do, with the same callbacks for every client. */
  lemma {:induction false} LoopIsARun(sys: System, ids: seq<Id>, streams: seq<bytes>, deeds: seq<S.Deed>)
    requires Similar(sys, ids, streams, S.Opening(streams))
    ensures exists sys' :: Reaches(sys, [], sys') && sys'.libs == sys.libs && sys'.cfg == sys.cfg
                           && Similar(sys', ids, streams, S.Books(sys.cfg, streams, deeds))
  {
    hide Reaches, Similar, DeedOf;
    if deeds == [] {
      Stays(sys);
    } else {
      var front, d := deeds[..|deeds| - 1], deeds[|deeds| - 1];
      LoopIsARun(sys, ids, streams, front);
      var sys1 :| Reaches(sys, [], sys1) && sys1.libs == sys.libs && sys1.cfg == sys.cfg
                  && Similar(sys1, ids, streams, S.Books(sys.cfg, streams, front));
      var books := S.Books(sys.cfg, streams, front);
      assert |ids| == |books| by { SameLength(sys1, ids, streams, books); }
      DeedSimilar(sys1, ids, streams, books, d);
      DeedReached(sys, sys1, ids, books, d);
    }
  }

  lemma SameLength(sys: System, ids: seq<Id>, streams: seq<bytes>, books: seq<S.Book>)
    requires Similar(sys, ids, streams, books)
    ensures |ids| == |streams| == |books|
  {
  }

  // ----- The select loop observes -----

  lemma {:induction false} RunAppend(sys: System, a: seq<Action>, b: seq<Action>)
    ensures Run(sys, a + b) == Run(Run(sys, a), b)
    ensures Launches(a + b) == Launches(a) + Launches(b)
    decreases |b|
  {
    if b == [] {
      assert a + b == a;
    } else {
      var front, last := b[..|b| - 1], b[|b| - 1];
      assert a + b == (a + front) + [last] && b == front + [last];
      hide Step, Run, Launches;
      RunAppend(sys, a, front);
      RunSnoc(sys, a + front, last);
      RunSnoc(Run(sys, a), front, last);
      Assoc(Launches(a), Launches(front), if last.Launch? then [last.own] else []);
    }
  }

  lemma RunSnoc(sys: System, actions: seq<Action>, a: Action)
    ensures Run(sys, actions + [a]) == Step(Run(sys, actions), a)
    ensures Launches(actions + [a]) == Launches(actions) + if a.Launch? then [a.own] else []
  {
    hide Step;
    assert (actions + [a])[..|actions|] == actions;
  }

  /** The end of the loop: what was not finished is abandoned, and nothing that was called back changes. */
  predicate Stopped(conns: map<Id, Conn>, id: Id, b: S.Book) {
    if b.phase.Awaited? then b.seen == [] else
    && id in conns && conns[id].seen == b.seen
    && (b.phase.Closed? ==> conns[id].fate.AtDone? || conns[id].fate.AtEnd?)
    && (!b.phase.Closed? ==> conns[id].fate.Abandoned?)
  }

  lemma StopStops(sys: System, ids: seq<Id>, streams: seq<bytes>, books: seq<S.Book>, i: nat)
    requires Similar(sys, ids, streams, books) && i < |ids|
    ensures Stopped(DoStop(sys).conns, ids[i], books[i])
  {
    assert Delivers(sys, ids[i], streams[i]) && Matches(sys.conns, ids[i], streams[i], books[i]);
  }

  /** The loop and its end as a run of the system. */
  lemma StoppedRun(sys: System, ids: seq<Id>, streams: seq<bytes>, deeds: seq<S.Deed>, i: nat) returns (more: seq<Action>)
    requires Similar(sys, ids, streams, S.Opening(streams)) && i < |ids|
    ensures Launches(more) == [] && Run(sys, more).libs == sys.libs && i < |streams|
    ensures Stopped(Run(sys, more).conns, ids[i], S.Books(sys.cfg, streams, deeds)[i])
  {
    hide Similar, S.Books, Stopped;
    LoopIsARun(sys, ids, streams, deeds);
    var sys1 :| Reaches(sys, [], sys1) && sys1.libs == sys.libs && sys1.cfg == sys.cfg
                && Similar(sys1, ids, streams, S.Books(sys.cfg, streams, deeds));
    SameLength(sys1, ids, streams, S.Books(sys.cfg, streams, deeds));
    StopStops(sys1, ids, streams, S.Books(sys.cfg, streams, deeds), i);
    OneStep(sys, [], sys1, Stop);
    var none: seq<Environment> := [];
    assert none + none == none;
    more :| Run(sys, more) == Step(sys1, Stop) && Launches(more) == [];
  }

  lemma SameTree(cfg: Config, libdir: cstring, socket: cstring, env: Environment, envps: seq<Environment>,
                 actions: seq<Action>, actions': seq<Action>, i: nat)
    requires InTree(cfg, libdir, socket, env, envps, actions, i) && Launches(actions') == Launches(actions)
    ensures InTree(cfg, libdir, socket, env, envps, actions', i)
  {
  }

  /** What a connection of the tree has had called back at the end of a run. */
  lemma ObservedAfter(cfg: Config, libdir: cstring, socket: cstring, env: Environment, envps: seq<Environment>,
                      actions: seq<Action>, id: Id)
    requires InTree(cfg, libdir, socket, env, envps, actions, id.lib) && id in Run(Initial(cfg), actions).conns
    ensures Exists(Run(Initial(cfg), actions), id)
    ensures var o, s := LowFive(cfg.options), SockOf(Run(Initial(cfg), actions), id);
            var c := Run(Initial(cfg), actions).conns[id];
            && c.count <= Whole(o, s.log, |s.sent|) && c.seen == Reports(cfg, o, s.log[..c.count])
            && ((c.fate.AtDone? || c.fate.AtEnd?) && !s.broken ==>
                  c.seen == Reports(cfg, o, s.log[..Whole(o, s.log, |s.sent|)]))
  {
    hide Reports, Whole, InTree, Session, Run, Agree, Step;
    TreeIsObserved(cfg, libdir, socket, env, envps, actions, id);
    TreeAgrees(cfg, libdir, socket, env, envps, actions, id.lib);
    AgreesWithSession(cfg, actions, id);
    RunKeeps(Initial(cfg), actions);
    var sys, o := Run(Initial(cfg), actions), LowFive(cfg.options);
    var s := SockOf(sys, id);
    assert LibOk(sys.libs[id.lib]);
    SentIsIntended(sys.libs[id.lib], id.sock);
    PrefixSafety(cfg, o, s.log, s.finished, s.sent);
  }

  /** From voyeur_prepare to run_server. When a tree of processes, among any others, has done what it does, and the select
    loop then serves the connections in whatever order and rounds, up to the child's exit, the callbacks it makes for a
    connection of the tree are those of an initial part of the events sent in full; and of all of these, if the loop
    closed the connection on account of a message and the connection had not broken. */
  lemma SelectLoopObserves(cfg: Config, libdir: cstring, socket: cstring, env: Environment, envps: seq<Environment>,
                           actions: seq<Action>, ids: seq<Id>, streams: seq<bytes>, h: S.Host, calls: seq<Call>, i: nat)
    requires Similar(Run(Initial(cfg), actions), ids, streams, S.Opening(streams)) && i < |ids|
    requires InTree(cfg, libdir, socket, env, envps, actions, ids[i].lib)
    requires |streams| == |h.clients| && S.Follows(cfg, streams, h, calls)
    ensures Exists(Run(Initial(cfg), actions), ids[i])
    ensures var o, s := LowFive(cfg.options), SockOf(Run(Initial(cfg), actions), ids[i]);
            && (exists k :: 0 <= k <= Whole(o, s.log, |s.sent|) && On(i, calls) == Reports(cfg, o, s.log[..k]))
            && (i in h.finished && i < h.fds.next && !s.broken ==>
                  On(i, calls) == Reports(cfg, o, s.log[..Whole(o, s.log, |s.sent|)]))
  {
    hide Reports, Whole, InTree, S.Books, Reaches, Step, DoStop;
    var sys, id, o := Run(Initial(cfg), actions), ids[i], LowFive(cfg.options);
    assert Delivers(sys, id, streams[i]);
    RunKeeps(Initial(cfg), actions);
    var b := S.Books(cfg, streams, h.deeds)[i];
    assert S.BookFits(b, h, calls, i);
    var more := StoppedRun(sys, ids, streams, h.deeds, i);
    RunAppend(Initial(cfg), actions, more);
    assert Launches(actions + more) == Launches(actions);
    SameTree(cfg, libdir, socket, env, envps, actions, actions + more, id.lib);
    var s := SockOf(sys, id);
    if b.phase.Awaited? {
      NoReports(cfg, o, s.log);
    } else {
      ObservedAfter(cfg, libdir, socket, env, envps, actions + more, id);
      var c := Run(sys, more).conns[id];
      assert On(i, calls) == Reports(cfg, o, s.log[..c.count]);
    }
  }

  /** As the user asked. Let `user` be the context as it was registered and `cfg` what voyeur_prepare makes of it: every
    callback made for a process of the tree is of a registered kind, and has envp, PATH and the working directory exactly
    as the user's own option bytes ask. */
  lemma TreeSeesUserOptions(user: Config, cfg: Config, libdir: cstring, socket: cstring, env: Environment,
                            envps: seq<Environment>, actions: seq<Action>, id: Id)
    requires cfg == if user.execCb then user else user.(options := user.options.(exec := 16))
    requires InTree(cfg, libdir, socket, env, envps, actions, id.lib) && id in Run(Initial(cfg), actions).conns
    ensures forall v :: v in Run(Initial(cfg), actions).conns[id].seen ==>
              && (v.ExecSeen? ==>
                    && user.execCb && (v.envp.Some? <==> user.options.exec & 2 != 0)
                    && (v.pathVar.Some? <==> user.options.exec & 4 != 0) && (v.cwd.Some? <==> user.options.exec & 1 != 0))
              && (v.ExitSeen? ==> user.exitCb)
              && (v.OpenSeen? ==> user.openCb && (v.cwd.Some? <==> user.options.open & 1 != 0))
              && (v.CloseSeen? ==> user.closeCb)
  {
    hide Reports, InTree, Run;
    TreeIsObserved(cfg, libdir, socket, env, envps, actions, id);
    var s, c := SockOf(Run(Initial(cfg), actions), id), Run(Initial(cfg), actions).conns[id];
    LowFiveAgrees(cfg.options);
    OnlyWhatWasAsked(cfg, LowFive(cfg.options), s.log[..c.count]);
  }

  /** The same of the select loop. */
  lemma LoopSeesUserOptions(user: Config, cfg: Config, libdir: cstring, socket: cstring, env: Environment,
                            envps: seq<Environment>, actions: seq<Action>, ids: seq<Id>, streams: seq<bytes>,
                            h: S.Host, calls: seq<Call>, i: nat)
    requires cfg == if user.execCb then user else user.(options := user.options.(exec := 16))
    requires Similar(Run(Initial(cfg), actions), ids, streams, S.Opening(streams)) && i < |ids|
    requires InTree(cfg, libdir, socket, env, envps, actions, ids[i].lib)
    requires |streams| == |h.clients| && S.Follows(cfg, streams, h, calls)
    ensures forall v :: v in On(i, calls) ==>
              && (v.ExecSeen? ==>
                    && user.execCb && (v.envp.Some? <==> user.options.exec & 2 != 0)
                    && (v.pathVar.Some? <==> user.options.exec & 4 != 0) && (v.cwd.Some? <==> user.options.exec & 1 != 0))
              && (v.ExitSeen? ==> user.exitCb)
              && (v.OpenSeen? ==> user.openCb && (v.cwd.Some? <==> user.options.open & 1 != 0))
              && (v.CloseSeen? ==> user.closeCb)
  {
    hide Reports, InTree, Run, Similar, S.Follows, Whole;
    SelectLoopObserves(cfg, libdir, socket, env, envps, actions, ids, streams, h, calls, i);
    var o, s := LowFive(cfg.options), SockOf(Run(Initial(cfg), actions), ids[i]);
    var k :| 0 <= k <= Whole(o, s.log, |s.sent|) && On(i, calls) == Reports(cfg, o, s.log[..k]);
    LowFiveAgrees(cfg.options);
    OnlyWhatWasAsked(cfg, o, s.log[..k]);
  }
}
