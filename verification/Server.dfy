/** src/voyeur.c: the server loop. Its descriptors, its stale snapshots of them, and what it makes of each connection. */
module Server {
  import opened Bytes
  import opened Wire
  import opened Sessions
  import opened Net
  import opened Events

  const FD_SETSIZE: int := 1024

  /** What a descriptor refers to: the listening socket, the pipe from the waitpid thread, or the i-th accepted client. */
  datatype Desc = Listener | Pipe | Client(i: nat)

  /** The descriptor table of the server's process, with the closes so far: `closes` counts the successful ones by what
    they closed, `failed` lists the descriptors whose close failed with EBADF. `next` clients have been accepted. */
  datatype Fds = Fds(table: map<int, Desc>, closes: multiset<Desc>, failed: seq<int>, next: nat)

  function CloseFd(fds: Fds, fd: int): Fds {
    if fd in fds.table then fds.(table := fds.table - {fd}, closes := fds.closes + multiset{fds.table[fd]})
    else fds.(failed := fds.failed + [fd])
  }

  /** accept hands out a free descriptor below FD_SETSIZE, or fails; `waiting` tells whether a client is waiting. */
  predicate Accepts(fds: Fds, fd: int, waiting: bool) {
    waiting && 0 <= fd < FD_SETSIZE && fd !in fds.table
  }

  function AcceptFd(fds: Fds, fd: int): Fds {
    fds.(table := fds.table[fd := Client(fds.next)], next := fds.next + 1)
  }

  predicate IsOpen(fds: Fds, d: Desc) {
    exists fd :: fd in fds.table && fds.table[fd] == d
  }

  /** A descriptor's object is open, or has been closed, exactly once. */
  predicate ClosedOnce(fds: Fds, d: Desc) {
    fds.closes[d] == if (d.Client? && d.i >= fds.next) || IsOpen(fds, d) then 0 else 1
  }

  ghost predicate FdsOk(fds: Fds, server: int, pipe: int) {
    && (forall fd :: fd in fds.table ==> EntryOk(fds, server, pipe, fd))
    && (forall f, g :: f in fds.table && g in fds.table && fds.table[f] == fds.table[g] ==> f == g)
    && (forall d :: ClosedOnce(fds, d))
  }

  predicate EntryOk(fds: Fds, server: int, pipe: int, fd: int)
    requires fd in fds.table
  {
    && 0 <= fd < FD_SETSIZE
    && match fds.table[fd]
       case Listener => fd == server
       case Pipe => fd == pipe
       case Client(i) => i < fds.next && fd != server
  }

  lemma CloseKeeps(fds: Fds, server: int, pipe: int, fd: int)
    requires FdsOk(fds, server, pipe)
    ensures FdsOk(CloseFd(fds, fd), server, pipe)
  {
    var fds' := CloseFd(fds, fd);
    forall f | f in fds'.table ensures EntryOk(fds', server, pipe, f) {
      assert EntryOk(fds, server, pipe, f);
    }
    forall d ensures ClosedOnce(fds', d) {
      assert ClosedOnce(fds, d);
      if fd in fds.table && d == fds.table[fd] {
        assert EntryOk(fds, server, pipe, fd);
      } else if IsOpen(fds, d) {
        var f :| f in fds.table && fds.table[f] == d;
        assert f in fds'.table;
      }
    }
  }

  lemma AcceptKeeps(fds: Fds, server: int, pipe: int, fd: int)
    requires FdsOk(fds, server, pipe) && Accepts(fds, fd, true) && server in fds.table
    ensures FdsOk(AcceptFd(fds, fd), server, pipe)
  {
    var fds' := AcceptFd(fds, fd);
    forall f | f in fds'.table ensures EntryOk(fds', server, pipe, f) {
      if f != fd {
        assert EntryOk(fds, server, pipe, f);
      }
    }
    forall f | f in fds.table ensures fds.table[f] != Client(fds.next) {
      assert EntryOk(fds, server, pipe, f);
    }
    forall d ensures ClosedOnce(fds', d) {
      assert ClosedOnce(fds, d);
      if d == Client(fds.next) {
        assert fd in fds'.table && fds'.table[fd] == d;
      } else if IsOpen(fds, d) {
        var f :| f in fds.table && fds.table[f] == d;
        assert f in fds'.table;
      }
    }
  }

  /** What select answers: a temporary failure, or the readable and the failed descriptors; `newFd` is what accept will
    return if it is called in this pass. */
  datatype Round = Interrupted | Pass(readable: set<int>, failing: set<int>, newFd: int)

  /** Is `fd` a client's descriptor that select reported as readable and not as failing? */
  predicate ReadyClient(table: map<int, Desc>, round: Round, server: int, pipe: int, fd: int) {
    && round.Pass? && fd in round.readable && fd !in round.failing
    && fd != server && fd != pipe && fd in table && table[fd].Client?
  }

  /** The ready clients with descriptors below `n`, in ascending order of their descriptors. */
  function ReadyClients(table: map<int, Desc>, round: Round, server: int, pipe: int, n: nat): seq<nat> {
    if n == 0 then [] else
    ReadyClients(table, round, server, pipe, n - 1)
    + if ReadyClient(table, round, server, pipe, n - 1) then [table[n - 1].i] else []
  }

  /** The server's process: its descriptors, the clients that will connect (in the order of their connects), the pipe, and
    for which client each message was read. `finished` are the clients closed because handle_message said so, `dropped` those
    closed because of a failure, and `deeds` is everything the loop has done to clients, and `tables` what was open at the
    beginning of each pass. */
  class Host {
    const clients: seq<Socket>
    const pipe: Socket
    var fds: Fds
    var served: seq<nat>
    ghost var finished: set<nat>
    ghost var dropped: set<nat>
    ghost var deeds: seq<Deed>
    ghost var tables: seq<map<int, Desc>>

    ghost predicate Distinct() {
      && (forall i, j :: 0 <= i < j < |clients| ==> clients[i] != clients[j])
      && (forall i :: 0 <= i < |clients| ==> clients[i] != pipe && clients[i].id == i)
    }

    constructor (clients: seq<Socket>, pipe: Socket, fds: Fds)
      ensures this.clients == clients && this.pipe == pipe && this.fds == fds && served == [] && finished == {}
      ensures dropped == {} && deeds == [] && tables == []
    {
      this.clients, this.pipe, this.fds := clients, pipe, fds;
      served, finished, dropped, deeds, tables := [], {}, {}, [], [];
    }

    method Close(fd: int)
      modifies this`fds
      ensures fds == CloseFd(old(fds), fd)
    {
      fds := CloseFd(fds, fd);
    }

    method AcceptConnection(newFd: int) returns (fd: int)
      modifies this`fds
      ensures var ok := Accepts(old(fds), newFd, old(fds).next < |clients|);
              && fd == (if ok then newFd else -1)
              && fds == (if ok then AcceptFd(old(fds), newFd) else old(fds))
    {
      if Accepts(fds, newFd, fds.next < |clients|) {
        fds := AcceptFd(fds, newFd);
        fd := newFd;
      } else {
        fd := -1;
      }
    }

    /** The stream behind a descriptor that is not the listening socket. */
    function StreamOf(d: Desc): Socket
      requires d.Client? ==> d.i < |clients|
    {
      if d.Client? then clients[d.i] else pipe
    }
  }

  // ----- The books -----

  /** How far the server is with a client: it has not been accepted yet, it is open, it was closed because handle_message
    said so, or because select reported a failure. */
  datatype Phase = Awaited | Connected | Closed | Dropped

  /** A client's book: what its connection will still deliver, what has been called back, and how far it is. */
  datatype Book = Book(pending: bytes, seen: seq<View>, phase: Phase)

  /** What the loop does to a client. */
  datatype Deed = DidAccept(i: nat) | DidServe(i: nat) | DidDrop(i: nat)

  function DeedStep(cfg: Config, books: seq<Book>, d: Deed): (books': seq<Book>)
    ensures |books'| == |books|
  {
    if d.i >= |books| then books else
    var b := books[d.i];
    match d
    case DidAccept(i) => if b.phase.Awaited? then books[i := b.(phase := Connected)] else books
    case DidServe(i) =>
      if !b.phase.Connected? then books else
      var reply := HandleMessage(cfg, b.pending);
      books[i := Book(reply.rest, b.seen + reply.calls, if reply.keep then Connected else Closed)]
    case DidDrop(i) => if b.phase.Connected? then books[i := b.(phase := Dropped)] else books
  }

  function Opening(streams: seq<bytes>): (books: seq<Book>)
    ensures |books| == |streams|
    ensures forall i :: 0 <= i < |streams| ==> books[i] == Book(streams[i], [], Awaited)
  {
    seq(|streams|, i requires 0 <= i < |streams| => Book(streams[i], [], Awaited))
  }

  /** The books after `deeds`, if client i's connection delivers `streams[i]`. */
  function Books(cfg: Config, streams: seq<bytes>, deeds: seq<Deed>): (books: seq<Book>)
    ensures |books| == |streams|
  {
    if deeds == [] then Opening(streams)
    else DeedStep(cfg, Books(cfg, streams, deeds[..|deeds| - 1]), deeds[|deeds| - 1])
  }

  lemma BooksSnoc(cfg: Config, streams: seq<bytes>, deeds: seq<Deed>, d: Deed)
    ensures Books(cfg, streams, deeds + [d]) == DeedStep(cfg, Books(cfg, streams, deeds), d)
  {
    assert (deeds + [d])[..|deeds|] == deeds;
  }

  function ServedIn(deeds: seq<Deed>): seq<nat> {
    if deeds == [] then [] else
    var d := deeds[|deeds| - 1];
    ServedIn(deeds[..|deeds| - 1]) + if d.DidServe? then [d.i] else []
  }

  lemma ServedInSnoc(deeds: seq<Deed>, d: Deed)
    ensures ServedIn(deeds + [d]) == ServedIn(deeds) + if d.DidServe? then [d.i] else []
  {
    assert (deeds + [d])[..|deeds|] == deeds;
  }

  /** What a book says against the whole session of the connection. */
  predicate Balanced(cfg: Config, stream: bytes, b: Book) {
    if b.phase.Closed? then b.seen == Session(cfg, stream)
    else Session(cfg, stream) == b.seen + Session(cfg, b.pending)
  }

  /** The books balance: what was called back and what the rest of the connection amounts to are together the whole session;
    nothing is left once the client is finished. */
  lemma {:induction false} BooksBalance(cfg: Config, streams: seq<bytes>, deeds: seq<Deed>, i: nat)
    requires i < |streams|
    ensures Balanced(cfg, streams[i], Books(cfg, streams, deeds)[i])
  {
    hide HandleMessage;
    if deeds == [] {
      assert [] + Session(cfg, streams[i]) == Session(cfg, streams[i]);
    } else {
      var front, d := deeds[..|deeds| - 1], deeds[|deeds| - 1];
      BooksBalance(cfg, streams, front, i);
      var b := Books(cfg, streams, front)[i];
      if d == DidServe(i) && b.phase.Connected? {
        var reply := HandleMessage(cfg, b.pending);
        Assoc(b.seen, reply.calls, Session(cfg, reply.rest));
      }
    }
  }

  ghost function PhaseOf(h: Host, i: nat): Phase
    reads h
  {
    if i >= h.fds.next then Awaited else if i in h.finished then Closed else if i in h.dropped then Dropped else Connected
  }

  ghost predicate BookFits(b: Book, h: Host, calls: seq<Call>, i: nat)
    requires i < |h.clients|
    reads h, h.clients[i]
  {
    b == Book(h.clients[i].pending, On(i, calls), PhaseOf(h, i))
  }

  /** The books that the deeds amount to are right for every client. */
  ghost predicate Follows(cfg: Config, streams: seq<bytes>, h: Host, calls: seq<Call>)
    requires |streams| == |h.clients|
    reads h, h.clients
  {
    forall i :: 0 <= i < |h.clients| ==> BookFits(Books(cfg, streams, h.deeds)[i], h, calls, i)
  }

  lemma OneMoreDeed(h: Host, d: Deed)
    requires h.served == ServedIn(h.deeds)
    ensures h.served + (if d.DidServe? then [d.i] else []) == ServedIn(h.deeds + [d])
  {
    ServedInSnoc(h.deeds, d);
  }

  lemma BookServes(cfg: Config, streams: seq<bytes>, deeds: seq<Deed>, i: nat)
    requires i < |streams|
    ensures var books := Books(cfg, streams, deeds);
            books[i].phase.Connected? ==>
              var reply := HandleMessage(cfg, books[i].pending);
              Books(cfg, streams, deeds + [DidServe(i)])
              == books[i := Book(reply.rest, books[i].seen + reply.calls, if reply.keep then Connected else Closed)]
  {
    hide HandleMessage;
    BooksSnoc(cfg, streams, deeds, DidServe(i));
  }

  /** Reads one message of a client and keeps the books of all clients. */
  method ServeClient(ctx: Context, h: Host, i: nat, ghost streams: seq<bytes>) returns (keep: bool)
    requires h.Distinct() && i < |h.clients| && |streams| == |h.clients|
    modifies ctx`calls, h`served, h`finished, h`deeds, h.clients[i]
    ensures h.served == old(h.served) + [i] && h.deeds == old(h.deeds) + [DidServe(i)]
    ensures old(h.served == ServedIn(h.deeds)) ==> h.served == ServedIn(h.deeds)
    ensures h.finished == if keep then old(h.finished) else old(h.finished) + {i}
    ensures old(Follows(ctx.Cfg(), streams, h, ctx.calls) && PhaseOf(h, i).Connected?) ==>
              Follows(ctx.Cfg(), streams, h, ctx.calls)
  {
    hide HandleMessage, On, Tagged, Books, ServedIn;
    ghost var cfg := ctx.Cfg();
    ghost var calls, pending := ctx.calls, h.clients[i].pending;
    ghost var books := Books(cfg, streams, h.deeds);
    ServedInSnoc(h.deeds, DidServe(i));
    keep := ServeMessage(ctx, h.clients[i]);
    ghost var reply := HandleMessage(cfg, pending);
    forall j | 0 <= j < |h.clients| && j != i
      ensures old(Follows(cfg, streams, h, ctx.calls)) ==> BookFits(books[j], h, ctx.calls, j)
    {
      CallsAfter(j, i, calls, reply.calls);
      assert old(Follows(cfg, streams, h, ctx.calls)) ==> old(BookFits(books[j], h, ctx.calls, j));
    }
    CallsAfter(i, i, calls, reply.calls);
    assert old(Follows(cfg, streams, h, ctx.calls)) ==> old(BookFits(books[i], h, ctx.calls, i));
    NoteServe(h, i, cfg, streams, ctx.calls, On(i, calls), pending,
              old(Follows(cfg, streams, h, ctx.calls) && PhaseOf(h, i).Connected?));
    h.served := h.served + [i];
  }

  /** Enters in the books that a message of client `i` has been handled, which had `pending` to deliver. */
  ghost method NoteServe(h: Host, i: nat, cfg: Config, streams: seq<bytes>, calls: seq<Call>, seen: seq<View>,
                         pending: bytes, ok: bool)
    requires i < |h.clients| && |streams| == |h.clients|
    requires var reply := HandleMessage(cfg, pending);
             ok ==>
               && PhaseOf(h, i).Connected? && h.clients[i].pending == reply.rest && On(i, calls) == seen + reply.calls
               && Books(cfg, streams, h.deeds)[i] == Book(pending, seen, Connected)
               && forall j :: 0 <= j < |h.clients| && j != i ==> BookFits(Books(cfg, streams, h.deeds)[j], h, calls, j)
    modifies h`finished, h`deeds
    ensures h.deeds == old(h.deeds) + [DidServe(i)]
    ensures h.finished == if HandleMessage(cfg, pending).keep then old(h.finished) else old(h.finished) + {i}
    ensures ok ==> Follows(cfg, streams, h, calls)
  {
    hide HandleMessage, On, Books, ServedIn;
    BookServes(cfg, streams, h.deeds, i);
    h.deeds := h.deeds + [DidServe(i)];
    if !HandleMessage(cfg, pending).keep {
      h.finished := h.finished + {i};
    }
    forall j | 0 <= j < |h.clients| && ok ensures BookFits(Books(cfg, streams, h.deeds)[j], h, calls, j) {
      if j != i {
        assert old(BookFits(Books(cfg, streams, h.deeds)[j], h, calls, j));
      }
    }
  }

  lemma CallsAfter(j: nat, i: nat, calls: seq<Call>, views: seq<View>)
    ensures On(j, calls + Tagged(i, views)) == if j == i then On(j, calls) + views else On(j, calls)
  {
    OnAppend(j, calls, Tagged(i, views));
    OnTagged(j, i, views);
    assert On(j, calls) + [] == On(j, calls);
  }

  /** No client that the server is done with has an open descriptor, except possibly `spare`. */
  predicate NoneGone(fds: Fds, gone: set<nat>, spare: int) {
    && (forall i :: i in gone ==> i < fds.next)
    && (forall fd :: fd in fds.table && fd != spare && fds.table[fd].Client? ==> fds.table[fd].i !in gone)
  }

  /** Between two steps the set given to select is exactly the set of open descriptors. */
  ghost predicate HostOk(h: Host, server: int, pipe: int, active: set<int>)
    reads h
  {
    && FdsOk(h.fds, server, pipe) && active == h.fds.table.Keys && h.fds.next <= |h.clients|
    && NoneGone(h.fds, h.finished + h.dropped, -1) && h.served == ServedIn(h.deeds)
    && AllPresent(h.fds, h.finished + h.dropped)
  }

  /** Every client that the server is not done with has an open descriptor. */
  predicate AllPresent(fds: Fds, gone: set<nat>) {
    forall i :: 0 <= i < fds.next && i !in gone ==> IsOpen(fds, Client(i))
  }

  /** What is open was open before, under the same number, or is a new client. */
  predicate OnlyNew(fds: Fds, fds': Fds) {
    && fds.next <= fds'.next
    && forall fd :: fd in fds'.table ==>
         (fd in fds.table && fds.table[fd] == fds'.table[fd]) || (fds'.table[fd].Client? && fds'.table[fd].i >= fds.next)
  }

  predicate NotOpen(fds: Fds, d: Desc) {
    forall fd :: fd in fds.table ==> fds.table[fd] != d
  }

  lemma StaysClosed(fds: Fds, fds': Fds, d: Desc)
    requires NotOpen(fds, d) && OnlyNew(fds, fds') && (d.Client? ==> d.i < fds.next)
    ensures NotOpen(fds', d)
  {
  }

  lemma ClosedIsNotOpen(fds: Fds, server: int, pipe: int, fd: int)
    requires FdsOk(fds, server, pipe) && fd in fds.table
    ensures NotOpen(CloseFd(fds, fd), fds.table[fd]) && OnlyNew(fds, CloseFd(fds, fd))
    ensures forall i :: IsOpen(fds, Client(i)) && fds.table[fd] != Client(i) ==> IsOpen(CloseFd(fds, fd), Client(i))
  {
    var fds' := CloseFd(fds, fd);
    forall i | IsOpen(fds, Client(i)) && fds.table[fd] != Client(i) ensures IsOpen(fds', Client(i)) {
      var g :| g in fds.table && fds.table[g] == Client(i);
      assert g in fds'.table && fds'.table[g] == Client(i);
    }
  }

  lemma NewOnes(fds: Fds, fd: int)
    ensures OnlyNew(fds, fds) && (fd !in fds.table ==> OnlyNew(fds, AcceptFd(fds, fd)))
  {
  }

  lemma AcceptedIsOpen(fds: Fds, fd: int)
    requires fd !in fds.table
    ensures OnlyNew(fds, AcceptFd(fds, fd)) && IsOpen(AcceptFd(fds, fd), Client(fds.next))
    ensures forall d :: IsOpen(fds, d) ==> IsOpen(AcceptFd(fds, fd), d)
  {
    var fds' := AcceptFd(fds, fd);
    assert fds'.table[fd] == Client(fds.next);
    forall d | IsOpen(fds, d) ensures IsOpen(fds', d) {
      var g :| g in fds.table && fds.table[g] == d;
      assert g in fds'.table && fds'.table[g] == d;
    }
  }

  predicate PipeInPlace(fds: Fds, pipe: int) {
    pipe in fds.table && fds.table[pipe] == Pipe
  }

  /** The descriptors from `n` on that were open at the time of the select still refer to what they referred to then. */
  predicate SnapshotHolds(fds: Fds, table: map<int, Desc>, n: int) {
    forall fd :: fd in table && fd >= n ==> fd in fds.table && fds.table[fd] == table[fd]
  }

  /** Enters in the books that client `i` is dropped. */
  ghost method NoteDrop(h: Host, i: nat, cfg: Config, streams: seq<bytes>, calls: seq<Call>)
    requires i < h.fds.next && i !in h.finished && i !in h.dropped
    requires h.served == ServedIn(h.deeds) && |streams| == |h.clients|
    modifies h`dropped, h`deeds
    ensures h.dropped == old(h.dropped) + {i} && h.served == ServedIn(h.deeds)
    ensures old(Follows(cfg, streams, h, calls)) ==> Follows(cfg, streams, h, calls)
  {
    hide HandleMessage, Books, ServedIn;
    OneMoreDeed(h, DidDrop(i));
    BooksSnoc(cfg, streams, h.deeds, DidDrop(i));
    assert h.served + [] == h.served;
    h.dropped := h.dropped + {i};
    h.deeds := h.deeds + [DidDrop(i)];
    forall j | 0 <= j < |h.clients|
      ensures old(Follows(cfg, streams, h, calls)) ==> BookFits(Books(cfg, streams, h.deeds)[j], h, calls, j)
    {
      assert old(Follows(cfg, streams, h, calls)) ==> old(BookFits(Books(cfg, streams, h.deeds)[j], h, calls, j));
    }
  }

  lemma EntryIsOk(fds: Fds, server: int, pipe: int, fd: int)
    requires FdsOk(fds, server, pipe) && fd in fds.table
    ensures EntryOk(fds, server, pipe, fd) && (fds.table[fd].Client? ==> fds.table[fd].i < fds.next)
  {
  }

  /** Closing a descriptor and taking it out of the active set. */
  method CloseAndClear(h: Host, server: int, pipe: int, active: set<int>, fd: int) returns (active': set<int>)
    requires FdsOk(h.fds, server, pipe) && active == h.fds.table.Keys && h.fds.next <= |h.clients|
    requires NoneGone(h.fds, h.finished + h.dropped, fd) && fd in h.fds.table && h.served == ServedIn(h.deeds)
    requires AllPresent(h.fds, h.finished + h.dropped)
    requires h.fds.table[fd].Client? ==> h.fds.table[fd].i in h.finished + h.dropped
    modifies h`fds
    ensures HostOk(h, server, pipe, active') && h.fds == CloseFd(old(h.fds), fd)
  {
    hide ServedIn, IsOpen;
    CloseKeeps(h.fds, server, pipe, fd);
    ClosedIsNotOpen(h.fds, server, pipe, fd);
    h.Close(fd);
    active' := active - {fd};
  }

  method CloseFollowing(h: Host, server: int, pipe: int, active: set<int>, fd: int, ghost cfg: Config,
                        ghost streams: seq<bytes>, ghost calls: seq<Call>)
    returns (active': set<int>)
    requires FdsOk(h.fds, server, pipe) && active == h.fds.table.Keys && h.fds.next <= |h.clients|
    requires NoneGone(h.fds, h.finished + h.dropped, fd) && fd in h.fds.table && h.served == ServedIn(h.deeds)
    requires AllPresent(h.fds, h.finished + h.dropped)
    requires h.fds.table[fd].Client? ==> h.fds.table[fd].i in h.finished + h.dropped
    requires |streams| == |h.clients|
    modifies h`fds
    ensures HostOk(h, server, pipe, active') && h.fds == CloseFd(old(h.fds), fd)
    ensures old(Follows(cfg, streams, h, calls)) ==> Follows(cfg, streams, h, calls)
  {
    hide Books, ServedIn, FdsOk, NoneGone, AllPresent;
    active' := CloseAndClear(h, server, pipe, active, fd);
    forall j | 0 <= j < |h.clients|
      ensures old(Follows(cfg, streams, h, calls)) ==> BookFits(Books(cfg, streams, h.deeds)[j], h, calls, j)
    {
      assert old(Follows(cfg, streams, h, calls)) ==> old(BookFits(Books(cfg, streams, h.deeds)[j], h, calls, j));
    }
  }

  /** The same; if it is the descriptor of a client that handle_message has not finished, the client is dropped. */
  method Drop(h: Host, server: int, pipe: int, active: set<int>, fd: int, ghost cfg: Config, ghost streams: seq<bytes>,
              ghost calls: seq<Call>)
    returns (active': set<int>)
    requires FdsOk(h.fds, server, pipe) && active == h.fds.table.Keys && h.fds.next <= |h.clients|
    requires NoneGone(h.fds, h.finished + h.dropped, fd) && fd in h.fds.table && h.served == ServedIn(h.deeds)
    requires h.fds.table[fd].Client? ==> h.fds.table[fd].i !in h.dropped
    requires AllPresent(h.fds, h.finished + h.dropped)
    requires |streams| == |h.clients|
    modifies h`fds, h`dropped, h`deeds
    ensures HostOk(h, server, pipe, active') && h.fds == CloseFd(old(h.fds), fd)
    ensures old(h.dropped) <= h.dropped
    ensures var d := old(h.fds).table[fd];
            NotOpen(h.fds, d) && (d.Client? && d.i !in h.finished ==> d.i in h.dropped)
    ensures OnlyNew(old(h.fds), h.fds)
    ensures old(Follows(cfg, streams, h, calls)) ==> Follows(cfg, streams, h, calls)
  {
    ClosedIsNotOpen(h.fds, server, pipe, fd);
    hide Books, ServedIn, OnlyNew, NotOpen;
    EntryIsOk(h.fds, server, pipe, fd);
    ghost var d := h.fds.table[fd];
    if d.Client? && d.i !in h.finished {
      hide IsOpen;
      NoteDrop(h, d.i, cfg, streams, calls);
    }
    active' := CloseFollowing(h, server, pipe, active, fd, cfg, streams, calls);
  }

  /** accept, and the new descriptor enters the active set. */
  method AcceptAndSet(h: Host, server: int, pipe: int, active: set<int>, newFd: int) returns (active': set<int>)
    requires HostOk(h, server, pipe, active) && server in h.fds.table
    modifies h`fds
    ensures HostOk(h, server, pipe, active')
    ensures h.fds == if Accepts(old(h.fds), newFd, old(h.fds).next < |h.clients|) then AcceptFd(old(h.fds), newFd)
                     else old(h.fds)
  {
    if Accepts(h.fds, newFd, h.fds.next < |h.clients|) {
      AcceptKeeps(h.fds, server, pipe, newFd);
      AcceptedIsOpen(h.fds, newFd);
    }
    hide IsOpen;
    var fd := h.AcceptConnection(newFd);
    active' := if fd >= 0 then active + {fd} else active;
  }

  /** The accepting branch. */
  method AcceptOne(h: Host, server: int, pipe: int, active: set<int>, newFd: int, ghost cfg: Config,
                   ghost streams: seq<bytes>, ghost calls: seq<Call>)
    returns (active': set<int>)
    requires HostOk(h, server, pipe, active) && server in h.fds.table && |streams| == |h.clients|
    modifies h`fds, h`deeds
    ensures HostOk(h, server, pipe, active')
    ensures forall fd :: fd in old(h.fds.table) ==> fd in h.fds.table && h.fds.table[fd] == old(h.fds.table)[fd]
    ensures h.fds.failed == old(h.fds.failed) && h.fds.next >= old(h.fds.next)
    ensures h.fds == if 0 <= newFd < 1024 && newFd !in old(h.fds).table && old(h.fds).next < |h.clients|
                     then AcceptFd(old(h.fds), newFd) else old(h.fds)
    ensures OnlyNew(old(h.fds), h.fds)
    ensures old(Follows(cfg, streams, h, calls)) ==> Follows(cfg, streams, h, calls)
  {
    NewOnes(h.fds, newFd);
    hide Books, ServedIn, FdsOk, AllPresent, OnlyNew;
    ghost var i, ok := h.fds.next, Follows(cfg, streams, h, calls);
    ghost var books := Books(cfg, streams, h.deeds);
    active' := AcceptAndSet(h, server, pipe, active, newFd);
    forall j | 0 <= j < |h.clients| && (j != i || h.fds.next == i)
      ensures ok ==> BookFits(books[j], h, calls, j)
    {
      assert ok ==> old(BookFits(books[j], h, calls, j));
    }
    if h.fds.next > i {
      assert ok ==> old(BookFits(books[i], h, calls, i));
      NoteAccept(h, i, cfg, streams, calls, ok);
    }
  }

  /** Enters in the books that client `i` has been accepted. */
  ghost method NoteAccept(h: Host, i: nat, cfg: Config, streams: seq<bytes>, calls: seq<Call>, ok: bool)
    requires i < |h.clients| && |streams| == |h.clients| && h.served == ServedIn(h.deeds)
    requires ok ==>
               && PhaseOf(h, i).Connected?
               && Books(cfg, streams, h.deeds)[i] == Book(h.clients[i].pending, On(i, calls), Awaited)
               && forall j :: 0 <= j < |h.clients| && j != i ==> BookFits(Books(cfg, streams, h.deeds)[j], h, calls, j)
    modifies h`deeds
    ensures h.served == ServedIn(h.deeds)
    ensures ok ==> Follows(cfg, streams, h, calls)
  {
    hide Books, ServedIn;
    OneMoreDeed(h, DidAccept(i));
    BooksSnoc(cfg, streams, h.deeds, DidAccept(i));
    assert h.served + [] == h.served;
    h.deeds := h.deeds + [DidAccept(i)];
    forall j | 0 <= j < |h.clients| && ok ensures BookFits(Books(cfg, streams, h.deeds)[j], h, calls, j) {
      if j != i {
        assert old(BookFits(Books(cfg, streams, h.deeds)[j], h, calls, j));
      }
    }
  }

  /** `status` is the integer the pipe delivers, if it delivers one. */
  predicate StatusRead(pipe: bytes, status: int32) {
    TakeInt(pipe).Got? ==> status == TakeInt(pipe).value
  }

  /** The branch for a client that is ready. */
  method ServeReady(ctx: Context, h: Host, server: int, pipe: int, active: set<int>, fd: int, ghost streams: seq<bytes>)
    returns (active': set<int>)
    requires h.Distinct() && |streams| == |h.clients| && HostOk(h, server, pipe, active)
    requires fd in h.fds.table && h.fds.table[fd].Client?
    modifies ctx`calls, h`fds, h`served, h`finished, h`deeds, h.clients
    ensures HostOk(h, server, pipe, active')
    ensures h.fds == if old(h.fds).table[fd].i in h.finished then CloseFd(old(h.fds), fd) else old(h.fds)
    ensures h.served == old(h.served) + [old(h.fds).table[fd].i]
    ensures old(h.finished) <= h.finished && h.dropped == old(h.dropped)
    ensures OnlyNew(old(h.fds), h.fds)
    ensures old(Follows(ctx.Cfg(), streams, h, ctx.calls)) ==> Follows(ctx.Cfg(), streams, h, ctx.calls)
  {
    ClosedIsNotOpen(h.fds, server, pipe, fd);
    NewOnes(h.fds, 0);
    hide Books, ServedIn, HandleMessage, Follows, OnlyNew;
    EntryIsOk(h.fds, server, pipe, fd);
    active' := active;
    var i := h.fds.table[fd].i;
    var keep := ServeClient(ctx, h, i, streams);
    if !keep {
      active' := CloseFollowing(h, server, pipe, active, fd, ctx.Cfg(), streams, ctx.calls);
    }
  }

  /** The loop body for a descriptor that select reported. `exited` tells that it was the pipe. `quiet` promises that the
    pipe has never failed, so that its number still means the pipe; the books are kept under that promise only. */
  method ServeFd(ctx: Context, h: Host, round: Round, server: int, pipe: int, active: set<int>, fd: int,
                 ghost table: map<int, Desc>, ghost streams: seq<bytes>, ghost quiet: bool)
    returns (active': set<int>, exited: bool, status: int32)
    requires h.Distinct() && |streams| == |h.clients| && server != pipe
    requires HostOk(h, server, pipe, active) && SnapshotHolds(h.fds, table, fd)
    requires round.Pass? && fd in table && (fd in round.readable || fd in round.failing)
    requires quiet ==> Follows(ctx.Cfg(), streams, h, ctx.calls)
    requires quiet ==> PipeInPlace(Fds(table, multiset{}, [], 0), pipe) && pipe !in round.failing
    modifies ctx`calls, h, h.clients, h.pipe
    ensures HostOk(h, server, pipe, active') && SnapshotHolds(h.fds, table, fd + 1)
    ensures h.fds.failed == old(h.fds.failed) && h.fds.next >= old(h.fds.next)
    ensures h.served == old(h.served) + if ReadyClient(table, round, server, pipe, fd) then [table[fd].i] else []
    ensures quiet ==> Follows(ctx.Cfg(), streams, h, ctx.calls)
    ensures exited == (fd == pipe && fd in round.readable && fd !in round.failing)
    ensures quiet && exited ==> StatusRead(old(h.pipe.pending), status)
    ensures quiet && !exited ==> h.pipe.pending == old(h.pipe.pending)
    ensures quiet && fd != pipe && PipeInPlace(old(h.fds), pipe) ==> PipeInPlace(h.fds, pipe)
    ensures OnlyNew(old(h.fds), h.fds)
    ensures fd in round.failing || fd == pipe ==> NotOpen(h.fds, table[fd])
    ensures fd != server || fd in round.failing ==> h.fds.next == old(h.fds.next)
    ensures fd == server && fd !in round.failing ==>
              h.fds.next == old(h.fds.next) + if 0 <= round.newFd < 1024 && round.newFd !in old(h.fds).table
                                                 && old(h.fds).next < |h.clients| then 1 else 0
    ensures quiet && exited && old(h.pipe.pending) == [] ==> status == 0
    ensures !exited ==> status == 0
    ensures h.tables == old(h.tables)
  {
    hide Books, ServedIn, HandleMessage, Follows, AllPresent, IsOpen, OnlyNew, NotOpen;
    active', exited, status := active, false, 0;
    assert h.served + [] == h.served;
    EntryIsOk(h.fds, server, pipe, fd);
    if fd in round.failing {
      active' := Drop(h, server, pipe, active, fd, ctx.Cfg(), streams, ctx.calls);
    } else if fd == server {
      active' := AcceptOne(h, server, pipe, active, round.newFd, ctx.Cfg(), streams, ctx.calls);
    } else if fd == pipe {
      exited := true;
      var _, v := ReadInt(h.StreamOf(h.fds.table[fd]));
      status := v;
      active' := Drop(h, server, pipe, active, fd, ctx.Cfg(), streams, ctx.calls);
    } else {
      active' := ServeReady(ctx, h, server, pipe, active, fd, streams);
    }
  }

  lemma OnlyNewTrans(a: Fds, b: Fds, c: Fds)
    requires OnlyNew(a, b) && OnlyNew(b, c)
    ensures OnlyNew(a, c)
  {
  }

  /** A number that was free stays free until somebody is accepted. */
  lemma StillFree(fds: Fds, fds': Fds, server: int, pipe: int, fd: int)
    requires OnlyNew(fds, fds') && FdsOk(fds', server, pipe)
    ensures fds'.next == fds.next && fd !in fds.table ==> fd !in fds'.table
  {
    if fd in fds'.table {
      assert EntryOk(fds', server, pipe, fd);
    }
  }

  /** What a pass has done to the descriptors up to `fd`: what failed is closed, like the pipe if that is ready; at most one
    client has been accepted, and one if the listening socket was ready and accept had a free descriptor to give. */
  predicate PassSoFar(fds: Fds, fds': Fds, round: Round, server: int, pipe: int, fd: int, clients: nat)
    requires round.Pass?
  {
    var asked := server < fd && server in fds.table && server in round.readable && server !in round.failing;
    && OnlyNew(fds, fds')
    && (forall f :: f in fds.table && f < fd && (f in round.failing || (f == pipe && f in round.readable)) ==>
          NotOpen(fds', fds.table[f]))
    && fds'.next <= fds.next + (if asked then 1 else 0)
    && (asked && 0 <= round.newFd < 1024 && round.newFd !in fds.table && fds.next < clients ==> fds'.next == fds.next + 1)
  }

  lemma PassStep(fds: Fds, fds1: Fds, fds2: Fds, round: Round, server: int, pipe: int, fd: int, clients: nat)
    requires round.Pass? && FdsOk(fds, server, pipe) && FdsOk(fds1, server, pipe)
    requires PassSoFar(fds, fds1, round, server, pipe, fd, clients) && OnlyNew(fds1, fds2)
    requires fd in fds.table && (fd in round.readable || fd in round.failing)
    requires fd in round.failing || fd == pipe ==> NotOpen(fds2, fds.table[fd])
    requires fd != server || fd in round.failing ==> fds2.next == fds1.next
    requires fd == server && fd !in round.failing ==>
               fds2.next == fds1.next + if 0 <= round.newFd < 1024 && round.newFd !in fds1.table
                                           && fds1.next < clients then 1 else 0
    ensures PassSoFar(fds, fds2, round, server, pipe, fd + 1, clients)
  {
    OnlyNewTrans(fds, fds1, fds2);
    StillFree(fds, fds1, server, pipe, round.newFd);
    forall f | f in fds.table && f < fd && (f in round.failing || (f == pipe && f in round.readable))
      ensures NotOpen(fds2, fds.table[f])
    {
      EntryIsOk(fds, server, pipe, f);
      StaysClosed(fds1, fds2, fds.table[f]);
    }
  }

  lemma LaterStillHolds(fds: Fds, table: map<int, Desc>, n: int)
    requires SnapshotHolds(fds, table, n)
    ensures SnapshotHolds(fds, table, n + 1)
  {
  }

  lemma NothingSoFar(fds: Fds, round: Round, server: int, pipe: int, clients: nat)
    requires round.Pass? && FdsOk(fds, server, pipe)
    ensures PassSoFar(fds, fds, round, server, pipe, 0, clients)
  {
    forall f | f in fds.table ensures f >= 0 {
      EntryIsOk(fds, server, pipe, f);
    }
  }

  lemma WholePass(fds: Fds, fds': Fds, round: Round, server: int, pipe: int, clients: nat)
    requires round.Pass? && FdsOk(fds, server, pipe) && PassSoFar(fds, fds', round, server, pipe, FD_SETSIZE, clients)
    ensures OnlyNew(fds, fds')
    ensures forall f :: f in fds.table && (f in round.failing || (f == pipe && f in round.readable)) ==>
              NotOpen(fds', fds.table[f])
    ensures fds'.next - fds.next <= if server in fds.table && server in round.readable && server !in round.failing then 1
                                    else 0
    ensures (server in fds.table && server in round.readable && server !in round.failing
             && 0 <= round.newFd < 1024 && round.newFd !in fds.table && fds.next < clients) ==> fds'.next == fds.next + 1
    ensures pipe in fds.table ==> pipe < FD_SETSIZE
  {
    forall f | f in fds.table ensures f < FD_SETSIZE {
      EntryIsOk(fds, server, pipe, f);
    }
  }

  lemma PassSkip(fds: Fds, fds1: Fds, round: Round, server: int, pipe: int, fd: int, clients: nat)
    requires round.Pass? && PassSoFar(fds, fds1, round, server, pipe, fd, clients)
    requires fd in fds.table ==> fd !in round.readable && fd !in round.failing
    ensures PassSoFar(fds, fds1, round, server, pipe, fd + 1, clients)
  {
  }

  /** The loop body, for any descriptor. `exited` tells that the pipe has been visited before. */
  method VisitFd(ctx: Context, h: Host, round: Round, server: int, pipe: int, active: set<int>, fd: int,
                 readFds: set<int>, errorFds: set<int>, ghost fds: Fds, ghost streams: seq<bytes>, ghost quiet: bool,
                 ghost exited: bool)
    returns (active': set<int>, hit: bool, status: int32)
    requires h.Distinct() && |streams| == |h.clients| && server != pipe && round.Pass? && FdsOk(fds, server, pipe)
    requires HostOk(h, server, pipe, active) && SnapshotHolds(h.fds, fds.table, fd)
    requires readFds == round.readable * fds.table.Keys && errorFds == round.failing * fds.table.Keys
    requires quiet ==> Follows(ctx.Cfg(), streams, h, ctx.calls)
    requires quiet ==> PipeInPlace(fds, pipe) && pipe !in round.failing
    requires quiet && !exited ==> PipeInPlace(h.fds, pipe)
    requires PassSoFar(fds, h.fds, round, server, pipe, fd, |h.clients|)
    modifies ctx`calls, h, h.clients, h.pipe
    ensures HostOk(h, server, pipe, active') && SnapshotHolds(h.fds, fds.table, fd + 1)
    ensures h.fds.failed == old(h.fds.failed) && h.tables == old(h.tables)
    ensures h.served == old(h.served) + if ReadyClient(fds.table, round, server, pipe, fd) then [fds.table[fd].i] else []
    ensures quiet ==> Follows(ctx.Cfg(), streams, h, ctx.calls) && hit == (fd == pipe && pipe in round.readable)
    ensures quiet && hit ==> StatusRead(old(h.pipe.pending), status) && (old(h.pipe.pending) == [] ==> status == 0)
    ensures quiet && !hit ==> h.pipe.pending == old(h.pipe.pending)
    ensures quiet && !exited && !hit ==> PipeInPlace(h.fds, pipe)
    ensures PassSoFar(fds, h.fds, round, server, pipe, fd + 1, |h.clients|)
  {
    assert quiet ==> PipeInPlace(Fds(fds.table, multiset{}, [], 0), pipe);
    ghost var was := h.fds;
    hide AllPresent, IsOpen, NotOpen, OnlyNew, PassSoFar, FdsOk, NoneGone, Follows, SnapshotHolds, ServedIn, StatusRead;
    if fd in errorFds || fd in readFds {
      active', hit, status := ServeFd(ctx, h, round, server, pipe, active, fd, fds.table, streams, quiet);
      PassStep(fds, was, h.fds, round, server, pipe, fd, |h.clients|);
    } else {
      active', hit, status := active, false, 0;
      PassSkip(fds, was, round, server, pipe, fd, |h.clients|);
      LaterStillHolds(was, fds.table, fd);
      assert h.served + [] == h.served;
    }
  }

  lemma ReadyNext(served: seq<nat>, table: map<int, Desc>, round: Round, server: int, pipe: int, fd: nat)
    ensures served + ReadyClients(table, round, server, pipe, fd)
            + (if ReadyClient(table, round, server, pipe, fd) then [table[fd].i] else [])
            == served + ReadyClients(table, round, server, pipe, fd + 1)
  {
    Assoc(served, ReadyClients(table, round, server, pipe, fd),
          if ReadyClient(table, round, server, pipe, fd) then [table[fd].i] else []);
  }

  /** One pass over a snapshot. Exactly the clients that select reported as readable and not failing get one
    handle_message each, in ascending order of their descriptors, and no other client gets any, although descriptors are
    closed and reused during the pass. What failed is closed, and a client is accepted if the listening socket is ready. */
  method ServePass(ctx: Context, h: Host, round: Round, server: int, pipe: int, active: set<int>,
                   ghost streams: seq<bytes>, ghost quiet: bool)
    returns (active': set<int>, exited: bool, status: int32)
    requires h.Distinct() && |streams| == |h.clients| && server != pipe && round.Pass?
    requires HostOk(h, server, pipe, active)
    requires quiet ==> Follows(ctx.Cfg(), streams, h, ctx.calls)
    requires quiet ==> PipeInPlace(h.fds, pipe) && pipe !in round.failing
    modifies ctx`calls, h, h.clients, h.pipe
    ensures HostOk(h, server, pipe, active')
    ensures h.fds.failed == old(h.fds.failed) && h.fds.next >= old(h.fds.next)
    ensures h.served == old(h.served) + ReadyClients(old(h.fds.table), round, server, pipe, FD_SETSIZE)
    ensures quiet ==> Follows(ctx.Cfg(), streams, h, ctx.calls)
    ensures quiet && exited ==> StatusRead(old(h.pipe.pending), status)
    ensures quiet && !exited ==> PipeInPlace(h.fds, pipe) && h.pipe.pending == old(h.pipe.pending)
    ensures quiet ==> exited == (pipe in round.readable)
    ensures quiet && exited && old(h.pipe.pending) == [] ==> status == 0
    ensures !exited ==> status == 0
    ensures h.tables == old(h.tables) + [old(h.fds).table]
    ensures OnlyNew(old(h.fds), h.fds)
    ensures forall f :: f in old(h.fds).table && (f in round.failing || (f == pipe && f in round.readable)) ==>
              NotOpen(h.fds, old(h.fds).table[f])
    ensures h.fds.next - old(h.fds.next) <= if server in old(h.fds).table && server in round.readable
                                               && server !in round.failing then 1 else 0
    ensures (server in old(h.fds).table && server in round.readable && server !in round.failing
             && 0 <= round.newFd < 1024 && round.newFd !in old(h.fds).table && old(h.fds.next) < |h.clients|) ==>
              h.fds.next == old(h.fds.next) + 1
  {
    h.tables := h.tables + [h.fds.table];
    ghost var fds := h.fds;
    NothingSoFar(fds, round, server, pipe, |h.clients|);
    assert SnapshotHolds(h.fds, fds.table, 0);
    var readFds, errorFds := round.readable * active, round.failing * active;
    active', exited, status := active, false, 0;
    assert h.served + [] == h.served;
    assert ReadyClients(fds.table, round, server, pipe, 0) == [];
    hide HostOk, PassSoFar, FdsOk, Follows, SnapshotHolds, StatusRead, PipeInPlace, ReadyClient, ReadyClients, ServedIn;
    var fd := 0;
    while fd < FD_SETSIZE
      invariant 0 <= fd <= FD_SETSIZE
      invariant HostOk(h, server, pipe, active') && SnapshotHolds(h.fds, fds.table, fd)
      invariant h.fds.failed == fds.failed && h.tables == old(h.tables) + [fds.table]
      invariant h.served == old(h.served) + ReadyClients(fds.table, round, server, pipe, fd)
      invariant quiet ==> Follows(ctx.Cfg(), streams, h, ctx.calls)
      invariant quiet && exited ==> StatusRead(old(h.pipe.pending), status) && (old(h.pipe.pending) == [] ==> status == 0)
      invariant quiet && !exited ==> PipeInPlace(h.fds, pipe) && h.pipe.pending == old(h.pipe.pending)
      invariant quiet ==> exited == (pipe < fd && pipe in round.readable)
      invariant !exited ==> status == 0
      invariant PassSoFar(fds, h.fds, round, server, pipe, fd, |h.clients|)
    {
      var hit, value;
      active', hit, value :=
        VisitFd(ctx, h, round, server, pipe, active', fd, readFds, errorFds, fds, streams, quiet, exited);
      if hit {
        exited, status := true, value;
      }
      ReadyNext(old(h.served), fds.table, round, server, pipe, fd);
      fd := fd + 1;
    }
    WholePass(fds, h.fds, round, server, pipe, |h.clients|);
  }

  /** No pass reports a failure of the pipe. */
  predicate PipeQuiet(rounds: seq<Round>, pipe: int) {
    forall r :: r in rounds && r.Pass? ==> pipe !in r.failing
  }

  /** WIFEXITED and WEXITSTATUS. */
  function ExitCode(status: int32): int {
    if status % 128 == 0 then (status / 256) % 256 else -1
  }

  /** The exit code of a child that has exited; -1 for one that a signal has ended, with or without a core. */
  lemma ExitCodes(code: int, signal: int, core: bool)
    requires 0 <= code < 256 && 0 < signal < 128
    ensures ExitCode(256 * code) == code
    ensures ExitCode(256 * code + (if core then 128 else 0) + signal) == -1
  {
    assert (256 * code) % 128 == 0;
    assert (256 * code + (if core then 128 else 0) + signal) % 128 == signal;
  }

  /** The passes among the answers of select. */
  function Passes(rounds: seq<Round>): seq<Round> {
    if rounds == [] then [] else
    Passes(rounds[..|rounds| - 1]) + if rounds[|rounds| - 1].Pass? then [rounds[|rounds| - 1]] else []
  }

  /** Whom these passes serve, given what was open at the beginning of each. */
  function ServedOver(tables: seq<map<int, Desc>>, passes: seq<Round>, server: int, pipe: int): seq<nat>
    requires |tables| == |passes|
  {
    if passes == [] then [] else
    ServedOver(tables[..|tables| - 1], passes[..|passes| - 1], server, pipe)
    + ReadyClients(tables[|tables| - 1], passes[|passes| - 1], server, pipe, FD_SETSIZE)
  }

  /** The pipe tells in this round that the child has exited. */
  predicate TellsExit(round: Round, pipe: int) {
    round.Pass? && pipe in round.readable
  }

  /** The cleanup sweep: closes every descriptor of the active set, whether it is still open or not. */
  method Sweep(h: Host, server: int, pipe: int, active: set<int>)
    requires FdsOk(h.fds, server, pipe) && server !in h.fds.table
    requires h.fds.table.Keys == active - {server} && (server in active ==> 0 <= server < FD_SETSIZE)
    modifies h`fds
    ensures FdsOk(h.fds, server, pipe) && h.fds.table == map[] && h.fds.next == old(h.fds.next)
    ensures h.fds.failed == old(h.fds.failed) + if server in active then [server] else []
  {
    assert h.fds.failed + [] == h.fds.failed;
    assert forall f :: f in h.fds.table ==> EntryOk(h.fds, server, pipe, f);
    var fd := 0;
    while fd < FD_SETSIZE
      invariant 0 <= fd <= FD_SETSIZE
      invariant FdsOk(h.fds, server, pipe) && h.fds.next == old(h.fds.next)
      invariant forall f :: f in h.fds.table <==> f in active && f != server && fd <= f < FD_SETSIZE
      invariant h.fds.failed == old(h.fds.failed) + if server in active && server < fd then [server] else []
    {
      if fd in active {
        CloseKeeps(h.fds, server, pipe, fd);
        h.Close(fd);
      }
      fd := fd + 1;
    }
    assert forall f :: f !in h.fds.table;
    assert h.fds.table == map[];
  }

  /** The end of run_server. If the listening socket was already closed because of an error, its explicit close fails;
    otherwise the sweep tries to close it again. */
  method CloseAll(h: Host, server: int, pipe: int, active: set<int>, ghost cfg: Config, ghost streams: seq<bytes>,
                  ghost calls: seq<Call>)
    requires HostOk(h, server, pipe, active) && 0 <= server < FD_SETSIZE && |streams| == |h.clients|
    modifies h`fds
    ensures old(Follows(cfg, streams, h, calls)) ==> Follows(cfg, streams, h, calls)
    ensures h.served == ServedIn(h.deeds) && forall i :: i in h.finished ==> i < h.fds.next
    ensures h.fds.table == map[] && h.fds.failed == old(h.fds.failed) + [server] && h.fds.next == old(h.fds.next)
    ensures h.fds.closes[Listener] == 1 && h.fds.closes[Pipe] == 1
    ensures forall i: nat :: h.fds.closes[Client(i)] == if i < h.fds.next then 1 else 0
  {
    CloseKeeps(h.fds, server, pipe, server);
    h.Close(server);
    Sweep(h, server, pipe, active);
    AllClosed(h.fds, server, pipe);
    hide Books, FdsOk, ServedIn;
    forall i | 0 <= i < |h.clients|
      ensures old(Follows(cfg, streams, h, calls)) ==> BookFits(Books(cfg, streams, h.deeds)[i], h, calls, i)
    {
      assert old(Follows(cfg, streams, h, calls)) ==> old(BookFits(Books(cfg, streams, h.deeds)[i], h, calls, i));
    }
  }

  lemma PassesSnoc(rounds: seq<Round>, n: nat)
    requires n < |rounds|
    ensures Passes(rounds[..n + 1]) == Passes(rounds[..n]) + if rounds[n].Pass? then [rounds[n]] else []
  {
    assert rounds[..n + 1][..n] == rounds[..n];
  }

  lemma ServedOverSnoc(tables: seq<map<int, Desc>>, table: map<int, Desc>, passes: seq<Round>, round: Round,
                       server: int, pipe: int)
    requires |tables| == |passes|
    ensures ServedOver(tables + [table], passes + [round], server, pipe)
            == ServedOver(tables, passes, server, pipe) + ReadyClients(table, round, server, pipe, FD_SETSIZE)
  {
    assert (tables + [table])[..|tables|] == tables && (passes + [round])[..|passes|] == passes;
  }

  /** One answer of select. */
  method OneRound(ctx: Context, h: Host, round: Round, server: int, pipe: int, active: set<int>,
                  ghost streams: seq<bytes>, ghost quiet: bool)
    returns (active': set<int>, exited: bool, status: int32)
    requires h.Distinct() && |streams| == |h.clients| && server != pipe
    requires HostOk(h, server, pipe, active)
    requires quiet ==> Follows(ctx.Cfg(), streams, h, ctx.calls)
    requires quiet ==> PipeInPlace(h.fds, pipe) && (round.Pass? ==> pipe !in round.failing)
    modifies ctx`calls, h, h.clients, h.pipe
    ensures HostOk(h, server, pipe, active') && h.fds.failed == old(h.fds.failed)
    ensures h.tables == old(h.tables) + if round.Pass? then [old(h.fds).table] else []
    ensures h.served == old(h.served) + if round.Pass? then ReadyClients(old(h.fds).table, round, server, pipe, FD_SETSIZE)
                                        else []
    ensures quiet ==> Follows(ctx.Cfg(), streams, h, ctx.calls) && exited == TellsExit(round, pipe)
    ensures quiet && exited ==> StatusRead(old(h.pipe.pending), status) && (old(h.pipe.pending) == [] ==> status == 0)
    ensures quiet && !exited ==> PipeInPlace(h.fds, pipe) && h.pipe.pending == old(h.pipe.pending)
    ensures !exited ==> status == 0
  {
    hide HostOk, Follows, ReadyClients, StatusRead, PipeInPlace;
    if round.Interrupted? {
      assert h.tables + [] == h.tables && h.served + [] == h.served;
      return active, false, 0;
    }
    active', exited, status := ServePass(ctx, h, round, server, pipe, active, streams, quiet);
  }

  /** These rounds have been taken, and their passes have served whom they were to serve. */
  predicate TakenAll(tables: seq<map<int, Desc>>, served: seq<nat>, rounds: seq<Round>, server: int, pipe: int) {
    |tables| == |Passes(rounds)| && served == ServedOver(tables, Passes(rounds), server, pipe)
  }

  predicate NoExit(rounds: seq<Round>, pipe: int) {
    forall n :: 0 <= n < |rounds| ==> !TellsExit(rounds[n], pipe)
  }

  lemma TakenSnoc(tables: seq<map<int, Desc>>, served: seq<nat>, rounds: seq<Round>, n: nat, table: map<int, Desc>,
                 server: int, pipe: int)
    requires n < |rounds| && TakenAll(tables, served, rounds[..n], server, pipe)
    ensures TakenAll(tables + (if rounds[n].Pass? then [table] else []),
                 served + (if rounds[n].Pass? then ReadyClients(table, rounds[n], server, pipe, FD_SETSIZE) else []),
                 rounds[..n + 1], server, pipe)
    ensures !TellsExit(rounds[n], pipe) && NoExit(rounds[..n], pipe) ==> NoExit(rounds[..n + 1], pipe)
    ensures rounds[..n + 1][..n] == rounds[..n]
  {
    PassesSnoc(rounds, n);
    ServedOverSnoc(tables, table, Passes(rounds[..n]), rounds[n], server, pipe);
    assert tables + [] == tables && served + [] == served && Passes(rounds[..n]) + [] == Passes(rounds[..n]);
  }

  /** The loop itself. */
  method RunRounds(ctx: Context, h: Host, server: int, pipe: int, active: set<int>, rounds: seq<Round>,
                   ghost streams: seq<bytes>)
    returns (active': set<int>, exited: bool, status: int32, ghost taken: nat)
    requires h.Distinct() && |streams| == |h.clients| && server != pipe
    requires HostOk(h, server, pipe, active) && h.tables == [] && h.served == []
    requires PipeQuiet(rounds, pipe) ==> Follows(ctx.Cfg(), streams, h, ctx.calls) && PipeInPlace(h.fds, pipe)
    modifies ctx`calls, h, h.clients, h.pipe
    ensures HostOk(h, server, pipe, active') && h.fds.failed == old(h.fds.failed)
    ensures taken <= |rounds| && TakenAll(h.tables, h.served, rounds[..taken], server, pipe)
    ensures PipeQuiet(rounds, pipe) ==>
              && Follows(ctx.Cfg(), streams, h, ctx.calls)
              && (if exited then taken > 0 && TellsExit(rounds[taken - 1], pipe) && NoExit(rounds[..taken - 1], pipe)
                  else NoExit(rounds[..taken], pipe))
              && (exited ==> StatusRead(old(h.pipe.pending), status) && (old(h.pipe.pending) == [] ==> status == 0))
    ensures !exited ==> taken == |rounds| && status == 0
  {
    ghost var quiet := PipeQuiet(rounds, pipe);
    active', exited, status, taken := active, false, 0, 0;
    assert rounds[..0] == [] && TakenAll([], [], [], server, pipe);
    var n := 0;
    hide HostOk, Follows, StatusRead, PipeInPlace, ReadyClients, TellsExit, Passes, ServedOver, TakenAll, NoExit;
    while !exited && n < |rounds|
      invariant n <= |rounds| && taken == n && TakenAll(h.tables, h.served, rounds[..n], server, pipe)
      invariant quiet ==> if exited then n > 0 && TellsExit(rounds[n - 1], pipe) && NoExit(rounds[..n - 1], pipe)
                          else NoExit(rounds[..n], pipe)
      invariant !exited ==> status == 0
      invariant HostOk(h, server, pipe, active') && h.fds.failed == old(h.fds.failed)
      invariant quiet ==> Follows(ctx.Cfg(), streams, h, ctx.calls)
      invariant quiet && exited ==> StatusRead(old(h.pipe.pending), status) && (old(h.pipe.pending) == [] ==> status == 0)
      invariant quiet && !exited ==> PipeInPlace(h.fds, pipe) && h.pipe.pending == old(h.pipe.pending)
    {
      TakenSnoc(h.tables, h.served, rounds, n, h.fds.table, server, pipe);
      active', exited, status := OneRound(ctx, h, rounds[n], server, pipe, active', streams, quiet);
      n, taken := n + 1, n + 1;
    }
  }

  lemma ExitTold(rounds: seq<Round>, pipe: int, taken: nat, exited: bool)
    requires taken <= |rounds| && (!exited ==> taken == |rounds|)
    requires if exited then taken > 0 && TellsExit(rounds[taken - 1], pipe) && NoExit(rounds[..taken - 1], pipe)
             else NoExit(rounds[..taken], pipe)
    ensures exited <==> exists n :: 0 <= n < |rounds| && TellsExit(rounds[n], pipe)
    ensures forall n :: 0 <= n < taken - 1 ==> !TellsExit(rounds[n], pipe)
  {
    forall n | 0 <= n < taken - (if exited then 1 else 0) ensures !TellsExit(rounds[n], pipe) {
      var front := if exited then rounds[..taken - 1] else rounds[..taken];
      assert front[n] == rounds[n];
    }
  }

  lemma AllReported(h: Host, cfg: Config, streams: seq<bytes>, calls: seq<Call>)
    requires |streams| == |h.clients| && Follows(cfg, streams, h, calls)
    requires forall i :: i in h.finished ==> i < h.fds.next
    ensures forall i :: 0 <= i < |h.clients| ==> ReportedPrefix(cfg, streams[i], h, calls, i)
  {
    hide Books;
    forall i | 0 <= i < |h.clients| ensures ReportedPrefix(cfg, streams[i], h, calls, i) {
      BooksBalance(cfg, streams, h.deeds, i);
      assert BookFits(Books(cfg, streams, h.deeds)[i], h, calls, i);
    }
  }

  /** run_server, for any sequence of answers from select; when `rounds` is used up select fails for good. In every run

    - the passes until the child's exit are made, each serving exactly its ready clients (ServePass, ServedExactly);
    - each accepted client, the pipe and the listening socket are successfully closed exactly once, nothing stays open,
      and exactly one close fails: the sweep, or the last close before it, closes `server` a second time;
    - unless the pipe itself fails, the callbacks of each client are those of what the loop did to it (`deeds`): a prefix of
      its session, and the whole session if the server closed the connection on account of a message; and the result is
      the child's exit status. Module Loop shows that what the loop does is a run of the server in module System. */
  method RunServer(ctx: Context, h: Host, server: int, pipe: int, rounds: seq<Round>, ghost streams: seq<bytes>)
    returns (result: int, exited: bool, ghost taken: nat)
    requires h.Distinct() && |streams| == |h.clients|
    requires forall i :: 0 <= i < |h.clients| ==> h.clients[i].pending == streams[i]
    requires server != pipe && 0 <= server < FD_SETSIZE && 0 <= pipe < FD_SETSIZE
    requires h.fds == Fds(map[server := Listener, pipe := Pipe], multiset{}, [], 0)
    requires h.finished == {} && h.dropped == {} && h.deeds == [] && h.served == [] && h.tables == [] && ctx.calls == []
    modifies ctx`calls, h, h.clients, h.pipe
    ensures h.fds.table == map[] && h.fds.failed == [server]
    ensures h.fds.closes[Listener] == 1 && h.fds.closes[Pipe] == 1
    ensures forall i: nat :: h.fds.closes[Client(i)] == if i < h.fds.next then 1 else 0
    ensures PipeQuiet(rounds, pipe) ==> Follows(ctx.Cfg(), streams, h, ctx.calls)
    ensures h.served == ServedIn(h.deeds)
    ensures taken <= |rounds| && |h.tables| == |Passes(rounds[..taken])|
    ensures h.served == ServedOver(h.tables, Passes(rounds[..taken]), server, pipe)
    ensures PipeQuiet(rounds, pipe) ==>
              && (exited <==> exists n :: 0 <= n < |rounds| && TellsExit(rounds[n], pipe))
              && (exited ==> taken > 0 && TellsExit(rounds[taken - 1], pipe))
              && (forall n :: 0 <= n < taken - 1 ==> !TellsExit(rounds[n], pipe))
    ensures !exited ==> taken == |rounds| && result == 0
    ensures PipeQuiet(rounds, pipe) && exited && old(h.pipe.pending) == [] ==> result == 0
    ensures PipeQuiet(rounds, pipe) ==>
              forall i :: 0 <= i < |h.clients| ==> ReportedPrefix(ctx.Cfg(), streams[i], h, ctx.calls, i)
    ensures PipeQuiet(rounds, pipe) && exited && TakeInt(old(h.pipe.pending)).Got? ==>
              result == ExitCode(TakeInt(old(h.pipe.pending)).value)
  {
    ghost var quiet := PipeQuiet(rounds, pipe);
    var active := {server, pipe};
    StartOk(h, server, pipe);
    var status;
    active, exited, status, taken := RunRounds(ctx, h, server, pipe, active, rounds, streams);
    hide Books, Passes, ServedOver, ReportedPrefix, Follows, TellsExit, NoExit, HostOk;
    if quiet {
      ExitTold(rounds, pipe, taken, exited);
    }
    CloseAll(h, server, pipe, active, ctx.Cfg(), streams, ctx.calls);
    result := ExitCode(status);
    if quiet {
      AllReported(h, ctx.Cfg(), streams, ctx.calls);
    }
  }

  /** What was called back for client `i` is a prefix of its session, and all of it if the client is finished. */
  ghost predicate ReportedPrefix(cfg: Config, stream: bytes, h: Host, calls: seq<Call>, i: nat)
    reads h
  {
    On(i, calls) <= Session(cfg, stream) && (i in h.finished ==> On(i, calls) == Session(cfg, stream))
  }

  lemma StartOk(h: Host, server: int, pipe: int)
    requires server != pipe && 0 <= server < FD_SETSIZE && 0 <= pipe < FD_SETSIZE
    requires h.fds == Fds(map[server := Listener, pipe := Pipe], multiset{}, [], 0) && h.finished == {} && h.dropped == {}
    requires h.deeds == [] && h.served == []
    ensures HostOk(h, server, pipe, {server, pipe}) && PipeInPlace(h.fds, pipe)
  {
    assert h.fds.table[server] == Listener && h.fds.table[pipe] == Pipe;
    assert IsOpen(h.fds, Listener) && IsOpen(h.fds, Pipe);
    assert h.fds.table.Keys == {server, pipe};
    forall d ensures ClosedOnce(h.fds, d) {
      match d
      case Listener => assert h.fds.table[server] == d;
      case Pipe => assert h.fds.table[pipe] == d;
      case Client(_) =>
    }
  }

  lemma AllClosed(fds: Fds, server: int, pipe: int)
    requires FdsOk(fds, server, pipe) && fds.table == map[]
    ensures fds.closes[Listener] == 1 && fds.closes[Pipe] == 1
    ensures forall i: nat :: fds.closes[Client(i)] == if i < fds.next then 1 else 0
  {
    assert ClosedOnce(fds, Listener) && ClosedOnce(fds, Pipe);
    forall i: nat ensures fds.closes[Client(i)] == if i < fds.next then 1 else 0 {
      assert ClosedOnce(fds, Client(i));
    }
  }

  // ----- What a pass serves -----

  lemma {:induction false} ServedOnce(table: map<int, Desc>, round: Round, server: int, pipe: int, n: nat, i: nat)
    requires forall f, g :: f in table && g in table && table[f] == table[g] ==> f == g
    ensures multiset(ReadyClients(table, round, server, pipe, n))[i]
            == if exists fd :: 0 <= fd < n && ReadyClient(table, round, server, pipe, fd) && table[fd].i == i then 1 else 0
  {
    if n > 0 {
      ServedOnce(table, round, server, pipe, n - 1, i);
      if ReadyClient(table, round, server, pipe, n - 1) && table[n - 1].i == i {
        forall fd | 0 <= fd < n - 1 && ReadyClient(table, round, server, pipe, fd) ensures table[fd].i != i {
          assert table[fd] != table[n - 1];
        }
      }
    }
  }

  /** Whom a pass serves: a client exactly once if its descriptor was open, reported as readable and not as failing, and not
    at all otherwise; in ascending order of the descriptors. */
  lemma ServedExactly(table: map<int, Desc>, round: Round, server: int, pipe: int, i: nat)
    requires round.Pass? && forall f, g :: f in table && g in table && table[f] == table[g] ==> f == g
    ensures multiset(ReadyClients(table, round, server, pipe, FD_SETSIZE))[i]
            == if exists fd :: 0 <= fd < 1024 && fd in table && table[fd] == Client(i) && fd != server && fd != pipe
                               && fd in round.readable && fd !in round.failing then 1 else 0
    ensures var fds := ReadyFds(table, round, server, pipe, FD_SETSIZE);
            && |fds| == |ReadyClients(table, round, server, pipe, FD_SETSIZE)|
            && (forall k, m :: 0 <= k < m < |fds| ==> fds[k] < fds[m])
            && forall k :: 0 <= k < |fds| ==>
                 fds[k] in table && table[fds[k]] == Client(ReadyClients(table, round, server, pipe, FD_SETSIZE)[k])
  {
    ServedOnce(table, round, server, pipe, FD_SETSIZE, i);
    if fd :| 0 <= fd < 1024 && ReadyClient(table, round, server, pipe, fd) && table[fd].i == i {
      assert table[fd] == Client(i);
    }
    if fd :| 0 <= fd < 1024 && fd in table && table[fd] == Client(i) && fd != server && fd != pipe
             && fd in round.readable && fd !in round.failing {
      assert ReadyClient(table, round, server, pipe, fd);
    }
    Ascending(table, round, server, pipe, FD_SETSIZE);
  }

  function ReadyFds(table: map<int, Desc>, round: Round, server: int, pipe: int, n: nat): seq<int> {
    if n == 0 then [] else
    ReadyFds(table, round, server, pipe, n - 1) + if ReadyClient(table, round, server, pipe, n - 1) then [n - 1] else []
  }

  lemma {:induction false} Ascending(table: map<int, Desc>, round: Round, server: int, pipe: int, n: nat)
    ensures var fds, l := ReadyFds(table, round, server, pipe, n), ReadyClients(table, round, server, pipe, n);
            && |fds| == |l| && (forall k, m :: 0 <= k < m < |fds| ==> fds[k] < fds[m])
            && forall k :: 0 <= k < |fds| ==> fds[k] < n && fds[k] in table && table[fds[k]] == Client(l[k])
  {
    if n > 0 {
      Ascending(table, round, server, pipe, n - 1);
    }
  }

  /** The server loop and the wire protocol together: a client whose connection delivers any part of a well-formed stream
    gets callbacks for an initial part of the events delivered whole; and for all of the events if the connection
    delivered everything up to DONE and the server closed it on account of a message. */
  lemma ClientReports(cfg: Config, o: Options, events: seq<Event>, finished: bool, delivered: bytes,
                      h: Host, calls: seq<Call>, i: nat)
    requires Agree(o, cfg.options) && delivered <= Written(o, events, finished)
    requires ReportedPrefix(cfg, delivered, h, calls, i)
    ensures On(i, calls) <= Reports(cfg, o, events[..Whole(o, events, |delivered|)])
    ensures i in h.finished ==> On(i, calls) == Reports(cfg, o, events[..Whole(o, events, |delivered|)])
    ensures i in h.finished && delivered == Written(o, events, true) ==> On(i, calls) == Reports(cfg, o, events)
  {
    PrefixSafety(cfg, o, events, finished, delivered);
    if delivered == Written(o, events, true) {
      ExactlyOnce(cfg, o, events, []);
      assert delivered + [] == delivered;
    }
  }
}
