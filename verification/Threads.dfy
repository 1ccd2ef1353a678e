/** One interposer library of one process under any interleaving of its threads: the mutex, the initialized and finalized
  flags, and the destructor, which may run while other threads are still making calls.

  `Step` is total: an action that is not possible in a state leaves it as it is. A run is any sequence of actions. */
module Threads {
  import opened Wrappers
  import opened Bytes
  import opened Wire
  import opened Sessions

  /** Where a thread is. The second group is the destructor's path. */
  datatype PC =
    | Outside
    | Waiting                 // in the interposed call, past the finalized check, waiting for the mutex
    | Entered                 // holds the mutex, about to test whether the library is initialized
    | Calling                 // about to make the real call
    | Inside                  // in the real call, until the kernel answers
    | Sending(left: bytes)    // the rest of the event is still to be sent
    | Dropping                // in the destructor, waiting for the mutex
    | Ending                  // holds the mutex, about to finalize
    | Closing(left: bytes)    // the rest of DONE is still to be sent, then the socket is closed
    | Leaving                 // about to release the mutex
    | NullCall                // jumped through the unresolved pointer to the real call, from the application's own call
    | NestedNullCall          // the same, from the destructor's close
    | Deadlocked              // the destructor's close tried to take the mutex its thread already holds

  /** A socket of the library: the events put on it (complete or in progress), whether DONE was, the bytes it has
    carried, whether the connection is broken, and whether the process has closed it. */
  datatype Sock = Sock(log: seq<Event>, finished: bool, sent: bytes, broken: bool, shut: bool)

  /** `guarded` distinguishes libvoyeur-close, whose call tests the finalized flag and is re-entered by its own
    destructor, from the others. `options` is what the library decodes from the environment of its process. */
  datatype Lib = Lib(guarded: bool, options: Options, alive: bool, holder: Option<nat>,
                     initialized: bool, finalized: bool, resolved: bool,
                     current: Option<nat>, socks: seq<Sock>, pcs: map<nat, PC>)

  function Fresh(guarded: bool, options: Options): Lib {
    Lib(guarded, options, true, None, false, false, false, None, [], map[])
  }

  datatype Action =
    | Call(t: nat)                          // the application calls the interposed function
    | Lock(t: nat)
    | Init(t: nat, connected: bool)         // initialize if needed; `connected`: a socket could be created
    | CallNext(t: nat)                      // make the real call
    | Report(t: nat, event: Option<Event>)  // it has returned; `None` for an exec that is not reported
    | Send(t: nat, extra: nat)              // one send of at most extra + 1 bytes
    | Unlock(t: nat)
    | Destroy(t: nat)                       // the destructor starts
    | Finalize(t: nat)
    | Shut(t: nat)                          // the destructor closes the socket (module Nesting: how, if libvoyeur-close is loaded)
    | Break(i: nat)                         // socket i stops accepting data
    | Die                                   // the process ends

  function At(l: Lib, t: nat): PC {
    if t in l.pcs then l.pcs[t] else Outside
  }

  function Goto(l: Lib, t: nat, pc: PC): Lib {
    l.(pcs := l.pcs[t := pc])
  }

  function Empty(): Sock {
    Sock([], false, [], false, false)
  }

  /** write_exec_event returns early when the options are silent. */
  predicate MayReport(o: Options, e: Event) {
    e.Exec? ==> !Has(o.exec, OBSERVE_EXEC_SILENT)
  }

  predicate SameSettings(l: Lib, l': Lib) {
    l'.options == l.options && l'.guarded == l.guarded
  }

  /** Sockets never disappear, new ones start empty, and a log stays as it is or gets one reportable event. */
  predicate LogsStep(l: Lib, l': Lib) {
    && |l.socks| <= |l'.socks|
    && forall i :: 0 <= i < |l'.socks| ==>
         LogStep(l.options, if i < |l.socks| then l.socks[i].log else [], l'.socks[i].log)
  }

  predicate LogStep(o: Options, log: seq<Event>, log': seq<Event>) {
    log' == log || (|log'| == |log| + 1 && log'[..|log|] == log && MayReport(o, log'[|log|]))
  }

  function DoCall(l: Lib, t: nat): (l': Lib)
    ensures SameSettings(l, l') && LogsStep(l, l')
  {
    if !At(l, t).Outside? then l
    else if l.guarded && l.finalized then (if l.resolved then l else Goto(l, t, NullCall))
    else Goto(l, t, Waiting)
  }

  function DoLock(l: Lib, t: nat): (l': Lib)
    ensures SameSettings(l, l') && LogsStep(l, l')
  {
    if l.holder.Some? then l
    else if At(l, t).Waiting? then Goto(l, t, Entered).(holder := Some(t))
    else if At(l, t).Dropping? then Goto(l, t, Ending).(holder := Some(t))
    else l
  }

  function DoInit(l: Lib, t: nat, connected: bool): (l': Lib)
    ensures SameSettings(l, l') && LogsStep(l, l')
  {
    if !At(l, t).Entered? then l
    else if l.initialized then Goto(l, t, Calling)
    else
      var l' := Goto(l, t, Calling).(initialized := true, resolved := true);
      if connected then l'.(current := Some(|l.socks|), socks := l.socks + [Empty()]) else l'.(current := None)
  }

  function DoCallNext(l: Lib, t: nat): (l': Lib)
    ensures SameSettings(l, l') && LogsStep(l, l')
  {
    if At(l, t).Calling? then Goto(l, t, Inside) else l
  }

  function DoReport(l: Lib, t: nat, event: Option<Event>): (l': Lib)
    ensures SameSettings(l, l') && LogsStep(l, l')
  {
    if !At(l, t).Inside? then l
    else if event.None? || !MayReport(l.options, event.value) || l.current.None? || l.current.value >= |l.socks| then
      Goto(l, t, Sending([]))
    else
      var i := l.current.value;
      Goto(l, t, Sending(Message(l.options, event.value)))
      .(socks := l.socks[i := l.socks[i].(log := l.socks[i].log + [event.value])])
  }

  /** What is left of `left`, and the socket, after one send. A broken connection fails every remaining write, and
    failing writes are skipped over. */
  function SendSome(s: Sock, left: bytes, extra: nat): (bytes, Sock) {
    var n := if extra + 1 < |left| then extra + 1 else |left|;
    if s.broken then ([], s) else (left[n..], s.(sent := s.sent + left[..n]))
  }

  function DoSend(l: Lib, t: nat, extra: nat): (l': Lib)
    ensures SameSettings(l, l') && LogsStep(l, l')
  {
    var pc := At(l, t);
    if !(pc.Sending? || pc.Closing?) || pc.left == [] || l.current.None? || l.current.value >= |l.socks| then l
    else
      var i := l.current.value;
      var (left, s) := SendSome(l.socks[i], pc.left, extra);
      Goto(l, t, if pc.Sending? then Sending(left) else Closing(left)).(socks := l.socks[i := s])
  }

  function DoUnlock(l: Lib, t: nat): (l': Lib)
    ensures SameSettings(l, l') && LogsStep(l, l')
  {
    if At(l, t) == Sending([]) || At(l, t).Leaving? then Goto(l, t, Outside).(holder := None) else l
  }

  function DoDestroy(l: Lib, t: nat): (l': Lib)
    ensures SameSettings(l, l') && LogsStep(l, l')
  {
    if At(l, t).Outside? then Goto(l, t, Dropping) else l
  }

  function DoFinalize(l: Lib, t: nat): (l': Lib)
    ensures SameSettings(l, l') && LogsStep(l, l')
  {
    if !At(l, t).Ending? then l
    else if l.initialized && l.current.Some? && l.current.value < |l.socks| then
      var i := l.current.value;
      Goto(l, t, Closing(Done())).(finalized := true, socks := l.socks[i := l.socks[i].(finished := true)])
    else
      Goto(l, t, Leaving).(finalized := true, initialized := false)
  }

  function DoShut(l: Lib, t: nat): (l': Lib)
    ensures SameSettings(l, l') && LogsStep(l, l')
  {
    if At(l, t) != Closing([]) || l.current.None? || l.current.value >= |l.socks| then l
    else if l.guarded && !l.finalized then Goto(l, t, Deadlocked)
    else if l.guarded && !l.resolved then Goto(l, t, NestedNullCall)
    else
      var i := l.current.value;
      Goto(l, t, Leaving)
      .(initialized := false, current := None, socks := l.socks[i := l.socks[i].(shut := true)])
  }

  function DoBreak(l: Lib, i: nat): (l': Lib)
    ensures SameSettings(l, l') && LogsStep(l, l')
  {
    if i < |l.socks| then l.(socks := l.socks[i := l.socks[i].(broken := true)]) else l
  }

  function Step(l: Lib, a: Action): (l': Lib)
    ensures SameSettings(l, l') && LogsStep(l, l')
  {
    if !l.alive then l else
    match a
    case Call(t) => DoCall(l, t)
    case Lock(t) => DoLock(l, t)
    case Init(t, connected) => DoInit(l, t, connected)
    case CallNext(t) => DoCallNext(l, t)
    case Report(t, event) => DoReport(l, t, event)
    case Send(t, extra) => DoSend(l, t, extra)
    case Unlock(t) => DoUnlock(l, t)
    case Destroy(t) => DoDestroy(l, t)
    case Finalize(t) => DoFinalize(l, t)
    case Shut(t) => DoShut(l, t)
    case Break(i) => DoBreak(l, i)
    case Die => l.(alive := false)
  }

  function Run(l: Lib, actions: seq<Action>): Lib {
    if actions == [] then l else Step(Run(l, actions[..|actions| - 1]), actions[|actions| - 1])
  }

  // ----- Invariant -----

  predicate Critical(pc: PC) {
    pc.Entered? || pc.Calling? || pc.Inside? || pc.Sending? || pc.Ending? || pc.Closing? || pc.Leaving?
  }

  function LeftOf(pc: PC): bytes {
    if pc.Sending? || pc.Closing? then pc.left else []
  }

  /** What the lock holder has still to send on socket `i`. */
  function Unsent(l: Lib, i: nat): bytes {
    if l.current == Some(i) && l.holder.Some? then LeftOf(At(l, l.holder.value)) else []
  }

  function Intended(o: Options, s: Sock): bytes {
    Written(o, s.log, s.finished)
  }

  /** The grammar of a socket's bytes: what was sent and what the lock holder still has to send are together its
    complete events, then DONE if it is finished; on a broken connection the end is missing. */
  predicate Grammatical(o: Options, s: Sock, unsent: bytes) {
    if s.broken then s.sent <= Intended(o, s) else s.sent + unsent == Intended(o, s)
  }

  /** What a thread's place in the code implies about the mutex and the flags. */
  predicate ThreadOk(l: Lib, t: nat) {
    var pc := At(l, t);
    && (Critical(pc) ==> l.holder == Some(t))
    && !pc.Deadlocked? && !pc.NestedNullCall?
    && (pc.NullCall? ==> l.guarded && l.finalized)
    && (pc.Calling? || pc.Inside? || pc.Sending? ==> l.initialized)
    && (pc.Closing? ==> l.initialized && l.finalized && l.current.Some?)
  }

  predicate LockOk(l: Lib) {
    && (l.holder.Some? ==> Critical(At(l, l.holder.value)))
    && (l.initialized ==> l.resolved)
    && (l.current.Some? ==> l.initialized && l.current.value < |l.socks|)
    && (l.current.None? && l.holder.Some? ==> LeftOf(At(l, l.holder.value)) == [])
  }

  predicate DestructorAtWork(l: Lib) {
    l.holder.Some? && At(l, l.holder.value).Closing?
  }

  predicate SockOk(l: Lib, i: nat)
    requires i < |l.socks|
  {
    && Grammatical(l.options, l.socks[i], Unsent(l, i))
    && (l.socks[i].finished <==> l.current != Some(i) || DestructorAtWork(l))
    && (l.socks[i].shut ==> l.current != Some(i))
  }

  ghost predicate Inv(l: Lib) {
    && LockOk(l)
    && (forall t: nat :: ThreadOk(l, t))
    && (forall i :: 0 <= i < |l.socks| ==> SockOk(l, i))
  }

  lemma FreshInv(guarded: bool, options: Options)
    ensures Inv(Fresh(guarded, options))
  {
  }

  lemma ReportKeepsGrammar(o: Options, s: Sock, e: Event)
    requires Grammatical(o, s, []) && !s.finished
    ensures Grammatical(o, s.(log := s.log + [e]), Message(o, e))
  {
    StreamSnoc(o, s.log, e);
    assert Stream(o, s.log) + [] == Stream(o, s.log);
    assert Stream(o, s.log + [e]) + [] == Stream(o, s.log + [e]);
    assert s.sent + [] == s.sent;
  }

  lemma FinalizeKeepsGrammar(o: Options, s: Sock)
    requires Grammatical(o, s, []) && !s.finished
    ensures Grammatical(o, s.(finished := true), Done())
  {
    assert Stream(o, s.log) + [] == Stream(o, s.log);
    assert s.sent + [] == s.sent;
  }

  lemma MoveBytes(sent: bytes, left: bytes, n: nat)
    requires n <= |left|
    ensures (sent + left[..n]) + left[n..] == sent + left
  {
    assert left[..n] + left[n..] == left;
    Assoc(sent, left[..n], left[n..]);
  }

  lemma SendKeepsGrammar(o: Options, s: Sock, left: bytes, extra: nat)
    requires Grammatical(o, s, left)
    ensures Grammatical(o, SendSome(s, left, extra).1, SendSome(s, left, extra).0)
  {
    if !s.broken {
      MoveBytes(s.sent, left, if extra + 1 < |left| then extra + 1 else |left|);
    }
  }

  lemma BreakKeepsGrammar(o: Options, s: Sock, unsent: bytes)
    requires Grammatical(o, s, unsent)
    ensures Grammatical(o, s.(broken := true), unsent)
  {
  }

  // ----- Every step keeps the invariant -----

  /** A socket that is not the current one does not care what the threads do. */
  lemma OldSocket(l: Lib, l': Lib, i: nat)
    requires i < |l.socks| && i < |l'.socks| && SockOk(l, i)
    requires l'.options == l.options && l'.socks[i] == l.socks[i]
    requires l.current != Some(i) && l'.current != Some(i)
    ensures SockOk(l', i)
  {
  }

  lemma OldSockets(l: Lib, l': Lib)
    requires Inv(l) && l'.options == l.options && |l.socks| <= |l'.socks|
    requires forall i :: 0 <= i < |l.socks| && l.current != Some(i) ==> l'.socks[i] == l.socks[i] && l'.current != Some(i)
    ensures forall i :: 0 <= i < |l.socks| && l.current != Some(i) ==> SockOk(l', i)
  {
    forall i | 0 <= i < |l.socks| && l.current != Some(i) ensures SockOk(l', i) {
      OldSocket(l, l', i);
    }
  }

  /** A step of the threads that leaves the sockets, and what is unsent on them, alone. */
  lemma SocketsUntouched(l: Lib, l': Lib)
    requires Inv(l) && l'.options == l.options && l'.socks == l.socks && l'.current == l.current
    requires l.current.Some? ==> Unsent(l', l.current.value) == Unsent(l, l.current.value)
    requires DestructorAtWork(l') == DestructorAtWork(l)
    ensures forall i :: 0 <= i < |l'.socks| ==> SockOk(l', i)
  {
    forall i | 0 <= i < |l.socks| ensures SockOk(l', i) {
      assert SockOk(l, i);
    }
  }

  /** A step of thread `t` inside or at the border of the critical section: nobody else is in there. */
  lemma OtherThreads(l: Lib, l': Lib, t: nat)
    requires Inv(l)
    requires forall u :: u != t ==> At(l', u) == At(l, u)
    requires l.holder == None || l.holder == Some(t)
    requires l'.guarded == l.guarded && (l.finalized ==> l'.finalized)
    ensures forall u :: u != t ==> ThreadOk(l', u)
  {
    forall u | u != t ensures ThreadOk(l', u) {
      assert ThreadOk(l, u);
    }
  }

  /** A step of thread `t` outside the critical section. */
  lemma OutsideStep(l: Lib, t: nat, pc: PC)
    requires Inv(l)
    requires !Critical(At(l, t)) && !Critical(pc) && !pc.Deadlocked? && !pc.NestedNullCall?
    requires pc.NullCall? ==> l.guarded && l.finalized
    ensures Inv(Goto(l, t, pc))
  {
    var l' := Goto(l, t, pc);
    forall u: nat ensures ThreadOk(l', u) {
      assert ThreadOk(l, u);
    }
    SocketsUntouched(l, l');
  }

  lemma CallKeepsInv(l: Lib, t: nat)
    requires Inv(l)
    ensures Inv(DoCall(l, t))
  {
    if At(l, t).Outside? {
      OutsideStep(l, t, if l.guarded && l.finalized then NullCall else Waiting);
    }
  }

  lemma DestroyKeepsInv(l: Lib, t: nat)
    requires Inv(l)
    ensures Inv(DoDestroy(l, t))
  {
    if At(l, t).Outside? {
      OutsideStep(l, t, Dropping);
    }
  }

  lemma LockKeepsInv(l: Lib, t: nat)
    requires Inv(l)
    ensures Inv(DoLock(l, t))
  {
    if l.holder.None? && (At(l, t).Waiting? || At(l, t).Dropping?) {
      TakeMutex(l, t, if At(l, t).Waiting? then Entered else Ending);
    }
  }

  lemma TakeMutex(l: Lib, t: nat, pc: PC)
    requires Inv(l) && l.holder.None? && (pc == Entered || pc == Ending)
    ensures Inv(Goto(l, t, pc).(holder := Some(t)))
  {
    var l' := Goto(l, t, pc).(holder := Some(t));
    OtherThreads(l, l', t);
    SocketsUntouched(l, l');
  }

  lemma AlreadyInitialized(l: Lib, t: nat)
    requires Inv(l) && At(l, t).Entered? && l.initialized
    ensures Inv(Goto(l, t, Calling))
  {
    hide Written;
    var l' := Goto(l, t, Calling);
    assert ThreadOk(l, t);
    OtherThreads(l, l', t);
    SocketsUntouched(l, l');
  }

  lemma FreshSocket(l: Lib, t: nat, connected: bool)
    requires Inv(l) && At(l, t).Entered? && !l.initialized
    ensures forall i :: 0 <= i < |DoInit(l, t, connected).socks| ==> SockOk(DoInit(l, t, connected), i)
  {
    var l' := DoInit(l, t, connected);
    assert ThreadOk(l, t);
    assert l.current.None?;
    OldSockets(l, l');
    if connected {
      var i := |l.socks|;
      assert l'.socks[i] == Empty() && Unsent(l', i) == [];
      assert Written(l.options, [], false) == [] + [];
      assert SockOk(l', i);
    }
  }

  lemma InitKeepsInv(l: Lib, t: nat, connected: bool)
    requires Inv(l)
    ensures Inv(DoInit(l, t, connected))
  {
    hide Written, SockOk;
    var l' := DoInit(l, t, connected);
    if At(l, t).Entered? {
      assert ThreadOk(l, t);
      if l.initialized {
        AlreadyInitialized(l, t);
      } else {
        OtherThreads(l, l', t);
        FreshSocket(l, t, connected);
      }
    }
  }

  lemma MoveOn(l: Lib, t: nat, pc: PC)
    requires Inv(l) && ((At(l, t).Calling? && pc == Inside) || (At(l, t).Inside? && pc == Sending([])))
    ensures Inv(Goto(l, t, pc))
  {
    var l' := Goto(l, t, pc);
    assert ThreadOk(l, t);
    OtherThreads(l, l', t);
    SocketsUntouched(l, l');
  }

  lemma CallNextKeepsInv(l: Lib, t: nat)
    requires Inv(l)
    ensures Inv(DoCallNext(l, t))
  {
    if At(l, t).Calling? {
      MoveOn(l, t, Inside);
    }
  }

  lemma ReportKeepsInv(l: Lib, t: nat, event: Option<Event>)
    requires Inv(l)
    ensures Inv(DoReport(l, t, event))
  {
    var l' := DoReport(l, t, event);
    if At(l, t).Inside? {
      if l' == Goto(l, t, Sending([])) {
        MoveOn(l, t, Sending([]));
      } else {
        assert ThreadOk(l, t);
        OtherThreads(l, l', t);
        OldSockets(l, l');
        var i := l.current.value;
        assert SockOk(l, i);
        ReportKeepsGrammar(l.options, l.socks[i], event.value);
        assert SockOk(l', i);
      }
    }
  }

  lemma SendKeepsInv(l: Lib, t: nat, extra: nat)
    requires Inv(l)
    ensures Inv(DoSend(l, t, extra))
  {
    var l' := DoSend(l, t, extra);
    if l' != l {
      assert ThreadOk(l, t);
      OtherThreads(l, l', t);
      OldSockets(l, l');
      var i := l.current.value;
      assert SockOk(l, i);
      SendKeepsGrammar(l.options, l.socks[i], At(l, t).left, extra);
      assert SockOk(l', i);
    }
  }

  lemma UnlockKeepsInv(l: Lib, t: nat)
    requires Inv(l)
    ensures Inv(DoUnlock(l, t))
  {
    var l' := DoUnlock(l, t);
    if l' != l {
      assert ThreadOk(l, t);
      OtherThreads(l, l', t);
      SocketsUntouched(l, l');
    }
  }

  lemma FinalizeKeepsInv(l: Lib, t: nat)
    requires Inv(l)
    ensures Inv(DoFinalize(l, t))
  {
    var l' := DoFinalize(l, t);
    if l' != l {
      assert ThreadOk(l, t);
      OtherThreads(l, l', t);
      OldSockets(l, l');
      if l.current.Some? {
        var i := l.current.value;
        assert SockOk(l, i);
        FinalizeKeepsGrammar(l.options, l.socks[i]);
        assert SockOk(l', i);
      }
    }
  }

  lemma ShutKeepsInv(l: Lib, t: nat)
    requires Inv(l)
    ensures Inv(DoShut(l, t))
  {
    var l' := DoShut(l, t);
    if l' != l {
      assert ThreadOk(l, t);
      OtherThreads(l, l', t);
      OldSockets(l, l');
      assert SockOk(l, l.current.value);
      assert SockOk(l', l.current.value);
    }
  }

  lemma BreakOneSocket(l: Lib, i: nat, j: nat)
    requires Inv(l) && j < |l.socks|
    ensures SockOk(DoBreak(l, i), j)
  {
    hide Written;
    assert SockOk(l, j);
    BreakKeepsGrammar(l.options, l.socks[j], Unsent(l, j));
  }

  lemma BreakKeepsInv(l: Lib, i: nat)
    requires Inv(l)
    ensures Inv(DoBreak(l, i))
  {
    var l' := DoBreak(l, i);
    forall t: nat ensures ThreadOk(l', t) {
      assert ThreadOk(l, t);
    }
    forall j | 0 <= j < |l'.socks| ensures SockOk(l', j) {
      BreakOneSocket(l, i, j);
    }
  }

  lemma DieKeepsInv(l: Lib)
    requires Inv(l)
    ensures Inv(l.(alive := false))
  {
    var l' := l.(alive := false);
    forall t: nat ensures ThreadOk(l', t) {
      assert ThreadOk(l, t);
    }
    SocketsUntouched(l, l');
  }

  lemma StepKeepsInv(l: Lib, a: Action)
    requires Inv(l)
    ensures Inv(Step(l, a))
  {
    if l.alive {
      match a
      case Call(t) => CallKeepsInv(l, t);
      case Lock(t) => LockKeepsInv(l, t);
      case Init(t, connected) => InitKeepsInv(l, t, connected);
      case CallNext(t) => CallNextKeepsInv(l, t);
      case Report(t, event) => ReportKeepsInv(l, t, event);
      case Send(t, extra) => SendKeepsInv(l, t, extra);
      case Unlock(t) => UnlockKeepsInv(l, t);
      case Destroy(t) => DestroyKeepsInv(l, t);
      case Finalize(t) => FinalizeKeepsInv(l, t);
      case Shut(t) => ShutKeepsInv(l, t);
      case Break(i) => BreakKeepsInv(l, i);
      case Die => DieKeepsInv(l);
    }
  }

  /** The invariant holds in every reachable state. */
  lemma {:induction false} RunKeepsInv(l: Lib, actions: seq<Action>)
    requires Inv(l)
    ensures Inv(Run(l, actions))
  {
    if actions != [] {
      RunKeepsInv(l, actions[..|actions| - 1]);
      StepKeepsInv(Run(l, actions[..|actions| - 1]), actions[|actions| - 1]);
    }
  }

  // ----- What it means -----

  /** Stream grammar. In every reachable state of any number of threads, each socket carries the start of its complete
    events followed by DONE if the destructor has finished it. Nothing is missing unless the connection broke or a
    thread holding the mutex is in the middle of sending; and what such a thread has still to send is exactly what is
    missing on its socket. */
  lemma StreamGrammar(guarded: bool, options: Options, actions: seq<Action>, i: nat)
    requires i < |Run(Fresh(guarded, options), actions).socks|
    ensures var l := Run(Fresh(guarded, options), actions);
            var s := l.socks[i];
            && s.sent <= Intended(options, s)
            && (!s.broken ==> s.sent + Unsent(l, i) == Intended(options, s))
            && (!s.broken && l.holder.None? ==> s.sent == Intended(options, s))
            && (s.shut ==> s.finished)
  {
    var l := Run(Fresh(guarded, options), actions);
    FreshInv(guarded, options);
    RunKeepsInv(Fresh(guarded, options), actions);
    RunKeepsSettings(Fresh(guarded, options), actions);
    assert SockOk(l, i);
    assert l.socks[i].sent + [] == l.socks[i].sent;
  }

  lemma {:induction false} RunKeepsSettings(l: Lib, actions: seq<Action>)
    ensures Run(l, actions).options == l.options && Run(l, actions).guarded == l.guarded
  {
    if actions != [] {
      RunKeepsSettings(l, actions[..|actions| - 1]);
    }
  }

  /** No self-deadlock at shutdown of libvoyeur-close: the destructor's own close never waits for the mutex its thread holds
    and never jumps through an unresolved pointer, in any reachable state. An application's close can do the latter, but
    only after finalization. */
  lemma NoSelfDeadlock(options: Options, actions: seq<Action>, t: nat)
    ensures var pc := At(Run(Fresh(true, options), actions), t);
            && !pc.Deadlocked? && !pc.NestedNullCall?
            && (pc.NullCall? ==> Run(Fresh(true, options), actions).finalized)
  {
    FreshInv(true, options);
    RunKeepsInv(Fresh(true, options), actions);
    assert ThreadOk(Run(Fresh(true, options), actions), t);
  }

  /** The application's close does crash when the destructor ran before the library was ever initialized. */
  lemma CloseAfterBareDestructor(options: Options)
    ensures At(Run(Fresh(true, options), [Destroy(0), Lock(0), Finalize(0), Unlock(0), Call(1)]), 1).NullCall?
  {
    var l0 := Fresh(true, options);
    var a := [Destroy(0), Lock(0), Finalize(0), Unlock(0), Call(1)];
    var l1 := Step(l0, a[0]);
    var l2 := Step(l1, a[1]);
    var l3 := Step(l2, a[2]);
    var l4 := Step(l3, a[3]);
    assert Run(l0, a[..0]) == l0;
    assert a[..1][..0] == a[..0] && Run(l0, a[..1]) == l1;
    assert a[..2][..1] == a[..1] && Run(l0, a[..2]) == l2;
    assert a[..3][..2] == a[..2] && Run(l0, a[..3]) == l3;
    assert a[..4] == a[..|a| - 1] && a[..4][..3] == a[..3] && Run(l0, a[..4]) == l4;
  }

  /** The action is a first call, or the first after finalization, that initializes the library. */
  predicate Initializes(l: Lib, a: Action) {
    l.alive && a.Init? && At(l, a.t).Entered? && !l.initialized
  }

  /** The action is the destructor's, past its mutex. */
  predicate Finalizes(l: Lib, a: Action) {
    l.alive && a.Finalize? && At(l, a.t).Ending?
  }

  predicate EverInitialized(l: Lib, actions: seq<Action>) {
    exists k :: 0 <= k < |actions| && Initializes(Run(l, actions[..k]), actions[k])
  }

  predicate EverFinalized(l: Lib, actions: seq<Action>) {
    exists k :: 0 <= k < |actions| && Finalizes(Run(l, actions[..k]), actions[k])
  }

  lemma EverSnoc(l: Lib, actions: seq<Action>)
    requires actions != []
    ensures var front, last := actions[..|actions| - 1], actions[|actions| - 1];
            && (EverInitialized(l, actions) <==> EverInitialized(l, front) || Initializes(Run(l, front), last))
            && (EverFinalized(l, actions) <==> EverFinalized(l, front) || Finalizes(Run(l, front), last))
  {
    hide Run, Initializes, Finalizes;
    var front, n := actions[..|actions| - 1], |actions| - 1;
    assert forall k :: 0 <= k < n ==> front[..k] == actions[..k] && front[k] == actions[k];
    if EverInitialized(l, front) {
      var k :| 0 <= k < |front| && Initializes(Run(l, front[..k]), front[k]);
      assert Initializes(Run(l, actions[..k]), actions[k]);
    }
    if EverFinalized(l, front) {
      var k :| 0 <= k < |front| && Finalizes(Run(l, front[..k]), front[k]);
      assert Finalizes(Run(l, actions[..k]), actions[k]);
    }
  }

  predicate FlagsFollow(l: Lib, a: Action) {
    && (Step(l, a).resolved <==> l.resolved || Initializes(l, a))
    && (Step(l, a).finalized <==> l.finalized || Finalizes(l, a))
  }

  lemma FlagStepInit(l: Lib, a: Action)
    requires a.Init? || a.Finalize?
    ensures FlagsFollow(l, a)
  {
    hide LogsStep, Done;
  }

  lemma FlagStepSocket(l: Lib, a: Action)
    requires a.Report? || a.Send? || a.Shut?
    ensures FlagsFollow(l, a)
  {
    hide LogsStep, Message, SendSome;
  }

  lemma FlagStepRest(l: Lib, a: Action)
    requires a.Call? || a.Lock? || a.CallNext? || a.Unlock? || a.Destroy? || a.Break? || a.Die?
    ensures FlagsFollow(l, a)
  {
    hide LogsStep;
  }

  lemma FlagStep(l: Lib, a: Action)
    ensures FlagsFollow(l, a)
  {
    hide FlagsFollow;
    if a.Init? || a.Finalize? {
      FlagStepInit(l, a);
    } else if a.Report? || a.Send? || a.Shut? {
      FlagStepSocket(l, a);
    } else {
      FlagStepRest(l, a);
    }
  }

  /** What the flags remember of a run: the pointer to the real call is there exactly if the library was initialized at
    some time, and the finalized flag is set exactly if the destructor got past its mutex. */
  lemma {:induction false} FlagsRemember(guarded: bool, options: Options, actions: seq<Action>)
    ensures Run(Fresh(guarded, options), actions).resolved <==> EverInitialized(Fresh(guarded, options), actions)
    ensures Run(Fresh(guarded, options), actions).finalized <==> EverFinalized(Fresh(guarded, options), actions)
  {
    if actions != [] {
      hide Step, EverInitialized, EverFinalized, Initializes, Finalizes;
      var front, last := actions[..|actions| - 1], actions[|actions| - 1];
      FlagsRemember(guarded, options, front);
      EverSnoc(Fresh(guarded, options), actions);
      FlagStep(Run(Fresh(guarded, options), front), last);
    }
  }

  /** Exactly when a call crashes, over all runs: in libvoyeur-close, after the destructor, if the library has never been
    initialized. */
  lemma CrashCondition(guarded: bool, options: Options, actions: seq<Action>, t: nat)
    requires Run(Fresh(guarded, options), actions).alive && At(Run(Fresh(guarded, options), actions), t).Outside?
    ensures At(Step(Run(Fresh(guarded, options), actions), Call(t)), t).NullCall? <==>
              && guarded && EverFinalized(Fresh(guarded, options), actions)
              && !EverInitialized(Fresh(guarded, options), actions)
  {
    FlagsRemember(guarded, options, actions);
    RunKeepsSettings(Fresh(guarded, options), actions);
  }

  // ----- Undisturbed calls -----

  /** Thread `t` sends what it has to send on the current socket, which accepts at most `room` more bytes. */
  function SendAll(l: Lib, t: nat, room: nat): Lib {
    var left := LeftOf(At(l, t));
    if left == [] || l.current.None? || l.current.value >= |l.socks| then l
    else if |left| <= room || l.socks[l.current.value].broken then Step(l, Send(t, |left|))
    else if room == 0 then Step(Step(l, Break(l.current.value)), Send(t, 0))
    else Step(Step(Step(l, Send(t, room - 1)), Break(l.current.value)), Send(t, 0))
  }

  /** A socket after `data` has been put on it: all of it, or what fits before the connection breaks. */
  function PutOn(s: Sock, data: bytes, room: nat): Sock {
    if data == [] || s.broken then s
    else if |data| <= room then s.(sent := s.sent + data)
    else s.(sent := s.sent + data[..room], broken := true)
  }

  function WithLeft(pc: PC, left: bytes): PC
    requires pc.Sending? || pc.Closing?
  {
    if pc.Sending? then Sending(left) else Closing(left)
  }

  /** Thread `t` has `left` to send on the current socket, which is `s`. */
  function SendingOn(l: Lib, t: nat, left: bytes, s: Sock): Lib
    requires l.current.Some? && l.current.value < |l.socks| && (At(l, t).Sending? || At(l, t).Closing?)
  {
    l.(pcs := l.pcs[t := WithLeft(At(l, t), left)], socks := l.socks[l.current.value := s])
  }

  lemma OneSend(l: Lib, t: nat, extra: nat)
    requires l.alive && l.current.Some? && l.current.value < |l.socks|
    requires (At(l, t).Sending? || At(l, t).Closing?) && At(l, t).left != []
    ensures var (left, s) := SendSome(l.socks[l.current.value], At(l, t).left, extra);
            Step(l, Send(t, extra)) == SendingOn(l, t, left, s)
  {
    hide SendSome, LogsStep;
  }

  lemma OneBreak(l: Lib, i: nat)
    requires l.alive && i < |l.socks|
    ensures Step(l, Break(i)) == l.(socks := l.socks[i := l.socks[i].(broken := true)])
  {
  }

  /** The connection breaks while thread `t` has something to send. */
  lemma BreakThenSend(l: Lib, t: nat)
    requires l.alive && l.current.Some? && l.current.value < |l.socks|
    requires (At(l, t).Sending? || At(l, t).Closing?) && At(l, t).left != []
    ensures var i := l.current.value;
            Step(Step(l, Break(i)), Send(t, 0)) == SendingOn(l, t, [], l.socks[i].(broken := true))
  {
    hide Step, LogsStep;
    var i := l.current.value;
    OneBreak(l, i);
    OneSend(Step(l, Break(i)), t, 0);
  }

  lemma SendingTwice(l: Lib, t: nat, left: bytes, s: Sock, s': Sock)
    requires l.current.Some? && l.current.value < |l.socks| && (At(l, t).Sending? || At(l, t).Closing?)
    ensures SendingOn(SendingOn(l, t, left, s), t, [], s') == SendingOn(l, t, [], s')
  {
    var i := l.current.value;
    assert l.socks[i := s][i := s'] == l.socks[i := s'];
  }

  lemma SendAllPutsOn(l: Lib, t: nat, room: nat)
    requires l.alive && l.current.Some? && l.current.value < |l.socks|
    requires At(l, t).Sending? || At(l, t).Closing?
    ensures SendAll(l, t, room) == SendingOn(l, t, [], PutOn(l.socks[l.current.value], At(l, t).left, room))
  {
    hide Step, LogsStep;
    var i, left, s := l.current.value, At(l, t).left, l.socks[l.current.value];
    if left == [] {
      assert l.pcs[t := At(l, t)] == l.pcs && l.socks[i := s] == l.socks;
    } else if |left| <= room || s.broken {
      OneSend(l, t, |left|);
      assert left[|left|..] == [] && left[..|left|] == left;
    } else if room == 0 {
      BreakThenSend(l, t);
      assert s.sent + left[..0] == s.sent;
    } else {
      OneSend(l, t, room - 1);
      var s1 := s.(sent := s.sent + left[..room]);
      var l1 := SendingOn(l, t, left[room..], s1);
      BreakThenSend(l1, t);
      SendingTwice(l, t, left[room..], s1, s1.(broken := true));
    }
  }

  /** A call by thread `t` that nobody disturbs, until its event is to be sent. */
  function CallUpToSend(l: Lib, t: nat, event: Option<Event>, connected: bool): Lib {
    Step(Step(Step(Step(Step(l, Call(t)), Lock(t)), Init(t, connected)), CallNext(t)), Report(t, event))
  }

  /** A whole call: `connected` tells whether a socket can be created if there has to be one, and `room` how many bytes
    more the socket accepts. */
  function WholeCall(l: Lib, t: nat, event: Option<Event>, connected: bool, room: nat): Lib {
    Step(SendAll(CallUpToSend(l, t, event, connected), t, room), Unlock(t))
  }

  /** The socket a call uses, and what that looks like before. */
  function SocketFor(l: Lib, connected: bool): Option<nat> {
    if l.initialized then l.current else if connected then Some(|l.socks|) else None
  }

  function SocketBefore(l: Lib, i: nat): Sock {
    if i < |l.socks| then l.socks[i] else Empty()
  }

  predicate IsReported(o: Options, event: Option<Event>) {
    event.Some? && MayReport(o, event.value)
  }

  lemma CallSends(l: Lib, t: nat, event: Option<Event>, connected: bool)
    requires Inv(l) && l.alive && l.holder.None? && At(l, t).Outside? && !(l.guarded && l.finalized)
    ensures var l1, i := CallUpToSend(l, t, event, connected), SocketFor(l, connected);
            var sends := i.Some? && IsReported(l.options, event);
            && At(l1, t) == Sending(if sends then Message(l.options, event.value) else [])
            && l1.holder == Some(t) && l1.alive && l1.initialized && l1.resolved && l1.finalized == l.finalized
            && l1.current == i
            && if i.None? then l1.socks == l.socks else
               var s := SocketBefore(l, i.value);
               && |l1.socks| == (if l.initialized then |l.socks| else |l.socks| + 1) && i.value < |l1.socks|
               && l1.socks[i.value] == if sends then s.(log := s.log + [event.value]) else s
  {
    CallEnters(l, t, connected);
    hide Message, LogsStep, Inv, Step;
    var l1 := Step(Step(Step(Step(l, Call(t)), Lock(t)), Init(t, connected)), CallNext(t));
    assert CallUpToSend(l, t, event, connected) == Step(l1, Report(t, event));
    ReportReturns(l1, t, event);
  }

  lemma ReportReturns(l: Lib, t: nat, event: Option<Event>)
    requires l.alive && At(l, t).Inside? && (l.current.Some? ==> l.current.value < |l.socks|)
    ensures var sends := l.current.Some? && IsReported(l.options, event);
            Step(l, Report(t, event))
            == if !sends then Goto(l, t, Sending([])) else
               var i := l.current.value;
               Goto(l, t, Sending(Message(l.options, event.value)))
               .(socks := l.socks[i := l.socks[i].(log := l.socks[i].log + [event.value])])
  {
    hide Message, LogsStep;
  }

  lemma CallEnters(l: Lib, t: nat, connected: bool)
    requires Inv(l) && l.alive && l.holder.None? && At(l, t).Outside? && !(l.guarded && l.finalized)
    ensures var l1 := Step(Step(Step(Step(l, Call(t)), Lock(t)), Init(t, connected)), CallNext(t));
            var i := SocketFor(l, connected);
            && At(l1, t) == Inside && l1.options == l.options
            && l1.holder == Some(t) && l1.alive && l1.initialized && l1.resolved && l1.finalized == l.finalized
            && l1.current == i
            && l1.socks == (if l.initialized || i.None? then l.socks else l.socks + [Empty()])
            && (i.Some? ==> i.value < |l1.socks| && l1.socks[i.value] == SocketBefore(l, i.value))
  {
    hide LogsStep;
  }

  /** Left alone, a call puts its event, complete unless the connection breaks, on the current socket (a new one if the
    library was not initialized) and leaves the mutex free. Module Refinement relates this to the methods of module
    Interposers. */
  lemma UndisturbedCall(l: Lib, t: nat, event: Option<Event>, connected: bool, room: nat)
    requires Inv(l) && l.alive && l.holder.None? && At(l, t).Outside? && !(l.guarded && l.finalized)
    ensures var l2, i := WholeCall(l, t, event, connected, room), SocketFor(l, connected);
            && l2.holder.None? && At(l2, t).Outside? && l2.alive
            && l2.initialized && l2.resolved && l2.finalized == l.finalized && l2.current == i
            && if i.None? then l2.socks == l.socks else
               var s := SocketBefore(l, i.value);
               && |l2.socks| == (if l.initialized then |l.socks| else |l.socks| + 1) && i.value < |l2.socks|
               && l2.socks[i.value]
                  == if IsReported(l.options, event)
                     then PutOn(s.(log := s.log + [event.value]), Message(l.options, event.value), room)
                     else s
  {
    CallSends(l, t, event, connected);
    hide Message, Step, CallUpToSend, Inv, IsReported, MayReport;
    var l1 := CallUpToSend(l, t, event, connected);
    if l1.current.Some? {
      SendAllPutsOn(l1, t, room);
    }
    Unlocks(SendAll(l1, t, room), t);
  }

  /** What is reported, by the bits: every event but an exec of a silent library, completely or as far as the connection
    goes. */
  lemma ReportedUnlessSilent(l: Lib, t: nat, e: Event, room: nat)
    requires Inv(l) && l.alive && l.holder.None? && At(l, t).Outside? && !(l.guarded && l.finalized)
    requires l.initialized ==> l.current.Some? && !l.socks[l.current.value].broken
    ensures var l2, i := WholeCall(l, t, Some(e), true, room), if l.initialized then l.current.value else |l.socks|;
            && i < |l2.socks|
            && var s := if l.initialized then l.socks[i] else Empty();
               if e.Exec? && l.options.exec & 16 != 0 then l2.socks[i] == s else
               && l2.socks[i].log == s.log + [e]
               && l2.socks[i].sent == s.sent + if |Message(l.options, e)| <= room then Message(l.options, e)
                                               else Message(l.options, e)[..room]
  {
    UndisturbedCall(l, t, Some(e), true, room);
    assert |Message(l.options, e)| >= 8;
    hide Message, WholeCall;
  }

  lemma Unlocks(l: Lib, t: nat)
    requires l.alive && (At(l, t) == Sending([]) || At(l, t).Leaving?)
    ensures Step(l, Unlock(t)) == Goto(l, t, Outside).(holder := None)
  {
  }

  /** The destructor on thread `t`, undisturbed, until it has DONE to send. */
  function DestructorUpToDone(l: Lib, t: nat): Lib {
    Step(Step(Step(l, Destroy(t)), Lock(t)), Finalize(t))
  }

  /** A whole run of the destructor. */
  function WholeDestructor(l: Lib, t: nat, room: nat): Lib {
    Step(Step(SendAll(DestructorUpToDone(l, t), t, room), Shut(t)), Unlock(t))
  }

  lemma DestructorSendsDone(l: Lib, t: nat)
    requires Inv(l) && l.alive && l.holder.None? && At(l, t).Outside?
    ensures var l1 := DestructorUpToDone(l, t);
            && l1.finalized && l1.resolved == l.resolved && l1.alive && l1.guarded == l.guarded
            && l1.current == l.current && |l1.socks| == |l.socks|
            && if l.current.None? then At(l1, t) == Leaving && !l1.initialized && l1.socks == l.socks else
               var i := l.current.value;
               && At(l1, t) == Closing(Done()) && l1.resolved
               && i < |l1.socks| && l1.socks[i] == l.socks[i].(finished := true)
  {
    hide LogsStep;
  }

  lemma Shuts(l: Lib, t: nat)
    requires l.alive && At(l, t) == Closing([]) && l.finalized && l.resolved
    requires l.current.Some? && l.current.value < |l.socks|
    ensures var i := l.current.value;
            Step(l, Shut(t)) == Goto(l, t, Leaving).(initialized := false, current := None,
                                                     socks := l.socks[i := l.socks[i].(shut := true)])
  {
  }

  lemma ShutsNothing(l: Lib, t: nat)
    requires At(l, t) != Closing([])
    ensures Step(l, Shut(t)) == l
  {
  }

  /** Left alone, the destructor ends the current stream, if there is one, with DONE, closes its socket and leaves the mutex
    free. */
  lemma UndisturbedDestructor(l: Lib, t: nat, room: nat)
    requires Inv(l) && l.alive && l.holder.None? && At(l, t).Outside?
    ensures var l2 := WholeDestructor(l, t, room);
            && l2.holder.None? && At(l2, t).Outside? && l2.finalized && !l2.initialized && l2.current.None?
            && l2.alive && l2.resolved == l.resolved && |l2.socks| == |l.socks|
            && if l.current.None? then l2.socks == l.socks else
               var i := l.current.value;
               && i < |l2.socks|
               && l2.socks[i] == PutOn(l.socks[i].(finished := true), Done(), room).(shut := true)
  {
    DestructorSendsDone(l, t);
    assert l.current.Some? ==> l.resolved && l.current.value < |l.socks|;
    hide Step, Inv, DestructorUpToDone, Done;
    var l1 := DestructorUpToDone(l, t);
    if l.current.None? {
      ShutsNothing(l1, t);
      Unlocks(l1, t);
    } else {
      SendAllPutsOn(l1, t, room);
      Shuts(SendAll(l1, t, room), t);
      Unlocks(Step(SendAll(l1, t, room), Shut(t)), t);
    }
  }

  // ----- Streams only grow, and not beyond DONE -----

  predicate SockGrows(s: Sock, s': Sock) {
    && s.log <= s'.log && s.sent <= s'.sent
    && (s.finished ==> s'.finished && s'.log == s.log)
    && (s.shut ==> s'.shut && s'.sent == s.sent)
    && (s.broken ==> s'.broken)
  }

  predicate Grows(l: Lib, l': Lib) {
    && l'.options == l.options && |l.socks| <= |l'.socks|
    && (!l.alive ==> l' == l)
    && (forall i :: 0 <= i < |l.socks| ==> SockGrows(l.socks[i], l'.socks[i]))
  }

  lemma NothingGrows(l: Lib, l': Lib)
    requires l'.options == l.options && l'.socks == l.socks && (!l.alive ==> l' == l)
    ensures Grows(l, l')
  {
  }

  lemma OneGrows(l: Lib, l': Lib, i: nat)
    requires l.alive && l'.options == l.options
    requires i < |l.socks| && |l'.socks| == |l.socks| && l'.socks == l.socks[i := l'.socks[i]]
    requires SockGrows(l.socks[i], l'.socks[i])
    ensures Grows(l, l')
  {
  }

  /** While an event is being reported or sent, its socket is neither closed nor, unless it is DONE, finished. */
  lemma CurrentIsOpen(l: Lib, t: nat)
    requires Inv(l) && l.current.Some? && Critical(At(l, t))
    ensures !l.socks[l.current.value].shut
    ensures !At(l, t).Closing? ==> !l.socks[l.current.value].finished
  {
    assert ThreadOk(l, t);
    assert SockOk(l, l.current.value);
  }

  lemma ReportGrows(l: Lib, t: nat, event: Option<Event>)
    requires Inv(l) && l.alive
    ensures Grows(l, DoReport(l, t, event))
  {
    var l' := DoReport(l, t, event);
    if l'.socks != l.socks {
      CurrentIsOpen(l, t);
      OneGrows(l, l', l.current.value);
    }
  }

  lemma SendGrows(l: Lib, t: nat, extra: nat)
    requires Inv(l) && l.alive
    ensures Grows(l, DoSend(l, t, extra))
  {
    var l' := DoSend(l, t, extra);
    if l'.socks != l.socks {
      CurrentIsOpen(l, t);
      OneGrows(l, l', l.current.value);
    }
  }

  lemma FinalizeGrows(l: Lib, t: nat)
    requires Inv(l) && l.alive
    ensures Grows(l, DoFinalize(l, t)) && Grows(l, DoShut(l, t))
  {
    var l' := DoFinalize(l, t);
    if l'.socks != l.socks {
      OneGrows(l, l', l.current.value);
    }
    l' := DoShut(l, t);
    if l'.socks != l.socks {
      OneGrows(l, l', l.current.value);
    }
  }

  lemma InitGrows(l: Lib, t: nat, connected: bool)
    requires l.alive
    ensures Grows(l, DoInit(l, t, connected))
  {
  }

  lemma BreakGrows(l: Lib, i: nat)
    requires l.alive
    ensures Grows(l, DoBreak(l, i))
  {
    if i < |l.socks| {
      OneGrows(l, DoBreak(l, i), i);
    }
  }

  lemma MovesGrow(l: Lib, a: Action)
    requires l.alive && (a.Call? || a.CallNext? || a.Lock? || a.Unlock? || a.Destroy? || a.Die?)
    ensures Grows(l, Step(l, a))
  {
    NothingGrows(l, Step(l, a));
  }

  lemma StepGrows(l: Lib, a: Action)
    requires Inv(l)
    ensures Grows(l, Step(l, a))
  {
    hide Inv, Grows;
    if l.alive {
      match a
      case Report(t, event) => ReportGrows(l, t, event);
      case Send(t, extra) => SendGrows(l, t, extra);
      case Finalize(t) => FinalizeGrows(l, t);
      case Shut(t) => FinalizeGrows(l, t);
      case Init(t, connected) => InitGrows(l, t, connected);
      case Break(i) => BreakGrows(l, i);
      case _ => MovesGrow(l, a);
    } else {
      NothingGrows(l, l);
    }
  }

  /** Whatever happens later, a finished socket gets no further event, and a closed one no further byte. */
  lemma {:induction false} RunGrows(l: Lib, actions: seq<Action>)
    requires Inv(l)
    ensures Grows(l, Run(l, actions))
  {
    if actions != [] {
      var m := Run(l, actions[..|actions| - 1]);
      RunGrows(l, actions[..|actions| - 1]);
      RunKeepsInv(l, actions[..|actions| - 1]);
      StepGrows(m, actions[|actions| - 1]);
      var n := Run(l, actions);
      forall i | 0 <= i < |l.socks| ensures SockGrows(l.socks[i], n.socks[i]) {
        assert SockGrows(l.socks[i], m.socks[i]) && SockGrows(m.socks[i], n.socks[i]);
      }
    }
  }

  // ----- Silent libraries -----

  predicate OnlyReportable(l: Lib) {
    forall i :: 0 <= i < |l.socks| ==> LogReportable(l.options, l.socks[i].log)
  }

  predicate LogReportable(o: Options, log: seq<Event>) {
    forall e :: e in log ==> MayReport(o, e)
  }

  lemma LogStepReportable(o: Options, log: seq<Event>, log': seq<Event>)
    requires LogReportable(o, log) && LogStep(o, log, log')
    ensures LogReportable(o, log')
  {
    forall e | e in log' ensures MayReport(o, e) {
      var i :| 0 <= i < |log'| && log'[i] == e;
      assert i < |log| ==> log'[..|log|][i] == e;
    }
  }

  lemma StepReportsOnly(l: Lib, a: Action)
    requires OnlyReportable(l)
    ensures OnlyReportable(Step(l, a))
  {
    var l' := Step(l, a);
    forall i | 0 <= i < |l'.socks| ensures LogReportable(l.options, l'.socks[i].log) {
      var log := if i < |l.socks| then l.socks[i].log else [];
      assert LogReportable(l.options, log);
      assert LogStep(l.options, log, l'.socks[i].log);
      LogStepReportable(l.options, log, l'.socks[i].log);
    }
  }

  lemma {:induction false} RunReportsOnly(l: Lib, actions: seq<Action>)
    requires OnlyReportable(l)
    ensures OnlyReportable(Run(l, actions))
  {
    if actions != [] {
      RunReportsOnly(l, actions[..|actions| - 1]);
      StepReportsOnly(Run(l, actions[..|actions| - 1]), actions[|actions| - 1]);
    }
  }

  /** A library whose options are silent about exec events never puts one on any socket. */
  lemma SilentExec(guarded: bool, options: Options, actions: seq<Action>, i: nat)
    requires Has(options.exec, OBSERVE_EXEC_SILENT)
    requires i < |Run(Fresh(guarded, options), actions).socks|
    ensures forall e :: e in Run(Fresh(guarded, options), actions).socks[i].log ==> !e.Exec?
  {
    RunReportsOnly(Fresh(guarded, options), actions);
    RunKeepsSettings(Fresh(guarded, options), actions);
    assert LogReportable(options, Run(Fresh(guarded, options), actions).socks[i].log);
  }
}
