/** That events can always get through: from every reachable state in which the server is running and not in the middle
  of a message, there is a run that observes a further process and delivers everything it does, whatever the other
  processes and connections have been doing. */
module Delivery {
  import opened Wrappers
  import opened Wire
  import opened CStrings
  import opened Sessions
  import opened Settings
  import opened Env
  import opened Propagation
  import opened System
  import opened Meaning
  import T = Threads

  // ----- One library -----

  ghost predicate LibReaches(l: T.Lib, l': T.Lib) {
    exists actions :: T.Run(l, actions) == l'
  }

  lemma LibStays(l: T.Lib)
    ensures LibReaches(l, l)
  {
    assert T.Run(l, []) == l;
  }

  lemma LibStep(l: T.Lib, l': T.Lib, a: T.Action)
    requires LibReaches(l, l')
    ensures LibReaches(l, T.Step(l', a))
  {
    var actions :| T.Run(l, actions) == l';
    var more := actions + [a];
    assert more[..|more| - 1] == actions;
    hide T.Step;
    assert T.Run(l, more) == T.Step(l', a);
  }

  lemma SendAllReached(l: T.Lib, l': T.Lib, t: nat, room: nat)
    requires LibReaches(l, l')
    ensures LibReaches(l, T.SendAll(l', t, room))
  {
    hide T.Step, LibReaches;
    var left := T.LeftOf(T.At(l', t));
    if left == [] || l'.current.None? || l'.current.value >= |l'.socks| {
    } else if |left| <= room || l'.socks[l'.current.value].broken {
      LibStep(l, l', T.Send(t, |left|));
    } else {
      var breaks := T.Break(l'.current.value);
      if room == 0 {
        LibStep(l, l', breaks);
        LibStep(l, T.Step(l', breaks), T.Send(t, 0));
      } else {
        LibStep(l, l', T.Send(t, room - 1));
        var l1 := T.Step(l', T.Send(t, room - 1));
        LibStep(l, l1, breaks);
        LibStep(l, T.Step(l1, breaks), T.Send(t, 0));
      }
    }
  }

  lemma WholeCallReached(l: T.Lib, l': T.Lib, t: nat, event: Option<Event>, connected: bool, room: nat)
    requires LibReaches(l, l')
    ensures LibReaches(l, T.WholeCall(l', t, event, connected, room))
  {
    hide T.Step, T.SendAll, LibReaches;
    LibStep(l, l', T.Call(t));
    var l1 := T.Step(l', T.Call(t));
    LibStep(l, l1, T.Lock(t));
    var l2 := T.Step(l1, T.Lock(t));
    LibStep(l, l2, T.Init(t, connected));
    var l3 := T.Step(l2, T.Init(t, connected));
    LibStep(l, l3, T.CallNext(t));
    var l4 := T.Step(l3, T.CallNext(t));
    LibStep(l, l4, T.Report(t, event));
    var l5 := T.Step(l4, T.Report(t, event));
    SendAllReached(l, l5, t, room);
    LibStep(l, T.SendAll(l5, t, room), T.Unlock(t));
  }

  lemma WholeDestructorReached(l: T.Lib, l': T.Lib, t: nat, room: nat)
    requires LibReaches(l, l')
    ensures LibReaches(l, T.WholeDestructor(l', t, room))
  {
    hide T.Step, T.SendAll, LibReaches;
    LibStep(l, l', T.Destroy(t));
    var l1 := T.Step(l', T.Destroy(t));
    LibStep(l, l1, T.Lock(t));
    var l2 := T.Step(l1, T.Lock(t));
    LibStep(l, l2, T.Finalize(t));
    var l3 := T.Step(l2, T.Finalize(t));
    SendAllReached(l, l3, t, room);
    var l4 := T.SendAll(l3, t, room);
    LibStep(l, l4, T.Shut(t));
    LibStep(l, T.Step(l4, T.Shut(t)), T.Unlock(t));
  }

  /** The library of a process whose one thread has made the calls behind `events`. */
  function AfterCalls(guarded: bool, o: Options, events: seq<Event>): T.Lib {
    if events == [] then T.Fresh(guarded, o)
    else
      var e := events[|events| - 1];
      T.WholeCall(AfterCalls(guarded, o, events[..|events| - 1]), 0, Some(e), true, |Message(o, e)|)
  }

  lemma ReachedKeeps(l: T.Lib, l': T.Lib)
    requires T.Inv(l) && LibReaches(l, l')
    ensures T.Inv(l') && l'.options == l.options && l'.guarded == l.guarded
  {
    var actions :| T.Run(l, actions) == l';
    T.RunKeepsInv(l, actions);
    T.RunKeepsSettings(l, actions);
  }

  lemma {:induction false} CallsReached(guarded: bool, o: Options, events: seq<Event>)
    requires T.LogReportable(o, events)
    ensures var l := AfterCalls(guarded, o, events);
            && LibReaches(T.Fresh(guarded, o), l)
            && l.holder.None? && T.At(l, 0).Outside? && l.alive && !l.finalized
            && (if events == [] then l == T.Fresh(guarded, o)
                else l.initialized && l.current == Some(0) && |l.socks| > 0
                     && l.socks[0] == T.Sock(events, false, Stream(o, events), false, false))
  {
    hide T.Step, Message, LibReaches, Stream;
    if events == [] {
      LibStays(T.Fresh(guarded, o));
    } else {
      var before, e := events[..|events| - 1], events[|events| - 1];
      assert events == before + [e];
      CallsReached(guarded, o, before);
      var l := AfterCalls(guarded, o, before);
      T.FreshInv(guarded, o);
      ReachedKeeps(T.Fresh(guarded, o), l);
      WholeCallReached(T.Fresh(guarded, o), l, 0, Some(e), true, |Message(o, e)|);
      T.UndisturbedCall(l, 0, Some(e), true, |Message(o, e)|);
      SomeBytes(o, e);
      StreamSnoc(o, before, e);
      NothingYet(o);
    }
  }

  lemma SomeBytes(o: Options, e: Event)
    ensures Message(o, e) != []
  {
    assert |Message(o, e)| >= 8;
  }

  lemma NothingYet(o: Options)
    ensures Stream(o, []) == []
  {
  }

  /** A process can do anything reportable and leave behind one finished stream of it. */
  lemma StreamReached(guarded: bool, o: Options, events: seq<Event>)
    requires T.LogReportable(o, events) && events != []
    ensures var l := T.WholeDestructor(AfterCalls(guarded, o, events), 0, |Done()|);
            && LibReaches(T.Fresh(guarded, o), l) && |l.socks| > 0 && l.options == o
            && l.socks[0] == T.Sock(events, true, Written(o, events, true), false, true)
  {
    hide T.Step, Message, LibReaches, Stream;
    var l0, l := T.Fresh(guarded, o), AfterCalls(guarded, o, events);
    CallsReached(guarded, o, events);
    T.FreshInv(guarded, o);
    ReachedKeeps(l0, l);
    WholeDestructorReached(l0, l, 0, |Done()|);
    ReachedKeeps(l0, T.WholeDestructor(l, 0, |Done()|));
    T.UndisturbedDestructor(l, 0, |Done()|);
    assert |Done()| == 4;
  }

  // ----- The system -----

  /** A run leads from one state to the other and launches processes with just these environments. */
  ghost predicate Reaches(sys: System, owns: seq<Environment>, sys': System) {
    exists actions :: Run(sys, actions) == sys' && Launches(actions) == owns
  }

  lemma Stays(sys: System)
    ensures Reaches(sys, [], sys)
  {
    assert Run(sys, []) == sys && Launches([]) == [];
  }

  lemma OneStep(sys: System, owns: seq<Environment>, sys': System, a: Action)
    requires Reaches(sys, owns, sys')
    ensures Reaches(sys, owns + (if a.Launch? then [a.own] else []), Step(sys', a))
  {
    var actions :| Run(sys, actions) == sys' && Launches(actions) == owns;
    var more := actions + [a];
    assert more[..|more| - 1] == actions;
    hide Step;
    assert Run(sys, more) == Step(sys', a);
    assert Launches(more) == owns + (if a.Launch? then [a.own] else []);
  }

  lemma ReachedIsOk(sys: System, owns: seq<Environment>, sys': System)
    requires SysOk(sys) && Reaches(sys, owns, sys')
    ensures SysOk(sys')
  {
    var actions :| Run(sys, actions) == sys' && Launches(actions) == owns;
    RunKeeps(sys, actions);
  }

  /** What a library can do alone it can do within the system. */
  lemma {:induction false} ActsReached(sys: System, owns: seq<Environment>, sys': System, i: nat, actions: seq<T.Action>)
    requires Reaches(sys, owns, sys') && i < |sys'.libs|
    ensures Reaches(sys, owns, sys'.(libs := sys'.libs[i := T.Run(sys'.libs[i], actions)]))
    decreases |actions|
  {
    hide Reaches, T.Step;
    if actions == [] {
      assert sys'.libs[i := sys'.libs[i]] == sys'.libs;
    } else {
      var before, a := actions[..|actions| - 1], actions[|actions| - 1];
      ActsReached(sys, owns, sys', i, before);
      var s := sys'.(libs := sys'.libs[i := T.Run(sys'.libs[i], before)]);
      OneStep(sys, owns, s, Act(i, a));
      assert owns + [] == owns;
      assert Step(s, Act(i, a)) == sys'.(libs := sys'.libs[i := T.Run(sys'.libs[i], actions)]);
    }
  }

  lemma {:induction false} ReadsReached(sys: System, owns: seq<Environment>, sys': System, id: Id, n: nat)
    requires Reaches(sys, owns, sys')
    ensures Reaches(sys, owns, ReadMany(sys', id, n))
    decreases n
  {
    hide Reaches, DoRead;
    if n > 0 {
      OneStep(sys, owns, sys', Read(id));
      assert owns + [] == owns;
      ReadsReached(sys, owns, DoRead(sys', id), id, n - 1);
    }
  }

  /** The process has been launched, has done everything, and the server has accepted its connection. */
  function Connected(sys: System, l: T.Lib): System {
    var id := Id(|sys.libs|, 0);
    sys.(libs := sys.libs + [l], conns := sys.conns[id := Conn([], [], 0, [], false, Live)])
  }

  /** What a process with environment `own` makes of LIBVOYEUR_OPTS. */
  function OptionsIn(own: Environment): Options {
    ClientOptions(GetEnv(own, OPTS))
  }

  lemma ConnectedReached(sys: System, guarded: bool, own: Environment, l: T.Lib)
    requires SysOk(sys) && sys.running
    requires LibReaches(T.Fresh(guarded, OptionsIn(own)), l) && |l.socks| > 0
    ensures Reaches(sys, [own], Connected(sys, l)) && Id(|sys.libs|, 0) !in sys.conns
  {
    hide Reaches, LibOk, BooksOk, ClientOptions, GetEnv;
    var i, id, start := |sys.libs|, Id(|sys.libs|, 0), T.Fresh(guarded, OptionsIn(own));
    Stays(sys);
    OneStep(sys, [], sys, Launch(guarded, own));
    assert [] + [own] == [own];
    var s1 := sys.(libs := sys.libs + [start]);
    assert Step(sys, Launch(guarded, own)) == s1;
    var actions :| T.Run(start, actions) == l;
    ActsReached(sys, [own], s1, i, actions);
    var s2 := sys.(libs := sys.libs + [l]);
    assert s1.libs[i := l] == s2.libs;
    OneStep(sys, [own], s2, Accept(id));
    assert [own] + [] == [own];
    assert id !in sys.conns;
    assert Step(s2, Accept(id)) == Connected(sys, l);
  }

  /** Delivery is always possible. However the rest of the system has run, a process launched with any environment that
    agrees with the server can still do any reportable things, and have exactly these called back, in order and once, on
    a connection of its own that ends at DONE; the connections there were before are untouched by that. */
  lemma DeliveryPossible(sys: System, guarded: bool, own: Environment, events: seq<Event>)
    requires SysOk(sys) && sys.running && sys.busy == None && Agree(OptionsIn(own), sys.cfg.options)
    requires events != [] && T.LogReportable(OptionsIn(own), events)
    ensures exists sys' :: Reaches(sys, [own], sys') && Delivered(sys, sys', OptionsIn(own), events)
  {
    hide Reaches, LibReaches, SysOk, Message, Stream, Reports, Written, Agree, OptionsIn;
    var o, id := OptionsIn(own), Id(|sys.libs|, 0);
    var l := T.WholeDestructor(AfterCalls(guarded, o, events), 0, |Done()|);
    StreamReached(guarded, o, events);
    ConnectedReached(sys, guarded, own, l);
    var s := Connected(sys, l);
    ReachedIsOk(sys, [own], s);
    var n := |SockOf(s, id).sent|;
    ReadingReachesDone(s, id, n);
    ReadsReached(sys, [own], s, id, n);
    OthersUntouched(s, id, n);
    assert Delivered(sys, ReadMany(s, id, n), o, events);
  }

  /** A new connection has had exactly `events` called back and is closed at DONE; the other ones are as they were. */
  predicate Delivered(sys: System, sys': System, o: Options, events: seq<Event>) {
    var id := Id(|sys.libs|, 0);
    && id in sys'.conns && sys'.conns[id].fate.AtDone?
    && sys'.conns[id].seen == Reports(sys.cfg, o, events)
    && forall other :: other in sys.conns ==> other in sys'.conns && sys'.conns[other] == sys.conns[other]
  }

  lemma {:induction false} OthersUntouched(sys: System, id: Id, n: nat)
    ensures ReadMany(sys, id, n).cfg == sys.cfg
    ensures forall other :: other in sys.conns && other != id ==>
              other in ReadMany(sys, id, n).conns && ReadMany(sys, id, n).conns[other] == sys.conns[other]
    decreases n
  {
    hide Consume;
    if n > 0 {
      OthersUntouched(DoRead(sys, id), id, n - 1);
    }
  }

  /** In particular an exec, by a library that is not silent; and any other event in any case. */
  lemma EventDelivered(sys: System, guarded: bool, own: Environment, e: Event)
    requires SysOk(sys) && sys.running && sys.busy == None && Agree(OptionsIn(own), sys.cfg.options)
    requires e.Exec? ==> OptionsIn(own).exec & 16 == 0
    ensures exists sys' :: Reaches(sys, [own], sys') && Id(|sys.libs|, 0) in sys'.conns
                           && sys'.conns[Id(|sys.libs|, 0)].fate.AtDone?
                           && sys'.conns[Id(|sys.libs|, 0)].seen
                              == HandleMessage(sys.cfg, Message(OptionsIn(own), e)).calls
  {
    hide Reaches, SysOk, Message, HandleMessage, Agree, OptionsIn;
    DeliveryPossible(sys, guarded, own, [e]);
    var sys' :| Reaches(sys, [own], sys') && Delivered(sys, sys', OptionsIn(own), [e]);
    ReportsAreCallbacks(sys.cfg, OptionsIn(own), [e], 0);
    assert [e][..1] == [e] && [e][..0] == [];
    assert [] + HandleMessage(sys.cfg, Message(OptionsIn(own), e)).calls
           == HandleMessage(sys.cfg, Message(OptionsIn(own), e)).calls;
  }

  /** So, after any run, every process of an observed tree can still have everything it does delivered. */
  lemma DeliveryInTree(cfg: Config, libdir: cstring, socket: cstring, env: Environment, envps: seq<Environment>,
                       actions: seq<Action>, events: seq<Event>)
    requires Keeps(env, OPTS, OptionString(cfg.options)) && AllKeep(envps, OPTS, OptionString(cfg.options))
    requires Run(Initial(cfg), actions).running && Run(Initial(cfg), actions).busy == None
    requires events != [] && T.LogReportable(LowFive(cfg.options), events)
    ensures Descendant(Augment(env, SettingsOf(cfg, libdir, socket)), envps).Some?
    ensures var sys := Run(Initial(cfg), actions);
            var own := Descendant(Augment(env, SettingsOf(cfg, libdir, socket)), envps).value;
            exists sys' :: Reaches(sys, [own], sys') && Delivered(sys, sys', LowFive(cfg.options), events)
  {
    hide Run, ClientOptions, GetEnv, Augment, Agree;
    RunKeeps(Initial(cfg), actions);
    AgreementAtEveryDepth(cfg, libdir, socket, env, envps);
    var own := Descendant(Augment(env, SettingsOf(cfg, libdir, socket)), envps).value;
    assert OptionsIn(own) == LowFive(cfg.options);
    DeliveryPossible(Run(Initial(cfg), actions), true, own, events);
  }
}
