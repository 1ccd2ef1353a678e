/** Two interposer libraries in one process: another one ("outer") and libvoyeur-close ("closer"). The close with which
  the destructor of the outer one ends is then itself interposed, and made while the outer mutex is held. */
module Nesting {
  import opened Wrappers
  import opened Wire
  import T = Threads

  /** `entered`: the outer destructor has made its close. */
  datatype Process = Process(outer: T.Lib, closer: T.Lib, entered: bool)

  datatype Action =
    | Outer(a: T.Action)
    | Closer(a: T.Action)
    | Nest(t: nat)        // the outer destructor calls close; again, if that was interrupted
    | Return(t: nat)      // its close has returned
    | Die

  function Fresh(outer: Options, closer: Options): Process {
    Process(T.Fresh(false, outer), T.Fresh(true, closer), false)
  }

  /** The thread begins something: then it is not inside the other library. */
  predicate Begins(a: T.Action) {
    a.Call? || a.Destroy?
  }

  /** Thread `t` holds the outer mutex and is at its destructor's close. */
  predicate AtClose(p: Process, t: nat) {
    T.At(p.outer, t) == T.Closing([])
  }

  predicate MayNest(p: Process, t: nat) {
    AtClose(p, t) && T.At(p.closer, t).Outside?
  }

  /** What an action means for the outer library. */
  function ForOuter(p: Process, a: Action): Option<T.Action> {
    match a
    case Outer(b) => if b.Shut? || b.Die? || (Begins(b) && !T.At(p.closer, b.t).Outside?) then None else Some(b)
    case Return(t) => if p.entered && MayNest(p, t) then Some(T.Shut(t)) else None
    case Die => Some(T.Die)
    case _ => None
  }

  /** What it means for libvoyeur-close. */
  function ForCloser(p: Process, a: Action): Option<T.Action> {
    match a
    case Closer(b) => if b.Die? || (Begins(b) && !T.At(p.outer, b.t).Outside?) then None else Some(b)
    case Nest(t) => if MayNest(p, t) then Some(T.Call(t)) else None
    case Die => Some(T.Die)
    case _ => None
  }

  function Do(l: T.Lib, a: Option<T.Action>): T.Lib {
    if a.Some? then T.Step(l, a.value) else l
  }

  function Step(p: Process, a: Action): Process {
    Process(Do(p.outer, ForOuter(p, a)), Do(p.closer, ForCloser(p, a)),
            if a.Nest? then p.entered || MayNest(p, a.t)
            else p.entered && !(a.Return? && ForOuter(p, a).Some?))
  }

  function Run(p: Process, actions: seq<Action>): Process {
    if actions == [] then p else Step(Run(p, actions[..|actions| - 1]), actions[|actions| - 1])
  }

  // ----- Each library by itself -----

  function AsList(a: Option<T.Action>): seq<T.Action> {
    if a.Some? then [a.value] else []
  }

  /** What a run amounts to for each library. */
  function OuterRun(p: Process, actions: seq<Action>): seq<T.Action> {
    if actions == [] then [] else
    var front := actions[..|actions| - 1];
    OuterRun(p, front) + AsList(ForOuter(Run(p, front), actions[|actions| - 1]))
  }

  function CloserRun(p: Process, actions: seq<Action>): seq<T.Action> {
    if actions == [] then [] else
    var front := actions[..|actions| - 1];
    CloserRun(p, front) + AsList(ForCloser(Run(p, front), actions[|actions| - 1]))
  }

  lemma RunMore(l: T.Lib, actions: seq<T.Action>, a: Option<T.Action>)
    ensures T.Run(l, actions + AsList(a)) == Do(T.Run(l, actions), a)
  {
    hide T.Step;
    var more := actions + AsList(a);
    if a.Some? {
      assert more[..|more| - 1] == actions;
    } else {
      assert more == actions;
    }
  }

  /** Nesting adds nothing: for each of the two libraries every run is one of those of module Threads, so all that is
    proved there of one library alone holds of both. */
  lemma {:induction false} EachIsARun(p: Process, actions: seq<Action>)
    ensures Run(p, actions).outer == T.Run(p.outer, OuterRun(p, actions))
    ensures Run(p, actions).closer == T.Run(p.closer, CloserRun(p, actions))
  {
    if actions != [] {
      hide T.Step, ForOuter, ForCloser;
      var front, last := actions[..|actions| - 1], actions[|actions| - 1];
      EachIsARun(p, front);
      RunMore(p.outer, OuterRun(p, front), ForOuter(Run(p, front), last));
      RunMore(p.closer, CloserRun(p, front), ForCloser(Run(p, front), last));
    }
  }

  // ----- Invariant -----

  /** A thread is inside both libraries only at the outer destructor's close. */
  predicate InOne(p: Process, t: nat) {
    T.At(p.outer, t).Outside? || T.At(p.closer, t).Outside? || AtClose(p, t)
  }

  ghost predicate Inv(p: Process) {
    && T.Inv(p.outer) && T.Inv(p.closer) && !p.outer.guarded && p.closer.guarded
    && p.outer.alive == p.closer.alive
    && forall t: nat :: InOne(p, t)
  }

  /** What an action does not change: where other threads are, and whether the process lives. */
  predicate OthersStay(l: T.Lib, a: T.Action, t: nat) {
    && (a.Break? || a.Die? || a.t != t ==> T.At(T.Step(l, a), t) == T.At(l, t))
    && T.Step(l, a).alive == (l.alive && !a.Die?)
  }

  lemma ReportStays(l: T.Lib, a: T.Action, t: nat)
    requires a.Report?
    ensures OthersStay(l, a, t)
  {
    hide Message, T.LogsStep;
  }

  lemma SendStays(l: T.Lib, a: T.Action, t: nat)
    requires a.Send?
    ensures OthersStay(l, a, t)
  {
    hide T.LogsStep, T.SendSome;
  }

  lemma FinalizeStays(l: T.Lib, a: T.Action, t: nat)
    requires a.Finalize?
    ensures OthersStay(l, a, t)
  {
    hide T.LogsStep, Done;
  }

  lemma ShutStays(l: T.Lib, a: T.Action, t: nat)
    requires a.Shut?
    ensures OthersStay(l, a, t)
  {
    hide T.LogsStep;
  }

  lemma InitStays(l: T.Lib, a: T.Action, t: nat)
    requires a.Init? || a.CallNext? || a.Break? || a.Die?
    ensures OthersStay(l, a, t)
  {
    hide T.LogsStep;
  }

  lemma MutexStays(l: T.Lib, a: T.Action, t: nat)
    requires a.Call? || a.Lock? || a.Unlock? || a.Destroy?
    ensures OthersStay(l, a, t)
  {
    hide T.LogsStep;
  }

  lemma Stays(l: T.Lib, a: T.Action, t: nat)
    ensures OthersStay(l, a, t)
  {
    hide OthersStay;
    match a
    case Report(_, _) => ReportStays(l, a, t);
    case Send(_, _) => SendStays(l, a, t);
    case Finalize(_) => FinalizeStays(l, a, t);
    case Shut(_) => ShutStays(l, a, t);
    case Init(_, _) => InitStays(l, a, t);
    case CallNext(_) => InitStays(l, a, t);
    case Break(_) => InitStays(l, a, t);
    case Die => InitStays(l, a, t);
    case _ => MutexStays(l, a, t);
  }

  lemma ActorMoves(l: T.Lib, a: T.Action)
    requires !a.Break? && !a.Die?
    ensures T.At(l, a.t).Outside? && !T.At(T.Step(l, a), a.t).Outside? ==> Begins(a)
    ensures T.At(l, a.t) == T.Closing([]) && !a.Shut? ==> T.At(T.Step(l, a), a.t) == T.Closing([])
  {
    hide Message, T.LogsStep;
  }

  /** Who moves where in one step of a library: only the acting thread, and it leaves the outside only by beginning. */
  lemma OnlyTheActor(l: T.Lib, a: T.Action, t: nat)
    ensures T.At(T.Step(l, a), t) != T.At(l, t) ==> !a.Break? && !a.Die? && a.t == t
    ensures T.At(l, t).Outside? && !T.At(T.Step(l, a), t).Outside? ==> Begins(a)
    ensures T.At(l, t) == T.Closing([]) && !a.Shut? ==> T.At(T.Step(l, a), t) == T.Closing([])
  {
    hide T.Step;
    Stays(l, a, t);
    if !a.Break? && !a.Die? && a.t == t {
      ActorMoves(l, a);
    }
  }

  lemma InOneKept(p: Process, a: Action, t: nat)
    requires InOne(p, t) && p.outer.alive == p.closer.alive
    ensures InOne(Step(p, a), t)
  {
    hide T.Step;
    var o, c := ForOuter(p, a), ForCloser(p, a);
    if o.Some? {
      OnlyTheActor(p.outer, o.value, t);
    }
    if c.Some? {
      OnlyTheActor(p.closer, c.value, t);
    }
  }

  lemma StepKeeps(p: Process, a: Action)
    requires Inv(p)
    ensures Inv(Step(p, a))
  {
    hide T.Inv, InOne;
    var o, c := ForOuter(p, a), ForCloser(p, a);
    if o.Some? {
      T.StepKeepsInv(p.outer, o.value);
    }
    if c.Some? {
      T.StepKeepsInv(p.closer, c.value);
    }
    forall t: nat ensures InOne(Step(p, a), t) {
      assert InOne(p, t);
      InOneKept(p, a, t);
    }
    BothDie(p, a);
  }

  lemma BothDie(p: Process, a: Action)
    requires p.outer.alive == p.closer.alive
    ensures Step(p, a).outer.alive == Step(p, a).closer.alive
  {
    hide T.Step;
    var o, c := ForOuter(p, a), ForCloser(p, a);
    if o.Some? {
      Stays(p.outer, o.value, 0);
    }
    if c.Some? {
      Stays(p.closer, c.value, 0);
    }
  }

  lemma {:induction false} RunKeeps(outer: Options, closer: Options, actions: seq<Action>)
    ensures Inv(Run(Fresh(outer, closer), actions))
  {
    if actions == [] {
      T.FreshInv(false, outer);
      T.FreshInv(true, closer);
    } else {
      RunKeeps(outer, closer, actions[..|actions| - 1]);
      StepKeeps(Run(Fresh(outer, closer), actions[..|actions| - 1]), actions[|actions| - 1]);
    }
  }

  // ----- Who waits for whom -----

  /** The thread is waiting for a mutex that is taken. */
  predicate Waits(l: T.Lib, t: nat) {
    (T.At(l, t).Waiting? || T.At(l, t).Dropping?) && l.holder.Some?
  }

  /** The thread that `t` is waiting for. */
  function Behind(p: Process, t: nat): Option<nat> {
    if Waits(p.closer, t) then p.closer.holder
    else if Waits(p.outer, t) then p.outer.holder
    else None
  }

  /** How much of what it is asked the kernel answers: everything, all but the calls that the libraries replace, or
    nothing. Any of these may take for ever: an open of a FIFO waits for its other end, a send for the server. */
  datatype Kernel = Everything | NoRealCalls | Nothing

  /** An action of a library for which the kernel has to do something. */
  predicate AsksKernel(l: T.Lib, a: T.Action) {
    a.Report? || a.Send? || a.Shut? || (a.Init? && !l.initialized)
  }

  /** The action does not wait for an answer that is not given. (Return is the outer Shut, but its close has returned;
    Nest is a close by itself only if libvoyeur-close forwards it.) */
  predicate Answered(p: Process, a: Action, k: Kernel) {
    match a
    case Outer(b) => k.Everything? || (if k.NoRealCalls? then !b.Report? else !AsksKernel(p.outer, b))
    case Closer(b) => k.Everything? || (if k.NoRealCalls? then !b.Report? else !AsksKernel(p.closer, b))
    case Nest(_) => !k.Nothing? || !(p.closer.finalized && p.closer.resolved)
    case _ => true
  }

  /** The thread has jumped through the unresolved pointer; the process is lost. */
  predicate Crashed(p: Process, t: nat) {
    T.At(p.closer, t).NullCall?
  }

  /** The thread is in the kernel: connecting, in the real call, or sending. */
  predicate InKernel(l: T.Lib, t: nat) {
    match T.At(l, t)
    case Entered => !l.initialized
    case Inside => true
    case Sending(left) => left != []
    case Closing(left) => left != []
    case _ => false
  }

  /** The thread cannot go on: it has crashed, or it is waiting for an answer that the kernel does not give. */
  predicate Stuck(p: Process, t: nat, k: Kernel) {
    || Crashed(p, t)
    || (!k.Everything? && (T.At(p.outer, t).Inside? || T.At(p.closer, t).Inside?))
    || (k.Nothing? && (InKernel(p.outer, t) || InKernel(p.closer, t) || T.At(p.closer, t) == T.Closing([])
                       || (MayNest(p, t) && !p.entered && p.closer.finalized && p.closer.resolved)))
  }

  ghost predicate CanMove(p: Process, t: nat, k: Kernel) {
    exists a :: By(a, t) && Answered(p, a, k) && Step(p, a) != p
  }

  predicate By(a: Action, t: nat) {
    match a
    case Outer(b) => !b.Break? && !b.Die? && b.t == t
    case Closer(b) => !b.Break? && !b.Die? && b.t == t
    case Nest(u) => u == t
    case Return(u) => u == t
    case Die => false
  }

  /** The next action of the holder of a library's mutex. */
  function NextOf(l: T.Lib, t: nat): T.Action {
    match T.At(l, t)
    case Entered => T.Init(t, true)
    case Calling => T.CallNext(t)
    case Inside => T.Report(t, None)
    case Sending(left) => if left == [] then T.Unlock(t) else T.Send(t, 0)
    case Ending => T.Finalize(t)
    case Closing(left) => if left == [] then T.Shut(t) else T.Send(t, 0)
    case _ => T.Unlock(t)
  }

  lemma HolderMoves(l: T.Lib, t: nat)
    requires T.Inv(l) && l.alive && l.holder == Some(t)
    ensures NextOf(l, t).t == t && !Begins(NextOf(l, t)) && !NextOf(l, t).Break? && !NextOf(l, t).Die?
    ensures NextOf(l, t).Shut? ==> T.At(l, t) == T.Closing([])
    ensures T.Step(l, NextOf(l, t)) != l
    ensures NextOf(l, t).Report? <==> T.At(l, t).Inside?
    ensures AsksKernel(l, NextOf(l, t)) <==> InKernel(l, t) || T.At(l, t) == T.Closing([])
  {
    assert T.ThreadOk(l, t);
    var a := NextOf(l, t);
    if a.Send? {
      var s := l.socks[l.current.value];
      assert T.At(l, t).left != [];
      assert T.SendSome(s, T.At(l, t).left, 0).0 != T.At(l, t).left;
    }
    assert T.At(T.Step(l, a), t) != T.At(l, t);
  }

  /** An action of the thread other than the kernel's answer leaves a thread that is in the kernel where it is. */
  lemma OnlyTheAnswer(l: T.Lib, t: nat, a: T.Action)
    requires !a.Break? && !a.Die? && a.t == t && !AsksKernel(l, a)
    requires InKernel(l, t) || T.At(l, t) == T.Closing([])
    ensures T.Step(l, a) == l
  {
    hide Message, T.LogsStep, Done;
  }

  /** In the real call, only its return changes anything. */
  lemma OnlyTheReturn(l: T.Lib, t: nat, a: T.Action)
    requires !a.Break? && !a.Die? && a.t == t && !a.Report? && T.At(l, t).Inside?
    ensures T.Step(l, a) == l
  {
    hide Message, T.LogsStep, Done;
  }

  /** Outside, only a beginning does, and after a crash nothing. */
  lemma NothingOutside(l: T.Lib, t: nat, a: T.Action)
    requires !a.Break? && !a.Die? && a.t == t
    requires T.At(l, t).NullCall? || (T.At(l, t).Outside? && !Begins(a))
    ensures T.Step(l, a) == l
  {
    hide Message, T.LogsStep, Done;
  }

  /** At its close, the outer destructor only shuts. */
  lemma OnlyTheShut(l: T.Lib, t: nat, a: T.Action)
    requires !a.Break? && !a.Die? && a.t == t && !a.Shut? && T.At(l, t) == T.Closing([])
    ensures T.Step(l, a) == l
  {
    hide Message, T.LogsStep, Done;
  }

  /** A stuck thread cannot move. */
  lemma StuckStays(p: Process, t: nat, k: Kernel, a: Action)
    requires Inv(p) && Stuck(p, t, k) && By(a, t) && Answered(p, a, k)
    ensures Step(p, a) == p
  {
    hide T.Step, T.Inv;
    assert InOne(p, t);
    match a
    case Outer(b) =>
      if !T.At(p.closer, t).Outside? && T.At(p.outer, t).Outside? {
        if !Begins(b) {
          NothingOutside(p.outer, t, b);
        }
      } else if AtClose(p, t) {
        if !b.Shut? {
          OnlyTheShut(p.outer, t, b);
        }
      } else if T.At(p.outer, t).Inside? && !k.Everything? {
        if !b.Report? {
          OnlyTheReturn(p.outer, t, b);
        }
      } else {
        OnlyTheAnswer(p.outer, t, b);
      }
    case Closer(b) =>
      if T.At(p.closer, t).Outside? {
        if !Begins(b) {
          NothingOutside(p.closer, t, b);
        }
      } else if Crashed(p, t) {
        NothingOutside(p.closer, t, b);
      } else if T.At(p.closer, t).Inside? && !k.Everything? {
        OnlyTheReturn(p.closer, t, b);
      } else {
        OnlyTheAnswer(p.closer, t, b);
      }
    case _ =>
  }

  /** The holder of the inner mutex waits for nothing. */
  lemma CloserHolderMoves(p: Process, t: nat, k: Kernel)
    requires Inv(p) && p.closer.alive && p.closer.holder == Some(t)
    ensures Behind(p, t) == None && (CanMove(p, t, k) <==> !Stuck(p, t, k))
  {
    hide T.Step;
    assert T.ThreadOk(p.closer, t) && T.ThreadOk(p.outer, t) && InOne(p, t);
    HolderMoves(p.closer, t);
    var a := Closer(NextOf(p.closer, t));
    assert By(a, t) && ForCloser(p, a) == Some(NextOf(p.closer, t));
    assert Step(p, a).closer != p.closer;
    if Stuck(p, t, k) {
      StuckIsStuck(p, t, k);
    } else {
      assert Answered(p, a, k);
    }
  }

  lemma StuckIsStuck(p: Process, t: nat, k: Kernel)
    requires Inv(p) && Stuck(p, t, k)
    ensures !CanMove(p, t, k)
  {
    forall a | By(a, t) && Answered(p, a, k) ensures Step(p, a) == p {
      StuckStays(p, t, k, a);
    }
  }

  /** The holder of the outer mutex waits at most for the inner one. */
  lemma OuterHolderMoves(p: Process, t: nat, k: Kernel)
    requires Inv(p) && p.outer.alive && p.outer.holder == Some(t)
    ensures Behind(p, t) == None ==> (CanMove(p, t, k) <==> !Stuck(p, t, k))
    ensures Behind(p, t).Some? ==> Behind(p, t) == p.closer.holder && p.closer.holder != Some(t)
  {
    hide T.Step;
    assert T.ThreadOk(p.outer, t) && T.ThreadOk(p.closer, t) && InOne(p, t);
    assert !Waits(p.outer, t);
    if Behind(p, t) == None {
      if Stuck(p, t, k) {
        StuckIsStuck(p, t, k);
      } else if T.At(p.closer, t).Outside? {
        OuterMoves(p, t, k);
      } else {
        InsideMoves(p, t, k);
      }
    }
  }

  lemma OuterMoves(p: Process, t: nat, k: Kernel)
    requires Inv(p) && p.outer.alive && p.outer.holder == Some(t)
    requires T.At(p.closer, t).Outside? && !Stuck(p, t, k)
    ensures CanMove(p, t, k)
  {
    hide T.Step, T.Inv;
    HolderMoves(p.outer, t);
    var b := NextOf(p.outer, t);
    if b.Shut? {
      var a := if p.entered then Return(t) else Nest(t);
      assert By(a, t) && Answered(p, a, k);
      assert p.entered ==> Step(p, a).outer != p.outer;
      assert !p.entered ==> Step(p, a).entered;
    } else {
      assert By(Outer(b), t) && Answered(p, Outer(b), k) && Step(p, Outer(b)).outer != p.outer;
    }
  }

  /** Whoever is inside libvoyeur-close, does not wait and is not stuck can move there. */
  lemma InsideMoves(p: Process, t: nat, k: Kernel)
    requires Inv(p) && p.closer.alive && !T.At(p.closer, t).Outside?
    requires !Waits(p.closer, t) && !Stuck(p, t, k)
    ensures CanMove(p, t, k)
  {
    assert T.ThreadOk(p.closer, t);
    if p.closer.holder == Some(t) {
      CloserHolderMoves(p, t, k);
    } else {
      var a := Closer(T.Lock(t));
      assert By(a, t) && Answered(p, a, k) && T.At(Step(p, a).closer, t) != T.At(p.closer, t);
    }
  }

  /** Who waits for whom, in every reachable state: the outer mutex is taken before the inner one and never the other way
    round, so a waiting thread is behind one or two others. The last of these can go on by itself if and only if it is
    not stuck: it has not crashed, and it is not waiting for an answer that the kernel does not give. In particular, if the
    kernel answers everything there is no deadlock, and if it answers everything but the calls that the libraries
    replace, then only a thread inside such a call can hold up the others. */
  lemma WaitChains(outer: Options, closer: Options, actions: seq<Action>, t: nat, k: Kernel)
    requires Run(Fresh(outer, closer), actions).outer.alive
    requires Behind(Run(Fresh(outer, closer), actions), t).Some?
    ensures var p := Run(Fresh(outer, closer), actions);
            var h := Behind(p, t).value;
            && h != t
            && (Behind(p, h).None? ==> (CanMove(p, h, k) <==> !Stuck(p, h, k)))
            && (Behind(p, h).Some? ==>
                  var g := Behind(p, h).value;
                  g != h && g != t && Behind(p, g).None? && (CanMove(p, g, k) <==> !Stuck(p, g, k)))
  {
    hide CanMove, Stuck, Run;
    RunKeeps(outer, closer, actions);
    var p := Run(Fresh(outer, closer), actions);
    assert T.ThreadOk(p.outer, t) && T.ThreadOk(p.closer, t);
    var h := Behind(p, t).value;
    if Waits(p.closer, t) {
      CloserHolderMoves(p, h, k);
    } else {
      OuterHolderMoves(p, h, k);
      if Behind(p, h).Some? {
        CloserHolderMoves(p, Behind(p, h).value, k);
      }
    }
  }

  // ----- A real call that blocks -----

  /** `h` is in a real call of the outer library, and `t` waits for the mutex that it holds. */
  predicate HeldUp(p: Process, h: nat, t: nat) {
    h != t && T.At(p.outer, h).Inside? && p.outer.holder == Some(h) && T.At(p.outer, t).Waiting?
  }

  /** No real call of thread `h` returns. */
  predicate NoAnswer(actions: seq<Action>, h: nat) {
    forall a :: a in actions && a.Outer? && a.a.Report? ==> a.a.t != h
  }

  lemma HeldUpStep(l: T.Lib, a: T.Action, h: nat, t: nat)
    requires h != t && T.At(l, h).Inside? && l.holder == Some(h) && T.At(l, t).Waiting? && T.Inv(l)
    requires a.Report? ==> a.t != h
    ensures var l' := T.Step(l, a);
            T.At(l', h).Inside? && l'.holder == Some(h) && T.At(l', t).Waiting?
  {
    hide Message, T.LogsStep, Done;
    if !a.Break? && !a.Die? {
      assert T.ThreadOk(l, a.t);
    }
  }

  /** Until that real call returns, whatever else any thread and the kernel do, `t` does not even get to make its own. */
  lemma {:induction false} HeldUpUntilTheAnswer(p: Process, h: nat, t: nat, actions: seq<Action>)
    requires Inv(p) && HeldUp(p, h, t) && NoAnswer(actions, h)
    ensures Inv(Run(p, actions)) && HeldUp(Run(p, actions), h, t)
  {
    hide Inv, Step, T.Step;
    if actions != [] {
      var front, last := actions[..|actions| - 1], actions[|actions| - 1];
      HeldUpUntilTheAnswer(p, h, t, front);
      StepKeeps(Run(p, front), last);
      HeldUpByStep(Run(p, front), last, h, t);
    }
  }

  lemma HeldUpByStep(p: Process, a: Action, h: nat, t: nat)
    requires Inv(p) && HeldUp(p, h, t) && (a.Outer? && a.a.Report? ==> a.a.t != h)
    ensures HeldUp(Step(p, a), h, t)
  {
    hide T.Step;
    var o := ForOuter(p, a);
    if o.Some? {
      HeldUpStep(p.outer, o.value, h, t);
    }
  }

  /** One thread opens a FIFO for reading, and blocks in the real open; another one is to open it for writing. */
  function FifoRun(): seq<Action> {
    [Outer(T.Call(0)), Outer(T.Lock(0)), Outer(T.Init(0, true)), Outer(T.CallNext(0)), Outer(T.Call(1))]
  }

  /** The same, as steps of the outer library. */
  function FifoOuter(o: Options): T.Lib {
    var l := T.Step(T.Step(T.Fresh(false, o), T.Call(0)), T.Lock(0));
    T.Step(T.Step(T.Step(l, T.Init(0, true)), T.CallNext(0)), T.Call(1))
  }

  lemma FifoOuterHolds(o: Options)
    ensures var l := FifoOuter(o);
            T.At(l, 0).Inside? && l.holder == Some(0) && T.At(l, 1).Waiting?
  {
    hide T.LogsStep;
  }

  lemma OuterAlone(p: Process, b: T.Action)
    requires !b.Shut? && !b.Die? && (Begins(b) ==> T.At(p.closer, b.t).Outside?)
    ensures Step(p, Outer(b)) == p.(outer := T.Step(p.outer, b))
  {
  }

  lemma FifoReached(outer: Options, closer: Options)
    ensures Run(Fresh(outer, closer), FifoRun()) == Process(FifoOuter(outer), T.Fresh(true, closer), false)
  {
    hide T.Step, Step;
    var p0, a := Fresh(outer, closer), FifoRun();
    OuterAlone(p0, T.Call(0));
    var p1 := Step(p0, a[0]);
    OuterAlone(p1, T.Lock(0));
    var p2 := Step(p1, a[1]);
    OuterAlone(p2, T.Init(0, true));
    var p3 := Step(p2, a[2]);
    OuterAlone(p3, T.CallNext(0));
    var p4 := Step(p3, a[3]);
    OuterAlone(p4, T.Call(1));
    assert Run(p0, a[..0]) == p0;
    assert a[..1][..0] == a[..0] && Run(p0, a[..1]) == p1;
    assert a[..2][..1] == a[..1] && Run(p0, a[..2]) == p2;
    assert a[..3][..2] == a[..2] && Run(p0, a[..3]) == p3;
    assert a[..4] == a[..|a| - 1] && a[..4][..3] == a[..3] && Run(p0, a[..4]) == p4;
  }

  /** A deadlock that the uninterposed program does not have: the first open returns only after the second one has been
    made, and that waits for the mutex until the first one has returned. */
  lemma FifoDeadlock(outer: Options, closer: Options, later: seq<Action>)
    requires NoAnswer(later, 0)
    ensures var p := Run(Fresh(outer, closer), FifoRun());
            && HeldUp(p, 0, 1) && Behind(p, 1) == Some(0)
            && !CanMove(p, 0, NoRealCalls)
            && HeldUp(Run(p, later), 0, 1)
  {
    hide Inv, Step, Run, CanMove, FifoRun, FifoOuter;
    var p := Run(Fresh(outer, closer), FifoRun());
    FifoReached(outer, closer);
    FifoOuterHolds(outer);
    RunKeeps(outer, closer, FifoRun());
    StuckIsStuck(p, 0, NoRealCalls);
    HeldUpUntilTheAnswer(p, 0, 1, later);
  }

  // ----- The crash at exit -----

  /** Exactly when the close of the outer destructor jumps through a NULL pointer, over all runs: if libvoyeur-close was
    destroyed first and had never been initialized. */
  lemma NestedCrashCondition(outer: Options, closer: Options, actions: seq<Action>, t: nat)
    requires var p := Run(Fresh(outer, closer), actions);
             p.outer.alive && AtClose(p, t) && T.At(p.closer, t).Outside?
    ensures var p := Run(Fresh(outer, closer), actions);
            var inner := CloserRun(Fresh(outer, closer), actions);
            Crashed(Step(p, Nest(t)), t) <==>
              T.EverFinalized(T.Fresh(true, closer), inner) && !T.EverInitialized(T.Fresh(true, closer), inner)
  {
    hide T.Inv, T.Step, T.Run, T.EverFinalized, T.EverInitialized, InOne, Run;
    var p0 := Fresh(outer, closer);
    RunKeeps(outer, closer, actions);
    EachIsARun(p0, actions);
    T.CrashCondition(true, closer, CloserRun(p0, actions), t);
  }

  ghost predicate Reaches(p: Process, p': Process) {
    exists actions :: Run(p, actions) == p'
  }

  lemma OneStep(p: Process, p': Process, a: Action)
    requires Reaches(p, p')
    ensures Reaches(p, Step(p', a))
  {
    var actions :| Run(p, actions) == p';
    var more := actions + [a];
    assert more[..|more| - 1] == actions;
    hide Step;
    assert Run(p, more) == Step(p', a);
  }

  /** The destructor of an uninitialized libvoyeur-close, undisturbed, while the thread is nowhere else. */
  lemma BareDestructor(p: Process, t: nat)
    requires p.closer.alive && p.closer.holder == None && !p.closer.initialized && !p.closer.resolved
    requires T.At(p.outer, t).Outside? && T.At(p.closer, t).Outside?
    ensures var p' := Step(Step(Step(Step(p, Closer(T.Destroy(t))), Closer(T.Lock(t))), Closer(T.Finalize(t))),
                           Closer(T.Unlock(t)));
            && p'.outer == p.outer && p'.entered == p.entered && p'.closer.alive && p'.closer.holder == None
            && p'.closer.finalized && !p'.closer.resolved && T.At(p'.closer, t).Outside?
            && p'.closer.guarded == p.closer.guarded
  {
  }

  /** The outer destructor, undisturbed, up to and including its close. */
  lemma OuterDestructor(p: Process, t: nat)
    requires T.Inv(p.outer) && p.outer.alive && p.outer.holder == None && T.At(p.outer, t).Outside?
    requires p.outer.current.Some?
    requires p.closer.alive && p.closer.guarded && p.closer.finalized && !p.closer.resolved
    requires T.At(p.closer, t).Outside?
    ensures var p1 := Step(Step(Step(p, Outer(T.Destroy(t))), Outer(T.Lock(t))), Outer(T.Finalize(t)));
            Crashed(Step(Step(p1, Outer(T.Send(t, 3))), Nest(t)), t)
  {
    T.DestructorSendsDone(p.outer, t);
    hide T.Inv;
    var l1 := T.DestructorUpToDone(p.outer, t);
    var p1 := Step(Step(Step(p, Outer(T.Destroy(t))), Outer(T.Lock(t))), Outer(T.Finalize(t)));
    assert p1.outer == l1 && p1.closer == p.closer;
    SendsDone(l1, t);
  }

  lemma SendsDone(l: T.Lib, t: nat)
    requires l.alive && T.At(l, t) == T.Closing(Done())
    requires l.current.Some? && l.current.value < |l.socks|
    ensures T.At(T.Step(l, T.Send(t, 3)), t) == T.Closing([])
  {
    assert |Done()| == 4;
    assert Done()[4..] == [];
  }

  /** So a process that has used the outer library, but never closed anything, crashes at exit if libvoyeur-close happens
    to be destroyed first: from every reachable state of this kind such a run goes on. */
  lemma CrashAtExit(p: Process, t: nat)
    requires Inv(p) && p.outer.alive
    requires T.At(p.outer, t).Outside? && T.At(p.closer, t).Outside?
    requires p.outer.holder == None && p.closer.holder == None
    requires p.outer.current.Some?
    requires !p.closer.initialized && !p.closer.resolved
    ensures exists p' :: Reaches(p, p') && Crashed(p', t)
  {
    hide Step, Inv, T.Inv, Crashed, T.Step;
    InvParts(p);
    assert Run(p, []) == p;
    assert Reaches(p, p);
    OneStep(p, p, Closer(T.Destroy(t)));
    var p1 := Step(p, Closer(T.Destroy(t)));
    OneStep(p, p1, Closer(T.Lock(t)));
    var p2 := Step(p1, Closer(T.Lock(t)));
    OneStep(p, p2, Closer(T.Finalize(t)));
    var p3 := Step(p2, Closer(T.Finalize(t)));
    OneStep(p, p3, Closer(T.Unlock(t)));
    var p4 := Step(p3, Closer(T.Unlock(t)));
    BareDestructor(p, t);
    OneStep(p, p4, Outer(T.Destroy(t)));
    var p5 := Step(p4, Outer(T.Destroy(t)));
    OneStep(p, p5, Outer(T.Lock(t)));
    var p6 := Step(p5, Outer(T.Lock(t)));
    OneStep(p, p6, Outer(T.Finalize(t)));
    var p7 := Step(p6, Outer(T.Finalize(t)));
    OneStep(p, p7, Outer(T.Send(t, 3)));
    var p8 := Step(p7, Outer(T.Send(t, 3)));
    OneStep(p, p8, Nest(t));
    OuterDestructor(p4, t);
  }

  lemma InvParts(p: Process)
    requires Inv(p)
    ensures T.Inv(p.outer) && p.closer.guarded && p.closer.alive == p.outer.alive
  {
  }
}
