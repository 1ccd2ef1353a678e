/** Whole connections: what the server makes of everything a connection delivers until it closes it. */
module Sessions {
  import opened Bytes
  import opened Wire

  /** The part of the server's context that decides how messages are read and who is called. */
  datatype Config = Config(options: Options, execCb: bool, exitCb: bool, openCb: bool, closeCb: bool)

  predicate Wanted(cfg: Config, view: View) {
    match view
    case ExecSeen(_, _, _, _, _, _, _) => cfg.execCb
    case ExitSeen(_, _, _) => cfg.exitCb
    case OpenSeen(_, _, _, _, _, _) => cfg.openCb
    case CloseSeen(_, _, _) => cfg.closeCb
  }

  function Notified(cfg: Config, view: View): (calls: seq<View>)
    ensures |calls| <= 1
  {
    if Wanted(cfg, view) then [view] else []
  }

  /** Outcome of one `handle_message`: whether the connection stays open (return value 0), the callbacks made, and
    what is left to read. */
  datatype Reply = Reply(keep: bool, calls: seq<View>, rest: bytes)

  /** A handler that fails half way still lets `handle_message` return 0: only a connection that ends within the
    8-byte header is reported at once, any other cut is noticed at the next call. */
  function HandleMessage(cfg: Config, b: bytes): (reply: Reply)
    ensures reply.keep ==> |reply.rest| < |b|
  {
    match TakeMessage(cfg.options, b)
    case Short => Reply(|b| >= 8, [], [])
    case Got(Seen(view), rest) => MessageShrinks(cfg.options, b); Reply(true, Notified(cfg, view), rest)
    case Got(Strange, rest) => MessageShrinks(cfg.options, b); Reply(true, [], rest)
    case Got(_, rest) => Reply(false, [], rest)
  }

  /** Every callback made on a connection that delivers `b`, until the server closes it. */
  function Session(cfg: Config, b: bytes): seq<View>
    decreases |b|
  {
    var reply := HandleMessage(cfg, b);
    if reply.keep then reply.calls + Session(cfg, reply.rest) else reply.calls
  }

  // ----- Progress -----

  lemma {:induction false} StringsShrink(n: int, b: bytes)
    ensures TakeStrings(n, b).Got? ==> |TakeStrings(n, b).rest| <= |b|
    decreases n
  {
    if n > 0 && TakeString(b).Got? {
      StringsShrink(n - 1, TakeString(b).rest);
    }
  }

  lemma CountedShrinks(b: bytes)
    ensures TakeCounted(b).Got? ==> |TakeCounted(b).rest| <= |b|
  {
    if TakeInt(b).Got? {
      StringsShrink(TakeInt(b).value, TakeInt(b).rest);
    }
  }

  lemma ExtraShrinks(o: Options, b: bytes)
    ensures TakeExtra(o, b).Got? ==> |TakeExtra(o, b).rest| <= |b|
  {
    CountedShrinks(b);
  }

  lemma ExecShrinks(o: Options, b: bytes)
    ensures TakeExec(o, b).Got? ==> |TakeExec(o, b).rest| <= |b|
  {
    if TakeExec(o, b).Got? {
      var r1 := TakeString(b).rest;
      CountedShrinks(r1);
      ExtraShrinks(o, TakeCounted(r1).rest);
    }
  }

  lemma ThreeShrinks(b: bytes)
    ensures TakeThree(b).Got? ==> |TakeThree(b).rest| <= |b|
  {
  }

  lemma OpenShrinks(o: Options, b: bytes)
    ensures TakeOpen(o, b).Got? ==> |TakeOpen(o, b).rest| <= |b|
  {
    if TakeOpen(o, b).Got? {
      ThreeShrinks(TakeString(b).rest);
    }
  }

  lemma EventShrinks(o: Options, kind: int32, b: bytes)
    ensures TakeEvent(o, kind, b).Got? ==> |TakeEvent(o, kind, b).rest| <= |b|
  {
    ExecShrinks(o, b);
    OpenShrinks(o, b);
    ThreeShrinks(b);
  }

  lemma MessageShrinks(o: Options, b: bytes)
    ensures TakeMessage(o, b).Got? ==> |TakeMessage(o, b).rest| < |b|
  {
    if TakeInt(b).Got? && TakeInt(TakeInt(b).rest).Got? {
      var p := TakeInt(TakeInt(b).rest);
      EventShrinks(o, p.value, p.rest);
    }
  }

  // ----- Streams of well-formed messages -----

  /** The bytes of a list of events written one after the other. */
  function Stream(o: Options, events: seq<Event>): bytes {
    if events == [] then [] else Message(o, events[0]) + Stream(o, events[1..])
  }

  /** Everything a writer puts on one socket: its events, then DONE once it has finished. */
  function Written(o: Options, events: seq<Event>, finished: bool): bytes {
    Stream(o, events) + BytesIf(finished, Done())
  }

  /** The callbacks that a list of events amounts to. */
  function Reports(cfg: Config, o: Options, events: seq<Event>): seq<View> {
    if events == [] then [] else Notified(cfg, ViewOf(o, events[0])) + Reports(cfg, o, events[1..])
  }

  /** Lengths of the messages of a list of events. */
  function Lengths(o: Options, events: seq<Event>): (l: seq<nat>)
    ensures |l| == |events|
  {
    if events == [] then [] else [|Message(o, events[0])|] + Lengths(o, events[1..])
  }

  function Sum(l: seq<nat>): nat {
    if l == [] then 0 else l[0] + Sum(l[1..])
  }

  /** How many pieces of the given lengths fit into `n` in front of each other. */
  function Fitting(l: seq<nat>, n: nat): (k: nat)
    ensures k <= |l|
  {
    if l == [] || n < l[0] then 0 else 1 + Fitting(l[1..], n - l[0])
  }

  /** How many of the events lie wholly inside the first `n` bytes of their stream. */
  function Whole(o: Options, events: seq<Event>, n: nat): (k: nat)
    ensures k <= |events|
  {
    Fitting(Lengths(o, events), n)
  }

  lemma {:induction false} StreamAppend(o: Options, a: seq<Event>, b: seq<Event>)
    ensures Stream(o, a + b) == Stream(o, a) + Stream(o, b)
  {
    if a == [] {
      assert a + b == b;
    } else {
      assert (a + b)[1..] == a[1..] + b;
      StreamAppend(o, a[1..], b);
      Assoc(Message(o, a[0]), Stream(o, a[1..]), Stream(o, b));
    }
  }

  lemma StreamSnoc(o: Options, events: seq<Event>, e: Event)
    ensures Stream(o, events + [e]) == Stream(o, events) + Message(o, e)
  {
    StreamAppend(o, events, [e]);
    StreamOne(o, e);
  }

  lemma StreamOne(o: Options, e: Event)
    ensures Stream(o, [e]) == Message(o, e)
    ensures Written(o, [e], true) == Message(o, e) + Done()
  {
    hide Message;
    assert Message(o, e) + [] == Message(o, e);
  }

  lemma {:induction false} ReportsAppend(cfg: Config, o: Options, a: seq<Event>, b: seq<Event>)
    ensures Reports(cfg, o, a + b) == Reports(cfg, o, a) + Reports(cfg, o, b)
  {
    if a == [] {
      assert a + b == b;
    } else {
      assert (a + b)[1..] == a[1..] + b;
      ReportsAppend(cfg, o, a[1..], b);
    }
  }

  lemma {:induction false} FittingIsExact(l: seq<nat>, n: nat)
    ensures var k := Fitting(l, n);
            Sum(l[..k]) <= n && (k < |l| ==> n < Sum(l[..k + 1]))
  {
    var k := Fitting(l, n);
    if l != [] {
      assert l[..1][1..] == [];
      if k > 0 {
        FittingIsExact(l[1..], n - l[0]);
        assert l[..k][1..] == l[1..][..k - 1];
        if k < |l| {
          assert l[..k + 1][1..] == l[1..][..k];
        }
      }
    }
  }

  lemma {:induction false} SumMonotone(l: seq<nat>, a: nat, b: nat)
    requires a <= b <= |l|
    ensures Sum(l[..a]) <= Sum(l[..b])
  {
    if a > 0 {
      assert l[..a][1..] == l[1..][..a - 1] && l[..b][1..] == l[1..][..b - 1];
      SumMonotone(l[1..], a - 1, b - 1);
    }
  }

  lemma {:induction false} StreamLength(o: Options, events: seq<Event>, k: nat)
    requires k <= |events|
    ensures |Stream(o, events[..k])| == Sum(Lengths(o, events)[..k])
  {
    hide Message;
    if k > 0 {
      StreamLength(o, events[1..], k - 1);
      assert events[..k][1..] == events[1..][..k - 1];
      assert Lengths(o, events)[..k][1..] == Lengths(o, events[1..])[..k - 1];
    }
  }

  /** `Whole` is the number it claims to be: the events whose streams fit into `n` bytes are those up to it. */
  lemma WholeIsExact(o: Options, events: seq<Event>, n: nat, k: nat)
    requires k <= |events|
    ensures |Stream(o, events[..k])| <= n <==> k <= Whole(o, events, n)
  {
    var l := Lengths(o, events);
    FittingIsExact(l, n);
    StreamLength(o, events, k);
    if k <= Fitting(l, n) {
      SumMonotone(l, k, Fitting(l, n));
    } else {
      SumMonotone(l, Fitting(l, n) + 1, k);
    }
  }

  lemma WrittenFirst(o: Options, events: seq<Event>, finished: bool)
    requires events != []
    ensures Written(o, events, finished) == Message(o, events[0]) + Written(o, events[1..], finished)
  {
    Assoc(Message(o, events[0]), Stream(o, events[1..]), BytesIf(finished, Done()));
  }

  lemma ReportsFirst(cfg: Config, o: Options, events: seq<Event>, k: nat)
    requires k < |events|
    ensures Reports(cfg, o, events[..k + 1])
            == Notified(cfg, ViewOf(o, events[0])) + Reports(cfg, o, events[1..][..k])
  {
    assert events[..k + 1][1..] == events[1..][..k];
  }

  /** A cut event makes no callback whatever its kind and wherever the cut is, and the connection is then reported
    for closing: at once when the cut is in the header, at the next call otherwise. */
  lemma CutEventIsSilent(cfg: Config, client: Options, e: Event, cut: bytes)
    requires Agree(client, cfg.options)
    requires cut < Message(client, e)
    ensures var reply := HandleMessage(cfg, cut);
            && reply == Reply(|cut| >= 8, [], [])
            && !HandleMessage(cfg, reply.rest).keep
            && HandleMessage(cfg, reply.rest).calls == []
    ensures Session(cfg, cut) == []
  {
    ProperPrefixIsShort(client, cfg.options, e, cut);
    assert Session(cfg, []) == [];
  }

  lemma EventThenRest(cfg: Config, client: Options, e: Event, rest: bytes)
    requires Agree(client, cfg.options)
    ensures HandleMessage(cfg, Message(client, e) + rest) == Reply(true, Notified(cfg, ViewOf(client, e)), rest)
    ensures Session(cfg, Message(client, e) + rest) == Notified(cfg, ViewOf(client, e)) + Session(cfg, rest)
  {
    MessageTaken(client, cfg.options, e, rest);
  }

  lemma OnlyDone(cfg: Config, delivered: bytes)
    requires delivered <= Done()
    ensures Session(cfg, delivered) == [] && !HandleMessage(cfg, delivered).keep
  {
    if delivered == Done() {
      DoneTaken(cfg.options, []);
      assert Done() + [] == Done();
    } else {
      CutDoneIsShort(cfg.options, delivered);
    }
  }

  /** A prefix of `first + rest` is a proper prefix of `first`, or `first` and a prefix of `rest`. */
  lemma SplitPrefix<T>(p: seq<T>, first: seq<T>, rest: seq<T>)
    requires p <= first + rest
    ensures |p| < |first| ==> p < first
    ensures |p| >= |first| ==> p == first + p[|first|..] && p[|first|..] <= rest
  {
    assert p == (first + rest)[..|p|];
  }

  lemma NoReports(cfg: Config, o: Options, events: seq<Event>)
    ensures Reports(cfg, o, events[..0]) == []
  {
  }

  lemma NoEvents(cfg: Config, client: Options, finished: bool, delivered: bytes)
    requires delivered <= Written(client, [], finished)
    ensures Session(cfg, delivered) == Reports(cfg, client, [][..Whole(client, [], |delivered|)])
  {
    assert [] + BytesIf(finished, Done()) == BytesIf(finished, Done());
    OnlyDone(cfg, delivered);
  }

  lemma WholeFirst(o: Options, events: seq<Event>, n: nat)
    requires events != []
    ensures var m := |Message(o, events[0])|;
            Whole(o, events, n) == if n < m then 0 else 1 + Whole(o, events[1..], n - m)
  {
    hide Message;
  }

  /** Prefix safety. Let the bytes of a well-formed connection be cut anywhere, even inside an argument list: the
    server makes exactly the callbacks of the events that lie wholly before the cut, in order, then closes. */
  lemma {:induction false} PrefixSafety(
      cfg: Config, client: Options, events: seq<Event>, finished: bool, delivered: bytes)
    requires Agree(client, cfg.options)
    requires delivered <= Written(client, events, finished)
    ensures Session(cfg, delivered)
            == Reports(cfg, client, events[..Whole(client, events, |delivered|)])
    decreases |events|
  {
    hide Message, Whole, Session, HandleMessage, Written, Reports;
    if events == [] {
      NoEvents(cfg, client, finished, delivered);
    } else {
      var m := Message(client, events[0]);
      WholeFirst(client, events, |delivered|);
      WrittenFirst(client, events, finished);
      SplitPrefix(delivered, m, Written(client, events[1..], finished));
      if |delivered| < |m| {
        CutEventIsSilent(cfg, client, events[0], delivered);
        NoReports(cfg, client, events);
      } else {
        var rest := delivered[|m|..];
        EventThenRest(cfg, client, events[0], rest);
        PrefixSafety(cfg, client, events[1..], finished, rest);
        ReportsFirst(cfg, client, events, Whole(client, events[1..], |rest|));
      }
    }
  }

  /** Exactly once: a connection that delivers everything up to DONE reports every event, in order. */
  lemma {:induction false} ExactlyOnce(cfg: Config, client: Options, events: seq<Event>, after: bytes)
    requires Agree(client, cfg.options)
    ensures Session(cfg, Written(client, events, true) + after) == Reports(cfg, client, events)
    decreases |events|
  {
    if events == [] {
      assert [] + Done() + after == Done() + after;
      DoneTaken(cfg.options, after);
    } else {
      var m := Message(client, events[0]);
      var tail := Written(client, events[1..], true);
      WrittenFirst(client, events, true);
      Assoc(m, tail, after);
      EventThenRest(cfg, client, events[0], tail + after);
      ExactlyOnce(cfg, client, events[1..], after);
    }
  }
}
