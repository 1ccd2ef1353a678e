/** The wire protocol: what each kind of event looks like as bytes, and how the server takes it apart again.

  The format depends on context: three fields of an exec event and one of an open event are present only when an
  option bit is set. The writer takes the bits from its environment and the reader from the server's context. */
module Wire {
  import opened Wrappers
  import opened Bytes

  /** Result of reading a value from the front of the bytes a connection will deliver.
    `Short` means that the connection ends before the value is complete. */
  datatype Parse<+T> = Short | Got(value: T, rest: bytes) {
    predicate IsFailure() { Short? }
    function PropagateFailure<U>(): Parse<U>
      requires Short?
    {
      Short
    }
    function Extract(): (T, bytes)
      requires Got?
    {
      (value, rest)
    }
    /** What is left on the connection: a failed read has consumed everything there was. */
    function Left(): bytes {
      if Got? then rest else []
    }
  }

  // ----- Option bits -----

  const OBSERVE_EXEC_CWD: bv8 := 1
  const OBSERVE_EXEC_ENV: bv8 := 2
  const OBSERVE_EXEC_PATH: bv8 := 4
  const OBSERVE_EXEC_NOACCESS: bv8 := 8
  const OBSERVE_EXEC_SILENT: bv8 := 16
  const OBSERVE_OPEN_CWD: bv8 := 1

  predicate Has(options: bv8, flag: bv8) {
    options & flag != 0
  }

  /** One option byte per kind of event. */
  datatype Options = Options(exec: bv8, exit: bv8, open: bv8, close: bv8)

  /** The two ends agree on every bit that shapes the format. */
  predicate Agree(client: Options, server: Options) {
    && Has(client.exec, OBSERVE_EXEC_ENV) == Has(server.exec, OBSERVE_EXEC_ENV)
    && Has(client.exec, OBSERVE_EXEC_PATH) == Has(server.exec, OBSERVE_EXEC_PATH)
    && Has(client.exec, OBSERVE_EXEC_CWD) == Has(server.exec, OBSERVE_EXEC_CWD)
    && Has(client.open, OBSERVE_OPEN_CWD) == Has(server.open, OBSERVE_OPEN_CWD)
  }

  // ----- Events and what callbacks see of them -----

  /** A call made by an observed process, with everything the interposer may report about it.
    `None` stands for a NULL pointer (a NULL path, an unset PATH, a failing getcwd). */
  datatype Event =
    | Exec(path: Option<cstr>, argv: cstrs, envp: cstrs, pathVar: Option<cstr>, cwd: Option<cstr>,
           pid: int32, ppid: int32)
    | Exit(status: int32, pid: int32, ppid: int32)
    | Open(path: Option<cstr>, oflag: int32, mode: uint32, retval: int32, cwd: Option<cstr>, pid: int32)
    | Close(fildes: int32, retval: int32, pid: int32)

  /** The arguments of a callback. */
  datatype View =
    | ExecSeen(file: bytes, argv: seq<bytes>, envp: Option<seq<bytes>>, pathVar: Option<bytes>, cwd: Option<bytes>,
               pid: int32, ppid: int32)
    | ExitSeen(status: int32, pid: int32, ppid: int32)
    | OpenSeen(path: bytes, oflag: int32, mode: uint32, cwd: Option<bytes>, retval: int32, pid: int32)
    | CloseSeen(fildes: int32, retval: int32, pid: int32)

  const MAX_STRLEN: nat := 4096

  /** The text transmitted for a string argument: clipped, and empty for NULL. */
  function Text(s: Option<cstr>): (t: cstr)
    ensures |t| <= MAX_STRLEN
    ensures s.Some? && |s.value| <= MAX_STRLEN ==> t == s.value
  {
    if s.None? then [] else Clip(s.value, MAX_STRLEN)
  }

  function Texts(l: seq<cstr>): (t: seq<bytes>)
    ensures |t| == |l|
    ensures forall i :: 0 <= i < |l| ==> t[i] == Clip(l[i], MAX_STRLEN)
  {
    if l == [] then [] else [Text(Some(l[0]))] + Texts(l[1..])
  }

  function When<T>(on: bool, value: T): Option<T> {
    if on then Some(value) else None
  }

  /** O_CREAT, bit 6 of the flags. Dafny's division rounds down, so this is also right for negative flags. */
  predicate Creates(oflag: int32) {
    (oflag / 64) % 2 == 1
  }

  function SentMode(oflag: int32, mode: uint32): uint32 {
    if Creates(oflag) then mode else 0
  }

  /** What a callback must be told about `e` when the options are `o`. */
  function ViewOf(o: Options, e: Event): View {
    match e
    case Exec(path, argv, envp, pathVar, cwd, pid, ppid) =>
      ExecSeen(Text(path), Texts(argv), When(Has(o.exec, OBSERVE_EXEC_ENV), Texts(envp)),
               When(Has(o.exec, OBSERVE_EXEC_PATH), Text(pathVar)),
               When(Has(o.exec, OBSERVE_EXEC_CWD), Text(cwd)), pid, ppid)
    case Exit(status, pid, ppid) => ExitSeen(status, pid, ppid)
    case Open(path, oflag, mode, retval, cwd, pid) =>
      OpenSeen(Text(path), oflag, SentMode(oflag, mode), When(Has(o.open, OBSERVE_OPEN_CWD), Text(cwd)), retval, pid)
    case Close(fildes, retval, pid) => CloseSeen(fildes, retval, pid)
  }

  // ----- Writing -----

  function StrBytes(s: Option<cstr>): bytes {
    SizeBytes(|Text(s)|) + Text(s)
  }

  function ListBytes(l: seq<cstr>): bytes {
    if l == [] then [] else StrBytes(Some(l[0])) + ListBytes(l[1..])
  }

  function CountedBytes(l: cstrs): bytes {
    IntBytes(|l|) + ListBytes(l)
  }

  function BytesIf(on: bool, b: bytes): bytes {
    if on then b else []
  }

  const MSG_EVENT: int32 := 0
  const MSG_DONE: int32 := 1
  const EVENT_EXEC: int32 := 0
  const EVENT_EXIT: int32 := 1
  const EVENT_OPEN: int32 := 2
  const EVENT_CLOSE: int32 := 3

  function EventType(e: Event): int32 {
    match e
    case Exec(_, _, _, _, _, _, _) => EVENT_EXEC
    case Exit(_, _, _) => EVENT_EXIT
    case Open(_, _, _, _, _, _) => EVENT_OPEN
    case Close(_, _, _) => EVENT_CLOSE
  }

  function TwoInts(a: int32, b: int32): bytes {
    IntBytes(a) + IntBytes(b)
  }

  function ThreeInts(a: int32, b: int32, c: int32): bytes {
    IntBytes(a) + TwoInts(b, c)
  }

  /** The optional fields of an exec event. */
  function ExtraBytes(o: Options, envp: cstrs, pathVar: Option<cstr>, cwd: Option<cstr>): bytes {
    BytesIf(Has(o.exec, OBSERVE_EXEC_ENV), CountedBytes(envp))
    + BytesIf(Has(o.exec, OBSERVE_EXEC_PATH), StrBytes(pathVar))
    + BytesIf(Has(o.exec, OBSERVE_EXEC_CWD), StrBytes(cwd))
  }

  function Payload(o: Options, e: Event): bytes {
    match e
    case Exec(path, argv, envp, pathVar, cwd, pid, ppid) =>
      StrBytes(path) + CountedBytes(argv) + ExtraBytes(o, envp, pathVar, cwd) + TwoInts(pid, ppid)
    case Exit(status, pid, ppid) => ThreeInts(status, pid, ppid)
    case Open(path, oflag, mode, retval, cwd, pid) =>
      StrBytes(path)
      + ThreeInts(oflag, ToSigned(SentMode(oflag, mode)), retval)
      + BytesIf(Has(o.open, OBSERVE_OPEN_CWD), StrBytes(cwd))
      + IntBytes(pid)
    case Close(fildes, retval, pid) => ThreeInts(fildes, retval, pid)
  }

  function Header(e: Event): (b: bytes)
    ensures |b| == 8
  {
    IntBytes(MSG_EVENT) + IntBytes(EventType(e))
  }

  function Message(o: Options, e: Event): bytes {
    Header(e) + Payload(o, e)
  }

  function Done(): bytes {
    IntBytes(MSG_DONE)
  }

  // ----- Reading -----

  function TakeInt(b: bytes): Parse<int32> {
    if |b| < 4 then Short else Got(BytesInt(b[..4]), b[4..])
  }

  function TakeSize(b: bytes): Parse<size64> {
    if |b| < 8 then Short else Got(BytesSize(b[..8]), b[8..])
  }

  function TakeString(b: bytes): Parse<bytes> {
    var (len, r) :- TakeSize(b);
    if |r| < len then Short else Got(r[..len], r[len..])
  }

  /** Reads `n` strings; a count that is not positive reads none, like the loops of the handlers. */
  function TakeStrings(n: int, b: bytes): Parse<seq<bytes>>
    decreases n
  {
    if n <= 0 then Got([], b) else
    var (s, r) :- TakeString(b);
    var (tail, r') :- TakeStrings(n - 1, r);
    Got([s] + tail, r')
  }

  function TakeCounted(b: bytes): Parse<seq<bytes>> {
    var (n, r) :- TakeInt(b);
    TakeStrings(n, r)
  }

  function TakeCountedIf(on: bool, b: bytes): Parse<Option<seq<bytes>>> {
    if !on then Got(None, b) else
    var (l, r) :- TakeCounted(b);
    Got(Some(l), r)
  }

  function TakeStringIf(on: bool, b: bytes): Parse<Option<bytes>> {
    if !on then Got(None, b) else
    var (s, r) :- TakeString(b);
    Got(Some(s), r)
  }

  datatype Two = Two(a: int32, b: int32)
  datatype Three = Three(a: int32, b: int32, c: int32)
  datatype Extra = Extra(envp: Option<seq<bytes>>, pathVar: Option<bytes>, cwd: Option<bytes>)

  function TakeTwo(b: bytes): Parse<Two> {
    var (x, r1) :- TakeInt(b);
    var (y, r2) :- TakeInt(r1);
    Got(Two(x, y), r2)
  }

  function TakeThree(b: bytes): Parse<Three> {
    var (x, r1) :- TakeInt(b);
    var (yz, r2) :- TakeTwo(r1);
    Got(Three(x, yz.a, yz.b), r2)
  }

  function TakeExtra(o: Options, b: bytes): Parse<Extra> {
    var (envp, r1) :- TakeCountedIf(Has(o.exec, OBSERVE_EXEC_ENV), b);
    var (path, r2) :- TakeStringIf(Has(o.exec, OBSERVE_EXEC_PATH), r1);
    var (cwd, r3) :- TakeStringIf(Has(o.exec, OBSERVE_EXEC_CWD), r2);
    Got(Extra(envp, path, cwd), r3)
  }

  function TakeExec(o: Options, b: bytes): Parse<View> {
    var (file, r1) :- TakeString(b);
    var (argv, r2) :- TakeCounted(r1);
    var (extra, r3) :- TakeExtra(o, r2);
    var (pids, r4) :- TakeTwo(r3);
    Got(ExecSeen(file, argv, extra.envp, extra.pathVar, extra.cwd, pids.a, pids.b), r4)
  }

  function TakeExit(b: bytes): Parse<View> {
    var (ints, r) :- TakeThree(b);
    Got(ExitSeen(ints.a, ints.b, ints.c), r)
  }

  function TakeOpen(o: Options, b: bytes): Parse<View> {
    var (path, r1) :- TakeString(b);
    var (ints, r2) :- TakeThree(r1);
    var (cwd, r3) :- TakeStringIf(Has(o.open, OBSERVE_OPEN_CWD), r2);
    var (pid, r4) :- TakeInt(r3);
    Got(OpenSeen(path, ints.a, ToUnsigned(ints.b), cwd, ints.c, pid), r4)
  }

  function TakeClose(b: bytes): Parse<View> {
    var (ints, r) :- TakeThree(b);
    Got(CloseSeen(ints.a, ints.b, ints.c), r)
  }

  /** What one round of handling finds at the front of a connection. `Unknown` is a message type that does not exist,
    `Strange` an event type that does not exist: the server drops the connection for the first only. */
  datatype Msg = Seen(view: View) | Finished | Unknown | Strange

  function TakeEvent(o: Options, kind: int32, b: bytes): Parse<Msg> {
    if EVENT_EXEC <= kind <= EVENT_CLOSE then
      var (view, r) :- if kind == EVENT_EXEC then TakeExec(o, b)
                       else if kind == EVENT_EXIT then TakeExit(b)
                       else if kind == EVENT_OPEN then TakeOpen(o, b)
                       else TakeClose(b);
      Got(Seen(view), r)
    else
      Got(Strange, b)
  }

  function TakeMessage(o: Options, b: bytes): Parse<Msg> {
    var (msgtype, r) :- TakeInt(b);
    if msgtype == MSG_DONE then Got(Finished, r)
    else if msgtype != MSG_EVENT then Got(Unknown, r)
    else
      var (kind, r') :- TakeInt(r);
      TakeEvent(o, kind, r')
  }

  // ----- Round trips, field by field -----

  lemma IntTaken(v: int32, rest: bytes)
    ensures TakeInt(IntBytes(v) + rest) == Got(v, rest)
  {
    IntRoundTrip(v);
    var b := IntBytes(v) + rest;
    assert b[..4] == IntBytes(v) && b[4..] == rest;
  }

  lemma StringTaken(s: Option<cstr>, rest: bytes)
    ensures TakeString(StrBytes(s) + rest) == Got(Text(s), rest)
  {
    var n := |Text(s)|;
    SizeRoundTrip(n);
    Assoc(SizeBytes(n), Text(s), rest);
    var b := SizeBytes(n) + (Text(s) + rest);
    assert b[..8] == SizeBytes(n) && b[8..] == Text(s) + rest;
    assert (Text(s) + rest)[..n] == Text(s) && (Text(s) + rest)[n..] == rest;
  }

  lemma {:induction false} StringsTaken(l: seq<cstr>, rest: bytes)
    ensures TakeStrings(|l|, ListBytes(l) + rest) == Got(Texts(l), rest)
  {
    if l == [] {
      assert ListBytes(l) + rest == rest;
    } else {
      Assoc(StrBytes(Some(l[0])), ListBytes(l[1..]), rest);
      StringTaken(Some(l[0]), ListBytes(l[1..]) + rest);
      StringsTaken(l[1..], rest);
    }
  }

  lemma CountedTaken(l: cstrs, rest: bytes)
    ensures TakeCounted(CountedBytes(l) + rest) == Got(Texts(l), rest)
  {
    Assoc(IntBytes(|l|), ListBytes(l), rest);
    IntTaken(|l|, ListBytes(l) + rest);
    StringsTaken(l, rest);
  }

  lemma CountedIfTaken(on: bool, l: cstrs, rest: bytes)
    ensures TakeCountedIf(on, BytesIf(on, CountedBytes(l)) + rest) == Got(When<seq<bytes>>(on, Texts(l)), rest)
  {
    if on {
      CountedTaken(l, rest);
    } else {
      assert [] + rest == rest;
    }
  }

  lemma StringIfTaken(on: bool, s: Option<cstr>, rest: bytes)
    ensures TakeStringIf(on, BytesIf(on, StrBytes(s)) + rest) == Got(When<bytes>(on, Text(s)), rest)
  {
    if on {
      StringTaken(s, rest);
    } else {
      assert [] + rest == rest;
    }
  }

  lemma TwoTaken(a: int32, b: int32, rest: bytes)
    ensures TakeTwo(TwoInts(a, b) + rest) == Got(Two(a, b), rest)
  {
    Assoc(IntBytes(a), IntBytes(b), rest);
    IntTaken(a, IntBytes(b) + rest);
    IntTaken(b, rest);
  }

  lemma ThreeTaken(a: int32, b: int32, c: int32, rest: bytes)
    ensures TakeThree(ThreeInts(a, b, c) + rest) == Got(Three(a, b, c), rest)
  {
    Assoc(IntBytes(a), TwoInts(b, c), rest);
    IntTaken(a, TwoInts(b, c) + rest);
    TwoTaken(b, c, rest);
  }

  lemma ExtraTaken(client: Options, server: Options, envp: cstrs, pathVar: Option<cstr>, cwd: Option<cstr>, rest: bytes)
    requires Agree(client, server)
    ensures TakeExtra(server, ExtraBytes(client, envp, pathVar, cwd) + rest)
            == Got(Extra(When<seq<bytes>>(Has(client.exec, OBSERVE_EXEC_ENV), Texts(envp)),
                         When<bytes>(Has(client.exec, OBSERVE_EXEC_PATH), Text(pathVar)),
                         When<bytes>(Has(client.exec, OBSERVE_EXEC_CWD), Text(cwd))), rest)
  {
    var a := BytesIf(Has(client.exec, OBSERVE_EXEC_ENV), CountedBytes(envp));
    var b := BytesIf(Has(client.exec, OBSERVE_EXEC_PATH), StrBytes(pathVar));
    var c := BytesIf(Has(client.exec, OBSERVE_EXEC_CWD), StrBytes(cwd));
    Assoc(a + b, c, rest);
    Assoc(a, b, c + rest);
    CountedIfTaken(Has(client.exec, OBSERVE_EXEC_ENV), envp, b + (c + rest));
    StringIfTaken(Has(client.exec, OBSERVE_EXEC_PATH), pathVar, c + rest);
    StringIfTaken(Has(client.exec, OBSERVE_EXEC_CWD), cwd, rest);
  }

  // ----- Round trips, event by event -----

  lemma ExecTaken(client: Options, server: Options, e: Event, rest: bytes)
    requires e.Exec? && Agree(client, server)
    ensures TakeExec(server, Payload(client, e) + rest) == Got(ViewOf(client, e), rest)
  {
    var a, b := StrBytes(e.path), CountedBytes(e.argv);
    var c, d := ExtraBytes(client, e.envp, e.pathVar, e.cwd), TwoInts(e.pid, e.ppid);
    Assoc(a + b + c, d, rest);
    Assoc(a + b, c, d + rest);
    Assoc(a, b, c + (d + rest));
    StringTaken(e.path, b + (c + (d + rest)));
    CountedTaken(e.argv, c + (d + rest));
    ExtraTaken(client, server, e.envp, e.pathVar, e.cwd, d + rest);
    TwoTaken(e.pid, e.ppid, rest);
  }

  lemma OpenTaken(client: Options, server: Options, e: Event, rest: bytes)
    requires e.Open? && Agree(client, server)
    ensures TakeOpen(server, Payload(client, e) + rest) == Got(ViewOf(client, e), rest)
  {
    var cwd := Has(server.open, OBSERVE_OPEN_CWD);
    var mode := ToSigned(SentMode(e.oflag, e.mode));
    var a, b := StrBytes(e.path), ThreeInts(e.oflag, mode, e.retval);
    var c, d := BytesIf(cwd, StrBytes(e.cwd)), IntBytes(e.pid);
    Assoc(a + b + c, d, rest);
    Assoc(a + b, c, d + rest);
    Assoc(a, b, c + (d + rest));
    StringTaken(e.path, b + (c + (d + rest)));
    ThreeTaken(e.oflag, mode, e.retval, c + (d + rest));
    StringIfTaken(cwd, e.cwd, d + rest);
    IntTaken(e.pid, rest);
  }

  /** A message is dispatched on the two integers of its header. */
  lemma HeaderTaken(client: Options, server: Options, e: Event, rest: bytes)
    ensures TakeMessage(server, Message(client, e) + rest)
            == TakeEvent(server, EventType(e), Payload(client, e) + rest)
  {
    var r2 := Payload(client, e) + rest;
    var r1 := IntBytes(EventType(e)) + r2;
    assert Message(client, e) + rest == IntBytes(MSG_EVENT) + r1 by {
      Assoc(Header(e), Payload(client, e), rest);
      Assoc(IntBytes(MSG_EVENT), IntBytes(EventType(e)), r2);
    }
    IntTaken(MSG_EVENT, r1);
    IntTaken(EventType(e), r2);
  }

  /** Context-dependent round trip with frame: what follows the event on the connection is left exactly as it was. */
  lemma MessageTaken(client: Options, server: Options, e: Event, rest: bytes)
    requires Agree(client, server)
    ensures TakeMessage(server, Message(client, e) + rest) == Got(Seen(ViewOf(client, e)), rest)
  {
    HeaderTaken(client, server, e, rest);
    match e
    case Exec(_, _, _, _, _, _, _) => ExecTaken(client, server, e, rest);
    case Exit(s, p, q) => ThreeTaken(s, p, q, rest);
    case Open(_, _, _, _, _, _) => OpenTaken(client, server, e, rest);
    case Close(f, r, p) => ThreeTaken(f, r, p, rest);
  }

  lemma DoneTaken(server: Options, rest: bytes)
    ensures TakeMessage(server, Done() + rest) == Got(Finished, rest)
  {
    IntTaken(MSG_DONE, rest);
  }

  /** The optional arguments are there exactly if their bits are set. */
  predicate PresentAsAsked(server: Options, view: View) {
    match view
    case ExecSeen(_, _, envp, pathVar, cwd, _, _) =>
      && envp.Some? == (server.exec & 2 != 0)
      && pathVar.Some? == (server.exec & 4 != 0)
      && cwd.Some? == (server.exec & 1 != 0)
    case OpenSeen(_, _, _, cwd, _, _) => cwd.Some? == (server.open & 1 != 0)
    case _ => true
  }

  lemma ExtraPresence(server: Options, b: bytes)
    ensures var p := TakeExtra(server, b);
            p.Got? ==>
              && p.value.envp.Some? == Has(server.exec, OBSERVE_EXEC_ENV)
              && p.value.pathVar.Some? == Has(server.exec, OBSERVE_EXEC_PATH)
              && p.value.cwd.Some? == Has(server.exec, OBSERVE_EXEC_CWD)
  {
  }

  lemma ExecPresence(server: Options, b: bytes)
    ensures var p := TakeExec(server, b);
            p.Got? ==> p.value.ExecSeen? && PresentAsAsked(server, p.value)
  {
    if TakeString(b).Got? && TakeCounted(TakeString(b).rest).Got? {
      ExtraPresence(server, TakeCounted(TakeString(b).rest).rest);
    }
  }

  lemma OpenPresence(server: Options, b: bytes)
    ensures var p := TakeOpen(server, b);
            p.Got? ==> p.value.OpenSeen? && PresentAsAsked(server, p.value)
  {
  }

  /** Which optional fields a callback receives is decided by the reader's bits alone. */
  lemma ReaderDecidesPresence(server: Options, kind: int32, b: bytes)
    ensures var p := TakeEvent(server, kind, b);
            p.Got? && p.value.Seen? ==> PresentAsAsked(server, p.value.view)
  {
    if kind == EVENT_EXEC {
      ExecPresence(server, b);
    } else if kind == EVENT_OPEN {
      OpenPresence(server, b);
    }
  }

  /** Agreement on the four bits is not only enough but necessary for every event to survive the trip. */
  lemma AgreementIsExact(client: Options, server: Options)
    ensures Agree(client, server) <==>
            forall e: Event, rest: bytes ::
              TakeMessage(server, Message(client, e) + rest) == Got(Seen(ViewOf(client, e)), rest)
  {
    if Agree(client, server) {
      forall e: Event, rest: bytes
        ensures TakeMessage(server, Message(client, e) + rest) == Got(Seen(ViewOf(client, e)), rest)
      {
        MessageTaken(client, server, e, rest);
      }
    } else {
      var e := if Has(client.open, OBSERVE_OPEN_CWD) == Has(server.open, OBSERVE_OPEN_CWD)
               then Exec(None, [], [], None, None, 0, 0) else Open(None, 0, 0, 0, None, 0);
      assert !PresentAsAsked(server, ViewOf(client, e));
      HeaderTaken(client, server, e, []);
      ReaderDecidesPresence(server, EventType(e), Payload(client, e) + []);
      assert TakeMessage(server, Message(client, e) + []) != Got(Seen(ViewOf(client, e)), []);
    }
  }

  // ----- Reading only ever looks at what it consumes -----

  lemma IntStable(b: bytes, more: bytes)
    requires TakeInt(b).Got?
    ensures TakeInt(b + more) == Got(TakeInt(b).value, TakeInt(b).rest + more)
  {
    assert (b + more)[..4] == b[..4] && (b + more)[4..] == b[4..] + more;
  }

  lemma StringStable(b: bytes, more: bytes)
    requires TakeString(b).Got?
    ensures TakeString(b + more) == Got(TakeString(b).value, TakeString(b).rest + more)
  {
    assert (b + more)[..8] == b[..8] && (b + more)[8..] == b[8..] + more;
    var len, r := BytesSize(b[..8]), b[8..];
    assert (r + more)[..len] == r[..len] && (r + more)[len..] == r[len..] + more;
  }

  lemma {:induction false} StringsStable(n: int, b: bytes, more: bytes)
    requires TakeStrings(n, b).Got?
    ensures TakeStrings(n, b + more) == Got(TakeStrings(n, b).value, TakeStrings(n, b).rest + more)
    decreases n
  {
    if n > 0 {
      StringStable(b, more);
      StringsStable(n - 1, TakeString(b).rest, more);
    }
  }

  lemma CountedStable(b: bytes, more: bytes)
    requires TakeCounted(b).Got?
    ensures TakeCounted(b + more) == Got(TakeCounted(b).value, TakeCounted(b).rest + more)
  {
    IntStable(b, more);
    StringsStable(TakeInt(b).value, TakeInt(b).rest, more);
  }

  lemma CountedIfStable(on: bool, b: bytes, more: bytes)
    requires TakeCountedIf(on, b).Got?
    ensures TakeCountedIf(on, b + more) == Got(TakeCountedIf(on, b).value, TakeCountedIf(on, b).rest + more)
  {
    if on {
      CountedStable(b, more);
    }
  }

  lemma StringIfStable(on: bool, b: bytes, more: bytes)
    requires TakeStringIf(on, b).Got?
    ensures TakeStringIf(on, b + more) == Got(TakeStringIf(on, b).value, TakeStringIf(on, b).rest + more)
  {
    if on {
      StringStable(b, more);
    }
  }

  lemma TwoStable(b: bytes, more: bytes)
    requires TakeTwo(b).Got?
    ensures TakeTwo(b + more) == Got(TakeTwo(b).value, TakeTwo(b).rest + more)
  {
    IntStable(b, more);
    IntStable(TakeInt(b).rest, more);
  }

  lemma ThreeStable(b: bytes, more: bytes)
    requires TakeThree(b).Got?
    ensures TakeThree(b + more) == Got(TakeThree(b).value, TakeThree(b).rest + more)
  {
    IntStable(b, more);
    TwoStable(TakeInt(b).rest, more);
  }

  lemma ExtraStable(o: Options, b: bytes, more: bytes)
    requires TakeExtra(o, b).Got?
    ensures TakeExtra(o, b + more) == Got(TakeExtra(o, b).value, TakeExtra(o, b).rest + more)
  {
    CountedIfStable(Has(o.exec, OBSERVE_EXEC_ENV), b, more);
    var r1 := TakeCountedIf(Has(o.exec, OBSERVE_EXEC_ENV), b).rest;
    StringIfStable(Has(o.exec, OBSERVE_EXEC_PATH), r1, more);
    var r2 := TakeStringIf(Has(o.exec, OBSERVE_EXEC_PATH), r1).rest;
    StringIfStable(Has(o.exec, OBSERVE_EXEC_CWD), r2, more);
  }

  lemma ExecStable(o: Options, b: bytes, more: bytes)
    requires TakeExec(o, b).Got?
    ensures TakeExec(o, b + more) == Got(TakeExec(o, b).value, TakeExec(o, b).rest + more)
  {
    StringStable(b, more);
    var r1 := TakeString(b).rest;
    CountedStable(r1, more);
    var r2 := TakeCounted(r1).rest;
    ExtraStable(o, r2, more);
    TwoStable(TakeExtra(o, r2).rest, more);
  }

  lemma OpenStable(o: Options, b: bytes, more: bytes)
    requires TakeOpen(o, b).Got?
    ensures TakeOpen(o, b + more) == Got(TakeOpen(o, b).value, TakeOpen(o, b).rest + more)
  {
    StringStable(b, more);
    var r1 := TakeString(b).rest;
    ThreeStable(r1, more);
    var r2 := TakeThree(r1).rest;
    StringIfStable(Has(o.open, OBSERVE_OPEN_CWD), r2, more);
    IntStable(TakeStringIf(Has(o.open, OBSERVE_OPEN_CWD), r2).rest, more);
  }

  /** A complete message stays the same message whatever arrives after it. */
  lemma MessageStable(o: Options, b: bytes, more: bytes)
    requires TakeMessage(o, b).Got?
    ensures TakeMessage(o, b + more) == Got(TakeMessage(o, b).value, TakeMessage(o, b).rest + more)
  {
    IntStable(b, more);
    var r := TakeInt(b).rest;
    if TakeInt(b).value == MSG_EVENT {
      IntStable(r, more);
      var kind, r' := TakeInt(r).value, TakeInt(r).rest;
      if kind == EVENT_EXEC {
        ExecStable(o, r', more);
      } else if kind == EVENT_OPEN {
        OpenStable(o, r', more);
      } else if kind == EVENT_EXIT || kind == EVENT_CLOSE {
        ThreeStable(r', more);
      }
    }
  }

  // ----- What is taken is complete by itself -----

  lemma IntExact(b: bytes) returns (m: bytes)
    requires TakeInt(b).Got?
    ensures b == m + TakeInt(b).rest && TakeInt(m) == Got(TakeInt(b).value, [])
  {
    m := b[..4];
    assert m[..4] == m;
  }

  lemma StringExact(b: bytes) returns (m: bytes)
    requires TakeString(b).Got?
    ensures b == m + TakeString(b).rest && TakeString(m) == Got(TakeString(b).value, [])
  {
    var len, r := BytesSize(b[..8]), b[8..];
    m := b[..8] + r[..len];
    assert m[..8] == b[..8] && m[8..] == r[..len];
    assert r[..len][..len] == r[..len] && r[..len][len..] == [];
    assert b == b[..8] + r && r == r[..len] + r[len..];
    Assoc(b[..8], r[..len], r[len..]);
  }

  lemma {:induction false} StringsExact(n: int, b: bytes) returns (m: bytes)
    requires TakeStrings(n, b).Got?
    ensures b == m + TakeStrings(n, b).rest && TakeStrings(n, m) == Got(TakeStrings(n, b).value, [])
    decreases n
  {
    if n <= 0 {
      m := [];
    } else {
      var m1 := StringExact(b);
      var r := TakeString(b).rest;
      var m2 := StringsExact(n - 1, r);
      m := m1 + m2;
      StringStable(m1, m2);
      assert [] + m2 == m2;
      Assoc(m1, m2, TakeStrings(n - 1, r).rest);
    }
  }

  lemma CountedExact(b: bytes) returns (m: bytes)
    requires TakeCounted(b).Got?
    ensures b == m + TakeCounted(b).rest && TakeCounted(m) == Got(TakeCounted(b).value, [])
  {
    var m1 := IntExact(b);
    var n := TakeInt(b).value;
    var r := TakeInt(b).rest;
    var m2 := StringsExact(n, r);
    m := m1 + m2;
    IntStable(m1, m2);
    assert [] + m2 == m2;
    Assoc(m1, m2, TakeStrings(n, r).rest);
  }

  lemma CountedIfExact(on: bool, b: bytes) returns (m: bytes)
    requires TakeCountedIf(on, b).Got?
    ensures b == m + TakeCountedIf(on, b).rest && TakeCountedIf(on, m) == Got(TakeCountedIf(on, b).value, [])
  {
    if on {
      m := CountedExact(b);
    } else {
      m := [];
    }
  }

  lemma StringIfExact(on: bool, b: bytes) returns (m: bytes)
    requires TakeStringIf(on, b).Got?
    ensures b == m + TakeStringIf(on, b).rest && TakeStringIf(on, m) == Got(TakeStringIf(on, b).value, [])
  {
    if on {
      m := StringExact(b);
    } else {
      m := [];
    }
  }

  lemma TwoExact(b: bytes) returns (m: bytes)
    requires TakeTwo(b).Got?
    ensures b == m + TakeTwo(b).rest && TakeTwo(m) == Got(TakeTwo(b).value, [])
  {
    var m1 := IntExact(b);
    var r := TakeInt(b).rest;
    var m2 := IntExact(r);
    m := m1 + m2;
    IntStable(m1, m2);
    assert [] + m2 == m2;
    Assoc(m1, m2, TakeInt(r).rest);
  }

  lemma ThreeExact(b: bytes) returns (m: bytes)
    requires TakeThree(b).Got?
    ensures b == m + TakeThree(b).rest && TakeThree(m) == Got(TakeThree(b).value, [])
  {
    var m1 := IntExact(b);
    var r := TakeInt(b).rest;
    var m2 := TwoExact(r);
    m := m1 + m2;
    IntStable(m1, m2);
    assert [] + m2 == m2;
    Assoc(m1, m2, TakeTwo(r).rest);
  }

  lemma ExtraExact(o: Options, b: bytes) returns (m: bytes)
    requires TakeExtra(o, b).Got?
    ensures b == m + TakeExtra(o, b).rest && TakeExtra(o, m) == Got(TakeExtra(o, b).value, [])
  {
    hide TakeCountedIf, TakeStringIf;
    var env, path, cwd := Has(o.exec, OBSERVE_EXEC_ENV), Has(o.exec, OBSERVE_EXEC_PATH), Has(o.exec, OBSERVE_EXEC_CWD);
    var m1 := CountedIfExact(env, b);
    var r1 := TakeCountedIf(env, b).rest;
    var m2 := StringIfExact(path, r1);
    var r2 := TakeStringIf(path, r1).rest;
    var m3 := StringIfExact(cwd, r2);
    m := m1 + (m2 + m3);
    CountedIfStable(env, m1, m2 + m3);
    StringIfStable(path, m2, m3);
    assert [] + (m2 + m3) == m2 + m3 && [] + m3 == m3;
    Assoc(m2, m3, TakeStringIf(cwd, r2).rest);
    Assoc(m1, m2 + m3, TakeStringIf(cwd, r2).rest);
  }

  lemma ExecExact(o: Options, b: bytes) returns (m: bytes)
    requires TakeExec(o, b).Got?
    ensures b == m + TakeExec(o, b).rest && TakeExec(o, m) == Got(TakeExec(o, b).value, [])
  {
    hide TakeString, TakeCounted, TakeExtra, TakeTwo;
    var m1 := StringExact(b);
    var r1 := TakeString(b).rest;
    var m2 := CountedExact(r1);
    var r2 := TakeCounted(r1).rest;
    var m3 := ExtraExact(o, r2);
    var r3 := TakeExtra(o, r2).rest;
    var m4 := TwoExact(r3);
    m := m1 + (m2 + (m3 + m4));
    StringStable(m1, m2 + (m3 + m4));
    CountedStable(m2, m3 + m4);
    ExtraStable(o, m3, m4);
    assert [] + (m2 + (m3 + m4)) == m2 + (m3 + m4) && [] + (m3 + m4) == m3 + m4 && [] + m4 == m4;
    Assoc(m3, m4, TakeTwo(r3).rest);
    Assoc(m2, m3 + m4, TakeTwo(r3).rest);
    Assoc(m1, m2 + (m3 + m4), TakeTwo(r3).rest);
  }

  lemma OpenExact(o: Options, b: bytes) returns (m: bytes)
    requires TakeOpen(o, b).Got?
    ensures b == m + TakeOpen(o, b).rest && TakeOpen(o, m) == Got(TakeOpen(o, b).value, [])
  {
    hide TakeString, TakeThree, TakeStringIf, TakeInt;
    var cwd := Has(o.open, OBSERVE_OPEN_CWD);
    var m1 := StringExact(b);
    var r1 := TakeString(b).rest;
    var m2 := ThreeExact(r1);
    var r2 := TakeThree(r1).rest;
    var m3 := StringIfExact(cwd, r2);
    var r3 := TakeStringIf(cwd, r2).rest;
    var m4 := IntExact(r3);
    m := m1 + (m2 + (m3 + m4));
    StringStable(m1, m2 + (m3 + m4));
    ThreeStable(m2, m3 + m4);
    StringIfStable(cwd, m3, m4);
    assert [] + (m2 + (m3 + m4)) == m2 + (m3 + m4) && [] + (m3 + m4) == m3 + m4 && [] + m4 == m4;
    Assoc(m3, m4, TakeInt(r3).rest);
    Assoc(m2, m3 + m4, TakeInt(r3).rest);
    Assoc(m1, m2 + (m3 + m4), TakeInt(r3).rest);
  }

  lemma EventExact(o: Options, kind: int32, b: bytes) returns (m: bytes)
    requires TakeEvent(o, kind, b).Got?
    ensures b == m + TakeEvent(o, kind, b).rest && TakeEvent(o, kind, m) == Got(TakeEvent(o, kind, b).value, [])
  {
    hide TakeExec, TakeOpen, TakeThree;
    if kind == EVENT_EXEC {
      m := ExecExact(o, b);
    } else if kind == EVENT_OPEN {
      m := OpenExact(o, b);
    } else if kind == EVENT_EXIT || kind == EVENT_CLOSE {
      m := ThreeExact(b);
    } else {
      m := [];
    }
  }

  /** What one round takes from the front of any bytes is a message by itself: it is read from just those bytes. */
  lemma MessageExact(o: Options, b: bytes) returns (m: bytes)
    requires TakeMessage(o, b).Got?
    ensures b == m + TakeMessage(o, b).rest && TakeMessage(o, m) == Got(TakeMessage(o, b).value, [])
  {
    hide TakeInt, TakeEvent;
    var m1 := IntExact(b);
    var r1 := TakeInt(b).rest;
    if TakeInt(b).value != MSG_EVENT {
      m := m1;
    } else {
      var m2 := IntExact(r1);
      var r2 := TakeInt(r1).rest;
      var kind := TakeInt(r1).value;
      var m3 := EventExact(o, kind, r2);
      m := m1 + (m2 + m3);
      IntStable(m1, m2 + m3);
      IntStable(m2, m3);
      assert [] + (m2 + m3) == m2 + m3 && [] + m3 == m3;
      Assoc(m2, m3, TakeEvent(o, kind, r2).rest);
      Assoc(m1, m2 + m3, TakeEvent(o, kind, r2).rest);
    }
  }

  /** And no shorter prefix of it is read as one. */
  lemma ExactIsFirst(o: Options, m: bytes, k: nat)
    requires TakeMessage(o, m).Got? && TakeMessage(o, m).rest == [] && k < |m|
    ensures TakeMessage(o, m[..k]).Short?
  {
    hide TakeMessage;
    if TakeMessage(o, m[..k]).Got? {
      assert m[..k] + m[k..] == m;
      MessageStable(o, m[..k], m[k..]);
    }
  }

  /** Self-delimitation: no proper prefix of a message reads as a message, wherever the cut falls. */
  lemma ProperPrefixIsShort(client: Options, server: Options, e: Event, cut: bytes)
    requires Agree(client, server)
    requires cut < Message(client, e)
    ensures TakeMessage(server, cut).Short?
  {
    var m := Message(client, e);
    if TakeMessage(server, cut).Got? {
      var more := m[|cut|..];
      MessageStable(server, cut, more);
      assert cut + more == m == m + [];
      MessageTaken(client, server, e, []);
    }
  }

  lemma CutDoneIsShort(server: Options, cut: bytes)
    requires cut < Done()
    ensures TakeMessage(server, cut).Short?
  {
  }
}
