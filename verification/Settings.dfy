/** The two strings that configure the clients: the option characters (src/env.c, src/event.c) and the list of
  libraries to preload (src/event.c). */
module Settings {
  import opened Wrappers
  import opened Bytes
  import opened Wire
  import opened Sessions
  import opened Events
  import opened CStrings

  // ----- Options -----

  const EVENT_MAX: nat := 4

  function CharByte(c: char): bv8 {
    (c as int % 256) as bv8
  }

  /** Keeps five bits and makes them printable. */
  function EncodeOptions(options: bv8): char {
    (0x40 | (options & 0x1F)) as int as char
  }

  /** `s[offset]`, where the terminating NUL is the last character. */
  function CharAt(s: cstring, offset: nat): char
    requires offset <= |s|
  {
    if offset < |s| then s[offset] else '\0'
  }

  /** `None` is a NULL pointer: the variable is not in the environment. */
  function DecodeOptions(opts: Option<cstring>, offset: nat): bv8 {
    if opts.None? || offset > Min(|opts.value|, 8) then 0
    else CharByte(CharAt(opts.value, offset)) & 0x1F
  }

  /** The encoding is printable, so never NUL, and decoding recovers the five bits it keeps. */
  lemma OptionCharacter(options: bv8)
    ensures 64 <= EncodeOptions(options) as int < 96
    ensures CharByte(EncodeOptions(options)) & 0x1F == options & 0x1F
  {
    var b := 0x40 | (options & 0x1F);
    assert 0x40 <= b < 0x60;
    assert b as int % 256 == b as int;
    assert (b as int) as bv8 == b;
  }

  /** The value of LIBVOYEUR_OPTS for given options. */
  function OptionString(o: Options): (s: cstring)
    ensures |s| == EVENT_MAX
  {
    OptionCharacter(o.exec);
    OptionCharacter(o.exit);
    OptionCharacter(o.open);
    OptionCharacter(o.close);
    [EncodeOptions(o.exec), EncodeOptions(o.exit), EncodeOptions(o.open), EncodeOptions(o.close)]
  }

  /** What the interposers of a process decode from its LIBVOYEUR_OPTS. */
  function ClientOptions(opts: Option<cstring>): Options {
    Options(DecodeOptions(opts, 0), DecodeOptions(opts, 1), DecodeOptions(opts, 2), DecodeOptions(opts, 3))
  }

  function LowFive(o: Options): Options {
    Options(o.exec & 0x1F, o.exit & 0x1F, o.open & 0x1F, o.close & 0x1F)
  }

  /** The context's options once the clients' strings have been prepared: exec events nobody asked for are silenced. */
  function Prepared(cfg: Config): Config {
    if cfg.execCb then cfg else cfg.(options := cfg.options.(exec := OBSERVE_EXEC_SILENT))
  }

  /** Fills the option characters and updates the context to match them. All EVENT_MAX characters of the buffer are
    used: contrary to the comment in the source there is no terminating NUL in it. */
  method RequestedOpts(ctx: Context) returns (opts: array<char>)
    modifies ctx`execOpts
    ensures fresh(opts)
    ensures opts[..] == OptionString(ctx.Cfg().options)
    ensures ctx.Cfg() == Prepared(old(ctx.Cfg()))
    ensures opts.Length == EVENT_MAX && '\0' !in opts[..]
    ensures ctx.Cfg() == if old(ctx.execCb) then old(ctx.Cfg())
                         else old(ctx.Cfg()).(options := old(ctx.Cfg()).options.(exec := 16))
    ensures ctx.execOpts == if ctx.execCb then old(ctx.execOpts) else 16
  {
    hide EncodeOptions;
    opts := new char[EVENT_MAX](_ => '\0');
    if !ctx.execCb {
      ctx.execOpts := OBSERVE_EXEC_SILENT;
    }
    opts[0] := EncodeOptions(ctx.execOpts);
    opts[1] := EncodeOptions(ctx.exitOpts);
    opts[2] := EncodeOptions(ctx.openOpts);
    opts[3] := EncodeOptions(ctx.closeOpts);
    assert opts[..] == OptionString(ctx.Cfg().options);
    NoNul(ctx.Cfg().options);
  }

  lemma NoNul(o: Options)
    ensures '\0' !in OptionString(o)
  {
    OptionCharacter(o.exec);
    OptionCharacter(o.exit);
    OptionCharacter(o.open);
    OptionCharacter(o.close);
    hide EncodeOptions;
  }

  /** Option agreement: for every option byte of every kind of event the client decodes the low five bits of what the
    server holds, hence the two ends agree on the format of every message. */
  lemma OptionAgreement(o: Options)
    ensures ClientOptions(Some(OptionString(o))) == LowFive(o)
    ensures Agree(ClientOptions(Some(OptionString(o))), o)
  {
    OptionCharacter(o.exec);
    OptionCharacter(o.exit);
    OptionCharacter(o.open);
    OptionCharacter(o.close);
    LowFiveAgrees(o);
  }

  /** The characters and the bytes decoded from them are in the order of the event numbers, exec, exit, open, close, and
    all of them are printable. A variable that is missing or too short decodes to no options. */
  lemma OptionPositions(o: Options, t: cstring)
    ensures var s := OptionString(o);
            && |s| == 4 && (forall k :: 0 <= k < 4 ==> '@' <= s[k] <= '_')
            && CharByte(s[0]) & 0x1F == o.exec & 0x1F && CharByte(s[1]) & 0x1F == o.exit & 0x1F
            && CharByte(s[2]) & 0x1F == o.open & 0x1F && CharByte(s[3]) & 0x1F == o.close & 0x1F
    ensures |t| >= 4 ==>
              ClientOptions(Some(t)) == Options(CharByte(t[0]) & 0x1F, CharByte(t[1]) & 0x1F,
                                                CharByte(t[2]) & 0x1F, CharByte(t[3]) & 0x1F)
    ensures ClientOptions(None) == Options(0, 0, 0, 0) && ClientOptions(Some("")) == Options(0, 0, 0, 0)
  {
    OptionCharacter(o.exec);
    OptionCharacter(o.exit);
    OptionCharacter(o.open);
    OptionCharacter(o.close);
    hide EncodeOptions;
    assert CharByte('\0') == 0;
  }

  lemma LowFiveAgrees(o: Options)
    ensures Agree(LowFive(o), o)
    ensures Has(LowFive(o).exec, OBSERVE_EXEC_SILENT) == Has(o.exec, OBSERVE_EXEC_SILENT)
  {
    assert o.exec & 0x1F & 1 == o.exec & 1 && o.exec & 0x1F & 2 == o.exec & 2;
    assert o.exec & 0x1F & 4 == o.exec & 4 && o.exec & 0x1F & 16 == o.exec & 16;
    assert o.open & 0x1F & 1 == o.open & 1;
  }

  // ----- Libraries -----

  const LIB_EXEC: cstring := "libvoyeur-exec.so"
  const LIB_EXIT: cstring := "libvoyeur-exit.so"
  const LIB_OPEN: cstring := "libvoyeur-open.so"
  const LIB_CLOSE: cstring := "libvoyeur-close.so"

  /** sizeof(all_libs) counts the four names, four colons and a NUL. */
  const ALL_LIBS_SIZE: nat := 74

  function LibsSize(libdir: cstring): nat {
    ALL_LIBS_SIZE + EVENT_MAX * Min(|libdir|, 4096)
  }

  function AddIf(l: seq<cstring>, on: bool, path: cstring): seq<cstring> {
    if on then l + [path] else l
  }

  /** Paths of the exec library and of those of the other three that are registered. */
  function Paths(exec: cstring, exitCb: bool, exit: cstring, openCb: bool, open: cstring, closeCb: bool, close: cstring)
    : (l: seq<cstring>)
    ensures 1 <= |l| <= EVENT_MAX && l[0] == exec
  {
    AddIf(AddIf(AddIf([exec], exitCb, exit), openCb, open), closeCb, close)
  }

  /** The libraries to preload: one per registered callback, and the exec library in any case. */
  function Libraries(cfg: Config, libdir: cstring): (l: seq<cstring>)
    ensures 1 <= |l| <= EVENT_MAX && l[0] == libdir + LIB_EXEC
  {
    Paths(libdir + LIB_EXEC, cfg.exitCb, libdir + LIB_EXIT, cfg.openCb, libdir + LIB_OPEN, cfg.closeCb, libdir + LIB_CLOSE)
  }

  /** One expansion of the macro in voyeur_requested_libs. */
  method AppendLibrary(libs: Buffer, prev: bool, registered: bool, libdir: cstring, name: cstring, ghost l: seq<cstring>)
    returns (prev': bool)
    requires libs.Valid() && prev == (l != [])
    requires libs.text == Clip(Join(l), libs.size - 1)
    modifies libs
    ensures libs.Valid() && prev' == (AddIf(l, registered, libdir + name) != [])
    ensures libs.text == Clip(Join(AddIf(l, registered, libdir + name)), libs.size - 1)
  {
    prev' := prev || registered;
    if registered {
      if prev {
        libs.Cat(":");
        ClipAppend(Join(l), ":", libs.size - 1);
      }
      assert libs.text == Clip(Joint(l), libs.size - 1);
      libs.Cat(libdir);
      libs.Cat(name);
      ClipAppendTwo(Joint(l), libdir, name, libs.size - 1);
      JoinSnoc(l, libdir + name);
    }
  }

  /** The four expansions of the macro, in the order of the event numbers. */
  method AppendLibraries(ctx: Context, libs: Buffer, libdir: cstring,
                         exec: cstring, exit: cstring, open: cstring, close: cstring)
    requires libs.Valid() && libs.text == "" && ctx.execCb
    modifies libs
    ensures libs.text == Clip(Join(Paths(libdir + exec, ctx.exitCb, libdir + exit, ctx.openCb, libdir + open,
                                         ctx.closeCb, libdir + close)), libs.size - 1)
  {
    var prev := AppendLibrary(libs, false, ctx.execCb, libdir, exec, []);
    ghost var l := AddIf([], true, libdir + exec);
    assert l == [libdir + exec];
    prev := AppendLibrary(libs, prev, ctx.exitCb, libdir, exit, l);
    l := AddIf(l, ctx.exitCb, libdir + exit);
    prev := AppendLibrary(libs, prev, ctx.openCb, libdir, open, l);
    l := AddIf(l, ctx.openCb, libdir + open);
    prev := AppendLibrary(libs, prev, ctx.closeCb, libdir, close, l);
  }

  /** The strlcat chain builds the colon-join of the libraries, cut to the computed buffer size. The exec callback is
    replaced by a dummy on the way and is back to NULL afterwards if it was NULL. */
  method RequestedLibs(ctx: Context, libdir: cstring) returns (libs: cstring)
    modifies ctx`execCb
    ensures ctx.Cfg() == old(ctx.Cfg())
    ensures libs == Clip(Join(Libraries(ctx.Cfg(), libdir)), LibsSize(libdir) - 1)
  {
    var buf := new Buffer(LibsSize(libdir));
    var forced := false;
    if !ctx.execCb {
      forced := true;
      ctx.execCb := true;
    }
    AppendLibraries(ctx, buf, libdir, LIB_EXEC, LIB_EXIT, LIB_OPEN, LIB_CLOSE);
    if forced {
      ctx.execCb := false;
    }
    libs := buf.text;
  }

  /** Total length of the names of the requested libraries, with the colons between them. */
  function NamesLength(cfg: Config): nat {
    17 + (if cfg.exitCb then 18 else 0) + (if cfg.openCb then 18 else 0) + (if cfg.closeCb then 19 else 0)
  }

  lemma OneLonger(l: seq<cstring>, on: bool, path: cstring)
    requires l != []
    ensures |Join(AddIf(l, on, path))| == |Join(l)| + if on then 1 + |path| else 0
  {
    JoinSnoc(l, path);
  }

  lemma PathsLength(exec: cstring, exitCb: bool, exit: cstring, openCb: bool, open: cstring, closeCb: bool, close: cstring)
    ensures |Join(Paths(exec, exitCb, exit, openCb, open, closeCb, close))|
            == |exec| + (if exitCb then 1 + |exit| else 0) + (if openCb then 1 + |open| else 0)
               + (if closeCb then 1 + |close| else 0)
  {
    var l1 := [exec];
    OneLonger(l1, exitCb, exit);
    var l2 := AddIf(l1, exitCb, exit);
    OneLonger(l2, openCb, open);
    OneLonger(AddIf(l2, openCb, open), closeCb, close);
  }

  lemma Multiples(n: nat, d: nat)
    ensures n == 1 ==> n * d == d
    ensures n == 2 ==> n * d == d + d
    ensures n == 3 ==> n * d == d + d + d
    ensures n == 4 ==> n * d == d + d + d + d
  {
  }

  lemma JoinedLength(cfg: Config, libdir: cstring)
    ensures |Join(Libraries(cfg, libdir))| == |Libraries(cfg, libdir)| * |libdir| + NamesLength(cfg)
  {
    PathsLength(libdir + LIB_EXEC, cfg.exitCb, libdir + LIB_EXIT, cfg.openCb, libdir + LIB_OPEN,
                cfg.closeCb, libdir + LIB_CLOSE);
    assert |LIB_EXEC| == 17 && |LIB_EXIT| == 17 && |LIB_OPEN| == 17 && |LIB_CLOSE| == 18;
    hide Join;
    Multiples(|Libraries(cfg, libdir)|, |libdir|);
  }

  /** The library string is complete exactly when it is shorter than the buffer; that is so for every set of callbacks
    whenever the directory has at most 4096 characters, the bound the size computation stops counting at. */
  lemma LibrariesFit(cfg: Config, libdir: cstring)
    ensures var whole := Join(Libraries(cfg, libdir));
            && (Clip(whole, LibsSize(libdir) - 1) == whole <==>
                |Libraries(cfg, libdir)| * |libdir| + NamesLength(cfg) < LibsSize(libdir))
            && (|libdir| <= 4096 ==> Clip(whole, LibsSize(libdir) - 1) == whole)
  {
    JoinedLength(cfg, libdir);
    if |libdir| <= 4096 {
      assert |Libraries(cfg, libdir)| * |libdir| <= EVENT_MAX * |libdir|;
    }
  }

  lemma LibrariesPlain(cfg: Config, libdir: cstring)
    ensures AllPlain(Libraries(cfg, libdir)) <==> Plain(libdir)
  {
    var l := Libraries(cfg, libdir);
    assert Plain(LIB_EXEC) && Plain(LIB_EXIT) && Plain(LIB_OPEN) && Plain(LIB_CLOSE);
    PlainPath(libdir, LIB_EXEC);
    PlainPath(libdir, LIB_EXIT);
    PlainPath(libdir, LIB_OPEN);
    PlainPath(libdir, LIB_CLOSE);
    assert l[0] in l;
  }

  lemma PlainPath(libdir: cstring, name: cstring)
    requires Plain(name)
    ensures Plain(libdir + name) <==> Plain(libdir)
  {
    assert forall i :: 0 <= i < |libdir| ==> (libdir + name)[i] == libdir[i];
  }

  /** Which library is there for which callback, by name and in the order of the event numbers. */
  lemma LibraryOfCallback(cfg: Config, libdir: cstring)
    ensures libdir + "libvoyeur-exec.so" in Libraries(cfg, libdir)
    ensures libdir + "libvoyeur-exit.so" in Libraries(cfg, libdir) <==> cfg.exitCb
    ensures libdir + "libvoyeur-open.so" in Libraries(cfg, libdir) <==> cfg.openCb
    ensures libdir + "libvoyeur-close.so" in Libraries(cfg, libdir) <==> cfg.closeCb
    ensures Libraries(cfg, libdir)
            == [libdir + "libvoyeur-exec.so"] + (if cfg.exitCb then [libdir + "libvoyeur-exit.so"] else [])
               + (if cfg.openCb then [libdir + "libvoyeur-open.so"] else [])
               + (if cfg.closeCb then [libdir + "libvoyeur-close.so"] else [])
  {
    PathsDiffer(libdir, "libvoyeur-exec.so", "libvoyeur-exit.so");
    PathsDiffer(libdir, "libvoyeur-exec.so", "libvoyeur-open.so");
    PathsDiffer(libdir, "libvoyeur-exec.so", "libvoyeur-close.so");
    PathsDiffer(libdir, "libvoyeur-exit.so", "libvoyeur-open.so");
    PathsDiffer(libdir, "libvoyeur-exit.so", "libvoyeur-close.so");
    PathsDiffer(libdir, "libvoyeur-open.so", "libvoyeur-close.so");
  }

  lemma PathsDiffer(libdir: cstring, a: cstring, b: cstring)
    requires |a| > 12 && |b| > 12 && (a[10] != b[10] || a[12] != b[12])
    ensures libdir + a != libdir + b
  {
    assert (libdir + a)[|libdir| + 10] == a[10] && (libdir + b)[|libdir| + 10] == b[10];
    assert (libdir + a)[|libdir| + 12] == a[12] && (libdir + b)[|libdir| + 12] == b[12];
  }

  /** The list of all four libraries, with its NUL, fills the buffer but for one byte. */
  lemma AllLibrariesFill(cfg: Config, libdir: cstring)
    requires cfg.exitCb && cfg.openCb && cfg.closeCb && |libdir| <= 4096
    ensures |Join(Libraries(cfg, libdir))| + 1 == LibsSize(libdir) - 1
  {
    JoinedLength(cfg, libdir);
    assert |Libraries(cfg, libdir)| == 4;
    Multiples(4, |libdir|);
  }

  /** The linker finds exactly the requested libraries in the string if and only if there is no separator in the path of
    their directory. */
  lemma LibrariesRecovered(cfg: Config, libdir: cstring)
    requires |libdir| <= 4096
    ensures Split(Clip(Join(Libraries(cfg, libdir)), LibsSize(libdir) - 1)) == Libraries(cfg, libdir) <==> Plain(libdir)
  {
    LibrariesFit(cfg, libdir);
    LibrariesPlain(cfg, libdir);
    if Plain(libdir) {
      SplitJoin(Libraries(cfg, libdir));
    } else {
      ElementsArePlain(Join(Libraries(cfg, libdir)));
    }
  }
}
