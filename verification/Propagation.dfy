/** How libvoyeur's settings travel down a tree of processes: what one augmentation keeps, what a second one adds, and
  what every descendant finds in its environment. */
module Propagation {
  import opened Wrappers
  import opened Bytes
  import opened Wire
  import opened CStrings
  import opened Sessions
  import opened Events
  import opened Settings
  import opened Env

  // ----- One augmentation -----

  /** Where the preload entry of the augmented environment is. */
  function PreloadIndex(env: Environment): nat {
    var i := LastPreload(env);
    if i.Some? then i.value else |env| + 3
  }

  predicate AtMostOnePreload(env: Environment) {
    forall i, j :: 0 <= i < |env| && 0 <= j < |env| && Defines(env[i], PRELOAD) && Defines(env[j], PRELOAD) ==> i == j
  }

  lemma AddedEntries(vars: Vars, key: cstring)
    requires '=' !in key
    ensures forall e :: e in Added(vars) && Defines(e, key) ==> key == LIBS || key == OPTS || key == SOCKET
    ensures forall e :: e in Added(vars) && Defines(e, LIBS) ==> e == Stored(LIBS, vars.libs)
    ensures forall e :: e in Added(vars) && Defines(e, OPTS) ==> e == Stored(OPTS, vars.opts)
    ensures forall e :: e in Added(vars) && Defines(e, SOCKET) ==> e == Stored(SOCKET, vars.socket)
  {
    Keys();
    forall k | k == key || k == LIBS || k == OPTS || k == SOCKET
      ensures Defines(Stored(LIBS, vars.libs), k) <==> k == LIBS
      ensures Defines(Stored(OPTS, vars.opts), k) <==> k == OPTS
      ensures Defines(Stored(SOCKET, vars.socket), k) <==> k == SOCKET
    {
      StoredDefines(LIBS, vars.libs, k);
      StoredDefines(OPTS, vars.opts, k);
      StoredDefines(SOCKET, vars.socket, k);
    }
  }

  lemma LastPreloadAt(env: Environment, i: nat)
    requires i < |env| && Defines(env[i], PRELOAD)
    requires forall j :: i < j < |env| ==> !Defines(env[j], PRELOAD)
    ensures LastPreload(env) == Some(i)
  {
    var l := LastPreload(env);
    assert l.Some?;
  }

  lemma PreloadEntryDefines(libs: cstring, existing: Option<cstring>, key: cstring)
    requires '=' !in key
    ensures Defines(PreloadEntry(libs, existing), key) <==> key == PRELOAD
  {
    Keys();
    StoredDefines(PRELOAD, if MustAdd(libs, existing) then WithLibs(libs, existing)
                           else if existing.Some? then existing.value else "", key);
  }

  lemma AugmentPlaces(env: Environment, vars: Vars)
    ensures var env' := Augment(env, vars);
            var p := PreloadIndex(env);
            && p < |env'| && env'[p] == PreloadEntry(vars.libs, Existing(env))
            && (forall j :: 0 <= j < |env| && j != p ==> env'[j] == env[j])
            && (forall j :: |env| <= j < |env'| && j != p ==> env'[j] in Added(vars))
  {
    var env' := Augment(env, vars);
    forall j | |env| <= j < |env'| && j != PreloadIndex(env)
      ensures env'[j] in Added(vars)
    {
      assert env'[j] == Added(vars)[j - |env|];
    }
  }

  /** What is stored in the preload entry, case by case. `found` means that the libraries occur, as a piece of text, in the
    first 4096 characters of the existing list. A list that is too long to add to is passed on as it was, like one in
    which they are found; without a list they are dropped if they are too long. Nothing is longer than 2047 characters. */
  lemma PreloadCases(libs: cstring, existing: Option<cstring>)
    ensures var found := existing.Some? && exists i :: 0 <= i && i + |libs| <= |existing.value| && i + |libs| <= 4096
                                                       && existing.value[i..][..|libs|] == libs;
            PreloadEntry(libs, existing)
            == Clip("LD_PRELOAD=" + (if existing.None? then (if |libs| <= 2048 then libs else "")
                                     else if found || |libs| + |existing.value| > 2048 then existing.value
                                     else libs + ":" + existing.value), 2047)
  {
    assert PRELOAD + "=" == "LD_PRELOAD=";
    if existing.Some? {
      FoundInText(existing.value, libs);
    }
  }

  lemma FoundAt(v: cstring, libs: cstring, i: nat)
    ensures OccursAt(Clip(v, 4096), libs, i) <==>
              i + |libs| <= |v| && i + |libs| <= 4096 && v[i..][..|libs|] == libs
  {
    if i + |libs| <= |v| && i + |libs| <= 4096 {
      assert Clip(v, 4096)[i..i + |libs|] == v[i..i + |libs|] == v[i..][..|libs|];
    }
  }

  lemma FoundInText(v: cstring, libs: cstring)
    ensures Occurs(v, libs, 4096) <==>
              exists i :: 0 <= i && i + |libs| <= |v| && i + |libs| <= 4096 && v[i..][..|libs|] == libs
  {
    hide OccursAt;
    forall i: nat ensures OccursAt(Clip(v, 4096), libs, i) <==>
                            i + |libs| <= |v| && i + |libs| <= 4096 && v[i..][..|libs|] == libs {
      FoundAt(v, libs, i);
    }
  }

  /** The new environment, entry by entry: three more entries at the end, in this order; the preload entry in place of the
    last one there was, or after the three. */
  lemma AugmentLayout(env: Environment, vars: Vars)
    ensures var env' := Augment(env, vars);
            && |env'| >= |env| + 3
            && env'[|env|] == Clip("LIBVOYEUR_LIBS=" + vars.libs, 2047)
            && env'[|env| + 1] == Clip("LIBVOYEUR_OPTS=" + vars.opts, 2047)
            && env'[|env| + 2] == Clip("LIBVOYEUR_SOCKET=" + vars.socket, 2047)
    ensures (forall e :: e in env ==> !("LD_PRELOAD=" <= e)) ==>
              && |Augment(env, vars)| == |env| + 4 && Augment(env, vars)[..|env|] == env
              && Augment(env, vars)[|env| + 3] == PreloadEntry(vars.libs, None)
    ensures forall i :: 0 <= i < |env| && "LD_PRELOAD=" <= env[i]
                        && (forall j :: i < j < |env| ==> !("LD_PRELOAD=" <= env[j])) ==>
              && |Augment(env, vars)| == |env| + 3
              && Augment(env, vars)[..|env|] == env[i := PreloadEntry(vars.libs, Some(env[i][11..]))]
  {
    ThreeMore(vars);
    Keys();
    hide PreloadEntry, Added;
    assert PRELOAD + "=" == "LD_PRELOAD=";
    assert LastPreload(env).Some? ==> env[LastPreload(env).value] in env;
    assert |"LD_PRELOAD="| == 11;
    forall i | 0 <= i < |env| && "LD_PRELOAD=" <= env[i] && forall j :: i < j < |env| ==> !("LD_PRELOAD=" <= env[j])
      ensures LastPreload(env) == Some(i)
    {
      LastPreloadAt(env, i);
    }
  }

  lemma ThreeMore(vars: Vars)
    ensures Added(vars) == [Clip("LIBVOYEUR_LIBS=" + vars.libs, 2047), Clip("LIBVOYEUR_OPTS=" + vars.opts, 2047),
                            Clip("LIBVOYEUR_SOCKET=" + vars.socket, 2047)]
  {
    assert LIBS + "=" == "LIBVOYEUR_LIBS=" && OPTS + "=" == "LIBVOYEUR_OPTS=" && SOCKET + "=" == "LIBVOYEUR_SOCKET=";
  }

  /** Frame: every original entry keeps its place except the last preload entry, which is replaced where it is; the
    result has exactly one preload entry if there was at most one. */
  lemma AugmentFrame(env: Environment, vars: Vars)
    ensures var env' := Augment(env, vars);
            var p := PreloadIndex(env);
            && p < |env'| && env'[p] == PreloadEntry(vars.libs, Existing(env))
            && LastPreload(env') == Some(p)
            && (forall j :: 0 <= j < |env| && j != p ==> env'[j] == env[j])
            && (AtMostOnePreload(env) ==> AtMostOnePreload(env'))
  {
    Keys();
    AugmentPlaces(env, vars);
    AddedEntries(vars, PRELOAD);
    PreloadEntryDefines(vars.libs, Existing(env), PRELOAD);
    LastPreloadAt(Augment(env, vars), PreloadIndex(env));
  }

  /** A key other than the preload key is looked up as if the three new entries had been appended. */
  lemma AugmentLookup(env: Environment, vars: Vars, key: cstring)
    requires '=' !in key && key != PRELOAD
    ensures GetEnv(Augment(env, vars), key)
            == if GetEnv(env, key).Some? then GetEnv(env, key) else GetEnv(Added(vars), key)
  {
    Keys();
    var entry := PreloadEntry(vars.libs, Existing(env));
    PreloadEntryDefines(vars.libs, Existing(env), key);
    var i := LastPreload(env);
    if i.Some? {
      if Defines(env[i.value], key) {
        OneKey(env[i.value], key, PRELOAD);
      }
      GetEnvReplace(env, i.value, entry, key);
      GetEnvAppend(env[i.value := entry], Added(vars), key);
    } else {
      GetEnvAppend(env + Added(vars), [entry], key);
      GetEnvAppend(env, Added(vars), key);
    }
  }

  /** Variables that are not libvoyeur's business keep their values. */
  lemma ForeignVariablesUnchanged(env: Environment, vars: Vars, key: cstring)
    requires Foreign(key)
    ensures GetEnv(Augment(env, vars), key) == GetEnv(env, key)
  {
    AugmentLookup(env, vars, key);
    GetEnvAdded(vars, key);
  }

  // ----- The preload value -----

  /** The exact bound: prefix, value and NUL together fill at most the buffer. */
  predicate PreloadFits(libs: cstring, existing: Option<cstring>) {
    |PRELOAD| + 1 + |Ideal(libs, existing)| < BUF_SIZE
  }

  /** The preload variable gets its ideal value exactly when that fits. */
  lemma PreloadIntact(libs: cstring, existing: Option<cstring>)
    ensures PreloadEntry(libs, existing) == Entry(PRELOAD, Ideal(libs, existing)) <==> PreloadFits(libs, existing)
  {
    Keys();
    assert |PreloadEntry(libs, existing)| < BUF_SIZE;
    assert |Entry(PRELOAD, Ideal(libs, existing))| == |PRELOAD| + 1 + |Ideal(libs, existing)|;
  }

  /** The size check of the source is not that bound: it forgets the variable's name, the colon and the NUL. Whatever
    passes the check without fitting is cut short, and nothing reports it. */
  lemma CheckedButTruncated(libs: cstring, existing: Option<cstring>)
    requires MustAdd(libs, existing) && !PreloadFits(libs, existing)
    ensures PreloadEntry(libs, existing) < Entry(PRELOAD, Ideal(libs, existing))
  {
    PreloadIntact(libs, existing);
  }

  /** Such a case: 2036 characters of libraries in front of an empty preload list. */
  lemma TruncationHappens()
    ensures exists libs, existing :: MustAdd(libs, existing) && !PreloadFits(libs, existing)
  {
    var libs := seq(2036, _ => 'x');
    assert !Occurs("", libs, 2 * BUF_SIZE);
    Keys();
    assert MustAdd(libs, Some("")) && !PreloadFits(libs, Some(""));
  }

  /** The ideal value mentions the libraries where the next augmentation will look for them. */
  lemma IdealMentionsLibs(libs: cstring, existing: Option<cstring>)
    requires PreloadFits(libs, existing)
    ensures AlreadyThere(libs, Some(Ideal(libs, existing)))
  {
    var v := Ideal(libs, existing);
    if !AlreadyThere(libs, existing) {
      assert v[0..|libs|] == libs;
      assert OccursAt(Clip(v, 2 * BUF_SIZE), libs, 0);
    }
  }

  // ----- Augmenting again -----

  /** Where the libraries are already in place, augmenting only appends the three entries once more. */
  lemma Settled(env: Environment, vars: Vars)
    requires AlreadyThere(vars.libs, Existing(env)) && PreloadFits(vars.libs, Existing(env))
    ensures Augment(env, vars) == env + Added(vars)
  {
    PreloadIntact(vars.libs, Existing(env));
    var i := LastPreload(env).value;
    var e := env[i];
    assert e == PRELOAD + "=" + ValueIn(e, PRELOAD);
    assert env[i := e] == env;
  }

  lemma AugmentSettles(env: Environment, vars: Vars)
    requires PreloadFits(vars.libs, Existing(env))
    ensures var env' := Augment(env, vars);
            && Existing(env') == Some(Ideal(vars.libs, Existing(env)))
            && AlreadyThere(vars.libs, Existing(env')) && PreloadFits(vars.libs, Existing(env'))
  {
    AugmentFrame(env, vars);
    PreloadIntact(vars.libs, Existing(env));
    IdealMentionsLibs(vars.libs, Existing(env));
  }

  /** Idempotence: a second augmentation with the same settings changes the answer to no lookup; in particular the
    library list is not stacked, although three entries are appended each time. */
  lemma AugmentTwice(env: Environment, vars: Vars, key: cstring)
    requires PreloadFits(vars.libs, Existing(env))
    requires '=' !in key
    ensures Augment(Augment(env, vars), vars) == Augment(env, vars) + Added(vars)
    ensures GetEnv(Augment(Augment(env, vars), vars), key) == GetEnv(Augment(env, vars), key)
  {
    var once := Augment(env, vars);
    AugmentSettles(env, vars);
    Settled(once, vars);
    GetEnvAppend(once, Added(vars), key);
    if key == PRELOAD {
      GetEnvAdded(vars, key);
    } else {
      AugmentLookup(env, vars, key);
    }
  }

  // ----- What the linker finds -----

  /** All of these libraries are elements of the list the linker goes through. */
  predicate Listed(paths: seq<cstring>, preload: Option<cstring>) {
    preload.Some? && forall p :: p in paths ==> p in Split(preload.value)
  }

  /** The substring search of the source takes the libraries for present although they are not all elements of the
    list: it does not stop at colons. */
  predicate Mistaken(paths: seq<cstring>, existing: Option<cstring>) {
    AlreadyThere(Join(paths), existing) && !Listed(paths, existing)
  }

  /** The ideal value really loads the libraries unless the search is mistaken. */
  lemma IdealListed(paths: seq<cstring>, existing: Option<cstring>)
    requires paths != [] && AllPlain(paths)
    ensures Listed(paths, Some(Ideal(Join(paths), existing))) <==> !Mistaken(paths, existing)
  {
    if !AlreadyThere(Join(paths), existing) {
      SplitJoin(paths);
      if existing.Some? {
        SplitAppend(Join(paths), existing.value);
      }
    }
  }

  // ----- Process trees -----

  /** The settings an interposer reads with getenv; none if one of the variables is missing. */
  function VarsOf(env: Environment): Option<Vars> {
    var libs, opts, socket := GetEnv(env, LIBS), GetEnv(env, OPTS), GetEnv(env, SOCKET);
    if libs.Some? && opts.Some? && socket.Some? then Some(Vars(libs.value, opts.value, socket.value)) else None
  }

  /** The environment of the program that an interposed process with environment `own` executes with argument `envp`.
    `None` stands for a crash: a missing variable makes the interposer pass a NULL pointer to strlcat. */
  function Execed(own: Environment, envp: Environment): Option<Environment> {
    if VarsOf(own).Some? then Some(Augment(envp, VarsOf(own).value)) else None
  }

  /** The environment after a chain of execs by interposed processes, each with its own argument. */
  function Descendant(root: Environment, envps: seq<Environment>): Option<Environment> {
    if envps == [] then Some(root) else
    var parent := Descendant(root, envps[..|envps| - 1]);
    if parent.None? then None else Execed(parent.value, envps[|envps| - 1])
  }

  /** The same for processes that are interposed only if they load the library `exec`; others pass their argument on as
    it is. */
  function Traced(exec: cstring, root: Environment, envps: seq<Environment>): Option<Environment> {
    if envps == [] then Some(root) else
    var parent := Traced(exec, root, envps[..|envps| - 1]);
    if parent.None? then None
    else if Listed([exec], GetEnv(parent.value, PRELOAD)) then Execed(parent.value, envps[|envps| - 1])
    else Some(envps[|envps| - 1])
  }

  /** One exec more, at the end of any chain: the settings are those of the process that makes it. */
  lemma ChainGrows(exec: cstring, root: Environment, envps: seq<Environment>, own: Environment, envp: Environment)
    requires GetEnv(own, "LIBVOYEUR_LIBS").Some? && GetEnv(own, "LIBVOYEUR_OPTS").Some?
    requires GetEnv(own, "LIBVOYEUR_SOCKET").Some?
    ensures var next := Augment(envp, Vars(GetEnv(own, "LIBVOYEUR_LIBS").value, GetEnv(own, "LIBVOYEUR_OPTS").value,
                                           GetEnv(own, "LIBVOYEUR_SOCKET").value));
            && (Descendant(root, envps) == Some(own) ==> Descendant(root, envps + [envp]) == Some(next))
            && (Traced(exec, root, envps) == Some(own) ==>
                  Traced(exec, root, envps + [envp])
                  == Some(if GetEnv(own, "LD_PRELOAD").Some? && exec in Split(GetEnv(own, "LD_PRELOAD").value) then next
                          else envp))
  {
    assert (envps + [envp])[..|envps|] == envps;
    hide Augment, GetEnv, Split;
  }

  predicate EntryFits(key: cstring, value: cstring) {
    |key| + 1 + |value| < BUF_SIZE
  }

  predicate VarsFit(vars: Vars) {
    EntryFits(LIBS, vars.libs) && EntryFits(OPTS, vars.opts) && EntryFits(SOCKET, vars.socket)
  }

  predicate IsSetting(vars: Vars, key: cstring, value: cstring) {
    || (key == LIBS && value == vars.libs)
    || (key == OPTS && value == vars.opts)
    || (key == SOCKET && value == vars.socket)
  }

  lemma StoredValue(key: cstring, value: cstring)
    requires '=' !in key && |key| < BUF_SIZE - 1
    ensures Defines(Stored(key, value), key)
    ensures ValueIn(Stored(key, value), key) == value <==> EntryFits(key, value)
  {
    StoredDefines(key, value, key);
    assert |Entry(key, value)| == |key| + 1 + |value|;
  }

  /** When exactly a setting reaches the next program: if the argument of the exec already has it right, or does not have
    it at all and the new entry fits its buffer. An entry with another value wins over libvoyeur's. */
  lemma SettingSurvives(env: Environment, vars: Vars, key: cstring, value: cstring)
    requires IsSetting(vars, key, value)
    ensures GetEnv(Augment(env, vars), key) == Some(value) <==>
              GetEnv(env, key) == Some(value) || (GetEnv(env, key).None? && EntryFits(key, value))
  {
    Keys();
    AugmentLookup(env, vars, key);
    GetEnvAdded(vars, key);
    StoredValue(key, value);
  }

  /** Every augmented environment defines all three settings, so whatever arguments the execs of a chain have, none of
    them fails for want of one. */
  lemma {:induction false} ChainNeverCrashes(env: Environment, vars: Vars, envps: seq<Environment>)
    ensures var d := Descendant(Augment(env, vars), envps);
            d.Some? && VarsOf(d.value).Some?
  {
    if envps == [] {
      AllDefined(env, vars);
    } else {
      var front, last := envps[..|envps| - 1], envps[|envps| - 1];
      ChainNeverCrashes(env, vars, front);
      AllDefined(last, VarsOf(Descendant(Augment(env, vars), front).value).value);
    }
  }

  lemma AllDefined(env: Environment, vars: Vars)
    ensures VarsOf(Augment(env, vars)).Some?
  {
    Keys();
    forall key | key == LIBS || key == OPTS || key == SOCKET
      ensures GetEnv(Augment(env, vars), key).Some?
    {
      AugmentLookup(env, vars, key);
      GetEnvAdded(vars, key);
    }
  }

  /** A process that has cleared its environment does crash. */
  lemma ClearedEnvironmentCrashes(envp: Environment)
    ensures Execed([], envp) == None
  {
  }

  /** A lookup that does not contradict the setting; entries that lose the lookup do not matter. */
  predicate Keeps(env: Environment, key: cstring, value: cstring) {
    GetEnv(env, key) == None || GetEnv(env, key) == Some(value)
  }

  predicate AllKeep(envps: seq<Environment>, key: cstring, value: cstring) {
    forall e :: e in envps ==> Keeps(e, key, value)
  }

  lemma SettingPassedOn(own: Environment, envp: Environment, key: cstring, value: cstring)
    requires (key == LIBS || key == OPTS || key == SOCKET) && EntryFits(key, value)
    requires VarsOf(own).Some? && GetEnv(own, key) == Some(value) && Keeps(envp, key, value)
    ensures Execed(own, envp).Some? && GetEnv(Execed(own, envp).value, key) == Some(value)
  {
    hide Augment, EntryFits;
    Keys();
    SettingSurvives(envp, VarsOf(own).value, key, value);
  }

  /** One setting down a chain, whatever becomes of the other two and of the preload variable: it reaches every depth if
    it fits and no argument on the way gives it another value. */
  lemma {:induction false} SettingAtEveryDepth(env: Environment, vars: Vars, envps: seq<Environment>,
                                               key: cstring, value: cstring)
    requires IsSetting(vars, key, value) && EntryFits(key, value)
    requires Keeps(env, key, value) && AllKeep(envps, key, value)
    ensures var d := Descendant(Augment(env, vars), envps);
            d.Some? && GetEnv(d.value, key) == Some(value)
  {
    hide Augment, Execed, EntryFits, VarsOf, GetEnv;
    if envps == [] {
      SettingSurvives(env, vars, key, value);
    } else {
      var front, last := envps[..|envps| - 1], envps[|envps| - 1];
      assert forall e :: e in front ==> e in envps;
      SettingAtEveryDepth(env, vars, front, key, value);
      ChainNeverCrashes(env, vars, front);
      SettingPassedOn(Descendant(Augment(env, vars), front).value, last, key, value);
    }
  }

  /** An environment argument that does not stand in libvoyeur's way. */
  predicate Clean(env: Environment, vars: Vars) {
    && Keeps(env, LIBS, vars.libs) && Keeps(env, OPTS, vars.opts) && Keeps(env, SOCKET, vars.socket)
    && AtMostOnePreload(env)
    && PreloadFits(vars.libs, Existing(env))
  }

  /** What every descendant must find: the three settings, and the libraries as elements of its preload list. */
  predicate Instrumented(env: Environment, vars: Vars, paths: seq<cstring>) {
    VarsOf(env) == Some(vars) && Listed(paths, GetEnv(env, PRELOAD))
  }

  lemma PreloadLookup(env: Environment)
    requires AtMostOnePreload(env) && LastPreload(env).Some?
    ensures GetEnv(env, PRELOAD) == Existing(env)
  {
    GetEnvAt(env, LastPreload(env).value, PRELOAD);
  }

  /** What a clean argument is turned into. */
  lemma AugmentLookups(env: Environment, vars: Vars)
    requires Clean(env, vars) && VarsFit(vars)
    ensures VarsOf(Augment(env, vars)) == Some(vars)
    ensures GetEnv(Augment(env, vars), PRELOAD) == Some(Ideal(vars.libs, Existing(env)))
  {
    SettingSurvives(env, vars, LIBS, vars.libs);
    SettingSurvives(env, vars, OPTS, vars.opts);
    SettingSurvives(env, vars, SOCKET, vars.socket);
    AugmentFrame(env, vars);
    AugmentSettles(env, vars);
    PreloadLookup(Augment(env, vars));
  }

  /** The libraries of these settings. */
  predicate ForLibraries(vars: Vars, paths: seq<cstring>) {
    paths != [] && AllPlain(paths) && vars.libs == Join(paths)
  }

  /** One exec: a clean argument becomes an instrumented environment exactly if the search in its preload list is not
    mistaken. */
  lemma AugmentInstruments(env: Environment, vars: Vars, paths: seq<cstring>)
    requires Clean(env, vars) && VarsFit(vars) && ForLibraries(vars, paths)
    ensures Instrumented(Augment(env, vars), vars, paths) <==> !Mistaken(paths, Existing(env))
  {
    AugmentLookups(env, vars);
    IdealListed(paths, Existing(env));
  }

  /** Any longer file name that starts with the path of the only library, for one, misleads the search. */
  lemma NeighbourMisleads(path: cstring, more: cstring)
    requires Plain(path) && Plain(more) && more != "" && |path| + |more| <= 2 * BUF_SIZE
    ensures Mistaken([path], Some(path + more))
  {
    var v := path + more;
    assert OccursAt(Clip(v, 2 * BUF_SIZE), path, 0);
    assert Join([path]) == path;
    SplitText("", v);
    assert "" + v == v;
    assert path in [path] && |path| < |v|;
  }

  /** Such an environment is otherwise clean: it gets all three settings, and no library is loaded by the next program. */
  lemma NeighbourPreloaded(path: cstring, more: cstring, vars: Vars)
    requires Plain(path) && Plain(more) && more != "" && vars.libs == path && VarsFit(vars)
    requires |PRELOAD| + 1 + |path| + |more| < BUF_SIZE
    ensures var env := [Entry(PRELOAD, path + more)];
            && Clean(env, vars) && VarsOf(Augment(env, vars)) == Some(vars)
            && GetEnv(Augment(env, vars), PRELOAD) == Some(path + more) && !Listed([path], Some(path + more))
  {
    Keys();
    var env := [Entry(PRELOAD, path + more)];
    NeighbourMisleads(path, more);
    assert Join([path]) == path;
    LastPreloadAt(env, 0);
    OnlyPreload(path + more, LIBS);
    OnlyPreload(path + more, OPTS);
    OnlyPreload(path + more, SOCKET);
    AugmentLookups(env, vars);
  }

  lemma OnlyPreload(value: cstring, key: cstring)
    requires '=' !in key && key != PRELOAD
    ensures GetEnv([Entry(PRELOAD, value)], key) == None
  {
    Keys();
    if Defines(Entry(PRELOAD, value), key) {
      OneKey(Entry(PRELOAD, value), PRELOAD, key);
    }
  }

  predicate InstrumentedEnd(exec: cstring, root: Environment, envps: seq<Environment>, vars: Vars, paths: seq<cstring>) {
    var d := Traced(exec, root, envps);
    d.Some? && Instrumented(d.value, vars, paths)
  }

  /** The process at every depth of the chain is instrumented. */
  predicate InstrumentedAll(exec: cstring, root: Environment, envps: seq<Environment>, vars: Vars, paths: seq<cstring>) {
    forall k :: 0 <= k <= |envps| ==> InstrumentedEnd(exec, root, envps[..k], vars, paths)
  }

  lemma InstrumentedSnoc(exec: cstring, root: Environment, envps: seq<Environment>, vars: Vars, paths: seq<cstring>)
    requires envps != []
    ensures InstrumentedAll(exec, root, envps, vars, paths) <==>
              && InstrumentedAll(exec, root, envps[..|envps| - 1], vars, paths)
              && InstrumentedEnd(exec, root, envps, vars, paths)
  {
    hide InstrumentedEnd;
    var front := envps[..|envps| - 1];
    assert envps[..|envps|] == envps;
    assert forall k :: 0 <= k <= |front| ==> front[..k] == envps[..k];
  }

  predicate AllClean(envps: seq<Environment>, vars: Vars) {
    forall e :: e in envps ==> Clean(e, vars)
  }

  predicate NoneMistaken(paths: seq<cstring>, envps: seq<Environment>) {
    forall e :: e in envps ==> !Mistaken(paths, Existing(e))
  }

  /** A process that loads the exec library and finds the settings instruments what it executes, unless the search is
    mistaken. */
  lemma ExecInstruments(own: Environment, envp: Environment, vars: Vars, paths: seq<cstring>, exec: cstring)
    requires VarsFit(vars) && ForLibraries(vars, paths) && exec in paths && Clean(envp, vars)
    requires Instrumented(own, vars, paths)
    ensures Listed([exec], GetEnv(own, PRELOAD)) && Execed(own, envp).Some?
    ensures Instrumented(Execed(own, envp).value, vars, paths) <==> !Mistaken(paths, Existing(envp))
  {
    AugmentInstruments(envp, vars, paths);
  }

  /** Propagation: however many programs are executed one from another, each with whatever clean environment its parent
    chose, and only those that load the exec library being interposed, the programs at all depths find the root's
    settings and load all libraries, if and only if none of the arguments misleads the search. */
  lemma {:induction false} TreePropagation(env: Environment, vars: Vars, paths: seq<cstring>, exec: cstring,
                                           envps: seq<Environment>)
    requires VarsFit(vars) && ForLibraries(vars, paths) && exec in paths
    requires Clean(env, vars) && AllClean(envps, vars)
    ensures InstrumentedAll(exec, Augment(env, vars), envps, vars, paths) <==>
              !Mistaken(paths, Existing(env)) && NoneMistaken(paths, envps)
  {
    hide Augment, Execed, Clean, VarsFit, ForLibraries, Mistaken, Instrumented, Listed;
    var root := Augment(env, vars);
    if envps == [] {
      AugmentInstruments(env, vars, paths);
      assert envps[..0] == [];
    } else {
      var front, last := envps[..|envps| - 1], envps[|envps| - 1];
      assert envps == front + [last];
      assert forall e :: e in front ==> e in envps;
      TreePropagation(env, vars, paths, exec, front);
      InstrumentedSnoc(exec, root, envps, vars, paths);
      if InstrumentedAll(exec, root, front, vars, paths) {
        assert front[..|front|] == front;
        assert InstrumentedEnd(exec, root, front, vars, paths);
        ExecInstruments(Traced(exec, root, front).value, last, vars, paths, exec);
      }
    }
  }

  /** Where every process is instrumented, every process is interposed. */
  lemma {:induction false} TracedIsDescendant(exec: cstring, root: Environment, envps: seq<Environment>,
                                              vars: Vars, paths: seq<cstring>)
    requires exec in paths && InstrumentedAll(exec, root, envps, vars, paths)
    ensures Traced(exec, root, envps) == Descendant(root, envps)
  {
    hide Execed, VarsOf;
    if envps != [] {
      var front := envps[..|envps| - 1];
      InstrumentedSnoc(exec, root, envps, vars, paths);
      TracedIsDescendant(exec, root, front, vars, paths);
      assert front[..|front|] == front;
      assert InstrumentedEnd(exec, root, front, vars, paths);
    }
  }

  /** Passing on one's own environment is always clean, so programs that never touch their environment satisfy the
    conditions of the theorem at every depth. */
  lemma InheritedIsClean(env: Environment, vars: Vars)
    requires Clean(env, vars) && VarsFit(vars)
    ensures Clean(Augment(env, vars), vars)
  {
    AugmentFrame(env, vars);
    AugmentSettles(env, vars);
    AugmentLookups(env, vars);
  }

  lemma InheritedIsNotMistaken(env: Environment, vars: Vars, paths: seq<cstring>)
    requires Clean(env, vars) && ForLibraries(vars, paths)
    ensures Mistaken(paths, Existing(Augment(env, vars))) <==> Mistaken(paths, Existing(env))
  {
    AugmentSettles(env, vars);
    IdealListed(paths, Existing(env));
  }

  // ----- Settings of a whole tree -----

  /** voyeur_prepare: the environment for the first program, and the context updated to match it; or, if the server's
    socket could not be created (`socket` is `None`), NULL and an untouched context. */
  method Prepare(ctx: Context, libdir: cstring, envp: Environment, socket: Option<cstring>)
    returns (newenvp: Option<array<Option<cstring>>>)
    modifies ctx`execOpts, ctx`execCb
    ensures newenvp.Some? <==> socket.Some?
    ensures ctx.Cfg() == if socket.Some? then Prepared(old(ctx.Cfg())) else old(ctx.Cfg())
    ensures newenvp.Some? ==>
              HoldsEnvironment(newenvp.value, Augment(envp, SettingsOf(ctx.Cfg(), libdir, socket.value)))
    ensures ctx.Cfg() == if socket.None? || old(ctx.execCb) then old(ctx.Cfg())
                         else old(ctx.Cfg()).(options := old(ctx.Cfg()).options.(exec := 16))
    ensures ctx.execCb == old(ctx.execCb)
    ensures ctx.execOpts == if socket.None? || ctx.execCb then old(ctx.execOpts) else 16
  {
    if socket.None? {
      return None;
    }
    var libs := RequestedLibs(ctx, libdir);
    var opts := RequestedOpts(ctx);
    var a := AugmentEnvironment(envp, Vars(libs, opts[..], socket.value));
    newenvp := Some(a);
  }

  /** The values of libvoyeur's variables for a prepared context. */
  function SettingsOf(cfg: Config, libdir: cstring, socket: cstring): Vars {
    Vars(Clip(Join(Libraries(cfg, libdir)), LibsSize(libdir) - 1), OptionString(cfg.options), socket)
  }

  lemma SettingsForLibraries(cfg: Config, libdir: cstring, socket: cstring)
    requires Plain(libdir) && VarsFit(SettingsOf(cfg, libdir, socket))
    ensures ForLibraries(SettingsOf(cfg, libdir, socket), Libraries(cfg, libdir))
  {
    Keys();
    LibrariesPlain(cfg, libdir);
    LibrariesFit(cfg, libdir);
  }

  /** Settings and first environment under which a tree can be observed. */
  predicate Startable(cfg: Config, libdir: cstring, socket: cstring, env: Environment) {
    VarsFit(SettingsOf(cfg, libdir, socket)) && Clean(env, SettingsOf(cfg, libdir, socket))
  }

  /** No element of a preload list is a path with a separator in it. */
  lemma OnlyPlainIsListed(paths: seq<cstring>, preload: Option<cstring>)
    requires Listed(paths, preload)
    ensures AllPlain(paths)
  {
    ElementsArePlain(preload.value);
  }

  /** The libraries of a context at every depth, as the linker finds them. */
  lemma LibrariesAtEveryDepth(cfg: Config, libdir: cstring, socket: cstring, env: Environment, envps: seq<Environment>)
    requires Startable(cfg, libdir, socket, env) && AllClean(envps, SettingsOf(cfg, libdir, socket))
    ensures var vars, paths := SettingsOf(cfg, libdir, socket), Libraries(cfg, libdir);
            InstrumentedAll(libdir + LIB_EXEC, Augment(env, vars), envps, vars, paths) <==>
              Plain(libdir) && !Mistaken(paths, Existing(env)) && NoneMistaken(paths, envps)
  {
    hide Clean, Mistaken, Listed, Split, VarsFit;
    var vars, paths := SettingsOf(cfg, libdir, socket), Libraries(cfg, libdir);
    var exec, root := libdir + LIB_EXEC, Augment(env, vars);
    assert paths[0] == exec;
    LibrariesPlain(cfg, libdir);
    if Plain(libdir) {
      SettingsForLibraries(cfg, libdir, socket);
      TreePropagation(env, vars, paths, exec, envps);
    } else if InstrumentedAll(exec, root, envps, vars, paths) {
      assert InstrumentedEnd(exec, root, envps[..0], vars, paths);
      OnlyPlainIsListed(paths, GetEnv(root, PRELOAD));
    }
  }

  /** What every descendant finds under the names of the variables, if no argument on the way contradicts it: the socket,
    and the list of the libraries in the order of the event numbers. */
  lemma SettingsByName(cfg: Config, libdir: cstring, socket: cstring, env: Environment, envps: seq<Environment>)
    requires var vars := SettingsOf(cfg, libdir, socket);
             VarsFit(vars) && Plain(libdir)
    ensures var d := Descendant(Augment(env, SettingsOf(cfg, libdir, socket)), envps);
            && d.Some?
            && (AllKeep([env] + envps, "LIBVOYEUR_SOCKET", socket) ==> GetEnv(d.value, "LIBVOYEUR_SOCKET") == Some(socket))
            && (AllKeep([env] + envps, "LIBVOYEUR_LIBS", Join(Libraries(cfg, libdir))) ==>
                  GetEnv(d.value, "LIBVOYEUR_LIBS").Some?
                  && Split(GetEnv(d.value, "LIBVOYEUR_LIBS").value) == Libraries(cfg, libdir))
  {
    hide Augment, Descendant, Split, Libraries;
    var vars := SettingsOf(cfg, libdir, socket);
    SettingsForLibraries(cfg, libdir, socket);
    SplitJoin(Libraries(cfg, libdir));
    ChainNeverCrashes(env, vars, envps);
    assert env in [env] + envps && forall e :: e in envps ==> e in [env] + envps;
    if AllKeep([env] + envps, SOCKET, socket) {
      SettingAtEveryDepth(env, vars, envps, SOCKET, socket);
    }
    if AllKeep([env] + envps, LIBS, vars.libs) {
      SettingAtEveryDepth(env, vars, envps, LIBS, vars.libs);
    }
  }

  /** The library of a callback, as the linker finds it: where the last exec's argument did not list it before, it is an
    element of the next program's preload list exactly if the callback is registered. */
  lemma LibraryAtDepth(cfg: Config, libdir: cstring, socket: cstring, env: Environment)
    requires Startable(cfg, libdir, socket, env) && Plain(libdir)
    requires !Mistaken(Libraries(cfg, libdir), Existing(env))
    ensures var p := GetEnv(Augment(env, SettingsOf(cfg, libdir, socket)), "LD_PRELOAD");
            && p.Some?
            && libdir + "libvoyeur-exec.so" in Split(p.value)
            && (NotListed(libdir + "libvoyeur-exit.so", env) ==> (libdir + "libvoyeur-exit.so" in Split(p.value) <==> cfg.exitCb))
            && (NotListed(libdir + "libvoyeur-open.so", env) ==> (libdir + "libvoyeur-open.so" in Split(p.value) <==> cfg.openCb))
            && (NotListed(libdir + "libvoyeur-close.so", env) ==>
                  (libdir + "libvoyeur-close.so" in Split(p.value) <==> cfg.closeCb))
  {
    hide Augment, Split, Libraries, Clean, Mistaken;
    var vars, paths := SettingsOf(cfg, libdir, socket), Libraries(cfg, libdir);
    SettingsForLibraries(cfg, libdir, socket);
    AugmentLookups(env, vars);
    LibraryOfCallback(cfg, libdir);
    IdealElements(paths, Existing(env), libdir + "libvoyeur-exec.so");
    IdealElements(paths, Existing(env), libdir + "libvoyeur-exit.so");
    IdealElements(paths, Existing(env), libdir + "libvoyeur-open.so");
    IdealElements(paths, Existing(env), libdir + "libvoyeur-close.so");
  }

  predicate NotListed(path: cstring, env: Environment) {
    Existing(env).Some? ==> path !in Split(Existing(env).value)
  }

  /** The elements of the new list are those of the old one and the libraries. */
  lemma IdealElements(paths: seq<cstring>, existing: Option<cstring>, path: cstring)
    requires paths != [] && AllPlain(paths) && !Mistaken(paths, existing)
    ensures path in Split(Ideal(Join(paths), existing)) <==>
              path in paths || (existing.Some? && path in Split(existing.value))
  {
    if !AlreadyThere(Join(paths), existing) {
      SplitJoin(paths);
      if existing.Some? {
        SplitAppend(Join(paths), existing.value);
      }
    }
  }

  /** The same at every depth of a tree. */
  lemma LibraryAtEveryDepth(cfg: Config, libdir: cstring, socket: cstring, env: Environment, envps: seq<Environment>)
    requires Startable(cfg, libdir, socket, env) && AllClean(envps, SettingsOf(cfg, libdir, socket)) && Plain(libdir)
    requires !Mistaken(Libraries(cfg, libdir), Existing(env)) && NoneMistaken(Libraries(cfg, libdir), envps)
    ensures var d := Traced(libdir + "libvoyeur-exec.so", Augment(env, SettingsOf(cfg, libdir, socket)), envps);
            var last := if envps == [] then env else envps[|envps| - 1];
            && d.Some? && GetEnv(d.value, "LD_PRELOAD").Some?
            && (NotListed(libdir + "libvoyeur-open.so", last) ==>
                  (libdir + "libvoyeur-open.so" in Split(GetEnv(d.value, "LD_PRELOAD").value) <==> cfg.openCb))
            && (NotListed(libdir + "libvoyeur-exit.so", last) ==>
                  (libdir + "libvoyeur-exit.so" in Split(GetEnv(d.value, "LD_PRELOAD").value) <==> cfg.exitCb))
            && (NotListed(libdir + "libvoyeur-close.so", last) ==>
                  (libdir + "libvoyeur-close.so" in Split(GetEnv(d.value, "LD_PRELOAD").value) <==> cfg.closeCb))
  {
    hide Augment, Split, Libraries, Clean, Mistaken, NotListed, Traced, Startable, SettingsOf;
    TracedLast(cfg, libdir, socket, env, envps);
    LibraryAtDepth(cfg, libdir, socket, if envps == [] then env else envps[|envps| - 1]) by {
      StartableAnywhere(cfg, libdir, socket, env, envps);
    }
  }

  lemma StartableAnywhere(cfg: Config, libdir: cstring, socket: cstring, env: Environment, envps: seq<Environment>)
    requires Startable(cfg, libdir, socket, env) && AllClean(envps, SettingsOf(cfg, libdir, socket))
    ensures forall e :: e in envps ==> Startable(cfg, libdir, socket, e)
  {
  }

  /** The last program of a chain has the environment made from the last argument. */
  lemma TracedLast(cfg: Config, libdir: cstring, socket: cstring, env: Environment, envps: seq<Environment>)
    requires Startable(cfg, libdir, socket, env) && AllClean(envps, SettingsOf(cfg, libdir, socket)) && Plain(libdir)
    requires !Mistaken(Libraries(cfg, libdir), Existing(env)) && NoneMistaken(Libraries(cfg, libdir), envps)
    ensures var vars := SettingsOf(cfg, libdir, socket);
            Traced(libdir + "libvoyeur-exec.so", Augment(env, vars), envps)
            == Some(Augment(if envps == [] then env else envps[|envps| - 1], vars))
  {
    if envps != [] {
      hide Augment, Split, Libraries, Clean, Mistaken, Startable, SettingsOf, Traced, InstrumentedEnd, NoneMistaken, AllClean,
        Plain, Listed, InstrumentedAll;
      AllOfTheFront(cfg, libdir, socket, envps);
      LibrariesAtEveryDepth(cfg, libdir, socket, env, envps[..|envps| - 1]);
      LibraryOfCallback(cfg, libdir);
      InterposedToTheLast(libdir + LIB_EXEC, env, SettingsOf(cfg, libdir, socket), Libraries(cfg, libdir), envps);
    }
  }

  lemma InterposedToTheLast(exec: cstring, env: Environment, vars: Vars, paths: seq<cstring>, envps: seq<Environment>)
    requires envps != [] && exec in paths
    requires InstrumentedAll(exec, Augment(env, vars), envps[..|envps| - 1], vars, paths)
    ensures Traced(exec, Augment(env, vars), envps) == Some(Augment(envps[|envps| - 1], vars))
  {
    hide Augment, GetEnv, Split;
    var front := envps[..|envps| - 1];
    assert front[..|front|] == front;
    assert InstrumentedEnd(exec, Augment(env, vars), front, vars, paths);
  }

  lemma AllOfTheFront(cfg: Config, libdir: cstring, socket: cstring, envps: seq<Environment>)
    requires envps != [] && AllClean(envps, SettingsOf(cfg, libdir, socket)) && NoneMistaken(Libraries(cfg, libdir), envps)
    ensures AllClean(envps[..|envps| - 1], SettingsOf(cfg, libdir, socket))
    ensures NoneMistaken(Libraries(cfg, libdir), envps[..|envps| - 1])
  {
    assert forall e :: e in envps[..|envps| - 1] ==> e in envps;
  }

  /** Option agreement at every depth: the options any descendant decodes are the low five bits of the server's, so the
    two ends agree on the format of every message, and are silent about exec events exactly when the server is. Nothing
    but the lookups of LIBVOYEUR_OPTS in the arguments matters. */
  lemma AgreementAtEveryDepth(cfg: Config, libdir: cstring, socket: cstring, env: Environment, envps: seq<Environment>)
    requires Keeps(env, OPTS, OptionString(cfg.options)) && AllKeep(envps, OPTS, OptionString(cfg.options))
    ensures var d := Descendant(Augment(env, SettingsOf(cfg, libdir, socket)), envps);
            && d.Some?
            && ClientOptions(GetEnv(d.value, OPTS)) == LowFive(cfg.options)
            && Agree(ClientOptions(GetEnv(d.value, OPTS)), cfg.options)
            && (Has(ClientOptions(GetEnv(d.value, OPTS)).exec, OBSERVE_EXEC_SILENT)
                <==> Has(cfg.options.exec, OBSERVE_EXEC_SILENT))
  {
    Keys();
    SettingAtEveryDepth(env, SettingsOf(cfg, libdir, socket), envps, OPTS, OptionString(cfg.options));
    OptionAgreement(cfg.options);
    LowFiveAgrees(cfg.options);
  }
}
