/** src/env.c: adding libvoyeur's variables to the environment passed to a new program.

  An environment is the sequence of its entries, in order and without the terminating NULL pointer. */
module Env {
  import opened Wrappers
  import opened Bytes
  import opened CStrings

  const PRELOAD: cstring := "LD_PRELOAD"
  const LIBS: cstring := "LIBVOYEUR_LIBS"
  const OPTS: cstring := "LIBVOYEUR_OPTS"
  const SOCKET: cstring := "LIBVOYEUR_SOCKET"

  const BUF_SIZE: nat := 2048

  type Environment = seq<cstring>

  predicate Defines(entry: cstring, key: cstring) {
    key + "=" <= entry
  }

  function ValueIn(entry: cstring, key: cstring): cstring
    requires Defines(entry, key)
  {
    entry[|key| + 1..]
  }

  function Entry(key: cstring, value: cstring): (e: cstring)
    ensures Defines(e, key) && ValueIn(e, key) == value
  {
    key + "=" + value
  }

  /** getenv: the value of the first entry that defines the key. */
  function GetEnv(env: Environment, key: cstring): Option<cstring> {
    if env == [] then None
    else if Defines(env[0], key) then Some(ValueIn(env[0], key))
    else GetEnv(env[1..], key)
  }

  /** Index of the last preload entry: the scan of the source keeps overwriting its candidate. */
  function LastPreload(env: Environment): (i: Option<nat>)
    ensures i.Some? ==> i.value < |env| && Defines(env[i.value], PRELOAD)
    ensures i.Some? ==> forall j :: i.value < j < |env| ==> !Defines(env[j], PRELOAD)
    ensures i.None? ==> forall j :: 0 <= j < |env| ==> !Defines(env[j], PRELOAD)
  {
    if env == [] then None
    else if Defines(env[|env| - 1], PRELOAD) then Some(|env| - 1)
    else LastPreload(env[..|env| - 1])
  }

  predicate OccursAt(hay: cstring, needle: cstring, i: nat) {
    i + |needle| <= |hay| && hay[i..i + |needle|] == needle
  }

  /** strnstr: `needle` occurs within the first `limit` characters of `hay`. */
  predicate Occurs(hay: cstring, needle: cstring, limit: nat) {
    exists i :: 0 <= i <= |hay| && OccursAt(Clip(hay, limit), needle, i)
  }

  function Length(existing: Option<cstring>): nat {
    if existing.Some? then |existing.value| else 0
  }

  predicate AlreadyThere(libs: cstring, existing: Option<cstring>) {
    existing.Some? && Occurs(existing.value, libs, 2 * BUF_SIZE)
  }

  predicate MustAdd(libs: cstring, existing: Option<cstring>) {
    !AlreadyThere(libs, existing) && |libs| + Length(existing) <= BUF_SIZE
  }

  function WithLibs(libs: cstring, existing: Option<cstring>): cstring {
    if existing.Some? then libs + ":" + existing.value else libs
  }

  /** The value the preload variable ought to have: the libraries in front of what is there, but only once. */
  function Ideal(libs: cstring, existing: Option<cstring>): cstring {
    if AlreadyThere(libs, existing) then existing.value else WithLibs(libs, existing)
  }

  /** An entry as it comes out of strlcpy and strlcat in a buffer of BUF_SIZE characters. */
  function Stored(key: cstring, value: cstring): cstring {
    Clip(Entry(key, value), BUF_SIZE - 1)
  }

  function PreloadEntry(libs: cstring, existing: Option<cstring>): cstring {
    Stored(PRELOAD, if MustAdd(libs, existing) then WithLibs(libs, existing)
                    else if existing.Some? then existing.value else "")
  }

  /** What libvoyeur passes down: the values of its three variables. */
  datatype Vars = Vars(libs: cstring, opts: cstring, socket: cstring)

  function Added(vars: Vars): (l: seq<cstring>)
    ensures |l| == 3
  {
    [Stored(LIBS, vars.libs), Stored(OPTS, vars.opts), Stored(SOCKET, vars.socket)]
  }

  function Existing(env: Environment): Option<cstring> {
    var i := LastPreload(env);
    if i.None? then None else Some(ValueIn(env[i.value], PRELOAD))
  }

  /** The augmented environment. */
  function Augment(env: Environment, vars: Vars): (env': Environment)
    ensures |env| + 3 <= |env'| <= |env| + 4
  {
    var entry := PreloadEntry(vars.libs, Existing(env));
    var i := LastPreload(env);
    if i.Some? then env[i.value := entry] + Added(vars) else env + Added(vars) + [entry]
  }

  // ----- The implementation -----

  method StoreEntry(key: cstring, value: cstring) returns (buf: Buffer)
    ensures fresh(buf) && buf.Valid() && buf.size == BUF_SIZE
    ensures buf.text == Stored(key, value)
  {
    buf := new Buffer(BUF_SIZE);
    buf.Copy(key + "=");
    buf.Cat(value);
    ClipAppend(key + "=", value, BUF_SIZE - 1);
  }

  method AppendExisting(buf: Buffer, key: cstring, libs: cstring, existing: cstring)
    requires buf.Valid() && buf.size == BUF_SIZE && buf.text == Stored(key, libs)
    modifies buf
    ensures buf.text == Stored(key, libs + ":" + existing)
  {
    buf.Cat(":");
    buf.Cat(existing);
    ClipAppendTwo(Entry(key, libs), ":", existing, BUF_SIZE - 1);
    Assoc(key + "=", libs, ":" + existing);
    Assoc(libs, ":", existing);
  }

  method StorePreload(libs: cstring, existing: Option<cstring>) returns (buf: Buffer)
    ensures fresh(buf) && buf.text == PreloadEntry(libs, existing)
  {
    var mustAdd := true;
    if existing.Some? && Occurs(existing.value, libs, 2 * BUF_SIZE) {
      mustAdd := false;
    }
    if mustAdd && |libs| + (if existing.Some? then |existing.value| else 0) > BUF_SIZE {
      mustAdd := false;
    }
    if mustAdd {
      buf := StoreEntry(PRELOAD, libs);
      if existing.Some? {
        AppendExisting(buf, PRELOAD, libs, existing.value);
      }
    } else if existing.Some? {
      buf := StoreEntry(PRELOAD, existing.value);
    } else {
      buf := StoreEntry(PRELOAD, "");
    }
  }

  /** The scan for the last preload entry. */
  method FindPreload(envp: Environment) returns (index: nat, existing: Option<cstring>)
    ensures existing == Existing(envp)
    ensures existing.Some? ==> LastPreload(envp) == Some(index)
  {
    index, existing := 0, None;
    var envlen := 0;
    while envlen < |envp|
      invariant envlen <= |envp|
      invariant existing == Existing(envp[..envlen])
      invariant existing.Some? ==> LastPreload(envp[..envlen]) == Some(index)
    {
      assert envp[..envlen + 1][..envlen] == envp[..envlen];
      if Defines(envp[envlen], PRELOAD) {
        existing := Some(ValueIn(envp[envlen], PRELOAD));
        index := envlen;
      }
      envlen := envlen + 1;
    }
    assert envp[..envlen] == envp;
  }

  function Pointers(env: Environment): (p: seq<Option<cstring>>)
    ensures |p| == |env|
    ensures forall i :: 0 <= i < |env| ==> p[i] == Some(env[i])
  {
    seq(|env|, i requires 0 <= i < |env| => Some(env[i]))
  }

  /** The pointer array: `envp`, then three entries, with the preload entry in its old place or at the end. */
  method Assemble(envp: Environment, replaced: bool, index: nat, added: seq<cstring>, preload: cstring)
    returns (newenvp: array<Option<cstring>>)
    requires |added| == 3 && (replaced ==> index < |envp|)
    ensures fresh(newenvp) && newenvp.Length == |envp| + 5
    ensures replaced ==> newenvp[..|envp| + 4] == Pointers(envp[index := preload] + added) + [None]
    ensures !replaced ==> newenvp[..] == Pointers(envp + added + [preload]) + [None]
  {
    var envlen := |envp|;
    newenvp := new Option<cstring>[envlen + 5];
    forall i | 0 <= i < envlen {
      newenvp[i] := Some(envp[i]);
    }
    newenvp[envlen + 0] := Some(added[0]);
    newenvp[envlen + 1] := Some(added[1]);
    newenvp[envlen + 2] := Some(added[2]);
    if replaced {
      newenvp[index] := Some(preload);
      newenvp[envlen + 3] := None;
    } else {
      newenvp[envlen + 3] := Some(preload);
      newenvp[envlen + 4] := None;
    }
  }

  /** The array holds the entries, directly followed by the terminating NULL. */
  ghost predicate HoldsEnvironment(a: array<Option<cstring>>, env: Environment)
    reads a
  {
    |env| < a.Length && a[..|env| + 1] == Pointers(env) + [None]
  }

  /** Builds the augmented environment in an array of |envp| + 5 pointers. No write falls outside it, and the entries
    are followed directly by the terminating NULL (`None`). */
  method AugmentEnvironment(envp: Environment, vars: Vars) returns (newenvp: array<Option<cstring>>)
    ensures fresh(newenvp) && newenvp.Length == |envp| + 5
    ensures HoldsEnvironment(newenvp, Augment(envp, vars))
  {
    var index, existing := FindPreload(envp);
    var libs := StoreEntry(LIBS, vars.libs);
    var opts := StoreEntry(OPTS, vars.opts);
    var socket := StoreEntry(SOCKET, vars.socket);
    var preload := StorePreload(vars.libs, existing);
    newenvp := Assemble(envp, existing.Some?, index, [libs.text, opts.text, socket.text], preload.text);
    assert [libs.text, opts.text, socket.text] == Added(vars);
    assert existing.None? ==> newenvp[..] == newenvp[..|envp| + 5];
  }

  // ----- Lookups -----

  /** The key of an entry ends at its first equals sign. */
  lemma KeyEnds(entry: cstring, key: cstring)
    requires '=' !in key && Defines(entry, key)
    ensures entry[|key|] == '=' && entry[..|key|] == key
    ensures forall i :: 0 <= i < |key| ==> entry[i] != '='
  {
    assert entry[|key|] == (key + "=")[|key|];
    assert entry[..|key|] == (key + "=")[..|key|] == key;
    forall i | 0 <= i < |key| ensures entry[i] != '=' {
      assert entry[i] == entry[..|key|][i] == key[i];
    }
  }

  /** No two different keys are defined by one entry. */
  lemma OneKey(entry: cstring, k1: cstring, k2: cstring)
    requires '=' !in k1 && '=' !in k2
    requires Defines(entry, k1) && Defines(entry, k2)
    ensures k1 == k2
  {
    KeyEnds(entry, k1);
    KeyEnds(entry, k2);
  }

  lemma Keys()
    ensures '=' !in PRELOAD && '=' !in LIBS && '=' !in OPTS && '=' !in SOCKET
    ensures |PRELOAD| == 10 && |LIBS| == 14 && |OPTS| == 14 && |SOCKET| == 16
    ensures LIBS != OPTS
  {
    assert LIBS[10] != OPTS[10];
  }

  lemma {:induction false} GetEnvAppend(a: Environment, b: Environment, key: cstring)
    ensures GetEnv(a + b, key) == if GetEnv(a, key).Some? then GetEnv(a, key) else GetEnv(b, key)
  {
    if a == [] {
      assert a + b == b;
    } else {
      assert (a + b)[1..] == a[1..] + b;
      GetEnvAppend(a[1..], b, key);
    }
  }

  lemma {:induction false} GetEnvReplace(env: Environment, i: nat, entry: cstring, key: cstring)
    requires i < |env| && !Defines(env[i], key) && !Defines(entry, key)
    ensures GetEnv(env[i := entry], key) == GetEnv(env, key)
  {
    if i > 0 {
      assert env[i := entry][1..] == env[1..][i - 1 := entry];
      GetEnvReplace(env[1..], i - 1, entry, key);
    } else {
      assert env[i := entry][1..] == env[1..];
    }
  }

  /** A lookup finds the entry at `i` when no earlier entry defines the key. */
  lemma {:induction false} GetEnvAt(env: Environment, i: nat, key: cstring)
    requires i < |env| && Defines(env[i], key)
    requires forall j :: 0 <= j < i ==> !Defines(env[j], key)
    ensures GetEnv(env, key) == Some(ValueIn(env[i], key))
  {
    if i > 0 {
      GetEnvAt(env[1..], i - 1, key);
    }
  }

  lemma {:induction false} GetEnvNone(env: Environment, key: cstring)
    ensures GetEnv(env, key).None? <==> forall i :: 0 <= i < |env| ==> !Defines(env[i], key)
  {
    if env != [] {
      GetEnvNone(env[1..], key);
      if exists i :: 0 <= i < |env| && Defines(env[i], key) {
        var i :| 0 <= i < |env| && Defines(env[i], key);
        assert i > 0 ==> env[1..][i - 1] == env[i];
      }
    }
  }

  /** A stored entry defines its own key and no other. */
  lemma StoredDefines(key: cstring, value: cstring, other: cstring)
    requires '=' !in key && '=' !in other && |key| < BUF_SIZE - 1
    ensures Defines(Stored(key, value), other) <==> other == key
  {
    var e := Stored(key, value);
    assert Defines(e, key) by {
      assert (key + "=" + value)[..|key| + 1] == key + "=";
    }
    if Defines(e, other) {
      OneKey(e, key, other);
    }
  }

  predicate Foreign(key: cstring) {
    key != PRELOAD && key != LIBS && key != OPTS && key != SOCKET && '=' !in key
  }

  lemma GetEnvAdded(vars: Vars, key: cstring)
    requires '=' !in key
    ensures Foreign(key) || key == PRELOAD ==> GetEnv(Added(vars), key).None?
    ensures key == LIBS ==> GetEnv(Added(vars), key) == Some(ValueIn(Stored(LIBS, vars.libs), LIBS))
    ensures key == OPTS ==> GetEnv(Added(vars), key) == Some(ValueIn(Stored(OPTS, vars.opts), OPTS))
    ensures key == SOCKET ==> GetEnv(Added(vars), key) == Some(ValueIn(Stored(SOCKET, vars.socket), SOCKET))
  {
    Keys();
    StoredDefines(LIBS, vars.libs, key);
    StoredDefines(OPTS, vars.opts, key);
    StoredDefines(SOCKET, vars.socket, key);
    var l := Added(vars);
    GetEnvNone(l, key);
    if key == LIBS {
      GetEnvAt(l, 0, key);
    } else if key == OPTS {
      GetEnvAt(l, 1, key);
    } else if key == SOCKET {
      GetEnvAt(l, 2, key);
    }
  }
}
