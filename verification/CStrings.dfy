/** C strings in fixed-size buffers, as built by strlcpy and strlcat. */
module CStrings {
  import opened Wrappers
  import opened Bytes

  /** The characters of a C string in front of its terminating NUL. */
  type cstring = string

  /** The same C string, as the protocol sees it (bytes) and as the environment does (characters). */
  predicate SameText(b: cstr, s: cstring) {
    |b| == |s| && forall k :: 0 <= k < |b| ==> b[k] as int == s[k] as int
  }

  predicate SameTexts(l: cstrs, texts: seq<cstring>) {
    |l| == |texts| && forall i :: 0 <= i < |l| ==> SameText(l[i], texts[i])
  }

  /** The same, for pointers that may be NULL. */
  predicate SamePointer(b: Option<cstr>, s: Option<cstring>) {
    b.Some? == s.Some? && (b.Some? ==> SameText(b.value, s.value))
  }

  /** A char buffer of `size` bytes holding the NUL-terminated string `text`. */
  class Buffer {
    const size: nat
    var text: cstring

    ghost predicate Valid()
      reads this
    {
      |text| < size
    }

    /** calloc(1, size): all zero, so the empty string. */
    constructor (size: nat)
      requires size > 0
      ensures this.size == size && text == "" && Valid()
    {
      this.size, text := size, "";
    }

    /** strlcpy: keeps what fits in front of the NUL. */
    method Copy(src: cstring)
      requires Valid()
      modifies this
      ensures Valid() && text == Clip(src, size - 1)
    {
      text := Clip(src, size - 1);
    }

    /** strlcat: appends what fits in front of the NUL. */
    method Cat(src: cstring)
      requires Valid()
      modifies this
      ensures Valid() && text == Clip(old(text) + src, size - 1)
    {
      text := text + Clip(src, size - 1 - |text|);
    }
  }

  /** Elements separated by colons. */
  function Join(l: seq<cstring>): cstring {
    if l == [] then ""
    else if |l| == 1 then l[0]
    else Join(l[..|l| - 1]) + ":" + l[|l| - 1]
  }

  /** What a further element is appended to. */
  function Joint(l: seq<cstring>): cstring {
    if l == [] then "" else Join(l) + ":"
  }

  lemma JoinSnoc(l: seq<cstring>, s: cstring)
    ensures Join(l + [s]) == Joint(l) + s
  {
    if l == [] {
      assert l + [s] == [s] && "" + s == s;
    } else {
      assert (l + [s])[..|l|] == l;
    }
  }

  /** What the linker takes for the end of an element of its preload list. */
  predicate Separates(c: char) {
    c == ':' || c == ' '
  }

  predicate Plain(s: cstring) {
    forall i :: 0 <= i < |s| ==> !Separates(s[i])
  }

  predicate AllPlain(l: seq<cstring>) {
    forall s :: s in l ==> Plain(s)
  }

  /** The elements of a list, as the linker finds them. */
  function Split(s: string): (l: seq<string>)
    ensures l != []
  {
    if s == "" then [""] else
    var l, c := Split(s[..|s| - 1]), s[|s| - 1];
    if Separates(c) then l + [""] else l[|l| - 1 := l[|l| - 1] + [c]]
  }

  /** One character more: a new element, or a longer last one. */
  function Grown(l: seq<string>, c: char): seq<string>
    requires l != []
  {
    if Separates(c) then l + [""] else l[|l| - 1 := l[|l| - 1] + [c]]
  }

  lemma SplitSnoc(s: string, c: char)
    ensures Split(s + [c]) == Grown(Split(s), c)
  {
    assert (s + [c])[..|s|] == s;
  }

  lemma TextGrown(l: seq<string>, front: string, c: char)
    requires l != [] && !Separates(c)
    ensures Grown(l[|l| - 1 := l[|l| - 1] + front], c) == l[|l| - 1 := l[|l| - 1] + (front + [c])]
  {
    assert (l[|l| - 1] + front) + [c] == l[|l| - 1] + (front + [c]);
  }

  lemma {:induction false} SplitText(s: string, t: string)
    requires Plain(t)
    ensures var l := Split(s); Split(s + t) == l[|l| - 1 := l[|l| - 1] + t]
  {
    var l := Split(s);
    if t == "" {
      assert s + t == s && l[|l| - 1] + t == l[|l| - 1];
    } else {
      var front, c := t[..|t| - 1], t[|t| - 1];
      assert !Separates(t[|t| - 1]);
      assert s + t == (s + front) + [c] && front + [c] == t;
      hide Split, Separates, Grown;
      SplitText(s, front);
      SplitSnoc(s + front, c);
      TextGrown(l, front, c);
    }
  }

  lemma SplitAfterColon(s: string, t: string)
    requires Plain(t)
    ensures Split(s + ":" + t) == Split(s) + [t]
  {
    var c := s + ":";
    assert c[..|c| - 1] == s;
    assert Split(c) == Split(s) + [""];
    SplitText(c, t);
    assert "" + t == t;
  }

  lemma GrownAfter(l: seq<string>, r: seq<string>, c: char)
    requires l != [] && r != []
    ensures Grown(l + r, c) == l + Grown(r, c)
  {
    if !Separates(c) {
      assert (l + r)[|l + r| - 1] == r[|r| - 1];
    }
  }

  /** A colon between two strings concatenates their lists. */
  lemma {:induction false} SplitAppend(s: string, t: string)
    ensures Split(s + ":" + t) == Split(s) + Split(t)
  {
    if t == "" {
      SplitSnoc(s, ':');
      assert s + ":" + t == s + ":";
    } else {
      var front, last := t[..|t| - 1], t[|t| - 1];
      assert s + ":" + t == (s + ":" + front) + [last] && t == front + [last];
      hide Split, Grown;
      SplitAppend(s, front);
      SplitSnoc(s + ":" + front, last);
      SplitSnoc(front, last);
      GrownAfter(Split(s), Split(front), last);
    }
  }

  /** No element contains a separator. */
  lemma {:induction false} ElementsArePlain(s: string)
    ensures AllPlain(Split(s))
  {
    if s != "" {
      ElementsArePlain(s[..|s| - 1]);
      var l := Split(s[..|s| - 1]);
      assert l[|l| - 1] in l;
      forall e | e in Split(s) ensures Plain(e) {
        assert e in l || e == "" || e == l[|l| - 1] + [s[|s| - 1]];
      }
    }
  }

  /** Two elements with a colon or a space between them. */
  lemma TwoElements(a: string, b: string)
    requires ':' !in a && ' ' !in a && ':' !in b && ' ' !in b
    ensures Split(a + ":" + b) == [a, b] && Split(a + " " + b) == [a, b]
  {
    assert Split("") == [""] && Plain(a) && Plain(b);
    hide Split, Plain;
    SplitText("", a);
    assert "" + a == a && [""][0 := a] == [a];
    SplitSnoc(a, ':');
    SplitSnoc(a, ' ');
    assert Split(a + ":") == [a] + [""] == [a, ""] && Split(a + " ") == [a] + [""] by {
      assert Separates(':') && Separates(' ');
    }
    SplitText(a + ":", b);
    SplitText(a + " ", b);
    assert "" + b == b && [a, ""][1 := b] == [a, b];
  }

  /** Splitting recovers a joined list of elements without separators. */
  lemma {:induction false} SplitJoin(l: seq<cstring>)
    requires l != []
    requires AllPlain(l)
    ensures Split(Join(l)) == l
  {
    var front, last := l[..|l| - 1], l[|l| - 1];
    assert l == front + [last];
    if front == [] {
      SplitText("", last);
      assert "" + last == last;
    } else {
      SplitJoin(front);
      SplitAfterColon(Join(front), last);
    }
  }
}
