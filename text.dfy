/** Strings and JavaScript's `String.prototype.trim`.
    Every comparison in the login handler is made between trimmed strings; this module
    defines trimming and proves what it removes and what it keeps. */
module Text {

  /** The characters `trim()` removes from both ends: ECMAScript WhiteSpace (tab, vertical tab,
      form feed, the byte order mark and every Unicode space separator) and LineTerminator. */
  predicate IsSpace(c: char) {
    c == '\t' || c == '\n' || c == '\U{000B}' || c == '\U{000C}' || c == '\r' || c == ' '
    || c == '\U{00A0}' || c == '\U{1680}' || ('\U{2000}' <= c <= '\U{200A}')
    || c == '\U{2028}' || c == '\U{2029}' || c == '\U{202F}' || c == '\U{205F}'
    || c == '\U{3000}' || c == '\U{FEFF}'
  }

  /** Every character of `s` is whitespace. */
  predicate AllSpace(s: string) {
    forall i :: 0 <= i < |s| ==> IsSpace(s[i])
  }

  /** Neither end of `s` is whitespace: the strings `trim()` returns unchanged. */
  predicate Trimmed(s: string) {
    s == [] || (!IsSpace(s[0]) && !IsSpace(s[|s| - 1]))
  }

  /** Drops the leading whitespace of `s`. */
  function TrimStart(s: string): (r: string)
    ensures |r| <= |s|
    ensures r == [] || !IsSpace(r[0])
  {
    if |s| > 0 && IsSpace(s[0]) then TrimStart(s[1..]) else
      s
  }

  /** Drops the trailing whitespace of `s`. */
  function TrimEnd(s: string): (r: string)
    ensures |r| <= |s| && r == s[..|r|]
    ensures r == [] || !IsSpace(r[|r| - 1])
  {
    if |s| > 0 && IsSpace(s[|s| - 1]) then TrimEnd(s[..|s| - 1]) else
      s
  }

  /** `s.trim()`: what is left of `s` after removing whitespace from both ends. */
  function Trim(s: string): (r: string)
    ensures Trimmed(r) && |r| <= |s|
  {
    var u := TrimStart(s);
    var r := TrimEnd(u);
    assert r == [] || !IsSpace(r[0]) by {
      if r != [] { assert r[0] == u[0]; }
    }
    r
  }

  /** `TrimStart` keeps a suffix and drops only whitespace. */
  lemma {:induction false} TrimStartSplits(s: string) returns (a: string)
    ensures s == a + TrimStart(s) && AllSpace(a)
  {
    if |s| > 0 && IsSpace(s[0]) {
      var a' := TrimStartSplits(s[1..]);
      a := [s[0]] + a';
      assert AllSpace([s[0]]);
      AllSpaceConcat([s[0]], a');
      calc {
        s;
        [s[0]] + s[1..];
        [s[0]] + (a' + TrimStart(s[1..]));
        { Reassociate([], [s[0]], a', [], TrimStart(s[1..])); }
        a + TrimStart(s);
      }
    } else {
      a := [];
      assert s == [] + s;
    }
  }

  /** `TrimEnd` keeps a prefix and drops only whitespace. */
  lemma {:induction false} TrimEndSplits(u: string) returns (b: string)
    ensures u == TrimEnd(u) + b && AllSpace(b)
  {
    if |u| > 0 && IsSpace(u[|u| - 1]) {
      var b' := TrimEndSplits(u[..|u| - 1]);
      b := b' + [u[|u| - 1]];
      assert AllSpace([u[|u| - 1]]);
      AllSpaceConcat(b', [u[|u| - 1]]);
      calc {
        u;
        u[..|u| - 1] + [u[|u| - 1]];
        (TrimEnd(u[..|u| - 1]) + b') + [u[|u| - 1]];
        { Reassociate([], TrimEnd(u[..|u| - 1]), b', [u[|u| - 1]], []); }
        TrimEnd(u) + b;
      }
    } else {
      b := [];
      assert u == u + [];
    }
  }

  /** `Trim(s)` is an infix of `s` and what lies around it is whitespace. */
  lemma {:induction false} TrimSplits(s: string) returns (a: string, b: string)
    ensures s == a + Trim(s) + b
    ensures AllSpace(a) && AllSpace(b)
  {
    a := TrimStartSplits(s);
    b := TrimEndSplits(TrimStart(s));
    assert Trim(s) == TrimEnd(TrimStart(s));
  }

  lemma {:induction false} TrimStartSkips(a: string, u: string)
    requires AllSpace(a)
    requires u == [] || !IsSpace(u[0])
    ensures TrimStart(a + u) == u
  {
    if a != [] {
      assert (a + u)[1..] == a[1..] + u;
      TrimStartSkips(a[1..], u);
    }
  }

  lemma {:induction false} TrimEndSkips(u: string, b: string)
    requires AllSpace(b)
    requires u == [] || !IsSpace(u[|u| - 1])
    ensures TrimEnd(u + b) == u
  {
    if b != [] {
      assert (u + b)[..|u + b| - 1] == u + b[..|b| - 1];
      TrimEndSkips(u, b[..|b| - 1]);
    }
  }

  /** Trimming removes exactly the surrounding whitespace: whenever `s` is a trimmed core `t`
      wrapped in whitespace, `Trim(s)` is that core. */
  lemma {:induction false} TrimUnique(a: string, t: string, b: string)
    requires AllSpace(a) && AllSpace(b) && Trimmed(t)
    ensures Trim(a + t + b) == t
  {
    if t == [] {
      assert a + t + b == (a + b) + [];
      TrimStartSkips(a + b, []);
    } else {
      assert a + t + b == a + (t + b);
      TrimStartSkips(a, t + b);
      TrimEndSkips(t, b);
    }
  }

  /** `trim()` is idempotent. */
  lemma {:induction false} TrimIdempotent(s: string)
    ensures Trim(Trim(s)) == Trim(s)
  {
  }

  /** A string is its own trim exactly when neither end is whitespace. */
  lemma {:induction false} TrimFixesTrimmed(s: string)
    ensures Trim(s) == s <==> Trimmed(s)
  {
  }

  /** A cell is empty after trimming exactly when it consists of whitespace only. */
  lemma {:induction false} TrimEmpty(s: string)
    ensures Trim(s) == "" <==> AllSpace(s)
  {
    if AllSpace(s) {
      assert s + [] + [] == s;
      TrimUnique(s, [], []);
    } else if Trim(s) == "" {
      var a, b := TrimSplits(s);
    }
  }

  lemma {:induction false} AllSpaceConcat(x: string, y: string)
    requires AllSpace(x) && AllSpace(y)
    ensures AllSpace(x + y)
  {
  }

  lemma {:induction false} Reassociate(a: string, a': string, t: string, b': string, b: string)
    ensures a + (a' + t + b') + b == (a + a') + t + (b' + b)
  {
  }

  /** Extra whitespace around a string does not change its trim. */
  lemma {:induction false} TrimAbsorbs(a: string, s: string, b: string)
    requires AllSpace(a) && AllSpace(b)
    ensures Trim(a + s + b) == Trim(s)
  {
    var t := Trim(s);
    var a', b' := TrimSplits(s);
    AllSpaceConcat(a, a');
    AllSpaceConcat(b', b);
    var pre, post := a + a', b' + b;
    calc {
      Trim(a + s + b);
      { Reassociate(a, a', t, b', b); }
      Trim(pre + t + post);
      { TrimUnique(pre, t, post); }
      t;
    }
  }
}
