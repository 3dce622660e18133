/** Path strings as the modelled code handles them: `str.split("/")`,
    `"/".join(...)`, `os.path.join`, `os.path.basename`, negative slices and
    f-string rendering of integers. */
module Paths {

  /** Python's `s.split("/")`: every separator cuts, so there is always at
      least one component and no component holds a separator. */
  function Split(s: string): (parts: seq<string>)
    ensures |parts| >= 1
    ensures forall i :: 0 <= i < |parts| ==> '/' !in parts[i]
  {
    if |s| == 0 then [""]
    else
      var rest := Split(s[1..]);
      if s[0] == '/' then [""] + rest
      else [[s[0]] + rest[0]] + rest[1..]
  }

  /** Python's `"/".join(parts)`. */
  function Join(parts: seq<string>): string
  {
    if |parts| == 0 then ""
    else if |parts| == 1 then parts[0]
    else parts[0] + "/" + Join(parts[1..])
  }

  /** `os.path.join(a, b)` for two components on a POSIX system: an absolute
      `b` replaces `a`; otherwise a separator is inserted unless `a` is empty
      or already ends with one. */
  function PathJoin(a: string, b: string): string
  {
    if |b| > 0 && b[0] == '/' then b
    else if |a| == 0 || a[|a| - 1] == '/' then a + b
    else a + "/" + b
  }

  /** `os.path.basename(p)`: what follows the last separator. */
  function Basename(p: string): string
  {
    var parts := Split(p);
    parts[|parts| - 1]
  }

  /** Python's `xs[-n:]` for a positive `n`. */
  function LastN<T>(xs: seq<T>, n: nat): (r: seq<T>)
    ensures |r| == if |xs| <= n then |xs| else n
    ensures r == xs[|xs| - |r|..]
  {
    if |xs| <= n then xs else xs[|xs| - n..]
  }

  /** Python's `s.endswith(suffix)`. */
  predicate EndsWith(s: string, suffix: string)
  {
    |suffix| <= |s| && s[|s| - |suffix|..] == suffix
  }

  function DigitChar(d: nat): char
    requires d < 10
  {
    (48 + d) as char
  }

  /** The decimal rendering of `n`, as `f"{n}"` produces it. */
  function NatToString(n: nat): (s: string)
    ensures 1 <= |s|
    ensures n >= 10 ==> 2 <= |s|
  {
    if n < 10 then [DigitChar(n)] else NatToString(n / 10) + [DigitChar(n % 10)]
  }

  lemma JoinCons(a: string, t: seq<string>)
    ensures Join([a] + t) == if |t| == 0 then a else a + "/" + Join(t)
  {
    assert ([a] + t)[1..] == t;
  }

  /** Joining the components of a split gives the string back. */
  lemma {:induction false} JoinSplit(s: string)
    ensures Join(Split(s)) == s
  {
    if |s| > 0 {
      var rest := Split(s[1..]);
      JoinSplit(s[1..]);
      if s[0] == '/' {
        JoinCons("", rest);
        assert s == "/" + s[1..];
      } else {
        var head := [s[0]] + rest[0];
        assert Split(s) == [head] + rest[1..];
        JoinCons(head, rest[1..]);
        JoinCons(rest[0], rest[1..]);
        assert rest == [rest[0]] + rest[1..];
        assert s == [s[0]] + s[1..];
      }
    }
  }

  /** A separator between two strings separates their components. */
  lemma {:induction false} SplitAround(a: string, b: string)
    ensures Split(a + "/" + b) == Split(a) + Split(b)
  {
    if |a| == 0 {
      assert a + "/" + b == "/" + b;
      assert ("/" + b)[1..] == b;
    } else {
      var tail := a[1..] + "/" + b;
      assert a + "/" + b == [a[0]] + tail;
      assert ([a[0]] + tail)[1..] == tail;
      SplitAround(a[1..], b);
    }
  }

  lemma {:induction false} SplitNoSeparator(a: string)
    requires '/' !in a
    ensures Split(a) == [a]
  {
    if |a| > 0 {
      assert '/' !in a[1..] by {
        forall k | 0 <= k < |a[1..]| ensures a[1..][k] != '/' {
          assert a[1..][k] == a[k + 1];
        }
      }
      SplitNoSeparator(a[1..]);
      assert a == [a[0]] + a[1..];
    }
  }

  /** Splitting a join of separator-free components gives the components back. */
  lemma {:induction false} SplitJoin(parts: seq<string>)
    requires |parts| >= 1
    requires forall i :: 0 <= i < |parts| ==> '/' !in parts[i]
    ensures Split(Join(parts)) == parts
  {
    if |parts| == 1 {
      SplitNoSeparator(parts[0]);
    } else {
      SplitJoin(parts[1..]);
      SplitAround(parts[0], Join(parts[1..]));
      SplitNoSeparator(parts[0]);
      assert parts == [parts[0]] + parts[1..];
    }
  }

  lemma {:induction false} JoinAppend(a: seq<string>, b: seq<string>)
    requires |a| >= 1 && |b| >= 1
    ensures Join(a + b) == Join(a) + "/" + Join(b)
  {
    if |a| == 1 {
      JoinCons(a[0], b);
      assert a + b == [a[0]] + b;
    } else {
      JoinAppend(a[1..], b);
      assert a + b == [a[0]] + (a[1..] + b);
      JoinCons(a[0], a[1..] + b);
      JoinCons(a[0], a[1..]);
      assert a == [a[0]] + a[1..];
    }
  }

  /** Joining a relative tail onto a directory appends the tail's components. */
  lemma PathJoinComponents(dir: string, tail: string)
    requires |dir| > 0 && dir[|dir| - 1] != '/'
    requires |tail| == 0 || tail[0] != '/'
    ensures PathJoin(dir, tail) == dir + "/" + tail
    ensures Split(PathJoin(dir, tail)) == Split(dir) + Split(tail)
  {
    SplitAround(dir, tail);
  }

  /** `f"{n}"` is one-to-one, so distinct numbers give distinct names. */
  lemma {:induction false} NatToStringInjective(m: nat, n: nat)
    requires NatToString(m) == NatToString(n)
    ensures m == n
  {
    var s := NatToString(m);
    if m < 10 && n < 10 {
      assert DigitChar(m) == s[0] == DigitChar(n);
    } else if m >= 10 && n >= 10 {
      assert s[|s| - 1] == DigitChar(m % 10);
      assert s[|s| - 1] == DigitChar(n % 10);
      assert s[..|s| - 1] == NatToString(m / 10);
      assert s[..|s| - 1] == NatToString(n / 10);
      NatToStringInjective(m / 10, n / 10);
    }
  }
}
