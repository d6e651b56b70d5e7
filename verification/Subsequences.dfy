/** Longest common subsequences: an independent definition, the recurrence, and the trimming of common ends. */
module Subsequences {

  predicate Subsequence<T(==)>(c: seq<T>, a: seq<T>) {
    c == [] || (a != [] && ((c[0] == a[0] && Subsequence(c[1..], a[1..])) || Subsequence(c, a[1..])))
  }

  predicate Common<T(==)>(c: seq<T>, a: seq<T>, b: seq<T>) {
    Subsequence(c, a) && Subsequence(c, b)
  }

  function Max(x: nat, y: nat): nat {
    if x >= y then x else y
  }

  function Lcs<T(==)>(a: seq<T>, b: seq<T>): nat
    decreases |a| + |b|
  {
    if a == [] || b == [] then 0
    else if a[0] == b[0] then 1 + Lcs(a[1..], b[1..])
    else Max(Lcs(a[1..], b), Lcs(a, b[1..]))
  }

  lemma {:induction false} DropFirst<T>(c: seq<T>, a: seq<T>)
    requires Subsequence(c, a) && c != []
    ensures a != [] && Subsequence(c[1..], a[1..])
  {
    if !(c[0] == a[0] && Subsequence(c[1..], a[1..])) {
      DropFirst(c, a[1..]);
      Weaken(c[1..], a[1..]);
    }
  }

  lemma {:induction false} Weaken<T>(c: seq<T>, a: seq<T>)
    requires a != [] && Subsequence(c, a[1..])
    ensures Subsequence(c, a)
  {}

  lemma {:induction false} DropLast<T>(c: seq<T>, a: seq<T>, x: T)
    requires Subsequence(c, a + [x]) && c != []
    ensures Subsequence(c[..|c| - 1], a)
  {
    if a == [] {
      var one := a + [x];
      assert one[1..] == [];
      assert !Subsequence(c, one[1..]);
      assert Subsequence(c[1..], one[1..]);
      assert c[1..] == [];
      assert c[..|c| - 1] == [];
    } else {
      assert (a + [x])[1..] == a[1..] + [x];
      if c[0] == a[0] && Subsequence(c[1..], a[1..] + [x]) {
        if |c| > 1 {
          DropLast(c[1..], a[1..], x);
          assert c[1..][..|c| - 2] == c[..|c| - 1][1..];
        } else {
          assert c[..|c| - 1] == [];
        }
      } else {
        DropLast(c, a[1..], x);
        Weaken(c[..|c| - 1], a);
      }
    }
  }

  lemma {:induction false} AddLast<T>(c: seq<T>, a: seq<T>, x: T)
    requires Subsequence(c, a)
    ensures Subsequence(c + [x], a + [x])
  {
    if a == [] {
      assert c + [x] == [x] && a + [x] == [x];
    } else {
      assert (a + [x])[1..] == a[1..] + [x];
      if c == [] {
        AddLast(c, a[1..], x);
      } else {
        assert (c + [x])[1..] == c[1..] + [x];
        if c[0] == a[0] && Subsequence(c[1..], a[1..]) {
          AddLast(c[1..], a[1..], x);
        } else {
          AddLast(c, a[1..], x);
        }
      }
    }
  }

  /** No common subsequence is longer than `Lcs`. */
  lemma {:induction false} LcsBounds<T>(a: seq<T>, b: seq<T>, c: seq<T>)
    requires Common(c, a, b)
    ensures |c| <= Lcs(a, b)
    decreases |a| + |b|
  {
    if c != [] {
      assert a != [] && b != [];
      if a[0] == b[0] {
        DropFirst(c, a);
        DropFirst(c, b);
        LcsBounds(a[1..], b[1..], c[1..]);
      } else if Subsequence(c, a[1..]) {
        LcsBounds(a[1..], b, c);
      } else {
        LcsBounds(a, b[1..], c);
      }
    }
  }

  /** Some common subsequence is as long as `Lcs`. */
  lemma {:induction false} LcsAttained<T>(a: seq<T>, b: seq<T>) returns (c: seq<T>)
    ensures Common(c, a, b) && |c| == Lcs(a, b)
    decreases |a| + |b|
  {
    if a == [] || b == [] {
      c := [];
    } else if a[0] == b[0] {
      var rest := LcsAttained(a[1..], b[1..]);
      c := [a[0]] + rest;
      assert c[1..] == rest;
    } else if Lcs(a[1..], b) >= Lcs(a, b[1..]) {
      c := LcsAttained(a[1..], b);
      Weaken(c, a);
    } else {
      c := LcsAttained(a, b[1..]);
      Weaken(c, b);
    }
  }

  lemma LcsSharedLast<T>(a: seq<T>, b: seq<T>, x: T)
    ensures Lcs(a + [x], b + [x]) == Lcs(a, b) + 1
  {
    var c := LcsAttained(a, b);
    AddLast(c, a, x);
    AddLast(c, b, x);
    LcsBounds(a + [x], b + [x], c + [x]);
    var d := LcsAttained(a + [x], b + [x]);
    DropLast(d, a, x);
    DropLast(d, b, x);
    LcsBounds(a, b, d[..|d| - 1]);
  }

  lemma {:induction false} LcsSharedSuffix<T>(a: seq<T>, b: seq<T>, s: seq<T>)
    ensures Lcs(a + s, b + s) == Lcs(a, b) + |s|
    decreases |s|
  {
    if s == [] {
      assert a + s == a && b + s == b;
    } else {
      var front, x := s[..|s| - 1], s[|s| - 1];
      assert a + s == (a + front) + [x] && b + s == (b + front) + [x];
      LcsSharedLast(a + front, b + front, x);
      LcsSharedSuffix(a, b, front);
    }
  }

  lemma {:induction false} LcsSharedPrefix<T>(p: seq<T>, a: seq<T>, b: seq<T>)
    ensures Lcs(p + a, p + b) == |p| + Lcs(a, b)
  {
    if p == [] {
      assert p + a == a && p + b == b;
    } else {
      assert (p + a)[1..] == p[1..] + a && (p + b)[1..] == p[1..] + b;
      LcsSharedPrefix(p[1..], a, b);
    }
  }

  /** Trimming a common prefix and a common suffix loses nothing. */
  lemma LcsTrim<T>(p: seq<T>, a: seq<T>, b: seq<T>, s: seq<T>)
    ensures Lcs(p + a + s, p + b + s) == |p| + Lcs(a, b) + |s|
  {
    LcsSharedSuffix(p + a, p + b, s);
    LcsSharedPrefix(p, a, b);
  }

  lemma {:induction false} LcsAtMost<T>(a: seq<T>, b: seq<T>)
    ensures Lcs(a, b) <= |a| && Lcs(a, b) <= |b|
    decreases |a| + |b|
  {
    if a != [] && b != [] {
      LcsAtMost(a[1..], b[1..]);
      LcsAtMost(a[1..], b);
      LcsAtMost(a, b[1..]);
    }
  }
}
