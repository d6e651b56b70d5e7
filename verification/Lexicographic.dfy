/** The `Ord` of Rust strings and of vectors of strings: lexicographic. */
module Lexicographic {
  predicate StrLe(a: string, b: string) {
    a == [] || (b != [] && (a[0] < b[0] || (a[0] == b[0] && StrLe(a[1..], b[1..]))))
  }

  predicate KeyLe(a: seq<string>, b: seq<string>) {
    a == [] || (b != [] && if a[0] == b[0] then KeyLe(a[1..], b[1..]) else StrLe(a[0], b[0]))
  }

  lemma {:induction false} StrLeOrder(a: string, b: string, c: string)
    ensures StrLe(a, b) || StrLe(b, a)
    ensures StrLe(a, b) && StrLe(b, a) ==> a == b
    ensures StrLe(a, b) && StrLe(b, c) ==> StrLe(a, c)
    ensures a == b ==> StrLe(a, b)
  {
    if a != [] && b != [] {
      StrLeOrder(a[1..], b[1..], if c == [] then [] else c[1..]);
      assert a == [a[0]] + a[1..] && b == [b[0]] + b[1..];
    }
    if a == b && a != [] {
      StrLeOrder(a[1..], b[1..], []);
    }
  }

  lemma {:induction false} KeyLeOrder(a: seq<string>, b: seq<string>, c: seq<string>)
    ensures KeyLe(a, b) || KeyLe(b, a)
    ensures KeyLe(a, b) && KeyLe(b, c) ==> KeyLe(a, c)
    ensures a == b ==> KeyLe(a, b)
  {
    if a != [] && b != [] {
      var tail := if c == [] then [] else c[1..];
      KeyLeOrder(a[1..], b[1..], tail);
      StrLeOrder(a[0], b[0], if c == [] then [] else c[0]);
      if c != [] {
        StrLeOrder(b[0], c[0], a[0]);
      }
    }
    if a == b && a != [] {
      KeyLeOrder(a[1..], b[1..], []);
    }
  }

  function StringOrder(): (string, string) -> bool {
    (a, b) => StrLe(a, b)
  }

  /** Two texts agree up to `k`, where the first has the smaller character. */
  predicate LessAt(a: string, b: string, k: nat) {
    k < |a| && k < |b| && a[..k] == b[..k] && a[k] < b[k]
  }

  lemma LessAtNext(a: string, b: string, k: nat)
    requires a != "" && b != "" && a[0] == b[0] && LessAt(a[1..], b[1..], k)
    ensures LessAt(a, b, k + 1)
  {
    assert a[..k + 1] == [a[0]] + a[1..][..k] && b[..k + 1] == [b[0]] + b[1..][..k];
  }

  /** One text comes before another when it is a prefix of it or has the smaller character where they first differ. */
  lemma {:induction false} StrLeIff(a: string, b: string)
    ensures StrLe(a, b) <==> a <= b || exists k: nat :: LessAt(a, b, k)
  {
    if a != "" && b != "" && a[0] == b[0] {
      StrLeIff(a[1..], b[1..]);
      assert a == [a[0]] + a[1..] && b == [b[0]] + b[1..];
      if k: nat :| LessAt(a[1..], b[1..], k) {
        LessAtNext(a, b, k);
      }
      if k: nat :| LessAt(a, b, k) {
        assert k > 0 && a[1..][..k - 1] == a[..k][1..] && b[1..][..k - 1] == b[..k][1..];
        assert LessAt(a[1..], b[1..], k - 1);
      }
    } else if a != "" && b != "" {
      if a[0] < b[0] {
        assert LessAt(a, b, 0);
      }
      forall k: nat | LessAt(a, b, k) ensures k == 0 {
        assert forall i :: 0 <= i < k ==> a[..k][i] == a[i] && b[..k][i] == b[i];
      }
    }
  }
}
