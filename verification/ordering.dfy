/** The order in which the menu dropdown lists categories and items.
    `OrderBy(x => x)` on strings compares with the current culture; this model
    uses the lexicographic order on code points instead. */
module Ordering {

  /** Lexicographic `a <= b`, comparing characters by code point. */
  predicate LessEq(a: string, b: string) {
    a == [] || (b != [] && (a[0] < b[0] || (a[0] == b[0] && LessEq(a[1..], b[1..]))))
  }

  lemma {:induction false} LessEqReflexive(a: string)
    ensures LessEq(a, a)
  {
    if a != [] { LessEqReflexive(a[1..]); }
  }

  lemma {:induction false} LessEqAntisymmetric(a: string, b: string)
    requires LessEq(a, b) && LessEq(b, a)
    ensures a == b
  {
    if a != [] && b != [] {
      LessEqAntisymmetric(a[1..], b[1..]);
      assert a == [a[0]] + a[1..] && b == [b[0]] + b[1..];
    }
  }

  lemma {:induction false} LessEqTransitive(a: string, b: string, c: string)
    requires LessEq(a, b) && LessEq(b, c)
    ensures LessEq(a, c)
  {
    if a != [] && b != [] && c != [] && a[0] == b[0] == c[0] {
      LessEqTransitive(a[1..], b[1..], c[1..]);
    }
  }

  lemma {:induction false} LessEqTotal(a: string, b: string)
    ensures LessEq(a, b) || LessEq(b, a)
  {
    if a != [] && b != [] && a[0] == b[0] {
      LessEqTotal(a[1..], b[1..]);
    }
  }

  /** Every element is at most every later element. */
  predicate Sorted(s: seq<string>) {
    forall i, j :: 0 <= i < j < |s| ==> LessEq(s[i], s[j])
  }

  /** Sorted with no element repeated: a strictly increasing sequence. */
  predicate StrictlySorted(s: seq<string>) {
    Sorted(s) && forall i, j :: 0 <= i < j < |s| ==> s[i] != s[j]
  }

  /** `x` put in front of a sorted `s` whose head is at least `x` stays sorted. */
  lemma ConsSorted(x: string, s: seq<string>)
    requires Sorted(s)
    requires s != [] ==> LessEq(x, s[0])
    ensures Sorted([x] + s)
  {
    forall j | 0 <= j < |s| ensures LessEq(x, s[j]) {
      if j > 0 { LessEqTransitive(x, s[0], s[j]); }
    }
  }

  /** Inserts `x` into a sorted sequence. */
  function Insert(x: string, s: seq<string>): (r: seq<string>)
    requires Sorted(s)
    ensures Sorted(r)
    ensures multiset(r) == multiset(s) + multiset{x}
  {
    if s == [] then [x]
    else if LessEq(x, s[0]) then ConsSorted(x, s); [x] + s
    else
      var rest := Insert(x, s[1..]);
      LessEqTotal(x, s[0]);
      assert s == [s[0]] + s[1..];
      assert forall y :: y in rest ==> LessEq(s[0], y) by {
        forall y | y in rest ensures LessEq(s[0], y) {
          assert y in multiset(rest);
          if y != x {
            assert y in multiset(s[1..]);
            var k :| 0 <= k < |s[1..]| && s[1..][k] == y;
            assert s[k + 1] == y;
          }
        }
      }
      ConsSorted(s[0], rest);
      [s[0]] + rest
  }

  /** Sorts a sequence of strings: `items.OrderBy(x => x)`. */
  function Sort(s: seq<string>): (r: seq<string>)
    ensures Sorted(r)
    ensures multiset(r) == multiset(s)
  {
    if s == [] then []
    else
      assert s == [s[0]] + s[1..];
      Insert(s[0], Sort(s[1..]))
  }

  /** `m` is a least element of `ks`. */
  predicate IsLeast(m: string, ks: set<string>) {
    m in ks && forall k :: k in ks ==> LessEq(m, k)
  }

  /** A least element of a non-empty set exists. */
  lemma {:induction false} MinimumExists(ks: set<string>)
    requires ks != {}
    ensures exists m :: IsLeast(m, ks)
    decreases |ks|
  {
    var x :| x in ks;
    var rest := ks - {x};
    assert ks == rest + {x};
    if rest == {} {
      LessEqReflexive(x);
      assert IsLeast(x, ks);
    } else {
      assert |rest| < |ks|;
      MinimumExists(rest);
      var m :| IsLeast(m, rest);
      LessEqTotal(m, x);
      if LessEq(m, x) {
        assert IsLeast(m, ks);
      } else {
        forall k | k in ks ensures LessEq(x, k) {
          if k == x { LessEqReflexive(x); } else { LessEqTransitive(x, m, k); }
        }
        assert IsLeast(x, ks);
      }
    }
  }

  /** The keys of a dictionary in sorted order: `dict.OrderBy(x => x.Key)`. */
  function SortedKeys(ks: set<string>): (r: seq<string>)
    ensures StrictlySorted(r)
    ensures |r| == |ks|
    ensures forall k :: k in r <==> k in ks
    decreases |ks|
  {
    if ks == {} then []
    else
      MinimumExists(ks);
      assert forall a, b :: LessEq(a, b) && LessEq(b, a) ==> a == b by {
        forall a, b | LessEq(a, b) && LessEq(b, a) ensures a == b { LessEqAntisymmetric(a, b); }
      }
      var m :| IsLeast(m, ks);
      var rest := SortedKeys(ks - {m});
      assert forall k :: k in rest ==> LessEq(m, k) && k != m;
      ConsSorted(m, rest);
      [m] + rest
  }
}
