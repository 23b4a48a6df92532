/**
 * Lexicographic order on strings and a sort by a string key. It stands for
 * the two orderings the handlers delegate to someone else: JavaScript's
 * default `Array.prototype.sort` on the webhook's parameter names, and the
 * store's `order("created_at", { ascending: false })`.
 */
module Order {

  /** `a` sorts no later than `b`, character by character. */
  predicate LexLe(a: string, b: string)
    decreases |a|
  {
    a == [] || (b != [] && (a[0] < b[0] || (a[0] == b[0] && LexLe(a[1..], b[1..]))))
  }

  lemma {:induction false} LexLeTotal(a: string, b: string)
    ensures LexLe(a, b) || LexLe(b, a)
    decreases |a|
  {
    if a != [] && b != [] && a[0] == b[0] {
      LexLeTotal(a[1..], b[1..]);
    }
  }

  lemma {:induction false} LexLeReflexive(a: string)
    ensures LexLe(a, a)
    decreases |a|
  {
    if a != [] {
      LexLeReflexive(a[1..]);
    }
  }

  lemma {:induction false} LexLeTransitive(a: string, b: string, c: string)
    requires LexLe(a, b) && LexLe(b, c)
    ensures LexLe(a, c)
    decreases |a|
  {
    if a != [] && a[0] == b[0] && b[0] == c[0] {
      LexLeTransitive(a[1..], b[1..], c[1..]);
    }
  }

  lemma {:induction false} LexLeAntisymmetric(a: string, b: string)
    requires LexLe(a, b) && LexLe(b, a)
    ensures a == b
    decreases |a|
  {
    if a != [] {
      LexLeAntisymmetric(a[1..], b[1..]);
      assert a == [a[0]] + a[1..];
      assert b == [b[0]] + b[1..];
    }
  }

  /** `x` may stand before `y`: by ascending key, or descending when `desc`. */
  predicate Precedes<T>(key: T -> string, desc: bool, x: T, y: T) {
    if desc then LexLe(key(y), key(x)) else LexLe(key(x), key(y))
  }

  predicate SortedBy<T>(s: seq<T>, key: T -> string, desc: bool) {
    forall i, j | 0 <= i < j < |s| :: Precedes(key, desc, s[i], s[j])
  }

  lemma PrecedesTotal<T>(key: T -> string, desc: bool, x: T, y: T)
    ensures Precedes(key, desc, x, y) || Precedes(key, desc, y, x)
  {
    LexLeTotal(key(x), key(y));
  }

  /** Places `x` before the first element it may precede. */
  function InsertBy<T>(x: T, s: seq<T>, key: T -> string, desc: bool): (r: seq<T>)
    requires SortedBy(s, key, desc)
    ensures multiset(r) == multiset(s) + multiset{x}
    ensures SortedBy(r, key, desc)
  {
    if s == [] then [x]
    else if Precedes(key, desc, x, s[0]) then
      var r := [x] + s;
      assert SortedBy(r, key, desc) by {
        forall j | 1 <= j < |r| ensures Precedes(key, desc, x, r[j]) {
          if j > 1 {
            if desc {
              LexLeTransitive(key(r[j]), key(s[0]), key(x));
            } else {
              LexLeTransitive(key(x), key(s[0]), key(r[j]));
            }
          }
        }
      }
      r
    else
      var t := InsertBy(x, s[1..], key, desc);
      var r := [s[0]] + t;
      assert s == [s[0]] + s[1..];
      assert SortedBy(r, key, desc) by {
        PrecedesTotal(key, desc, x, s[0]);
        forall j | 1 <= j < |r| ensures Precedes(key, desc, s[0], r[j]) {
          assert r[j] in multiset(t);
          if r[j] != x {
            assert r[j] in multiset(s[1..]);
            var k :| 0 <= k < |s[1..]| && s[1..][k] == r[j];
            assert s[k + 1] == r[j];
          }
        }
      }
      r
  }

  /** Insertion sort: a permutation of `s` in the order `Precedes` asks for. */
  function SortBy<T>(s: seq<T>, key: T -> string, desc: bool): (r: seq<T>)
    ensures multiset(r) == multiset(s)
    ensures SortedBy(r, key, desc)
  {
    if s == [] then []
    else
      assert s == [s[0]] + s[1..];
      InsertBy(s[0], SortBy(s[1..], key, desc), key, desc)
  }

  /** Two ascending orderings of the same strings start alike. */
  lemma SortedStringsSameHead(a: seq<string>, b: seq<string>)
    requires SortedBy(a, (k: string) => k, false) && SortedBy(b, (k: string) => k, false)
    requires multiset(a) == multiset(b) && a != []
    ensures b != [] && a[0] == b[0]
  {
    assert a[0] in multiset(b);
    assert b[0] in multiset(a);
    var i :| 0 <= i < |a| && a[i] == b[0];
    var j :| 0 <= j < |b| && b[j] == a[0];
    assert LexLe(a[0], b[0]) by {
      if i > 0 {
        assert Precedes((k: string) => k, false, a[0], a[i]);
      } else {
        LexLeReflexive(a[0]);
      }
    }
    assert LexLe(b[0], a[0]) by {
      if j > 0 {
        assert Precedes((k: string) => k, false, b[0], b[j]);
      } else {
        LexLeReflexive(b[0]);
      }
    }
    LexLeAntisymmetric(a[0], b[0]);
  }

  lemma MultisetTails<T>(a: seq<T>, b: seq<T>)
    requires a != [] && b != [] && a[0] == b[0] && multiset(a) == multiset(b)
    ensures multiset(a[1..]) == multiset(b[1..])
  {
    assert a == [a[0]] + a[1..] && b == [b[0]] + b[1..];
    assert multiset(a[1..]) == multiset(a) - multiset{a[0]};
    assert multiset(b[1..]) == multiset(b) - multiset{b[0]};
  }

  /** Two ascending orderings of the same strings are the same sequence. */
  lemma {:induction false} SortedStringsUnique(a: seq<string>, b: seq<string>)
    requires SortedBy(a, (k: string) => k, false) && SortedBy(b, (k: string) => k, false)
    requires multiset(a) == multiset(b)
    ensures a == b
    decreases |a|
  {
    if a == [] {
      assert |multiset(b)| == 0;
    } else {
      SortedStringsSameHead(a, b);
      MultisetTails(a, b);
      SortedStringsUnique(a[1..], b[1..]);
      assert a == [a[0]] + a[1..] && b == [b[0]] + b[1..];
    }
  }
}
