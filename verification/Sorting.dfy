/** Python's `sorted` on a set of strings: code-point order, each string once. */
module Sorting {
  predicate Before(a: string, b: string) {
    b != "" && (a == "" || a[0] < b[0] || (a[0] == b[0] && Before(a[1..], b[1..])))
  }

  /** One string comes before another when it is cut short, or has the smaller character where they first differ. */
  lemma {:induction false} BeforeMeaning(a: string, b: string)
    ensures Before(a, b) <==>
            exists n :: 0 <= n <= |a| && n < |b| && a[..n] == b[..n] && (n == |a| || a[n] < b[n])
  {
    if a != "" && b != "" && a[0] == b[0] {
      BeforeMeaning(a[1..], b[1..]);
      if Before(a, b) {
        var s, t := a[1..], b[1..];
        var m :| 0 <= m <= |s| && m < |t| && s[..m] == t[..m] && (m == |s| || s[m] < t[m]);
        SamePrefix(a, b, m);
      } else if n :| 0 <= n <= |a| && n < |b| && a[..n] == b[..n] && (n == |a| || a[n] < b[n]) {
        assert n > 0;
        SamePrefix(a, b, n - 1);
      }
    } else if a != "" && b != "" {
      assert a[..0] == b[..0];
      assert forall n | 0 < n <= |a| && n < |b| :: a[..n][0] == a[0] && b[..n][0] == b[0];
    } else if b != "" {
      assert a[..0] == b[..0];
    }
  }

  lemma SamePrefix(a: string, b: string, m: nat)
    requires m < |a| && m < |b| && a[0] == b[0]
    ensures a[..m + 1] == b[..m + 1] <==> a[1..][..m] == b[1..][..m]
  {
    assert a[..m + 1] == [a[0]] + a[1..][..m] && b[..m + 1] == [b[0]] + b[1..][..m];
  }

  ghost predicate Ascending(s: seq<string>) {
    forall i, j | 0 <= i < j < |s| :: Before(s[i], s[j])
  }

  /** `s` lists exactly the members of `keys`, in order. */
  ghost predicate SortedListOf(s: seq<string>, keys: set<string>) {
    Ascending(s) && forall k :: k in keys <==> k in s
  }

  lemma {:induction false} BeforeIrreflexive(a: string)
    ensures !Before(a, a)
  {
    if a != "" {
      BeforeIrreflexive(a[1..]);
    }
  }

  lemma {:induction false} BeforeTotal(a: string, b: string)
    ensures a == b || Before(a, b) || Before(b, a)
  {
    if a != "" && b != "" && a[0] == b[0] {
      BeforeTotal(a[1..], b[1..]);
      assert a == [a[0]] + a[1..] && b == [b[0]] + b[1..];
    }
  }

  lemma {:induction false} BeforeTransitive(a: string, b: string, c: string)
    requires Before(a, b) && Before(b, c)
    ensures Before(a, c)
  {
    if a != "" && a[0] == b[0] && b[0] == c[0] {
      BeforeTransitive(a[1..], b[1..], c[1..]);
    }
  }

  /** There is one sorted list of a set. */
  lemma {:induction false} SortedListUnique(a: seq<string>, b: seq<string>, keys: set<string>)
    requires SortedListOf(a, keys) && SortedListOf(b, keys)
    ensures a == b
    decreases |a|
  {
    assert a != [] ==> a[0] in keys;
    assert b != [] ==> b[0] in keys;
    if a != [] && b != [] {
      FirstIsLeast(a, b[0]);
      FirstIsLeast(b, a[0]);
      if a[0] != b[0] {
        BeforeTransitive(a[0], b[0], a[0]);
        BeforeIrreflexive(a[0]);
      }
      TailLists(a, keys);
      TailLists(b, keys);
      SortedListUnique(a[1..], b[1..], keys - {a[0]});
      assert a == [a[0]] + a[1..] && b == [b[0]] + b[1..];
    }
  }

  lemma FirstIsLeast(s: seq<string>, k: string)
    requires Ascending(s) && k in s
    ensures k == s[0] || Before(s[0], k)
  {
  }

  lemma TailLists(s: seq<string>, keys: set<string>)
    requires SortedListOf(s, keys) && s != []
    ensures SortedListOf(s[1..], keys - {s[0]})
  {
    BeforeIrreflexive(s[0]);
    assert s == [s[0]] + s[1..];
  }

  /** A new string put at its place in a sorted list. */
  function Insert(s: seq<string>, k: string): seq<string> {
    if s == [] || Before(k, s[0]) then [k] + s else [s[0]] + Insert(s[1..], k)
  }

  lemma {:induction false} InsertSorts(s: seq<string>, k: string, keys: set<string>)
    requires SortedListOf(s, keys) && k !in keys
    ensures SortedListOf(Insert(s, k), keys + {k})
    decreases |s|
  {
    if s == [] || Before(k, s[0]) {
      forall j | 0 <= j < |s|
        ensures Before(k, s[j])
      {
        if j > 0 {
          BeforeTransitive(k, s[0], s[j]);
        }
      }
    } else {
      BeforeTotal(s[0], k);
      TailLists(s, keys);
      InsertSorts(s[1..], k, keys - {s[0]});
      var t := Insert(s[1..], k);
      forall j | 0 <= j < |t|
        ensures Before(s[0], t[j])
      {
        assert t[j] in keys - {s[0]} + {k};
        if t[j] != k {
          FirstIsLeast(s, t[j]);
        }
      }
    }
  }

  /** The sorted list of a set, as a value. */
  ghost function Sorted(keys: set<string>): (r: seq<string>)
    ensures SortedListOf(r, keys)
  {
    if keys == {} then []
    else
      var k :| k in keys;
      InsertSorts(Sorted(keys - {k}), k, keys - {k});
      assert keys - {k} + {k} == keys;
      Insert(Sorted(keys - {k}), k)
  }

  method SortedKeys(keys: set<string>) returns (r: seq<string>)
    ensures r == Sorted(keys)
  {
    r := [];
    var rest := keys;
    while rest != {}
      invariant rest <= keys && SortedListOf(r, keys - rest)
      decreases rest
    {
      var k :| k in rest;
      InsertSorts(r, k, keys - rest);
      r := Insert(r, k);
      assert keys - rest + {k} == keys - (rest - {k});
      rest := rest - {k};
    }
    assert keys - rest == keys;
    SortedListUnique(r, Sorted(keys), keys);
  }
}
