/**
 * The order in which a `std::map<std::string, ...>` hands out its keys:
 * `std::string`'s `operator<`, lexicographic on character codes, and the
 * sorted enumeration of a finite set of keys.
 */
module Order {
  /** `a < b` for `std::string`: a proper prefix is smaller, otherwise the first differing character decides. */
  predicate Less(a: string, b: string)
    decreases |a|
  {
    b != [] && (a == [] || a[0] < b[0] || (a[0] == b[0] && Less(a[1..], b[1..])))
  }

  lemma {:induction false} LessIrreflexive(a: string)
    ensures !Less(a, a)
    decreases |a|
  {
    if a != [] {
      LessIrreflexive(a[1..]);
    }
  }

  lemma {:induction false} LessTransitive(a: string, b: string, c: string)
    requires Less(a, b) && Less(b, c)
    ensures Less(a, c)
    decreases |a|
  {
    if a != [] && a[0] == b[0] && b[0] == c[0] {
      LessTransitive(a[1..], b[1..], c[1..]);
    }
  }

  lemma {:induction false} LessTotal(a: string, b: string)
    requires a != b
    ensures Less(a, b) || Less(b, a)
    decreases |a|
  {
    if a != [] && b != [] && a[0] == b[0] {
      assert a == [a[0]] + a[1..] && b == [b[0]] + b[1..];
      LessTotal(a[1..], b[1..]);
    }
  }

  /** `k` is the smallest member of `s`. */
  predicate IsLeast(k: string, s: set<string>)
  {
    k in s && forall x :: x in s && x != k ==> Less(k, x)
  }

  lemma {:induction false} LeastExists(s: set<string>)
    requires s != {}
    ensures exists k :: IsLeast(k, s)
    decreases |s|
  {
    var x :| x in s;
    if s != {x} {
      var rest := s - {x};
      LeastExists(rest);
      var k :| IsLeast(k, rest);
      if Less(x, k) {
        forall y | y in s && y != x ensures Less(x, y) {
          if y != k { LessTransitive(x, k, y); }
        }
        assert IsLeast(x, s);
      } else {
        LessTotal(x, k);
        assert IsLeast(k, s);
      }
    } else {
      assert IsLeast(x, s);
    }
  }

  lemma LeastUnique(a: string, b: string, s: set<string>)
    requires IsLeast(a, s) && IsLeast(b, s)
    ensures a == b
  {
    if a != b {
      assert Less(a, b) && Less(b, a);
      LessTransitive(a, b, a);
      LessIrreflexive(a);
    }
  }

  /** The smallest member of a non-empty set. */
  ghost function Least(s: set<string>): (k: string)
    requires s != {}
    ensures IsLeast(k, s)
  {
    LeastExists(s);
    var k :| IsLeast(k, s); k
  }

  /** Each key is smaller than every later one. */
  predicate Increasing(r: seq<string>)
  {
    forall i, j :: 0 <= i < j < |r| ==> Less(r[i], r[j])
  }

  /** The keys of a `std::map` in the order its iterators visit them. */
  ghost function SortedKeys(s: set<string>): (r: seq<string>)
    decreases |s|
    ensures |r| == |s| && (forall k :: k in r <==> k in s)
  {
    if s == {} then []
    else
      var k := Least(s);
      [k] + SortedKeys(s - {k})
  }

  /** The enumeration is in increasing order, so it visits each key once. */
  lemma {:induction false} SortedKeysIncreasing(s: set<string>)
    decreases |s|
    ensures Increasing(SortedKeys(s))
  {
    if s != {} {
      var k := Least(s);
      var rest := SortedKeys(s - {k});
      SortedKeysIncreasing(s - {k});
      assert SortedKeys(s) == [k] + rest;
      assert forall i :: 0 <= i < |rest| ==> rest[i] in s - {k};
    }
  }

  /** The enumeration starts with the least key. */
  lemma SortedKeysStep(s: set<string>, k: string)
    requires IsLeast(k, s)
    ensures SortedKeys(s) == [k] + SortedKeys(s - {k})
  {
    LeastUnique(k, Least(s), s);
  }

  lemma ConcatAssoc(a: seq<string>, b: seq<string>, c: seq<string>)
    ensures a + (b + c) == (a + b) + c
  {
  }

  /** Walking the keys smallest first. */
  method SortKeys(s: set<string>) returns (r: seq<string>)
    ensures r == SortedKeys(s)
  {
    r := [];
    var todo := s;
    while todo != {}
      invariant r + SortedKeys(todo) == SortedKeys(s)
      decreases |todo|
    {
      LeastExists(todo);
      var k :| IsLeast(k, todo);
      SortedKeysStep(todo, k);
      ConcatAssoc(r, [k], SortedKeys(todo - {k}));
      r := r + [k];
      todo := todo - {k};
    }
    assert r + SortedKeys(todo) == r;
  }
}
