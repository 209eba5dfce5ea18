/**
 * The `byName` orderings of job.go and daemon.go: Go's `<` on strings, which
 * compares byte by byte (for UTF-8 text this is code-point order, which is
 * what `char` comparison gives here), and `sort.Sort` driven by it.
 *
 * `sort.Sort` is library code; it is modelled by the pure insertion sort
 * `SortBy`. Since any two sorted permutations of a sequence whose keys are
 * distinct are equal (`SortedUnique`), the model's result is the one every
 * correct sort returns.
 */
module ByName {

  /** Go's `a < b` on strings: lexicographic, a proper prefix comes first. */
  predicate Less(a: string, b: string)
  {
    if a == [] then b != []
    else if b == [] then false
    else if a[0] != b[0] then a[0] < b[0]
    else Less(a[1..], b[1..])
  }

  lemma {:induction false} LessIrreflexive(a: string)
    ensures !Less(a, a)
  {
    if a != [] {
      LessIrreflexive(a[1..]);
    }
  }

  lemma {:induction false} LessTransitive(a: string, b: string, c: string)
    requires Less(a, b) && Less(b, c)
    ensures Less(a, c)
  {
    if a != [] && b != [] && c != [] && a[0] == b[0] && b[0] == c[0] {
      LessTransitive(a[1..], b[1..], c[1..]);
    }
  }

  /** Two different strings are always ordered one way or the other. */
  lemma {:induction false} LessTotal(a: string, b: string)
    ensures a == b || Less(a, b) || Less(b, a)
  {
    if a != [] && b != [] && a[0] == b[0] {
      LessTotal(a[1..], b[1..]);
      if a[1..] == b[1..] {
        assert a == [a[0]] + a[1..] && b == [b[0]] + b[1..];
      }
    }
  }

  lemma {:induction false} LessAsymmetric(a: string, b: string)
    requires Less(a, b)
    ensures !Less(b, a)
  {
    if Less(b, a) {
      LessTransitive(a, b, a);
      LessIrreflexive(a);
    }
  }

  /** `s` is in ascending order of `key`, as `sort.Sort(byName(s))` leaves it. */
  ghost predicate SortedBy<T>(s: seq<T>, key: T -> string)
  {
    forall i, j :: 0 <= i < j < |s| ==> !Less(key(s[j]), key(s[i]))
  }

  /** No two different elements of `s` share a key (job names, dependency paths). */
  ghost predicate KeysDistinct<T>(s: seq<T>, key: T -> string)
  {
    forall i, j :: 0 <= i < |s| && 0 <= j < |s| && key(s[i]) == key(s[j]) ==> s[i] == s[j]
  }

  /** Places `x` before the first element whose key is not below its own. */
  function Insert<T>(x: T, s: seq<T>, key: T -> string): seq<T>
  {
    if s == [] then [x]
    else if Less(key(s[0]), key(x)) then [s[0]] + Insert(x, s[1..], key)
    else [x] + s
  }

  /** The model of `sort.Sort` with a `byName` ordering. */
  function SortBy<T>(s: seq<T>, key: T -> string): seq<T>
  {
    if s == [] then [] else Insert(s[0], SortBy(s[1..], key), key)
  }

  lemma {:induction false} InsertPermutes<T>(x: T, s: seq<T>, key: T -> string)
    ensures multiset(Insert(x, s, key)) == multiset(s) + multiset{x}
  {
    if s != [] && Less(key(s[0]), key(x)) {
      InsertPermutes(x, s[1..], key);
      assert s == [s[0]] + s[1..];
    }
  }

  lemma {:induction false} InsertSorted<T>(x: T, s: seq<T>, key: T -> string)
    requires SortedBy(s, key)
    ensures SortedBy(Insert(x, s, key), key)
  {
    var r := Insert(x, s, key);
    if s == [] {
    } else if Less(key(s[0]), key(x)) {
      var t := s[1..];
      assert SortedBy(t, key);
      InsertSorted(x, t, key);
      InsertPermutes(x, t, key);
      var r' := Insert(x, t, key);
      assert r == [s[0]] + r';
      forall i, j | 0 <= i < j < |r|
        ensures !Less(key(r[j]), key(r[i]))
      {
        if i == 0 {
          var y := r'[j - 1];
          assert y in multiset(r');
          assert y == x || y in multiset(t);
          if y == x {
            LessAsymmetric(key(s[0]), key(x));
          } else {
            var k :| 0 <= k < |t| && t[k] == y;
            assert s[k + 1] == y;
          }
        }
      }
    } else {
      forall i, j | 0 <= i < j < |r|
        ensures !Less(key(r[j]), key(r[i]))
      {
        if i == 0 {
          // r[j] == s[j - 1] and key(s[0]) is not below key(x)
          var y := s[j - 1];
          assert r[j] == y;
          if Less(key(y), key(x)) {
            LessTotal(key(s[0]), key(x));
            if j - 1 > 0 {
              assert !Less(key(y), key(s[0]));
              LessTotal(key(y), key(s[0]));
              if key(y) != key(s[0]) {
                LessTransitive(key(s[0]), key(y), key(x));
              }
            }
          }
        } else {
          assert r[i] == s[i - 1] && r[j] == s[j - 1];
        }
      }
    }
  }

  /** The model of `sort.Sort`: the result is in order ... */
  lemma {:induction false} SortSorted<T>(s: seq<T>, key: T -> string)
    ensures SortedBy(SortBy(s, key), key)
  {
    if s != [] {
      SortSorted(s[1..], key);
      InsertSorted(s[0], SortBy(s[1..], key), key);
    }
  }

  /** ... and a permutation of the input. */
  lemma {:induction false} SortPermutes<T>(s: seq<T>, key: T -> string)
    ensures multiset(SortBy(s, key)) == multiset(s)
  {
    if s != [] {
      SortPermutes(s[1..], key);
      InsertPermutes(s[0], SortBy(s[1..], key), key);
      assert s == [s[0]] + s[1..];
    }
  }

  lemma HeadsEqual<T>(a: seq<T>, b: seq<T>, key: T -> string)
    requires SortedBy(a, key) && SortedBy(b, key)
    requires multiset(a) == multiset(b)
    requires KeysDistinct(a, key)
    requires a != []
    ensures b != [] && a[0] == b[0]
  {
    assert a[0] in multiset(b);
    var k :| 0 <= k < |b| && b[k] == a[0];
    assert b[0] in multiset(a);
    var m :| 0 <= m < |a| && a[m] == b[0];
    if a[0] != b[0] {
      assert !Less(key(a[0]), key(b[0]));
      assert !Less(key(b[0]), key(a[0]));
      LessTotal(key(a[0]), key(b[0]));
    }
  }

  lemma Tail<T>(s: seq<T>, key: T -> string)
    requires s != []
    ensures multiset(s[1..]) == multiset(s) - multiset{s[0]}
    ensures SortedBy(s, key) ==> SortedBy(s[1..], key)
    ensures KeysDistinct(s, key) ==> KeysDistinct(s[1..], key)
  {
    assert s == [s[0]] + s[1..];
  }

  /** Two sorted permutations of one collection with distinct keys are the same sequence. */
  lemma {:induction false} SortedUnique<T>(a: seq<T>, b: seq<T>, key: T -> string)
    requires SortedBy(a, key) && SortedBy(b, key)
    requires multiset(a) == multiset(b)
    requires KeysDistinct(a, key)
    ensures a == b
  {
    if a == [] {
      assert |b| == |multiset(b)| == 0;
    } else {
      HeadsEqual(a, b, key);
      Tail(a, key);
      Tail(b, key);
      assert multiset(a[1..]) == multiset(b[1..]);
      assert SortedBy(a[1..], key) && SortedBy(b[1..], key) && KeysDistinct(a[1..], key);
      SortedUnique(a[1..], b[1..], key);
      assert a == [a[0]] + a[1..] && b == [b[0]] + b[1..];
    }
  }

  /** The order in which the input was enumerated does not matter. */
  lemma SortIgnoresOrder<T>(a: seq<T>, b: seq<T>, key: T -> string)
    requires multiset(a) == multiset(b)
    requires KeysDistinct(a, key)
    ensures SortBy(a, key) == SortBy(b, key)
  {
    var sa, sb := SortBy(a, key), SortBy(b, key);
    SortSorted(a, key);
    SortSorted(b, key);
    SortPermutes(a, key);
    SortPermutes(b, key);
    forall i, j | 0 <= i < |sa| && 0 <= j < |sa| && key(sa[i]) == key(sa[j])
      ensures sa[i] == sa[j]
    {
      assert sa[i] in multiset(a) && sa[j] in multiset(a);
      var p :| 0 <= p < |a| && a[p] == sa[i];
      var q :| 0 <= q < |a| && a[q] == sa[j];
    }
    SortedUnique(sa, sb, key);
  }

  /** No two positions of `s` hold the same key. */
  ghost predicate KeysUnique<T>(s: seq<T>, key: T -> string)
  {
    forall i, j :: 0 <= i < j < |s| ==> key(s[i]) != key(s[j])
  }

  lemma {:induction false} InsertUnique<T>(x: T, s: seq<T>, key: T -> string)
    requires KeysUnique(s, key)
    requires forall k :: 0 <= k < |s| ==> key(s[k]) != key(x)
    ensures KeysUnique(Insert(x, s, key), key)
  {
    if s != [] && Less(key(s[0]), key(x)) {
      var t := s[1..];
      InsertUnique(x, t, key);
      InsertPermutes(x, t, key);
      var r' := Insert(x, t, key);
      forall j | 0 <= j < |r'|
        ensures key(r'[j]) != key(s[0])
      {
        assert r'[j] in multiset(t) + multiset{x};
        if r'[j] != x {
          var k :| 0 <= k < |t| && t[k] == r'[j];
          assert s[k + 1] == t[k];
        } else {
          LessIrreflexive(key(x));
        }
      }
    }
  }

  /** Sorting keeps the keys of different positions different, so the order it gives is strict. */
  lemma {:induction false} SortUnique<T>(s: seq<T>, key: T -> string)
    requires KeysUnique(s, key)
    ensures KeysUnique(SortBy(s, key), key)
    ensures forall i, j :: 0 <= i < j < |SortBy(s, key)| ==> Less(key(SortBy(s, key)[i]), key(SortBy(s, key)[j]))
  {
    var r := SortBy(s, key);
    if s != [] {
      var t := s[1..];
      assert KeysUnique(t, key);
      SortUnique(t, key);
      SortPermutes(t, key);
      var st := SortBy(t, key);
      forall k | 0 <= k < |st|
        ensures key(st[k]) != key(s[0])
      {
        assert st[k] in multiset(t);
        var m :| 0 <= m < |t| && t[m] == st[k];
        assert s[m + 1] == t[m];
      }
      InsertUnique(s[0], st, key);
    }
    SortSorted(s, key);
    forall i, j | 0 <= i < j < |r|
      ensures Less(key(r[i]), key(r[j]))
    {
      LessTotal(key(r[i]), key(r[j]));
    }
  }

  /** The key of a dependency path is the path itself (job.go's `byName`). */
  function PathKey(p: string): string { p }

  /** Strings are their own keys, so paths always have distinct keys. */
  lemma PathKeysDistinct(s: seq<string>)
    ensures KeysDistinct(s, PathKey)
  {
  }
}
