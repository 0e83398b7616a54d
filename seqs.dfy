/** Generic sequence helpers standing in for the query primitives of the
    document store (find = filter, countDocuments = count, sort = reverse of
    insertion order) and for JavaScript's Array.prototype.some/every. */
module Seqs {

  datatype Option<+T> = None | Some(value: T)

  /** The elements of `s` that satisfy `f`, in their original order. */
  function Filter<T>(f: T -> bool, s: seq<T>): (r: seq<T>)
    ensures |r| <= |s|
    ensures forall i :: 0 <= i < |r| ==> f(r[i]) && r[i] in s
    ensures forall x :: x in s && f(x) ==> x in r
  {
    if |s| == 0 then []
    else if f(s[0]) then [s[0]] + Filter(f, s[1..])
    else Filter(f, s[1..])
  }

  /** The number of elements of `s` that satisfy `f`. */
  function Count<T>(f: T -> bool, s: seq<T>): (n: nat)
    ensures n <= |s|
  {
    |Filter(f, s)|
  }

  /** The position of the first element of `s` that satisfies `f`. */
  function FirstIndex<T>(f: T -> bool, s: seq<T>): (r: Option<nat>)
    ensures r.Some? ==> r.value < |s| && f(s[r.value])
    ensures r.Some? ==> forall j :: 0 <= j < r.value ==> !f(s[j])
    ensures r.None? <==> forall x :: x in s ==> !f(x)
  {
    if |s| == 0 then None
    else if f(s[0]) then Some(0)
    else
      var k := FirstIndex(f, s[1..]);
      if k.None? then None else Some(k.value + 1)
  }

  /** The first element of `s` that satisfies `f` (a `findOne`). */
  function FindFirst<T>(f: T -> bool, s: seq<T>): (r: Option<T>)
    ensures r.Some? ==> f(r.value) && r.value in s
    ensures r.None? <==> forall x :: x in s ==> !f(x)
  {
    var k := FirstIndex(f, s);
    if k.None? then None else Some(s[k.value])
  }

  /** `findOne` looks at the head first. */
  lemma FindFirstCons<T>(f: T -> bool, s: seq<T>)
    requires |s| > 0
    ensures FindFirst(f, s) == if f(s[0]) then Some(s[0]) else FindFirst(f, s[1..])
  {
    if !f(s[0]) {
      var k := FirstIndex(f, s[1..]);
      if k.Some? {
        assert s[k.value + 1] == s[1..][k.value];
      }
    }
  }

  /** After appending, `findOne` still finds an earlier match first, and otherwise the new element if it matches. */
  lemma {:induction false} FindFirstAppend<T>(f: T -> bool, s: seq<T>, x: T)
    ensures FindFirst(f, s + [x]) ==
      if FindFirst(f, s).Some? then FindFirst(f, s) else if f(x) then Some(x) else None
  {
    if |s| == 0 {
      FindFirstCons(f, [x]);
      assert [x][1..] == [];
    } else {
      FindFirstCons(f, s);
      FindFirstCons(f, s + [x]);
      assert (s + [x])[1..] == s[1..] + [x];
      FindFirstAppend(f, s[1..], x);
    }
  }

  /** Removing only elements that `f` rejects does not change the first match of `f`. */
  lemma {:induction false} FindFirstFilter<T>(f: T -> bool, g: T -> bool, s: seq<T>)
    requires forall x :: f(x) ==> g(x)
    ensures FindFirst(f, Filter(g, s)) == FindFirst(f, s)
  {
    if |s| > 0 {
      FindFirstFilter(f, g, s[1..]);
      FindFirstCons(f, s);
      if g(s[0]) {
        FindFirstCons(f, [s[0]] + Filter(g, s[1..]));
        assert ([s[0]] + Filter(g, s[1..]))[1..] == Filter(g, s[1..]);
      }
    }
  }

  /** `R` holds of every pair of elements, taken in their order in `s`. */
  ghost predicate Pairwise<T>(R: (T, T) -> bool, s: seq<T>) {
    forall i, j :: 0 <= i < j < |s| ==> R(s[i], s[j])
  }

  lemma PairwiseAppend<T>(R: (T, T) -> bool, s: seq<T>, x: T)
    requires Pairwise(R, s)
    requires forall y :: y in s ==> R(y, x)
    ensures Pairwise(R, s + [x])
  {
    var t := s + [x];
    forall i, j | 0 <= i < j < |t| ensures R(t[i], t[j]) {
      assert t[i] == s[i];
      if j < |s| {
        assert t[j] == s[j];
      }
    }
  }

  lemma PairwiseUpdate<T>(R: (T, T) -> bool, s: seq<T>, k: nat, x: T)
    requires Pairwise(R, s) && k < |s|
    requires forall i :: 0 <= i < k ==> R(s[i], x)
    requires forall j :: k < j < |s| ==> R(x, s[j])
    ensures Pairwise(R, s[k := x])
  {
  }

  lemma {:induction false} FilterPairwise<T>(R: (T, T) -> bool, f: T -> bool, s: seq<T>)
    requires Pairwise(R, s)
    ensures Pairwise(R, Filter(f, s))
  {
    if |s| > 0 {
      assert Pairwise(R, s[1..]) by {
        forall i, j | 0 <= i < j < |s| - 1 ensures R(s[1..][i], s[1..][j]) {
          assert s[1..][i] == s[i + 1] && s[1..][j] == s[j + 1];
        }
      }
      FilterPairwise(R, f, s[1..]);
      var r := Filter(f, s[1..]);
      if f(s[0]) {
        var t := [s[0]] + r;
        forall i, j | 0 <= i < j < |t| ensures R(t[i], t[j]) {
          if i == 0 {
            assert t[j] in s[1..];
            var k :| 0 <= k < |s| - 1 && s[1..][k] == t[j];
            assert s[k + 1] == t[j];
          } else {
            assert t[i] == r[i - 1] && t[j] == r[j - 1];
          }
        }
      }
    }
  }

  function Reverse<T>(s: seq<T>): (r: seq<T>)
    ensures |r| == |s|
    ensures forall i :: 0 <= i < |s| ==> r[i] == s[|s| - 1 - i]
    ensures forall x :: x in r ==> x in s
    ensures forall x :: x in s ==> x in r
  {
    if |s| == 0 then [] else Reverse(s[1..]) + [s[0]]
  }

  /** `key` never decreases along `s`. */
  ghost predicate Ascending<T>(key: T -> int, s: seq<T>) {
    forall i, j :: 0 <= i < j < |s| ==> key(s[i]) <= key(s[j])
  }

  /** `key` never increases along `s`. */
  ghost predicate Descending<T>(key: T -> int, s: seq<T>) {
    forall i, j :: 0 <= i < j < |s| ==> key(s[i]) >= key(s[j])
  }

  /** Filtering keeps the relative order, so it keeps an ascending key ascending. */
  lemma {:induction false} FilterAscending<T>(key: T -> int, f: T -> bool, s: seq<T>)
    requires Ascending(key, s)
    ensures Ascending(key, Filter(f, s))
  {
    if |s| > 0 {
      FilterAscending(key, f, s[1..]);
      var r := Filter(f, s[1..]);
      if f(s[0]) {
        forall i, j | 0 <= i < j < |[s[0]] + r|
          ensures key(([s[0]] + r)[i]) <= key(([s[0]] + r)[j])
        {
          if i == 0 {
            var k :| 0 <= k < |s| && s[k] == r[j - 1];
            assert k == 0 || key(s[0]) <= key(s[k]);
          }
        }
      }
    }
  }

  lemma AscendingAppend<T>(key: T -> int, s: seq<T>, x: T)
    requires Ascending(key, s)
    requires forall y :: y in s ==> key(y) <= key(x)
    ensures Ascending(key, s + [x])
  {
    var t := s + [x];
    forall i, j | 0 <= i < j < |t| ensures key(t[i]) <= key(t[j]) {
      assert t[i] == s[i];
      if j < |s| {
        assert t[j] == s[j];
      }
    }
  }

  /** Reversing an ascending sequence gives a descending one. */
  lemma ReverseAscending<T>(key: T -> int, s: seq<T>)
    requires Ascending(key, s)
    ensures Descending(key, Reverse(s))
  {
    var r := Reverse(s);
    forall i, j | 0 <= i < j < |r| ensures key(r[i]) >= key(r[j]) {
      assert r[i] == s[|s| - 1 - i] && r[j] == s[|s| - 1 - j];
    }
  }

  /** When every element satisfies exactly one of four conditions, their counts add up to the length. */
  lemma {:induction false} PartitionCounts<T>(a: T -> bool, b: T -> bool, c: T -> bool, d: T -> bool, s: seq<T>)
    requires forall x :: x in s ==>
      (a(x) || b(x) || c(x) || d(x))
      && !(a(x) && b(x)) && !(a(x) && c(x)) && !(a(x) && d(x))
      && !(b(x) && c(x)) && !(b(x) && d(x)) && !(c(x) && d(x))
    ensures Count(a, s) + Count(b, s) + Count(c, s) + Count(d, s) == |s|
  {
    if |s| > 0 {
      PartitionCounts(a, b, c, d, s[1..]);
    }
  }

  /** Filtering out only the appended element gives back the original sequence. */
  lemma {:induction false} FilterDropsLast<T>(f: T -> bool, s: seq<T>, x: T)
    requires forall y :: y in s ==> f(y)
    requires !f(x)
    ensures Filter(f, s + [x]) == s
  {
    if |s| > 0 {
      assert (s + [x])[1..] == s[1..] + [x];
      FilterDropsLast(f, s[1..], x);
    }
  }
}
