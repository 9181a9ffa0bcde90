/**
 Sorting by a lexicographic key, as `np.lexsort`, `sorted` and `json.dumps(sort_keys=True)` do.

 A sort code is one list of integers per key column: a single number for numeric columns, the
 code points for text. The order is total, so a sequence without equal codes has one sorted form.
 */
module Orders {

  type Code = seq<seq<int>>

  predicate LexLess(a: seq<int>, b: seq<int>) {
    b != [] && (a == [] || a[0] < b[0] || (a[0] == b[0] && LexLess(a[1..], b[1..])))
  }

  predicate CodeLess(a: Code, b: Code) {
    b != [] && (a == [] || LexLess(a[0], b[0]) || (a[0] == b[0] && CodeLess(a[1..], b[1..])))
  }

  lemma {:induction false} LexLessTotal(a: seq<int>, b: seq<int>)
    ensures !(LexLess(a, b) && LexLess(b, a))
    ensures a == b <==> !LexLess(a, b) && !LexLess(b, a)
  {
    if a != [] && b != [] {
      LexLessTotal(a[1..], b[1..]);
      assert a == [a[0]] + a[1..] && b == [b[0]] + b[1..];
    }
  }

  lemma {:induction false} LexLessTransitive(a: seq<int>, b: seq<int>, c: seq<int>)
    requires LexLess(a, b) && LexLess(b, c)
    ensures LexLess(a, c)
  {
    if a != [] && a[0] == b[0] == c[0] {
      LexLessTransitive(a[1..], b[1..], c[1..]);
    }
  }

  lemma {:induction false} CodeLessTotal(a: Code, b: Code)
    ensures !(CodeLess(a, b) && CodeLess(b, a))
    ensures a == b <==> !CodeLess(a, b) && !CodeLess(b, a)
  {
    if a != [] && b != [] {
      LexLessTotal(a[0], b[0]);
      CodeLessTotal(a[1..], b[1..]);
      assert a == [a[0]] + a[1..] && b == [b[0]] + b[1..];
    }
  }

  lemma {:induction false} CodeLessTransitive(a: Code, b: Code, c: Code)
    requires CodeLess(a, b) && CodeLess(b, c)
    ensures CodeLess(a, c)
  {
    if a != [] {
      LexLessTotal(a[0], b[0]);
      LexLessTotal(b[0], c[0]);
      if LexLess(a[0], b[0]) && LexLess(b[0], c[0]) {
        LexLessTransitive(a[0], b[0], c[0]);
      } else if a[0] == b[0] == c[0] {
        CodeLessTransitive(a[1..], b[1..], c[1..]);
      }
    }
  }

  // ----- Index permutations and sorting

  predicate Distinct<T(==)>(s: seq<T>) {
    forall i, j :: 0 <= i < j < |s| ==> s[i] != s[j]
  }

  /** `order` lists every index below `n` exactly once. */
  ghost predicate Permutation(order: seq<nat>, n: nat) {
    && |order| == n
    && Distinct(order)
    && (forall k :: 0 <= k < n ==> order[k] < n)
    && (forall i: nat :: i < n ==> i in order)
  }

  function Permute<T>(s: seq<T>, order: seq<nat>): (r: seq<T>)
    requires forall k :: 0 <= k < |order| ==> order[k] < |s|
    ensures |r| == |order|
    ensures forall k :: 0 <= k < |order| ==> r[k] == s[order[k]]
  {
    seq(|order|, k requires 0 <= k < |order| => s[order[k]])
  }

  predicate SortedOn(codes: seq<Code>, order: seq<nat>)
    requires forall k :: 0 <= k < |order| ==> order[k] < |codes|
  {
    forall i, j :: 0 <= i < j < |order| ==> !CodeLess(codes[order[j]], codes[order[i]])
  }

  predicate StrictlySorted(codes: seq<Code>) {
    forall i, j :: 0 <= i < j < |codes| ==> CodeLess(codes[i], codes[j])
  }

  /** `index` put after every entry of `order` whose code is not greater: a stable sort's insertion. */
  function Insert(codes: seq<Code>, order: seq<nat>, index: nat): (r: seq<nat>)
    requires index < |codes| && forall k :: 0 <= k < |order| ==> order[k] < |codes|
    ensures |r| == |order| + 1
    ensures forall x: nat :: x in r <==> x == index || x in order
    ensures forall k :: 0 <= k < |r| ==> r[k] < |codes|
  {
    if order == [] || !CodeLess(codes[index], codes[order[|order| - 1]]) then order + [index]
    else
      var last := order[|order| - 1];
      assert order == order[..|order| - 1] + [last];
      Insert(codes, order[..|order| - 1], index) + [last]
  }

  /** The order a stable sort puts the first `n` rows in. */
  function SortOrder(codes: seq<Code>, n: nat): (order: seq<nat>)
    requires n <= |codes|
    ensures |order| == n
    ensures forall k :: 0 <= k < n ==> order[k] < |codes|
  {
    if n == 0 then [] else Insert(codes, SortOrder(codes, n - 1), n - 1)
  }

  lemma {:induction false} InsertSorted(codes: seq<Code>, order: seq<nat>, index: nat)
    requires index < |codes| && forall k :: 0 <= k < |order| ==> order[k] < |codes|
    requires SortedOn(codes, order)
    ensures SortedOn(codes, Insert(codes, order, index))
  {
    if order == [] {
    } else {
      var front, last := order[..|order| - 1], order[|order| - 1];
      assert order == front + [last];
      if CodeLess(codes[index], codes[last]) {
        InsertSorted(codes, front, index);
        var r := Insert(codes, front, index);
        forall i | 0 <= i < |r|
          ensures !CodeLess(codes[last], codes[r[i]])
        {
          assert r[i] in r;
          if r[i] == index {
            CodeLessTotal(codes[index], codes[last]);
          } else {
            assert r[i] in front;
          }
        }
      } else {
        forall i | 0 <= i < |order|
          ensures !CodeLess(codes[index], codes[order[i]])
        {
          if CodeLess(codes[index], codes[order[i]]) {
            CodeLessTotal(codes[last], codes[order[i]]);
            if codes[last] != codes[order[i]] {
              CodeLessTransitive(codes[index], codes[order[i]], codes[last]);
            }
          }
        }
      }
    }
  }

  lemma {:induction false} InsertDistinct(codes: seq<Code>, order: seq<nat>, index: nat)
    requires index < |codes| && forall k :: 0 <= k < |order| ==> order[k] < |codes|
    requires Distinct(order) && index !in order
    ensures Distinct(Insert(codes, order, index))
  {
    if order != [] && CodeLess(codes[index], codes[order[|order| - 1]]) {
      var front, last := order[..|order| - 1], order[|order| - 1];
      assert order == front + [last];
      InsertDistinct(codes, front, index);
      assert last !in front;
      assert last !in Insert(codes, front, index);
    }
  }

  lemma {:induction false} SortOrderIsPermutation(codes: seq<Code>, n: nat)
    requires n <= |codes|
    ensures Permutation(SortOrder(codes, n), n)
  {
    if n > 0 {
      var front := SortOrder(codes, n - 1);
      SortOrderIsPermutation(codes, n - 1);
      assert n - 1 !in front;
      InsertDistinct(codes, front, n - 1);
      var order := Insert(codes, front, n - 1);
      assert order == SortOrder(codes, n);
      forall k | 0 <= k < n
        ensures order[k] < n
      {
        assert order[k] in order;
      }
    }
  }

  lemma {:induction false} SortOrderSorts(codes: seq<Code>, n: nat)
    requires n <= |codes|
    ensures SortedOn(codes, SortOrder(codes, n))
  {
    if n > 0 {
      hide Insert, SortedOn;
      SortOrderSorts(codes, n - 1);
      InsertSorted(codes, SortOrder(codes, n - 1), n - 1);
    } else {
      assert SortOrder(codes, 0) == [];
    }
  }

  /** Sorted, and neighbours differ: strictly sorted. */
  lemma SortedWithoutRepeats(codes: seq<Code>, order: seq<nat>)
    requires forall k :: 0 <= k < |order| ==> order[k] < |codes|
    requires SortedOn(codes, order)
    requires forall k :: 0 <= k < |order| - 1 ==> codes[order[k]] != codes[order[k + 1]]
    ensures StrictlySorted(Permute(codes, order))
  {
    var s := Permute(codes, order);
    forall i, j | 0 <= i < j < |s|
      ensures CodeLess(s[i], s[j])
    {
      assert !CodeLess(s[j], s[i + 1]) || i + 1 == j;
      CodeLessTotal(s[i], s[j]);
      CodeLessTotal(s[i], s[i + 1]);
    }
  }

  function CodesOf<T>(a: seq<T>, code: T -> Code): (codes: seq<Code>)
    ensures |codes| == |a|
    ensures forall i :: 0 <= i < |a| ==> codes[i] == code(a[i])
  {
    seq(|a|, i requires 0 <= i < |a| => code(a[i]))
  }

  /** A sequence strictly sorted by `code` is determined by the set of its elements. */
  lemma {:induction false} StrictlySortedUnique<T>(a: seq<T>, b: seq<T>, code: T -> Code)
    requires StrictlySorted(CodesOf(a, code)) && StrictlySorted(CodesOf(b, code))
    requires forall x :: x in a <==> x in b
    ensures a == b
  {
    hide StrictlySorted, CodesOf;
    assert a != [] ==> a[0] in a;
    assert b != [] ==> b[0] in b;
    if a != [] {
      SameLeast(a, b, code);
      TailElements(a, code);
      TailElements(b, code);
      StrictlySortedUnique(a[1..], b[1..], code);
      assert a == [a[0]] + a[1..] && b == [b[0]] + b[1..];
    }
  }

  lemma SameLeast<T>(a: seq<T>, b: seq<T>, code: T -> Code)
    requires a != [] && b != [] && a[0] in b && b[0] in a
    requires StrictlySorted(CodesOf(a, code)) && StrictlySorted(CodesOf(b, code))
    ensures a[0] == b[0]
  {
    LeastCode(a, b[0], code);
    LeastCode(b, a[0], code);
    hide CodeLess;
    CodeLessTotal(code(a[0]), code(b[0]));
  }

  lemma LeastCode<T>(a: seq<T>, x: T, code: T -> Code)
    requires x in a && StrictlySorted(CodesOf(a, code))
    ensures x == a[0] || CodeLess(code(a[0]), code(x))
  {
    hide CodeLess;
    var i :| 0 <= i < |a| && a[i] == x;
    var codes := CodesOf(a, code);
    assert i > 0 ==> CodeLess(codes[0], codes[i]);
  }

  lemma TailElements<T>(a: seq<T>, code: T -> Code)
    requires a != [] && StrictlySorted(CodesOf(a, code))
    ensures StrictlySorted(CodesOf(a[1..], code))
    ensures forall x :: x in a[1..] <==> x in a && x != a[0]
  {
    hide CodeLess;
    var codes := CodesOf(a, code);
    assert CodesOf(a[1..], code) == codes[1..];
    forall i | 0 < i < |a|
      ensures a[i] != a[0]
    {
      assert CodeLess(codes[0], codes[i]);
      CodeLessTotal(codes[0], codes[i]);
    }
    assert a == [a[0]] + a[1..];
  }
}
