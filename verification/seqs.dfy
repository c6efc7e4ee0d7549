/** The optional value JavaScript expresses with null/undefined. */
module Options {

  datatype Option<+T> = None | Some(value: T)
}

/**
  Sequence operations shared by the whole model: Array.prototype.filter, and
  the stable descending sort that Array.prototype.sort performs with a
  comparator of the form (a, b) => key(b) - key(a).
 */
module Seqs {

  /** Array.prototype.filter: the elements satisfying p, in their original order. */
  function Filter<T>(s: seq<T>, p: T -> bool): (r: seq<T>)
    ensures |r| <= |s|
  {
    if |s| == 0 then []
    else (if p(s[0]) then [s[0]] else []) + Filter(s[1..], p)
  }

  /** The elements kept by Filter are exactly those of s satisfying p. */
  lemma {:induction false} FilterMembers<T>(s: seq<T>, p: T -> bool)
    ensures forall x :: x in Filter(s, p) <==> x in s && p(x)
  {
    if |s| > 0 {
      FilterMembers(s[1..], p);
      assert s == [s[0]] + s[1..];
    }
  }

  lemma {:induction false} FilterConcat<T>(a: seq<T>, b: seq<T>, p: T -> bool)
    ensures Filter(a + b, p) == Filter(a, p) + Filter(b, p)
    decreases |a|
  {
    if |a| > 0 {
      assert (a + b)[1..] == a[1..] + b;
      FilterConcat(a[1..], b, p);
    } else {
      assert a + b == b;
    }
  }

  lemma {:induction false} FilterKeptMember<T>(s: seq<T>, p: T -> bool, y: T)
    requires y in Filter(s, p)
    ensures y in s && p(y)
  {
    if |s| > 0 && !(p(s[0]) && y == s[0]) {
      assert y in Filter(s[1..], p);
      FilterKeptMember(s[1..], p, y);
    }
  }

  /** Filter keeps every copy of a qualifying element and no copy of any other. */
  lemma {:induction false} FilterCount<T>(s: seq<T>, p: T -> bool)
    ensures forall x :: multiset(Filter(s, p))[x] == if p(x) then multiset(s)[x] else 0
  {
    if |s| > 0 {
      FilterCount(s[1..], p);
      assert s == [s[0]] + s[1..];
    }
  }

  /** Filtering keeps everything when every element qualifies. */
  lemma {:induction false} FilterKeepsAll<T>(s: seq<T>, p: T -> bool)
    requires forall i :: 0 <= i < |s| ==> p(s[i])
    ensures Filter(s, p) == s
  {
    if |s| > 0 {
      FilterKeepsAll(s[1..], p);
    }
  }

  /** Two filters may be applied in either order. */
  lemma {:induction false} FilterCommute<T>(s: seq<T>, p: T -> bool, q: T -> bool)
    ensures Filter(Filter(s, p), q) == Filter(Filter(s, q), p)
  {
    if |s| > 0 {
      FilterCommute(s[1..], p, q);
      FilterConcat(if p(s[0]) then [s[0]] else [], Filter(s[1..], p), q);
      FilterConcat(if q(s[0]) then [s[0]] else [], Filter(s[1..], q), p);
    }
  }

  /** Filtering by a conjunction is filtering twice. */
  lemma {:induction false} FilterAnd<T>(s: seq<T>, p: T -> bool, q: T -> bool, r: T -> bool)
    requires forall x :: r(x) == (p(x) && q(x))
    ensures Filter(s, r) == Filter(Filter(s, p), q)
  {
    if |s| > 0 {
      FilterAnd(s[1..], p, q, r);
      FilterConcat(if p(s[0]) then [s[0]] else [], Filter(s[1..], p), q);
    }
  }

  /** A filter that rejects exactly one position removes exactly that element. */
  lemma {:induction false} FilterRemovesOnlyAt<T>(s: seq<T>, q: T -> bool, i: nat)
    requires i < |s| && !q(s[i])
    requires forall j :: 0 <= j < |s| && j != i ==> q(s[j])
    ensures Filter(s, q) == s[..i] + s[i + 1..]
  {
    if i == 0 {
      FilterKeepsAll(s[1..], q);
    } else {
      FilterRemovesOnlyAt(s[1..], q, i - 1);
      assert [s[0]] + (s[1..][..i - 1] + s[1..][i..]) == s[..i] + s[i + 1..];
    }
  }

  /** No element occurs twice. */
  predicate NoDup<T(==)>(s: seq<T>) {
    forall i, j :: 0 <= i < j < |s| ==> s[i] != s[j]
  }

  /** Filtering a duplicate-free sequence leaves it duplicate-free. */
  lemma {:induction false} FilterNoDup<T>(s: seq<T>, p: T -> bool)
    requires NoDup(s)
    ensures NoDup(Filter(s, p))
  {
    if |s| > 0 {
      FilterNoDup(s[1..], p);
      FilterMembers(s[1..], p);
      assert s[0] !in s[1..];
    }
  }

  /** Non-increasing by key, stated on neighbours. */
  predicate SortedDesc<T>(s: seq<T>, key: T -> int) {
    |s| <= 1 || (key(s[0]) >= key(s[1]) && SortedDesc(s[1..], key))
  }

  /** Neighbour-wise order is the same as order between every pair. */
  lemma {:induction false} SortedDescPairwise<T>(s: seq<T>, key: T -> int)
    ensures SortedDesc(s, key) <==> forall i, j :: 0 <= i < j < |s| ==> key(s[i]) >= key(s[j])
  {
    if |s| > 1 {
      SortedDescPairwise(s[1..], key);
      if SortedDesc(s, key) {
        forall i, j | 0 <= i < j < |s| ensures key(s[i]) >= key(s[j]) {
          if i > 0 {
            assert s[i] == s[1..][i - 1] && s[j] == s[1..][j - 1];
          } else if j > 1 {
            assert s[1] == s[1..][0] && s[j] == s[1..][j - 1];
          }
        }
      }
      if forall i, j :: 0 <= i < j < |s| ==> key(s[i]) >= key(s[j]) {
        forall i, j | 0 <= i < j < |s[1..]| ensures key(s[1..][i]) >= key(s[1..][j]) {
          assert s[1..][i] == s[i + 1] && s[1..][j] == s[j + 1];
        }
      }
    }
  }

  /** The predicate "has key k". */
  function HasKey<T>(key: T -> int, k: int): T -> bool {
    x => key(x) == k
  }

  /** Stability: elements sharing a key appear in the same relative order. */
  ghost predicate SameOrderPerKey<T>(a: seq<T>, b: seq<T>, key: T -> int) {
    forall k :: Filter(a, HasKey(key, k)) == Filter(b, HasKey(key, k))
  }

  /** Insert x before the first element whose key is not larger than its own. */
  function Insert<T>(x: T, t: seq<T>, key: T -> int): seq<T>
  {
    if |t| == 0 || key(t[0]) <= key(x) then [x] + t
    else [t[0]] + Insert(x, t[1..], key)
  }

  lemma {:induction false} InsertMultiset<T>(x: T, t: seq<T>, key: T -> int)
    ensures multiset(Insert(x, t, key)) == multiset(t) + multiset{x}
  {
    if |t| > 0 && key(t[0]) > key(x) {
      InsertMultiset(x, t[1..], key);
      assert t == [t[0]] + t[1..];
    }
  }

  lemma {:induction false} InsertSorted<T>(x: T, t: seq<T>, key: T -> int)
    requires SortedDesc(t, key)
    ensures SortedDesc(Insert(x, t, key), key)
    ensures |t| > 0 ==> Insert(x, t, key)[0] == (if key(t[0]) <= key(x) then x else t[0])
  {
    if |t| > 0 && key(t[0]) > key(x) {
      InsertSorted(x, t[1..], key);
      var rest := Insert(x, t[1..], key);
      assert Insert(x, t, key) == [t[0]] + rest;
      assert ([t[0]] + rest)[1..] == rest;
    } else {
      assert ([x] + t)[1..] == t;
    }
  }

  /** Insert puts x ahead of every element with its key and moves nothing else. */
  lemma {:induction false} InsertPerKey<T>(x: T, t: seq<T>, key: T -> int, k: int)
    ensures Filter(Insert(x, t, key), HasKey(key, k)) ==
            if key(x) == k then [x] + Filter(t, HasKey(key, k)) else Filter(t, HasKey(key, k))
  {
    var p := HasKey(key, k);
    if |t| == 0 || key(t[0]) <= key(x) {
      FilterConcat([x], t, p);
      assert Insert(x, t, key) == [x] + t;
      if key(x) == k {
        assert Filter([x], p) == [x];
      } else {
        assert Filter([x], p) == [];
      }
    } else {
      var rest := Insert(x, t[1..], key);
      assert Insert(x, t, key) == [t[0]] + rest;
      InsertPerKey(x, t[1..], key, k);
      FilterConcat([t[0]], rest, p);
      FilterConcat([t[0]], t[1..], p);
      assert t == [t[0]] + t[1..];
    }
  }

  /** The stable sort, descending by key: a sorted permutation of s that keeps
      equal-key elements in their original relative order. */
  function SortDesc<T>(s: seq<T>, key: T -> int): (r: seq<T>)
    ensures SortedDesc(r, key)
    ensures multiset(r) == multiset(s)
    ensures |r| == |s|
  {
    if |s| == 0 then []
    else
      var r := Insert(s[0], SortDesc(s[1..], key), key);
      InsertSorted(s[0], SortDesc(s[1..], key), key);
      InsertMultiset(s[0], SortDesc(s[1..], key), key);
      assert s == [s[0]] + s[1..];
      assert multiset(s) == multiset{s[0]} + multiset(s[1..]);
      assert |r| == |multiset(r)|;
      r
  }

  /** The sort is stable. */
  lemma {:induction false} SortDescStable<T>(s: seq<T>, key: T -> int)
    ensures SameOrderPerKey(SortDesc(s, key), s, key)
  {
    if |s| > 0 {
      SortDescStable(s[1..], key);
      forall k ensures Filter(SortDesc(s, key), HasKey(key, k)) == Filter(s, HasKey(key, k)) {
        InsertPerKey(s[0], SortDesc(s[1..], key), key, k);
        FilterConcat([s[0]], s[1..], HasKey(key, k));
        assert s == [s[0]] + s[1..];
      }
    }
  }

  lemma SortDescMembers<T>(s: seq<T>, key: T -> int)
    ensures forall x :: x in SortDesc(s, key) <==> x in s
  {
    var r := SortDesc(s, key);
    forall x ensures x in r <==> x in s {
      assert x in r <==> x in multiset(r);
      assert x in s <==> x in multiset(s);
    }
  }

  /** Sorting an already sorted sequence changes nothing. */
  lemma {:induction false} SortSortedIsIdentity<T>(s: seq<T>, key: T -> int)
    requires SortedDesc(s, key)
    ensures SortDesc(s, key) == s
  {
    if |s| > 0 {
      SortSortedIsIdentity(s[1..], key);
      assert SortDesc(s[1..], key) == s[1..];
    }
  }

  /** The head of a sorted sequence carries its largest key. */
  lemma {:induction false} SortedHeadIsMax<T>(t: seq<T>, y: T, key: T -> int)
    requires SortedDesc(t, key)
    requires y in t
    ensures key(y) <= key(t[0])
  {
    if t[0] != y {
      assert y in t[1..];
      SortedHeadIsMax(t[1..], y, key);
    }
  }

  /** Whatever a filter keeps of a sorted sequence is bounded by its head. */
  lemma FilterHeadBounded<T>(t: seq<T>, p: T -> bool, key: T -> int)
    requires SortedDesc(t, key)
    requires |Filter(t, p)| > 0
    ensures key(Filter(t, p)[0]) <= key(t[0])
  {
    var ft := Filter(t, p);
    FilterKeptMember(t, p, ft[0]);
    SortedHeadIsMax(t, ft[0], key);
  }

  lemma InsertAtFront<T>(x: T, t: seq<T>, key: T -> int)
    requires |t| == 0 || key(t[0]) <= key(x)
    ensures Insert(x, t, key) == [x] + t
  {
  }

  lemma FilterInsertFront<T>(x: T, t: seq<T>, key: T -> int, p: T -> bool)
    requires SortedDesc(t, key)
    requires |t| == 0 || key(t[0]) <= key(x)
    ensures Filter(Insert(x, t, key), p) == if p(x) then Insert(x, Filter(t, p), key) else Filter(t, p)
  {
    InsertAtFront(x, t, key);
    FilterConcat([x], t, p);
    var ft := Filter(t, p);
    if p(x) {
      assert Filter([x], p) == [x];
      if |ft| > 0 {
        FilterHeadBounded(t, p, key);
      }
      InsertAtFront(x, ft, key);
    } else {
      assert Filter([x], p) == [];
    }
  }

  lemma FilterInsertBehind<T>(x: T, t: seq<T>, key: T -> int, p: T -> bool)
    requires |t| > 0 && key(t[0]) > key(x)
    requires Filter(Insert(x, t[1..], key), p) ==
             if p(x) then Insert(x, Filter(t[1..], p), key) else Filter(t[1..], p)
    ensures Filter(Insert(x, t, key), p) == if p(x) then Insert(x, Filter(t, p), key) else Filter(t, p)
  {
    var y, r := t[0], t[1..];
    assert t == [y] + r;
    InsertCons(x, y, r, key);
    FilterCons(y, Insert(x, r, key), p);
    FilterCons(y, r, p);
    if p(y) && p(x) {
      InsertCons(x, y, Filter(r, p), key);
    }
  }

  /** Filtering a sequence with a known head. */
  lemma FilterCons<T>(y: T, r: seq<T>, p: T -> bool)
    ensures Filter([y] + r, p) == if p(y) then [y] + Filter(r, p) else Filter(r, p)
  {
    assert ([y] + r)[0] == y && ([y] + r)[1..] == r;
  }

  /** Inserting behind a head with a larger key. */
  lemma InsertCons<T>(x: T, y: T, r: seq<T>, key: T -> int)
    requires key(y) > key(x)
    ensures Insert(x, [y] + r, key) == [y] + Insert(x, r, key)
  {
    assert ([y] + r)[0] == y && ([y] + r)[1..] == r;
  }


  /** Filtering commutes with inserting into a sorted sequence. */
  lemma {:induction false} FilterInsert<T>(x: T, t: seq<T>, key: T -> int, p: T -> bool)
    requires SortedDesc(t, key)
    ensures Filter(Insert(x, t, key), p) == if p(x) then Insert(x, Filter(t, p), key) else Filter(t, p)
  {
    if |t| == 0 || key(t[0]) <= key(x) {
      FilterInsertFront(x, t, key, p);
    } else {
      assert SortedDesc(t[1..], key);
      FilterInsert(x, t[1..], key, p);
      FilterInsertBehind(x, t, key, p);
    }
  }

  /** Filtering commutes with the stable sort. */
  lemma {:induction false} SortFilterCommute<T>(s: seq<T>, key: T -> int, p: T -> bool)
    ensures SortDesc(Filter(s, p), key) == Filter(SortDesc(s, key), p)
  {
    if |s| > 0 {
      var sr := SortDesc(s[1..], key);
      assert SortDesc(s, key) == Insert(s[0], sr, key);
      SortFilterCommute(s[1..], key, p);
      FilterInsert(s[0], sr, key, p);
      FilterConcat([s[0]], s[1..], p);
      assert s == [s[0]] + s[1..];
      var fs := Filter(s, p);
      if p(s[0]) {
        assert Filter([s[0]], p) == [s[0]];
        assert fs == [s[0]] + Filter(s[1..], p);
        assert fs[0] == s[0] && fs[1..] == Filter(s[1..], p);
      } else {
        assert Filter([s[0]], p) == [];
        assert fs == Filter(s[1..], p);
      }
    }
  }

  /** Removing one element keeps a sequence sorted. */
  lemma RemoveKeepsSorted<T>(s: seq<T>, i: nat, key: T -> int)
    requires i < |s|
    requires SortedDesc(s, key)
    ensures SortedDesc(s[..i] + s[i + 1..], key)
  {
    var t := s[..i] + s[i + 1..];
    SortedDescPairwise(s, key);
    SortedDescPairwise(t, key);
    forall a, b | 0 <= a < b < |t| ensures key(t[a]) >= key(t[b]) {
      var a' := if a < i then a else a + 1;
      var b' := if b < i then b else b + 1;
      assert t[a] == s[a'] && t[b] == s[b'];
    }
  }

  /** A new maximum at the front of a sorted tail stays there when the former
      head is inserted behind it. */
  lemma InsertBehindMax<T>(y: T, u: T, rest: seq<T>, key: T -> int)
    requires key(y) < key(u)
    requires |rest| > 0 ==> key(rest[0]) <= key(y)
    ensures Insert(y, [u] + rest, key) == [u, y] + rest
  {
    assert ([u] + rest)[0] == u;
    assert ([u] + rest)[1..] == rest;
  }

  lemma ConsTwo<T>(u: T, y: T, r: seq<T>)
    ensures [u, y] + r == [u] + ([y] + r)
  {
  }

  /** One step of the insertion sort on a sequence with a known head. */
  lemma SortCons<T>(x: T, r: seq<T>, key: T -> int)
    ensures SortDesc([x] + r, key) == Insert(x, SortDesc(r, key), key)
  {
    assert ([x] + r)[0] == x && ([x] + r)[1..] == r;
  }

  lemma NewMaxAtHead<T>(s: seq<T>, u: T, key: T -> int)
    requires |s| > 0
    requires SortedDesc(s, key)
    requires forall j :: 1 <= j < |s| ==> key(s[j]) < key(u)
    ensures SortDesc(s[0 := u], key) == [u] + s[1..]
  {
    var tail := s[1..];
    TailBelowNewMax(s, u, key);
    SortCons(u, tail, key);
    SortSortedIsIdentity(tail, key);
    InsertAtFront(u, tail, key);
  }

  /** Replacing the head: the tail is sorted and starts no higher than u. */
  lemma TailBelowNewMax<T>(s: seq<T>, u: T, key: T -> int)
    requires |s| > 0
    requires SortedDesc(s, key)
    requires forall j :: 1 <= j < |s| ==> key(s[j]) < key(u)
    ensures s[0 := u] == [u] + s[1..]
    ensures SortedDesc(s[1..], key)
    ensures |s[1..]| == 0 || key(s[1..][0]) <= key(u)
  {
    if |s| > 1 {
      assert s[1..][0] == s[1];
    }
  }

  /** The tail of the sequence meets the requirements of the recursive step. */
  lemma MaxStepTail<T>(s: seq<T>, i: nat, u: T, key: T -> int)
    requires 0 < i < |s|
    requires SortedDesc(s, key)
    requires forall j :: 0 <= j < |s| && j != i ==> key(s[j]) < key(u)
    ensures SortedDesc(s[1..], key)
    ensures forall j :: 0 <= j < |s[1..]| && j != i - 1 ==> key(s[1..][j]) < key(u)
  {
    var tail := s[1..];
    forall j | 0 <= j < |tail| && j != i - 1 ensures key(tail[j]) < key(u) {
      assert tail[j] == s[j + 1];
    }
  }

  /** Replacing element i > 0 is replacing element i - 1 of the tail, and
      dropping it is dropping element i - 1 of the tail. */
  lemma ReplaceInTail<T>(s: seq<T>, i: nat, u: T)
    requires 0 < i < |s|
    ensures s[i := u] == [s[0]] + s[1..][i - 1 := u]
    ensures [s[0]] + (s[1..][..i - 1] + s[1..][i..]) == s[..i] + s[i + 1..]
  {
  }

  /** After dropping element i > 0, the first remaining tail element is no
      larger than the head. */
  lemma HeadBoundsRest<T>(s: seq<T>, i: nat, key: T -> int)
    requires 0 < i < |s|
    requires SortedDesc(s, key)
    ensures var r1 := s[1..][..i - 1] + s[1..][i..]; |r1| > 0 ==> key(r1[0]) <= key(s[0])
  {
    var r1 := s[1..][..i - 1] + s[1..][i..];
    if |r1| > 0 {
      SortedDescPairwise(s, key);
      assert r1[0] == s[if i == 1 then 2 else 1];
    }
  }

  /** The old head goes back in right behind the new maximum. */
  lemma MaxStepAssemble<T>(s: seq<T>, i: nat, u: T, key: T -> int)
    requires 0 < i < |s|
    requires SortedDesc(s, key)
    requires forall j :: 0 <= j < |s| && j != i ==> key(s[j]) < key(u)
    requires SortDesc(s[1..][i - 1 := u], key) == [u] + (s[1..][..i - 1] + s[1..][i..])
    ensures SortDesc(s[i := u], key) == [u] + (s[..i] + s[i + 1..])
  {
    assert key(s[0]) < key(u);
    var r1 := s[1..][..i - 1] + s[1..][i..];
    ReplaceInTail(s, i, u);
    SortCons(s[0], s[1..][i - 1 := u], key);
    HeadBoundsRest(s, i, key);
    InsertBehindMax(s[0], u, r1, key);
    ConsTwo(u, s[0], r1);
  }

  /** In a sorted sequence, replacing element i by one whose key is larger than
      every other key and sorting again moves it to the front and leaves the
      others in their order. */
  lemma {:induction false} SortMovesNewMaxToFront<T>(s: seq<T>, i: nat, u: T, key: T -> int)
    requires i < |s|
    requires SortedDesc(s, key)
    requires forall j :: 0 <= j < |s| && j != i ==> key(s[j]) < key(u)
    ensures SortDesc(s[i := u], key) == [u] + (s[..i] + s[i + 1..])
    decreases |s|, 1
  {
    if i == 0 {
      NewMaxAtHead(s, u, key);
    } else {
      SortMovesStep(s, i, u, key);
    }
  }

  /** The step for i > 0: the claim for the tail, with the old head put back. */
  lemma {:induction false} SortMovesStep<T>(s: seq<T>, i: nat, u: T, key: T -> int)
    requires 0 < i < |s|
    requires SortedDesc(s, key)
    requires forall j :: 0 <= j < |s| && j != i ==> key(s[j]) < key(u)
    ensures SortDesc(s[i := u], key) == [u] + (s[..i] + s[i + 1..])
    decreases |s|, 0
  {
    MaxStepTail(s, i, u, key);
    SortMovesNewMaxToFront(s[1..], i - 1, u, key);
    MaxStepAssemble(s, i, u, key);
  }
}
