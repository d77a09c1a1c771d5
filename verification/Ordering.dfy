/** Lexicographic order on code-unit sequences, and the stable sort by key that
    the program gets from Python's `sorted(..., key=...)`. */
module Ordering {

  type Key = seq<int>

  datatype Option<+T> = None | Some(value: T) {
    function GetOr(default: T): T {
      if None? then default else value
    }
  }

  lemma {:induction false} Assoc<T>(a: seq<T>, b: seq<T>, c: seq<T>)
    ensures (a + b) + c == a + (b + c)
  {
  }

  /** What a loop that has collected `done` will return, once the rest is known. */
  function Onto<T>(done: seq<T>, rest: Option<seq<T>>): Option<seq<T>> {
    match rest
    case None => None
    case Some(more) => Some(done + more)
  }

  lemma {:induction false} OntoStep<T>(done: seq<T>, x: T, rest: Option<seq<T>>)
    ensures Onto(done, Onto([x], rest)) == Onto(done + [x], rest)
  {
    if rest.Some? {
      Assoc(done, [x], rest.value);
    }
  }

  lemma {:induction false} OntoEnds<T>(done: seq<T>, rest: Option<seq<T>>)
    ensures Onto([], rest) == rest
    ensures Onto(done, Some([])) == Some(done)
  {
    assert done + [] == done;
    if rest.Some? {
      assert [] + rest.value == rest.value;
    }
  }

  /** Python's `a < b` on bytes and on strings, element by element. */
  predicate Less(a: Key, b: Key)
    decreases |a|
  {
    b != [] && (a == [] || a[0] < b[0] || (a[0] == b[0] && Less(a[1..], b[1..])))
  }

  lemma {:induction false} LessTotal(a: Key, b: Key)
    ensures Less(a, b) || a == b || Less(b, a)
    ensures !(Less(a, b) && Less(b, a)) && !Less(a, a)
    decreases |a|
  {
    if a != [] && b != [] {
      LessTotal(a[1..], b[1..]);
      LessTotal(a[1..], a[1..]);
      assert a == [a[0]] + a[1..] && b == [b[0]] + b[1..];
    } else if a != [] {
      LessTotal(a[1..], a[1..]);
    }
  }

  lemma {:induction false} LessTransitive(a: Key, b: Key, c: Key)
    requires Less(a, b) && Less(b, c)
    ensures Less(a, c)
    decreases |a|
  {
    if a != [] && a[0] == b[0] == c[0] {
      LessTransitive(a[1..], b[1..], c[1..]);
    }
  }

  /** Keys strictly increasing from left to right: sorted and without duplicates. */
  ghost predicate StrictlySorted<T>(key: T -> Key, s: seq<T>) {
    forall i, j :: 0 <= i < j < |s| ==> Less(key(s[i]), key(s[j]))
  }

  ghost predicate DistinctKeys<T>(key: T -> Key, s: seq<T>) {
    forall i, j :: 0 <= i < j < |s| ==> key(s[i]) != key(s[j])
  }

  function Insert<T>(key: T -> Key, x: T, s: seq<T>): seq<T> {
    if s == [] || Less(key(x), key(s[0])) then [x] + s else [s[0]] + Insert(key, x, s[1..])
  }

  /** Insertion sort. Inserting from the right end keeps equal keys in their order. */
  function SortBy<T>(key: T -> Key, s: seq<T>): seq<T> {
    if s == [] then [] else Insert(key, s[|s| - 1], SortBy(key, s[..|s| - 1]))
  }

  lemma {:induction false} InsertElements<T>(key: T -> Key, x: T, s: seq<T>)
    ensures multiset(Insert(key, x, s)) == multiset(s) + multiset{x}
    ensures |Insert(key, x, s)| == |s| + 1
  {
    if s == [] || Less(key(x), key(s[0])) {
    } else {
      InsertElements(key, x, s[1..]);
      assert s == [s[0]] + s[1..];
    }
  }

  lemma {:induction false} SortElements<T>(key: T -> Key, s: seq<T>)
    ensures multiset(SortBy(key, s)) == multiset(s)
    ensures |SortBy(key, s)| == |s|
  {
    if s != [] {
      var n := |s| - 1;
      SortElements(key, s[..n]);
      InsertElements(key, s[n], SortBy(key, s[..n]));
      assert s == s[..n] + [s[n]];
    }
  }

  lemma {:induction false} SameMembers<T>(a: seq<T>, b: seq<T>)
    requires multiset(a) == multiset(b)
    ensures forall x :: x in a <==> x in b
    ensures |a| == |b|
  {
    forall x ensures x in a <==> x in b {
      assert x in a <==> x in multiset(a);
      assert x in b <==> x in multiset(b);
    }
    assert |multiset(a)| == |a| && |multiset(b)| == |b|;
  }

  lemma {:induction false} SortMember<T>(key: T -> Key, s: seq<T>, x: T)
    ensures x in SortBy(key, s) <==> x in s
  {
    hide SortBy;
    SortElements(key, s);
    SameMembers(SortBy(key, s), s);
  }

  lemma {:induction false} InsertSorted<T>(key: T -> Key, x: T, s: seq<T>)
    requires StrictlySorted(key, s)
    requires forall y :: y in s ==> key(y) != key(x)
    ensures StrictlySorted(key, Insert(key, x, s))
    decreases |s|
  {
    var r := Insert(key, x, s);
    if s == [] {
    } else if Less(key(x), key(s[0])) {
      forall j | 1 <= j < |s| ensures Less(key(x), key(s[j])) {
        LessTransitive(key(x), key(s[0]), key(s[j]));
      }
    } else {
      LessTotal(key(x), key(s[0]));
      InsertSorted(key, x, s[1..]);
      InsertElements(key, x, s[1..]);
      var t := Insert(key, x, s[1..]);
      forall j | 0 <= j < |t| ensures Less(key(s[0]), key(t[j])) {
        assert t[j] in multiset(t);
        assert t[j] == x || t[j] in s[1..];
      }
    }
  }

  /** Sorting a list whose keys are distinct leaves its keys strictly increasing. */
  lemma {:induction false} SortStrict<T>(key: T -> Key, s: seq<T>)
    requires DistinctKeys(key, s)
    ensures StrictlySorted(key, SortBy(key, s))
    decreases |s|
  {
    if s != [] {
      var n := |s| - 1;
      var front := s[..n];
      var sorted := SortBy(key, front);
      SortStrict(key, front);
      SortElements(key, front);
      SameMembers(sorted, front);
      forall y | y in sorted ensures key(y) != key(s[n]) {
        assert y in multiset(sorted);
        assert y in multiset(front);
        assert y in front;
      }
      InsertSorted(key, s[n], sorted);
    }
  }

  lemma {:induction false} StrictTail<T>(key: T -> Key, s: seq<T>)
    requires s != [] && StrictlySorted(key, s)
    ensures StrictlySorted(key, s[1..])
    ensures forall y :: y in s[1..] ==> Less(key(s[0]), key(y))
  {
  }

  lemma {:induction false} HasMember<T>(s: seq<T>)
    requires s != []
    ensures exists x :: x in s
  {
    assert s[0] in s;
  }

  /** A strictly sorted list is determined by the set of its elements. */
  lemma {:induction false} StrictUnique<T>(key: T -> Key, a: seq<T>, b: seq<T>)
    requires StrictlySorted(key, a) && StrictlySorted(key, b)
    requires forall x :: x in a <==> x in b
    ensures a == b
    decreases |a|
  {
    if a == [] || b == [] {
      if a != [] {
        HasMember(a);
      }
      if b != [] {
        HasMember(b);
      }
    } else {
      assert a[0] in b && b[0] in a;
      var k :| 0 <= k < |b| && b[k] == a[0];
      var m :| 0 <= m < |a| && a[m] == b[0];
      LessTotal(key(a[0]), key(b[0]));
      assert a[0] == b[0];
      StrictTail(key, a);
      StrictTail(key, b);
      LessTotal(key(a[0]), key(a[0]));
      assert forall x :: x in a <==> x == a[0] || x in a[1..];
      assert forall x :: x in b <==> x == b[0] || x in b[1..];
      StrictUnique(key, a[1..], b[1..]);
      assert a == [a[0]] + a[1..] && b == [b[0]] + b[1..];
    }
  }

  /** A list that is already strictly sorted is its own sort. */
  lemma {:induction false} SortIdentity<T>(key: T -> Key, s: seq<T>)
    requires StrictlySorted(key, s)
    ensures SortBy(key, s) == s
  {
    forall i, j | 0 <= i < j < |s| ensures key(s[i]) != key(s[j]) {
      LessTotal(key(s[i]), key(s[j]));
    }
    SortStrict(key, s);
    SortElements(key, s);
    SameMembers(SortBy(key, s), s);
    StrictUnique(key, SortBy(key, s), s);
  }

  // ----- lists of named things -----

  /** The value a dict keyed by name holds under a name; names are distinct. */
  function Find<T>(key: T -> Key, s: seq<T>, k: Key): Option<T> {
    if s == [] then None
    else if key(s[0]) == k then Some(s[0])
    else Find(key, s[1..], k)
  }

  function Keys<T>(key: T -> Key, s: seq<T>): (r: seq<Key>)
    ensures |r| == |s| && forall i :: 0 <= i < |s| ==> r[i] == key(s[i])
  {
    seq(|s|, i requires 0 <= i < |s| => key(s[i]))
  }

  lemma {:induction false} FindAt<T>(key: T -> Key, s: seq<T>, i: nat)
    requires DistinctKeys(key, s) && i < |s|
    ensures Find(key, s, key(s[i])) == Some(s[i])
  {
    if i > 0 {
      FindAt(key, s[1..], i - 1);
    }
  }

  lemma {:induction false} FindMember<T>(key: T -> Key, s: seq<T>, k: Key)
    ensures Find(key, s, k).Some? ==> Find(key, s, k).value in s && key(Find(key, s, k).value) == k
    ensures Find(key, s, k).None? <==> forall x :: x in s ==> key(x) != k
  {
    if s != [] {
      FindMember(key, s[1..], k);
      assert forall x :: x in s <==> x == s[0] || x in s[1..];
    }
  }

  lemma {:induction false} FindIff<T>(key: T -> Key, s: seq<T>, x: T)
    requires DistinctKeys(key, s)
    ensures Find(key, s, key(x)) == Some(x) <==> x in s
  {
    FindMember(key, s, key(x));
    if x in s {
      var i :| 0 <= i < |s| && s[i] == x;
      FindAt(key, s, i);
    }
  }

  lemma {:induction false} DistinctSort<T>(key: T -> Key, s: seq<T>)
    requires DistinctKeys(key, s)
    ensures DistinctKeys(key, SortBy(key, s)) && StrictlySorted(key, SortBy(key, s))
    ensures forall x :: x in SortBy(key, s) <==> x in s
    ensures |SortBy(key, s)| == |s|
  {
    var sorted := SortBy(key, s);
    SortStrict(key, s);
    SortElements(key, s);
    SameMembers(sorted, s);
    StrictDistinct(key, sorted);
  }

  lemma {:induction false} StrictDistinct<T>(key: T -> Key, s: seq<T>)
    requires StrictlySorted(key, s)
    ensures DistinctKeys(key, s)
  {
    forall i, j | 0 <= i < j < |s| ensures key(s[i]) != key(s[j]) {
      LessTotal(key(s[i]), key(s[j]));
    }
  }

  /** Sorting by name does not change what a name finds. */
  lemma {:induction false} FindSorted<T>(key: T -> Key, s: seq<T>, k: Key)
    requires DistinctKeys(key, s)
    ensures Find(key, SortBy(key, s), k) == Find(key, s, k)
  {
    var sorted := SortBy(key, s);
    DistinctSort(key, s);
    FindMember(key, s, k);
    FindMember(key, sorted, k);
    if Find(key, s, k).Some? {
      FindIff(key, sorted, Find(key, s, k).value);
    }
  }

  /** The elements whose names are not among the old ones. */
  function Added<T>(key: T -> Key, s: seq<T>, old_: seq<Key>): seq<T> {
    if s == [] then []
    else (if key(s[0]) in old_ then [] else [s[0]]) + Added(key, s[1..], old_)
  }

  lemma {:induction false} AddedMember<T>(key: T -> Key, s: seq<T>, old_: seq<Key>, x: T)
    ensures x in Added(key, s, old_) <==> x in s && key(x) !in old_
  {
    if s != [] {
      AddedMember(key, s[1..], old_, x);
      assert x in s <==> x == s[0] || x in s[1..];
    }
  }

  lemma {:induction false} AddedDistinct<T>(key: T -> Key, s: seq<T>, old_: seq<Key>)
    requires DistinctKeys(key, s)
    ensures DistinctKeys(key, Added(key, s, old_))
  {
    if s != [] {
      AddedDistinct(key, s[1..], old_);
      var rest := Added(key, s[1..], old_);
      forall j | 0 <= j < |rest| ensures key(rest[j]) != key(s[0]) {
        AddedMember(key, s[1..], old_, rest[j]);
        var i :| 0 <= i < |s[1..]| && s[1..][i] == rest[j];
        assert s[i + 1] == rest[j];
      }
    }
  }

  lemma {:induction false} AddedSameNames<T>(key: T -> Key, s: seq<T>, a: seq<Key>, b: seq<Key>)
    requires forall k :: k in a <==> k in b
    ensures Added(key, s, a) == Added(key, s, b)
  {
    if s != [] {
      AddedSameNames(key, s[1..], a, b);
    }
  }

  lemma {:induction false} KeysMember<T>(key: T -> Key, s: seq<T>, k: Key)
    ensures k in Keys(key, s) <==> Find(key, s, k).Some?
  {
    FindMember(key, s, k);
    var ks := Keys(key, s);
    if k in ks {
      var i :| 0 <= i < |ks| && ks[i] == k;
      assert s[i] in s;
    }
    if Find(key, s, k).Some? {
      var x := Find(key, s, k).value;
      var i :| 0 <= i < |s| && s[i] == x;
      assert ks[i] == k;
    }
  }

  // ----- sorting twice -----

  ghost predicate WeaklySorted<T>(key: T -> Key, s: seq<T>) {
    forall i, j :: 0 <= i < j < |s| ==> !Less(key(s[j]), key(s[i]))
  }

  lemma {:induction false} InsertWeak<T>(key: T -> Key, x: T, s: seq<T>)
    requires WeaklySorted(key, s)
    ensures WeaklySorted(key, Insert(key, x, s))
    decreases |s|
  {
    if s == [] {
    } else if Less(key(x), key(s[0])) {
      forall j | 0 <= j < |s| ensures !Less(key(s[j]), key(x)) {
        if Less(key(s[j]), key(x)) {
          LessTransitive(key(s[j]), key(x), key(s[0]));
          LessTotal(key(s[0]), key(s[0]));
        }
      }
    } else {
      var t := Insert(key, x, s[1..]);
      InsertWeak(key, x, s[1..]);
      InsertElements(key, x, s[1..]);
      forall j | 0 <= j < |t| ensures !Less(key(t[j]), key(s[0])) {
        assert t[j] in multiset(t);
        assert t[j] == x || t[j] in s[1..];
      }
    }
  }

  lemma {:induction false} InsertAtEnd<T>(key: T -> Key, x: T, s: seq<T>)
    requires forall y :: y in s ==> !Less(key(x), key(y))
    ensures Insert(key, x, s) == s + [x]
  {
    if s != [] {
      InsertAtEnd(key, x, s[1..]);
    }
  }

  lemma {:induction false} SortWeak<T>(key: T -> Key, s: seq<T>)
    ensures WeaklySorted(key, SortBy(key, s))
  {
    if s != [] {
      SortWeak(key, s[..|s| - 1]);
      InsertWeak(key, s[|s| - 1], SortBy(key, s[..|s| - 1]));
    }
  }

  lemma {:induction false} SortOfSorted<T>(key: T -> Key, s: seq<T>)
    requires WeaklySorted(key, s)
    ensures SortBy(key, s) == s
  {
    if s != [] {
      var front := s[..|s| - 1];
      SortOfSorted(key, front);
      InsertAtEnd(key, s[|s| - 1], front);
    }
  }

  /** Sorting is idempotent. */
  lemma {:induction false} SortTwice<T>(key: T -> Key, s: seq<T>)
    ensures SortBy(key, SortBy(key, s)) == SortBy(key, s)
  {
    SortWeak(key, s);
    SortOfSorted(key, SortBy(key, s));
  }
}
