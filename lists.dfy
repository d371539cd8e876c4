/** The list operations the query layer borrows from the language: reversing
    a list, keeping one copy of each value, and sorting by a key. */
module Lists {
  import opened Values

  // ---------------------------------------------------------------------
  // list.reverse()
  // ---------------------------------------------------------------------

  function Reversed<T>(s: seq<T>): seq<T>
  {
    if s == [] then [] else Reversed(s[1..]) + [s[0]]
  }

  lemma {:induction false} ReversedAt<T>(s: seq<T>)
    ensures |Reversed(s)| == |s|
    ensures forall k :: 0 <= k < |s| ==> Reversed(s)[k] == s[|s| - 1 - k]
  {
    if s != [] {
      ReversedAt(s[1..]);
    }
  }

  lemma ReversedTwice<T>(s: seq<T>)
    ensures Reversed(Reversed(s)) == s
  {
    ReversedAt(s);
    ReversedAt(Reversed(s));
  }

  lemma {:induction false} ReversedMultiset<T>(s: seq<T>)
    ensures multiset(Reversed(s)) == multiset(s)
  {
    if s != [] {
      ReversedMultiset(s[1..]);
      assert s == [s[0]] + s[1..];
    }
  }

  // ---------------------------------------------------------------------
  // Duplicate-free lists: "append unless already present"
  // ---------------------------------------------------------------------

  predicate NoDups<T(==)>(s: seq<T>)
  {
    forall i, j :: 0 <= i < j < |s| ==> s[i] != s[j]
  }

  /** Walks `s` from the front and keeps each value the first time it is seen. */
  function Dedup<T(==)>(s: seq<T>): seq<T>
  {
    if s == [] then []
    else
      var kept := Dedup(s[..|s| - 1]);
      if s[|s| - 1] in kept then kept else kept + [s[|s| - 1]]
  }

  /** Deduplication keeps every value of `s`, adds none, and repeats none. */
  lemma {:induction false} DedupSpec<T>(s: seq<T>)
    ensures NoDups(Dedup(s))
    ensures forall x :: x in Dedup(s) <==> x in s
  {
    if s != [] {
      var init := s[..|s| - 1];
      DedupSpec(init);
      assert s == init + [s[|s| - 1]];
    }
  }

  /** A list repeats no value exactly when no value occurs twice in its multiset. */
  lemma {:induction false} NoDupsMultiset<T>(s: seq<T>)
    ensures NoDups(s) <==> forall x :: multiset(s)[x] <= 1
  {
    if s == [] {
    } else {
      var init, last := s[..|s| - 1], s[|s| - 1];
      assert s == init + [last];
      NoDupsMultiset(init);
      if NoDups(s) {
        assert NoDups(init);
        forall i | 0 <= i < |init|
          ensures init[i] != last
        {
          assert s[i] != s[|s| - 1];
        }
      } else {
        var i, j :| 0 <= i < j < |s| && s[i] == s[j];
        if j < |s| - 1 {
          assert init[i] == init[j];
          assert !NoDups(init);
          var x :| multiset(init)[x] > 1;
          assert multiset(s)[x] > 1;
        } else {
          assert init[i] == last;
          assert multiset(s)[last] == multiset(init)[last] + 1;
        }
      }
    }
  }

  lemma NoDupsPermutation<T>(s: seq<T>, t: seq<T>)
    requires NoDups(s)
    requires forall x :: multiset(t)[x] <= multiset(s)[x]
    ensures NoDups(t)
  {
    NoDupsMultiset(s);
    NoDupsMultiset(t);
  }

  // ---------------------------------------------------------------------
  // sorted() / list.sort(), by a key
  // ---------------------------------------------------------------------

  predicate SortedByKey<T>(s: seq<T>, key: T -> Value)
  {
    forall i, j :: 0 <= i < j < |s| ==> ValueLe(key(s[i]), key(s[j]))
  }

  /** Puts `x` in front of the first element whose key is not smaller. */
  function InsertByKey<T>(x: T, s: seq<T>, key: T -> Value): seq<T>
  {
    if s == [] then [x]
    else if ValueLe(key(x), key(s[0])) then [x] + s
    else [s[0]] + InsertByKey(x, s[1..], key)
  }

  function SortByKey<T>(s: seq<T>, key: T -> Value): seq<T>
  {
    if s == [] then [] else InsertByKey(s[0], SortByKey(s[1..], key), key)
  }

  lemma {:induction false} InsertMultiset<T>(x: T, s: seq<T>, key: T -> Value)
    ensures multiset(InsertByKey(x, s, key)) == multiset(s) + multiset{x}
  {
    if s != [] && !ValueLe(key(x), key(s[0])) {
      InsertMultiset(x, s[1..], key);
      assert s == [s[0]] + s[1..];
    }
  }

  lemma {:induction false} InsertSorted<T>(x: T, s: seq<T>, key: T -> Value)
    requires SortedByKey(s, key)
    ensures SortedByKey(InsertByKey(x, s, key), key)
  {
    var r := InsertByKey(x, s, key);
    if s == [] {
    } else if ValueLe(key(x), key(s[0])) {
      forall j | 0 < j < |r|
        ensures ValueLe(key(r[0]), key(r[j]))
      {
        if j > 1 {
          ValueLeTrans(key(x), key(s[0]), key(s[j - 1]));
        }
      }
    } else {
      ValueLeTotal(key(x), key(s[0]));
      var rest := InsertByKey(x, s[1..], key);
      InsertSorted(x, s[1..], key);
      InsertMultiset(x, s[1..], key);
      forall j | 0 <= j < |rest|
        ensures ValueLe(key(s[0]), key(rest[j]))
      {
        assert rest[j] in multiset(rest);
        if rest[j] != x {
          var k :| 0 <= k < |s[1..]| && s[1..][k] == rest[j];
          assert s[k + 1] == rest[j];
        }
      }
    }
  }

  /** Sorting yields a list ordered by key that is a permutation of the input. */
  lemma {:induction false} SortSpec<T>(s: seq<T>, key: T -> Value)
    ensures SortedByKey(SortByKey(s, key), key)
    ensures multiset(SortByKey(s, key)) == multiset(s)
  {
    if s != [] {
      SortSpec(s[1..], key);
      InsertSorted(s[0], SortByKey(s[1..], key), key);
      InsertMultiset(s[0], SortByKey(s[1..], key), key);
      assert s == [s[0]] + s[1..];
    }
  }
}
