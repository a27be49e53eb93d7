/** A stable sort over an arbitrary "comes before or ties with" relation.

    Both sorts of the model (solution entries by file path and line, student
    exams by id in reverse) are the JavaScript `Array.prototype.sort`, which is
    stable; `Sort` is the specification of that library call. */
module StableSort {

  /** `le` is total and transitive: what a consistent comparator `c(a, b) <= 0` gives. */
  ghost predicate TotalPreorder<T(!new)>(le: (T, T) -> bool) {
    && (forall a, b :: le(a, b) || le(b, a))
    && (forall a, b, c :: le(a, b) && le(b, c) ==> le(a, c))
  }

  predicate SortedBy<T>(s: seq<T>, le: (T, T) -> bool) {
    forall i, j :: 0 <= i < j < |s| ==> le(s[i], s[j])
  }

  /** The elements of `s` that tie with `x` (each comes before the other), in order. */
  function Ties<T>(s: seq<T>, x: T, le: (T, T) -> bool): seq<T> {
    if s == [] then []
    else if le(s[0], x) && le(x, s[0]) then [s[0]] + Ties(s[1..], x, le)
    else Ties(s[1..], x, le)
  }

  /** Inserts `x` in front of the first element it comes before or ties with. */
  function Insert<T>(x: T, s: seq<T>, le: (T, T) -> bool): seq<T> {
    if s == [] then [x]
    else if le(x, s[0]) then [x] + s
    else [s[0]] + Insert(x, s[1..], le)
  }

  /** Insertion sort: every element is inserted into the sorted rest in front of
      the elements it ties with, which keeps tied elements in input order. */
  function Sort<T>(s: seq<T>, le: (T, T) -> bool): seq<T> {
    if s == [] then [] else Insert(s[0], Sort(s[1..], le), le)
  }

  lemma {:induction false} InsertPermutes<T>(x: T, s: seq<T>, le: (T, T) -> bool)
    ensures multiset(Insert(x, s, le)) == multiset(s) + multiset{x}
  {
    if s != [] && !le(x, s[0]) {
      InsertPermutes(x, s[1..], le);
      assert s == [s[0]] + s[1..];
    }
  }

  lemma {:induction false} SortPermutes<T>(s: seq<T>, le: (T, T) -> bool)
    ensures multiset(Sort(s, le)) == multiset(s)
  {
    if s != [] {
      SortPermutes(s[1..], le);
      InsertPermutes(s[0], Sort(s[1..], le), le);
      assert s == [s[0]] + s[1..];
    }
  }

  lemma {:induction false} InsertSorted<T(!new)>(x: T, s: seq<T>, le: (T, T) -> bool)
    requires TotalPreorder(le)
    requires SortedBy(s, le)
    ensures SortedBy(Insert(x, s, le), le)
  {
    if s != [] && !le(x, s[0]) {
      InsertSorted(x, s[1..], le);
      InsertPermutes(x, s[1..], le);
      var r := Insert(x, s[1..], le);
      forall j | 0 <= j < |r| ensures le(s[0], r[j]) {
        assert r[j] in multiset(r);
        if r[j] != x {
          assert r[j] in multiset(s[1..]);
          var k :| 0 <= k < |s[1..]| && s[1..][k] == r[j];
          assert s[k + 1] == r[j];
        }
      }
    }
  }

  lemma {:induction false} SortSorts<T(!new)>(s: seq<T>, le: (T, T) -> bool)
    requires TotalPreorder(le)
    ensures SortedBy(Sort(s, le), le)
  {
    if s != [] {
      SortSorts(s[1..], le);
      InsertSorted(s[0], Sort(s[1..], le), le);
    }
  }

  lemma {:induction false} TiesAppend<T>(a: seq<T>, b: seq<T>, x: T, le: (T, T) -> bool)
    ensures Ties(a + b, x, le) == Ties(a, x, le) + Ties(b, x, le)
  {
    if a == [] {
      assert a + b == b;
    } else {
      var ab := a + b;
      assert ab[0] == a[0] && ab[1..] == a[1..] + b;
      var head := if le(a[0], x) && le(x, a[0]) then [a[0]] else [];
      calc {
        Ties(ab, x, le);
        head + Ties(a[1..] + b, x, le);
        { TiesAppend(a[1..], b, x, le); }
        head + (Ties(a[1..], x, le) + Ties(b, x, le));
        (head + Ties(a[1..], x, le)) + Ties(b, x, le);
        Ties(a, x, le) + Ties(b, x, le);
      }
    }
  }

  /** Inserting `y` into a sorted sequence adds `y` to the ties of `x` in front of
      the ties already there, exactly when `y` ties with `x`. */
  lemma {:induction false} InsertTies<T(!new)>(y: T, s: seq<T>, x: T, le: (T, T) -> bool)
    requires TotalPreorder(le)
    ensures Ties(Insert(y, s, le), x, le)
         == (if le(y, x) && le(x, y) then [y] else []) + Ties(s, x, le)
  {
    if s == [] {
    } else if le(y, s[0]) {
      assert [y] + s == [y] + s;
      TiesAppend([y], s, x, le);
    } else {
      InsertTies(y, s[1..], x, le);
      // y does not tie with s[0], so at most one of them ties with x
      assert !(le(s[0], x) && le(x, s[0]) && le(y, x) && le(x, y));
    }
  }

  /** Tied elements keep their relative input order (stability). */
  lemma {:induction false} SortStable<T(!new)>(s: seq<T>, x: T, le: (T, T) -> bool)
    requires TotalPreorder(le)
    ensures Ties(Sort(s, le), x, le) == Ties(s, x, le)
  {
    if s != [] {
      SortStable(s[1..], x, le);
      InsertTies(s[0], Sort(s[1..], le), x, le);
    }
  }

  /** A sequence that is already sorted comes back unchanged. */
  lemma {:induction false} SortKeepsSorted<T>(s: seq<T>, le: (T, T) -> bool)
    requires SortedBy(s, le)
    ensures Sort(s, le) == s
  {
    if s != [] {
      SortKeepsSorted(s[1..], le);
      assert Sort(s[1..], le) == s[1..];
      if |s| > 1 {
        assert le(s[0], s[1]);
      }
      assert [s[0]] + s[1..] == s;
    }
  }

  /** Sorting twice gives what sorting once gives. */
  lemma SortIdempotent<T(!new)>(s: seq<T>, le: (T, T) -> bool)
    requires TotalPreorder(le)
    ensures Sort(Sort(s, le), le) == Sort(s, le)
  {
    SortSorts(s, le);
    SortKeepsSorted(Sort(s, le), le);
  }
}
