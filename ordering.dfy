/** Row order for the selects: the keys of a table in ascending or
    descending order (`ORDER BY <id>`, `ORDER BY <id> DESC`), a `WHERE`
    filter that keeps that order, and a stable sort on a timestamp column
    (`ORDER BY <timestamp> DESC`). */
module Ordering {

  predicate Ascending(s: seq<int>)
  {
    forall i, j :: 0 <= i < j < |s| ==> s[i] < s[j]
  }

  predicate Descending(s: seq<int>)
  {
    forall i, j :: 0 <= i < j < |s| ==> s[i] > s[j]
  }

  predicate Distinct(s: seq<int>)
  {
    forall i, j :: 0 <= i < j < |s| ==> s[i] != s[j]
  }

  /** Every element of `s` has a timestamp in `time`. */
  predicate Timed(s: seq<int>, time: map<int, int>)
  {
    forall i :: 0 <= i < |s| ==> s[i] in time
  }

  /** The timestamps do not increase along `s`. */
  predicate NewestFirst(s: seq<int>, time: map<int, int>)
  {
    Timed(s, time) && forall i, j :: 0 <= i < j < |s| ==> time[s[i]] >= time[s[j]]
  }

  /** No key in `keys` exceeds `m`. */
  predicate Bounds(m: int, keys: set<int>)
  {
    forall k :: k in keys ==> k <= m
  }

  lemma NonEmptyHasElement(keys: set<int>)
    requires keys != {}
    ensures exists k :: k in keys
  {
    if forall k :: k !in keys {
      assert false;
    }
  }

  lemma {:induction false} MaxExists(keys: set<int>)
    requires keys != {}
    ensures exists m :: m in keys && Bounds(m, keys)
    decreases keys
  {
    NonEmptyHasElement(keys);
    var x :| x in keys;
    var rest := keys - {x};
    if rest == {} {
      forall k | k in keys ensures k <= x {
        assert k !in rest;
      }
      assert Bounds(x, keys);
    } else {
      MaxExists(rest);
      var m :| m in rest && Bounds(m, rest);
      var top := if x > m then x else m;
      forall k | k in keys ensures k <= top {
        if k != x {
          assert k in rest;
        }
      }
      assert Bounds(top, keys);
    }
  }

  function SetMax(keys: set<int>): (m: int)
    requires keys != {}
    ensures m in keys && forall k :: k in keys ==> k <= m
  {
    MaxExists(keys);
    var m :| m in keys && Bounds(m, keys);
    m
  }

  /** The keys, each once, largest first. */
  function KeysDescending(keys: set<int>): (r: seq<int>)
    ensures |r| == |keys|
    ensures forall k :: k in r <==> k in keys
    ensures Descending(r)
    decreases keys
  {
    if keys == {} then []
    else
      var m := SetMax(keys);
      var rest := KeysDescending(keys - {m});
      assert forall y :: y in rest ==> m > y by {
        forall y | y in rest ensures m > y {
          assert y in keys && y != m;
        }
      }
      DescendingCons(m, rest);
      [m] + rest
  }

  /** The keys, each once, smallest first. */
  function KeysAscending(keys: set<int>): (r: seq<int>)
    ensures |r| == |keys|
    ensures forall k :: k in r <==> k in keys
    ensures Ascending(r)
    decreases keys
  {
    if keys == {} then []
    else
      var m := SetMax(keys);
      KeysAscending(keys - {m}) + [m]
  }

  /** The elements of `s` that satisfy `keep`, in their order in `s`. */
  function Where(s: seq<int>, keep: int -> bool): (r: seq<int>)
    ensures |r| <= |s|
    ensures forall x :: x in r <==> x in s && keep(x)
    ensures Descending(s) ==> Descending(r)
  {
    if s == [] then []
    else
      var rest := Where(s[1..], keep);
      assert Descending(s) ==> Descending([s[0]] + rest) by {
        if Descending(s) {
          forall x | x in rest ensures s[0] > x {
            var j :| 0 <= j < |s[1..]| && s[1..][j] == x;
            assert s[j + 1] == x;
          }
          DescendingCons(s[0], rest);
        }
      }
      if keep(s[0]) then [s[0]] + rest else rest
  }

  lemma DescendingCons(x: int, s: seq<int>)
    requires Descending(s) && forall y :: y in s ==> x > y
    ensures Descending([x] + s)
  {
    forall i, j | 0 <= i < j < |[x] + s| ensures ([x] + s)[i] > ([x] + s)[j] {
      assert ([x] + s)[j] == s[j - 1] && s[j - 1] in s;
      if i > 0 {
        assert ([x] + s)[i] == s[i - 1];
      }
    }
  }

  lemma DescendingDistinct(s: seq<int>)
    requires Descending(s)
    ensures Distinct(s)
  {
  }

  /** Puts `x` in front of the first element that is not newer than it. */
  function InsertNewestFirst(x: int, s: seq<int>, time: map<int, int>): (r: seq<int>)
    requires x in time && Timed(s, time)
    ensures |r| == |s| + 1
    ensures forall y :: y in r <==> y == x || y in s
    ensures Timed(r, time)
    ensures multiset(r) == multiset(s) + multiset{x}
  {
    assert s != [] ==> s == [s[0]] + s[1..];
    if s == [] then [x]
    else if time[x] >= time[s[0]] then [x] + s
    else [s[0]] + InsertNewestFirst(x, s[1..], time)
  }

  lemma {:induction false} InsertKeepsOrder(x: int, s: seq<int>, time: map<int, int>)
    requires x in time && NewestFirst(s, time)
    ensures NewestFirst(InsertNewestFirst(x, s, time), time)
  {
    if s != [] && time[x] < time[s[0]] {
      var rest := InsertNewestFirst(x, s[1..], time);
      InsertKeepsOrder(x, s[1..], time);
      forall y | y in rest ensures time[s[0]] >= time[y] {
        if y != x {
          var j :| 0 <= j < |s[1..]| && s[1..][j] == y;
          assert s[j + 1] == y;
        }
      }
      NewestFirstCons(s[0], rest, time);
    }
  }

  lemma NewestFirstCons(x: int, s: seq<int>, time: map<int, int>)
    requires x in time && NewestFirst(s, time)
    requires forall y :: y in s ==> time[x] >= time[y]
    ensures NewestFirst([x] + s, time)
  {
    forall i, j | 0 <= i < j < |[x] + s| ensures time[([x] + s)[i]] >= time[([x] + s)[j]] {
      assert ([x] + s)[j] == s[j - 1] && s[j - 1] in s;
      if i > 0 {
        assert ([x] + s)[i] == s[i - 1];
      }
    }
  }

  lemma {:induction false} InsertKeepsDistinct(x: int, s: seq<int>, time: map<int, int>)
    requires x in time && Timed(s, time)
    requires x !in s && Distinct(s)
    ensures Distinct(InsertNewestFirst(x, s, time))
  {
    if s != [] && time[x] < time[s[0]] {
      var rest := InsertNewestFirst(x, s[1..], time);
      DistinctTail(s);
      InsertKeepsDistinct(x, s[1..], time);
      DistinctCons(s[0], rest);
    }
  }

  lemma DistinctTail(s: seq<int>)
    requires s != [] && Distinct(s)
    ensures s[0] !in s[1..] && Distinct(s[1..])
  {
    forall j | 0 <= j < |s[1..]| ensures s[1..][j] != s[0] {
      assert s[1..][j] == s[j + 1];
    }
  }

  lemma DistinctCons(x: int, s: seq<int>)
    requires x !in s && Distinct(s)
    ensures Distinct([x] + s)
  {
    forall i, j | 0 <= i < j < |[x] + s| ensures ([x] + s)[i] != ([x] + s)[j] {
      assert ([x] + s)[j] == s[j - 1];
      if i > 0 {
        assert ([x] + s)[i] == s[i - 1];
      }
    }
  }

  /** `ORDER BY time DESC`: a stable insertion sort, so elements with equal
      timestamps keep their order in `s`. */
  function SortNewestFirst(s: seq<int>, time: map<int, int>): (r: seq<int>)
    requires Timed(s, time)
    ensures |r| == |s|
    ensures forall y :: y in r <==> y in s
    ensures Timed(r, time)
    ensures multiset(r) == multiset(s)
  {
    assert s != [] ==> s == [s[0]] + s[1..];
    if s == [] then [] else InsertNewestFirst(s[0], SortNewestFirst(s[1..], time), time)
  }

  /** The sort puts newer elements first and keeps distinct elements distinct. */
  lemma {:induction false} SortNewestFirstCorrect(s: seq<int>, time: map<int, int>)
    requires Timed(s, time)
    ensures NewestFirst(SortNewestFirst(s, time), time)
    ensures Distinct(s) ==> Distinct(SortNewestFirst(s, time))
  {
    if s != [] {
      var rest := SortNewestFirst(s[1..], time);
      SortNewestFirstCorrect(s[1..], time);
      InsertKeepsOrder(s[0], rest, time);
      if Distinct(s) {
        DistinctTail(s);
        InsertKeepsDistinct(s[0], rest, time);
      }
    }
  }
}
