/**
 * The compile-time list algebra of src/core/utils/list.hpp, valuelist.hpp and
 * array_constant.hpp, and of src/core/lex/experimental/string_array_utils.hpp.
 * In C++ these are templates over `valuelist<T, v...>`, `typelist<T...>` and
 * `std::array` constants; here every such list is a `seq`, a condition
 * template is a predicate `T -> bool` and a transformer template a function.
 */
module Lists {

  /** `size_v`: 0 for the empty list, otherwise one more than the size of the tail. */
  function Size<T>(s: seq<T>): (r: nat)
    ensures r == |s|
  {
    if s == [] then 0 else 1 + Size(s[1..])
  }

  /** `is_empty_v`: only the list without values is empty. */
  function IsEmpty<T>(s: seq<T>): (r: bool)
    ensures r <==> Size(s) == 0
  {
    s == []
  }

  /** `get_v` / `get_t` / `get_element_t`: walk `i` tails down; `i` must be below the size. */
  function Get<T>(s: seq<T>, i: nat): (r: T)
    requires i < Size(s)
    ensures r == s[i]
  {
    if i == 0 then s[0] else Get(s[1..], i - 1)
  }

  /** `concat_t`: the values of the first list followed by those of the second. */
  function Concat<T>(a: seq<T>, b: seq<T>): (r: seq<T>)
    ensures Size(r) == Size(a) + Size(b)
    ensures r[..|a|] == a && r[|a|..] == b
  {
    a + b
  }

  /** `concat_t<element, array>`: the element goes in front. */
  function Prepend<T>(x: T, s: seq<T>): (r: seq<T>)
    ensures Size(r) == Size(s) + 1
    ensures r[0] == x && r[1..] == s
  {
    [x] + s
  }

  /** `concat_t<array, element>`: the element goes at the back. */
  function Append<T>(s: seq<T>, x: T): (r: seq<T>)
    ensures Size(r) == Size(s) + 1
    ensures r[|s|] == x && r[..|s|] == s
  {
    s + [x]
  }

  /** `is_in_v`: the disjunction of `element == x` over the list. */
  function IsIn<T(==)>(x: T, s: seq<T>): (r: bool)
    ensures r <==> x in s
  {
    s != [] && (s[0] == x || IsIn(x, s[1..]))
  }

  predicate NoDups<T(==)>(s: seq<T>)
  {
    forall i, j | 0 <= i < j < |s| :: s[i] != s[j]
  }

  /**
   * `set_t`: walk from the back; a value is kept only if it does not occur
   * again later, so each value keeps its last occurrence.
   */
  function Dedup<T(==,!new)>(s: seq<T>): (r: seq<T>)
    ensures NoDups(r)
    ensures forall x :: x in r <==> x in s
    ensures |r| <= |s|
  {
    if s == [] then []
    else
      var rest := Dedup(s[1..]);
      if IsIn(s[0], rest) then rest else [s[0]] + rest
  }

  /** The position of the last occurrence of `x` in `s`. */
  function LastIndex<T(==)>(s: seq<T>, x: T): (k: nat)
    requires x in s
    ensures k < |s| && s[k] == x
    ensures forall m :: k < m < |s| ==> s[m] != x
  {
    if s[0] == x && x !in s[1..] then 0 else 1 + LastIndex(s[1..], x)
  }

  lemma LastIndexTail<T>(s: seq<T>, x: T)
    requires |s| > 0 && x in s[1..]
    ensures LastIndex(s, x) == 1 + LastIndex(s[1..], x)
  {
  }

  /**
   * The values of `set_t` appear in the order of their last occurrences:
   * together with `NoDups` and equal membership this fixes the result.
   */
  lemma {:induction false} DedupKeepsLastOccurrences<T(!new)>(s: seq<T>, i: nat, j: nat)
    requires i < j < |Dedup(s)|
    ensures LastIndex(s, Dedup(s)[i]) < LastIndex(s, Dedup(s)[j])
  {
    var t := s[1..];
    var rest := Dedup(t);
    if IsIn(s[0], rest) {
      DedupKeepsLastOccurrences(t, i, j);
      DedupSkippedOrder(s, i, j);
    } else if i == 0 {
      DedupHeadFirst(s, j);
    } else {
      DedupKept(s);
      DedupKeepsLastOccurrences(t, i - 1, j - 1);
      DedupKeptOrder(s, i, j);
    }
  }

  lemma DedupKept<T(!new)>(s: seq<T>)
    requires s != [] && !IsIn(s[0], Dedup(s[1..]))
    ensures Dedup(s) == [s[0]] + Dedup(s[1..]) && |Dedup(s)| == 1 + |Dedup(s[1..])|
  {
  }

  /** When the head occurs again later, the order is that of the tail. */
  lemma DedupSkippedOrder<T(!new)>(s: seq<T>, i: nat, j: nat)
    requires s != [] && IsIn(s[0], Dedup(s[1..])) && i < j < |Dedup(s[1..])|
    requires LastIndex(s[1..], Dedup(s[1..])[i]) < LastIndex(s[1..], Dedup(s[1..])[j])
    ensures i < j < |Dedup(s)| && LastIndex(s, Dedup(s)[i]) < LastIndex(s, Dedup(s)[j])
  {
    var rest := Dedup(s[1..]);
    assert Dedup(s) == rest;
    LastIndexTail(s, rest[i]);
    LastIndexTail(s, rest[j]);
  }

  /** A head kept in front is the last occurrence of its value, at position 0. */
  lemma DedupHeadFirst<T(!new)>(s: seq<T>, j: nat)
    requires s != [] && !IsIn(s[0], Dedup(s[1..])) && 0 < j <= |Dedup(s[1..])|
    ensures j < |Dedup(s)| && LastIndex(s, Dedup(s)[0]) < LastIndex(s, Dedup(s)[j])
  {
    var rest := Dedup(s[1..]);
    assert Dedup(s) == [s[0]] + rest;
    LastIndexTail(s, rest[j - 1]);
    assert s[0] !in s[1..];
    assert LastIndex(s, s[0]) == 0;
  }

  /** Behind a kept head, the order is that of the tail, shifted by one. */
  lemma DedupKeptOrder<T(!new)>(s: seq<T>, i: nat, j: nat)
    requires s != [] && !IsIn(s[0], Dedup(s[1..])) && 0 < i < j <= |Dedup(s[1..])|
    requires LastIndex(s[1..], Dedup(s[1..])[i - 1]) < LastIndex(s[1..], Dedup(s[1..])[j - 1])
    ensures j < |Dedup(s)| && LastIndex(s, Dedup(s)[i]) < LastIndex(s, Dedup(s)[j])
  {
    var rest := Dedup(s[1..]);
    assert Dedup(s) == [s[0]] + rest;
    LastIndexTail(s, rest[i - 1]);
    LastIndexTail(s, rest[j - 1]);
    Behind(s[0], rest, i);
    Behind(s[0], rest, j);
  }

  lemma Behind<T>(x: T, r: seq<T>, k: nat)
    requires 0 < k <= |r|
    ensures ([x] + r)[k] == r[k - 1]
  {
  }

  /** array_constant_unittest: {0,1,2,1} deduplicates to {0,2,1}. */
  lemma DedupExample()
    ensures Dedup([0, 1, 2, 1]) == [0, 2, 1]
  {
    assert Dedup([1]) == [1];
    assert [2, 1][1..] == [1];
    assert Dedup([2, 1]) == [2, 1];
    assert [1, 2, 1][1..] == [2, 1];
    assert Dedup([1, 2, 1]) == [2, 1];
    assert [0, 1, 2, 1][1..] == [1, 2, 1];
  }

  lemma {:induction false} DedupSize<T(!new)>(s: seq<T>)
    ensures |Dedup(s)| == |s| <==> NoDups(s)
  {
    if s != [] {
      var t := s[1..];
      DedupSize(t);
      if NoDups(s) {
        assert NoDups(t) by {
          forall i, j | 0 <= i < j < |t| ensures t[i] != t[j] {
            assert t[i] == s[i + 1] && t[j] == s[j + 1];
          }
        }
        assert s[0] !in t by {
          forall k | 0 <= k < |t| ensures t[k] != s[0] { assert t[k] == s[k + 1]; }
        }
      } else if s[0] !in t {
        assert !NoDups(t) by {
          var i, j :| 0 <= i < j < |s| && s[i] == s[j];
          assert i != 0;
          assert t[i - 1] == s[i] && t[j - 1] == s[j];
        }
      }
    }
  }

  /** `is_unique_v`: the deduplicated list is as long as the original. */
  function IsUnique<T(==,!new)>(s: seq<T>): (r: bool)
    ensures r <==> NoDups(s)
  {
    DedupSize(s);
    Size(Dedup(s)) == Size(s)
  }

  /** `left_shift_t`: drop the head; the empty list is returned unchanged. */
  function LeftShift<T>(s: seq<T>): (r: seq<T>)
    ensures s == [] ==> r == []
    ensures s != [] ==> [s[0]] + r == s
  {
    if s == [] then s else s[1..]
  }

  /**
   * `zip_t` of list.hpp (two typelists into a typelist of two-element
   * typelists) and of valuelist.hpp (into a tuple of two-value lists).
   */
  function Zip<T>(a: seq<T>, b: seq<T>): (r: seq<seq<T>>)
    requires |a| == |b|
    ensures |r| == |a|
    ensures forall i :: 0 <= i < |r| ==> |r[i]| == 2 && r[i][0] == a[i] && r[i][1] == b[i]
  {
    seq(|a|, i requires 0 <= i < |a| => [a[i], b[i]])
  }

  /** Every row is at least as long as the first: `get_t<get_t<List, I>, J>` must exist. */
  predicate RowsCoverFirst<T>(rows: seq<seq<T>>)
  {
    forall i :: 0 <= i < |rows| ==> |rows[0]| <= |rows[i]|
  }

  /**
   * `unzip_t`: column j collects element j of every row, for each j below the
   * first row's size. The empty list is returned unchanged.
   */
  function Unzip<T>(rows: seq<seq<T>>): (r: seq<seq<T>>)
    requires RowsCoverFirst(rows)
    ensures rows == [] ==> r == []
    ensures rows != [] ==> |r| == |rows[0]| && forall j :: 0 <= j < |r| ==> |r[j]| == |rows|
    ensures forall j, i :: 0 <= j < |r| && 0 <= i < |rows| ==> r[j][i] == rows[i][j]
  {
    if rows == [] then rows
    else
      seq(|rows[0]|, j requires 0 <= j < |rows[0]| =>
        seq(|rows|, i requires 0 <= i < |rows| => rows[i][j]))
  }

  /** A zip is undone by unzip; two empty lists come back as one empty list, not two. */
  lemma UnzipZip<T>(a: seq<T>, b: seq<T>)
    requires |a| == |b|
    ensures RowsCoverFirst(Zip(a, b))
    ensures Unzip(Zip(a, b)) == if a == [] then [] else [a, b]
  {
    if a != [] {
      var u := Unzip(Zip(a, b));
      assert |u| == 2;
      assert u[0] == a;
      assert u[1] == b;
    }
  }

  /** Conversely, a non-empty list of pairs is rebuilt by zipping its two columns. */
  lemma ZipUnzip<T>(rows: seq<seq<T>>)
    requires rows != [] && forall i :: 0 <= i < |rows| ==> |rows[i]| == 2
    ensures RowsCoverFirst(rows)
    ensures |Unzip(rows)| == 2 && |Unzip(rows)[0]| == |Unzip(rows)[1]|
    ensures Zip(Unzip(rows)[0], Unzip(rows)[1]) == rows
  {
    var u := Unzip(rows);
    var z := Zip(u[0], u[1]);
    forall i | 0 <= i < |rows| ensures z[i] == rows[i] {
      assert z[i] == [rows[i][0], rows[i][1]];
    }
  }

  /** `zip_t` of array_constant.hpp: two arrays of equal size into an array of pairs. */
  function ZipPairs<A, B>(a: seq<A>, b: seq<B>): seq<(A, B)>
    requires |a| == |b|
  {
    seq(|a|, i requires 0 <= i < |a| => (a[i], b[i]))
  }

  /** `unzip_t<pairs, 0>`: the first component of every pair. */
  function Firsts<A, B>(p: seq<(A, B)>): seq<A>
  {
    seq(|p|, i requires 0 <= i < |p| => p[i].0)
  }

  /** `unzip_t<pairs, 1>`: the second component of every pair. */
  function Seconds<A, B>(p: seq<(A, B)>): seq<B>
  {
    seq(|p|, i requires 0 <= i < |p| => p[i].1)
  }

  lemma ZipPairsRoundTrip<A, B>(a: seq<A>, b: seq<B>, p: seq<(A, B)>)
    requires |a| == |b|
    ensures Firsts(ZipPairs(a, b)) == a && Seconds(ZipPairs(a, b)) == b
    ensures ZipPairs(Firsts(p), Seconds(p)) == p
  {
  }

  /** `transform_t` / `for_each_t`: apply the transformer to every element. */
  function Transform<T, U>(s: seq<T>, f: T -> U): (r: seq<U>)
    ensures |r| == |s|
    ensures forall i :: 0 <= i < |s| ==> r[i] == f(s[i])
  {
    seq(|s|, i requires 0 <= i < |s| => f(s[i]))
  }

  /**
   * `subset_idx_t` walked from index `start`: the positions, counted from
   * `start`, of the elements satisfying the condition.
   */
  function SubsetIdxFrom<T>(s: seq<T>, p: T -> bool, start: nat): (r: seq<nat>)
    ensures forall k :: 0 <= k < |r| ==> start <= r[k] < start + |s| && p(s[r[k] - start])
    ensures forall k, l :: 0 <= k < l < |r| ==> r[k] < r[l]
    ensures forall j :: start <= j < start + |s| && p(s[j - start]) ==> j in r
  {
    if s == [] then []
    else (if p(s[0]) then [start] else []) + SubsetIdxFrom(s[1..], p, start + 1)
  }

  /** `subset_idx_t`: in increasing order, exactly the indices whose element satisfies the condition. */
  function SubsetIdx<T>(s: seq<T>, p: T -> bool): (r: seq<nat>)
    ensures forall k :: 0 <= k < |r| ==> r[k] < |s| && p(s[r[k]])
    ensures forall k, l :: 0 <= k < l < |r| ==> r[k] < r[l]
    ensures forall j :: 0 <= j < |s| && p(s[j]) ==> j in r
  {
    SubsetIdxFrom(s, p, 0)
  }

  predicate InBounds<T>(s: seq<T>, idx: seq<nat>)
  {
    forall k :: 0 <= k < |idx| ==> idx[k] < |s|
  }

  /** `subset_t`: the elements at the given indices, in the order of the indices. */
  function Subset<T>(s: seq<T>, idx: seq<nat>): (r: seq<T>)
    requires InBounds(s, idx)
    ensures |r| == |idx|
  {
    seq(|idx|, k requires 0 <= k < |idx| => s[idx[k]])
  }

  /** An independent reference for filtering: keep, in order, the elements satisfying `p`. */
  function Filter<T>(s: seq<T>, p: T -> bool): (r: seq<T>)
    ensures |r| <= |s|
    ensures forall x :: x in r ==> x in s && p(x)
    ensures forall x :: x in s && p(x) ==> x in r
  {
    if s == [] then [] else (if p(s[0]) then [s[0]] else []) + Filter(s[1..], p)
  }

  /** Keep, in order, the elements of `t` whose partner in `s` satisfies `p`. */
  function FilterBy<T, U>(t: seq<U>, s: seq<T>, p: T -> bool): seq<U>
    requires |t| == |s|
  {
    if s == [] then [] else (if p(s[0]) then [t[0]] else []) + FilterBy(t[1..], s[1..], p)
  }

  lemma {:induction false} FilterIsFilterBy<T>(s: seq<T>, p: T -> bool)
    ensures Filter(s, p) == FilterBy(s, s, p)
  {
    if s != [] { FilterIsFilterBy(s[1..], p); }
  }

  lemma SubsetAppend<T>(s: seq<T>, a: seq<nat>, b: seq<nat>)
    requires InBounds(s, a) && InBounds(s, b)
    ensures InBounds(s, a + b) && Subset(s, a + b) == Subset(s, a) + Subset(s, b)
  {
  }

  lemma {:induction false} SubsetByIdxFrom<T, U>(pre: seq<U>, t: seq<U>, s: seq<T>, p: T -> bool)
    requires |t| == |s|
    decreases |s|
    ensures InBounds(pre + t, SubsetIdxFrom(s, p, |pre|))
    ensures Subset(pre + t, SubsetIdxFrom(s, p, |pre|)) == FilterBy(t, s, p)
  {
    if s != [] {
      var pre' := pre + [t[0]];
      assert pre' + t[1..] == pre + t;
      SubsetByIdxFrom(pre', t[1..], s[1..], p);
      var head: seq<nat> := if p(s[0]) then [|pre|] else [];
      var tail := SubsetIdxFrom(s[1..], p, |pre'|);
      assert SubsetIdxFrom(s, p, |pre|) == head + tail;
      SubsetAppend(pre + t, head, tail);
      assert (pre + t)[|pre|] == t[0];
    }
  }

  /** The indices chosen on one list select, from a list of equal size, the partners of the chosen elements. */
  lemma SubsetByIdx<T, U>(t: seq<U>, s: seq<T>, p: T -> bool)
    requires |t| == |s|
    ensures InBounds(t, SubsetIdx(s, p))
    ensures Subset(t, SubsetIdx(s, p)) == FilterBy(t, s, p)
  {
    SubsetByIdxFrom([], t, s, p);
    assert [] + t == t;
  }

  /** `subset_t<L, subset_idx_t<L, C>>` keeps exactly the elements satisfying C, in order. */
  lemma SubsetOfSubsetIdx<T>(s: seq<T>, p: T -> bool)
    ensures InBounds(s, SubsetIdx(s, p))
    ensures Subset(s, SubsetIdx(s, p)) == Filter(s, p)
  {
    SubsetByIdx(s, s, p);
    FilterIsFilterBy(s, p);
  }

  /** Filtering keeps everything exactly when every element qualifies. */
  lemma {:induction false} FilterKeepsAll<T>(s: seq<T>, p: T -> bool)
    ensures |Filter(s, p)| <= |s|
    ensures |Filter(s, p)| == |s| <==> forall k :: 0 <= k < |s| ==> p(s[k])
  {
    if s != [] {
      FilterKeepsAll(s[1..], p);
      if forall k :: 0 <= k < |s| - 1 ==> p(s[1..][k]) {
        assert forall k :: 1 <= k < |s| ==> p(s[k]) by {
          forall k | 1 <= k < |s| ensures p(s[k]) { assert s[k] == s[1..][k - 1]; }
        }
      } else {
        var k :| 0 <= k < |s| - 1 && !p(s[1..][k]);
        assert !p(s[k + 1]);
      }
    }
  }

  /** string_array_utils_unittest: ["", "ab", "abc"] filtered by non-emptiness gives [1, 2]. */
  lemma SubsetIdxExample()
    ensures SubsetIdx(["", "ab", "abc"], (x: string) => x != "") == [1, 2]
  {
    var s: seq<string> := ["", "ab", "abc"];
    var p := (x: string) => x != "";
    assert s[1..][1..][1..] == [];
    assert SubsetIdxFrom(s[1..][1..], p, 2) == [2];
    assert SubsetIdxFrom(s[1..], p, 1) == [1, 2];
  }

  function NonEmpty<T>(l: seq<T>): bool { l != [] }

  /** The reference for head extraction: the first value of every non-empty list, in order. */
  function Heads<T>(rows: seq<seq<T>>): (r: seq<T>)
    ensures |r| <= |rows|
    ensures (forall i :: 0 <= i < |rows| ==> rows[i] != []) ==> |r| == |rows|
  {
    if rows == [] then []
    else (if rows[0] == [] then [] else [rows[0][0]]) + Heads(rows[1..])
  }

  /**
   * `get_first_value_t`: prune the empty lists, then take the first value of
   * each remaining one. A list with no non-empty member does not compile.
   */
  function FirstValues<T>(rows: seq<seq<T>>): (r: seq<T>)
    requires exists i :: 0 <= i < |rows| && rows[i] != []
    ensures r == Heads(rows)
  {
    var idx := SubsetIdx(rows, NonEmpty);
    SubsetOfSubsetIdx(rows, NonEmpty);
    var pruned := Subset(rows, idx);
    HeadsOfFiltered(rows);
    var r := seq(|pruned|, i requires 0 <= i < |pruned| => pruned[i][0]);
    assert r == Heads(rows);
    r
  }

  /** `heads` are the first values of the non-empty lists `rows`, in order. */
  ghost predicate HeadsOf<T>(rows: seq<seq<T>>, heads: seq<T>)
  {
    (forall i :: 0 <= i < |rows| ==> rows[i] != []) &&
    |heads| == |rows| && forall i :: 0 <= i < |heads| ==> heads[i] == rows[i][0]
  }

  lemma HeadsOfStep<T>(x: seq<T>, rows: seq<seq<T>>, heads: seq<T>)
    requires HeadsOf(rows, heads)
    ensures HeadsOf((if x == [] then [] else [x]) + rows, (if x == [] then [] else [x[0]]) + heads)
  {
    if x == [] {
      assert [] + rows == rows && [] + heads == heads;
    }
  }

  lemma {:induction false} HeadsOfFiltered<T>(rows: seq<seq<T>>)
    ensures HeadsOf(Filter(rows, NonEmpty), Heads(rows))
  {
    if rows != [] {
      HeadsOfFiltered(rows[1..]);
      HeadsOfStep(rows[0], Filter(rows[1..], NonEmpty), Heads(rows[1..]));
    }
  }

  /** A value is a head exactly when some non-empty list starts with it. */
  lemma {:induction false} HeadsMembers<T>(rows: seq<seq<T>>, x: T)
    ensures x in Heads(rows) <==> exists i :: 0 <= i < |rows| && rows[i] != [] && rows[i][0] == x
  {
    if rows != [] {
      HeadsMembers(rows[1..], x);
      if exists i :: 0 <= i < |rows| && rows[i] != [] && rows[i][0] == x {
        var i :| 0 <= i < |rows| && rows[i] != [] && rows[i][0] == x;
        if i > 0 { assert rows[1..][i - 1] == rows[i]; }
      }
      if exists i :: 0 <= i < |rows| - 1 && rows[1..][i] != [] && rows[1..][i][0] == x {
        var i :| 0 <= i < |rows| - 1 && rows[1..][i] != [] && rows[1..][i][0] == x;
        assert rows[i + 1] == rows[1..][i];
      }
    }
  }
}
