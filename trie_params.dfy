/**
 * The compile-time trie description built from a list of (string, symbol)
 * pairs: `trie_params` over type lists and its array twin.
 *
 * A description is either a leaf or the set of distinct first characters
 * together with, for each character, the description of the trie of the
 * remaining suffixes, whether the node is accepting, and its symbol.
 */
module TrieParams {
  import opened Lists
  import opened Wrappers

  type Pairs<S> = seq<(string, S)>

  datatype Params<S> = Leaf | Node(chars: seq<char>, children: seq<Child<S>>)
  datatype Child<S> = Child(sub: Params<S>, accept: bool, symbol: S)

  /**
   * What instantiating `trie_params` demands: every string is non-empty
   * (`BeginsWith` asserts it) and no string occurs twice (`choose_symbol`
   * asserts that at most one string of a group ends at the node).
   */
  predicate WellFormed<S>(pairs: Pairs<S>)
  {
    (forall i :: 0 <= i < |pairs| ==> pairs[i].0 != []) && NoDups(Firsts(pairs))
  }

  /** `BeginsWith<c>::Evaluator`: the string starts with `c`. */
  function BeginsWith(c: char): string -> bool
  {
    (s: string) => s != [] && s[0] == c
  }

  /** Total indexing, for stating facts about positions that may not exist. */
  function Nth<T>(s: seq<T>, i: nat, default: T): T
  {
    if i < |s| then s[i] else default
  }

  function IsEmptyList<T>(l: seq<T>): bool { l == [] }

  /** `has_empty_valuelist_v` / `has_empty_string_v`: fewer lists survive pruning than there are. */
  function HasEmpty<T>(lists: seq<seq<T>>): (r: bool)
    ensures r <==> exists k :: 0 <= k < |lists| && lists[k] == []
  {
    SubsetOfSubsetIdx(lists, NonEmpty);
    FilterKeepsAll(lists, NonEmpty);
    Size(SubsetIdx(lists, NonEmpty)) != Size(lists)
  }

  /** `choose_symbol_t`: the symbol at the (single) given index, otherwise the first one. */
  function ChooseSymbol<S>(syms: seq<S>, idx: seq<nat>): S
    requires syms != [] && InBounds(syms, idx)
  {
    if idx != [] then syms[idx[0]] else syms[0]
  }

  /** The longest string of the pairs; it bounds the depth of the description. */
  function MaxLen<S>(pairs: Pairs<S>): (r: nat)
    ensures forall i :: 0 <= i < |pairs| ==> |pairs[i].0| <= r
  {
    if pairs == [] then 0
    else var m := MaxLen(pairs[1..]); if |pairs[0].0| > m then |pairs[0].0| else m
  }

  lemma {:induction false} MaxLenAtMost<S>(pairs: Pairs<S>, b: nat)
    requires forall i :: 0 <= i < |pairs| ==> |pairs[i].0| <= b
    ensures MaxLen(pairs) <= b
  {
    if pairs != [] {
      assert forall i :: 0 <= i < |pairs| - 1 ==> pairs[1..][i] == pairs[i + 1];
      MaxLenAtMost(pairs[1..], b);
    }
  }

  // ---------------------------------------------------------------------
  // Reference definitions on pairs
  // ---------------------------------------------------------------------

  /** The pairs whose string satisfies `q`, in order. */
  function FilterFst<S>(pairs: Pairs<S>, q: string -> bool): Pairs<S>
  {
    if pairs == [] then []
    else (if q(pairs[0].0) then [pairs[0]] else []) + FilterFst(pairs[1..], q)
  }

  /** Every string with its first character dropped (`remove_first_element`), symbols kept. */
  function Shifted<S>(pairs: Pairs<S>): Pairs<S>
  {
    seq(|pairs|, i requires 0 <= i < |pairs| => (LeftShift(pairs[i].0), pairs[i].1))
  }

  /**
   * The pairs of the sub-trie under `c`: the strings beginning with `c`,
   * with `c` removed, those that became empty dropped, each keeping its symbol.
   */
  function Suffixes<S>(pairs: Pairs<S>, c: char): Pairs<S>
  {
    FilterFst(Shifted(FilterFst(pairs, BeginsWith(c))), NonEmpty)
  }

  lemma {:induction false} FilterFstColumns<S>(pairs: Pairs<S>, q: string -> bool)
    ensures FilterBy(Firsts(pairs), Firsts(pairs), q) == Firsts(FilterFst(pairs, q))
    ensures FilterBy(Seconds(pairs), Firsts(pairs), q) == Seconds(FilterFst(pairs, q))
  {
    if pairs != [] {
      var t := pairs[1..];
      assert Firsts(pairs)[1..] == Firsts(t);
      assert Seconds(pairs)[1..] == Seconds(t);
      FilterFstColumns(t, q);
      var head: Pairs<S> := if q(pairs[0].0) then [pairs[0]] else [];
      assert FilterFst(pairs, q) == head + FilterFst(t, q);
      assert Firsts(head + FilterFst(t, q)) == Firsts(head) + Firsts(FilterFst(t, q));
      assert Seconds(head + FilterFst(t, q)) == Seconds(head) + Seconds(FilterFst(t, q));
    }
  }

  lemma {:induction false} FilterFstMembers<S>(pairs: Pairs<S>, q: string -> bool, x: (string, S))
    ensures x in FilterFst(pairs, q) <==> x in pairs && q(x.0)
  {
    if pairs != [] {
      FilterFstMembers(pairs[1..], q, x);
      assert pairs == [pairs[0]] + pairs[1..];
    }
  }

  /** The first pair that passes the filter heads the filtered list. */
  lemma {:induction false} FilterFstHead<S>(pairs: Pairs<S>, q: string -> bool, i: nat)
    requires i < |pairs| && q(pairs[i].0)
    requires forall j :: 0 <= j < i ==> !q(pairs[j].0)
    ensures FilterFst(pairs, q) != [] && FilterFst(pairs, q)[0] == pairs[i]
  {
    if i > 0 {
      FilterFstHead(pairs[1..], q, i - 1);
    }
  }

  lemma {:induction false} FilterFstNoDups<S>(pairs: Pairs<S>, q: string -> bool)
    requires NoDups(Firsts(pairs))
    ensures NoDups(Firsts(FilterFst(pairs, q)))
  {
    if pairs != [] {
      var t := pairs[1..];
      assert Firsts(pairs)[1..] == Firsts(t);
      FilterFstNoDups(t, q);
      var rest := FilterFst(t, q);
      if q(pairs[0].0) {
        var r := [pairs[0]] + rest;
        assert FilterFst(pairs, q) == r;
        forall k | 0 < k < |r| ensures r[k].0 != pairs[0].0 {
          assert r[k] == rest[k - 1];
          FilterFstMembers(t, q, rest[k - 1]);
          var j :| 0 <= j < |t| && t[j] == rest[k - 1];
          assert Firsts(pairs)[j + 1] == r[k].0;
          assert Firsts(pairs)[0] == pairs[0].0;
        }
        forall a, b | 0 <= a < b < |r| ensures Firsts(r)[a] != Firsts(r)[b] {
          assert Firsts(r)[b] == r[b].0;
          if a > 0 {
            assert Firsts(r)[a] == Firsts(rest)[a - 1] && Firsts(r)[b] == Firsts(rest)[b - 1];
          } else {
            assert Firsts(r)[a] == pairs[0].0;
          }
        }
        assert NoDups(Firsts(r));
      } else {
        assert [] + rest == rest;
        assert FilterFst(pairs, q) == rest;
      }
    }
  }

  /** Dropping the shared first character keeps distinct strings distinct. */
  lemma ShiftedNoDups<S>(pairs: Pairs<S>, c: char)
    requires NoDups(Firsts(pairs))
    requires forall i :: 0 <= i < |pairs| ==> BeginsWith(c)(pairs[i].0)
    ensures NoDups(Firsts(Shifted(pairs)))
  {
    var f := Firsts(Shifted(pairs));
    forall a, b | 0 <= a < b < |f| ensures f[a] != f[b] {
      var sa, sb := pairs[a].0, pairs[b].0;
      assert sa == [c] + LeftShift(sa) && sb == [c] + LeftShift(sb);
      assert Firsts(pairs)[a] == sa && Firsts(pairs)[b] == sb;
      assert f[a] == LeftShift(sa) && f[b] == LeftShift(sb);
    }
  }

  /** A sub-trie pair is exactly a pair of the input with `c` put back in front. */
  lemma SuffixesMembers<S>(pairs: Pairs<S>, c: char)
    ensures forall k :: 0 <= k < |Suffixes(pairs, c)| ==>
      Suffixes(pairs, c)[k].0 != [] && ([c] + Suffixes(pairs, c)[k].0, Suffixes(pairs, c)[k].1) in pairs
    ensures forall i :: 0 <= i < |pairs| && |pairs[i].0| > 1 && pairs[i].0[0] == c ==>
      (pairs[i].0[1..], pairs[i].1) in Suffixes(pairs, c)
  {
    var g := FilterFst(pairs, BeginsWith(c));
    var sh := Shifted(g);
    var sub := Suffixes(pairs, c);
    forall k | 0 <= k < |sub| ensures sub[k].0 != [] && ([c] + sub[k].0, sub[k].1) in pairs {
      var x := sub[k];
      FilterFstMembers(sh, NonEmpty, x);
      var i :| 0 <= i < |sh| && sh[i] == x;
      FilterFstMembers(pairs, BeginsWith(c), g[i]);
      assert g[i].0 == [c] + x.0;
    }
    forall i | 0 <= i < |pairs| && |pairs[i].0| > 1 && pairs[i].0[0] == c
      ensures (pairs[i].0[1..], pairs[i].1) in sub
    {
      var y := pairs[i];
      FilterFstMembers(pairs, BeginsWith(c), y);
      var j :| 0 <= j < |g| && g[j] == y;
      assert sh[j] == (y.0[1..], y.1);
      FilterFstMembers(sh, NonEmpty, sh[j]);
    }
  }

  /** The sub-trie pairs again satisfy what `trie_params` demands, and are strictly shorter. */
  lemma SuffixesWellFormed<S>(pairs: Pairs<S>, c: char)
    requires WellFormed(pairs)
    ensures WellFormed(Suffixes(pairs, c))
    ensures pairs != [] ==> MaxLen(Suffixes(pairs, c)) < MaxLen(pairs)
  {
    var g := FilterFst(pairs, BeginsWith(c));
    var sub := Suffixes(pairs, c);
    SuffixesMembers(pairs, c);
    FilterFstNoDups(pairs, BeginsWith(c));
    forall i | 0 <= i < |g| ensures BeginsWith(c)(g[i].0) {
      FilterFstMembers(pairs, BeginsWith(c), g[i]);
    }
    ShiftedNoDups(g, c);
    FilterFstNoDups(Shifted(g), NonEmpty);
    if pairs != [] {
      assert |pairs[0].0| >= 1;
      forall k | 0 <= k < |sub| ensures |sub[k].0| <= MaxLen(pairs) - 1 {
        var i :| 0 <= i < |pairs| && pairs[i] == ([c] + sub[k].0, sub[k].1);
      }
      MaxLenAtMost(sub, MaxLen(pairs) - 1);
    }
  }

  // ---------------------------------------------------------------------
  // The builder
  // ---------------------------------------------------------------------

  /**
   * `trie_params`: a leaf for no pairs; otherwise the distinct first
   * characters (`set_t` of `get_first_value_t`) and one child per character.
   */
  function Build<S>(pairs: Pairs<S>): (r: Params<S>)
    requires WellFormed(pairs)
    decreases MaxLen(pairs), 1
    ensures r.Leaf? <==> pairs == []
    ensures r.Node? ==> |r.children| == |r.chars| && NoDups(r.chars)
    ensures r.Node? ==> forall c :: c in r.chars <==> exists i :: 0 <= i < |pairs| && pairs[i].0[0] == c
  {
    if pairs == [] then Leaf
    else
      var strs := Firsts(pairs);
      assert strs[0] != [];
      var heads := FirstValues(strs);
      var charset := Dedup(heads);
      assert forall c :: c in charset <==> exists i :: 0 <= i < |pairs| && pairs[i].0[0] == c by {
        forall c ensures c in charset <==> exists i :: 0 <= i < |pairs| && pairs[i].0[0] == c {
          HeadsMembers(strs, c);
          if c in charset {
            var k :| 0 <= k < |charset| && charset[k] == c;
            assert c in heads;
            var i :| 0 <= i < |strs| && strs[i] != [] && strs[i][0] == c;
            assert pairs[i].0 == strs[i];
          }
          if exists i :: 0 <= i < |pairs| && pairs[i].0[0] == c {
            var i :| 0 <= i < |pairs| && pairs[i].0[0] == c;
            assert strs[i] == pairs[i].0;
            var m :| 0 <= m < |heads| && heads[m] == c;
          }
        }
      }
      assert forall k :: 0 <= k < |charset| ==> charset[k] in charset;
      Node(charset, seq(|charset|, I requires 0 <= I < |charset| => BuildChild(pairs, charset[I])))
  }

  /**
   * `subtrie_params_t<I>` for the character `c`: the sub-description of the
   * suffixes, whether some string of the group ends here, and the symbol.
   */
  function BuildChild<S>(pairs: Pairs<S>, c: char): (r: Child<S>)
    requires WellFormed(pairs)
    requires exists i :: 0 <= i < |pairs| && pairs[i].0[0] == c
    decreases MaxLen(pairs), 0
    ensures (SuffixesWellFormed(pairs, c); r.sub == Build(Suffixes(pairs, c)))
    ensures r.accept <==> exists i :: 0 <= i < |pairs| && pairs[i].0 == [c]
    ensures forall i :: 0 <= i < |pairs| && pairs[i].0 == [c] ==> r.symbol == pairs[i].1
    ensures (forall i :: 0 <= i < |pairs| ==> pairs[i].0 != [c]) ==>
      exists i :: 0 <= i < |pairs| && pairs[i].0[0] == c && r.symbol == pairs[i].1 &&
        forall j :: 0 <= j < i ==> pairs[j].0[0] != c
  {
    var strs, syms := Firsts(pairs), Seconds(pairs);
    var idx := SubsetIdx(strs, BeginsWith(c));
    SubsetByIdx(strs, strs, BeginsWith(c));
    SubsetByIdx(syms, strs, BeginsWith(c));
    var groupStrs, groupSyms := Subset(strs, idx), Subset(syms, idx);
    var removed := Transform(groupStrs, LeftShift);
    var keep := SubsetIdx(removed, NonEmpty);
    SubsetByIdx(removed, removed, NonEmpty);
    SubsetByIdx(groupSyms, removed, NonEmpty);
    var subPairs := ZipPairs(Subset(removed, keep), Subset(groupSyms, keep));
    var ends := SubsetIdx(removed, IsEmptyList);
    GroupPipeline(pairs, c);
    SuffixesWellFormed(pairs, c);
    ChildFacts(pairs, c);
    Child(Build(subPairs), HasEmpty(removed), ChooseSymbol(groupSyms, ends))
  }

  /** The index pipeline of `subtrie_params_t` computes `Suffixes`. */
  lemma GroupPipeline<S>(pairs: Pairs<S>, c: char)
    ensures
      var strs, syms := Firsts(pairs), Seconds(pairs);
      var idx := SubsetIdx(strs, BeginsWith(c));
      var groupStrs, groupSyms := Subset(strs, idx), Subset(syms, idx);
      var removed := Transform(groupStrs, LeftShift);
      var keep := SubsetIdx(removed, NonEmpty);
      var g := FilterFst(pairs, BeginsWith(c));
      && groupStrs == Firsts(g) && groupSyms == Seconds(g)
      && removed == Firsts(Shifted(g))
      && InBounds(groupSyms, keep)
      && ZipPairs(Subset(removed, keep), Subset(groupSyms, keep)) == Suffixes(pairs, c)
  {
    var strs, syms := Firsts(pairs), Seconds(pairs);
    var idx := SubsetIdx(strs, BeginsWith(c));
    SubsetByIdx(strs, strs, BeginsWith(c));
    SubsetByIdx(syms, strs, BeginsWith(c));
    FilterFstColumns(pairs, BeginsWith(c));
    var g := FilterFst(pairs, BeginsWith(c));
    var sh := Shifted(g);
    var removed := Transform(Subset(strs, idx), LeftShift);
    assert removed == Firsts(sh);
    assert Seconds(sh) == Seconds(g);
    var keep := SubsetIdx(removed, NonEmpty);
    SubsetByIdx(Firsts(sh), Firsts(sh), NonEmpty);
    SubsetByIdx(Seconds(sh), Firsts(sh), NonEmpty);
    FilterFstColumns(sh, NonEmpty);
    ZipPairsRoundTrip(Firsts(FilterFst(sh, NonEmpty)), Seconds(FilterFst(sh, NonEmpty)), FilterFst(sh, NonEmpty));
  }

  /** The group of `c`: input pairs beginning with `c`, no string twice, `[c]` ending exactly where the suffix is empty. */
  lemma GroupMembers<S>(pairs: Pairs<S>, c: char)
    requires WellFormed(pairs)
    ensures var g := FilterFst(pairs, BeginsWith(c));
      && NoDups(Firsts(g))
      && (forall k :: 0 <= k < |g| ==> g[k] in pairs && BeginsWith(c)(g[k].0))
      && (forall k :: 0 <= k < |g| ==> (Firsts(Shifted(g))[k] == [] <==> g[k].0 == [c]))
  {
    var g := FilterFst(pairs, BeginsWith(c));
    forall k | 0 <= k < |g| ensures g[k] in pairs && BeginsWith(c)(g[k].0) {
      FilterFstMembers(pairs, BeginsWith(c), g[k]);
    }
    forall k | 0 <= k < |g| ensures Firsts(Shifted(g))[k] == [] <==> g[k].0 == [c] {
      assert g[k].0 == [c] + LeftShift(g[k].0);
    }
    FilterFstNoDups(pairs, BeginsWith(c));
  }

  /** At most one string of a group ends at the node, so `choose_symbol`'s assertion holds. */
  lemma AtMostOneEnds<S>(pairs: Pairs<S>, c: char)
    requires WellFormed(pairs)
    ensures var g := FilterFst(pairs, BeginsWith(c));
      var ends := SubsetIdx(Firsts(Shifted(g)), IsEmptyList);
      && |ends| <= 1
      && forall k :: 0 <= k < |ends| ==> g[ends[k]].0 == [c]
  {
    var g := FilterFst(pairs, BeginsWith(c));
    var ends := SubsetIdx(Firsts(Shifted(g)), IsEmptyList);
    GroupMembers(pairs, c);
    forall k | 0 <= k < |ends| ensures g[ends[k]].0 == [c] {
      assert Firsts(Shifted(g))[ends[k]] == [];
    }
    assert |ends| < 2 || Nth(Firsts(g), Nth(ends, 0, 0), []) != Nth(Firsts(g), Nth(ends, 1, 0), []);
  }

  /** `[c]` is an input string exactly when the last step of the group leaves an empty string. */
  lemma AcceptFact<S>(pairs: Pairs<S>, c: char)
    requires WellFormed(pairs)
    ensures var g := FilterFst(pairs, BeginsWith(c));
      HasEmpty(Firsts(Shifted(g))) <==> exists i :: 0 <= i < |pairs| && pairs[i].0 == [c]
  {
    var g := FilterFst(pairs, BeginsWith(c));
    var removed := Firsts(Shifted(g));
    GroupMembers(pairs, c);
    if exists k :: 0 <= k < |removed| && removed[k] == [] {
      var k :| 0 <= k < |removed| && removed[k] == [];
      var j :| 0 <= j < |pairs| && pairs[j] == g[k];
    }
    if exists i :: 0 <= i < |pairs| && pairs[i].0 == [c] {
      var i :| 0 <= i < |pairs| && pairs[i].0 == [c];
      FilterFstMembers(pairs, BeginsWith(c), pairs[i]);
      var k :| 0 <= k < |g| && g[k] == pairs[i];
      assert removed[k] == [];
    }
  }

  /** The chosen symbol is that of the string `[c]` when it is an input string. */
  lemma ExactSymbolFact<S>(pairs: Pairs<S>, c: char, i: nat)
    requires WellFormed(pairs)
    requires i < |pairs| && pairs[i].0 == [c]
    ensures var g := FilterFst(pairs, BeginsWith(c));
      var ends := SubsetIdx(Firsts(Shifted(g)), IsEmptyList);
      g != [] && ChooseSymbol(Seconds(g), ends) == pairs[i].1
  {
    var g := FilterFst(pairs, BeginsWith(c));
    var ends := SubsetIdx(Firsts(Shifted(g)), IsEmptyList);
    GroupMembers(pairs, c);
    AtMostOneEnds(pairs, c);
    FilterFstMembers(pairs, BeginsWith(c), pairs[i]);
    var k :| 0 <= k < |g| && g[k] == pairs[i];
    assert k in ends;
    var m := ends[0];
    assert Firsts(g)[m] == [c] == Firsts(g)[k];
  }

  /** Otherwise the chosen symbol is that of the first string beginning with `c`. */
  lemma FirstSymbolFact<S>(pairs: Pairs<S>, c: char, i0: nat)
    requires WellFormed(pairs)
    requires i0 < |pairs| && pairs[i0].0[0] == c
    requires forall i :: 0 <= i < |pairs| ==> pairs[i].0 != [c]
    ensures var g := FilterFst(pairs, BeginsWith(c));
      var ends := SubsetIdx(Firsts(Shifted(g)), IsEmptyList);
      && g != []
      && exists i :: 0 <= i < |pairs| && pairs[i].0[0] == c && ChooseSymbol(Seconds(g), ends) == pairs[i].1 &&
           forall j :: 0 <= j < i ==> pairs[j].0[0] != c
  {
    var g := FilterFst(pairs, BeginsWith(c));
    var ends := SubsetIdx(Firsts(Shifted(g)), IsEmptyList);
    GroupMembers(pairs, c);
    var first := FirstWith(pairs, c, i0);
    FilterFstHead(pairs, BeginsWith(c), first);
    forall k | 0 <= k < |g| ensures Firsts(Shifted(g))[k] != [] {
      var j :| 0 <= j < |pairs| && pairs[j] == g[k];
    }
    assert ends == [] || Nth(Firsts(Shifted(g)), Nth(ends, 0, 0), "x") == [];
    assert ChooseSymbol(Seconds(g), ends) == pairs[first].1;
    assert forall j :: 0 <= j < first ==> pairs[j].0[0] != c by {
      forall j | 0 <= j < first ensures pairs[j].0[0] != c {
        assert !BeginsWith(c)(pairs[j].0);
      }
    }
  }

  /** Acceptance and symbol of the child for `c`, in terms of the input pairs. */
  lemma ChildFacts<S>(pairs: Pairs<S>, c: char)
    requires WellFormed(pairs)
    requires exists i :: 0 <= i < |pairs| && pairs[i].0[0] == c
    ensures var g := FilterFst(pairs, BeginsWith(c));
      var ends := SubsetIdx(Firsts(Shifted(g)), IsEmptyList);
      && g != [] && InBounds(Seconds(g), ends)
      && (HasEmpty(Firsts(Shifted(g))) <==> exists i :: 0 <= i < |pairs| && pairs[i].0 == [c])
      && (forall i :: 0 <= i < |pairs| && pairs[i].0 == [c] ==> ChooseSymbol(Seconds(g), ends) == pairs[i].1)
      && ((forall i :: 0 <= i < |pairs| ==> pairs[i].0 != [c]) ==>
            exists i :: 0 <= i < |pairs| && pairs[i].0[0] == c && ChooseSymbol(Seconds(g), ends) == pairs[i].1 &&
              forall j :: 0 <= j < i ==> pairs[j].0[0] != c)
  {
    var g := FilterFst(pairs, BeginsWith(c));
    var ends := SubsetIdx(Firsts(Shifted(g)), IsEmptyList);
    var i0 :| 0 <= i0 < |pairs| && pairs[i0].0[0] == c;
    FilterFstMembers(pairs, BeginsWith(c), pairs[i0]);
    AtMostOneEnds(pairs, c);
    AcceptFact(pairs, c);
    forall i | 0 <= i < |pairs| && pairs[i].0 == [c] ensures ChooseSymbol(Seconds(g), ends) == pairs[i].1 {
      ExactSymbolFact(pairs, c, i);
    }
    if forall i :: 0 <= i < |pairs| ==> pairs[i].0 != [c] {
      FirstSymbolFact(pairs, c, i0);
    }
  }

  /** The index of the first string beginning with `c`, given that one exists at or after `i`... */
  function FirstWith<S>(pairs: Pairs<S>, c: char, i: nat): (k: nat)
    requires i < |pairs| && pairs[i].0 != [] && pairs[i].0[0] == c
    ensures k <= i && pairs[k].0 != [] && pairs[k].0[0] == c
    ensures forall j :: 0 <= j < k ==> !BeginsWith(c)(pairs[j].0)
  {
    if BeginsWith(c)(pairs[0].0) then 0
    else 1 + FirstWith(pairs[1..], c, i - 1)
  }

  // ---------------------------------------------------------------------
  // What a description means
  // ---------------------------------------------------------------------

  /** Follow the characters of `p` from the root; the child reached by the last one, if any. */
  function Walk<S>(t: Params<S>, p: string): Option<Child<S>>
    requires p != []
    decreases |p|
  {
    match t
    case Leaf => None
    case Node(chars, children) =>
      if p[0] !in chars then None
      else
        var k := LastIndex(chars, p[0]);
        if k >= |children| then None
        else if |p| == 1 then Some(children[k])
        else Walk(children[k].sub, p[1..])
  }

  /** Following `[c] + q` is following `q` in the sub-description built from `Suffixes(pairs, c)`. */
  lemma WalkStep<S>(pairs: Pairs<S>, p: string)
    requires WellFormed(pairs) && |p| > 1
    requires exists i :: 0 <= i < |pairs| && pairs[i].0[0] == p[0]
    ensures WellFormed(Suffixes(pairs, p[0]))
    ensures Walk(Build(pairs), p) == Walk(Build(Suffixes(pairs, p[0])), p[1..])
  {
    SuffixesWellFormed(pairs, p[0]);
    var t := Build(pairs);
    var k := LastIndex(t.chars, p[0]);
    assert t.children[k] == BuildChild(pairs, t.chars[k]);
  }

  /** Prefixes and exact strings correspond between the input and the sub-trie pairs of `p[0]`. */
  lemma SuffixesPrefixes<S>(pairs: Pairs<S>, p: string)
    requires WellFormed(pairs) && |p| > 1
    ensures (exists i :: 0 <= i < |pairs| && p <= pairs[i].0) <==>
            (exists j :: 0 <= j < |Suffixes(pairs, p[0])| && p[1..] <= Suffixes(pairs, p[0])[j].0)
    ensures (exists i :: 0 <= i < |pairs| && pairs[i].0 == p) <==>
            (exists j :: 0 <= j < |Suffixes(pairs, p[0])| && Suffixes(pairs, p[0])[j].0 == p[1..])
    ensures forall i :: 0 <= i < |pairs| && pairs[i].0 == p ==>
            exists j :: 0 <= j < |Suffixes(pairs, p[0])| && Suffixes(pairs, p[0])[j] == (p[1..], pairs[i].1)
  {
    SuffixesPrefixOf(pairs, p);
    SuffixesExact(pairs, p);
  }

  lemma SuffixesPrefixOf<S>(pairs: Pairs<S>, p: string)
    requires WellFormed(pairs) && |p| > 1
    ensures (exists i :: 0 <= i < |pairs| && p <= pairs[i].0) <==>
            (exists j :: 0 <= j < |Suffixes(pairs, p[0])| && p[1..] <= Suffixes(pairs, p[0])[j].0)
  {
    var c, q := p[0], p[1..];
    var sub := Suffixes(pairs, c);
    SuffixesMembers(pairs, c);
    assert p == [c] + q;
    if exists i :: 0 <= i < |pairs| && p <= pairs[i].0 {
      var i :| 0 <= i < |pairs| && p <= pairs[i].0;
      var s := pairs[i].0;
      assert s[0] == c && |s| > 1 && q <= s[1..];
      var j :| 0 <= j < |sub| && sub[j] == (s[1..], pairs[i].1);
    }
    if exists j :: 0 <= j < |sub| && q <= sub[j].0 {
      var j :| 0 <= j < |sub| && q <= sub[j].0;
      var i :| 0 <= i < |pairs| && pairs[i] == ([c] + sub[j].0, sub[j].1);
      assert p <= pairs[i].0;
    }
  }

  lemma SuffixesExact<S>(pairs: Pairs<S>, p: string)
    requires WellFormed(pairs) && |p| > 1
    ensures (exists i :: 0 <= i < |pairs| && pairs[i].0 == p) <==>
            (exists j :: 0 <= j < |Suffixes(pairs, p[0])| && Suffixes(pairs, p[0])[j].0 == p[1..])
    ensures forall i :: 0 <= i < |pairs| && pairs[i].0 == p ==>
            exists j :: 0 <= j < |Suffixes(pairs, p[0])| && Suffixes(pairs, p[0])[j] == (p[1..], pairs[i].1)
  {
    var c, q := p[0], p[1..];
    var sub := Suffixes(pairs, c);
    SuffixesMembers(pairs, c);
    assert p == [c] + q;
    forall i | 0 <= i < |pairs| && pairs[i].0 == p
      ensures exists j :: 0 <= j < |sub| && sub[j] == (q, pairs[i].1)
    {
      assert (pairs[i].0[1..], pairs[i].1) in sub;
    }
    if exists j :: 0 <= j < |sub| && sub[j].0 == q {
      var j :| 0 <= j < |sub| && sub[j].0 == q;
      var i :| 0 <= i < |pairs| && pairs[i] == ([c] + sub[j].0, sub[j].1);
    }
  }

  /**
   * The description is a trie of the pairs: a path leads to a node exactly
   * when it is a prefix of some string; that node accepts exactly when the
   * path is one of the strings, and then it carries that string's symbol.
   */
  lemma {:induction false} WalkBuild<S>(pairs: Pairs<S>, p: string)
    requires WellFormed(pairs) && p != []
    decreases |p|
    ensures Walk(Build(pairs), p).Some? <==> exists i :: 0 <= i < |pairs| && p <= pairs[i].0
    ensures Walk(Build(pairs), p).Some? ==>
      (Walk(Build(pairs), p).value.accept <==> exists i :: 0 <= i < |pairs| && pairs[i].0 == p)
    ensures forall i :: 0 <= i < |pairs| && pairs[i].0 == p ==>
      Walk(Build(pairs), p).Some? && Walk(Build(pairs), p).value.symbol == pairs[i].1
  {
    if exists i :: 0 <= i < |pairs| && pairs[i].0[0] == p[0] {
      if |p| == 1 {
        WalkBuildOne(pairs, p);
      } else {
        WalkStep(pairs, p);
        WalkBuild(Suffixes(pairs, p[0]), p[1..]);
        SuffixesPrefixes(pairs, p);
      }
    } else {
      WalkBuildMiss(pairs, p);
    }
  }

  /** A single character that begins some string leads to the child built for it. */
  lemma WalkRoot<S>(pairs: Pairs<S>, c: char)
    requires WellFormed(pairs)
    requires exists i :: 0 <= i < |pairs| && pairs[i].0[0] == c
    ensures Walk(Build(pairs), [c]) == Some(BuildChild(pairs, c))
  {
    var t := Build(pairs);
    var k := LastIndex(t.chars, c);
    assert t.children[k] == BuildChild(pairs, t.chars[k]);
  }

  lemma WalkBuildOne<S>(pairs: Pairs<S>, p: string)
    requires WellFormed(pairs) && |p| == 1
    requires exists i :: 0 <= i < |pairs| && pairs[i].0[0] == p[0]
    ensures Walk(Build(pairs), p).Some? <==> exists i :: 0 <= i < |pairs| && p <= pairs[i].0
    ensures Walk(Build(pairs), p).Some? ==>
      (Walk(Build(pairs), p).value.accept <==> exists i :: 0 <= i < |pairs| && pairs[i].0 == p)
    ensures forall i :: 0 <= i < |pairs| && pairs[i].0 == p ==>
      Walk(Build(pairs), p).Some? && Walk(Build(pairs), p).value.symbol == pairs[i].1
  {
    var c := p[0];
    assert p == [c];
    WalkRoot(pairs, c);
    var i :| 0 <= i < |pairs| && pairs[i].0[0] == c;
    assert p <= pairs[i].0;
  }

  /** A first character that begins no string leads nowhere. */
  lemma WalkBuildMiss<S>(pairs: Pairs<S>, p: string)
    requires WellFormed(pairs) && p != []
    requires !exists i :: 0 <= i < |pairs| && pairs[i].0[0] == p[0]
    ensures Walk(Build(pairs), p).None?
    ensures !exists i :: 0 <= i < |pairs| && p <= pairs[i].0
  {
    assert forall i :: 0 <= i < |pairs| ==> !(p <= pairs[i].0);
  }

  /** Every string of the input is accepted by its own path, with its own symbol. */
  lemma BuildAcceptsEachString<S>(pairs: Pairs<S>, i: nat)
    requires WellFormed(pairs) && i < |pairs|
    ensures Walk(Build(pairs), pairs[i].0).Some?
    ensures Walk(Build(pairs), pairs[i].0).value.accept
    ensures Walk(Build(pairs), pairs[i].0).value.symbol == pairs[i].1
  {
    WalkBuild(pairs, pairs[i].0);
  }

  /** A child with no sub-trie (a leaf) is always accepting: some string ends there. */
  lemma LeafChildAccepts<S>(pairs: Pairs<S>, c: char)
    requires WellFormed(pairs)
    requires exists i :: 0 <= i < |pairs| && pairs[i].0[0] == c
    ensures BuildChild(pairs, c).sub.Leaf? ==> BuildChild(pairs, c).accept
  {
    SuffixesWellFormed(pairs, c);
    SuffixesMembers(pairs, c);
    var i :| 0 <= i < |pairs| && pairs[i].0[0] == c;
    if |pairs[i].0| > 1 {
      assert (pairs[i].0[1..], pairs[i].1) in Suffixes(pairs, c);
    } else {
      assert pairs[i].0 == [c];
    }
  }

  /** The depth-two case "a" -> 0, "ab" -> 1, "ba" -> 1: the root characters. */
  lemma DepthTwoChars(pairs: Pairs<int>)
    requires pairs == [("a", 0), ("ab", 1), ("ba", 1)]
    ensures WellFormed(pairs)
    ensures Build(pairs).chars == ['a', 'b']
  {
    var strs := Firsts(pairs);
    assert strs == ["a", "ab", "ba"];
    assert Heads(strs) == ['a', 'a', 'b'] by {
      var s1, s2 := strs[1..], strs[2..];
      assert s1 == ["ab", "ba"] && s2 == ["ba"] && s1[1..] == s2 && s2[1..] == [];
      assert Heads(s2) == ['b'];
      assert Heads(s1) == ['a', 'b'];
    }
    var heads: seq<char> := ['a', 'a', 'b'];
    assert Dedup(heads) == ['a', 'b'] by {
      assert heads[1..] == ['a', 'b'] && heads[1..][1..] == ['b'] && heads[1..][1..][1..] == [];
      assert Dedup(heads[1..][1..]) == ['b'];
      assert Dedup(heads[1..]) == ['a', 'b'];
    }
  }

  /** The depth-two case: "a" and "ab" accept with their own symbols. */
  lemma DepthTwoAccepts(pairs: Pairs<int>)
    requires pairs == [("a", 0), ("ab", 1), ("ba", 1)]
    ensures WellFormed(pairs)
    ensures Walk(Build(pairs), "a").Some? && Walk(Build(pairs), "a").value.symbol == 0
    ensures Walk(Build(pairs), "ab").Some? && Walk(Build(pairs), "ab").value.symbol == 1
  {
    assert Firsts(pairs) == ["a", "ab", "ba"];
    BuildAcceptsEachString(pairs, 0);
    BuildAcceptsEachString(pairs, 1);
  }

  lemma DepthTwoNoB(pairs: Pairs<int>)
    requires pairs == [("a", 0), ("ab", 1), ("ba", 1)]
    ensures "b" <= pairs[2].0
    ensures forall i :: 0 <= i < |pairs| ==> pairs[i].0 != "b"
  {
    assert pairs[0].0 == "a" && pairs[1].0 == "ab" && pairs[2].0 == "ba";
  }

  lemma DepthTwoShort(pairs: Pairs<int>)
    requires pairs == [("a", 0), ("ab", 1), ("ba", 1)]
    ensures forall i :: 0 <= i < |pairs| ==> |pairs[i].0| < 3
  {
    assert pairs[0].0 == "a" && pairs[1].0 == "ab" && pairs[2].0 == "ba";
  }

  /** The depth-two case: "b" is a node on the way to "ba" but does not accept. */
  lemma DepthTwoInner(pairs: Pairs<int>)
    requires pairs == [("a", 0), ("ab", 1), ("ba", 1)]
    ensures WellFormed(pairs)
    ensures Walk(Build(pairs), "b").Some? && !Walk(Build(pairs), "b").value.accept
  {
    DepthTwoChars(pairs);
    WalkBuild(pairs, "b");
    DepthTwoNoB(pairs);
  }

  /** The depth-two case: "abc" is no prefix of a string, so it leads nowhere. */
  lemma DepthTwoOutside(pairs: Pairs<int>)
    requires pairs == [("a", 0), ("ab", 1), ("ba", 1)]
    ensures WellFormed(pairs)
    ensures Walk(Build(pairs), "abc").None?
  {
    DepthTwoChars(pairs);
    WalkBuild(pairs, "abc");
    DepthTwoShort(pairs);
  }

  // ---------------------------------------------------------------------
  // The array twin in utils/trie.hpp
  // ---------------------------------------------------------------------

  /** `get_first_chars_t`: every string's first character; the same as the list version's heads. */
  function FirstChars(strs: seq<string>): (r: seq<char>)
    requires forall i :: 0 <= i < |strs| ==> strs[i] != []
    ensures r == Heads(strs)
  {
    if strs == [] then [] else [strs[0][0]] + FirstChars(strs[1..])
  }

  /** `remove_first_chars_t`: every string without its first character (`substr(1)`). */
  function RemoveFirstChars(strs: seq<string>): (r: seq<string>)
    requires forall i :: 0 <= i < |strs| ==> strs[i] != []
    ensures |r| == |strs| && forall i :: 0 <= i < |strs| ==> [strs[i][0]] + r[i] == strs[i]
    ensures r == Transform(strs, LeftShift)
  {
    assert forall i :: 0 <= i < |strs| ==> LeftShift(strs[i]) == strs[i][1..];
    seq(|strs|, i requires 0 <= i < |strs| => strs[i][1..])
  }

  /**
   * `make_trie`'s checks: the array is non-empty and its strings are unique
   * (`is_unique_v`). Together with non-empty strings they make the
   * description well defined and a proper node.
   */
  function MakeTrieChecks<S>(pairs: Pairs<S>): (r: bool)
    ensures r <==> pairs != [] && NoDups(Firsts(pairs))
  {
    !IsEmpty(pairs) && IsUnique(Firsts(pairs))
  }
}
