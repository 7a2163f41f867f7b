/**
 * The trie that a lexer steps through one character at a time, built from
 * a `trie_params` description. Each node keeps a pointer to its active
 * child; the chain of active children, read from the root, spells the
 * characters consumed so far. The model keeps that chain as the sequence
 * `active` of those characters and reads every node's data off the
 * description it was built from.
 */
module LexTrie {
  import opened Wrappers
  import opened Lists
  import opened TrieParams
  import opened SortedMap

  // ---------------------------------------------------------------------
  // The children map of a node
  // ---------------------------------------------------------------------

  function InsertByKey<X>(e: (char, X), s: seq<(char, X)>): (r: seq<(char, X)>)
    requires SortedKeys(s)
    ensures SortedKeys(r) && multiset(r) == multiset(s) + multiset{e}
    ensures r[0] == e || (s != [] && r[0] == s[0])
  {
    if s == [] || e.0 <= s[0].0 then [e] + s
    else
      var t := InsertByKey(e, s[1..]);
      InsertedBehind(e, s, t);
      [s[0]] + t
  }

  /** Inserting behind a head whose key is smaller keeps the head in front. */
  lemma InsertedBehind<X>(e: (char, X), s: seq<(char, X)>, t: seq<(char, X)>)
    requires s != [] && SortedKeys(s) && s[0].0 < e.0
    requires SortedKeys(t) && multiset(t) == multiset(s[1..]) + multiset{e}
    requires t[0] == e || (s[1..] != [] && t[0] == s[1..][0])
    ensures SortedKeys([s[0]] + t) && multiset([s[0]] + t) == multiset(s) + multiset{e}
  {
    assert s == [s[0]] + s[1..];
    assert multiset([s[0]] + t) == multiset{s[0]} + multiset(t);
    var r := [s[0]] + t;
    forall i, j | 0 <= i < j < |r| ensures r[i].0 <= r[j].0 {
      if i == 0 {
        assert r[j] == t[j - 1];
        assert t[0].0 <= t[j - 1].0;
        assert s[0].0 <= t[0].0;
      } else {
        assert r[i] == t[i - 1] && r[j] == t[j - 1];
      }
    }
  }

  /** Ascending order of keys, as `sort_idx_t` arranges the character list. */
  function SortByKey<X>(s: seq<(char, X)>): (r: seq<(char, X)>)
    ensures SortedKeys(r) && multiset(r) == multiset(s)
  {
    if s == [] then []
    else
      assert s == [s[0]] + s[1..];
      InsertByKey(s[0], SortByKey(s[1..]))
  }

  /** Two sequences with the same multiset have the same length and each holds every element of the other. */
  lemma SameElements<X>(a: seq<X>, b: seq<X>)
    requires multiset(a) == multiset(b)
    ensures |a| == |b|
    ensures forall i :: 0 <= i < |a| ==> a[i] in b
    ensures forall i :: 0 <= i < |b| ==> b[i] in a
  {
    assert |a| == |multiset(a)| && |b| == |multiset(b)|;
    forall i | 0 <= i < |a|
      ensures a[i] in b
    {
      assert a[i] in multiset(a);
    }
    forall i | 0 <= i < |b|
      ensures b[i] in a
    {
      assert b[i] in multiset(b);
    }
  }

  /** `make_children`: the (character, child) entries of a node, keys in ascending order. */
  function MakeChildren<S>(chars: seq<char>, children: seq<Child<S>>): (r: seq<(char, Child<S>)>)
    requires |chars| == |children|
    ensures SortedKeys(r) && |r| == |chars|
    ensures forall i :: 0 <= i < |chars| ==> (chars[i], children[i]) in r
    ensures forall k :: 0 <= k < |r| ==> exists i :: 0 <= i < |chars| && r[k] == (chars[i], children[i])
  {
    var z := ZipPairs(chars, children);
    var r := SortByKey(z);
    SameElements(r, z);
    assert forall i :: 0 <= i < |chars| ==> z[i] == (chars[i], children[i]);
    r
  }

  /** Searching the children map for `c` finds the child the description gives for `c`. */
  lemma ChildLookup<S>(chars: seq<char>, children: seq<Child<S>>, c: char)
    requires |chars| == |children| && NoDups(chars)
    ensures var e := MakeChildren(chars, children);
      && (Search(e, c) < |e| <==> c in chars)
      && (Search(e, c) < |e| ==> e[Search(e, c)].1 == children[LastIndex(chars, c)])
  {
    var e := MakeChildren(chars, children);
    var k := Search(e, c);
    if c in chars {
      var j := LastIndex(chars, c);
      assert (chars[j], children[j]) in e;
    }
    if k < |e| {
      var i :| 0 <= i < |chars| && e[k] == (chars[i], children[i]);
      assert chars[i] == c;
      assert i == LastIndex(chars, c);
    }
  }

  // ---------------------------------------------------------------------
  // Descriptions the trie can be built from
  // ---------------------------------------------------------------------

  /** Every node has one child per character and no character twice. */
  ghost predicate Proper<S>(t: Params<S>)
  {
    match t
    case Leaf => true
    case Node(chars, children) =>
      |chars| == |children| && NoDups(chars) &&
      forall i :: 0 <= i < |children| ==> Proper(children[i].sub)
  }

  lemma {:induction false} BuildProper<S>(pairs: Pairs<S>)
    requires WellFormed(pairs)
    decreases MaxLen(pairs)
    ensures Proper(Build(pairs))
  {
    var t := Build(pairs);
    if t.Node? {
      forall i | 0 <= i < |t.children| ensures Proper(t.children[i].sub) {
        var c := t.chars[i];
        assert c in t.chars;
        assert t.children[i] == BuildChild(pairs, c);
        SuffixesWellFormed(pairs, c);
        BuildProper(Suffixes(pairs, c));
      }
    }
  }

  /** A path is a sequence of characters the trie can follow from the root. */
  ghost predicate OnPath<S>(t: Params<S>, p: string)
  {
    p == [] || Walk(t, p).Some?
  }

  /** The description hanging below the end of a path. */
  function Under<S>(t: Params<S>, p: string): Params<S>
    requires p == [] || Walk(t, p).Some?
  {
    if p == [] then t else Walk(t, p).value.sub
  }

  lemma {:induction false} UnderProper<S>(t: Params<S>, p: string)
    requires Proper(t) && OnPath(t, p)
    decreases |p|
    ensures Proper(Under(t, p))
  {
    if p != [] {
      var k := LastIndex(t.chars, p[0]);
      if |p| > 1 {
        UnderProper(t.children[k].sub, p[1..]);
      }
    }
  }

  /** One more character extends a path exactly when the node at its end has a child for it. */
  lemma {:induction false} WalkSnoc<S>(t: Params<S>, p: string, c: char)
    requires Proper(t) && OnPath(t, p)
    decreases |p|
    ensures var n := Under(t, p);
      Walk(t, p + [c]) ==
        if n.Node? && c in n.chars && LastIndex(n.chars, c) < |n.children|
        then Some(n.children[LastIndex(n.chars, c)]) else None
  {
    if p != [] {
      var k := LastIndex(t.chars, p[0]);
      assert (p + [c])[0] == p[0] && (p + [c])[1..] == p[1..] + [c];
      if |p| > 1 {
        WalkSnoc(t.children[k].sub, p[1..], c);
      }
    }
  }

  /** A prefix of a path is a path. */
  lemma {:induction false} WalkPrefix<S>(t: Params<S>, p: string, m: nat)
    requires OnPath(t, p) && m <= |p|
    decreases |p|
    ensures OnPath(t, p[..m])
  {
    if m > 0 && |p| > 1 {
      var k := LastIndex(t.chars, p[0]);
      assert p[..m][0] == p[0];
      if m > 1 {
        assert p[..m][1..] == p[1..][..m - 1];
        WalkPrefix(t.children[k].sub, p[1..], m - 1);
      }
    }
  }

  // ---------------------------------------------------------------------
  // back_transition's receipt
  // ---------------------------------------------------------------------

  /**
   * The value `back_transition(num)` returns at a node with `depth` active
   * levels below it: an inactive node answers 0; otherwise the child's
   * receipt is returned when it is `num`, and one more after dropping the child.
   */
  function BackCount(depth: nat, num: nat): (r: nat)
    ensures r <= depth && r <= num
  {
    if depth == 0 then 0
    else
      var b := BackCount(depth - 1, num);
      if b == num then b else b + 1
  }

  /** `back_transition(num)` undoes min(num, depth) levels. */
  lemma {:induction false} BackCountIsMin(depth: nat, num: nat)
    ensures BackCount(depth, num) == if num < depth then num else depth
  {
    if depth > 0 {
      BackCountIsMin(depth - 1, num);
    }
  }

  // ---------------------------------------------------------------------
  // The trie
  // ---------------------------------------------------------------------

  class Trie<S> {
    const root: Params<S>
    var active: seq<char>

    ghost predicate Valid()
      reads this
    {
      root.Node? && Proper(root) && OnPath(root, active)
    }

    /** The root: not a child of anything, not accepting, no symbol, nothing active. */
    constructor (params: Params<S>)
      requires params.Node? && Proper(params)
      ensures Valid() && root == params && active == []
    {
      root := params;
      active := [];
    }

    /** The node transitions are tried from: the deepest active one. */
    function Current(): Params<S>
      reads this
      requires Valid()
    {
      Under(root, active)
    }

    /**
     * `transition(c, f)`: the deepest active node looks `c` up in its
     * children map; on a hit the child becomes active and `f` runs once.
     * A leaf never transitions. `fired` counts the calls of `f`.
     */
    method Transition(c: char) returns (ok: bool, fired: nat)
      requires Valid()
      modifies this
      ensures Valid()
      ensures ok <==> Walk(root, old(active) + [c]).Some?
      ensures active == if ok then old(active) + [c] else old(active)
      ensures fired == if ok then 1 else 0
    {
      var node := Current();
      UnderProper(root, active);
      WalkSnoc(root, active, c);
      if node.Leaf? {
        return false, 0;
      }
      var entries := MakeChildren(node.chars, node.children);
      var pos := Search(entries, c);
      ChildLookup(node.chars, node.children, c);
      if pos < |entries| {
        active := active + [c];
        ok, fired := true, 1;
      } else {
        ok, fired := false, 0;
      }
    }

    /** `back_transition(num)`: the receipt is min(num, depth) and that many levels are deactivated. */
    method BackTransition(num: nat) returns (back: nat)
      requires Valid()
      modifies this
      ensures Valid()
      ensures back == if num < |old(active)| then num else |old(active)|
      ensures active == old(active)[..|old(active)| - back]
    {
      back := BackCount(|active|, num);
      BackCountIsMin(|active|, num);
      WalkPrefix(root, active, |active| - back);
      active := active[..|active| - back];
    }

    /** `is_accept`: the deepest active node's flag; the root is not accepting. */
    function IsAccept(): bool
      reads this
      requires Valid()
    {
      if active == [] then false else Walk(root, active).value.accept
    }

    /** `is_reset`: no child of the root is active. */
    function IsReset(): bool
      reads this
    {
      active == []
    }

    /** `reset`: deactivate the whole chain. */
    method Reset()
      requires Valid()
      modifies this
      ensures Valid() && IsReset() && active == []
    {
      active := [];
    }

    /** `get_symbol`: the deepest active node's symbol; the root has none. */
    function GetSymbol(): Option<S>
      reads this
      requires Valid()
    {
      if active == [] then None else Some(Walk(root, active).value.symbol)
    }
  }

  // ---------------------------------------------------------------------
  // A trie built from pairs
  // ---------------------------------------------------------------------

  /**
   * On a trie built from `trie_params` of some pairs, a transition succeeds
   * exactly when the consumed characters plus `c` begin some string.
   */
  lemma BuiltTransition<S>(pairs: Pairs<S>, active: string, c: char)
    requires WellFormed(pairs)
    ensures Walk(Build(pairs), active + [c]).Some? <==>
      exists i :: 0 <= i < |pairs| && active + [c] <= pairs[i].0
  {
    WalkBuild(pairs, active + [c]);
  }

  /**
   * On a trie built from pairs, the queries report: accepting exactly when
   * the consumed characters are one of the strings, and then its symbol.
   */
  lemma BuiltQueries<S>(t: Trie<S>, pairs: Pairs<S>)
    requires t.Valid() && WellFormed(pairs) && t.root == Build(pairs)
    ensures t.IsAccept() <==> exists i :: 0 <= i < |pairs| && pairs[i].0 == t.active
    ensures forall i :: 0 <= i < |pairs| && pairs[i].0 == t.active ==> t.GetSymbol() == Some(pairs[i].1)
    ensures t.active != [] ==> exists i :: 0 <= i < |pairs| && t.active <= pairs[i].0
  {
    if t.active != [] {
      WalkBuild(pairs, t.active);
    } else {
      assert forall i :: 0 <= i < |pairs| ==> pairs[i].0 != [];
    }
  }

  /** When the deepest active node is a leaf, no character transitions from it. */
  lemma LeafFacts<S>(t: Trie<S>, c: char)
    requires t.Valid() && t.Current().Leaf?
    ensures Walk(t.root, t.active + [c]).None?
  {
    WalkSnoc(t.root, t.active, c);
  }
}
