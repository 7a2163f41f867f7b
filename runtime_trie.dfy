/**
 * The runtime keyword trie of src/core/lexer/trie.hpp. Its nodes live in
 * maps of children with a pointer back to the parent, and a cursor names
 * the current node. The model names each node by the path of characters
 * that leads to it from the root, so the whole tree is one map from paths
 * to node data, the parent of a node is its path minus the last character,
 * and the cursor is a path.
 */
module RuntimeTrie {
  import opened Wrappers
  import opened CStrings
  import opened Exceptions

  /** What a node stores: whether it accepts, and the symbol of an accepting node. */
  datatype NodeInfo<S> = NodeInfo(accept: bool, symbol: Option<S>)

  /** A node as `children_[c]` default-constructs it. */
  function Fresh<S>(): NodeInfo<S> { NodeInfo(false, None) }

  const NonEmptyMessage: string := "strings must be non-empty"
  const PastRootMessage: string := "Attempt to back transition past the root"

  /** The paths from the root to the node for `key`, both ends included. */
  function Prefixes(key: string): set<string>
  {
    if key == [] then {[]} else Prefixes(key[..|key| - 1]) + {key}
  }

  /**
   * The tree after inserting `key` with symbol `v`: every node on the path
   * to `key` exists (missing ones fresh), the node for `key` accepts with
   * `v`, and every other node is as it was.
   */
  function InsertKey<S>(m: map<string, NodeInfo<S>>, key: string, v: S): (r: map<string, NodeInfo<S>>)
    ensures key in r && r[key] == NodeInfo(true, Some(v))
    ensures m.Keys <= r.Keys
  {
    map k | k in m.Keys + Prefixes(key) ::
      if k == key then NodeInfo(true, Some(v)) else if k in m then m[k] else Fresh()
  }

  /** The tree the constructor builds: the pairs inserted from the root in order, each read up to its first NUL. */
  function Inserted<S>(pairs: seq<(string, S)>): (r: map<string, NodeInfo<S>>)
    ensures [] in r
  {
    if pairs == [] then map[[] := Fresh()]
    else
      var last := pairs[|pairs| - 1];
      InsertKey(Inserted(pairs[..|pairs| - 1]), CStr(last.0), last.1)
  }

  /** The root exists and every other node's parent exists. */
  ghost predicate PrefixClosed<S>(m: map<string, NodeInfo<S>>)
  {
    [] in m && forall p, c :: p + [c] in m ==> p in m
  }

  /** The labels of the children of the node at path `p`. */
  function Children<S>(m: map<string, NodeInfo<S>>, p: string): set<char>
  {
    set k | k in m.Keys && |k| == |p| + 1 && k[..|p|] == p :: k[|p|]
  }

  lemma ChildrenMembers<S>(m: map<string, NodeInfo<S>>, p: string, c: char)
    ensures c in Children(m, p) <==> p + [c] in m
  {
    if p + [c] in m {
      var k := p + [c];
      assert k[..|p|] == p && k[|p|] == c;
    }
    if c in Children(m, p) {
      var k :| k in m.Keys && |k| == |p| + 1 && k[..|p|] == p && k[|p|] == c;
      assert k == p + [c];
    }
  }

  lemma {:induction false} PrefixesMembers(key: string, k: string)
    ensures k in Prefixes(key) <==> k <= key
  {
    if key != [] {
      var front := key[..|key| - 1];
      PrefixesMembers(front, k);
      if k <= key && k != key {
        assert k == key[..|k|] && k == front[..|k|];
      }
    }
  }

  /** The three parts of `InsertKey`'s description, one node at a time. */
  lemma InsertKeyAt<S>(m: map<string, NodeInfo<S>>, key: string, v: S, k: string)
    ensures k in InsertKey(m, key, v) <==> k in m || k <= key
    ensures k == key ==> InsertKey(m, key, v)[k] == NodeInfo(true, Some(v))
    ensures k != key && k in m ==> InsertKey(m, key, v)[k] == m[k]
    ensures k != key && k !in m && k <= key ==> InsertKey(m, key, v)[k] == Fresh()
  {
    PrefixesMembers(key, k);
  }

  /** A map that agrees with `InsertKey`'s description node by node is `InsertKey`. */
  lemma InsertKeyEq<S>(m: map<string, NodeInfo<S>>, key: string, v: S, r: map<string, NodeInfo<S>>)
    requires forall k :: k in r <==> k in m || k <= key
    requires forall k | k in r :: r[k] == if k == key then NodeInfo(true, Some(v)) else if k in m then m[k] else Fresh()
    ensures r == InsertKey(m, key, v)
  {
    var e := InsertKey(m, key, v);
    forall k ensures k in r <==> k in e {
      InsertKeyAt(m, key, v, k);
    }
    forall k | k in r ensures r[k] == e[k] {
      InsertKeyAt(m, key, v, k);
    }
  }

  lemma InsertKeyClosed<S>(m: map<string, NodeInfo<S>>, key: string, v: S)
    requires PrefixClosed(m)
    ensures PrefixClosed(InsertKey(m, key, v))
  {
    var r := InsertKey(m, key, v);
    InsertKeyAt(m, key, v, []);
    forall p, c | p + [c] in r ensures p in r {
      InsertKeyAt(m, key, v, p + [c]);
      InsertKeyAt(m, key, v, p);
    }
  }

  lemma InsertedSnoc<S>(pairs: seq<(string, S)>, i: nat)
    requires i < |pairs|
    ensures Inserted(pairs[..i + 1]) == InsertKey(Inserted(pairs[..i]), CStr(pairs[i].0), pairs[i].1)
  {
    assert pairs[..i + 1][..i] == pairs[..i];
  }

  lemma {:induction false} InsertedClosed<S>(pairs: seq<(string, S)>)
    ensures PrefixClosed(Inserted(pairs))
  {
    if pairs != [] {
      var n := |pairs| - 1;
      InsertedClosed(pairs[..n]);
      InsertKeyClosed(Inserted(pairs[..n]), CStr(pairs[n].0), pairs[n].1);
    }
  }

  /** The nodes of the built tree are the root and the prefixes of the inserted strings. */
  lemma {:induction false} InsertedKeys<S>(pairs: seq<(string, S)>, k: string)
    ensures k in Inserted(pairs) <==> k == [] || exists i :: 0 <= i < |pairs| && k <= CStr(pairs[i].0)
  {
    if pairs != [] {
      var n := |pairs| - 1;
      var front := pairs[..n];
      InsertedKeys(front, k);
      InsertKeyAt(Inserted(front), CStr(pairs[n].0), pairs[n].1, k);
      assert forall i :: 0 <= i < n ==> front[i] == pairs[i];
    }
  }

  /** A node of the built tree accepts exactly when some string ends there, and it has a symbol exactly when it accepts. */
  lemma InsertedAccept<S>(pairs: seq<(string, S)>, k: string)
    requires k in Inserted(pairs)
    ensures Inserted(pairs)[k].accept <==> exists i :: 0 <= i < |pairs| && CStr(pairs[i].0) == k
    ensures Inserted(pairs)[k].accept <==> Inserted(pairs)[k].symbol.Some?
  {
    InsertedAcceptEnds(pairs, k);
    InsertedAcceptSymbol(pairs, k);
  }

  /** Some pair's string, read up to its first NUL, is `k`. */
  predicate EndsAt<S>(pairs: seq<(string, S)>, k: string)
  {
    exists i :: 0 <= i < |pairs| && CStr(pairs[i].0) == k
  }

  lemma EndsAtSnoc<S>(pairs: seq<(string, S)>, k: string)
    requires pairs != []
    ensures EndsAt(pairs, k) <==> EndsAt(pairs[..|pairs| - 1], k) || CStr(pairs[|pairs| - 1].0) == k
  {
    var front := pairs[..|pairs| - 1];
    assert forall i :: 0 <= i < |front| ==> front[i] == pairs[i];
    if EndsAt(pairs, k) && CStr(pairs[|pairs| - 1].0) != k {
      var i :| 0 <= i < |pairs| && CStr(pairs[i].0) == k;
      assert CStr(front[i].0) == k;
    }
  }

  /** A node of a tree built from `pairs` lies on the path of every string that ends at it. */
  lemma EndsAtInserted<S>(pairs: seq<(string, S)>, k: string)
    requires EndsAt(pairs, k)
    ensures k in Inserted(pairs)
  {
    var i :| 0 <= i < |pairs| && CStr(pairs[i].0) == k;
    InsertedKeys(pairs, k);
  }

  lemma InsertKeyAccept<S>(m: map<string, NodeInfo<S>>, key: string, v: S, k: string)
    requires k in InsertKey(m, key, v)
    ensures InsertKey(m, key, v)[k].accept <==> k == key || (k in m && m[k].accept)
  {
    InsertKeyAt(m, key, v, k);
  }

  lemma {:induction false} InsertedAcceptEnds<S>(pairs: seq<(string, S)>, k: string)
    requires k in Inserted(pairs)
    ensures Inserted(pairs)[k].accept <==> EndsAt(pairs, k)
  {
    if pairs != [] {
      var n := |pairs| - 1;
      var front := pairs[..n];
      var m := Inserted(front);
      InsertKeyAccept(m, CStr(pairs[n].0), pairs[n].1, k);
      EndsAtSnoc(pairs, k);
      if k in m {
        InsertedAcceptEnds(front, k);
      } else if EndsAt(front, k) {
        EndsAtInserted(front, k);
      }
    }
  }

  lemma {:induction false} InsertedAcceptSymbol<S>(pairs: seq<(string, S)>, k: string)
    requires k in Inserted(pairs)
    ensures Inserted(pairs)[k].accept <==> Inserted(pairs)[k].symbol.Some?
  {
    if pairs != [] {
      var n := |pairs| - 1;
      var front := pairs[..n];
      InsertKeyAt(Inserted(front), CStr(pairs[n].0), pairs[n].1, k);
      if k in Inserted(front) {
        InsertedAcceptSymbol(front, k);
      }
    }
  }

  /** A string that no later pair repeats keeps its own symbol. */
  lemma {:induction false} InsertedSymbol<S>(pairs: seq<(string, S)>, i: nat)
    requires i < |pairs|
    requires forall j :: i < j < |pairs| ==> CStr(pairs[j].0) != CStr(pairs[i].0)
    ensures CStr(pairs[i].0) in Inserted(pairs)
    ensures Inserted(pairs)[CStr(pairs[i].0)] == NodeInfo(true, Some(pairs[i].1))
  {
    var key := CStr(pairs[i].0);
    var n := |pairs| - 1;
    var front := pairs[..n];
    InsertKeyAt(Inserted(front), CStr(pairs[n].0), pairs[n].1, key);
    if i < n {
      assert front[i] == pairs[i];
      InsertedSymbol(front, i);
    }
  }

  lemma PrefixStep(s: string, idx: nat, k: string)
    requires idx < |s|
    ensures k <= s[..idx + 1] <==> k <= s[..idx] || k == s[..idx + 1]
  {
    if k <= s[..idx + 1] && k != s[..idx + 1] {
      assert k == s[..idx + 1][..|k|] && s[..idx + 1][..idx] == s[..idx];
    }
  }

  class Trie<S> {
    var nodes: map<string, NodeInfo<S>>
    var cur: string

    ghost predicate Valid()
      reads this
    {
      PrefixClosed(nodes) && cur in nodes
    }

    /** `root_()`: a lone non-accepting root, and the cursor on it. */
    constructor ()
      ensures Valid() && nodes == map[[] := Fresh()] && cur == []
    {
      nodes := map[[] := Fresh()];
      cur := [];
    }

    /**
     * `root_.insert(pair)`: walk from the root along `s` until its end or a
     * NUL, creating each missing child, and mark the node reached accepting
     * with symbol `v`.
     */
    method Insert(s: string, v: S)
      requires Valid()
      modifies this
      ensures Valid() && cur == old(cur)
      ensures nodes == InsertKey(old(nodes), CStr(s), v)
    {
      var idx := 0;
      while idx < |s| && s[idx] != NUL
        invariant 0 <= idx <= |s| && NUL !in s[..idx]
        invariant forall k :: k in nodes <==> k in old(nodes) || (k <= s[..idx])
        invariant forall k | k in nodes :: nodes[k] == if k in old(nodes) then old(nodes)[k] else Fresh()
        invariant cur == old(cur)
      {
        var child := s[..idx + 1];
        if child !in nodes {
          nodes := nodes[child := Fresh()];
        }
        forall k ensures k in nodes <==> k in old(nodes) || k <= child {
          PrefixStep(s, idx, k);
        }
        idx := idx + 1;
      }
      var key := s[..idx];
      CStrCut(s, idx);
      InsertKeyClosed(old(nodes), key, v);
      var r := nodes[key := NodeInfo(true, Some(v))];
      InsertKeyEq(old(nodes), key, v, r);
      nodes := r;
    }

    /** `transition(c)`: move to the child labelled `c`; `children_.at(c)` throws `std::out_of_range` for a missing one, reported as `ok == false`. */
    method Transition(c: char) returns (ok: bool)
      requires Valid()
      modifies this
      ensures Valid() && nodes == old(nodes)
      ensures ok <==> c in Children(old(nodes), old(cur))
      ensures cur == if ok then old(cur) + [c] else old(cur)
    {
      ChildrenMembers(nodes, cur, c);
      if cur + [c] in nodes {
        cur := cur + [c];
        ok := true;
      } else {
        ok := false;
      }
    }

    /** `back_transition()`: move to the parent, or throw `control_flow_error` at the root. */
    method BackTransition() returns (err: Option<Exception>)
      requires Valid()
      modifies this
      ensures Valid() && nodes == old(nodes)
      ensures err == if old(cur) == [] then Some(ControlFlowError(PastRootMessage)) else None
      ensures cur == if old(cur) == [] then old(cur) else old(cur)[..|old(cur)| - 1]
    {
      if cur == [] {
        return Some(ControlFlowError(PastRootMessage));
      }
      assert cur == cur[..|cur| - 1] + [cur[|cur| - 1]];
      cur := cur[..|cur| - 1];
      err := None;
    }

    function IsAccept(): bool
      reads this
      requires Valid()
    {
      nodes[cur].accept
    }

    /** `get_children()`, by the labels of the current node's children. */
    function GetChildren(): set<char>
      reads this
      requires Valid()
    {
      Children(nodes, cur)
    }

    /** `is_reset()`: the cursor is on the root. */
    function IsReset(): bool
      reads this
    {
      cur == []
    }

    /** `reset()`: put the cursor back on the root. */
    method Reset()
      requires Valid()
      modifies this
      ensures Valid() && nodes == old(nodes) && IsReset()
    {
      cur := [];
    }

    function GetSymbol(): Option<S>
      reads this
      requires Valid()
    {
      nodes[cur].symbol
    }
  }

  /**
   * `Trie(pairs)`: insert the pairs from the root in order, throwing
   * `control_flow_error` at the first empty string.
   */
  method Make<S>(pairs: seq<(string, S)>) returns (r: Result<Trie<S>, Exception>)
    ensures r.Err? <==> exists i :: 0 <= i < |pairs| && pairs[i].0 == []
    ensures r.Err? ==> r.error == ControlFlowError(NonEmptyMessage)
    ensures r.Ok? ==> fresh(r.value) && r.value.Valid() && r.value.nodes == Inserted(pairs) && r.value.IsReset()
  {
    var t := new Trie();
    var i := 0;
    while i < |pairs|
      invariant 0 <= i <= |pairs| && fresh(t)
      invariant t.Valid() && t.nodes == Inserted(pairs[..i]) && t.cur == []
      invariant forall j :: 0 <= j < i ==> pairs[j].0 != []
    {
      if pairs[i].0 == [] {
        return Err(ControlFlowError(NonEmptyMessage));
      }
      t.Insert(pairs[i].0, pairs[i].1);
      InsertedSnoc(pairs, i);
      i := i + 1;
    }
    assert pairs[..i] == pairs;
    return Ok(t);
  }

  /**
   * On a trie built from pairs, the queries describe the consumed path: it
   * accepts exactly when a string ends there, with the string's symbol when
   * no later pair repeats it, and the children are the next characters of
   * the strings that extend the path.
   */
  lemma BuiltQueries<S>(t: Trie<S>, pairs: seq<(string, S)>, c: char)
    requires t.Valid() && t.nodes == Inserted(pairs)
    ensures t.IsAccept() <==> exists i :: 0 <= i < |pairs| && CStr(pairs[i].0) == t.cur
    ensures t.IsAccept() <==> t.GetSymbol().Some?
    ensures forall i :: (0 <= i < |pairs| && CStr(pairs[i].0) == t.cur &&
      (forall j :: i < j < |pairs| ==> CStr(pairs[j].0) != t.cur)) ==> t.GetSymbol() == Some(pairs[i].1)
    ensures c in t.GetChildren() <==> exists i :: 0 <= i < |pairs| && t.cur + [c] <= CStr(pairs[i].0)
  {
    InsertedAccept(pairs, t.cur);
    InsertedKeys(pairs, t.cur + [c]);
    ChildrenMembers(t.nodes, t.cur, c);
    forall i | 0 <= i < |pairs| && CStr(pairs[i].0) == t.cur &&
        (forall j :: i < j < |pairs| ==> CStr(pairs[j].0) != t.cur)
      ensures t.GetSymbol() == Some(pairs[i].1)
    {
      InsertedSymbol(pairs, i);
    }
  }

  /** `transition(c)` followed by `back_transition()` returns to the node it started from. */
  method TransitionThenBack<S>(t: Trie<S>, c: char) returns (ok: bool, err: Option<Exception>)
    requires t.Valid()
    modifies t
    ensures t.Valid() && t.nodes == old(t.nodes)
    ensures ok ==> err == None && t.cur == old(t.cur)
  {
    ok := t.Transition(c);
    err := None;
    if ok {
      err := t.BackTransition();
      assert (old(t.cur) + [c])[..|old(t.cur)|] == old(t.cur);
    }
  }
}
