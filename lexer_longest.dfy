/**
 * Longest match. Between calls to `process`, no accepting node lies
 * strictly between the last accepting node the lexer passed and its
 * position in the trie: `update_state` forgets the buffer at every
 * accepting node. So when a character leads off the trie while the lexer
 * is backtracking, the symbol `backtrack` emits belongs to the longest
 * keyword that is a prefix of the characters read from the root, followed
 * by that character.
 */
module LexerLongest {
  import opened LexerSpec

  /** No node strictly between the last accepting node passed (or the root) and the position is accepting. */
  predicate Deepest(t: Table, s: LexState)
    requires |s.buf| <= |s.path|
  {
    forall k :: |s.path| - |s.buf| < k < |s.path| ==> !Accepting(t, s.path[..k])
  }

  lemma AcceptingOnTrie(t: Table, p: string)
    requires Accepting(t, p)
    ensures OnTrie(t, p)
  {
    var i :| 0 <= i < |t| && t[i].0 == p;
    assert p <= t[i].0;
  }

  /** `update_state` keeps the property: at an accepting node it empties the buffer. */
  lemma DeepestUpdated(t: Table, s: LexState)
    requires KeysNonEmpty(t) && Inv(t, s) && Deepest(t, s)
    ensures Inv(t, Updated(t, s)) && Deepest(t, Updated(t, s))
  {
    UpdatedInv(t, s);
  }

  /** Following `c` keeps the property when the position is not accepting or nothing is buffered. */
  lemma DeepestExtends(t: Table, u: LexState, c: char)
    requires |u.buf| <= |u.path| && Deepest(t, u)
    requires u.buf != [] ==> !Accepting(t, u.path)
    ensures Deepest(t, u.(path := u.path + [c], buf := u.buf + [c]))
  {
    var v := u.(path := u.path + [c], buf := u.buf + [c]);
    forall k | |v.path| - |v.buf| < k < |v.path| ensures !Accepting(t, v.path[..k]) {
      assert v.path[..k] == u.path[..k];
      if k == |u.path| {
        assert u.path[..k] == u.path;
      }
    }
  }

  lemma {:induction false} DeepestProcessed(g: Generation, t: Table, s: LexState, c: char)
    requires KeysNonEmpty(t) && Inv(t, s) && Deepest(t, s)
    ensures Deepest(t, Processed(g, t, s, c))
    decreases |s.path| + 1, 1, 0
  {
    DeepestUpdated(t, s);
    var u := Updated(t, s);
    assert u.buf != [] ==> !Accepting(t, u.path);
    if OnTrie(t, u.path + [c]) {
      ProcessedExtends(g, t, s, c);
      DeepestExtends(t, u, c);
    } else {
      ProcessedMisses(g, t, s, c);
      DeepestMissed(g, t, u, c);
    }
  }

  lemma {:induction false} DeepestMissed(g: Generation, t: Table, u: LexState, c: char)
    requires KeysNonEmpty(t) && Inv(t, u)
    ensures Deepest(t, Missed(g, t, u, c))
    decreases |u.path| + 1, 0, 1
  {
    if !u.backtracking {
      if g.Reprocesses() && u.path != [] {
        DeepestProcessed(g, t, u.(text := u.text + u.buf, buf := [], path := []), c);
      }
    } else {
      DeepestReprocessed(g, t, Emitted(t, u), u.buf + [c]);
    }
  }

  lemma {:induction false} DeepestReprocessed(g: Generation, t: Table, s: LexState, str: string)
    requires KeysNonEmpty(t) && Inv(t, s) && Deepest(t, s)
    ensures Deepest(t, Reprocessed(g, t, s, str))
    decreases |s.path| + |str|, 2, |str|
  {
    if str != [] {
      DeepestProcessed(g, t, s, str[0]);
      DeepestReprocessed(g, t, Processed(g, t, s, str[0]), str[1..]);
    }
  }

  /** Every state a run reaches from the initial state has the property. */
  lemma DeepestRun(g: Generation, t: Table, input: string)
    requires KeysNonEmpty(t)
    ensures Deepest(t, Run(g, t, Initial, input))
  {
    DeepestReprocessed(g, t, Initial, input);
  }

  /** Past the last accepting node, no prefix of the path followed by `c` is a keyword. */
  lemma NoLongerKeyword(t: Table, s: LexState, c: char)
    requires KeysNonEmpty(t) && Inv(t, s) && Deepest(t, s)
    requires Updated(t, s).backtracking && !OnTrie(t, s.path + [c])
    ensures Inv(t, Updated(t, s))
    ensures forall k :: |Base(Updated(t, s))| < k <= |s.path| + 1 ==> !Accepting(t, (s.path + [c])[..k])
  {
    DeepestUpdated(t, s);
    var u := Updated(t, s);
    assert u.buf != [] ==> !Accepting(t, s.path);
    forall k | |Base(u)| < k <= |s.path| + 1 ensures !Accepting(t, (s.path + [c])[..k]) {
      if k == |s.path| + 1 {
        assert (s.path + [c])[..k] == s.path + [c];
        if Accepting(t, s.path + [c]) {
          AcceptingOnTrie(t, s.path + [c]);
        }
      } else {
        assert (s.path + [c])[..k] == s.path[..k];
        if k == |s.path| {
          assert s.path[..k] == s.path;
        }
      }
    }
  }

  /**
   * A character that leads off the trie while backtracking: `process`
   * emits the pending text and the symbol of `b`, and reprocesses what
   * was read past `b`. `b` is a keyword, and no longer prefix of the
   * characters read from the root followed by `c` is one.
   */
  lemma LongestMatch(g: Generation, t: Table, s: LexState, c: char)
    requires KeysNonEmpty(t) && Inv(t, s) && Deepest(t, s)
    requires Updated(t, s).backtracking && !OnTrie(t, s.path + [c])
    ensures Inv(t, Updated(t, s))
    ensures var u := Updated(t, s); var b := Base(u);
      b <= s.path && Accepting(t, b) &&
      (forall k :: |b| < k <= |s.path| + 1 ==> !Accepting(t, (s.path + [c])[..k])) &&
      Emitted(t, u).tokens == Tokenized(s).tokens + [Token(SymbolFor(t, b).value, [])] &&
      Processed(g, t, s, c) == Reprocessed(g, t, Emitted(t, u), u.buf + [c])
  {
    NoLongerKeyword(t, s, c);
    var u := Updated(t, s);
    ProcessedMisses(g, t, s, c);
    MissedBacktracks(g, t, u, c);
    BacktrackedReprocesses(g, t, u, c);
    EmittedIs(t, u);
    assert Tokenized(u).tokens == Tokenized(s).tokens;
  }

  /**
   * The same for any input fed from the initial state: the next character,
   * when it leads off the trie while backtracking, emits the longest keyword.
   */
  lemma LongestMatchAfterRun(g: Generation, t: Table, input: string, c: char)
    requires KeysNonEmpty(t)
    ensures var s := Run(g, t, Initial, input); var u := Updated(t, s);
      u.backtracking && !OnTrie(t, s.path + [c]) ==>
        Inv(t, u) && Base(u) <= s.path && Accepting(t, Base(u)) &&
        (forall k :: |Base(u)| < k <= |s.path| + 1 ==> !Accepting(t, (s.path + [c])[..k])) &&
        Processed(g, t, s, c) == Reprocessed(g, t, Emitted(t, u), u.buf + [c])
  {
    var s := Run(g, t, Initial, input);
    DeepestRun(g, t, input);
    if Updated(t, s).backtracking && !OnTrie(t, s.path + [c]) {
      LongestMatch(g, t, s, c);
    }
  }
}
