/**
 * Inputs from the lexer's tests, worked through the model, and the
 * difference between the generations that reprocess a character after a
 * failed partial match and those that do not.
 */
module LexerRuns {
  import opened Wrappers
  import opened CStrings
  import opened LexerSpec

  // ---------------------------------------------------------------------
  // One step at a time
  // ---------------------------------------------------------------------

  /** At the root, a character that begins no keyword joins the text, in every generation. */
  lemma StepText(g: Generation, t: Table, s: LexState, c: char)
    requires KeysNonEmpty(t) && Inv(t, s) && s.path == [] && !s.backtracking && !OnTrie(t, [c])
    ensures Processed(g, t, s, c) == s.(text := s.text + [c])
  {
    assert Updated(t, s) == s;
    assert s.path + [c] == [c];
    ProcessedMisses(g, t, s, c);
    if g.Reprocesses() {
      MissedAtRoot(g, t, s, c);
    } else {
      MissedSpills(g, t, s, c);
      assert s.text + s.buf + [c] == s.text + [c];
    }
  }

  /** Away from an accepting node, a character the trie follows is buffered. */
  lemma StepFollow(g: Generation, t: Table, s: LexState, c: char)
    requires KeysNonEmpty(t) && Inv(t, s) && !Accepting(t, s.path) && OnTrie(t, s.path + [c])
    ensures Processed(g, t, s, c) == s.(path := s.path + [c], buf := s.buf + [c])
  {
    ProcessedExtends(g, t, s, c);
  }

  /** At an accepting node, a character the trie follows starts a new buffer and backtracking. */
  lemma StepFollowAccepted(g: Generation, t: Table, s: LexState, c: char)
    requires KeysNonEmpty(t) && Inv(t, s) && Accepting(t, s.path) && OnTrie(t, s.path + [c])
    ensures Processed(g, t, s, c) == s.(path := s.path + [c], buf := [c], backtracking := true)
  {
    ProcessedExtends(g, t, s, c);
  }

  /** The state right after the keyword at an accepting path has been emitted. */
  function AfterKeyword(t: Table, s: LexState): (r: LexState)
    requires Inv(t, s) && Accepting(t, s.path)
    ensures r.path == [] && r.text == [] && r.buf == [] && !r.backtracking
    ensures r.tokens == Tokenized(s).tokens + [Token(SymbolFor(t, s.path).value, [])]
  {
    Initial.(tokens := Tokenized(s).tokens + [Token(SymbolFor(t, s.path).value, [])])
  }

  lemma BaseEmpty(s: LexState)
    requires s.buf == []
    ensures Base(s) == s.path
  {
    assert s.path[..|s.path|] == s.path;
  }

  lemma EmittedAtAccept(t: Table, s: LexState)
    requires KeysNonEmpty(t) && Inv(t, s) && Accepting(t, s.path)
    ensures Inv(t, Updated(t, s)) && Updated(t, s).backtracking
    ensures Emitted(t, Updated(t, s)) == AfterKeyword(t, s)
  {
    UpdatedInv(t, s);
    var u := s.(backtracking := true, buf := []);
    assert Updated(t, s) == u;
    BaseEmpty(u);
    var sym := SymbolFor(t, s.path);
    assert SymbolFor(t, Base(u)) == sym;
    assert Tokenized(u).tokens == Tokenized(s).tokens;
    var x := Initial.(tokens := Tokenized(s).tokens + [Token(sym.value, [])]);
    assert AfterKeyword(t, s) == x;
    EmittedIs(t, u);
    assert Emitted(t, u) == x;
  }

  lemma BacktrackedEmpty(g: Generation, t: Table, u: LexState, c: char)
    requires KeysNonEmpty(t) && Inv(t, u) && u.backtracking && u.buf == []
    ensures Inv(t, Emitted(t, u)) && Backtracked(g, t, u, c) == Processed(g, t, Emitted(t, u), c)
  {
    BacktrackedReprocesses(g, t, u, c);
    assert u.buf + [c] == [c];
    ReprocessedOne(g, t, Emitted(t, u), c);
  }

  /**
   * At an accepting node, a character the trie does not follow emits the
   * pending text and the keyword's symbol, and is processed again from
   * the root.
   */
  lemma StepAccept(g: Generation, t: Table, s: LexState, c: char)
    requires KeysNonEmpty(t) && Inv(t, s) && Accepting(t, s.path) && !OnTrie(t, s.path + [c])
    ensures Processed(g, t, s, c) == Processed(g, t, AfterKeyword(t, s), c)
  {
    EmittedAtAccept(t, s);
    ProcessedMisses(g, t, s, c);
    MissedBacktracks(g, t, Updated(t, s), c);
    BacktrackedEmpty(g, t, Updated(t, s), c);
  }

  /** `flush()` away from accepting nodes emits the text and the buffer as one TEXT token. */
  lemma FlushText(g: Generation, t: Table, s: LexState)
    requires g.HasFlush() && KeysNonEmpty(t) && Inv(t, s) && !Accepting(t, s.path) && !s.backtracking
    ensures Flushed(g, t, s) == Initial.(tokens := Tokenized(s.(text := s.text + s.buf)).tokens)
  {
    FlushedCases(g, t, s);
  }

  /** `flush()` at an accepting node emits the text and the symbol, and leaves a NUL pending. */
  lemma FlushAccept(g: Generation, t: Table, s: LexState)
    requires g.HasFlush() && KeysNonEmpty(t) && PlainKeys(t) && Inv(t, s) && Accepting(t, s.path)
    ensures Flushed(g, t, s) == AfterKeyword(t, s).(text := [NUL])
  {
    EmittedAtAccept(t, s);
    FlushedCases(g, t, s);
    BacktrackedEmpty(g, t, Updated(t, s), NUL);
    var a := AfterKeyword(t, s);
    NulLeavesTrie(t, []);
    assert [] + [NUL] == [NUL];
    assert Inv(t, a);
    StepText(g, t, a, NUL);
    assert a.text + [NUL] == [NUL];
  }

  lemma RunSnoc(g: Generation, t: Table, s: LexState, input: string, c: char)
    requires KeysNonEmpty(t) && Inv(t, s)
    ensures Run(g, t, s, input + [c]) == Processed(g, t, Run(g, t, s, input), c)
  {
    ReprocessedSnoc(g, t, s, input, c);
  }

  /** A character that no keyword of the table starts with never begins a path from the root. */
  lemma NotAFirst(t: Table, c: char)
    requires KeysNonEmpty(t) && forall i :: 0 <= i < |t| ==> t[i].0[0] != c
    ensures !OnTrie(t, [c])
  {
    forall i | 0 <= i < |t| ensures !([c] <= t[i].0) {
      assert t[i].0[0] != [c][0];
    }
  }

  /** A failed transition away from the root, for the generations that do not reprocess: the buffer and `c` join the text. */
  lemma StepSpill(g: Generation, t: Table, s: LexState, c: char)
    requires KeysNonEmpty(t) && Inv(t, s) && !g.Reprocesses() && !s.backtracking
    requires !Accepting(t, s.path) && !OnTrie(t, s.path + [c])
    ensures Processed(g, t, s, c) == s.(text := s.text + s.buf + [c], buf := [], path := [])
  {
    ProcessedMisses(g, t, s, c);
    MissedSpills(g, t, s, c);
  }

  /** The same failure for the generations that reprocess: the buffer joins the text and `c` starts again at the root. */
  lemma StepRetry(g: Generation, t: Table, s: LexState, c: char)
    requires KeysNonEmpty(t) && Inv(t, s) && g.Reprocesses() && !s.backtracking && s.path != []
    requires !Accepting(t, s.path) && !OnTrie(t, s.path + [c])
    ensures var v := s.(text := s.text + s.buf, buf := [], path := []);
      Inv(t, v) && Processed(g, t, s, c) == Processed(g, t, v, c)
  {
    ProcessedMisses(g, t, s, c);
    MissedRetries(g, t, s, c);
  }

  /** Feeding `a` and then `b` is feeding `a + b`. */
  lemma {:induction false} RunAppend(g: Generation, t: Table, s: LexState, a: string, b: string)
    requires KeysNonEmpty(t) && Inv(t, s)
    ensures Run(g, t, s, a + b) == Run(g, t, Run(g, t, s, a), b)
    decreases |a|
  {
    if a == [] {
      assert a + b == b;
    } else {
      var s1 := Processed(g, t, s, a[0]);
      assert (a + b)[0] == a[0] && (a + b)[1..] == a[1..] + b;
      ReprocessedStep(g, t, s, a + b);
      ReprocessedStep(g, t, s, a);
      RunAppend(g, t, s1, a[1..], b);
    }
  }

  /**
   * From the root and outside a backtrack, characters none of which begins
   * a keyword all join the text.
   */
  lemma {:induction false} TextRun(g: Generation, t: Table, s: LexState, w: string)
    requires KeysNonEmpty(t) && Inv(t, s) && s.path == [] && !s.backtracking
    requires forall k :: 0 <= k < |w| ==> !OnTrie(t, [w[k]])
    ensures Run(g, t, s, w) == s.(text := s.text + w)
    decreases |w|
  {
    if w == [] {
      assert s.text + w == s.text;
    } else {
      StepText(g, t, s, w[0]);
      var s1 := s.(text := s.text + [w[0]]);
      assert forall k :: 0 <= k < |w[1..]| ==> w[1..][k] == w[k + 1];
      TextRun(g, t, s1, w[1..]);
      assert s1.text + w[1..] == s.text + w;
    }
  }

  /**
   * Along a keyword prefix that passes no accepting node, every character
   * is followed and buffered.
   */
  lemma {:induction false} FollowRun(g: Generation, t: Table, s: LexState, w: string)
    requires KeysNonEmpty(t) && Inv(t, s) && !s.backtracking && OnTrie(t, s.path + w)
    requires forall j :: 0 <= j < |t| ==> !(t[j].0 < s.path + w)
    ensures Run(g, t, s, w) == s.(path := s.path + w, buf := s.buf + w)
    decreases |w|
  {
    if w == [] {
      assert s.path + w == s.path && s.buf + w == s.buf;
    } else {
      var w' := w[..|w| - 1];
      var c := w[|w| - 1];
      assert w == w' + [c];
      assert s.path + w == (s.path + w') + [c];
      assert s.path + w' < s.path + w;
      assert forall j :: 0 <= j < |t| ==> !(t[j].0 < s.path + w');
      var i :| 0 <= i < |t| && s.path + w <= t[i].0;
      assert s.path + w' <= t[i].0;
      FollowRun(g, t, s, w');
      RunSnoc(g, t, s, w', c);
      var m := s.(path := s.path + w', buf := s.buf + w');
      assert forall j :: 0 <= j < |t| ==> t[j].0 != m.path;
      StepFollow(g, t, m, c);
      assert m.path + [c] == s.path + w && m.buf + [c] == s.buf + w;
    }
  }
}
