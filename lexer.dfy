/**
 * The lexer object of the four generations, field by field: `trie_` (seen
 * through the path it has consumed), `text_`, `buf_`, `state_` and the
 * token queue of `status_`. Each method is proved to leave the object in
 * the state the matching function of LexerSpec describes.
 */
module Lexer {
  import opened Wrappers
  import opened CStrings
  import opened LexerSpec
  import LexTrie

  /** The length of every keyword of a symbol in the tables the lexers install. */
  function KeywordLength(x: Symbol): nat
  {
    match x
    case TEXT => 0
    case NEWLINE => 1
    case WHITESPACE => 1
    case SEMICOLON => 1
    case HASHTAG => 1
    case STAR => 1
    case OPEN_BRACE => 1
    case CLOSE_BRACE => 1
    case BEGIN_SLINE_COMMENT => 3
    case BEGIN_SBLOCK_COMMENT => 3
    case BEGIN_NLINE_COMMENT => 2
    case BEGIN_NBLOCK_COMMENT => 2
    case END_BLOCK_COMMENT => 2
    case SDESC => 6
    case TPARAM => 7
    case PARAM => 6
    case RETURN => 7
  }

  lemma UniformByLength(t: Table)
    requires forall i :: 0 <= i < |t| ==> |t[i].0| == KeywordLength(t[i].1)
    ensures UniformLengths(t)
  {
  }

  /** Every table the lexers install is non-empty keyed, NUL-free, duplicate-free and uniform. */
  lemma TablesValid(g: Generation)
    ensures ValidTable(TableOf(g))
  {
    match g
    case Earliest => EarliestShape(); EarliestDistinct();
    case Legacy2 => Legacy2Shape(); Legacy2Distinct();
    case Runtime => CurrentShape(); CurrentDistinct();
    case Current => CurrentShape(); CurrentDistinct();
  }

  lemma CurrentShape()
    ensures KeysNonEmpty(CurrentTable) && PlainKeys(CurrentTable) && UniformLengths(CurrentTable)
  {
    TableValid(CurrentTable);
  }

  lemma Legacy2Shape()
    ensures KeysNonEmpty(Legacy2Table) && PlainKeys(Legacy2Table) && UniformLengths(Legacy2Table)
  {
    TableValid(Legacy2Table);
  }

  lemma EarliestShape()
    ensures KeysNonEmpty(EarliestTable) && PlainKeys(EarliestTable) && UniformLengths(EarliestTable)
  {
    TableValid(EarliestTable);
  }

  lemma TableValid(t: Table)
    requires forall i :: 0 <= i < |t| ==> |t[i].0| == KeywordLength(t[i].1) && t[i].0 != [] && NUL !in t[i].0 && t[i].1 != TEXT
    ensures KeysNonEmpty(t) && PlainKeys(t) && UniformLengths(t)
  {
    UniformByLength(t);
  }

  lemma CurrentDistinct()
    ensures Lists.NoDups(Lists.Firsts(CurrentTable))
  {
  }

  lemma Legacy2Distinct()
    ensures Lists.NoDups(Lists.Firsts(Legacy2Table))
  {
  }

  lemma EarliestDistinct()
    ensures Lists.NoDups(Lists.Firsts(EarliestTable))
  {
  }

  class Lexer {
    const gen: Generation
    const table: Table
    var path: string
    var text: string
    var buf: string
    var backtracking: bool
    var tokens: seq<Token>

    function State(): LexState
      reads this
    {
      LexState(path, text, buf, backtracking, tokens)
    }

    ghost predicate Valid()
      reads this
    {
      KeysNonEmpty(table) && Inv(table, State())
    }

    /** `Lexer()`: the generation's table in a trie at its root, nothing pending, nothing queued. */
    constructor (g: Generation)
      ensures Valid() && gen == g && table == TableOf(g) && ValidTable(table) && State() == Initial
    {
      gen := g;
      table := TableOf(g);
      path, text, buf, backtracking, tokens := [], [], [], false, [];
      TablesValid(g);
    }

    /** `tokenize_text()`. */
    method TokenizeText()
      modifies this
      ensures State() == Tokenized(old(State()))
    {
      if text != [] {
        tokens := tokens + [Token(TEXT, text)];
        text := [];
      }
    }

    /** `update_state()`. */
    method UpdateState()
      requires Valid()
      modifies this
      ensures Valid() && State() == Updated(table, old(State()))
    {
      UpdatedInv(table, State());
      if Accepting(table, path) {
        if !backtracking {
          backtracking := true;
        }
        buf := [];
      }
    }

    /** `reset()`. */
    method Reset()
      modifies this
      ensures State() == Cleared(old(State()))
    {
      text := [];
      buf := [];
      path := [];
      backtracking := false;
    }

    /** `process(c)`. */
    method Process(c: char)
      requires Valid()
      modifies this
      ensures Valid() && State() == Processed(gen, table, old(State()), c)
      decreases |path| + 1, 1, 0
    {
      ghost var s := State();
      UpdateState();
      if OnTrie(table, path + [c]) {
        ProcessedExtends(gen, table, s, c);
        Extend(c);
      } else {
        ProcessedMisses(gen, table, s, c);
        Miss(c);
      }
    }

    /** The part of `process(c)` after a successful transition: `c` is buffered. */
    method Extend(c: char)
      requires Valid() && OnTrie(table, path + [c])
      modifies this
      ensures Valid() && State() == old(State()).(path := old(path) + [c], buf := old(buf) + [c])
    {
      ExtendInv(table, State(), c);
      buf := buf + [c];
      path := path + [c];
    }

    /** The part of `process(c)` after a failed transition. */
    method Miss(c: char)
      requires Valid() && !OnTrie(table, path + [c])
      modifies this
      ensures Valid() && State() == Missed(gen, table, old(State()), c)
      decreases |path| + 1, 0, 1
    {
      ghost var u := State();
      if !backtracking {
        if !gen.Reprocesses() {
          MissedSpills(gen, table, u, c);
          text := text + buf + [c];
          buf := [];
          path := [];
          assert State() == u.(text := u.text + u.buf + [c], buf := [], path := []);
          return;
        }
        if path == [] {
          MissedAtRoot(gen, table, u, c);
          text := text + [c];
          assert State() == u.(text := u.text + [c]);
          return;
        }
        MissedRetries(gen, table, u, c);
        text := text + buf;
        buf := [];
        path := [];
        assert State() == u.(text := u.text + u.buf, buf := [], path := []);
        Process(c);
        return;
      }
      MissedBacktracks(gen, table, u, c);
      Backtrack(c);
    }

    /** `back_transition(buf_.size())` of the current trie: min(n, depth) levels at once. */
    method BackOffAtOnce(n: nat)
      modifies this
      ensures path == old(path)[..|old(path)| - (if n < |old(path)| then n else |old(path)|)]
      ensures State() == old(State()).(path := path)
    {
      var back := LexTrie.BackCount(|path|, n);
      LexTrie.BackCountIsMin(|path|, n);
      path := path[..|path| - back];
    }

    /** One `back_transition()` per buffered character, as the older tries do. */
    method BackOffStepwise(n: nat)
      requires n <= |path|
      modifies this
      ensures path == old(path)[..|old(path)| - n]
      ensures State() == old(State()).(path := path)
    {
      var i := 0;
      while i < n
        invariant 0 <= i <= n && path == old(path)[..|old(path)| - i]
        invariant State() == old(State()).(path := path)
      {
        path := path[..|path| - 1];
        i := i + 1;
      }
    }

    /** `backtrack(c)`: emit, then reprocess what the trie consumed past the accepting node, and `c`. */
    method Backtrack(c: char)
      requires Valid() && backtracking
      modifies this
      ensures Valid() && State() == Backtracked(gen, table, old(State()), c)
      decreases |path| + 1, 0, 0
    {
      ghost var s := State();
      BacktrackedReprocesses(gen, table, s, c);
      var re := Emit();
      Reprocess(re + [c]);
    }

    /**
     * The first half of `backtrack(c)`: emit the text, back the trie off by
     * the buffer's length, emit the symbol there, and reset; the buffer is
     * handed back for reprocessing.
     */
    method Emit() returns (re: string)
      requires Valid() && backtracking
      modifies this
      ensures Valid() && State() == Emitted(table, old(State())) && re == old(buf)
    {
      ghost var s := State();
      if gen == Earliest {
        // the earliest lexer drops the flag first; `reset` below does the same for the others
        backtracking := false;
      }
      TokenizeText();
      if gen == Current {
        BackOffAtOnce(|buf|);
      } else {
        BackOffStepwise(|buf|);
      }
      assert path == Base(s);
      var sym := SymbolFor(table, path);
      tokens := tokens + [Token(sym.value, [])];
      re := buf;
      Reset();
    }

    /** The loop of `backtrack` over the string to reprocess. */
    method Reprocess(str: string)
      requires Valid()
      modifies this
      ensures Valid() && State() == Reprocessed(gen, table, old(State()), str)
      decreases |path| + |str|, 2, |str|
    {
      ghost var s := State();
      var i := 0;
      while i < |str|
        invariant 0 <= i <= |str| && |path| <= |s.path| + i
        invariant Valid()
        invariant Reprocessed(gen, table, State(), str[i..]) == Reprocessed(gen, table, s, str)
      {
        ReprocessedStep(gen, table, State(), str[i..]);
        assert str[i..][1..] == str[i + 1..];
        Process(str[i]);
        i := i + 1;
      }
    }

    /** `flush()`, which the earliest lexer does not have. */
    method Flush()
      requires Valid() && gen.HasFlush()
      modifies this
      ensures Valid() && State() == Flushed(gen, table, old(State()))
    {
      ghost var s := State();
      FlushedCases(gen, table, s);
      UpdateState();
      if backtracking {
        Backtrack(NUL);
        return;
      }
      ghost var u := State();
      text := text + buf;
      TokenizeText();
      Reset();
      assert State() == Cleared(Tokenized(u.(text := u.text + u.buf)));
    }

    /** What the tests do before reading tokens: `process` every character of the input. */
    method Feed(input: string)
      requires Valid()
      modifies this
      ensures Valid() && State() == Run(gen, table, old(State()), input)
    {
      Reprocess(input);
    }

    /** `next_token()` until it returns none: the queue, front first. */
    method Drain() returns (toks: seq<Token>)
      modifies this
      ensures toks == old(tokens) && State() == old(State()).(tokens := [])
    {
      ghost var all := tokens;
      toks := [];
      while true
        invariant |toks| <= |all| && State() == old(State()).(tokens := tokens)
        invariant toks == all[..|toks|] && tokens == all[|toks|..]
        decreases |tokens|
      {
        var tok := NextToken();
        if tok.None? {
          break;
        }
        assert all[..|toks| + 1] == all[..|toks|] + [tok.value];
        toks := toks + [tok.value];
      }
      assert all[..|toks|] == all;
    }

    /** `next_token()`: the front of the queue, or none when it is empty. */
    method NextToken() returns (tok: Option<Token>)
      modifies this
      ensures old(tokens) == [] ==> tok == None && tokens == []
      ensures old(tokens) != [] ==> tok == Some(old(tokens)[0]) && tokens == old(tokens)[1..]
      ensures State() == old(State()).(tokens := tokens)
    {
      if tokens == [] {
        return None;
      }
      tok := Some(tokens[0]);
      tokens := tokens[1..];
    }
  }

  /**
   * The tests' `setup_lexer` followed by `next_token` until none is left:
   * feed every character, flush, and drain the queue in order.
   */
  method Lex(g: Generation, input: string) returns (toks: seq<Token>)
    requires g.HasFlush()
    ensures toks == Flushed(g, TableOf(g), Run(g, TableOf(g), Initial, input)).tokens
  {
    var lx := new Lexer(g);
    lx.Feed(input);
    lx.Flush();
    toks := lx.Drain();
  }
}
