/**
 * The longest-match streaming lexer, as a state machine over a keyword
 * trie. Four generations of the lexer exist: src/core/lexer_trie.hpp,
 * src/core/lex/legacy_2/lexer.hpp, src/core/lexer/lexer.cpp and
 * src/core/lex/lexer.cpp. They share their fields and their shape and
 * differ in the keyword table, in what a failed transition in the middle of
 * the trie does with the character, and in whether `flush` exists.
 *
 * The trie is seen through the path of characters consumed since its root:
 * a transition on `c` exists exactly when the path followed by `c` begins a
 * keyword, the node is accepting exactly when the path is a keyword, and its
 * symbol is that keyword's. The trie modules prove that both concrete tries
 * answer these questions so.
 */
module LexerSpec {
  import opened Wrappers
  import opened Lists
  import opened CStrings

  datatype Symbol =
    | TEXT
    | NEWLINE | WHITESPACE | SEMICOLON | HASHTAG | STAR | OPEN_BRACE | CLOSE_BRACE
    | BEGIN_SLINE_COMMENT | BEGIN_SBLOCK_COMMENT | BEGIN_NLINE_COMMENT | BEGIN_NBLOCK_COMMENT
    | END_BLOCK_COMMENT
    | SDESC | TPARAM | PARAM | RETURN

  /** `Token<Symbol>`: a symbol and its content; symbol tokens carry none. */
  datatype Token = Token(name: Symbol, content: string)

  type Table = seq<(string, Symbol)>

  datatype Generation =
    | Earliest  // src/core/lexer_trie.hpp
    | Legacy2   // src/core/lex/legacy_2/lexer.hpp
    | Runtime   // src/core/lexer/lexer.cpp, over the trie of src/core/lexer/trie.hpp
    | Current   // src/core/lex/lexer.hpp and lexer.cpp, over `LexTrie`
  {
    /** A failed transition away from the root puts the buffer into the text and processes the character again from the root. */
    predicate Reprocesses() { this == Legacy2 || this == Current }

    /** The earliest lexer has no `flush`. */
    predicate HasFlush() { this != Earliest }
  }

  /** The table of src/core/lex/lexer.hpp, which src/core/lexer/lexer.cpp also installs. */
  const CurrentTable: Table := [
    ("\n", NEWLINE), (" ", WHITESPACE), ("\t", WHITESPACE), ("\U{000B}", WHITESPACE),
    ("\r", WHITESPACE), ("\U{000C}", WHITESPACE), (";", SEMICOLON), ("#", HASHTAG),
    ("*", STAR), ("{", OPEN_BRACE), ("}", CLOSE_BRACE), ("///", BEGIN_SLINE_COMMENT),
    ("/*!", BEGIN_SBLOCK_COMMENT), ("//", BEGIN_NLINE_COMMENT), ("/*", BEGIN_NBLOCK_COMMENT),
    ("*/", END_BLOCK_COMMENT), ("@sdesc", SDESC), ("@tparam", TPARAM), ("@param", PARAM),
    ("@return", RETURN)]

  /** The table of src/core/lex/legacy_2/lexer.hpp. */
  const Legacy2Table: Table := [
    ("\n", NEWLINE), (";", SEMICOLON), ("*", STAR), ("{", OPEN_BRACE), ("}", CLOSE_BRACE),
    ("///", BEGIN_SLINE_COMMENT), ("/*!", BEGIN_SBLOCK_COMMENT), ("*/", END_BLOCK_COMMENT),
    ("@tparam", TPARAM), ("@param", PARAM)]

  /** The table of src/core/lexer_trie.hpp. */
  const EarliestTable: Table := [
    ("\n", NEWLINE), (";", SEMICOLON), (" ", WHITESPACE), ("\t", WHITESPACE),
    ("\U{000B}", WHITESPACE), ("\r", WHITESPACE), ("\U{000C}", WHITESPACE), ("*", STAR),
    ("{", OPEN_BRACE), ("}", CLOSE_BRACE), ("///", BEGIN_SLINE_COMMENT),
    ("/*!", BEGIN_SBLOCK_COMMENT), ("//", BEGIN_NLINE_COMMENT), ("/*", BEGIN_NBLOCK_COMMENT),
    ("*/", END_BLOCK_COMMENT), ("@sdesc", SDESC)]

  function TableOf(g: Generation): Table
  {
    match g
    case Earliest => EarliestTable
    case Legacy2 => Legacy2Table
    case Runtime => CurrentTable
    case Current => CurrentTable
  }

  /** All the strings of a symbol have the same length, so a symbol token stands for a known number of characters. */
  predicate UniformLengths(t: Table)
  {
    forall i, j :: 0 <= i < |t| && 0 <= j < |t| && t[i].1 == t[j].1 ==> |t[i].0| == |t[j].0|
  }

  /** No keyword is empty: the root is never accepting. */
  predicate KeysNonEmpty(t: Table)
  {
    forall i :: 0 <= i < |t| ==> t[i].0 != []
  }

  /** No keyword holds a NUL and none stands for TEXT. */
  predicate PlainKeys(t: Table)
  {
    forall i :: 0 <= i < |t| ==> NUL !in t[i].0 && t[i].1 != TEXT
  }

  /**
   * What the tables have in common: keywords are non-empty, hold no NUL
   * and are distinct, no keyword stands for TEXT, and lengths are uniform.
   */
  predicate ValidTable(t: Table)
  {
    KeysNonEmpty(t) && PlainKeys(t) && NoDups(Firsts(t)) && UniformLengths(t)
  }

  // ---------------------------------------------------------------------
  // The trie seen through its path
  // ---------------------------------------------------------------------

  /** The path leads to a node: it is the root or begins some keyword. */
  predicate OnTrie(t: Table, p: string)
  {
    p == [] || exists i :: 0 <= i < |t| && p <= t[i].0
  }

  /** The node at the path is accepting. */
  predicate Accepting(t: Table, p: string)
  {
    exists i :: 0 <= i < |t| && t[i].0 == p
  }

  /** The symbol of the node at the path. */
  function SymbolFor(t: Table, p: string): (r: Option<Symbol>)
    ensures r.Some? <==> Accepting(t, p)
    ensures r.Some? ==> (p, r.value) in t
  {
    if t == [] then None
    else if t[0].0 == p then Some(t[0].1)
    else
      var r := SymbolFor(t[1..], p);
      assert forall i :: 1 <= i < |t| ==> t[i] == t[1..][i - 1];
      r
  }

  /** The symbol of a keyword that occurs once in the table is the one it is listed with. */
  lemma {:induction false} SymbolForKey(t: Table, i: nat)
    requires i < |t| && forall j :: 0 <= j < |t| && t[j].0 == t[i].0 ==> j == i
    ensures SymbolFor(t, t[i].0) == Some(t[i].1)
  {
    if t[0].0 != t[i].0 {
      var t' := t[1..];
      assert t'[i - 1] == t[i];
      forall j | 0 <= j < |t'| && t'[j].0 == t'[i - 1].0 ensures j == i - 1 {
        assert t[j + 1] == t'[j];
      }
      SymbolForKey(t', i - 1);
    }
  }

  /** The length of the keywords of a symbol. */
  function SymLen(t: Table, x: Symbol): nat
  {
    if t == [] then 0 else if t[0].1 == x then |t[0].0| else SymLen(t[1..], x)
  }

  lemma {:induction false} SymLenOf(t: Table, p: string, x: Symbol)
    requires UniformLengths(t) && (p, x) in t
    ensures SymLen(t, x) == |p|
  {
    var k :| 0 <= k < |t| && t[k] == (p, x);
    if t[0].1 != x {
      assert t[1..][k - 1] == t[k];
      assert UniformLengths(t[1..]) by {
        forall i, j | 0 <= i < |t| - 1 && 0 <= j < |t| - 1 && t[1..][i].1 == t[1..][j].1
          ensures |t[1..][i].0| == |t[1..][j].0|
        {
          assert t[1..][i] == t[i + 1] && t[1..][j] == t[j + 1];
        }
      }
      SymLenOf(t[1..], p, x);
    }
  }

  // ---------------------------------------------------------------------
  // The lexer's state
  // ---------------------------------------------------------------------

  /**
   * `path` is the trie's position, `text` is `text_`, `buf` is `buf_`,
   * `backtracking` is `state_ == State::backtrack` and `tokens` is the
   * queue of `status_`, front first.
   */
  datatype LexState = LexState(path: string, text: string, buf: string, backtracking: bool, tokens: seq<Token>)

  const Initial: LexState := LexState([], [], [], false, [])

  /** The part of the path that `buf_` does not hold: the last accepting node passed. */
  function Base(s: LexState): string
    requires |s.buf| <= |s.path|
  {
    s.path[..|s.path| - |s.buf|]
  }

  /**
   * Between calls `buf_` holds exactly the characters consumed past the
   * last accepting node: the whole path when not backtracking, and when
   * backtracking what follows an accepting node that is not the root.
   */
  predicate Inv(t: Table, s: LexState)
  {
    OnTrie(t, s.path) && |s.buf| <= |s.path| &&
    (s.backtracking ==> |s.buf| < |s.path| && s.path == Base(s) + s.buf && Accepting(t, Base(s))) &&
    (!s.backtracking ==> s.buf == s.path)
  }

  /** `update_state`: at an accepting node, start backtracking and forget the buffer. */
  function Updated(t: Table, s: LexState): LexState
  {
    if Accepting(t, s.path) then s.(backtracking := true, buf := []) else s
  }

  /** `tokenize_text`: a non-empty text becomes one TEXT token and is moved out. */
  function Tokenized(s: LexState): LexState
  {
    if s.text == [] then s else s.(tokens := s.tokens + [Token(TEXT, s.text)], text := [])
  }

  /** `reset`: clear the text and the buffer, return the trie to its root, stop backtracking. */
  function Cleared(s: LexState): LexState
  {
    s.(path := [], text := [], buf := [], backtracking := false)
  }

  lemma UpdatedInv(t: Table, s: LexState)
    requires KeysNonEmpty(t) && Inv(t, s)
    ensures Inv(t, Updated(t, s)) && Updated(t, s).path == s.path
  {
    if Accepting(t, s.path) {
      var i :| 0 <= i < |t| && t[i].0 == s.path;
      assert s.path != [];
      assert s.path[..|s.path|] == s.path;
      assert s.path[|s.path|..] == [];
    }
  }

  /** Outside a backtrack, a state whose buffer is its whole path on the trie keeps the invariant. */
  lemma PlainInv(t: Table, s: LexState)
    requires OnTrie(t, s.path) && !s.backtracking && s.buf == s.path
    ensures Inv(t, s)
  {
    assert Base(s) == [];
  }

  lemma ExtendInv(t: Table, s: LexState, c: char)
    requires Inv(t, s) && OnTrie(t, s.path + [c])
    ensures Inv(t, s.(path := s.path + [c], buf := s.buf + [c]))
  {
    var p := s.path + [c];
    assert p[|p| - |s.buf| - 1..] == s.buf + [c];
    assert p[..|p| - |s.buf| - 1] == s.path[..|s.path| - |s.buf|];
  }

  // ---------------------------------------------------------------------
  // process, backtrack, flush
  // ---------------------------------------------------------------------

  /**
   * `process(c)`: after `update_state`, follow `c` and buffer it if the
   * trie has the transition; otherwise handle the miss.
   */
  function Processed(g: Generation, t: Table, s: LexState, c: char): (r: LexState)
    requires KeysNonEmpty(t) && Inv(t, s)
    ensures Inv(t, r) && |r.path| <= |s.path| + 1 && s.tokens <= r.tokens
    decreases |s.path| + 1, 1, 0
  {
    UpdatedInv(t, s);
    var u := Updated(t, s);
    if OnTrie(t, u.path + [c]) then
      ExtendInv(t, u, c);
      u.(path := u.path + [c], buf := u.buf + [c])
    else Missed(g, t, u, c)
  }

  /**
   * The trie has no transition on `c`. When not backtracking, the character
   * goes into the text: at the root by itself; away from the root, for the
   * generations that do not reprocess, together with the buffer, and for
   * the others the buffer goes into the text and `c` is processed again
   * from the root. When backtracking, backtrack.
   */
  function Missed(g: Generation, t: Table, u: LexState, c: char): (r: LexState)
    requires KeysNonEmpty(t) && Inv(t, u)
    ensures Inv(t, r) && |r.path| <= |u.path| + 1 && u.tokens <= r.tokens
    decreases |u.path| + 1, 0, 1
  {
    if !u.backtracking then
      if !g.Reprocesses() then u.(text := u.text + u.buf + [c], buf := [], path := [])
      else if u.path == [] then u.(text := u.text + [c])
      else Processed(g, t, u.(text := u.text + u.buf, buf := [], path := []), c)
    else Backtracked(g, t, u, c)
  }

  /**
   * The first half of `backtrack(c)`: emit the pending text, back off the
   * buffered levels to the last accepting node, emit its symbol, and reset.
   */
  function Emitted(t: Table, s: LexState): (r: LexState)
    requires Inv(t, s) && s.backtracking
    ensures r.(tokens := []) == Initial && s.tokens <= r.tokens
  {
    var sym := SymbolFor(t, Base(s));
    var e := Tokenized(s);
    Cleared(e.(tokens := e.tokens + [Token(sym.value, [])]))
  }

  /** `backtrack(c)`: emit, then process the buffer followed by `c` again. */
  function Backtracked(g: Generation, t: Table, s: LexState, c: char): (r: LexState)
    requires KeysNonEmpty(t) && Inv(t, s) && s.backtracking
    ensures Inv(t, r) && |r.path| <= |s.path| && s.tokens <= r.tokens
    decreases |s.path| + 1, 0, 0
  {
    Reprocessed(g, t, Emitted(t, s), s.buf + [c])
  }

  /** The loop over the string to reprocess. */
  function Reprocessed(g: Generation, t: Table, s: LexState, str: string): (r: LexState)
    requires KeysNonEmpty(t) && Inv(t, s)
    ensures Inv(t, r) && |r.path| <= |s.path| + |str| && s.tokens <= r.tokens
    decreases |s.path| + |str|, 2, |str|
  {
    if str == [] then s else Reprocessed(g, t, Processed(g, t, s, str[0]), str[1..])
  }

  /**
   * `flush()`: after `update_state`, backtrack with a NUL when
   * backtracking; otherwise emit the text and the buffer as one TEXT token
   * and reset.
   */
  function Flushed(g: Generation, t: Table, s: LexState): (r: LexState)
    requires g.HasFlush() && KeysNonEmpty(t) && Inv(t, s)
    ensures Inv(t, r) && s.tokens <= r.tokens
  {
    UpdatedInv(t, s);
    var u := Updated(t, s);
    if u.backtracking then Backtracked(g, t, u, NUL)
    else Cleared(Tokenized(u.(text := u.text + u.buf)))
  }

  /** The state after feeding a whole input, one `process` call per character. */
  function Run(g: Generation, t: Table, s: LexState, input: string): (r: LexState)
    requires KeysNonEmpty(t) && Inv(t, s)
    ensures Inv(t, r)
  {
    Reprocessed(g, t, s, input)
  }

  // ---------------------------------------------------------------------
  // The cases of the definitions above, one equation each
  // ---------------------------------------------------------------------

  lemma ProcessedExtends(g: Generation, t: Table, s: LexState, c: char)
    requires KeysNonEmpty(t) && Inv(t, s) && OnTrie(t, Updated(t, s).path + [c])
    ensures var u := Updated(t, s);
      Processed(g, t, s, c) == u.(path := u.path + [c], buf := u.buf + [c])
  {
  }

  lemma ProcessedMisses(g: Generation, t: Table, s: LexState, c: char)
    requires KeysNonEmpty(t) && Inv(t, s) && !OnTrie(t, Updated(t, s).path + [c])
    ensures Inv(t, Updated(t, s)) && Processed(g, t, s, c) == Missed(g, t, Updated(t, s), c)
  {
    UpdatedInv(t, s);
  }

  lemma MissedSpills(g: Generation, t: Table, u: LexState, c: char)
    requires KeysNonEmpty(t) && Inv(t, u) && !u.backtracking && !g.Reprocesses()
    ensures Missed(g, t, u, c) == u.(text := u.text + u.buf + [c], buf := [], path := [])
  {
  }

  lemma MissedAtRoot(g: Generation, t: Table, u: LexState, c: char)
    requires KeysNonEmpty(t) && Inv(t, u) && !u.backtracking && g.Reprocesses() && u.path == []
    ensures Missed(g, t, u, c) == u.(text := u.text + [c])
  {
  }

  lemma MissedRetries(g: Generation, t: Table, u: LexState, c: char)
    requires KeysNonEmpty(t) && Inv(t, u) && !u.backtracking && g.Reprocesses() && u.path != []
    ensures var v := u.(text := u.text + u.buf, buf := [], path := []);
      Inv(t, v) && Missed(g, t, u, c) == Processed(g, t, v, c)
  {
  }

  lemma MissedBacktracks(g: Generation, t: Table, u: LexState, c: char)
    requires KeysNonEmpty(t) && Inv(t, u) && u.backtracking
    ensures Missed(g, t, u, c) == Backtracked(g, t, u, c)
  {
  }

  lemma BacktrackedReprocesses(g: Generation, t: Table, s: LexState, c: char)
    requires KeysNonEmpty(t) && Inv(t, s) && s.backtracking
    ensures Inv(t, Emitted(t, s)) && Backtracked(g, t, s, c) == Reprocessed(g, t, Emitted(t, s), s.buf + [c])
  {
  }

  lemma ReprocessedStep(g: Generation, t: Table, s: LexState, str: string)
    requires KeysNonEmpty(t) && Inv(t, s) && str != []
    ensures Reprocessed(g, t, s, str) == Reprocessed(g, t, Processed(g, t, s, str[0]), str[1..])
  {
  }

  lemma EmittedIs(t: Table, s: LexState)
    requires Inv(t, s) && s.backtracking
    ensures Emitted(t, s) == Initial.(tokens := Tokenized(s).tokens + [Token(SymbolFor(t, Base(s)).value, [])])
  {
  }

  lemma ReprocessedOne(g: Generation, t: Table, s: LexState, c: char)
    requires KeysNonEmpty(t) && Inv(t, s)
    ensures Reprocessed(g, t, s, [c]) == Processed(g, t, s, c)
  {
    ReprocessedStep(g, t, s, [c]);
    assert [c][1..] == [];
  }

  lemma FlushedCases(g: Generation, t: Table, s: LexState)
    requires g.HasFlush() && KeysNonEmpty(t) && Inv(t, s)
    ensures var u := Updated(t, s);
      Inv(t, u) &&
      (u.backtracking ==> Flushed(g, t, s) == Backtracked(g, t, u, NUL)) &&
      (!u.backtracking ==> Flushed(g, t, s) == Cleared(Tokenized(u.(text := u.text + u.buf))))
  {
    UpdatedInv(t, s);
  }

  // ---------------------------------------------------------------------
  // Nothing is lost: every character fed is in a token, the text or the path
  // ---------------------------------------------------------------------

  /** The number of input characters a token stands for. */
  function TokenLen(t: Table, tok: Token): nat
  {
    if tok.name == TEXT then |tok.content| else SymLen(t, tok.name)
  }

  function TokLen(t: Table, toks: seq<Token>): nat
  {
    if toks == [] then 0 else TokLen(t, toks[..|toks| - 1]) + TokenLen(t, toks[|toks| - 1])
  }

  /** The characters the state accounts for: emitted, pending as text, or consumed by the trie. */
  function Weight(t: Table, s: LexState): nat
  {
    TokLen(t, s.tokens) + |s.text| + |s.path|
  }

  /** A token the lexer may emit: TEXT with some content, or a table symbol with none. */
  predicate TokenOk(t: Table, tok: Token)
  {
    (tok.name == TEXT && tok.content != []) ||
    (tok.name != TEXT && tok.content == [] && exists i :: 0 <= i < |t| && t[i].1 == tok.name)
  }

  predicate NewTokensOk(t: Table, before: seq<Token>, after: seq<Token>)
  {
    forall k :: |before| <= k < |after| ==> TokenOk(t, after[k])
  }

  lemma TokLenAppend(t: Table, a: seq<Token>, x: Token)
    ensures TokLen(t, a + [x]) == TokLen(t, a) + TokenLen(t, x)
  {
    assert (a + [x])[..|a|] == a;
  }

  /**
   * `process(c)` accounts for exactly one more character, and every token
   * it emits is TEXT with content or a table symbol without.
   */
  lemma {:induction false} ProcessedFacts(g: Generation, t: Table, s: LexState, c: char)
    requires KeysNonEmpty(t) && PlainKeys(t) && UniformLengths(t) && Inv(t, s)
    ensures Weight(t, Processed(g, t, s, c)) == Weight(t, s) + 1
    ensures NewTokensOk(t, s.tokens, Processed(g, t, s, c).tokens)
    decreases |s.path| + 1, 1, 0
  {
    UpdatedInv(t, s);
    var u := Updated(t, s);
    if OnTrie(t, u.path + [c]) {
      ProcessedExtends(g, t, s, c);
    } else {
      ProcessedMisses(g, t, s, c);
      MissedFacts(g, t, u, c);
    }
  }

  lemma {:induction false} MissedFacts(g: Generation, t: Table, u: LexState, c: char)
    requires KeysNonEmpty(t) && PlainKeys(t) && UniformLengths(t) && Inv(t, u)
    ensures Weight(t, Missed(g, t, u, c)) == Weight(t, u) + 1
    ensures NewTokensOk(t, u.tokens, Missed(g, t, u, c).tokens)
    decreases |u.path| + 1, 0, 1
  {
    if !u.backtracking {
      if !g.Reprocesses() {
        MissedSpills(g, t, u, c);
      } else if u.path == [] {
        MissedAtRoot(g, t, u, c);
      } else {
        MissedRetries(g, t, u, c);
        ProcessedFacts(g, t, u.(text := u.text + u.buf, buf := [], path := []), c);
      }
    } else {
      MissedBacktracks(g, t, u, c);
      BacktrackedFacts(g, t, u, c);
    }
  }

  /** The emitted tokens stand for the text and the accepted keyword, and they are well formed. */
  lemma EmittedFacts(t: Table, s: LexState)
    requires PlainKeys(t) && UniformLengths(t) && Inv(t, s) && s.backtracking
    ensures Weight(t, Emitted(t, s)) + |s.buf| == Weight(t, s)
    ensures NewTokensOk(t, s.tokens, Emitted(t, s).tokens)
  {
    var base := Base(s);
    var sym := SymbolFor(t, base);
    var e := Tokenized(s);
    TokenizedFacts(t, s);
    KeywordTokenFacts(t, e.tokens, base, sym.value);
    NewTokensChain(t, s.tokens, e.tokens, e.tokens + [Token(sym.value, [])]);
  }

  /** `tokenize_text` accounts for the pending text in the queue, as a well-formed token. */
  lemma TokenizedFacts(t: Table, s: LexState)
    ensures TokLen(t, Tokenized(s).tokens) == TokLen(t, s.tokens) + |s.text|
    ensures s.tokens <= Tokenized(s).tokens && NewTokensOk(t, s.tokens, Tokenized(s).tokens)
  {
    if s.text != [] {
      TokLenAppend(t, s.tokens, Token(TEXT, s.text));
    }
  }

  /** The token of a keyword accounts for the keyword's length and is well formed. */
  lemma KeywordTokenFacts(t: Table, toks: seq<Token>, p: string, x: Symbol)
    requires PlainKeys(t) && UniformLengths(t) && (p, x) in t
    ensures TokLen(t, toks + [Token(x, [])]) == TokLen(t, toks) + |p|
    ensures NewTokensOk(t, toks, toks + [Token(x, [])])
  {
    SymLenOf(t, p, x);
    var k :| 0 <= k < |t| && t[k] == (p, x);
    TokLenAppend(t, toks, Token(x, []));
    assert TokenOk(t, Token(x, []));
  }

  lemma NewTokensChain(t: Table, a: seq<Token>, b: seq<Token>, c: seq<Token>)
    requires a <= b <= c && NewTokensOk(t, a, b) && NewTokensOk(t, b, c)
    ensures NewTokensOk(t, a, c)
  {
    forall k | |a| <= k < |c| ensures TokenOk(t, c[k]) {
      if k < |b| {
        assert c[k] == b[k];
      }
    }
  }

  lemma {:induction false} BacktrackedFacts(g: Generation, t: Table, s: LexState, c: char)
    requires KeysNonEmpty(t) && PlainKeys(t) && UniformLengths(t) && Inv(t, s) && s.backtracking
    ensures Weight(t, Backtracked(g, t, s, c)) == Weight(t, s) + 1
    ensures NewTokensOk(t, s.tokens, Backtracked(g, t, s, c).tokens)
    decreases |s.path| + 1, 0, 0
  {
    var em := Emitted(t, s);
    BacktrackedReprocesses(g, t, s, c);
    EmittedFacts(t, s);
    ReprocessedFacts(g, t, em, s.buf + [c]);
    NewTokensChain(t, s.tokens, em.tokens, Backtracked(g, t, s, c).tokens);
  }

  lemma {:induction false} ReprocessedFacts(g: Generation, t: Table, s: LexState, str: string)
    requires KeysNonEmpty(t) && PlainKeys(t) && UniformLengths(t) && Inv(t, s)
    ensures Weight(t, Reprocessed(g, t, s, str)) == Weight(t, s) + |str|
    ensures NewTokensOk(t, s.tokens, Reprocessed(g, t, s, str).tokens)
    decreases |s.path| + |str|, 2, |str|
  {
    if str != [] {
      var s1 := Processed(g, t, s, str[0]);
      var r := Reprocessed(g, t, s1, str[1..]);
      ReprocessedStep(g, t, s, str);
      ProcessedFacts(g, t, s, str[0]);
      ReprocessedFacts(g, t, s1, str[1..]);
      NewTokensChain(t, s.tokens, s1.tokens, r.tokens);
    }
  }

  // ---------------------------------------------------------------------
  // flush
  // ---------------------------------------------------------------------

  lemma ReprocessedSnoc(g: Generation, t: Table, s: LexState, str: string, x: char)
    requires KeysNonEmpty(t) && Inv(t, s)
    ensures Reprocessed(g, t, s, str + [x]) == Processed(g, t, Reprocessed(g, t, s, str), x)
    decreases |str|
  {
    if str != [] {
      assert (str + [x])[1..] == str[1..] + [x];
      ReprocessedSnoc(g, t, Processed(g, t, s, str[0]), str[1..], x);
    }
  }

  lemma NulLeavesTrie(t: Table, p: string)
    requires PlainKeys(t)
    ensures !OnTrie(t, p + [NUL])
  {
    forall i | 0 <= i < |t| ensures !(p + [NUL] <= t[i].0) {
      assert (p + [NUL])[|p|] == NUL;
    }
  }

  /** Processing a NUL ends at the root with the NUL as the last character of the pending text. */
  lemma {:induction false} ProcessedNul(g: Generation, t: Table, s: LexState)
    requires KeysNonEmpty(t) && PlainKeys(t) && Inv(t, s)
    ensures var r := Processed(g, t, s, NUL);
      r.path == [] && r.buf == [] && !r.backtracking && r.text != [] && r.text[|r.text| - 1] == NUL
    decreases |s.path| + 1, 1, 0
  {
    UpdatedInv(t, s);
    var u := Updated(t, s);
    NulLeavesTrie(t, u.path);
    ProcessedMisses(g, t, s, NUL);
    MissedNul(g, t, u);
  }

  lemma {:induction false} MissedNul(g: Generation, t: Table, u: LexState)
    requires KeysNonEmpty(t) && PlainKeys(t) && Inv(t, u)
    ensures var r := Missed(g, t, u, NUL);
      r.path == [] && r.buf == [] && !r.backtracking && r.text != [] && r.text[|r.text| - 1] == NUL
    decreases |u.path| + 1, 0, 1
  {
    if !u.backtracking {
      if !g.Reprocesses() {
        MissedSpills(g, t, u, NUL);
      } else if u.path == [] {
        MissedAtRoot(g, t, u, NUL);
      } else {
        MissedRetries(g, t, u, NUL);
        ProcessedNul(g, t, u.(text := u.text + u.buf, buf := [], path := []));
      }
    } else {
      MissedBacktracks(g, t, u, NUL);
      BacktrackedNul(g, t, u);
    }
  }

  lemma {:induction false} BacktrackedNul(g: Generation, t: Table, s: LexState)
    requires KeysNonEmpty(t) && PlainKeys(t) && Inv(t, s) && s.backtracking
    ensures var r := Backtracked(g, t, s, NUL);
      r.path == [] && r.buf == [] && !r.backtracking && r.text != [] && r.text[|r.text| - 1] == NUL
    decreases |s.path| + 1, 0, 0
  {
    var em := Emitted(t, s);
    BacktrackedReprocesses(g, t, s, NUL);
    ReprocessedSnoc(g, t, em, s.buf, NUL);
    ProcessedNul(g, t, Reprocessed(g, t, em, s.buf));
  }

  /**
   * `flush()` when the lexer does not end up backtracking: the text and the
   * buffer leave as one TEXT token (none if both are empty) and the lexer is
   * back in its initial state apart from the queue.
   */
  lemma FlushedPlain(g: Generation, t: Table, s: LexState)
    requires g.HasFlush() && KeysNonEmpty(t) && Inv(t, s) && !Updated(t, s).backtracking
    ensures var r := Flushed(g, t, s);
      r.(tokens := []) == Initial &&
      r.tokens == s.tokens + (if s.text + s.buf == [] then [] else [Token(TEXT, s.text + s.buf)])
  {
  }

  /**
   * `flush()` while backtracking ends in `backtrack(0)`: the lexer is left
   * at the root with a NUL at the end of a text it never emits.
   */
  lemma FlushedBacktracking(g: Generation, t: Table, s: LexState)
    requires g.HasFlush() && KeysNonEmpty(t) && PlainKeys(t) && Inv(t, s) && Updated(t, s).backtracking
    ensures var r := Flushed(g, t, s);
      r.path == [] && r.buf == [] && !r.backtracking && r.text != [] && r.text[|r.text| - 1] == NUL
  {
    UpdatedInv(t, s);
    BacktrackedNul(g, t, Updated(t, s));
  }

  /** `flush()` accounts for the characters pending, plus the NUL when it backtracks. */
  lemma FlushedWeight(g: Generation, t: Table, s: LexState)
    requires g.HasFlush() && KeysNonEmpty(t) && PlainKeys(t) && UniformLengths(t) && Inv(t, s)
    ensures var r := Flushed(g, t, s);
      Weight(t, r) == Weight(t, s) + (if Updated(t, s).backtracking then 1 else 0) &&
      NewTokensOk(t, s.tokens, r.tokens)
  {
    UpdatedInv(t, s);
    if Updated(t, s).backtracking {
      FlushedWeightBacktracking(g, t, s);
    } else {
      FlushedWeightPlain(g, t, s);
    }
  }

  lemma FlushedWeightBacktracking(g: Generation, t: Table, s: LexState)
    requires g.HasFlush() && KeysNonEmpty(t) && PlainKeys(t) && UniformLengths(t) && Inv(t, s)
    requires Updated(t, s).backtracking
    ensures var r := Flushed(g, t, s);
      Weight(t, r) == Weight(t, s) + 1 && NewTokensOk(t, s.tokens, r.tokens)
  {
    UpdatedInv(t, s);
    FlushedCases(g, t, s);
    var u := Updated(t, s);
    assert Weight(t, u) == Weight(t, s) && u.tokens == s.tokens;
    BacktrackedFacts(g, t, u, NUL);
  }

  lemma FlushedWeightPlain(g: Generation, t: Table, s: LexState)
    requires g.HasFlush() && KeysNonEmpty(t) && PlainKeys(t) && UniformLengths(t) && Inv(t, s)
    requires !Updated(t, s).backtracking
    ensures var r := Flushed(g, t, s);
      Weight(t, r) == Weight(t, s) && NewTokensOk(t, s.tokens, r.tokens)
  {
    UpdatedInv(t, s);
    FlushedCases(g, t, s);
    var u := Updated(t, s);
    if u.text + u.buf != [] {
      TokLenAppend(t, u.tokens, Token(TEXT, u.text + u.buf));
    }
  }
}
