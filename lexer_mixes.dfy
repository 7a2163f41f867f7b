/**
 * More inputs of the lexer tests (test/core/lexer/lexer_unittest.cpp),
 * worked through the model of the two generations that install the
 * twenty-entry table: words around a one-character keyword, and runs of
 * '/' and '*' where keywords overlap and the longest one must win.
 *
 * As in `LexerExamples`, each run is proved for any table with a few
 * properties, and lemmas show that the installed table has them.
 */
module LexerMixes {
  import opened Wrappers
  import opened LexerSpec
  import opened LexerRuns
  import LexerExamples
  import LexerLongest

  // ---------------------------------------------------------------------
  // What the runs need of a table
  // ---------------------------------------------------------------------

  /** The characters some keyword of the installed table begins with. */
  const KeyStarts: set<char> :=
    {'\n', ' ', '\t', '\U{000B}', '\r', '\U{000C}', ';', '#', '*', '{', '}', '/', '@'}

  /** A word no keyword begins with any character of. */
  predicate Plain(w: string)
  {
    forall k :: 0 <= k < |w| ==> w[k] !in KeyStarts
  }

  /** `p` is a keyword, listed with `x`. */
  predicate Keyword(t: Table, p: string, x: Symbol)
  {
    OnTrie(t, p) && SymbolFor(t, p) == Some(x)
  }

  /** No keyword begins with a character outside `KeyStarts`. */
  predicate TextTable(t: Table)
  {
    KeysNonEmpty(t) && PlainKeys(t) && forall c :: c !in KeyStarts ==> !OnTrie(t, [c])
  }

  // "/" is a node but no keyword, "//" and "///" are keywords, and no
  // keyword continues "///".
  predicate SlashTable(t: Table)
  {
    OnTrie(t, "/") && !Accepting(t, "/") && Keyword(t, "//", BEGIN_NLINE_COMMENT) &&
    Keyword(t, "///", BEGIN_SLINE_COMMENT) && !OnTrie(t, "////")
  }

  // "/*" and "/*!" are keywords, no keyword continues "/*" with '*', "*" is
  // a keyword and no keyword continues it with '!'.
  predicate BlockTable(t: Table)
  {
    Keyword(t, "/*", BEGIN_NBLOCK_COMMENT) && Keyword(t, "/*!", BEGIN_SBLOCK_COMMENT) &&
    !OnTrie(t, "/**") && Keyword(t, "*", STAR) && !OnTrie(t, "*!")
  }

  // "*" and "*/" are keywords; no keyword continues "*" with '*' or "*/"
  // with 'f'.
  predicate EndTable(t: Table)
  {
    Keyword(t, "*", STAR) && Keyword(t, "*/", END_BLOCK_COMMENT) && !OnTrie(t, "**") && !OnTrie(t, "*/f")
  }

  // ---------------------------------------------------------------------
  // Facts about the installed table
  // ---------------------------------------------------------------------

  /** The first sixteen keywords other than '#', '{' and '}' occur once in the installed table. */
  lemma KeyAt(i: nat)
    requires i < 16 && i !in {7, 9, 10}
    ensures Keyword(CurrentTable, CurrentTable[i].0, CurrentTable[i].1)
  {
    SymbolForKey(CurrentTable, i);
    assert CurrentTable[i].0 <= CurrentTable[i].0;
  }

  /** No keyword begins with a character outside `KeyStarts`. */
  lemma OffStart(c: char)
    requires c !in KeyStarts
    ensures !OnTrie(CurrentTable, [c])
  {
    NotAFirst(CurrentTable, c);
  }

  lemma CurrentIsTextTable()
    ensures TextTable(CurrentTable)
  {
    LexerExamples.TableShape();
    forall c | c !in KeyStarts ensures !OnTrie(CurrentTable, [c]) {
      OffStart(c);
    }
  }

  // No keyword continues "///" with '/'.
  lemma FourSlashesOff()
    ensures !OnTrie(CurrentTable, "////")
  {
    forall i | 0 <= i < |CurrentTable| ensures !("////" <= CurrentTable[i].0) {
      var k := CurrentTable[i].0;
      assert |k| < 4 || k[0] == '@';
    }
  }

  // "/" begins keywords but is none.
  lemma SlashNode()
    ensures OnTrie(CurrentTable, "/") && !Accepting(CurrentTable, "/")
  {
    assert "/" <= CurrentTable[13].0;
    forall i | 0 <= i < |CurrentTable| ensures CurrentTable[i].0 != "/" {
      var k := CurrentTable[i].0;
      assert |k| != 1 || k[0] != '/';
    }
  }

  lemma NlineKey()
    ensures Keyword(CurrentTable, "//", BEGIN_NLINE_COMMENT)
  {
    KeyAt(13);
  }

  lemma SlineKey()
    ensures Keyword(CurrentTable, "///", BEGIN_SLINE_COMMENT)
  {
    KeyAt(11);
  }

  lemma CurrentIsSlashTable()
    ensures SlashTable(CurrentTable)
  {
    NlineKey();
    SlineKey();
    SlashNode();
    FourSlashesOff();
  }

  // No keyword continues "/*" with '*'.
  lemma SlashStarStarOff()
    ensures !OnTrie(CurrentTable, "/**")
  {
    forall i | 0 <= i < |CurrentTable| ensures !("/**" <= CurrentTable[i].0) {
      var k := CurrentTable[i].0;
      assert |k| < 3 || k[2] != '*';
    }
  }

  // No keyword continues "*" with anything but '/', nor "*/" at all.
  lemma StarEnds(c: char)
    ensures c != '/' ==> !OnTrie(CurrentTable, "*" + [c])
    ensures !OnTrie(CurrentTable, "*/" + [c])
  {
    forall i | 0 <= i < |CurrentTable| ensures c != '/' ==> !("*" + [c] <= CurrentTable[i].0) {
      var k := CurrentTable[i].0;
      assert |k| < 2 || k[0] != '*' || k[1] == '/';
    }
    forall i | 0 <= i < |CurrentTable| ensures !("*/" + [c] <= CurrentTable[i].0) {
      var k := CurrentTable[i].0;
      assert |k| < 3 || k[0] != '*';
    }
  }

  lemma StarSpelling()
    ensures "*" + ['!'] == "*!" && "*" + ['*'] == "**" && "*/" + ['f'] == "*/f"
  {
  }

  lemma StarKey()
    ensures Keyword(CurrentTable, "*", STAR)
  {
    KeyAt(8);
  }

  lemma BlockKeys()
    ensures Keyword(CurrentTable, "/*", BEGIN_NBLOCK_COMMENT)
    ensures Keyword(CurrentTable, "/*!", BEGIN_SBLOCK_COMMENT)
  {
    KeyAt(12);
    KeyAt(14);
  }

  lemma EndKey()
    ensures Keyword(CurrentTable, "*/", END_BLOCK_COMMENT)
  {
    KeyAt(15);
  }

  // No keyword continues "*" with '!' or '*', nor "*/" with 'f'.
  lemma StarsOff()
    ensures !OnTrie(CurrentTable, "*!") && !OnTrie(CurrentTable, "**") && !OnTrie(CurrentTable, "*/f")
  {
    StarEnds('!');
    StarEnds('*');
    StarEnds('f');
    StarSpelling();
  }

  lemma CurrentIsBlockTable()
    ensures BlockTable(CurrentTable)
  {
    BlockKeys();
    StarKey();
    SlashStarStarOff();
    StarsOff();
  }

  lemma CurrentIsEndTable()
    ensures EndTable(CurrentTable)
  {
    StarKey();
    EndKey();
    StarsOff();
  }

  /** The first seven keywords are one character long, and no keyword continues them. */
  lemma ShortKeyEnds(i: nat, c: char)
    requires i < 7
    ensures |CurrentTable[i].0| == 1 && !OnTrie(CurrentTable, CurrentTable[i].0 + [c])
  {
    var k := CurrentTable[i].0;
    forall j | 0 <= j < |CurrentTable| ensures !(k + [c] <= CurrentTable[j].0) {
      var key := CurrentTable[j].0;
      assert |key| < 2 || key[0] in {'/', '*', '@'};
    }
  }

  // ---------------------------------------------------------------------
  // Building blocks
  // ---------------------------------------------------------------------

  /** A plain word read at the root goes into the text. */
  lemma Word(g: Generation, t: Table, s: LexState, w: string)
    requires TextTable(t) && Inv(t, s) && s.path == [] && !s.backtracking && Plain(w)
    ensures Run(g, t, s, w) == s.(text := s.text + w)
  {
    TextRun(g, t, s, w);
  }

  /** A plain word read from the initial state is the text. */
  lemma FirstWord(g: Generation, t: Table, w: string)
    requires TextTable(t) && Plain(w)
    ensures Run(g, t, Initial, w) == Initial.(text := w)
  {
    Word(g, t, Initial, w);
    assert [] + w == w;
  }

  // The steps of `LexerRuns`, stated on whole runs from the initial state.

  /** A character that leads further down the trie from a node that is not accepting. */
  lemma RunFollow(g: Generation, t: Table, input: string, s: LexState, c: char)
    requires KeysNonEmpty(t) && Inv(t, s) && !Accepting(t, s.path) && OnTrie(t, s.path + [c])
    requires Run(g, t, Initial, input) == s
    ensures Run(g, t, Initial, input + [c]) == s.(path := s.path + [c], buf := s.buf + [c])
  {
    StepFollow(g, t, s, c);
    RunSnoc(g, t, Initial, input, c);
  }

  /** A character that leads further down the trie from an accepting node: backtracking starts. */
  lemma RunFollowAccepted(g: Generation, t: Table, input: string, s: LexState, c: char)
    requires KeysNonEmpty(t) && Inv(t, s) && Accepting(t, s.path) && OnTrie(t, s.path + [c])
    requires Run(g, t, Initial, input) == s
    ensures Run(g, t, Initial, input + [c]) == s.(path := s.path + [c], buf := [c], backtracking := true)
  {
    StepFollowAccepted(g, t, s, c);
    RunSnoc(g, t, Initial, input, c);
  }

  /** A character off the trie after an accepting node, which begins no keyword: it is the new text. */
  lemma RunAcceptText(g: Generation, t: Table, input: string, s: LexState, c: char)
    requires KeysNonEmpty(t) && Inv(t, s) && Accepting(t, s.path) && !OnTrie(t, s.path + [c]) && !OnTrie(t, [c])
    requires Run(g, t, Initial, input) == s
    ensures Run(g, t, Initial, input + [c]) == AfterKeyword(t, s).(text := [c])
  {
    StepAccept(g, t, s, c);
    var a := AfterKeyword(t, s);
    StepText(g, t, a, c);
    assert a.text + [c] == [c];
    RunSnoc(g, t, Initial, input, c);
  }

  /** A character off the trie after an accepting node, which begins a keyword: it starts a new match. */
  lemma RunAcceptFollow(g: Generation, t: Table, input: string, s: LexState, c: char)
    requires KeysNonEmpty(t) && Inv(t, s) && Accepting(t, s.path) && !OnTrie(t, s.path + [c]) && OnTrie(t, [c])
    requires Run(g, t, Initial, input) == s
    ensures Run(g, t, Initial, input + [c]) == AfterKeyword(t, s).(path := [c], buf := [c])
  {
    StepAccept(g, t, s, c);
    var a := AfterKeyword(t, s);
    assert a.path + [c] == [c];
    StepFollow(g, t, a, c);
    RunSnoc(g, t, Initial, input, c);
  }

  /** The TEXT token a non-empty text becomes. */
  function TextToken(w: string): (r: seq<Token>)
    ensures w == [] <==> r == []
    ensures w != [] ==> r == [Token(TEXT, w)]
  {
    if w == [] then [] else [Token(TEXT, w)]
  }

  lemma TwoMore(a: seq<Token>, x: Token, y: Token)
    ensures a + [x] + [y] == a + [x, y]
  {
  }

  /** After a word, a one-character keyword is a match in progress. */
  lemma WordKeyword(g: Generation, t: Table, w1: string, k: char, x: Symbol)
    requires TextTable(t) && Plain(w1) && Keyword(t, [k], x)
    ensures Run(g, t, Initial, w1 + [k]) == Initial.(text := w1, path := [k], buf := [k])
    ensures AfterKeyword(t, Initial.(text := w1, path := [k], buf := [k])) ==
      Initial.(tokens := TextToken(w1) + [Token(x, [])])
  {
    FirstWord(g, t, w1);
    var a := Initial.(text := w1);
    assert a.path + [k] == [k];
    RunFollow(g, t, w1, a, k);
  }

  /**
   * A word, a one-character keyword that no keyword extends by the next
   * character, and that character, which begins no keyword: the word and
   * the symbol are emitted, and the character is the new text.
   */
  lemma KeywordNext(g: Generation, t: Table, w1: string, k: char, x: Symbol, c: char)
    requires TextTable(t) && Plain(w1)
    requires Keyword(t, [k], x) && !OnTrie(t, [k] + [c]) && !OnTrie(t, [c])
    ensures Run(g, t, Initial, w1 + [k] + [c]) == Initial.(text := [c], tokens := TextToken(w1) + [Token(x, [])])
  {
    WordKeyword(g, t, w1, k, x);
    RunAcceptText(g, t, w1 + [k], Initial.(text := w1, path := [k], buf := [k]), c);
  }

  /** The same with a whole second word: the second word is the new text. */
  lemma KeywordWord(g: Generation, t: Table, w1: string, k: char, x: Symbol, w2: string)
    requires TextTable(t) && Plain(w1) && Plain(w2) && w2 != []
    requires Keyword(t, [k], x) && !OnTrie(t, [k] + [w2[0]])
    ensures Run(g, t, Initial, w1 + [k] + w2) == Initial.(text := w2, tokens := TextToken(w1) + [Token(x, [])])
  {
    var c := w2[0];
    KeywordNext(g, t, w1, k, x, c);
    var b := Initial.(text := [c], tokens := TextToken(w1) + [Token(x, [])]);
    Word(g, t, b, w2[1..]);
    Rejoined(w1 + [k], w2);
    LexerExamples.Chain(g, t, Initial, w1 + [k] + [c], b, w2[1..], b.(text := [c] + w2[1..]), w1 + [k] + w2);
  }

  /**
   * `flush()` with a plain word pending after the tokens of a word and a
   * symbol: the pending word is one more TEXT token.
   */
  lemma FlushWord(g: Generation, t: Table, w1: string, x: Symbol, w2: string)
    requires g.HasFlush() && TextTable(t) && w2 != []
    ensures Flushed(g, t, Initial.(text := w2, tokens := TextToken(w1) + [Token(x, [])])).tokens ==
      TextToken(w1) + [Token(x, []), Token(TEXT, w2)]
  {
    var b := Initial.(text := w2, tokens := TextToken(w1) + [Token(x, [])]);
    FlushText(g, t, b);
    assert w2 + b.buf == w2;
    TwoMore(TextToken(w1), Token(x, []), Token(TEXT, w2));
  }

  /**
   * After `flush()`, a word, a one-character keyword that no keyword
   * extends by the second word's first character, and that second word are
   * the first word's TEXT token, the symbol and the second word's TEXT token.
   */
  lemma KeywordBetween(g: Generation, t: Table, w1: string, k: char, x: Symbol, w2: string)
    requires g.HasFlush() && TextTable(t) && Plain(w1) && Plain(w2) && w2 != []
    requires Keyword(t, [k], x) && !OnTrie(t, [k] + [w2[0]])
    ensures Flushed(g, t, Run(g, t, Initial, w1 + [k] + w2)).tokens ==
      TextToken(w1) + [Token(x, []), Token(TEXT, w2)]
  {
    KeywordWord(g, t, w1, k, x, w2);
    FlushWord(g, t, w1, x, w2);
  }

  lemma Rejoined(a: string, w: string)
    requires w != []
    ensures a + [w[0]] + w[1..] == a + w && [w[0]] + w[1..] == w
  {
    assert [w[0]] + w[1..] == w;
  }

  /** A word followed by a one-character keyword as the last character. */
  lemma KeywordLast(g: Generation, t: Table, w1: string, k: char, x: Symbol)
    requires g.HasFlush() && TextTable(t)
    requires Plain(w1) && Keyword(t, [k], x)
    ensures Flushed(g, t, Run(g, t, Initial, w1 + [k])).tokens == TextToken(w1) + [Token(x, [])]
  {
    WordKeyword(g, t, w1, k, x);
    FlushAccept(g, t, Initial.(text := w1, path := [k], buf := [k]));
  }

  /** One of the first seven keywords of the installed table between two plain words, lexed to the end. */
  lemma ShortBetween(g: Generation, i: nat, k: char, x: Symbol, w1: string, w2: string)
    requires g.HasFlush()
    requires i < 7 && CurrentTable[i] == ([k], x) && Plain(w1) && Plain(w2) && w2 != []
    ensures LexerExamples.Tokens(g, w1 + [k] + w2) == TextToken(w1) + [Token(x, []), Token(TEXT, w2)]
  {
    CurrentIsTextTable();
    KeyAt(i);
    ShortKeyEnds(i, w2[0]);
    KeywordBetween(g, CurrentTable, w1, k, x, w2);
  }

  /** One of the first seven keywords of the installed table after a word, as the last character. */
  lemma ShortLast(g: Generation, i: nat, k: char, x: Symbol, w1: string)
    requires g.HasFlush()
    requires i < 7 && CurrentTable[i] == ([k], x) && Plain(w1)
    ensures LexerExamples.Tokens(g, w1 + [k]) == TextToken(w1) + [Token(x, [])]
  {
    CurrentIsTextTable();
    KeyAt(i);
    KeywordLast(g, CurrentTable, w1, k, x);
  }

  lemma Cons1(a: Token, x: Token)
    ensures [a] + [x] == [a, x]
  {
  }

  lemma Cons2(a: Token, x: Token, y: Token)
    ensures [a] + [x, y] == [a, x, y] && [] + [x, y] == [x, y]
  {
  }

  lemma Cons3(a: Token, x: Token, y: Token, z: Token)
    ensures [a] + [x, y, z] == [a, x, y, z]
  {
  }

  // ---------------------------------------------------------------------
  // One-character keywords between words
  // ---------------------------------------------------------------------

  lemma NewlineFacts()
    ensures CurrentTable[0] == (['\n'], NEWLINE) && Plain("somecrazy1492text") && Plain("mvn2b")
    ensures "somecrazy1492text" + ['\n'] + "mvn2b" == "somecrazy1492text\nmvn2b" && TextToken("somecrazy1492text") == [Token(TEXT, "somecrazy1492text")]
  {
  }

  lemma NewlineTest(g: Generation)
    requires g.HasFlush()
    ensures LexerExamples.Tokens(g, "somecrazy1492text\nmvn2b") == [Token(TEXT, "somecrazy1492text"), Token(NEWLINE, []), Token(TEXT, "mvn2b")]
  {
    NewlineFacts();
    ShortBetween(g, 0, '\n', NEWLINE, "somecrazy1492text", "mvn2b");
    Cons2(Token(TEXT, "somecrazy1492text"), Token(NEWLINE, []), Token(TEXT, "mvn2b"));
  }

  lemma SpaceFacts()
    ensures CurrentTable[1] == ([' '], WHITESPACE) && Plain(",m.,m.") && Plain("abn")
    ensures ",m.,m." + [' '] + "abn" == ",m.,m. abn" && TextToken(",m.,m.") == [Token(TEXT, ",m.,m.")]
  {
  }

  lemma SpaceTest(g: Generation)
    requires g.HasFlush()
    ensures LexerExamples.Tokens(g, ",m.,m. abn") == [Token(TEXT, ",m.,m."), Token(WHITESPACE, []), Token(TEXT, "abn")]
  {
    SpaceFacts();
    ShortBetween(g, 1, ' ', WHITESPACE, ",m.,m.", "abn");
    Cons2(Token(TEXT, ",m.,m."), Token(WHITESPACE, []), Token(TEXT, "abn"));
  }

  lemma TabFacts()
    ensures CurrentTable[2] == (['\t'], WHITESPACE) && Plain("h0f2n.1") && Plain("1234|")
    ensures "h0f2n.1" + ['\t'] + "1234|" == "h0f2n.1\t1234|" && TextToken("h0f2n.1") == [Token(TEXT, "h0f2n.1")]
  {
  }

  lemma TabTest(g: Generation)
    requires g.HasFlush()
    ensures LexerExamples.Tokens(g, "h0f2n.1\t1234|") == [Token(TEXT, "h0f2n.1"), Token(WHITESPACE, []), Token(TEXT, "1234|")]
  {
    TabFacts();
    ShortBetween(g, 2, '\t', WHITESPACE, "h0f2n.1", "1234|");
    Cons2(Token(TEXT, "h0f2n.1"), Token(WHITESPACE, []), Token(TEXT, "1234|"));
  }

  lemma VerticalTabFacts()
    ensures CurrentTable[3] == (['\U{000B}'], WHITESPACE) && Plain("hello!")
    ensures "hello!" + ['\U{000B}'] == "hello!\U{000B}" && TextToken("hello!") == [Token(TEXT, "hello!")]
  {
  }

  /** A vertical tab as the last character: `flush()` still emits it. */
  lemma VerticalTabTest(g: Generation)
    requires g.HasFlush()
    ensures LexerExamples.Tokens(g, "hello!\U{000B}") == [Token(TEXT, "hello!"), Token(WHITESPACE, [])]
  {
    VerticalTabFacts();
    ShortLast(g, 3, '\U{000B}', WHITESPACE, "hello!");
  }

  lemma CarriageReturnFacts()
    ensures CurrentTable[4] == (['\r'], WHITESPACE) && Plain("hello!") && Plain("wsdescorrld!!")
    ensures "hello!" + ['\r'] + "wsdescorrld!!" == "hello!\rwsdescorrld!!" && TextToken("hello!") == [Token(TEXT, "hello!")]
  {
  }

  lemma CarriageReturnTest(g: Generation)
    requires g.HasFlush()
    ensures LexerExamples.Tokens(g, "hello!\rwsdescorrld!!") == [Token(TEXT, "hello!"), Token(WHITESPACE, []), Token(TEXT, "wsdescorrld!!")]
  {
    CarriageReturnFacts();
    ShortBetween(g, 4, '\r', WHITESPACE, "hello!", "wsdescorrld!!");
    Cons2(Token(TEXT, "hello!"), Token(WHITESPACE, []), Token(TEXT, "wsdescorrld!!"));
  }

  lemma FormFeedFacts()
    ensures CurrentTable[5] == (['\U{000C}'], WHITESPACE) && Plain("hello!") && Plain("wsdescorrld!!")
    ensures "hello!" + ['\U{000C}'] + "wsdescorrld!!" == "hello!\U{000C}wsdescorrld!!" && TextToken("hello!") == [Token(TEXT, "hello!")]
  {
  }

  lemma FormFeedTest(g: Generation)
    requires g.HasFlush()
    ensures LexerExamples.Tokens(g, "hello!\U{000C}wsdescorrld!!") == [Token(TEXT, "hello!"), Token(WHITESPACE, []), Token(TEXT, "wsdescorrld!!")]
  {
    FormFeedFacts();
    ShortBetween(g, 5, '\U{000C}', WHITESPACE, "hello!", "wsdescorrld!!");
    Cons2(Token(TEXT, "hello!"), Token(WHITESPACE, []), Token(TEXT, "wsdescorrld!!"));
  }

  lemma SemicolonFacts()
    ensures CurrentTable[6] == ([';'], SEMICOLON) && Plain([]) && Plain("wsdescorrld!!")
    ensures [] + [';'] + "wsdescorrld!!" == ";wsdescorrld!!" && TextToken([]) == []
  {
  }

  /** A keyword as the first character: no TEXT token before it. */
  lemma SemicolonTest(g: Generation)
    requires g.HasFlush()
    ensures LexerExamples.Tokens(g, ";wsdescorrld!!") == [Token(SEMICOLON, []), Token(TEXT, "wsdescorrld!!")]
  {
    SemicolonFacts();
    ShortBetween(g, 6, ';', SEMICOLON, [], "wsdescorrld!!");
    Cons2(Token(TEXT, []), Token(SEMICOLON, []), Token(TEXT, "wsdescorrld!!"));
  }

  // ---------------------------------------------------------------------
  // Runs of '/' after a word
  // ---------------------------------------------------------------------

  lemma SlashSpelling()
    ensures [] + ['/'] == "/" && "/" + ['/'] == "//" && "//" + ['/'] == "///" && "///" + ['/'] == "////"
    ensures "///"[..2] == "//" && [] + "/" == "/"
  {
  }

  lemma SlashesAfter(w: string)
    ensures w + "/" + ['/'] == w + "//" && w + "//" + ['/'] == w + "///" && w + "///" + ['/'] == w + "////"
    ensures w + "////" + ['/'] == w + "/////" && w + "/////" + ['/'] == w + "//////"
  {
    assert w + "/" + ['/'] == w + ("/" + ['/']);
    assert w + "//" + ['/'] == w + ("//" + ['/']);
    assert w + "///" + ['/'] == w + ("///" + ['/']);
    assert w + "////" + ['/'] == w + ("////" + ['/']);
    assert w + "/////" + ['/'] == w + ("/////" + ['/']);
  }

  /** The tokens of a text `w` whose state is empty otherwise. */
  lemma TokenizedWord(s: LexState)
    requires s.tokens == []
    ensures Tokenized(s).tokens == TextToken(s.text)
  {
  }

  /** After a plain word, one, two and three '/' walk down the trie; at "///" backtracking has started. */
  lemma SlashRuns3(g: Generation, t: Table, w: string)
    requires TextTable(t) && SlashTable(t) && Plain(w)
    ensures Run(g, t, Initial, w + "/") == Initial.(text := w, path := "/", buf := "/")
    ensures Run(g, t, Initial, w + "//") == Initial.(text := w, path := "//", buf := "//")
    ensures Run(g, t, Initial, w + "///") == Initial.(text := w, path := "///", buf := "/", backtracking := true)
  {
    SlashSpelling();
    SlashesAfter(w);
    var a := Initial.(text := w);
    FirstWord(g, t, w);
    RunFollow(g, t, w, a, '/');
    RunFollow(g, t, w + "/", a.(path := "/", buf := "/"), '/');
    RunFollowAccepted(g, t, w + "//", a.(path := "//", buf := "//"), '/');
  }

  /** Seen from `w` followed by "///", the keyword emitted is "///". */
  lemma AfterSline(t: Table, w: string)
    requires SlashTable(t)
    ensures var s3 := Initial.(text := w, path := "///", buf := "/", backtracking := true);
      Inv(t, s3) && Accepting(t, s3.path) &&
      AfterKeyword(t, s3) == Initial.(tokens := TextToken(w) + [Token(BEGIN_SLINE_COMMENT, [])])
  {
    SlashSpelling();
    TokenizedWord(Initial.(text := w, path := "///", buf := "/", backtracking := true));
  }

  /** A word and "///": the word's TEXT token, then the longest keyword "///" rather than "//". */
  lemma SlineRun(g: Generation, t: Table, w: string)
    requires g.HasFlush() && TextTable(t) && SlashTable(t) && Plain(w)
    ensures Flushed(g, t, Run(g, t, Initial, w + "///")).tokens == TextToken(w) + [Token(BEGIN_SLINE_COMMENT, [])]
  {
    SlashRuns3(g, t, w);
    AfterSline(t, w);
    FlushAccept(g, t, Initial.(text := w, path := "///", buf := "/", backtracking := true));
  }

  /** A fourth '/' emits "///" and starts a new match, which the fifth and sixth '/' continue. */
  lemma SlashRuns6(g: Generation, t: Table, w: string)
    requires TextTable(t) && SlashTable(t) && Plain(w)
    ensures var e := TextToken(w) + [Token(BEGIN_SLINE_COMMENT, [])];
      Run(g, t, Initial, w + "////") == Initial.(path := "/", buf := "/", tokens := e) &&
      Run(g, t, Initial, w + "/////") == Initial.(path := "//", buf := "//", tokens := e) &&
      Run(g, t, Initial, w + "//////") == Initial.(path := "///", buf := "/", backtracking := true, tokens := e)
  {
    SlashRuns3(g, t, w);
    SlashSpelling();
    SlashesAfter(w);
    AfterSline(t, w);
    var a := Initial.(tokens := TextToken(w) + [Token(BEGIN_SLINE_COMMENT, [])]);
    RunAcceptFollow(g, t, w + "///", Initial.(text := w, path := "///", buf := "/", backtracking := true), '/');
    RunFollow(g, t, w + "////", a.(path := "/", buf := "/"), '/');
    RunFollowAccepted(g, t, w + "/////", a.(path := "//", buf := "//"), '/');
  }

  /** A word and "////": "///" wins, and the fourth '/' is text of its own. */
  lemma LineComment4Run(g: Generation, t: Table, w: string)
    requires g.HasFlush() && TextTable(t) && SlashTable(t) && Plain(w)
    ensures Flushed(g, t, Run(g, t, Initial, w + "////")).tokens ==
      TextToken(w) + [Token(BEGIN_SLINE_COMMENT, []), Token(TEXT, "/")]
  {
    SlashRuns6(g, t, w);
    SlashSpelling();
    FlushText(g, t, Initial.(path := "/", buf := "/", tokens := TextToken(w) + [Token(BEGIN_SLINE_COMMENT, [])]));
    TwoMore(TextToken(w), Token(BEGIN_SLINE_COMMENT, []), Token(TEXT, "/"));
  }

  /** A word and "/////": "///" and then "//". */
  lemma LineComment5Run(g: Generation, t: Table, w: string)
    requires g.HasFlush() && TextTable(t) && SlashTable(t) && Plain(w)
    ensures Flushed(g, t, Run(g, t, Initial, w + "/////")).tokens ==
      TextToken(w) + [Token(BEGIN_SLINE_COMMENT, []), Token(BEGIN_NLINE_COMMENT, [])]
  {
    SlashRuns6(g, t, w);
    FlushAccept(g, t, Initial.(path := "//", buf := "//", tokens := TextToken(w) + [Token(BEGIN_SLINE_COMMENT, [])]));
    TwoMore(TextToken(w), Token(BEGIN_SLINE_COMMENT, []), Token(BEGIN_NLINE_COMMENT, []));
  }

  /** A word and "//////": "///" twice. */
  lemma LineComment6Run(g: Generation, t: Table, w: string)
    requires g.HasFlush() && TextTable(t) && SlashTable(t) && Plain(w)
    ensures Flushed(g, t, Run(g, t, Initial, w + "//////")).tokens ==
      TextToken(w) + [Token(BEGIN_SLINE_COMMENT, []), Token(BEGIN_SLINE_COMMENT, [])]
  {
    SlashRuns6(g, t, w);
    SlashSpelling();
    FlushAccept(g, t, Initial.(path := "///", buf := "/", backtracking := true, tokens := TextToken(w) + [Token(BEGIN_SLINE_COMMENT, [])]));
    TwoMore(TextToken(w), Token(BEGIN_SLINE_COMMENT, []), Token(BEGIN_SLINE_COMMENT, []));
  }

  /** The word before the markers in the tests, and the inputs it makes. */
  lemma AbcFacts()
    ensures Plain("abc") && TextToken("abc") == [Token(TEXT, "abc")]
    ensures "abc" + "///" == "abc///" && "abc" + "////" == "abc////"
    ensures "abc" + "/////" == "abc/////" && "abc" + "//////" == "abc//////"
    ensures "abc" + "/*!" == "abc/*!" && "abc" + "/**!" == "abc/**!"
    ensures "abc" + "*/f" == "abc*/f" && "abc" + "**/f" == "abc**/f"
  {
  }

  /** The installed table has what the runs of '/' need. */
  lemma CurrentSlashes()
    ensures TextTable(CurrentTable) && SlashTable(CurrentTable)
  {
    CurrentIsTextTable();
    CurrentIsSlashTable();
  }

  /** "abc///": the text, then the longest keyword "///" rather than "//". */
  lemma SlineTest(g: Generation)
    requires g.HasFlush()
    ensures LexerExamples.Tokens(g, "abc///") == [Token(TEXT, "abc"), Token(BEGIN_SLINE_COMMENT, [])]
  {
    CurrentSlashes();
    AbcFacts();
    SlineRun(g, CurrentTable, "abc");
    Cons1(Token(TEXT, "abc"), Token(BEGIN_SLINE_COMMENT, []));
  }

  /** "abc////": "///" wins, and the fourth '/' is text of its own. */
  lemma LineComment4Test(g: Generation)
    requires g.HasFlush()
    ensures LexerExamples.Tokens(g, "abc////") ==
      [Token(TEXT, "abc"), Token(BEGIN_SLINE_COMMENT, []), Token(TEXT, "/")]
  {
    CurrentSlashes();
    AbcFacts();
    LineComment4Run(g, CurrentTable, "abc");
    Cons2(Token(TEXT, "abc"), Token(BEGIN_SLINE_COMMENT, []), Token(TEXT, "/"));
  }

  /** "abc/////": "///" and then "//". */
  lemma LineComment5Test(g: Generation)
    requires g.HasFlush()
    ensures LexerExamples.Tokens(g, "abc/////") ==
      [Token(TEXT, "abc"), Token(BEGIN_SLINE_COMMENT, []), Token(BEGIN_NLINE_COMMENT, [])]
  {
    CurrentSlashes();
    AbcFacts();
    LineComment5Run(g, CurrentTable, "abc");
    Cons2(Token(TEXT, "abc"), Token(BEGIN_SLINE_COMMENT, []), Token(BEGIN_NLINE_COMMENT, []));
  }

  /** "abc//////": "///" twice. */
  lemma LineComment6Test(g: Generation)
    requires g.HasFlush()
    ensures LexerExamples.Tokens(g, "abc//////") ==
      [Token(TEXT, "abc"), Token(BEGIN_SLINE_COMMENT, []), Token(BEGIN_SLINE_COMMENT, [])]
  {
    CurrentSlashes();
    AbcFacts();
    LineComment6Run(g, CurrentTable, "abc");
    Cons2(Token(TEXT, "abc"), Token(BEGIN_SLINE_COMMENT, []), Token(BEGIN_SLINE_COMMENT, []));
  }

  // ---------------------------------------------------------------------
  // Block comment markers after a word
  // ---------------------------------------------------------------------

  lemma StarPathSpelling()
    ensures "/" + ['*'] == "/*" && "/*" + ['!'] == "/*!" && "/*" + ['*'] == "/**" && "/*!"[..2] == "/*"
    ensures "*" + ['/'] == "*/" && "*" + ['!'] == "*!" && "*" + ['*'] == "**" && [] + ['*'] == "*"
    ensures "*/"[..1] == "*" && "*/" + ['f'] == "*/f" && "!" + [] == "!" && "f" + [] == "f"
  {
  }

  lemma StarsAfter(w: string)
    ensures w + "/" + ['*'] == w + "/*" && w + "/*" + ['!'] == w + "/*!" && w + "/*" + ['*'] == w + "/**"
    ensures w + "/**" + ['!'] == w + "/**!" && w + "*" + ['*'] == w + "**" && w + "*" + "*/f" == w + "**/f"
  {
    assert w + "/" + ['*'] == w + ("/" + ['*']);
    assert w + "/*" + ['!'] == w + ("/*" + ['!']);
    assert w + "/*" + ['*'] == w + ("/*" + ['*']);
    assert w + "/**" + ['!'] == w + ("/**" + ['!']);
    assert w + "*" + ['*'] == w + ("*" + ['*']);
    assert w + "*" + "*/f" == w + ("*" + "*/f");
  }

  /** Neither '!' nor 'f' begins a keyword. */
  lemma OffBangAndF(t: Table)
    requires TextTable(t)
    ensures !OnTrie(t, ['!']) && !OnTrie(t, ['f'])
  {
    assert '!' !in KeyStarts && 'f' !in KeyStarts;
  }

  lemma ThreeMore(a: seq<Token>, x: Token, y: Token, z: Token)
    ensures a + [x, y] + [z] == a + [x, y, z] && a + [x] + [y, z] == a + [x, y, z]
  {
  }

  // After a word, "/*" is a match in progress.
  lemma SlashStarRun(g: Generation, t: Table, w: string)
    requires TextTable(t) && SlashTable(t) && BlockTable(t) && Plain(w)
    ensures Run(g, t, Initial, w + "/*") == Initial.(text := w, path := "/*", buf := "/*")
  {
    SlashRuns3(g, t, w);
    StarPathSpelling();
    StarsAfter(w);
    RunFollow(g, t, w + "/", Initial.(text := w, path := "/", buf := "/"), '*');
  }

  // A word and "/*!": the word's TEXT token, then the longest keyword "/*!" rather than "/*".
  lemma SblockRun(g: Generation, t: Table, w: string)
    requires g.HasFlush() && TextTable(t) && SlashTable(t) && BlockTable(t) && Plain(w)
    ensures Flushed(g, t, Run(g, t, Initial, w + "/*!")).tokens == TextToken(w) + [Token(BEGIN_SBLOCK_COMMENT, [])]
  {
    SlashStarRun(g, t, w);
    StarPathSpelling();
    StarsAfter(w);
    var s2 := Initial.(text := w, path := "/*", buf := "/*");
    RunFollowAccepted(g, t, w + "/*", s2, '!');
    var s3 := s2.(path := "/*!", buf := "!", backtracking := true);
    FlushAccept(g, t, s3);
    TokenizedWord(s3);
  }

  // In a word and "/**", the second '*' emits "/*" and begins a STAR match.
  lemma NblockStarRun(g: Generation, t: Table, w: string)
    requires TextTable(t) && SlashTable(t) && BlockTable(t) && Plain(w)
    ensures Run(g, t, Initial, w + "/**") ==
      Initial.(path := "*", buf := "*", tokens := TextToken(w) + [Token(BEGIN_NBLOCK_COMMENT, [])])
  {
    SlashStarRun(g, t, w);
    StarPathSpelling();
    StarsAfter(w);
    var s2 := Initial.(text := w, path := "/*", buf := "/*");
    RunAcceptFollow(g, t, w + "/*", s2, '*');
    TokenizedWord(s2);
  }

  /** Seen from that STAR, the keyword emitted is "*". */
  lemma AfterNblockStar(t: Table, w: string)
    requires BlockTable(t)
    ensures var s3 := Initial.(path := "*", buf := "*", tokens := TextToken(w) + [Token(BEGIN_NBLOCK_COMMENT, [])]);
      Inv(t, s3) && Accepting(t, s3.path) &&
      AfterKeyword(t, s3) == Initial.(tokens := TextToken(w) + [Token(BEGIN_NBLOCK_COMMENT, []), Token(STAR, [])])
  {
    TwoMore(TextToken(w), Token(BEGIN_NBLOCK_COMMENT, []), Token(STAR, []));
  }

  // In a word and "/**!", the '!' emits the STAR and becomes the new text.
  lemma NblockBangRun(g: Generation, t: Table, w: string)
    requires TextTable(t) && SlashTable(t) && BlockTable(t) && Plain(w)
    ensures Run(g, t, Initial, w + "/**!") ==
      Initial.(text := "!", tokens := TextToken(w) + [Token(BEGIN_NBLOCK_COMMENT, []), Token(STAR, [])])
  {
    NblockStarRun(g, t, w);
    StarPathSpelling();
    StarsAfter(w);
    OffBangAndF(t);
    AfterNblockStar(t, w);
    var s3 := Initial.(path := "*", buf := "*", tokens := TextToken(w) + [Token(BEGIN_NBLOCK_COMMENT, [])]);
    RunAcceptText(g, t, w + "/**", s3, '!');
  }

  // A word and "/**!": TEXT, BEGIN_NBLOCK_COMMENT, STAR and TEXT "!".
  lemma NblockRun(g: Generation, t: Table, w: string)
    requires g.HasFlush() && TextTable(t) && SlashTable(t) && BlockTable(t) && Plain(w)
    ensures Flushed(g, t, Run(g, t, Initial, w + "/**!")).tokens ==
      TextToken(w) + [Token(BEGIN_NBLOCK_COMMENT, []), Token(STAR, []), Token(TEXT, "!")]
  {
    NblockBangRun(g, t, w);
    StarPathSpelling();
    FlushText(g, t, Initial.(text := "!", tokens := TextToken(w) + [Token(BEGIN_NBLOCK_COMMENT, []), Token(STAR, [])]));
    ThreeMore(TextToken(w), Token(BEGIN_NBLOCK_COMMENT, []), Token(STAR, []), Token(TEXT, "!"));
  }

  /** The installed table has what the block comment markers need. */
  lemma CurrentBlocks()
    ensures TextTable(CurrentTable) && SlashTable(CurrentTable) && BlockTable(CurrentTable)
  {
    CurrentIsTextTable();
    CurrentIsSlashTable();
    CurrentIsBlockTable();
  }

  // "abc/*!": the longest keyword "/*!" rather than "/*".
  lemma SblockTest(g: Generation)
    requires g.HasFlush()
    ensures LexerExamples.Tokens(g, "abc/*!") == [Token(TEXT, "abc"), Token(BEGIN_SBLOCK_COMMENT, [])]
  {
    CurrentBlocks();
    AbcFacts();
    SblockRun(g, CurrentTable, "abc");
    Cons1(Token(TEXT, "abc"), Token(BEGIN_SBLOCK_COMMENT, []));
  }

  // "abc/**!": "/*" ends at the second '*', a STAR, and '!' is text.
  lemma NblockTest(g: Generation)
    requires g.HasFlush()
    ensures LexerExamples.Tokens(g, "abc/**!") ==
      [Token(TEXT, "abc"), Token(BEGIN_NBLOCK_COMMENT, []), Token(STAR, []), Token(TEXT, "!")]
  {
    CurrentBlocks();
    AbcFacts();
    NblockRun(g, CurrentTable, "abc");
    Cons3(Token(TEXT, "abc"), Token(BEGIN_NBLOCK_COMMENT, []), Token(STAR, []), Token(TEXT, "!"));
  }

  lemma EndSpelling(input: string)
    ensures input + ['*'] + ['/'] + ['f'] == input + "*/f"
  {
  }

  // When the next '*' begins a match from a state `s` at the root, "*/f"
  // emits the pending text, END_BLOCK_COMMENT, and "f" as text.
  lemma EndThenF(g: Generation, t: Table, input: string, s: LexState)
    requires g.HasFlush() && TextTable(t) && EndTable(t) && Inv(t, s) && s.path == [] && !s.backtracking
    requires Run(g, t, Initial, input + ['*']) == s.(path := "*", buf := "*")
    ensures Flushed(g, t, Run(g, t, Initial, input + "*/f")).tokens ==
      Tokenized(s).tokens + [Token(END_BLOCK_COMMENT, []), Token(TEXT, "f")]
  {
    StarPathSpelling();
    OffBangAndF(t);
    RunFollowAccepted(g, t, input + ['*'], s.(path := "*", buf := "*"), '/');
    var s2 := s.(path := "*/", buf := "/", backtracking := true);
    RunAcceptText(g, t, input + ['*'] + ['/'], s2, 'f');
    FlushText(g, t, AfterKeyword(t, s2).(text := "f"));
    EndSpelling(input);
    TwoMore(Tokenized(s).tokens, Token(END_BLOCK_COMMENT, []), Token(TEXT, "f"));
  }

  // A word and "*/f": the longest keyword "*/" rather than "*", then "f" as text.
  lemma EndNoStarRun(g: Generation, t: Table, w: string)
    requires g.HasFlush() && TextTable(t) && EndTable(t) && Plain(w)
    ensures Flushed(g, t, Run(g, t, Initial, w + "*/f")).tokens ==
      TextToken(w) + [Token(END_BLOCK_COMMENT, []), Token(TEXT, "f")]
  {
    StarPathSpelling();
    var a := Initial.(text := w);
    FirstWord(g, t, w);
    RunFollow(g, t, w, a, '*');
    EndThenF(g, t, w, a);
    TokenizedWord(a);
  }

  // In a word and "**", the second '*' emits the first as STAR and begins a new match.
  lemma StarStarRun(g: Generation, t: Table, w: string)
    requires TextTable(t) && EndTable(t) && Plain(w)
    ensures Run(g, t, Initial, w + "*" + ['*']) ==
      Initial.(path := "*", buf := "*", tokens := TextToken(w) + [Token(STAR, [])])
  {
    StarPathSpelling();
    var s0 := Initial.(text := w);
    FirstWord(g, t, w);
    RunFollow(g, t, w, s0, '*');
    var s1 := s0.(path := "*", buf := "*");
    RunAcceptFollow(g, t, w + "*", s1, '*');
    TokenizedWord(s1);
  }

  // A word and "**/f": the first '*' is a STAR, the second begins "*/".
  lemma EndStarRun(g: Generation, t: Table, w: string)
    requires g.HasFlush() && TextTable(t) && EndTable(t) && Plain(w)
    ensures Flushed(g, t, Run(g, t, Initial, w + "**/f")).tokens ==
      TextToken(w) + [Token(STAR, []), Token(END_BLOCK_COMMENT, []), Token(TEXT, "f")]
  {
    StarStarRun(g, t, w);
    StarsAfter(w);
    EndThenF(g, t, w + "*", Initial.(tokens := TextToken(w) + [Token(STAR, [])]));
    ThreeMore(TextToken(w), Token(STAR, []), Token(END_BLOCK_COMMENT, []), Token(TEXT, "f"));
  }

  /** The installed table has what the end markers need. */
  lemma CurrentEnds()
    ensures TextTable(CurrentTable) && EndTable(CurrentTable)
  {
    CurrentIsTextTable();
    CurrentIsEndTable();
  }

  // "abc*/f": the longest keyword "*/" rather than "*".
  lemma EndNoStarTest(g: Generation)
    requires g.HasFlush()
    ensures LexerExamples.Tokens(g, "abc*/f") == [Token(TEXT, "abc"), Token(END_BLOCK_COMMENT, []), Token(TEXT, "f")]
  {
    CurrentEnds();
    AbcFacts();
    EndNoStarRun(g, CurrentTable, "abc");
    Cons2(Token(TEXT, "abc"), Token(END_BLOCK_COMMENT, []), Token(TEXT, "f"));
  }

  // "abc**/f": the first '*' is a STAR, the second begins "*/".
  lemma EndStarTest(g: Generation)
    requires g.HasFlush()
    ensures LexerExamples.Tokens(g, "abc**/f") ==
      [Token(TEXT, "abc"), Token(STAR, []), Token(END_BLOCK_COMMENT, []), Token(TEXT, "f")]
  {
    CurrentEnds();
    AbcFacts();
    EndStarRun(g, CurrentTable, "abc");
    Cons3(Token(TEXT, "abc"), Token(STAR, []), Token(END_BLOCK_COMMENT, []), Token(TEXT, "f"));
  }
}
