/**
 * Inputs of the lexer tests (test/core/lexer/lexer_unittest.cpp), worked
 * through the model of the two generations that install the twenty-entry
 * table: src/core/lexer/lexer.cpp, which does not reprocess a character
 * after a failed transition away from the root, and src/core/lex/lexer.cpp,
 * which does.
 *
 * The runs are proved for any table that has the few properties of
 * `SdescTable`, and `CurrentIsSdescTable` shows that the installed table
 * has them.
 */
module LexerExamples {
  import opened Wrappers
  import opened LexerSpec
  import opened LexerRuns

  /**
   * What `setup_lexer` followed by `next_token` until none is left yields,
   * for a generation that has `flush`, over the table of
   * src/core/lexer/lexer.cpp. The tests run the `Runtime` and `Current`
   * generations; the lemmas over `Tokens(g, _)` hold for every such `g`.
   */
  function Tokens(g: Generation, input: string): seq<Token>
    requires g.HasFlush()
  {
    Flushed(g, CurrentTable, Run(g, CurrentTable, Initial, input)).tokens
  }

  // ---------------------------------------------------------------------
  // What the runs need of a table
  // ---------------------------------------------------------------------

  /**
   * "@sdesc" is a keyword for SDESC and no other keyword is a proper prefix
   * of it; no keyword begins with a lower-case letter, continues "@" with
   * '@', continues "@sdes" with 's', or continues "@sdesc" at all.
   */
  predicate SdescTable(t: Table)
  {
    KeysNonEmpty(t) && PlainKeys(t) &&
    OnTrie(t, "@sdesc") && SymbolFor(t, "@sdesc") == Some(SDESC) &&
    (forall j :: 0 <= j < |t| ==> !(t[j].0 < "@sdesc")) &&
    !OnTrie(t, "@@") && !OnTrie(t, "@sdess") &&
    (forall c :: 'a' <= c <= 'z' ==> !OnTrie(t, [c])) &&
    (forall c :: 'a' <= c <= 'z' ==> !OnTrie(t, "@sdesc" + [c]))
  }

  // ---------------------------------------------------------------------
  // Facts about the installed table
  // ---------------------------------------------------------------------

  lemma TableShape()
    ensures KeysNonEmpty(CurrentTable) && PlainKeys(CurrentTable)
  {
  }

  /** No keyword begins with a lower-case letter. */
  lemma LetterNotFirst(c: char)
    requires 'a' <= c <= 'z'
    ensures !OnTrie(CurrentTable, [c])
  {
    NotAFirst(CurrentTable, c);
  }

  /** Every keyword beginning with '@' has six or seven characters. */
  lemma AtKeysLong()
    ensures forall j :: 0 <= j < |CurrentTable| ==>
      CurrentTable[j].0[0] != '@' || 6 <= |CurrentTable[j].0| <= 7
  {
  }

  /** "@sdesc" is the seventeenth keyword, and no other keyword equals it. */
  lemma SdescKeyword()
    ensures CurrentTable[16] == ("@sdesc", SDESC)
    ensures forall j :: 0 <= j < |CurrentTable| && CurrentTable[j].0 == "@sdesc" ==> j == 16
  {
  }

  lemma SdescSymbol()
    ensures OnTrie(CurrentTable, "@sdesc") && SymbolFor(CurrentTable, "@sdesc") == Some(SDESC)
  {
    SdescKeyword();
    assert "@sdesc" <= CurrentTable[16].0;
    SymbolForKey(CurrentTable, 16);
  }

  /** No keyword continues "@" with '@' or "@sdes" with 's'. */
  lemma AtDeadEnds()
    ensures !OnTrie(CurrentTable, "@@") && !OnTrie(CurrentTable, "@sdess")
  {
    forall i | 0 <= i < |CurrentTable| ensures !("@@" <= CurrentTable[i].0) {
      var k := CurrentTable[i].0;
      assert k[0] != '@' || |k| < 2 || k[1] != '@';
    }
    forall i | 0 <= i < |CurrentTable| ensures !("@sdess" <= CurrentTable[i].0) {
      var k := CurrentTable[i].0;
      assert |k| < 6 || k[5] != 's';
    }
  }

  /** Nothing continues "@sdesc". */
  lemma SdescEnds(c: char)
    ensures !OnTrie(CurrentTable, "@sdesc" + [c])
  {
    forall i | 0 <= i < |CurrentTable| ensures !("@sdesc" + [c] <= CurrentTable[i].0) {
      var k := CurrentTable[i].0;
      assert |k| < 7 || k[1] != 's';
    }
  }

  /** No keyword is a proper prefix of "@sdesc". */
  lemma SdescMinimal()
    ensures forall j :: 0 <= j < |CurrentTable| ==> !(CurrentTable[j].0 < "@sdesc")
  {
    AtKeysLong();
  }

  lemma LettersOff()
    ensures forall c :: 'a' <= c <= 'z' ==> !OnTrie(CurrentTable, [c])
    ensures forall c :: 'a' <= c <= 'z' ==> !OnTrie(CurrentTable, "@sdesc" + [c])
  {
    forall c | 'a' <= c <= 'z' ensures !OnTrie(CurrentTable, [c]) && !OnTrie(CurrentTable, "@sdesc" + [c]) {
      LetterNotFirst(c);
      SdescEnds(c);
    }
  }

  lemma CurrentIsSdescTable()
    ensures SdescTable(CurrentTable)
  {
    TableShape();
    SdescSymbol();
    SdescMinimal();
    AtDeadEnds();
    LettersOff();
  }

  // ---------------------------------------------------------------------
  // Runs over pieces of an input
  // ---------------------------------------------------------------------

  lemma Chain(g: Generation, t: Table, s: LexState, a: string, x: LexState, b: string, y: LexState, ab: string)
    requires KeysNonEmpty(t) && Inv(t, s) && Run(g, t, s, a) == x && Run(g, t, x, b) == y && ab == a + b
    ensures Run(g, t, s, ab) == y
  {
    RunAppend(g, t, s, a, b);
  }

  /** One character as a run. */
  lemma One(g: Generation, t: Table, s: LexState, c: char)
    requires KeysNonEmpty(t) && Inv(t, s)
    ensures Run(g, t, s, [c]) == Processed(g, t, s, c)
  {
    ReprocessedOne(g, t, s, c);
  }

  /** Lower-case letters at the root join the text. */
  lemma Letters(g: Generation, t: Table, s: LexState, w: string)
    requires SdescTable(t) && Inv(t, s) && s.path == [] && !s.backtracking && Lower(w)
    ensures Run(g, t, s, w) == s.(text := s.text + w)
  {
    TextRun(g, t, s, w);
  }

  /** Along a prefix of "@sdesc", characters are followed and buffered. */
  lemma FollowSdesc(g: Generation, t: Table, s: LexState, w: string)
    requires SdescTable(t) && Inv(t, s) && !s.backtracking && s.path + w <= "@sdesc"
    ensures Run(g, t, s, w) == s.(path := s.path + w, buf := s.buf + w)
  {
    var i :| 0 <= i < |t| && "@sdesc" <= t[i].0;
    assert s.path + w <= t[i].0;
    FollowRun(g, t, s, w);
  }

  /** A second '@' under the generations that reprocess: the first joins the text and the second begins the path again. */
  lemma AtAgainRetried(g: Generation, t: Table, s: LexState)
    requires g.Reprocesses() && SdescTable(t) && Inv(t, s) && !s.backtracking && s.path == "@"
    ensures Run(g, t, s, "@") == s.(text := s.text + "@")
  {
    assert s.path + ['@'] == "@@";
    assert !Accepting(t, s.path);
    One(g, t, s, '@');
    StepRetry(g, t, s, '@');
    AtFromRoot(g, t, s.(text := s.text + s.buf, buf := [], path := []));
  }

  /** From the root, '@' is followed. */
  lemma AtFromRoot(g: Generation, t: Table, v: LexState)
    requires SdescTable(t) && Inv(t, v) && !v.backtracking && v.path == []
    ensures Processed(g, t, v, '@') == v.(path := "@", buf := "@")
  {
    assert v.path + "@" == "@" && v.buf + "@" == "@";
    assert "@" <= "@sdesc";
    FollowSdesc(g, t, v, "@");
    One(g, t, v, '@');
  }

  /** No keyword is "@" or "@sdes", so neither is an accepting node. */
  lemma ShortNotAccepting(t: Table, p: string)
    requires SdescTable(t) && p < "@sdesc"
    ensures !Accepting(t, p)
  {
  }

  lemma AtText(x: string)
    ensures x + "@" + ['@'] == x + "@@"
  {
  }

  lemma SdesText(x: string)
    ensures x + "@sdes" + ['s'] == x + "@sdess"
  {
  }

  /** A second '@' under the runtime lexer: both join the text and the trie returns to its root. */
  lemma AtAgainSpilled(t: Table, s: LexState)
    requires SdescTable(t) && Inv(t, s) && !s.backtracking && s.path == "@"
    ensures Run(Runtime, t, s, "@") == s.(text := s.text + "@@", path := [], buf := [])
  {
    assert s.path + ['@'] == "@@";
    ShortNotAccepting(t, s.path);
    One(Runtime, t, s, '@');
    StepSpill(Runtime, t, s, '@');
    AtText(s.text);
  }

  /** An 's' after "@sdes" ends the match in every generation: all six characters join the text. */
  lemma SdesDeadEnd(g: Generation, t: Table, s: LexState)
    requires SdescTable(t) && Inv(t, s) && !s.backtracking && s.path == "@sdes"
    ensures Run(g, t, s, "s") == s.(text := s.text + "@sdess", path := [], buf := [])
  {
    One(g, t, s, 's');
    if g.Reprocesses() {
      SdesRetried(g, t, s);
    } else {
      SdesSpilled(g, t, s);
    }
  }

  lemma SdesRetried(g: Generation, t: Table, s: LexState)
    requires SdescTable(t) && Inv(t, s) && !s.backtracking && s.path == "@sdes" && g.Reprocesses()
    ensures Processed(g, t, s, 's') == s.(text := s.text + "@sdess", path := [], buf := [])
  {
    assert s.path + ['s'] == "@sdess";
    ShortNotAccepting(t, s.path);
    StepRetry(g, t, s, 's');
    var v := s.(text := s.text + s.buf, buf := [], path := []);
    StepText(g, t, v, 's');
    SdesText(s.text);
  }

  lemma SdesSpilled(g: Generation, t: Table, s: LexState)
    requires SdescTable(t) && Inv(t, s) && !s.backtracking && s.path == "@sdes" && !g.Reprocesses()
    ensures Processed(g, t, s, 's') == s.(text := s.text + "@sdess", path := [], buf := [])
  {
    assert s.path + ['s'] == "@sdess";
    ShortNotAccepting(t, s.path);
    StepSpill(g, t, s, 's');
    SdesText(s.text);
  }

  /** A letter after "@sdesc" emits the text and SDESC, and starts a new text. */
  lemma SdescAccepted(g: Generation, t: Table, s: LexState, c: char)
    requires SdescTable(t) && Inv(t, s) && s.path == "@sdesc" && 'a' <= c <= 'z'
    ensures Run(g, t, s, [c]) == Initial.(text := [c], tokens := Tokenized(s).tokens + [Token(SDESC, [])])
  {
    assert Accepting(t, s.path);
    One(g, t, s, c);
    StepAccept(g, t, s, c);
    var a := AfterKeyword(t, s);
    PlainInv(t, a);
    StepText(g, t, a, c);
  }

  // ---------------------------------------------------------------------
  // The SDESC test: "ssdesc@@sdescf@sdesscf"
  // ---------------------------------------------------------------------

  predicate Lower(w: string)
  {
    forall k :: 0 <= k < |w| ==> 'a' <= w[k] <= 'z'
  }

  /** How the pieces of the test's input spell it. */
  lemma Spelling()
    ensures Lower("ssdesc") && Lower("sdescf") && Lower("cf")
    ensures [] + "ssdesc" == "ssdesc" && [] + "@" == "@" && "@" <= "@sdesc" && "@sdes" <= "@sdesc"
    ensures "@" + "sdesc" == "@sdesc" && "@sdesc" <= "@sdesc" && [] + "@sdes" == "@sdes"
  {
  }

  lemma Spelling2()
    ensures "ssdesc" + "@" == "ssdesc@" && "ssdesc@" + "@" == "ssdesc@@" && "ssdesc" + "@@" == "ssdesc@@"
    ensures "ssdesc@@" + "sdesc" == "ssdesc@@sdesc" && "ssdesc@@sdesc" + "f" == "ssdesc@@sdescf"
    ensures "ssdesc@@" + "sdescf" == "ssdesc@@sdescf"
    ensures "ssdesc@@sdescf" + "@sdes" == "ssdesc@@sdescf@sdes"
    ensures "ssdesc@@sdescf@sdes" + "s" == "ssdesc@@sdescf@sdess"
    ensures "ssdesc@@sdescf@sdess" + "cf" == "ssdesc@@sdescf@sdesscf"
    ensures "f" + "@sdess" == "f@sdess" && "f@sdess" + "cf" == "f@sdesscf"
    ensures "ssdesc@@sdescf" + "@sdess" == "ssdesc@@sdescf@sdess"
  {
  }

  /** "ssdesc@" in every generation: the letters are text and the trie is at "@". */
  lemma SdescPart1(g: Generation, t: Table)
    requires SdescTable(t)
    ensures Run(g, t, Initial, "ssdesc@") == Initial.(text := "ssdesc", path := "@", buf := "@")
  {
    Spelling();
    Spelling2();
    PlainInv(t, Initial);
    var x := Initial.(text := "ssdesc");
    Letters(g, t, Initial, "ssdesc");
    PlainInv(t, x);
    FollowSdesc(g, t, x, "@");
    Chain(g, t, Initial, "ssdesc", x, "@", x.(path := "@", buf := "@"), "ssdesc@");
  }

  /** "ssdesc@@sdesc" in the current generation: the first '@' is text, the second begins "@sdesc". */
  lemma CurrentSdescPart2(t: Table)
    requires SdescTable(t)
    ensures Run(Current, t, Initial, "ssdesc@@sdesc") == Initial.(text := "ssdesc@", path := "@sdesc", buf := "@sdesc")
  {
    Spelling();
    Spelling2();
    var x1 := Initial.(text := "ssdesc", path := "@", buf := "@");
    SdescPart1(Current, t);
    PlainInv(t, x1);
    var x2 := x1.(text := "ssdesc@");
    AtAgainRetried(Current, t, x1);
    PlainInv(t, x2);
    Chain(Current, t, Initial, "ssdesc@", x1, "@", x2, "ssdesc@@");
    assert x2.path + "sdesc" == "@sdesc";
    FollowSdesc(Current, t, x2, "sdesc");
    Chain(Current, t, Initial, "ssdesc@@", x2, "sdesc", x2.(path := "@sdesc", buf := "@sdesc"), "ssdesc@@sdesc");
  }

  /** The tokens emitted by "ssdesc@@sdescf" in the current generation. */
  const CurrentEmitted: seq<Token> := [Token(TEXT, "ssdesc@"), Token(SDESC, [])]

  lemma EmittedAtF()
    ensures Tokenized(Initial.(text := "ssdesc@", path := "@sdesc", buf := "@sdesc")).tokens + [Token(SDESC, [])] == CurrentEmitted
  {
  }

  /** "ssdesc@@sdescf@sdes" in the current generation: SDESC is emitted at 'f', and the trie is at "@sdes". */
  lemma CurrentSdescPart3(t: Table)
    requires SdescTable(t)
    ensures Run(Current, t, Initial, "ssdesc@@sdescf@sdes") ==
      Initial.(text := "f", path := "@sdes", buf := "@sdes", tokens := CurrentEmitted)
  {
    Spelling();
    Spelling2();
    var x3 := Initial.(text := "ssdesc@", path := "@sdesc", buf := "@sdesc");
    CurrentSdescPart2(t);
    PlainInv(t, x3);
    var x4 := Initial.(text := "f", tokens := CurrentEmitted);
    SdescAccepted(Current, t, x3, 'f');
    EmittedAtF();
    PlainInv(t, x4);
    Chain(Current, t, Initial, "ssdesc@@sdesc", x3, "f", x4, "ssdesc@@sdescf");
    assert x4.path + "@sdes" == "@sdes";
    FollowSdesc(Current, t, x4, "@sdes");
    Chain(Current, t, Initial, "ssdesc@@sdescf", x4, "@sdes", x4.(path := "@sdes", buf := "@sdes"), "ssdesc@@sdescf@sdes");
  }

  /** The whole input in the current generation, before `flush()`. */
  lemma CurrentSdescPart4(t: Table)
    requires SdescTable(t)
    ensures Run(Current, t, Initial, "ssdesc@@sdescf@sdesscf") == Initial.(text := "f@sdesscf", tokens := CurrentEmitted)
  {
    Spelling();
    Spelling2();
    var x5 := Initial.(text := "f", path := "@sdes", buf := "@sdes", tokens := CurrentEmitted);
    CurrentSdescPart3(t);
    PlainInv(t, x5);
    var x6 := Initial.(text := "f@sdess", tokens := CurrentEmitted);
    SdesDeadEnd(Current, t, x5);
    PlainInv(t, x6);
    Chain(Current, t, Initial, "ssdesc@@sdescf@sdes", x5, "s", x6, "ssdesc@@sdescf@sdess");
    Letters(Current, t, x6, "cf");
    Chain(Current, t, Initial, "ssdesc@@sdescf@sdess", x6, "cf", x6.(text := "f@sdesscf"), "ssdesc@@sdescf@sdesscf");
  }

  /**
   * The current lexer finds the SDESC of "ssdesc@@sdescf@sdesscf": the
   * text before it, the symbol, and the text after it, as the test
   * expects.
   */
  lemma CurrentSdescRun(t: Table)
    requires SdescTable(t)
    ensures Flushed(Current, t, Run(Current, t, Initial, "ssdesc@@sdescf@sdesscf")).tokens ==
      [Token(TEXT, "ssdesc@"), Token(SDESC, []), Token(TEXT, "f@sdesscf")]
  {
    CurrentSdescPart4(t);
    CurrentSdescFlush(t);
  }

  lemma CurrentSdescFlush(t: Table)
    requires SdescTable(t)
    ensures Inv(t, Initial.(text := "f@sdesscf", tokens := CurrentEmitted))
    ensures Flushed(Current, t, Initial.(text := "f@sdesscf", tokens := CurrentEmitted)).tokens ==
      [Token(TEXT, "ssdesc@"), Token(SDESC, []), Token(TEXT, "f@sdesscf")]
  {
    var x := Initial.(text := "f@sdesscf", tokens := CurrentEmitted);
    PlainInv(t, x);
    assert !Accepting(t, x.path);
    FlushText(Current, t, x);
    assert x.text + x.buf == "f@sdesscf";
  }

  /** The runtime lexer up to "ssdesc@@sdescf@sdes": both '@' are text, and the trie is at "@sdes". */
  lemma RuntimeSdescPart2(t: Table)
    requires SdescTable(t)
    ensures Run(Runtime, t, Initial, "ssdesc@@sdescf@sdes") == Initial.(text := "ssdesc@@sdescf", path := "@sdes", buf := "@sdes")
  {
    Spelling();
    Spelling2();
    var x1 := Initial.(text := "ssdesc", path := "@", buf := "@");
    SdescPart1(Runtime, t);
    PlainInv(t, x1);
    var x2 := Initial.(text := "ssdesc@@");
    AtAgainSpilled(t, x1);
    PlainInv(t, x2);
    Chain(Runtime, t, Initial, "ssdesc@", x1, "@", x2, "ssdesc@@");
    var x3 := Initial.(text := "ssdesc@@sdescf");
    Letters(Runtime, t, x2, "sdescf");
    PlainInv(t, x3);
    Chain(Runtime, t, Initial, "ssdesc@@", x2, "sdescf", x3, "ssdesc@@sdescf");
    assert x3.path + "@sdes" == "@sdes";
    FollowSdesc(Runtime, t, x3, "@sdes");
    Chain(Runtime, t, Initial, "ssdesc@@sdescf", x3, "@sdes", x3.(path := "@sdes", buf := "@sdes"), "ssdesc@@sdescf@sdes");
  }

  /** The whole input in the runtime generation, before `flush()`: everything is text. */
  lemma RuntimeSdescPart3(t: Table)
    requires SdescTable(t)
    ensures Run(Runtime, t, Initial, "ssdesc@@sdescf@sdesscf") == Initial.(text := "ssdesc@@sdescf@sdesscf")
  {
    Spelling();
    Spelling2();
    var x4 := Initial.(text := "ssdesc@@sdescf", path := "@sdes", buf := "@sdes");
    RuntimeSdescPart2(t);
    PlainInv(t, x4);
    var x5 := Initial.(text := "ssdesc@@sdescf@sdess");
    SdesDeadEnd(Runtime, t, x4);
    PlainInv(t, x5);
    Chain(Runtime, t, Initial, "ssdesc@@sdescf@sdes", x4, "s", x5, "ssdesc@@sdescf@sdess");
    Letters(Runtime, t, x5, "cf");
    Chain(Runtime, t, Initial, "ssdesc@@sdescf@sdess", x5, "cf", x5.(text := "ssdesc@@sdescf@sdesscf"), "ssdesc@@sdescf@sdesscf");
  }

  /**
   * The runtime lexer loses the SDESC of "ssdesc@@sdescf@sdesscf": after
   * the failed transition on the second '@' that character is not tried
   * again from the root, so "@sdesc" is never matched and the whole input
   * is one TEXT token.
   */
  lemma RuntimeSdescRun(t: Table)
    requires SdescTable(t)
    ensures Flushed(Runtime, t, Run(Runtime, t, Initial, "ssdesc@@sdescf@sdesscf")).tokens ==
      [Token(TEXT, "ssdesc@@sdescf@sdesscf")]
  {
    RuntimeSdescPart3(t);
    RuntimeSdescFlush(t);
  }

  lemma RuntimeSdescFlush(t: Table)
    requires SdescTable(t)
    ensures Inv(t, Initial.(text := "ssdesc@@sdescf@sdesscf"))
    ensures Flushed(Runtime, t, Initial.(text := "ssdesc@@sdescf@sdesscf")).tokens ==
      [Token(TEXT, "ssdesc@@sdescf@sdesscf")]
  {
    var x := Initial.(text := "ssdesc@@sdescf@sdesscf");
    PlainInv(t, x);
    assert !Accepting(t, x.path);
    FlushText(Runtime, t, x);
    assert x.text + x.buf == "ssdesc@@sdescf@sdesscf";
  }

  /** The test's input and expected tokens, for the installed table. */
  lemma CurrentLexesSdescTest()
    ensures Tokens(Current, "ssdesc@@sdescf@sdesscf") ==
      [Token(TEXT, "ssdesc@"), Token(SDESC, []), Token(TEXT, "f@sdesscf")]
  {
    CurrentIsSdescTable();
    CurrentSdescRun(CurrentTable);
  }

  /** The same input under the runtime lexer. */
  lemma RuntimeFailsSdescTest()
    ensures Tokens(Runtime, "ssdesc@@sdescf@sdesscf") == [Token(TEXT, "ssdesc@@sdescf@sdesscf")]
  {
    CurrentIsSdescTable();
    RuntimeSdescRun(CurrentTable);
  }
}
