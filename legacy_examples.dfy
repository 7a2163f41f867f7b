/**
 * Inputs worked through the first file lexer, as written and corrected: a
 * tag name with an underscore, an empty C comment, and a slash at the end
 * of the file. Each run is taken one routine at a time.
 */
module LegacyExamples {
  import opened Wrappers
  import opened CStrings
  import opened LegacyRoutines

  lemma Shifted(a: string, w: string)
    requires w != []
    ensures (a + [w[0]]) + w[1..] == a + w
  {
    assert w == [w[0]] + w[1..];
  }

  /** A run of plain characters joins the text, one character at a time. */
  lemma {:induction false} PlainRun(v: Variant, cfg: Cfg, w: string, r: string)
    requires forall k :: 0 <= k < |w| ==> Plain(w[k])
    ensures Looped(v, cfg.(rest := w + r)) == Looped(v, cfg.(text := cfg.text + w, rest := r))
    decreases |w|
  {
    if w == [] {
      assert w + r == r && cfg.text + w == cfg.text;
    } else {
      var s := cfg.(rest := w + r);
      assert s.rest[0] == w[0] && s.rest[1..] == w[1..] + r;
      assert Plain(w[0]);
      var next := cfg.(text := cfg.text + [w[0]], rest := w[1..] + r);
      LoopedStep(v, s);
      SteppedPlain(v, w[0], s.(rest := s.rest[1..]));
      assert forall k :: 0 <= k < |w[1..]| ==> w[1..][k] == w[k + 1];
      PlainRun(v, next.(rest := r), w[1..], r);
      Shifted(cfg.text, w);
    }
  }

  /** The loop meets a plain text and the end of the input. */
  lemma PlainToEnd(v: Variant, text: string, w: string)
    requires forall k :: 0 <= k < |w| ==> Plain(w[k])
    ensures Looped(v, Cfg(text, [], w)) == Cfg(text + w, [], [])
  {
    assert w + [] == w;
    PlainRun(v, Cfg(text, [], []), w, []);
  }

  /** A string all of whose characters pass is read whole. */
  lemma {:induction false} SpanAll(s: string, p: char -> bool)
    requires forall i :: 0 <= i < |s| ==> p(s[i])
    ensures Span(s, p) == |s|
  {
    if s != [] {
      assert forall i :: 0 <= i < |s[1..]| ==> s[1..][i] == s[i + 1];
      SpanAll(s[1..], p);
    }
  }

  /** A passing run followed by a failing character is read up to that character. */
  lemma SpanUpTo(a: string, b: string, p: char -> bool)
    requires forall i :: 0 <= i < |a| ==> p(a[i])
    requires b != [] && !p(b[0])
    ensures Span(a + b, p) == |a|
  {
    SpanAll(a, p);
    SpanPrefix(a, b, p);
  }

  lemma {:induction false} SpanPrefix(a: string, b: string, p: char -> bool)
    requires forall i :: 0 <= i < |a| ==> p(a[i])
    requires b != [] && !p(b[0])
    ensures Span(a + b, p) == |a|
  {
    if a == [] {
      assert a + b == b;
    } else {
      assert (a + b)[0] == a[0] && (a + b)[1..] == a[1..] + b;
      assert forall i :: 0 <= i < |a[1..]| ==> a[1..][i] == a[i + 1];
      SpanPrefix(a[1..], b, p);
    }
  }

  /** A text with no whitespace at either end is its own trim. */
  lemma TrimPlain(s: string)
    requires s != [] && !IsSpace(s[0]) && !IsSpace(s[|s| - 1])
    ensures Trim(s) == (s, 0)
  {
    assert Span(s, IsSpace) == 0;
    assert EndNotSpace(s) == |s|;
    assert s[0..|s|] == s;
  }

  /** Such a text becomes one TEXT token with no leading whitespace. */
  lemma TokenizedPlain(s: string, tokens: seq<Token>)
    requires Trimmed(s)
    ensures Tokenized(Cfg(s, tokens, [])) == Cfg([], tokens + [Token(TEXT, s, 0)], [])
  {
    TrimPlain(s);
  }

  /** The whole of `process` when the loop ends with a plain text and the given tokens. */
  lemma ProcessedFrom(v: Variant, input: string, text: string, tokens: seq<Token>)
    requires Looped(v, Cfg([], [], input)) == Cfg(text, tokens, [])
    requires Trimmed(text)
    ensures Processed(v, [], input) == tokens + [Token(TEXT, text, 0), SymbolToken(END_OF_FILE)]
  {
    TokenizedPlain(text, tokens);
  }

  /** The whole of `process` when the loop ends with no text pending. */
  lemma ProcessedTokens(v: Variant, input: string, tokens: seq<Token>)
    requires Looped(v, Cfg([], [], input)) == Cfg([], tokens, [])
    ensures Processed(v, [], input) == tokens + [SymbolToken(END_OF_FILE)]
  {
  }

  /** The loop at the end of the input. */
  lemma LoopedDone(v: Variant, cfg: Cfg)
    requires cfg.rest == []
    ensures Looped(v, cfg) == cfg
  {
  }

  /** The loop after a plain character. */
  lemma LoopedPlain(v: Variant, cfg: Cfg)
    requires cfg.rest != [] && Plain(cfg.rest[0])
    ensures Looped(v, cfg) == Looped(v, cfg.(text := cfg.text + [cfg.rest[0]], rest := cfg.rest[1..]))
  {
    LoopedStep(v, cfg);
    SteppedPlain(v, cfg.rest[0], cfg.(rest := cfg.rest[1..]));
  }

  /** The loop after a single-character token. */
  lemma LoopedChar(v: Variant, cfg: Cfg)
    requires cfg.rest != [] && CharSymbol(cfg.rest[0]).Some?
    ensures Looped(v, cfg) == Looped(v, Emit(Tokenized(cfg.(rest := cfg.rest[1..])), CharSymbol(cfg.rest[0]).value))
  {
    LoopedStep(v, cfg);
    SteppedChar(v, cfg.rest[0], cfg.(rest := cfg.rest[1..]));
  }

  /** A tag name that is not a tag stays text, after an '@'. */
  lemma TagNotInSet(v: Variant, cfg: Cfg, n: nat)
    requires n == Span(cfg.rest, TagCharOf(v)) && cfg.rest[..n] !in TagSet
    ensures TagNameTokenized(v, cfg) == cfg.(text := cfg.text + "@" + cfg.rest[..n], rest := cfg.rest[n..])
  {
  }

  /** A tag name that is a tag is emitted after the pending text. */
  lemma TagInSet(v: Variant, cfg: Cfg, n: nat)
    requires n == Span(cfg.rest, TagCharOf(v)) && cfg.rest[..n] in TagSet
    ensures TagNameTokenized(v, cfg) ==
      Cfg([], Tokenized(cfg).tokens + [Token(TAGNAME, cfg.rest[..n], 0)], cfg.rest[n..])
  {
  }

  // ---------------------------------------------------------------------
  // "@end_section"
  // ---------------------------------------------------------------------

  lemma EndSectionSplit()
    ensures "end_section" == "end" + "_section"
  {
    assert "end_section"[..3] == "end";
  }

  /** As written, the tag name stops at '_'. */
  lemma EndSectionSpanAsWritten()
    ensures Span("end_section", TagCharOf(AsWritten)) == 3
  {
    EndSectionSplit();
    var p := TagCharOf(AsWritten);
    assert p('e') && p('n') && p('d') && !p('_');
    SpanUpTo("end", "_section", p);
  }

  lemma EndNotATag()
    ensures "end_section"[..3] !in TagSet
  {
    assert "end_section"[..3] == "end";
  }

  lemma EndSectionAfterEnd()
    ensures Cfg([], [], "end_section").(text := [] + "@" + "end_section"[..3], rest := "end_section"[3..]) ==
      Cfg("@end", [], "_section")
  {
    assert "end_section"[..3] == "end" && "end_section"[3..] == "_section";
  }

  /** As written, "end" is not a tag, so "@end" stays text. */
  lemma EndSectionTagAsWritten()
    ensures TagNameTokenized(AsWritten, Cfg([], [], "end_section")) == Cfg("@end", [], "_section")
  {
    EndSectionSpanAsWritten();
    EndNotATag();
    TagNotInSet(AsWritten, Cfg([], [], "end_section"), 3);
    EndSectionAfterEnd();
  }

  /** The loop reads '@' and the tag name. */
  lemma EndSectionFirst(v: Variant)
    ensures Looped(v, Cfg([], [], "@end_section")) == Looped(v, TagNameTokenized(v, Cfg([], [], "end_section")))
  {
    var a := Cfg([], [], "@end_section");
    assert a.rest[0] == '@' && a.rest[1..] == "end_section";
    LoopedStep(v, a);
    SteppedTag(v, a.(rest := a.rest[1..]));
  }

  lemma SectionPlain()
    ensures forall k :: 0 <= k < |"_section"| ==> Plain("_section"[k])
  {
  }

  /** The rest, "_section", joins the text. */
  lemma EndSectionRestAsWritten()
    ensures Looped(AsWritten, Cfg("@end", [], "_section")) == Cfg("@end_section", [], [])
  {
    SectionPlain();
    PlainToEnd(AsWritten, "@end", "_section");
    assert "@end" + "_section" == "@end_section";
  }

  lemma EndSectionTrimmed()
    ensures Trimmed("@end_section")
  {
  }

  /** As written, "@end_section" stops the tag name at '_' and stays text. */
  lemma EndSectionAsWritten()
    ensures Processed(AsWritten, [], "@end_section") ==
      [Token(TEXT, "@end_section", 0), SymbolToken(END_OF_FILE)]
  {
    EndSectionFirst(AsWritten);
    EndSectionTagAsWritten();
    EndSectionRestAsWritten();
    EndSectionTrimmed();
    ProcessedFrom(AsWritten, "@end_section", "@end_section", []);
  }

  lemma EndSectionSpanCorrected()
    ensures Span("end_section", TagCharOf(Corrected)) == 11
  {
    var w := "end_section";
    var p := TagCharOf(Corrected);
    assert forall i :: 0 <= i < |w| ==> p(w[i]);
    SpanAll(w, p);
  }

  lemma EndSectionWhole()
    ensures "end_section"[..11] == "end_section" && "end_section"[11..] == []
  {
  }

  lemma EndSectionATag()
    ensures "end_section" in TagSet
  {
  }

  /** Once '_' is a tag character, the tag name is read whole. */
  lemma EndSectionTagCorrected()
    ensures TagNameTokenized(Corrected, Cfg([], [], "end_section")) ==
      Cfg([], [Token(TAGNAME, "end_section", 0)], [])
  {
    EndSectionSpanCorrected();
    EndSectionWhole();
    EndSectionATag();
    EndSectionTagRead();
    TokenizedNoText(Cfg([], [], "end_section"));
  }

  lemma EndSectionTagRead()
    ensures TagNameTokenized(Corrected, Cfg([], [], "end_section")) ==
      Cfg([], Tokenized(Cfg([], [], "end_section")).tokens + [Token(TAGNAME, "end_section", 0)], [])
  {
    EndSectionSpanCorrected();
    EndSectionWhole();
    EndSectionATag();
    TagInSet(Corrected, Cfg([], [], "end_section"), 11);
  }

  /** With no pending text, `tokenize_text` changes nothing. */
  lemma TokenizedNoText(c: Cfg)
    requires c.text == []
    ensures Tokenized(c) == c
  {
    var r := Tokenized(c);
    assert r.tokens == r.tokens[..|c.tokens|];
  }

  lemma EndSectionLoopCorrected()
    ensures Looped(Corrected, Cfg([], [], "@end_section")) == Cfg([], [Token(TAGNAME, "end_section", 0)], [])
  {
    EndSectionFirst(Corrected);
    EndSectionTagCorrected();
    LoopedDone(Corrected, Cfg([], [Token(TAGNAME, "end_section", 0)], []));
  }

  /** Once '_' is a tag character, "@end_section" is the TAGNAME it is meant to be. */
  lemma EndSectionCorrected()
    ensures Processed(Corrected, [], "@end_section") ==
      [Token(TAGNAME, "end_section", 0), SymbolToken(END_OF_FILE)]
  {
    EndSectionLoopCorrected();
    ProcessedTokens(Corrected, "@end_section", [Token(TAGNAME, "end_section", 0)]);
  }

  // ---------------------------------------------------------------------
  // An empty C comment
  // ---------------------------------------------------------------------

  lemma EmptyCommentCloses()
    ensures CloseAt("*/x;") == 0 && Closed("*/x;") == "x;"
  {
    assert "*/x;"[2..] == "x;";
  }

  lemma EmptyCommentMissed()
    ensures CloseAt("/x;") == 3 && Closed("/x;") == []
  {
    assert CloseAt(";") == 1;
    assert CloseAt("x;") == 2;
  }

  /** As written, the star after the opening is dropped and nothing closes the comment. */
  lemma EmptyCommentBlockAsWritten()
    ensures BlockCommentProcessed(AsWritten, Cfg([], [], "*/x;")) == Cfg([], [], [])
  {
    var inner := Cfg([], [], "*/x;");
    assert inner.rest[0] == '*' && inner.rest[1..] == "/x;";
    EmptyCommentMissed();
  }

  /** Pushed back, the star closes the comment at once. */
  lemma EmptyCommentBlockCorrected()
    ensures BlockCommentProcessed(Corrected, Cfg([], [], "*/x;")) == Cfg([], [], "x;")
  {
    var inner := Cfg([], [], "*/x;");
    assert inner.rest[0] == '*';
    EmptyCommentCloses();
  }

  /** The loop reads "/" "*" and the comment. */
  lemma EmptyCommentFirst(v: Variant)
    ensures Looped(v, Cfg([], [], "/**/x;")) == Looped(v, BlockCommentProcessed(v, Cfg([], [], "*/x;")))
  {
    var a := Cfg([], [], "/**/x;");
    assert a.rest[0] == '/' && a.rest[1..] == "**/x;";
    LoopedStep(v, a);
    var b := a.(rest := a.rest[1..]);
    SteppedString(v, '/', b);
    assert b.rest[0] == '*' && b.rest[1..] == "*/x;";
  }

  /** As written, the empty comment before "x;" is not seen to close and the rest of the file is skipped. */
  lemma EmptyCommentAsWritten()
    ensures Processed(AsWritten, [], "/**/x;") == [SymbolToken(END_OF_FILE)]
  {
    EmptyCommentFirst(AsWritten);
    EmptyCommentBlockAsWritten();
    LoopedDone(AsWritten, Cfg([], [], []));
    ProcessedTokens(AsWritten, "/**/x;", []);
  }

  lemma XPlain()
    ensures "x;"[0] == 'x' && Plain("x;"[0]) && "x;"[1..] == ";" && [] + ['x'] == "x"
  {
  }

  lemma SemicolonEnds()
    ensures Looped(Corrected, Cfg("x", [], ";")) == Cfg([], [Token(TEXT, "x", 0), SymbolToken(SEMICOLON)], [])
  {
    SemicolonFacts();
    LoopedChar(Corrected, Cfg("x", [], ";"));
    XTrimmed();
    TokenizedPlain("x", []);
  }

  lemma SemicolonFacts()
    ensures ";"[0] == ';' && ";"[1..] == [] && CharSymbol(';') == Some(SEMICOLON)
  {
  }

  lemma XTrimmed()
    ensures Trimmed("x")
  {
  }

  /** After the comment, "x" joins the text and ';' ends it. */
  lemma EmptyCommentRestCorrected()
    ensures Looped(Corrected, Cfg([], [], "x;")) ==
      Cfg([], [Token(TEXT, "x", 0), SymbolToken(SEMICOLON)], [])
  {
    XPlain();
    LoopedPlain(Corrected, Cfg([], [], "x;"));
    SemicolonEnds();
  }

  /** Pushed back, the star closes the comment and "x;" is lexed. */
  lemma EmptyCommentCorrected()
    ensures Processed(Corrected, [], "/**/x;") ==
      [Token(TEXT, "x", 0), SymbolToken(SEMICOLON), SymbolToken(END_OF_FILE)]
  {
    EmptyCommentFirst(Corrected);
    EmptyCommentBlockCorrected();
    EmptyCommentRestCorrected();
    ProcessedTokens(Corrected, "/**/x;", [Token(TEXT, "x", 0), SymbolToken(SEMICOLON)]);
  }

  // ---------------------------------------------------------------------
  // A slash at the end of the file
  // ---------------------------------------------------------------------

  /** The loop reads "a" and then the final '/'. */
  lemma SlashAtEnd(v: Variant)
    ensures Looped(v, Cfg([], [], "a/")) == Cfg(SlashText(v, None), [], []).(text := "a" + SlashText(v, None))
  {
    var b := Cfg([], [], "a/");
    assert b.rest[0] == 'a' && b.rest[1..] == "/";
    LoopedStep(v, b);
    SteppedPlain(v, 'a', b.(rest := "/"));
    var c := Cfg("a", [], "/");
    assert [] + ['a'] == "a";
    assert c.rest[0] == '/' && c.rest[1..] == [];
    LoopedStep(v, c);
    SteppedString(v, '/', c.(rest := []));
  }

  /** As written, "a/" ends its text with the byte `EOF` becomes. */
  lemma SlashAtEndAsWritten()
    ensures Processed(AsWritten, [], "a/") == [Token(TEXT, ['a', '/', EofByte], 0), SymbolToken(END_OF_FILE)]
  {
    SlashAtEnd(AsWritten);
    assert "a" + SlashText(AsWritten, None) == ['a', '/', EofByte];
    assert Trimmed(['a', '/', EofByte]);
    ProcessedFrom(AsWritten, "a/", ['a', '/', EofByte], []);
  }

  /** Corrected, "a/" is the text "a/". */
  lemma SlashAtEndCorrected()
    ensures Processed(Corrected, [], "a/") == [Token(TEXT, "a/", 0), SymbolToken(END_OF_FILE)]
  {
    SlashAtEnd(Corrected);
    assert "a" + SlashText(Corrected, None) == "a/";
    assert Trimmed("a/");
    ProcessedFrom(Corrected, "a/", "a/", []);
  }
}
