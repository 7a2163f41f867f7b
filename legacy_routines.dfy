/**
 * The first file lexer: the free routines of
 * src/core/lex/legacy/lexer_routines.hpp and lexer_routines.cpp. They work
 * on three things passed by reference: a file reader with one character of
 * push-back, the pending text, and the vector of tokens.
 *
 * The reader is a `Reader` object whose contents are seen as `Rest()`, the
 * characters still to be read; the text and the tokens are the fields of a
 * `Session`. Every routine is a method of `Session` proved to leave it in
 * the state that the matching function on `Cfg` values describes, and the
 * properties the routines promise are proved about those functions.
 *
 * `Variant` selects the code as written or with three corrections (see
 * `TagChar`, `BlockCommentProcessed` and `SlashText`).
 */
module LegacyRoutines {
  import opened Wrappers
  import opened CStrings

  /** The symbols the routines emit. */
  datatype Symbol =
    | END_OF_FILE | NEWLINE | SEMICOLON | OPEN_BRACE | CLOSE_BRACE
    | BEGIN_LINE_COMMENT | BEGIN_BLOCK_COMMENT | END_BLOCK_COMMENT | STAR
    | TAGNAME | TEXT

  /** `Token<Symbol>`: name, content and the count of leading whitespace trimmed off. */
  datatype Token = Token(name: Symbol, content: string, leadingWs: nat)

  /** `Token(name)`: empty content, no leading whitespace. */
  function SymbolToken(x: Symbol): Token { Token(x, [], 0) }

  /** The tag names of src/core/tag_set.hpp. */
  const TagSet: set<string> :=
    {"sdesc", "param", "tparam", "return", "section", "end_section", "example", "end_example"}

  /** What `text.push_back(c)` stores when `c` is `EOF` (-1): the byte 0xFF. */
  const EofByte: char := '\U{00FF}'

  datatype Variant = AsWritten | Corrected

  /** The pending text, the tokens so far, and the characters the reader has still to deliver. */
  datatype Cfg = Cfg(text: string, tokens: seq<Token>, rest: string)

  // ---------------------------------------------------------------------
  // The reader
  // ---------------------------------------------------------------------

  /** `reader.read()` on what is left to read: a character, or none at the end. */
  function Next(rest: string): (r: (Option<char>, string))
    ensures r.0.None? <==> rest == []
    ensures r.0.Some? ==> |r.1| == |rest| - 1
    ensures Unread(r.0, r.1) == rest
  {
    if rest == [] then (None, []) else (Some(rest[0]), rest[1..])
  }

  /** `reader.back(c)`: `ungetc`, which does nothing for `EOF`. */
  function Unread(c: Option<char>, rest: string): string
  {
    if c.Some? then [c.value] + rest else rest
  }

  /** `FILE*` with the one character of push-back `ungetc` guarantees. */
  class Reader {
    const input: string
    var pos: nat
    var pushed: Option<char>

    function Rest(): string
      reads this
    {
      (if pushed.Some? then [pushed.value] else []) + (if pos <= |input| then input[pos..] else [])
    }

    constructor (s: string)
      ensures Rest() == s && pushed.None?
    {
      input := s;
      pos := 0;
      pushed := None;
    }

    /** `read()`: `fgetc`. */
    method Read() returns (c: Option<char>)
      modifies this
      ensures (c, Rest()) == Next(old(Rest())) && pushed.None?
    {
      if pushed.Some? {
        c := pushed;
        pushed := None;
        assert Rest() == old(Rest())[1..];
      } else if pos < |input| {
        c := Some(input[pos]);
        pos := pos + 1;
        assert Rest() == old(Rest())[1..];
      } else {
        c := None;
      }
    }

    /** `back(c)`: `ungetc`, allowed once after a read. */
    method Back(c: Option<char>)
      requires pushed.None?
      modifies this
      ensures Rest() == Unread(c, old(Rest()))
    {
      if c.Some? {
        pushed := c;
      }
    }

    /** `peek()`: read and push back. */
    method Peek() returns (c: Option<char>)
      modifies this
      ensures c == Next(old(Rest())).0 && Rest() == old(Rest())
    {
      c := Read();
      Back(c);
    }
  }

  // ---------------------------------------------------------------------
  // Reading runs of characters
  // ---------------------------------------------------------------------

  /** The length of the longest prefix of `s` whose characters all satisfy `p`. */
  function Span(s: string, p: char -> bool): (n: nat)
    ensures n <= |s|
    ensures forall i :: 0 <= i < n ==> p(s[i])
    ensures n < |s| ==> !p(s[n])
  {
    if s == [] || !p(s[0]) then 0 else 1 + Span(s[1..], p)
  }

  /** The character at `n`, or none past the end. */
  function At(s: string, n: nat): Option<char>
  {
    if n < |s| then Some(s[n]) else None
  }

  /** What is left after reading the character at `n` (or reaching the end). */
  function Past(s: string, n: nat): string
    requires n <= |s|
  {
    if n < |s| then s[n + 1..] else []
  }

  /** Reading at `k` gives the character there and what follows it. */
  lemma NextAt(s: string, k: nat)
    requires k <= |s|
    ensures Next(s[k..]) == (At(s, k), Past(s, k))
  {
    if k < |s| {
      assert s[k..][0] == s[k] && s[k..][1..] == s[k + 1..];
    }
  }

  /** A scan that has passed `k` characters of the run and meets a failing one, or the end, has read the whole run. */
  lemma SpanStops(s: string, p: char -> bool, k: nat)
    requires k <= Span(s, p) && (k == |s| || !p(s[k]))
    ensures Span(s, p) == k
  {
  }

  /** A scan inside the run that meets a passing character is still inside it. */
  lemma SpanGoes(s: string, p: char -> bool, k: nat)
    requires k <= Span(s, p) && k < |s| && p(s[k])
    ensures k + 1 <= Span(s, p)
  {
  }

  /** Pushing back the character that stopped a scan leaves it to be read again. */
  lemma UnreadStop(s: string, n: nat)
    requires n <= |s|
    ensures Unread(At(s, n), Past(s, n)) == s[n..]
  {
    if n < |s| {
      assert s[n..] == [s[n]] + s[n + 1..];
    }
  }

  /** One more character of a run read into `line`. */
  lemma RunSnoc(line: string, s: string, k: nat)
    requires k < |s|
    ensures (line + s[..k]) + [s[k]] == line + s[..k + 1]
  {
    assert s[..k + 1] == s[..k] + [s[k]];
  }

  /** A scan for the closing star and slash, not yet past it, that meets it stops there. */
  lemma CloseStops(s: string, k: nat)
    requires k <= CloseAt(s) && k + 1 < |s| && s[k] == '*' && s[k + 1] == '/'
    ensures CloseAt(s) == k
  {
  }

  /** A scan for the closing star and slash that does not meet it at `k` goes on. */
  lemma CloseGoes(s: string, k: nat)
    requires k <= CloseAt(s) && k < |s| && !(s[k] == '*' && k + 1 < |s| && s[k + 1] == '/')
    ensures k + 1 <= CloseAt(s)
  {
  }

  /** What is left after `ignore_until(reader, p)`: everything through the first character failing `p`. */
  function Ignored(s: string, p: char -> bool): (r: string)
    ensures |r| <= |s|
    ensures var n := Span(s, p); n < |s| ==> !p(s[n]) && r == s[n + 1..]
    ensures Span(s, p) == |s| ==> r == []
  {
    Past(s, Span(s, p))
  }

  predicate NotNewline(c: char) { c != '\n' }

  /**
   * Where the first "*" followed by "/" starts; `|s|` when there is none.
   * This is where `ignore_until` with `is_not_end_block`, which peeks after
   * every '*', stops.
   */
  function CloseAt(s: string): (n: nat)
    ensures n <= |s|
    ensures n < |s| ==> n + 1 < |s| && s[n] == '*' && s[n + 1] == '/'
    ensures forall i :: 0 <= i < n && i + 1 < |s| ==> !(s[i] == '*' && s[i + 1] == '/')
  {
    if |s| < 2 then |s|
    else if s[0] == '*' && s[1] == '/' then 0
    else
      var n := CloseAt(s[1..]);
      assert forall i :: 1 <= i < 1 + n && i + 1 < |s| ==> s[i] == s[1..][i - 1] && s[i + 1] == s[1..][i];
      1 + n
  }

  /** What is left after `ignore_until(reader, is_not_end_block)` and the `read()` of the '/': everything through the first "*" "/". */
  function Closed(s: string): (r: string)
    ensures |r| <= |s|
    ensures CloseAt(s) < |s| ==> r == s[CloseAt(s) + 2..]
    ensures CloseAt(s) == |s| ==> r == []
  {
    Next(Past(s, CloseAt(s))).1
  }

  // ---------------------------------------------------------------------
  // trim and tokenize_text
  // ---------------------------------------------------------------------

  /** `find_last_not_of(whitespaces) + 1`, and 0 for `npos`. */
  function EndNotSpace(s: string): (e: nat)
    ensures e <= |s|
    ensures forall i :: e <= i < |s| ==> IsSpace(s[i])
    ensures e > 0 ==> !IsSpace(s[e - 1])
  {
    if s == [] || !IsSpace(s[|s| - 1]) then |s| else EndNotSpace(s[..|s| - 1])
  }

  /**
   * `trim(line)`: the line without leading and trailing " \t\n\v\f\r", and
   * the count of leading whitespace; an all-whitespace line becomes empty
   * and its length is returned.
   */
  function Trim(line: string): (r: (string, nat))
    ensures r.1 + |r.0| <= |line| && r.0 == line[r.1..r.1 + |r.0|]
    ensures forall i :: 0 <= i < r.1 ==> IsSpace(line[i])
    ensures forall i :: r.1 + |r.0| <= i < |line| ==> IsSpace(line[i])
    ensures r.0 != [] ==> !IsSpace(r.0[0]) && !IsSpace(r.0[|r.0| - 1])
    ensures r.0 == [] ==> r.1 == |line|
  {
    var begin := Span(line, IsSpace);
    var end := EndNotSpace(line);
    if begin == |line| && end == 0 then
      ([], |line|)
    else
      assert end > 0 ==> !IsSpace(line[end - 1]) && begin <= end - 1;
      assert begin < |line| ==> !IsSpace(line[begin]) && begin < end;
      (line[begin..end], begin)
  }

  /** Text that can be a TEXT token: non-empty, and no whitespace at either end. */
  predicate Trimmed(s: string)
  {
    s != [] && !IsSpace(s[0]) && !IsSpace(s[|s| - 1])
  }

  /** Trimming is idempotent: a trimmed line loses nothing more. */
  lemma TrimTwice(line: string)
    requires Trim(line).0 != []
    ensures Trim(Trim(line).0) == (Trim(line).0, 0)
  {
    var t := Trim(line).0;
    assert Span(t, IsSpace) == 0;
    assert EndNotSpace(t) == |t|;
    assert t[0..|t|] == t;
  }

  /** `tokenize_text(text, status)`: a TEXT token of the trimmed text if it is non-empty; the text is cleared. */
  function Tokenized(c: Cfg): (r: Cfg)
    ensures r.text == [] && r.rest == c.rest
    ensures |c.tokens| <= |r.tokens| <= |c.tokens| + 1 && r.tokens[..|c.tokens|] == c.tokens
    ensures |r.tokens| == |c.tokens| + 1 <==> exists i :: 0 <= i < |c.text| && !IsSpace(c.text[i])
    ensures |r.tokens| == |c.tokens| + 1 ==>
      var t := r.tokens[|c.tokens|];
      t.name == TEXT && Trimmed(t.content) && t.leadingWs + |t.content| <= |c.text| &&
      c.text[t.leadingWs..t.leadingWs + |t.content|] == t.content
  {
    var (t, n) := Trim(c.text);
    var toks := if t != [] then c.tokens + [Token(TEXT, t, n)] else c.tokens;
    assert t == [] ==> forall i :: 0 <= i < |c.text| ==> IsSpace(c.text[i]);
    assert t != [] ==> !IsSpace(c.text[n]);
    c.(text := [], tokens := toks)
  }

  /** A symbol token appended after whatever is there. */
  function Emit(c: Cfg, x: Symbol): Cfg
  {
    c.(tokens := c.tokens + [SymbolToken(x)])
  }

  // ---------------------------------------------------------------------
  // The routines, as functions of the configuration
  // ---------------------------------------------------------------------

  /** The single-character tokens of `process_char`. */
  function CharSymbol(c: char): Option<Symbol>
  {
    if c == '\n' then Some(NEWLINE)
    else if c == ';' then Some(SEMICOLON)
    else if c == '{' then Some(OPEN_BRACE)
    else if c == '}' then Some(CLOSE_BRACE)
    else None
  }

  /** `process_char(c, text, status)`. */
  function CharProcessed(c: char, cfg: Cfg): (r: (bool, Cfg))
    ensures r.0 <==> c in "\n;{}"
    ensures !r.0 ==> r.1 == cfg
    ensures r.0 ==> (r.1.text == [] && r.1.rest == cfg.rest &&
      r.1.tokens == Tokenized(cfg).tokens + [SymbolToken(CharSymbol(c).value)])
  {
    match CharSymbol(c)
    case Some(x) => (true, Emit(Tokenized(cfg), x))
    case None => (false, cfg)
  }

  /** The characters a tag name is read with: `isalpha`, and '_' too once corrected. */
  predicate TagChar(v: Variant, c: char)
  {
    IsAlpha(c) || (v == Corrected && c == '_')
  }

  function TagCharOf(v: Variant): char -> bool
  {
    c => TagChar(v, c)
  }

  /**
   * `tokenize_tag_name(text, reader, status)`, called after '@': read the
   * run of tag characters, push its terminator back, and emit the pending
   * text and a TAGNAME if the name is a tag, else keep "@" and the name as
   * text.
   */
  function TagNameTokenized(v: Variant, cfg: Cfg): (r: Cfg)
    ensures r.rest == cfg.rest[Span(cfg.rest, TagCharOf(v))..]
    ensures var name := cfg.rest[..Span(cfg.rest, TagCharOf(v))];
      name in TagSet ==> r.text == [] && r.tokens == Tokenized(cfg).tokens + [Token(TAGNAME, name, 0)]
    ensures var name := cfg.rest[..Span(cfg.rest, TagCharOf(v))];
      name !in TagSet ==> r.tokens == cfg.tokens && r.text == cfg.text + "@" + name
  {
    var n := Span(cfg.rest, TagCharOf(v));
    var name := cfg.rest[..n];
    if name in TagSet then
      var t := Tokenized(cfg.(rest := cfg.rest[n..]));
      t.(tokens := t.tokens + [Token(TAGNAME, name, 0)])
    else
      cfg.(text := cfg.text + "@" + name, rest := cfg.rest[n..])
  }

  /** `process_tag_name(c, ...)`: true exactly for '@'. */
  function TagNameProcessed(v: Variant, c: char, cfg: Cfg): (r: (bool, Cfg))
    ensures r.0 <==> c == '@'
    ensures !r.0 ==> r.1 == cfg
  {
    if c == '@' then (true, TagNameTokenized(v, cfg)) else (false, cfg)
  }

  /**
   * `process_line_comment`, called after "//": a third '/' followed by
   * whitespace starts a documentation line comment and the whitespace is
   * pushed back; anything else is skipped through the next newline.
   */
  function LineCommentProcessed(cfg: Cfg): (r: Cfg)
    ensures |r.rest| <= |cfg.rest|
    ensures |cfg.rest| >= 2 && cfg.rest[0] == '/' && IsSpace(cfg.rest[1]) ==>
      r == Emit(Tokenized(cfg.(rest := cfg.rest[1..])), BEGIN_LINE_COMMENT)
    ensures !(|cfg.rest| >= 2 && cfg.rest[0] == '/' && IsSpace(cfg.rest[1])) ==>
      r == cfg.(rest := Ignored(cfg.rest, NotNewline))
  {
    var (c, rest) := Next(cfg.rest);
    if c == Some('/') then
      var (c2, rest2) := Next(rest);
      if c2.Some? && IsSpace(c2.value) then
        Emit(Tokenized(cfg.(rest := Unread(c2, rest2))), BEGIN_LINE_COMMENT)
      else
        SlashSkipped(cfg.rest);
        cfg.(rest := Ignored(rest2, NotNewline))
    else
      cfg.(rest := Ignored(Unread(c, rest), NotNewline))
  }

  /** Skipping the rest of the line after "/" and a character that is not whitespace. */
  lemma SlashSkipped(s: string)
    requires s != [] && s[0] == '/' && (|s| == 1 || !IsSpace(s[1]))
    ensures Ignored(Next(s[1..]).1, NotNewline) == Ignored(s, NotNewline)
  {
    assert '\n' in Whitespace;
    if |s| > 1 {
      assert s[1..][1..] == s[2..];
      assert Span(s, NotNewline) == 1 + Span(s[1..], NotNewline);
      assert Span(s[1..], NotNewline) == 1 + Span(s[2..], NotNewline);
    }
  }

  /**
   * `process_block_comment`, called after a slash and a star: '!' followed
   * by whitespace starts a documentation block comment and the whitespace
   * is pushed back; anything else is skipped through the next star and
   * slash. As written, the character read after the opening (or after its
   * '!') is not pushed back, so a comment that closes at once, an empty
   * C comment, is not seen to close. The
   * corrected variant pushes it back.
   */
  function BlockCommentProcessed(v: Variant, cfg: Cfg): (r: Cfg)
    ensures |r.rest| <= |cfg.rest|
    ensures |cfg.rest| >= 2 && cfg.rest[0] == '!' && IsSpace(cfg.rest[1]) ==>
      r == Emit(Tokenized(cfg.(rest := cfg.rest[1..])), BEGIN_BLOCK_COMMENT)
    ensures !(|cfg.rest| >= 2 && cfg.rest[0] == '!' && IsSpace(cfg.rest[1])) ==>
      r.text == cfg.text && r.tokens == cfg.tokens
    ensures v == Corrected && !(|cfg.rest| >= 2 && cfg.rest[0] == '!' && IsSpace(cfg.rest[1])) ==>
      r.rest == Closed(cfg.rest)
    ensures v == AsWritten && |cfg.rest| >= 2 && cfg.rest[0] == '!' && !IsSpace(cfg.rest[1]) ==>
      r.rest == Closed(cfg.rest[2..])
    ensures v == AsWritten && cfg.rest != [] && cfg.rest[0] != '!' ==> r.rest == Closed(cfg.rest[1..])
  {
    var (c, rest) := Next(cfg.rest);
    if c == Some('!') then
      var (c2, rest2) := Next(rest);
      if c2.Some? && IsSpace(c2.value) then
        Emit(Tokenized(cfg.(rest := Unread(c2, rest2))), BEGIN_BLOCK_COMMENT)
      else
        if v == Corrected then
          ClosedSkipsPlain(cfg.rest);
          cfg.(rest := Closed(Unread(c2, rest2)))
        else
          cfg.(rest := Closed(rest2))
    else
      if v == Corrected then cfg.(rest := Closed(Unread(c, rest))) else cfg.(rest := Closed(rest))
  }

  /** A first character other than '*' cannot begin the closing "*" "/". */
  lemma ClosedSkipsPlain(s: string)
    requires s != [] && s[0] != '*'
    ensures Closed(s) == Closed(s[1..])
  {
    var n := CloseAt(s[1..]);
    if |s| >= 2 {
      assert CloseAt(s) == 1 + n;
      if n < |s[1..]| {
        assert s[1 + n + 2..] == s[1..][n + 2..];
      }
    }
  }

  /**
   * What '/' followed by an ordinary character adds to the text. As
   * written, `text.push_back(c)` also runs when `c` is `EOF`; the corrected
   * variant adds only the '/'.
   */
  function SlashText(v: Variant, c: Option<char>): string
  {
    if c.Some? then ['/', c.value] else if v == AsWritten then ['/', EofByte] else ['/']
  }

  /** `process_string(c, ...)`: '/' may begin a comment, '*' may end one; other characters are left alone. */
  function StringProcessed(v: Variant, c: char, cfg: Cfg): (r: (bool, Cfg))
    ensures |r.1.rest| <= |cfg.rest|
    ensures r.0 <==> c == '/' || c == '*'
    ensures !r.0 ==> r.1 == cfg
    ensures c == '/' && cfg.rest != [] && cfg.rest[0] == '/' ==>
      r.1 == LineCommentProcessed(cfg.(rest := cfg.rest[1..]))
    ensures c == '/' && cfg.rest != [] && cfg.rest[0] == '*' ==>
      r.1 == BlockCommentProcessed(v, cfg.(rest := cfg.rest[1..]))
    ensures c == '/' && cfg.rest != [] && cfg.rest[0] != '/' && cfg.rest[0] != '*' ==>
      r.1 == cfg.(text := cfg.text + ['/', cfg.rest[0]], rest := cfg.rest[1..])
    ensures c == '/' && cfg.rest == [] ==> r.1 == cfg.(text := cfg.text + SlashText(v, None))
    ensures c == '*' && cfg.rest != [] && cfg.rest[0] == '/' ==>
      r.1 == Emit(Tokenized(cfg.(rest := cfg.rest[1..])), END_BLOCK_COMMENT)
    ensures c == '*' && !(cfg.rest != [] && cfg.rest[0] == '/') ==> r.1 == Emit(Tokenized(cfg), STAR)
  {
    if c == '/' then
      var (c2, rest) := Next(cfg.rest);
      if c2 == Some('/') then (true, LineCommentProcessed(cfg.(rest := rest)))
      else if c2 == Some('*') then (true, BlockCommentProcessed(v, cfg.(rest := rest)))
      else (true, cfg.(text := cfg.text + SlashText(v, c2), rest := rest))
    else if c == '*' then
      var (c2, rest) := Next(cfg.rest);
      if c2 == Some('/') then (true, Emit(Tokenized(cfg.(rest := rest)), END_BLOCK_COMMENT))
      else (true, Emit(Tokenized(cfg.(rest := Unread(c2, rest))), STAR))
    else
      (false, cfg)
  }

  /** The body of the loop of `process` for one character `c` already read. */
  function Stepped(v: Variant, c: char, cfg: Cfg): (r: Cfg)
    ensures |r.rest| <= |cfg.rest|
  {
    var (b1, c1) := CharProcessed(c, cfg);
    if b1 then c1
    else
      var (b2, c2) := TagNameProcessed(v, c, cfg);
      if b2 then c2
      else
        var (b3, c3) := StringProcessed(v, c, cfg);
        if b3 then c3 else cfg.(text := cfg.text + [c])
  }

  /** Characters that none of the routines of `process` acts on. */
  predicate Plain(c: char)
  {
    c !in "\n;{}@/*"
  }

  /** A plain character joins the text. */
  lemma SteppedPlain(v: Variant, c: char, cfg: Cfg)
    requires Plain(c)
    ensures Stepped(v, c, cfg) == cfg.(text := cfg.text + [c])
  {
    assert CharSymbol(c) == None;
  }

  /** A single-character token ends the text and is emitted after it. */
  lemma SteppedChar(v: Variant, c: char, cfg: Cfg)
    requires CharSymbol(c).Some?
    ensures Stepped(v, c, cfg) == Emit(Tokenized(cfg), CharSymbol(c).value)
  {
  }

  /** '@' reads a tag name. */
  lemma SteppedTag(v: Variant, cfg: Cfg)
    ensures Stepped(v, '@', cfg) == TagNameTokenized(v, cfg)
  {
  }

  /** '/' and '*' go to `process_string`. */
  lemma SteppedString(v: Variant, c: char, cfg: Cfg)
    requires c == '/' || c == '*'
    ensures Stepped(v, c, cfg) == StringProcessed(v, c, cfg).1
  {
    assert CharSymbol(c) == None;
  }

  /** The loop of `process`: read until the end, one step per character. */
  function Looped(v: Variant, cfg: Cfg): (r: Cfg)
    ensures r.rest == []
    decreases |cfg.rest|
  {
    if cfg.rest == [] then cfg
    else Looped(v, Stepped(v, cfg.rest[0], cfg.(rest := cfg.rest[1..])))
  }

  /** One turn of the loop. */
  lemma LoopedStep(v: Variant, cfg: Cfg)
    requires cfg.rest != []
    ensures Looped(v, cfg) == Looped(v, Stepped(v, cfg.rest[0], cfg.(rest := cfg.rest[1..])))
  {
  }

  /** `process(reader, status)`: the tokens after the loop, the last text, and END_OF_FILE. */
  function Processed(v: Variant, tokens: seq<Token>, input: string): seq<Token>
  {
    Tokenized(Looped(v, Cfg([], tokens, input))).tokens + [SymbolToken(END_OF_FILE)]
  }

  // ---------------------------------------------------------------------
  // What `process` promises
  // ---------------------------------------------------------------------

  /**
   * A token as the routines make it: TEXT is trimmed and non-empty, a
   * TAGNAME is a tag of the tag set spelled with tag characters, every
   * other symbol carries nothing, and END_OF_FILE only comes at the end.
   */
  predicate GoodToken(v: Variant, t: Token)
  {
    && t.name != END_OF_FILE
    && (t.name == TEXT ==> Trimmed(t.content))
    && (t.name == TAGNAME ==> t.content in TagSet && forall i :: 0 <= i < |t.content| ==> TagChar(v, t.content[i]))
    && (t.name != TEXT && t.name != TAGNAME ==> t.content == [] && t.leadingWs == 0)
  }

  predicate GoodTokens(v: Variant, ts: seq<Token>)
  {
    forall i :: 0 <= i < |ts| ==> GoodToken(v, ts[i])
  }

  /** `b` is `a` followed by good tokens. */
  predicate GoodExtension(v: Variant, a: seq<Token>, b: seq<Token>)
  {
    |a| <= |b| && b[..|a|] == a && GoodTokens(v, b[|a|..])
  }

  lemma GoodExtensionTrans(v: Variant, a: seq<Token>, b: seq<Token>, c: seq<Token>)
    requires GoodExtension(v, a, b) && GoodExtension(v, b, c)
    ensures GoodExtension(v, a, c)
  {
    assert c[..|a|] == b[..|a|];
    forall i | |a| <= i < |c| ensures GoodToken(v, c[i]) {
      if i < |b| {
        assert c[i] == b[i] == b[|a|..][i - |a|];
      } else {
        assert c[i] == c[|b|..][i - |b|];
      }
    }
    assert forall i :: 0 <= i < |c[|a|..]| ==> c[|a|..][i] == c[i + |a|];
  }

  lemma TokenizedGood(v: Variant, c: Cfg)
    ensures GoodExtension(v, c.tokens, Tokenized(c).tokens)
  {
    var r := Tokenized(c);
    if |r.tokens| == |c.tokens| + 1 {
      assert r.tokens[|c.tokens|..] == [r.tokens[|c.tokens|]];
    } else {
      assert r.tokens[|c.tokens|..] == [];
    }
  }

  /** A symbol token after the text that was pending. */
  lemma EmitGood(v: Variant, c: Cfg, x: Symbol)
    requires x != TEXT && x != TAGNAME && x != END_OF_FILE
    ensures GoodExtension(v, c.tokens, Emit(Tokenized(c), x).tokens)
  {
    TokenizedGood(v, c);
    var t := Tokenized(c).tokens;
    assert GoodExtension(v, t, t + [SymbolToken(x)]) by {
      assert (t + [SymbolToken(x)])[|t|..] == [SymbolToken(x)];
    }
    GoodExtensionTrans(v, c.tokens, t, Emit(Tokenized(c), x).tokens);
  }

  lemma Unchanged(v: Variant, a: seq<Token>)
    ensures GoodExtension(v, a, a)
  {
    assert a[|a|..] == [];
  }

  lemma TagNameGood(v: Variant, cfg: Cfg)
    ensures GoodExtension(v, cfg.tokens, TagNameTokenized(v, cfg).tokens)
  {
    var n := Span(cfg.rest, TagCharOf(v));
    var name := cfg.rest[..n];
    if name in TagSet {
      var m := cfg.(rest := cfg.rest[n..]);
      TokenizedGood(v, m);
      var t := Tokenized(m).tokens;
      var tok := Token(TAGNAME, name, 0);
      assert forall i :: 0 <= i < |name| ==> TagCharOf(v)(name[i]);
      assert GoodToken(v, tok);
      assert GoodExtension(v, t, t + [tok]) by {
        assert (t + [tok])[|t|..] == [tok];
      }
      GoodExtensionTrans(v, cfg.tokens, t, t + [tok]);
    } else {
      Unchanged(v, cfg.tokens);
    }
  }

  lemma LineCommentGood(v: Variant, cfg: Cfg)
    ensures GoodExtension(v, cfg.tokens, LineCommentProcessed(cfg).tokens)
  {
    if |cfg.rest| >= 2 && cfg.rest[0] == '/' && IsSpace(cfg.rest[1]) {
      EmitGood(v, cfg.(rest := cfg.rest[1..]), BEGIN_LINE_COMMENT);
    } else {
      Unchanged(v, cfg.tokens);
    }
  }

  lemma BlockCommentGood(v: Variant, cfg: Cfg)
    ensures GoodExtension(v, cfg.tokens, BlockCommentProcessed(v, cfg).tokens)
  {
    if |cfg.rest| >= 2 && cfg.rest[0] == '!' && IsSpace(cfg.rest[1]) {
      EmitGood(v, cfg.(rest := cfg.rest[1..]), BEGIN_BLOCK_COMMENT);
    } else {
      Unchanged(v, cfg.tokens);
    }
  }

  lemma StringGood(v: Variant, c: char, cfg: Cfg)
    ensures GoodExtension(v, cfg.tokens, StringProcessed(v, c, cfg).1.tokens)
  {
    var (c2, rest) := Next(cfg.rest);
    if c == '/' {
      if c2 == Some('/') {
        LineCommentGood(v, cfg.(rest := rest));
      } else if c2 == Some('*') {
        BlockCommentGood(v, cfg.(rest := rest));
      } else {
        Unchanged(v, cfg.tokens);
      }
    } else if c == '*' {
      if c2 == Some('/') {
        EmitGood(v, cfg.(rest := rest), END_BLOCK_COMMENT);
      } else {
        EmitGood(v, cfg.(rest := Unread(c2, rest)), STAR);
      }
    } else {
      Unchanged(v, cfg.tokens);
    }
  }

  /** One pass of the loop of `process` only appends good tokens. */
  lemma SteppedGood(v: Variant, c: char, cfg: Cfg)
    ensures GoodExtension(v, cfg.tokens, Stepped(v, c, cfg).tokens)
  {
    match CharSymbol(c)
    case Some(x) =>
      EmitGood(v, cfg, x);
    case None =>
      if c == '@' {
        TagNameGood(v, cfg);
      } else if c == '/' || c == '*' {
        StringGood(v, c, cfg);
      } else {
        Unchanged(v, cfg.tokens);
      }
  }

  lemma {:induction false} LoopedGood(v: Variant, cfg: Cfg)
    ensures GoodExtension(v, cfg.tokens, Looped(v, cfg).tokens)
    decreases |cfg.rest|
  {
    if cfg.rest == [] {
      Unchanged(v, cfg.tokens);
    } else {
      var next := Stepped(v, cfg.rest[0], cfg.(rest := cfg.rest[1..]));
      SteppedGood(v, cfg.rest[0], cfg.(rest := cfg.rest[1..]));
      LoopedGood(v, next);
      GoodExtensionTrans(v, cfg.tokens, next.tokens, Looped(v, next).tokens);
    }
  }

  /**
   * `process` keeps the tokens it was given, appends only good tokens, and
   * ends with exactly one END_OF_FILE.
   */
  lemma ProcessedShape(v: Variant, tokens: seq<Token>, input: string)
    ensures var r := Processed(v, tokens, input);
      |tokens| < |r| && r[..|tokens|] == tokens && r[|r| - 1] == SymbolToken(END_OF_FILE) &&
      GoodTokens(v, r[|tokens|..|r| - 1])
  {
    var l := Looped(v, Cfg([], tokens, input));
    LoopedGood(v, Cfg([], tokens, input));
    TokenizedGood(v, l);
    GoodExtensionTrans(v, tokens, l.tokens, Tokenized(l).tokens);
    var t := Tokenized(l).tokens;
    var r := t + [SymbolToken(END_OF_FILE)];
    assert r[..|tokens|] == t[..|tokens|];
    assert r[|tokens|..|r| - 1] == t[|tokens|..];
  }

  /** In a fresh run, END_OF_FILE is the last token and no other. */
  lemma OneEndOfFile(v: Variant, input: string)
    ensures var r := Processed(v, [], input);
      r != [] && r[|r| - 1].name == END_OF_FILE && forall i :: 0 <= i < |r| - 1 ==> r[i].name != END_OF_FILE
  {
    var r := Processed(v, [], input);
    ProcessedShape(v, [], input);
    assert forall i :: 0 <= i < |r| - 1 ==> r[i] == r[0..|r| - 1][i];
  }

  /**
   * As written, a tag name is read with `isalpha`, so neither "end_section"
   * nor "end_example", both in the tag set, is ever emitted as a TAGNAME.
   */
  lemma UnderscoreTagsUnreachable(input: string)
    ensures var r := Processed(AsWritten, [], input);
      forall i :: 0 <= i < |r| && r[i].name == TAGNAME ==> r[i].content != "end_section" && r[i].content != "end_example"
  {
    var r := Processed(AsWritten, [], input);
    ProcessedShape(AsWritten, [], input);
    forall i | 0 <= i < |r| && r[i].name == TAGNAME
      ensures r[i].content != "end_section" && r[i].content != "end_example"
    {
      assert i < |r| - 1;
      assert r[i] == r[0..|r| - 1][i];
      AlphaTagName(r[i]);
    }
  }

  lemma AlphaTagName(t: Token)
    requires GoodToken(AsWritten, t) && t.name == TAGNAME
    ensures t.content != "end_section" && t.content != "end_example"
  {
    assert !TagChar(AsWritten, '_');
    if |t.content| > 3 {
      assert TagChar(AsWritten, t.content[3]);
    }
  }

  // ---------------------------------------------------------------------
  // The routines on the reader, the text and the tokens
  // ---------------------------------------------------------------------

  class Session {
    const variant: Variant
    const reader: Reader
    var text: string
    var tokens: seq<Token>

    function State(): Cfg
      reads this, reader
    {
      Cfg(text, tokens, reader.Rest())
    }

    /** A reader over `input`, an empty text and no tokens. */
    constructor (v: Variant, input: string)
      ensures State() == Cfg([], [], input) && variant == v && fresh(reader)
    {
      variant := v;
      reader := new Reader(input);
      text := [];
      tokens := [];
    }

    /** `ignore_until(reader, p)`: returns the character that stopped the scan. */
    method IgnoreUntil(p: char -> bool) returns (c: Option<char>)
      modifies reader
      ensures var s := old(reader.Rest()); var n := Span(s, p);
        c == At(s, n) && reader.Rest() == Ignored(s, p) && reader.pushed.None?
    {
      ghost var s := reader.Rest();
      ghost var k := 0;
      while true
        invariant k <= Span(s, p) && reader.Rest() == s[k..]
        decreases |reader.Rest()|
      {
        NextAt(s, k);
        c := reader.Read();
        if c.None? || !p(c.value) {
          SpanStops(s, p, k);
          break;
        }
        SpanGoes(s, p, k);
        k := k + 1;
      }
    }

    /** `read_until(reader, p, line)`: the characters that passed are appended to `line`. */
    method ReadUntil(p: char -> bool, line: string) returns (c: Option<char>, out: string)
      modifies reader
      ensures var s := old(reader.Rest()); var n := Span(s, p);
        c == At(s, n) && out == line + s[..n] && reader.Rest() == Past(s, n) && reader.pushed.None?
    {
      ghost var s := reader.Rest();
      ghost var k := 0;
      out := line;
      while true
        invariant k <= Span(s, p) && reader.Rest() == s[k..] && out == line + s[..k]
        decreases |reader.Rest()|
      {
        NextAt(s, k);
        c := reader.Read();
        if c.None? || !p(c.value) {
          SpanStops(s, p, k);
          break;
        }
        SpanGoes(s, p, k);
        RunSnoc(line, s, k);
        out := out + [c.value];
        k := k + 1;
      }
    }

    /** `ignore_until(reader, is_not_end_block)`: stops after the '*' of the first "*" "/", peeking after every '*'. */
    method IgnoreUntilClose() returns (c: Option<char>)
      modifies reader
      ensures var s := old(reader.Rest()); var n := CloseAt(s);
        c == At(s, n) && reader.Rest() == Past(s, n)
    {
      ghost var s := reader.Rest();
      ghost var k := 0;
      while true
        invariant k <= CloseAt(s) && reader.Rest() == s[k..]
        decreases |reader.Rest()|
      {
        NextAt(s, k);
        c := reader.Read();
        if c.None? {
          break;
        }
        if c.value == '*' {
          NextAt(s, k + 1);
          var after := reader.Peek();
          if after == Some('/') {
            CloseStops(s, k);
            break;
          }
        }
        CloseGoes(s, k);
        k := k + 1;
      }
    }

    /** `tokenize_text(text, status)`. */
    method TokenizeText()
      modifies this
      ensures State() == Tokenized(old(State()))
    {
      var trimmed := Trim(text);
      text := trimmed.0;
      if text != [] {
        tokens := tokens + [Token(TEXT, text, trimmed.1)];
      }
      text := [];
    }

    /** `process_char(c, text, status)`. */
    method ProcessChar(c: char) returns (processed: bool)
      modifies this
      ensures (processed, State()) == CharProcessed(c, old(State()))
    {
      match c
      case '\n' =>
        TokenizeText();
        tokens := tokens + [SymbolToken(NEWLINE)];
        return true;
      case ';' =>
        TokenizeText();
        tokens := tokens + [SymbolToken(SEMICOLON)];
        return true;
      case '{' =>
        TokenizeText();
        tokens := tokens + [SymbolToken(OPEN_BRACE)];
        return true;
      case '}' =>
        TokenizeText();
        tokens := tokens + [SymbolToken(CLOSE_BRACE)];
        return true;
      case _ =>
        return false;
    }

    /** `tokenize_tag_name(text, reader, status)`. */
    method TokenizeTagName()
      modifies this, reader
      ensures State() == TagNameTokenized(variant, old(State()))
    {
      ghost var cfg := State();
      ghost var s := reader.Rest();
      ghost var n := Span(s, TagCharOf(variant));
      var c, tagname := ReadUntil(TagCharOf(variant), []);
      UnreadStop(s, n);
      reader.Back(c);
      assert [] + s[..n] == s[..n];
      assert tagname == s[..n] && reader.Rest() == s[n..];
      ghost var mid := cfg.(rest := s[n..]);
      assert State() == mid;
      if tagname in TagSet {
        TokenizeText();
        tokens := tokens + [Token(TAGNAME, tagname, 0)];
        assert State() == Tokenized(mid).(tokens := Tokenized(mid).tokens + [Token(TAGNAME, tagname, 0)]);
      } else {
        text := text + "@" + tagname;
        assert State() == mid.(text := mid.text + "@" + tagname);
      }
    }

    /** `process_tag_name(c, text, reader, status)`. */
    method ProcessTagName(c: char) returns (processed: bool)
      modifies this, reader
      ensures (processed, State()) == TagNameProcessed(variant, c, old(State()))
    {
      if c == '@' {
        TokenizeTagName();
        return true;
      }
      return false;
    }

    /** `process_line_comment(text, reader, status)`. */
    method ProcessLineComment()
      modifies this, reader
      ensures State() == LineCommentProcessed(old(State()))
    {
      var c := reader.Read();
      if c == Some('/') {
        c := reader.Read();
        if c.Some? && IsSpace(c.value) {
          TokenizeText();
          tokens := tokens + [SymbolToken(BEGIN_LINE_COMMENT)];
          reader.Back(c);
        } else {
          var stop := IgnoreUntil(NotNewline);
        }
      } else {
        reader.Back(c);
        var stop := IgnoreUntil(NotNewline);
      }
    }

    /** The regular-comment branch of `process_block_comment`: skip, then read the '/'. */
    method SkipBlockComment()
      modifies reader
      ensures reader.Rest() == Closed(old(reader.Rest()))
    {
      var stop := IgnoreUntilClose();
      var slash := reader.Read();
    }

    /** `process_block_comment(text, reader, status)`. */
    method ProcessBlockComment()
      modifies this, reader
      ensures State() == BlockCommentProcessed(variant, old(State()))
    {
      ghost var cfg := State();
      var c := reader.Read();
      if c == Some('!') {
        ghost var rest := reader.Rest();
        c := reader.Read();
        if c.Some? && IsSpace(c.value) {
          TokenizeText();
          tokens := tokens + [SymbolToken(BEGIN_BLOCK_COMMENT)];
          reader.Back(c);
        } else {
          if variant == Corrected {
            reader.Back(c);
          }
          SkipBlockComment();
        }
      } else {
        if variant == Corrected {
          reader.Back(c);
        }
        SkipBlockComment();
      }
    }

    /** `process_string(c, text, reader, status)`. */
    method ProcessString(c: char) returns (processed: bool)
      modifies this, reader
      ensures (processed, State()) == StringProcessed(variant, c, old(State()))
    {
      if c == '/' {
        var d := reader.Read();
        if d == Some('/') {
          ProcessLineComment();
        } else if d == Some('*') {
          ProcessBlockComment();
        } else {
          text := text + SlashText(variant, d);
        }
        return true;
      } else if c == '*' {
        var d := reader.Read();
        if d == Some('/') {
          TokenizeText();
          tokens := tokens + [SymbolToken(END_BLOCK_COMMENT)];
        } else {
          TokenizeText();
          tokens := tokens + [SymbolToken(STAR)];
          reader.Back(d);
        }
        return true;
      }
      return false;
    }

    /** `process(reader, status)`, with its local text as the `text` field. */
    method Process()
      modifies this, reader
      ensures tokens == Processed(variant, old(tokens), old(reader.Rest()))
      ensures text == [] && reader.Rest() == []
    {
      ghost var start := Cfg([], tokens, reader.Rest());
      text := [];
      while true
        invariant Looped(variant, State()) == Looped(variant, start)
        decreases |reader.Rest()|
      {
        ghost var before := State();
        var c := reader.Read();
        if c.None? {
          break;
        }
        assert State() == before.(rest := before.rest[1..]);
        var processed := ProcessChar(c.value);
        if processed {
          continue;
        }
        processed := ProcessTagName(c.value);
        if processed {
          continue;
        }
        processed := ProcessString(c.value);
        if processed {
          continue;
        }
        text := text + [c.value];
      }
      TokenizeText();
      tokens := tokens + [SymbolToken(END_OF_FILE)];
    }
  }
}
