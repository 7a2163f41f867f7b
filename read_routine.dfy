/**
 * The chunk reader of the newer parser: `routine<READ>::run` scans a chunk
 * `[begin, end)` for the start of a comment, remembering a trailing '/'
 * in the cache's symbol so that a line or block comment opener split across two chunks is
 * still seen. The chunk is a string and `begin` an index into it.
 */
module ReadRoutine {
  import opened CStrings
  import opened ParseSymbol

  /** `State`: where the parser stands. */
  datatype State = DEFAULT | SINGLE_LINE | BLOCK

  /** `Routine`: which routine runs next. */
  datatype Routine = READ | IGNORE_WS | PROCESS

  /** `Cache<N>`: what survives between chunks. */
  class Cache {
    var state: State
    const symbol: Symbol

    constructor (st: State, sym: Symbol)
      ensures state == st && symbol == sym
    {
      state := st;
      symbol := sym;
    }
  }

  /** What the character after a '/' decides: a second slash begins a line comment, a star a block comment. */
  function AfterSlash(c: char, st: State): (r: (Routine, State))
    ensures c == '/' ==> r == (IGNORE_WS, SINGLE_LINE)
    ensures c == '*' ==> r == (IGNORE_WS, BLOCK)
    ensures c != '/' && c != '*' ==> r == (READ, st)
  {
    if c == '/' then (IGNORE_WS, SINGLE_LINE)
    else if c == '*' then (IGNORE_WS, BLOCK)
    else (READ, st)
  }

  /**
   * The outcome of `process_slash` at `b`, from state `st0` and symbol
   * `sym0`: an empty range changes nothing; otherwise one character is
   * consumed, the symbol is cleared, and that character decides.
   */
  ghost predicate Slashed(text: string, b: nat, st0: State, sym0: string,
                          next: Routine, pos: nat, st: State, sym: string)
    requires b <= |text|
  {
    if b == |text| then next == READ && pos == b && st == st0 && sym == sym0
    else pos == b + 1 && sym == [] && (next, st) == AfterSlash(text[b], st0)
  }

  /** The first '/' at or after `b`, or the end of the chunk. */
  function FirstSlash(text: string, b: nat): (k: nat)
    requires b <= |text|
    ensures b <= k <= |text|
    ensures k < |text| ==> text[k] == '/'
    ensures forall j :: b <= j < k ==> text[j] != '/'
    decreases |text| - b
  {
    if b == |text| || text[b] == '/' then b else FirstSlash(text, b + 1)
  }

  /** A chunk whose first '/' opens its second part. */
  lemma {:induction false} SlashFirstIn(head: string, tail: string)
    requires '/' !in head && tail != [] && tail[0] == '/'
    ensures FirstSlash(head + tail, 0) == |head|
  {
    var k := FirstSlash(head + tail, 0);
    assert (head + tail)[|head|] == '/';
    assert forall j :: 0 <= j < |head| ==> (head + tail)[j] == head[j];
  }

  /**
   * What READ expects of the symbol: it reads "" or "/", and its cells hold
   * exactly what was pushed, with room for one more character.
   */
  ghost predicate Ready(sym: Symbol)
    reads sym, sym.buf
  {
    sym.Valid() && sym.Clean() && (sym.Pushed() == [] || sym.Pushed() == "/") && 1 <= sym.capacity
  }

  /** `details::process_slash`, with the symbol cleared as intended. */
  method ProcessSlash(cache: Cache, text: string, begin: nat) returns (next: Routine, pos: nat)
    requires begin <= |text| && cache.symbol.Valid() && cache.symbol.Terminated()
    modifies cache, cache.symbol, cache.symbol.buf
    ensures cache.symbol.Valid() && cache.symbol.Terminated()
    ensures Slashed(text, begin, old(cache.state), old(cache.symbol.Get()),
                    next, pos, cache.state, cache.symbol.Get())
    ensures begin == |text| ==> unchanged(cache.symbol, cache.symbol.buf)
    ensures begin < |text| ==> cache.symbol.Clean() && cache.symbol.Pushed() == []
  {
    next := READ;
    if begin == |text| {
      return next, begin;
    }
    if text[begin] == '/' {
      cache.state := SINGLE_LINE;
      next := IGNORE_WS;
    } else if text[begin] == '*' {
      cache.state := BLOCK;
      next := IGNORE_WS;
    }
    cache.symbol.ClearCorrected();
    pos := begin + 1;
  }

  /**
   * `details::process_slash` as written: `clear()` leaves the cells alone,
   * so the symbol goes on reading what it read before.
   */
  method ProcessSlashAsWritten(cache: Cache, text: string, begin: nat) returns (next: Routine, pos: nat)
    requires begin <= |text| && cache.symbol.Valid() && cache.symbol.Terminated()
    modifies cache, cache.symbol
    ensures cache.symbol.Valid() && cache.symbol.Terminated() && cache.symbol.Get() == old(cache.symbol.Get())
    ensures begin == |text| ==> next == READ && pos == begin && cache.state == old(cache.state)
    ensures begin < |text| ==> pos == begin + 1 && (next, cache.state) == AfterSlash(text[begin], old(cache.state))
  {
    next := READ;
    if begin == |text| {
      return next, begin;
    }
    if text[begin] == '/' {
      cache.state := SINGLE_LINE;
      next := IGNORE_WS;
    } else if text[begin] == '*' {
      cache.state := BLOCK;
      next := IGNORE_WS;
    }
    cache.symbol.Clear();
    pos := begin + 1;
  }

  /**
   * `routine<READ>::run`. A "/" left by the previous chunk is settled by
   * the first character; otherwise the chunk is scanned up to its first
   * '/', which is pushed and settled by the character after it (or, at
   * the end of the chunk, kept for the next one). The symbol is ready for
   * the next call again, and the cursor never passes the end.
   */
  method Read(cache: Cache, text: string, begin: nat) returns (next: Routine, pos: nat)
    requires begin <= |text| && Ready(cache.symbol)
    modifies cache, cache.symbol, cache.symbol.buf
    ensures Ready(cache.symbol) && begin <= pos <= |text|
    ensures old(cache.symbol.Get()) == "/" ==>
      Slashed(text, begin, old(cache.state), "/", next, pos, cache.state, cache.symbol.Get())
    ensures old(cache.symbol.Get()) == "" && FirstSlash(text, begin) == |text| ==>
      next == READ && pos == |text| && cache.state == old(cache.state) && cache.symbol.Get() == ""
    ensures old(cache.symbol.Get()) == "" && FirstSlash(text, begin) < |text| ==>
      Slashed(text, FirstSlash(text, begin) + 1, old(cache.state), "/", next, pos, cache.state, cache.symbol.Get())
  {
    var slashMatch := cache.symbol.Get() == "/";
    if slashMatch {
      next, pos := ProcessSlash(cache, text, begin);
      return;
    }
    ghost var k := FirstSlash(text, begin);
    var i := begin;
    while i < |text|
      invariant begin <= i <= k && Ready(cache.symbol) && cache.symbol.Pushed() == []
      invariant cache.state == old(cache.state)
    {
      if text[i] == '/' {
        cache.symbol.PushBack('/');
        assert cache.symbol.Pushed() == "/";
        next, pos := ProcessSlash(cache, text, i + 1);
        return;
      }
      i := i + 1;
    }
    return READ, i;
  }

  /** A cache as the routine tests set it up: state DEFAULT and the symbol holding "/". */
  method SlashPending() returns (cache: Cache)
    ensures fresh(cache) && fresh(cache.symbol) && fresh(cache.symbol.buf)
    ensures cache.state == DEFAULT && Ready(cache.symbol) && cache.symbol.Get() == "/"
  {
    var sym := Blank();
    sym.PushBack('/');
    assert sym.Pushed() == "/";
    cache := new Cache(DEFAULT, sym);
  }

  /**
   * The "/ comment" chunk after a pending "/", as written: a line comment
   * is found, but the symbol still reads "/" where "" is expected.
   */
  method LineCommentAsWritten() returns (next: Routine, st: State, sym: string, pos: nat)
    ensures next == IGNORE_WS && st == SINGLE_LINE && sym == "/" && pos == 1
  {
    var cache := SlashPending();
    next, pos := ProcessSlashAsWritten(cache, "/ comment", 0);
    st := cache.state;
    sym := cache.symbol.Get();
  }

  /** The same chunk with the corrected clear: the symbol reads "". */
  method LineCommentCorrected() returns (next: Routine, st: State, sym: string, pos: nat)
    ensures next == IGNORE_WS && st == SINGLE_LINE && sym == "" && pos == 1
  {
    var cache := SlashPending();
    next, pos := ProcessSlash(cache, "/ comment", 0);
    st := cache.state;
    sym := cache.symbol.Get();
  }

  /**
   * READ stops at the first '/' whatever follows it: on an include line
   * the slash inside the header path ends the call, one character later.
   */
  method ReadIncludeLine() returns (next: Routine, st: State, sym: string, pos: nat)
    ensures next == READ && st == DEFAULT && sym == "" && pos == 20
  {
    var s := Blank();
    var cache := new Cache(DEFAULT, s);
    var head, tail := "#include <nlohmann", "/json.hpp> // json";
    var text := head + tail;
    SlashFirstIn(head, tail);
    assert text[19] == tail[1] == 'j';
    next, pos := Read(cache, text, 0);
    st := cache.state;
    sym := cache.symbol.Get();
  }
}
