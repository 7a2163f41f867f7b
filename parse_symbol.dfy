/**
 * `Symbol<N>`: a word remembered across chunks, kept in a fixed array of
 * N + 1 characters with an end index. `get()` reads the array as a C
 * string from its first cell.
 */
module ParseSymbol {
  import opened CStrings

  class Symbol {
    /** N, the most characters the symbol holds. */
    const capacity: nat
    /** `buf_`: N cells of characters and one for the terminator. */
    const buf: array<char>
    /** `end_`: the next unassigned cell. */
    var end: nat

    ghost predicate Valid()
      reads this
    {
      buf.Length == capacity + 1 && end <= capacity
    }

    /** Some cell holds a terminator, so reading the C string stays inside the array. */
    ghost predicate Terminated()
      reads this, buf
    {
      NUL in buf[..]
    }

    /** The characters pushed since the last clear. */
    ghost function Pushed(): seq<char>
      reads this, buf
      requires Valid()
    {
      buf[..end]
    }

    /** The cells hold exactly the pushed characters, terminated at `end_`. */
    ghost predicate Clean()
      reads this, buf
      requires Valid()
    {
      buf[end] == NUL && NUL !in buf[..end]
    }

    /**
     * `Symbol<N>` with the buffer's first contents given: the source leaves
     * the array default-initialised, so its cells are whatever `init` says.
     */
    constructor (n: nat, init: seq<char>)
      requires |init| == n + 1
      ensures Valid() && capacity == n && end == 0 && buf[..] == init && fresh(buf)
    {
      capacity := n;
      buf := new char[n + 1](i requires 0 <= i < n + 1 => init[i]);
      end := 0;
    }

    /** `get()`: the C string at the first cell. */
    function Get(): (r: string)
      reads this, buf
      requires Valid() && Terminated()
      ensures r <= buf[..] && NUL !in r && buf[|r|] == NUL
      ensures Clean() ==> r == Pushed()
    {
      CStrInside(buf[..]);
      CStr(buf[..])
    }

    /** `push_back(x)`: x goes to `end_`, which advances, and the next cell is terminated. */
    method PushBack(x: char)
      requires Valid() && end < capacity
      modifies this, buf
      ensures Valid() && end == old(end) + 1
      ensures buf[..] == old(buf[..])[old(end) := x][old(end) + 1 := NUL]
      ensures Pushed() == old(Pushed()) + [x] && Terminated()
      ensures old(Clean()) && x != NUL ==> Clean()
    {
      buf[end] := x;
      end := end + 1;
      buf[end] := NUL;
      assert buf[end] == NUL;
      assert buf[..end] == old(buf[..end]) + [x];
    }

    /**
     * `clear()` as written: only `end_` goes back to 0, the cells keep what
     * was pushed, so `get()` reads the old word until the next push.
     */
    method Clear()
      requires Valid()
      modifies this
      ensures Valid() && end == 0 && Pushed() == []
      ensures old(Terminated()) ==> Terminated() && Get() == old(Get())
    {
      end := 0;
    }

    /** `clear()` as evidently intended: the first cell is terminated too. */
    method ClearCorrected()
      requires Valid()
      modifies this, buf
      ensures Valid() && end == 0 && Clean() && Terminated() && Get() == []
      ensures buf[1..] == old(buf[1..])
    {
      end := 0;
      buf[0] := NUL;
      assert buf[0] == NUL;
    }
  }

  /** A string holding a NUL has a C string shorter than itself. */
  lemma CStrInside(s: seq<char>)
    requires NUL in s
    ensures |CStr(s)| < |s|
  {
  }

  /** The tests' symbol: ten characters, every cell zero. */
  method Blank() returns (sym: Symbol)
    ensures fresh(sym) && fresh(sym.buf) && sym.Valid() && sym.capacity == 10 && sym.Clean() && sym.Pushed() == []
  {
    sym := new Symbol(10, seq(11, _ => NUL));
  }

  /** Pushing a word of at most N characters, none of them NUL, and reading it back gives the word. */
  method PushedReadBack(w: string) returns (r: string)
    requires |w| <= 10 && NUL !in w
    ensures r == w
  {
    var sym := Blank();
    var i := 0;
    while i < |w|
      invariant 0 <= i <= |w| && sym.Valid() && sym.capacity == 10 && sym.end == i
      invariant sym.Clean() && sym.Pushed() == w[..i]
    {
      assert w[i] in w;
      sym.PushBack(w[i]);
      assert w[..i + 1] == w[..i] + [w[i]];
      i := i + 1;
    }
    assert w[..i] == w;
    r := sym.Get();
  }

  /** Pushing "abc" and clearing as written leaves `get()` reading "abc". */
  method ClearKeepsWord() returns (r: string)
    ensures r == "abc"
  {
    var sym := Blank();
    sym.PushBack('a');
    sym.PushBack('b');
    sym.PushBack('c');
    assert sym.Pushed() == "abc";
    sym.Clear();
    r := sym.Get();
  }

  /** The same pushes with the corrected clear leave `get()` reading "". */
  method ClearCorrectedEmpties() returns (r: string)
    ensures r == ""
  {
    var sym := Blank();
    sym.PushBack('a');
    sym.PushBack('b');
    sym.PushBack('c');
    sym.ClearCorrected();
    r := sym.Get();
  }
}
