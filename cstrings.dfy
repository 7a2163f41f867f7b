/**
 * C-string and <cctype> helpers shared by the models: what `c_str()` shows of a
 * `std::string` with an embedded NUL, and the character classes of the "C" locale.
 */
module CStrings {
  const NUL: char := '\0'

  /** The characters `std::isspace` accepts in the "C" locale: " \t\n\v\f\r". */
  const Whitespace: seq<char> := " \t\n\U{000B}\U{000C}\r"

  predicate IsSpace(c: char) { c in Whitespace }

  /** `std::isalpha` in the "C" locale. */
  predicate IsAlpha(c: char) { ('a' <= c <= 'z') || ('A' <= c <= 'Z') }

  /** The string a C reader sees through `c_str()`: everything before the first NUL. */
  function CStr(s: seq<char>): (r: seq<char>)
    ensures r <= s
    ensures NUL !in r
    ensures |r| < |s| ==> s[|r|] == NUL
    ensures NUL !in s ==> r == s
  {
    if s == [] || s[0] == NUL then [] else [s[0]] + CStr(s[1..])
  }

  /** A NUL-free prefix passes through `c_str()` untouched. */
  lemma {:induction false} CStrAppend(a: seq<char>, b: seq<char>)
    requires NUL !in a
    ensures CStr(a + b) == a + CStr(b)
  {
    if a == [] {
      assert a + b == b;
    } else {
      var ab := a + b;
      assert ab[0] == a[0] && ab[0] != NUL;
      assert ab[1..] == a[1..] + b;
      assert NUL !in a[1..];
      CStrAppend(a[1..], b);
      assert CStr(ab) == [a[0]] + CStr(ab[1..]);
      assert [a[0]] + (a[1..] + CStr(b)) == a + CStr(b);
    }
  }

  /** A scan that stops at the first NUL or at the end has read exactly `c_str()`. */
  lemma {:induction false} CStrCut(s: seq<char>, n: nat)
    requires n <= |s| && NUL !in s[..n] && (n == |s| || s[n] == NUL)
    ensures CStr(s) == s[..n]
  {
    if n > 0 {
      assert s[0] == s[..n][0] && s[0] != NUL;
      assert s[1..][..n - 1] == s[..n][1..];
      CStrCut(s[1..], n - 1);
      assert s[..n] == [s[0]] + s[1..][..n - 1];
    }
  }
}
