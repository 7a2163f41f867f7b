/**
 * `ParseFeeder` (src/core/parse_feeder.hpp) as functions on its state:
 * `parsed_`, the object being filled (`parsing_`), the handled key and
 * the writing / just-written / skip flags.
 */
module ParseFeederSpec {
  import opened CStrings
  import opened Json
  import opened FeedTokens

  datatype FeederState = FeederState(parsed: Json, parsing: Json, key: string,
                                     writing: bool, justWritten: bool, toSkip: bool)

  const Initial := FeederState(Null, Null, [], false, false, false)

  /** The key `parsed()` appends under. */
  const Functions: string := "functions"

  /** Keyed access never throws and the "functions" slot takes a `push_back`. */
  predicate Inv(w: FeederState)
  {
    Keyed(w.parsed) && Keyed(w.parsing) && Listed(At(w.parsed, Functions))
  }

  /** `at()`: a key is set. */
  predicate AtKey(w: FeederState)
  {
    w.key != []
  }

  /** `on()`. */
  predicate On(w: FeederState)
  {
    w.writing && AtKey(w)
  }

  /** `open()`: on and not skipping. */
  predicate Open(w: FeederState)
  {
    On(w) && !w.toSkip
  }

  /** `fresh()`: nothing fed since the session began. */
  predicate Fresh(w: FeederState)
  {
    !w.justWritten
  }

  predicate ValOk(w: FeederState)
  {
    !AtKey(w) || Writable(w.parsing, w.key)
  }

  function Val(w: FeederState): string
    requires AtKey(w) && ValOk(w)
  {
    Text(w.parsing, w.key)
  }

  function Touched(w: FeederState): (r: FeederState)
    requires ValOk(w)
    ensures ValOk(r) && (Inv(w) ==> Inv(r))
    ensures AtKey(w) ==> r == w.(parsing := Materialized(w.parsing, w.key))
    ensures !AtKey(w) ==> r == w
  {
    if AtKey(w) then w.(parsing := Materialized(w.parsing, w.key)) else w
  }

  /** `fed()`: a key is set and its string is not empty. */
  function Fed(w: FeederState): (r: (bool, FeederState))
    requires ValOk(w)
    ensures r.0 <==> AtKey(w) && Val(w) != []
    ensures r.1 == Touched(w)
  {
    (AtKey(w) && Text(w.parsing, w.key) != [], Touched(w))
  }

  /** `force_feed(s)` and `force_feed(c)`: append when a key is set. */
  function ForceFeed(w: FeederState, s: string): (r: FeederState)
    requires ValOk(w)
    ensures ValOk(r) && (Inv(w) ==> Inv(r))
    ensures !AtKey(w) ==> r == w
    ensures AtKey(w) ==> r == w.(parsing := r.parsing)
    ensures AtKey(w) ==> Val(r) == Val(w) + s
  {
    if AtKey(w) then w.(parsing := Appended(w.parsing, w.key, s)) else w
  }

  /** The body of `feed(t)` when open. */
  function FedValue(w: FeederState, t: FedToken): (r: FeederState)
    requires Open(w) && ValOk(w)
    ensures AtKey(r) && ValOk(r) && (Inv(w) ==> Inv(r))
  {
    var (f, u) := Fed(w);
    var u2 := if !f then u
              else if Fresh(u) then ForceFeed(u, " ")
              else if t.leadingWs != 0 then ForceFeed(u, Spaces(t.leadingWs))
              else u;
    ForceFeed(u2, CStr(t.content)).(justWritten := true)
  }

  /** `feed(t)`: the skip is always cleared, and the result is `fed()` afterwards. */
  function Feed(w: FeederState, t: FedToken): (r: (bool, FeederState))
    requires ValOk(w)
    ensures ValOk(r.1) && (Inv(w) ==> Inv(r.1)) && !r.1.toSkip
  {
    var w1 := if Open(w) then FedValue(w, t) else w;
    Fed(w1.(toSkip := false))
  }

  /** `trim()`. */
  function Trim(w: FeederState): (r: FeederState)
    requires ValOk(w)
    ensures ValOk(r) && (Inv(w) ==> Inv(r))
    ensures r == w.(parsing := r.parsing)
  {
    if AtKey(w) then w.(parsing := Trimmed(w.parsing, w.key)) else w
  }

  /** `reset()`. */
  function Reset(w: FeederState): (r: FeederState)
    ensures ValOk(r) && (Inv(w) ==> Inv(r))
  {
    FeederState(Clear(w.parsed), Clear(w.parsing), [], false, false, false)
  }

  /** `parsed()`: trim, then append a non-null object under "functions" and leave `parsing_` null. */
  function Parsed(w: FeederState): (r: FeederState)
    requires Inv(w) && ValOk(w)
    ensures Inv(r) && ValOk(r)
  {
    var t := Trim(w);
    if t.parsing.Null? then t
    else t.(parsed := Put(t.parsed, Functions, PushBack(At(t.parsed, Functions), t.parsing)), parsing := Null)
  }

  function Go(w: FeederState): (r: FeederState)
  {
    w.(writing := true, justWritten := false)
  }

  function Stop(w: FeederState): (r: FeederState)
  {
    w.(writing := false)
  }

  function Skip(w: FeederState): (r: FeederState)
  {
    w.(toSkip := true)
  }

  /** `at(key)`: trim the old value, then switch keys and start a session. */
  function SetAt(w: FeederState, k: string): (r: FeederState)
    requires ValOk(w)
  {
    Trim(w).(key := k, justWritten := false)
  }

  // ---------------------------------------------------------------------
  // What the feeder promises
  // ---------------------------------------------------------------------

  /**
   * An open feed appends the token as SpacedText says, marks the value fed
   * and reports true exactly when the value is not empty.
   */
  lemma FeedOpen(w: FeederState, t: FedToken)
    requires ValOk(w) && Open(w)
    ensures var (b, r) := Feed(w, t);
      AtKey(r) && r.key == w.key && Val(r) == SpacedText(Val(w), Fresh(w), t)
      && (b <==> Val(r) != []) && r.justWritten && !r.toSkip && r.writing && r.parsed == w.parsed
      && forall x :: x != w.key ==> At(r.parsing, x) == At(w.parsing, x)
  {
    var (f, u) := Fed(w);
    if f && !Fresh(u) && t.leadingWs == 0 {
      assert Spaces(t.leadingWs) == [];
    }
  }

  /** A feed that is not open writes nothing: it clears the skip and reports whether the value is non-empty. */
  lemma FeedClosed(w: FeederState, t: FedToken)
    requires ValOk(w) && !Open(w)
    ensures var (b, r) := Feed(w, t);
      r == Touched(w).(toSkip := false) && (b <==> AtKey(w) && Val(w) != [])
  {
  }

  /** Trimming removes exactly the trailing whitespace, and an empty value loses its key. */
  lemma TrimValue(w: FeederState)
    requires ValOk(w) && AtKey(w)
    ensures var r := Trim(w);
      ValOk(r) && AtKey(r) && Val(r) <= Val(w) && (Val(r) == [] || !IsSpace(Val(r)[|Val(r)| - 1]))
      && (forall i :: |Val(r)| <= i < |Val(w)| ==> IsSpace(Val(w)[i]))
      && (Val(r) == [] ==> w.key !in r.parsing.fields)
  {
  }

  /** `parsed()` of a non-null object: it lands trimmed at the end of "functions", the rest of `parsed_` stays. */
  lemma ParsedAppends(w: FeederState)
    requires Inv(w) && ValOk(w) && !w.parsing.Null?
    ensures var r := Parsed(w);
      r.parsing == Null && r.key == w.key && r.writing == w.writing && r.justWritten == w.justWritten
      && At(r.parsed, Functions).Arr?
      && At(r.parsed, Functions).items
         == (if At(w.parsed, Functions).Null? then [] else At(w.parsed, Functions).items) + [Trim(w).parsing]
      && forall x :: x != Functions ==> At(r.parsed, x) == At(w.parsed, x)
  {
  }

  /** With `parsing_` null and no key set, `parsed()` changes nothing. */
  lemma ParsedNothing(w: FeederState)
    requires Inv(w) && ValOk(w) && w.parsing.Null? && !AtKey(w)
    ensures Parsed(w) == w
  {
  }

  /**
   * Once a value has been trimmed away, `parsing_` is an empty object,
   * not null, and `parsed()` appends it: a function with no text still
   * adds `{}` to "functions". With a key set this holds even when
   * `parsing_` is null, as trimming reaches `val_()` first.
   */
  lemma ParsedKeepsEmptyObject(w: FeederState)
    requires Inv(w) && AtKey(w) && ValOk(w) && Fields(w.parsing).Keys <= {w.key} && TrimRight(Val(w)) == []
    ensures At(Parsed(w).parsed, Functions).Arr?
    ensures At(Parsed(w).parsed, Functions).items
            == (if At(w.parsed, Functions).Null? then [] else At(w.parsed, Functions).items) + [Obj(map[])]
  {
    assert Trim(w).parsing.fields == map[];
  }
}

/** `ParseFeeder` as an object. */
module ParseFeeder {
  import opened CStrings
  import opened Json
  import opened FeedTokens
  import opened ParseFeederSpec

  class ParseFeeder {
    var parsed: Json
    var parsing: Json
    var key: string
    var writing: bool
    var justWritten: bool
    var toSkip: bool

    function State(): FeederState
      reads this
    {
      FeederState(parsed, parsing, key, writing, justWritten, toSkip)
    }

    ghost predicate Valid()
      reads this
    {
      Inv(State())
    }

    constructor ()
      ensures Valid() && State() == Initial
    {
      parsed, parsing, key := Null, Null, [];
      writing, justWritten, toSkip := false, false, false;
    }

    /** `val_()`. */
    method ValPtr() returns (v: string)
      requires Valid() && AtKey(State()) && ValOk(State())
      modifies this
      ensures Valid() && State() == Touched(old(State())) && v == Val(old(State()))
    {
      if At(parsing, key).Null? {
        parsing := Put(parsing, key, Str([]));
      } else {
        parsing := Obj(Fields(parsing));
      }
      v := Text(parsing, key);
    }

    /** `fed()`. */
    method Fed() returns (b: bool)
      requires Valid() && ValOk(State())
      modifies this
      ensures Valid() && (b, State()) == ParseFeederSpec.Fed(old(State()))
    {
      if key == [] {
        return false;
      }
      var v := ValPtr();
      b := v != [];
    }

    /** `force_feed(s)` and `force_feed(c)`. */
    method ForceFeed(s: string)
      requires Valid() && ValOk(State())
      modifies this
      ensures Valid() && State() == ParseFeederSpec.ForceFeed(old(State()), s)
    {
      if key != [] {
        var v := ValPtr();
        parsing := Put(parsing, key, Str(v + s));
      }
    }

    /** `feed(t)`. */
    method Feed(t: FedToken) returns (b: bool)
      requires Valid() && ValOk(State())
      modifies this
      ensures Valid() && (b, State()) == ParseFeederSpec.Feed(old(State()), t)
    {
      if writing && key != [] && !toSkip {
        var f := Fed();
        if f {
          if !justWritten {
            ForceFeed(" ");
          } else if t.leadingWs != 0 {
            ForceFeed(Spaces(t.leadingWs));
          }
        }
        ForceFeed(CStr(t.content));
        justWritten := true;
      }
      toSkip := false;
      b := Fed();
    }

    /** `trim()`. */
    method Trim()
      requires Valid() && ValOk(State())
      modifies this
      ensures Valid() && State() == ParseFeederSpec.Trim(old(State()))
    {
      if key != [] {
        ghost var j := parsing;
        var v := ValPtr();
        while v != [] && IsSpace(v[|v| - 1])
          invariant Writable(j, key) && TrimRight(v) == TrimRight(Text(j, key))
          invariant parsing == Put(j, key, Str(v))
          invariant State() == old(State()).(parsing := parsing)
          decreases |v|
        {
          v := v[..|v| - 1];
          parsing := Put(parsing, key, Str(v));
          assert parsing.fields == Fields(j)[key := Str(v)];
        }
        if v == [] {
          parsing := Erase(parsing, key);
        }
      }
    }

    /** `reset()`. */
    method Reset()
      requires Valid()
      modifies this
      ensures Valid() && State() == ParseFeederSpec.Reset(old(State()))
    {
      parsed := Clear(parsed);
      parsing := Clear(parsing);
      key := [];
      writing, justWritten, toSkip := false, false, false;
    }

    /** `parsed()`. */
    method Parsed() returns (p: Json)
      requires Valid() && ValOk(State())
      modifies this
      ensures Valid() && State() == ParseFeederSpec.Parsed(old(State())) && p == parsed
    {
      Trim();
      if !parsing.Null? {
        parsed := Put(parsed, Functions, PushBack(At(parsed, Functions), parsing));
        parsing := Null;
      }
      p := parsed;
    }

    method Go()
      modifies this
      ensures State() == ParseFeederSpec.Go(old(State()))
    {
      writing := true;
      justWritten := false;
    }

    method Stop()
      modifies this
      ensures State() == ParseFeederSpec.Stop(old(State()))
    {
      writing := false;
    }

    method Skip()
      modifies this
      ensures State() == ParseFeederSpec.Skip(old(State()))
    {
      toSkip := true;
    }

    /** `at(key)`. */
    method SetAt(k: string)
      requires Valid() && ValOk(State())
      modifies this
      ensures Valid() && State() == ParseFeederSpec.SetAt(old(State()), k)
    {
      Trim();
      key := k;
      justWritten := false;
    }
  }
}
