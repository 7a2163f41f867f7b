/**
 * Tokens as the older writers receive them: the text `c_str()` reads,
 * and the count of whitespace characters that preceded the token.
 */
module FeedTokens {
  import opened CStrings

  datatype FedToken = FedToken(content: string, leadingWs: nat)

  /** `std::string(n, ' ')`. */
  function Spaces(n: nat): (r: string)
    ensures |r| == n && forall i :: 0 <= i < n ==> r[i] == ' '
  {
    if n == 0 then [] else Spaces(n - 1) + " "
  }

  /**
   * The handled string after the older writers feed `t` to a value `v`:
   * the token's text goes at the end, and when `v` is not empty it is
   * separated by one space at the start of a session and by the token's
   * own leading whitespace, as spaces, within one.
   */
  function SpacedText(v: string, opening: bool, t: FedToken): (r: string)
    ensures v <= r && |CStr(t.content)| <= |r|
    ensures r[|r| - |CStr(t.content)|..] == CStr(t.content)
    ensures v == [] ==> r == CStr(t.content)
  {
    v + (if v == [] then [] else if opening then " " else Spaces(t.leadingWs)) + CStr(t.content)
  }
}

/**
 * The older `JSONWriter<Token>` (src/core/json_writer.hpp) as functions
 * on its state: `stored_`, `active_`, the handled key and the three flags.
 */
module OldJsonWriterSpec {
  import opened CStrings
  import opened Json
  import opened FeedTokens

  datatype OldState = OldState(stored: Json, active: Json, key: string,
                               writing: bool, justWritten: bool, toSkip: bool)

  const Initial := OldState(Null, Null, [], false, false, false)

  /** Keyed access never throws, and every slot of `stored_` takes a `push_back`. */
  predicate Inv(w: OldState)
  {
    Keyed(w.stored) && Keyed(w.active) && forall x :: x in Fields(w.stored) ==> Listed(Fields(w.stored)[x])
  }

  predicate KeySet(w: OldState)
  {
    w.key != []
  }

  predicate IsWriting(w: OldState)
  {
    w.writing && KeySet(w)
  }

  predicate ValOk(w: OldState)
  {
    !KeySet(w) || Writable(w.active, w.key)
  }

  function Val(w: OldState): string
    requires KeySet(w) && ValOk(w)
  {
    Text(w.active, w.key)
  }

  function Touched(w: OldState): (r: OldState)
    requires ValOk(w)
    ensures ValOk(r) && (Inv(w) ==> Inv(r))
    ensures KeySet(w) ==> r == w.(active := Materialized(w.active, w.key))
    ensures !KeySet(w) ==> r == w
  {
    if KeySet(w) then w.(active := Materialized(w.active, w.key)) else w
  }

  /** `written()`. */
  function Written(w: OldState): (r: (bool, OldState))
    requires ValOk(w)
    ensures r.0 <==> KeySet(w) && Val(w) != []
    ensures r.1 == Touched(w)
  {
    (KeySet(w) && Text(w.active, w.key) != [], Touched(w))
  }

  /** `just_written()`: despite its name, true when nothing was fed since the session began. */
  function JustWritten(w: OldState): bool
  {
    !w.justWritten
  }

  /** `write(s)`: appends when a key is set. */
  function Write(w: OldState, s: string): (r: OldState)
    requires ValOk(w)
    ensures ValOk(r) && (Inv(w) ==> Inv(r))
    ensures !KeySet(w) ==> r == w
    ensures KeySet(w) ==> r == w.(active := r.active)
    ensures KeySet(w) ==> Val(r) == Val(w) + s
  {
    if KeySet(w) then w.(active := Appended(w.active, w.key, s)) else w
  }

  /** The body of `feed(t)` when writing and not skipping. */
  function FedValue(w: OldState, t: FedToken): (r: OldState)
    requires IsWriting(w) && ValOk(w)
    ensures KeySet(r) && ValOk(r) && (Inv(w) ==> Inv(r))
  {
    var (wr, u) := Written(w);
    var u2 := if !wr then u
              else if JustWritten(u) then Write(u, " ")
              else if t.leadingWs != 0 then Write(u, Spaces(t.leadingWs))
              else u;
    Write(u2, CStr(t.content)).(justWritten := true)
  }

  /** `feed(t)`. */
  function Feed(w: OldState, t: FedToken): (r: OldState)
    requires ValOk(w)
    ensures ValOk(r) && (Inv(w) ==> Inv(r))
    ensures !IsWriting(w) ==> r == w
    ensures IsWriting(w) ==> !r.toSkip && KeySet(r)
    ensures IsWriting(w) && w.toSkip ==> r == w.(toSkip := false)
  {
    if !IsWriting(w) then w
    else (if w.toSkip then w else FedValue(w, t)).(toSkip := false)
  }

  /** `trim_written()`. */
  function TrimWritten(w: OldState): (r: OldState)
    requires ValOk(w)
    ensures ValOk(r) && (Inv(w) ==> Inv(r))
    ensures r == w.(active := r.active)
  {
    if KeySet(w) then w.(active := Trimmed(w.active, w.key)) else w
  }

  predicate StoreOk(w: OldState)
  {
    Inv(w) && (!w.active.Null? ==> ValOk(w))
  }

  /**
   * `store(pk)`: a non-null active object is trimmed and appended to the
   * array at `pk`, and `active_` is left null; the key and flags stay.
   */
  function Store(w: OldState, pk: string): (r: OldState)
    requires StoreOk(w)
    ensures Inv(r)
  {
    if w.active.Null? then w
    else
      var t := TrimWritten(w);
      t.(stored := Put(t.stored, pk, PushBack(At(t.stored, pk), t.active)), active := Null)
  }

  /** `reset()`. */
  function Reset(w: OldState): (r: OldState)
    ensures ValOk(r) && (Inv(w) ==> Inv(r))
  {
    OldState(Clear(w.stored), Clear(w.active), [], false, false, false)
  }

  function StartWriting(w: OldState): (r: OldState)
  {
    w.(writing := true, justWritten := false)
  }

  /** `stop_writing()`: unlike the newer writer, nothing is trimmed. */
  function StopWriting(w: OldState): (r: OldState)
  {
    w.(writing := false)
  }

  function SkipWrite(w: OldState): (r: OldState)
  {
    w.(toSkip := true)
  }

  /** `set_key(k)`: the old value is trimmed first. */
  function SetKey(w: OldState, k: string): (r: OldState)
    requires ValOk(w)
  {
    TrimWritten(w).(key := k, justWritten := false)
  }

  function ClearKey(w: OldState): (r: OldState)
    requires ValOk(w)
  {
    SetKey(w, [])
  }

  // ---------------------------------------------------------------------
  // What the older writer promises
  // ---------------------------------------------------------------------

  /** Feeding while writing and not skipping appends the token as SpacedText says and marks the value fed. */
  lemma FeedText(w: OldState, t: FedToken)
    requires ValOk(w) && IsWriting(w) && !w.toSkip
    ensures var r := Feed(w, t);
      KeySet(r) && r.key == w.key && Val(r) == SpacedText(Val(w), !w.justWritten, t)
      && r.justWritten && !r.toSkip && r.writing && r.stored == w.stored
      && forall x :: x != w.key ==> At(r.active, x) == At(w.active, x)
  {
    var (wr, u) := Written(w);
    if wr && !JustWritten(u) && t.leadingWs == 0 {
      assert Spaces(t.leadingWs) == [];
    }
  }

  /** Trimming removes exactly the trailing whitespace, and an empty value loses its key. */
  lemma TrimWrittenValue(w: OldState)
    requires ValOk(w) && KeySet(w)
    ensures var r := TrimWritten(w);
      ValOk(r) && KeySet(r) && Val(r) <= Val(w) && (Val(r) == [] || !IsSpace(Val(r)[|Val(r)| - 1]))
      && (forall i :: |Val(r)| <= i < |Val(w)| ==> IsSpace(Val(w)[i]))
      && (Val(r) == [] ==> w.key !in r.active.fields)
  {
  }

  /** `store(pk)` of a non-null active object: it lands trimmed at the end of the array at `pk`, the rest of `stored_` stays. */
  lemma StoreAppends(w: OldState, pk: string)
    requires StoreOk(w) && !w.active.Null?
    ensures var r := Store(w, pk);
      r.active == Null && r.key == w.key && r.writing == w.writing && r.justWritten == w.justWritten
      && At(r.stored, pk).Arr?
      && At(r.stored, pk).items == (if At(w.stored, pk).Null? then [] else At(w.stored, pk).items) + [TrimWritten(w).active]
      && forall x :: x != pk ==> At(r.stored, x) == At(w.stored, x)
  {
  }

  /**
   * After `reset()` of a writer whose active value was an object, that
   * value is an empty object rather than null, so the next `store(pk)`
   * appends an empty object.
   */
  lemma ResetThenStoreAppendsEmpty(w: OldState, pk: string)
    requires Inv(w) && w.active.Obj?
    ensures StoreOk(Reset(w))
    ensures At(Store(Reset(w), pk).stored, pk) == Arr([Obj(map[])])
  {
  }
}

/** The older `JSONWriter<Token>` as an object. */
module OldJsonWriter {
  import opened CStrings
  import opened Json
  import opened FeedTokens
  import opened OldJsonWriterSpec

  class JSONWriter {
    var stored: Json
    var active: Json
    var key: string
    var writing: bool
    var justWritten: bool
    var toSkip: bool

    function State(): OldState
      reads this
    {
      OldState(stored, active, key, writing, justWritten, toSkip)
    }

    ghost predicate Valid()
      reads this
    {
      Inv(State())
    }

    constructor ()
      ensures Valid() && State() == Initial
    {
      stored, active, key := Null, Null, [];
      writing, justWritten, toSkip := false, false, false;
    }

    /** `val_()`. */
    method ValPtr() returns (v: string)
      requires Valid() && OldJsonWriterSpec.KeySet(State()) && ValOk(State())
      modifies this
      ensures Valid() && State() == Touched(old(State())) && v == Val(old(State()))
    {
      if At(active, key).Null? {
        active := Put(active, key, Str([]));
      } else {
        active := Obj(Fields(active));
      }
      v := Text(active, key);
    }

    /** `written()`. */
    method Written() returns (b: bool)
      requires Valid() && ValOk(State())
      modifies this
      ensures Valid() && (b, State()) == OldJsonWriterSpec.Written(old(State()))
    {
      if key == [] {
        return false;
      }
      var v := ValPtr();
      b := v != [];
    }

    /** `write(s)` and `write(c)`. */
    method Write(s: string)
      requires Valid() && ValOk(State())
      modifies this
      ensures Valid() && State() == OldJsonWriterSpec.Write(old(State()), s)
    {
      if key != [] {
        var v := ValPtr();
        active := Put(active, key, Str(v + s));
      }
    }

    /** `feed(t)`. */
    method Feed(t: FedToken)
      requires Valid() && ValOk(State())
      modifies this
      ensures Valid() && State() == OldJsonWriterSpec.Feed(old(State()), t)
    {
      if writing && key != [] {
        if !toSkip {
          var wr := Written();
          if wr {
            if !justWritten {
              Write(" ");
            } else if t.leadingWs != 0 {
              Write(Spaces(t.leadingWs));
            }
          }
          Write(CStr(t.content));
          justWritten := true;
        }
        toSkip := false;
      }
    }

    /** `trim_written()`. */
    method TrimWritten()
      requires Valid() && ValOk(State())
      modifies this
      ensures Valid() && State() == OldJsonWriterSpec.TrimWritten(old(State()))
    {
      if key != [] {
        ghost var j := active;
        var v := ValPtr();
        while v != [] && IsSpace(v[|v| - 1])
          invariant Writable(j, key) && TrimRight(v) == TrimRight(Text(j, key))
          invariant active == Put(j, key, Str(v))
          invariant State() == old(State()).(active := active)
          decreases |v|
        {
          v := v[..|v| - 1];
          active := Put(active, key, Str(v));
          assert active.fields == Fields(j)[key := Str(v)];
        }
        if v == [] {
          active := Erase(active, key);
        }
      }
    }

    /** `store(pk)`. */
    method Store(pk: string)
      requires StoreOk(State())
      modifies this
      ensures Valid() && State() == OldJsonWriterSpec.Store(old(State()), pk)
    {
      if !active.Null? {
        TrimWritten();
        stored := Put(stored, pk, PushBack(At(stored, pk), active));
        active := Null;
      }
    }

    /** `reset()`. */
    method Reset()
      requires Valid()
      modifies this
      ensures Valid() && State() == OldJsonWriterSpec.Reset(old(State()))
    {
      stored := Clear(stored);
      active := Clear(active);
      key := [];
      writing, justWritten, toSkip := false, false, false;
    }

    method StartWriting()
      modifies this
      ensures State() == OldJsonWriterSpec.StartWriting(old(State()))
    {
      writing := true;
      justWritten := false;
    }

    method StopWriting()
      modifies this
      ensures State() == OldJsonWriterSpec.StopWriting(old(State()))
    {
      writing := false;
    }

    method SkipWrite()
      modifies this
      ensures State() == OldJsonWriterSpec.SkipWrite(old(State()))
    {
      toSkip := true;
    }

    /** `set_key(k)`. */
    method SetKey(k: string)
      requires Valid() && ValOk(State())
      modifies this
      ensures Valid() && State() == OldJsonWriterSpec.SetKey(old(State()), k)
    {
      TrimWritten();
      key := k;
      justWritten := false;
    }

    /** `clear_key()`. */
    method ClearKey()
      requires Valid() && ValOk(State())
      modifies this
      ensures Valid() && State() == OldJsonWriterSpec.ClearKey(old(State()))
    {
      SetKey([]);
    }
  }
}
