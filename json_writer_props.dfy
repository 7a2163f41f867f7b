/**
 * What the newer `JSONWriter` promises, stated on the functions of
 * JsonWriterSpec: how a fed string lands in the handled value, what
 * trimming leaves, when `store` moves the active object and what it
 * leaves behind, and how `stow_for` and `unstow` nest content.
 */
module JsonWriterProps {
  import opened CStrings
  import opened Json
  import opened JsonWriterSpec

  /**
   * The handled string after a feed, from the string before it: in a
   * continuous session `s` is appended as it is; otherwise its leading
   * spaces are dropped, it is read up to a NUL, and it is separated by one
   * space from anything already there. A string of spaces only is dropped.
   */
  function FedText(v: string, session: bool, s: string): (r: string)
    ensures v <= r
  {
    if v != [] && session then v + s
    else
      var k := FirstNotSpace(s);
      if k == |s| then v
      else v + (if v != [] then " " else "") + CStr(s[k..])
  }

  /** Feeding while writing and not skipping changes the handled string as FedText says, and nothing else but the session flag. */
  lemma FeedText(w: WriterState, s: string)
    requires ValOk(w) && IsWriting(w) && !w.toSkip
    ensures var r := Feed(w, s);
      KeySet(r) && r.key == w.key && Val(r) == FedText(Val(w), w.justWritten, s)
      && r.stored == w.stored && r.stowed == w.stowed && r.unstowKey == w.unstowKey && r.writing && !r.toSkip
      && forall x :: x != w.key ==> At(r.active, x) == At(w.active, x)
  {
    var u := Touched(w);
    var k := FirstNotSpace(s);
    if Val(w) != [] && w.justWritten {
    } else if k == |s| {
    } else if Val(w) != [] {
      var u2 := Write(u, " ", false);
      assert Val(u2) == Val(w) + " ";
    }
  }

  /** A feed in a session, or one that writes anything, leaves the writer in a session. */
  lemma FeedStartsSession(w: WriterState, s: string)
    requires ValOk(w) && IsWriting(w) && !w.toSkip
    ensures Feed(w, s).justWritten <==> w.justWritten || FirstNotSpace(s) < |s|
  {
  }

  /**
   * `trim_written()` with a key set: the string loses exactly its trailing
   * whitespace, and an empty string takes its key with it.
   */
  lemma TrimWrittenValue(w: WriterState)
    requires ValOk(w) && KeySet(w)
    ensures var r := TrimWritten(w);
      ValOk(r) && KeySet(r)
      && Val(r) <= Val(w) && (Val(r) == [] || !IsSpace(Val(r)[|Val(r)| - 1]))
      && (forall i :: |Val(r)| <= i < |Val(w)| ==> IsSpace(Val(w)[i]))
      && (Val(r) == [] ==> w.key !in r.active.fields)
      && forall x :: x != w.key ==> At(r.active, x) == At(w.active, x)
  {
  }

  /** Trimming twice is trimming once. */
  lemma TrimWrittenIdempotent(w: WriterState)
    requires ValOk(w)
    ensures TrimWritten(TrimWritten(w)) == TrimWritten(w)
  {
    if KeySet(w) {
      var j := w.active;
      var t := Trimmed(j, w.key);
      TrimRightIdempotent(Text(j, w.key));
      assert Text(t, w.key) == TrimRight(Text(j, w.key));
      var tt := Trimmed(t, w.key);
      assert tt.fields == t.fields;
    }
  }

  /**
   * A `store` that moves: the slot gains the trimmed active object at its
   * end, every other key of `dest` stays, and the active state is reset
   * with `active_` null.
   */
  lemma StoreIntoMoves(w: WriterState, pk: string, dest: Json)
    requires StoreIntoOk(w, pk, dest) && Stores(w, pk, dest)
    ensures var (r, d) := StoreInto(w, pk, dest);
      d.Obj? && At(d, pk).Arr?
      && At(d, pk).items == (if At(dest, pk).Null? then [] else At(dest, pk).items) + [TrimWritten(w).active]
      && (forall x :: x != pk ==> At(d, x) == At(dest, x))
      && r == WriterState(w.stored, w.stowed, Null, [], w.unstowKey, false, false, false)
  {
  }

  /** A `store` that does not move changes nothing but the null it leaves at a missing slot. */
  lemma StoreIntoRefused(w: WriterState, pk: string, dest: Json)
    requires StoreIntoOk(w, pk, dest) && !Stores(w, pk, dest)
    ensures var (r, d) := StoreInto(w, pk, dest);
      r == w && d.Obj? && pk in d.fields && forall x :: At(d, x) == At(dest, x)
  {
  }

  /** Every slot of `stored_` holds null or an array. */
  predicate StoredListed(w: WriterState)
  {
    Keyed(w.stored) && forall x :: x in Fields(w.stored) ==> Listed(Fields(w.stored)[x])
  }

  /**
   * Starting from a writer whose `stored_` slots are all lists,
   * `store(pk)` moves the unstowed active object whenever there is one,
   * and the slots stay lists.
   */
  lemma StoreKeepsListed(w: WriterState, pk: string)
    requires StoreOk(w, pk) && StoredListed(w)
    ensures StoredListed(Store(w, pk))
    ensures Stores(Unstow(w), pk, Unstow(w).stored) <==> !Empty(Unstow(w).active)
  {
    var u := Unstow(w);
    var (v, d) := StoreInto(u, pk, u.stored);
    if Stores(u, pk, u.stored) {
      StoreIntoMoves(u, pk, u.stored);
      forall x | x in Fields(d) ensures Listed(Fields(d)[x]) {
        if x != pk {
          assert At(d, x) == At(u.stored, x);
        }
      }
    } else {
      StoreIntoRefused(u, pk, u.stored);
      forall x | x in Fields(d) ensures Listed(Fields(d)[x]) {
        assert At(d, x) == At(u.stored, x);
      }
    }
  }

  /** `unstow()` with nothing stowed only forgets the unstow key. */
  lemma UnstowNothing(w: WriterState)
    requires UnstowOk(w) && Empty(w.stowed)
    ensures Unstow(w) == w.(unstowKey := [])
  {
  }

  /** `stow_for(k)` with nothing stowed: the active object is stowed, the active state is fresh, and `k` is remembered. */
  lemma StowForEmpty(w: WriterState, k: string)
    requires UnstowOk(w) && Empty(w.stowed)
    ensures StowFor(w, k) == WriterState(w.stored, w.active, Null, [], k, false, false, false)
  {
  }

  /**
   * Stowing and unstowing nest: what is written between `stow_for(k)` and
   * `unstow()` comes back appended under `k` in the object that was
   * active, every other key of which is as it was.
   */
  lemma StowThenUnstow(w: WriterState, k: string, w2: WriterState)
    requires UnstowOk(w) && Empty(w.stowed) && !Empty(w.active) && Listed(At(w.active, k))
    requires Inv(w2) && ValOk(w2) && !Empty(w2.active)
    requires w2.stowed == StowFor(w, k).stowed && w2.unstowKey == StowFor(w, k).unstowKey
    ensures UnstowOk(w2)
    ensures var r := Unstow(w2);
      r.stowed == Null && r.unstowKey == [] && r.key == [] && r.active.Obj?
      && At(r.active, k).Arr?
      && At(r.active, k).items == (if At(w.active, k).Null? then [] else At(w.active, k).items) + [TrimWritten(w2).active]
      && forall x :: x != k ==> At(r.active, x) == At(w.active, x)
  {
    StowForEmpty(w, k);
    assert Stores(w2, k, w2.stowed);
    StoreIntoMoves(w2, k, w2.stowed);
  }

  /** With nothing written between `stow_for(k)` and `unstow()`, the stowed object comes back with a null at `k` if it had nothing there. */
  lemma StowThenUnstowNothing(w: WriterState, k: string, w2: WriterState)
    requires UnstowOk(w) && Empty(w.stowed) && !Empty(w.active)
    requires Inv(w2) && Empty(w2.active)
    requires w2.stowed == StowFor(w, k).stowed && w2.unstowKey == StowFor(w, k).unstowKey
    ensures UnstowOk(w2)
    ensures var r := Unstow(w2);
      r.stowed == Null && r.unstowKey == [] && r.active.Obj? && k in r.active.fields
      && (forall x :: At(r.active, x) == At(w.active, x))
      && r.key == w2.key && r.writing == w2.writing && r.justWritten == w2.justWritten
  {
    StowForEmpty(w, k);
    StoreIntoRefused(w2, k, w2.stowed);
  }

  /** `stow_for` of an empty active object stows nothing, so the next `unstow` does not nest. */
  lemma StowNothingUnnested(w: WriterState, k: string, w2: WriterState)
    requires UnstowOk(w) && Empty(w.stowed) && Empty(w.active)
    requires Inv(w2) && w2.stowed == StowFor(w, k).stowed
    ensures UnstowOk(w2) && Unstow(w2) == w2.(unstowKey := [])
  {
    StowForEmpty(w, k);
  }

  /** Every getter that reaches `val_()` leaves a string under a set key, "" where there was nothing. */
  lemma WrittenMaterializes(w: WriterState)
    requires ValOk(w) && KeySet(w)
    ensures var u := Written(w).1;
      At(u.active, w.key) == Str(Val(w)) && w.key in u.active.fields
      && (At(w.active, w.key).Null? ==> At(u.active, w.key) == Str([]))
      && u == w.(active := u.active)
  {
  }

  /**
   * `set_key(k)` first unstows; then the value under the old key loses its
   * trailing whitespace (and the key goes when nothing is left), every
   * other key keeps its value, and the session starts again at `k`.
   */
  lemma SetKeyTrimsFirst(w: WriterState, k: string)
    requires SetKeyOk(w)
    ensures var u := Unstow(w); var r := SetKey(w, k);
      r.key == k && !r.justWritten && r.unstowKey == [] && r.stored == w.stored &&
      r.stowed == u.stowed && r.writing == u.writing && r.toSkip == u.toSkip && Inv(r)
    ensures var u := Unstow(w); var r := SetKey(w, k);
      KeySet(u) ==>
        Text(r.active, u.key) == TrimRight(Val(u)) &&
        (TrimRight(Val(u)) == [] <==> u.key !in r.active.fields) &&
        (forall x :: x != u.key ==> At(r.active, x) == At(u.active, x))
    ensures var u := Unstow(w); !KeySet(u) ==> SetKey(w, k).active == u.active
    ensures SetKey(w, k) == TrimWritten(Unstow(w)).(key := k, justWritten := false)
  {
  }

  /** `reset()` leaves nothing stored, nothing written and the flags down, keeping only what is stowed. */
  lemma ResetClears(w: WriterState)
    requires Inv(w)
    ensures var r := Reset(w);
      Empty(r.stored) && Empty(r.active) && r.key == [] && !r.writing && !r.justWritten && !r.toSkip
      && r.stowed == w.stowed && r.unstowKey == w.unstowKey
  {
  }
}
