/**
 * The newer `JSONWriter` (src/core/parse/core/json_writer.hpp) as
 * functions on its state: three JSON values (`stored_`, `stowed_`,
 * `active_`), the handled key, the key to unstow at, and the
 * writing / just-written / skip flags. The class in JsonWriter is proved
 * to follow these functions; the lemmas here state what the writer
 * promises.
 */
module JsonWriterSpec {
  import opened CStrings
  import opened Json

  datatype WriterState = WriterState(
    stored: Json, stowed: Json, active: Json,
    key: string, unstowKey: string,
    writing: bool, justWritten: bool, toSkip: bool)

  const Initial := WriterState(Null, Null, Null, [], [], false, false, false)

  /** The three values stay nulls or objects, so keyed access never throws. */
  predicate Inv(w: WriterState)
  {
    Keyed(w.stored) && Keyed(w.stowed) && Keyed(w.active)
  }

  /** `key_set()`. */
  predicate KeySet(w: WriterState)
  {
    w.key != []
  }

  /** `writing()`: the flag is up and a key is set. */
  predicate IsWriting(w: WriterState)
  {
    w.writing && KeySet(w)
  }

  /** `val_()` can be reached safely: no key is set, or the value under it is null or a string. */
  predicate ValOk(w: WriterState)
  {
    !KeySet(w) || Writable(w.active, w.key)
  }

  /** The string under the handled key, as `val_()` sees it. */
  function Val(w: WriterState): string
    requires KeySet(w) && ValOk(w)
  {
    Text(w.active, w.key)
  }

  /** What the getters that call `val_()` leave behind: a string under the handled key. */
  function Touched(w: WriterState): (r: WriterState)
    requires ValOk(w)
    ensures ValOk(r) && (Inv(w) ==> Inv(r))
    ensures KeySet(w) ==> r == w.(active := Materialized(w.active, w.key))
    ensures !KeySet(w) ==> r == w
  {
    if KeySet(w) then w.(active := Materialized(w.active, w.key)) else w
  }

  /** `written()`: a key is set and its string is not empty. */
  function Written(w: WriterState): (r: (bool, WriterState))
    requires ValOk(w)
    ensures r.0 <==> KeySet(w) && Val(w) != []
    ensures r.1 == Touched(w)
  {
    (KeySet(w) && Text(w.active, w.key) != [], Touched(w))
  }

  /** `just_written()`: written, and in a continuous write session. */
  function JustWritten(w: WriterState): (r: (bool, WriterState))
    requires ValOk(w)
    ensures r.0 <==> KeySet(w) && Val(w) != [] && w.justWritten
    ensures r.1 == Touched(w)
  {
    var (b, u) := Written(w);
    (b && w.justWritten, u)
  }

  /** `write(s, counts)`: appends when a key is set; a counting write starts a session. */
  function Write(w: WriterState, s: string, counts: bool): (r: WriterState)
    requires ValOk(w)
    ensures ValOk(r) && (Inv(w) ==> Inv(r))
    ensures !KeySet(w) ==> r == w
    ensures KeySet(w) ==> r == w.(active := r.active, justWritten := r.justWritten)
    ensures KeySet(w) ==> Val(r) == Val(w) + s && r.justWritten == (w.justWritten || counts)
  {
    if KeySet(w) then w.(active := Appended(w.active, w.key, s), justWritten := w.justWritten || counts)
    else w
  }

  /** `find_first_not_of(' ')`, with |s| for npos. */
  function FirstNotSpace(s: string): (k: nat)
    ensures k <= |s| && (k < |s| ==> s[k] != ' ')
    ensures forall i :: 0 <= i < k ==> s[i] == ' '
  {
    if s == [] then 0 else if s[0] != ' ' then 0 else 1 + FirstNotSpace(s[1..])
  }

  /** The body of `feed(s)` when writing and not skipping. */
  function FedValue(w: WriterState, s: string): (r: WriterState)
    requires IsWriting(w) && ValOk(w)
    ensures KeySet(r) && ValOk(r) && (Inv(w) ==> Inv(r))
  {
    var (cont, u) := JustWritten(w);
    if cont then Write(u, s, true)
    else
      var k := FirstNotSpace(s);
      if k == |s| then u
      else
        var (sep, u2) := Written(u);
        Write(if sep then Write(u2, " ", false) else u2, CStr(s[k..]), true)
  }

  /**
   * `feed(s)`: nothing happens unless writing; while writing, a skip is
   * used up without writing, and every call clears the skip.
   */
  function Feed(w: WriterState, s: string): (r: WriterState)
    requires ValOk(w)
    ensures ValOk(r) && (Inv(w) ==> Inv(r))
    ensures !IsWriting(w) ==> r == w
    ensures IsWriting(w) ==> !r.toSkip && KeySet(r)
    ensures IsWriting(w) && w.toSkip ==> r == w.(toSkip := false)
  {
    if !IsWriting(w) then w
    else (if w.toSkip then w else FedValue(w, s)).(toSkip := false)
  }

  /** `trim_written()`. */
  function TrimWritten(w: WriterState): (r: WriterState)
    requires ValOk(w)
    ensures ValOk(r) && (Inv(w) ==> Inv(r))
    ensures r == w.(active := r.active)
  {
    if KeySet(w) then w.(active := Trimmed(w.active, w.key)) else w
  }

  /** `reset_active()`. */
  function ResetActive(w: WriterState): (r: WriterState)
    ensures ValOk(r) && (Inv(w) ==> Inv(r))
    ensures r.key == [] && !r.writing && !r.justWritten && !r.toSkip
    ensures r.stored == w.stored && r.stowed == w.stowed && r.unstowKey == w.unstowKey
  {
    w.(active := Clear(w.active), key := [], writing := false, justWritten := false, toSkip := false)
  }

  /** `reset()`. */
  function Reset(w: WriterState): (r: WriterState)
    ensures ValOk(r) && (Inv(w) ==> Inv(r))
  {
    ResetActive(w.(stored := Clear(w.stored)))
  }

  /** Whether `store(pk, dest)` moves `active_`: something was written and the slot is null or an array. */
  predicate Stores(w: WriterState, pk: string, dest: Json)
    requires Keyed(dest)
  {
    !Empty(w.active) && Listed(At(dest, pk))
  }

  predicate StoreIntoOk(w: WriterState, pk: string, dest: Json)
  {
    Keyed(dest) && (Stores(w, pk, dest) ==> ValOk(w))
  }

  /**
   * `store(pk, dest)`: the new writer state and the new `dest`. Looking the
   * slot up inserts a null there even when nothing is moved.
   */
  function StoreInto(w: WriterState, pk: string, dest: Json): (r: (WriterState, Json))
    requires StoreIntoOk(w, pk, dest)
    ensures (Inv(w) ==> Inv(r.0)) && r.1.Obj?
    ensures Stores(w, pk, dest) ==> ValOk(r.0)
    ensures !Stores(w, pk, dest) ==> r.0 == w
  {
    if Stores(w, pk, dest) then
      var t := TrimWritten(w);
      (ResetActive(t.(active := Null)), Put(dest, pk, PushBack(At(dest, pk), t.active)))
    else (w, Index(dest, pk))
  }

  predicate UnstowOk(w: WriterState)
  {
    Inv(w) && (!Empty(w.stowed) ==> StoreIntoOk(w, w.unstowKey, w.stowed))
  }

  /** `unstow()`. */
  function Unstow(w: WriterState): (r: WriterState)
    requires UnstowOk(w)
    ensures Inv(r) && r.unstowKey == [] && r.stored == w.stored
  {
    (if Empty(w.stowed) then w
     else
       var (u, d) := StoreInto(w, w.unstowKey, w.stowed);
       u.(active := d, stowed := Null)
    ).(unstowKey := [])
  }

  /** `stow_for(k)`. */
  function StowFor(w: WriterState, k: string): (r: WriterState)
    requires UnstowOk(w)
    ensures Inv(r) && ValOk(r)
  {
    var u := if !Empty(w.stowed) then Unstow(w) else w;
    ResetActive(u.(unstowKey := k, stowed := u.active, active := Null))
  }

  /** `start_writing()`. */
  function StartWriting(w: WriterState): (r: WriterState)
  {
    w.(writing := true, justWritten := false)
  }

  /** `stop_writing()`. */
  function StopWriting(w: WriterState): (r: WriterState)
    requires ValOk(w)
  {
    TrimWritten(w.(writing := false))
  }

  /** `skip_write()`. */
  function SkipWrite(w: WriterState): (r: WriterState)
  {
    w.(toSkip := true)
  }

  /** `set_key_active(k)`. */
  function SetKeyActive(w: WriterState, k: string): (r: WriterState)
    requires ValOk(w)
  {
    TrimWritten(w).(key := k, justWritten := false)
  }

  predicate SetKeyOk(w: WriterState)
  {
    UnstowOk(w) && ValOk(Unstow(w))
  }

  /** `set_key(k)`. */
  function SetKey(w: WriterState, k: string): (r: WriterState)
    requires SetKeyOk(w)
  {
    SetKeyActive(Unstow(w), k)
  }

  /** `clear_key()`. */
  function ClearKey(w: WriterState): (r: WriterState)
    requires SetKeyOk(w)
  {
    SetKey(w, [])
  }

  predicate StoreOk(w: WriterState, pk: string)
  {
    UnstowOk(w) && StoreIntoOk(Unstow(w), pk, Unstow(w).stored)
  }

  /** `store(pk)`: unstow, then store into `stored_`. */
  function Store(w: WriterState, pk: string): (r: WriterState)
    requires StoreOk(w, pk)
  {
    var u := Unstow(w);
    var (v, d) := StoreInto(u, pk, u.stored);
    v.(stored := d)
  }
}
