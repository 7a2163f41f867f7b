/**
 * The newer `JSONWriter` as an object: its fields are updated in place by
 * each method, and each method is proved to leave the state the matching
 * function of JsonWriterSpec describes.
 */
module JsonWriter {
  import opened CStrings
  import opened Json
  import opened JsonWriterSpec

  class JSONWriter {
    var stored: Json
    var stowed: Json
    var active: Json
    var key: string
    var unstowKey: string
    var writing: bool
    var justWritten: bool
    var toSkip: bool

    function State(): WriterState
      reads this
    {
      WriterState(stored, stowed, active, key, unstowKey, writing, justWritten, toSkip)
    }

    ghost predicate Valid()
      reads this
    {
      Inv(State())
    }

    constructor ()
      ensures Valid() && State() == Initial
    {
      stored, stowed, active := Null, Null, Null;
      key, unstowKey := [], [];
      writing, justWritten, toSkip := false, false, false;
    }

    /** `val_()`: the handled string, after a null there has become "". */
    method ValPtr() returns (v: string)
      requires Valid() && JsonWriterSpec.KeySet(State()) && ValOk(State())
      modifies this
      ensures Valid() && State() == Touched(old(State())) && v == Val(old(State()))
    {
      if At(active, key).Null? {
        active := Put(active, key, Str([]));
      } else {
        active := Obj(Fields(active));
      }
      v := Text(active, key);
    }

    /** `key_set()`. */
    function KeySet(): bool
      reads this
    {
      key != []
    }

    /** `writing()`. */
    function Writing(): bool
      reads this
    {
      writing && KeySet()
    }

    /** `skipping()`. */
    function Skipping(): bool
      reads this
    {
      toSkip
    }

    /** `anything_written()`. */
    function AnythingWritten(): bool
      reads this
    {
      !Empty(active)
    }

    /** `anything_stowed()`. */
    function AnythingStowed(): bool
      reads this
    {
      !Empty(stowed)
    }

    /** `written()`. */
    method Written() returns (b: bool)
      requires Valid() && ValOk(State())
      modifies this
      ensures Valid() && (b, State()) == JsonWriterSpec.Written(old(State()))
    {
      if key == [] {
        return false;
      }
      var v := ValPtr();
      b := v != [];
    }

    /** `just_written()`. */
    method JustWritten() returns (b: bool)
      requires Valid() && ValOk(State())
      modifies this
      ensures Valid() && (b, State()) == JsonWriterSpec.JustWritten(old(State()))
    {
      b := Written();
      b := b && justWritten;
    }

    /** `write(s, counts)`, for both the string and the character overload. */
    method Write(s: string, counts: bool)
      requires Valid() && ValOk(State())
      modifies this
      ensures Valid() && State() == JsonWriterSpec.Write(old(State()), s, counts)
    {
      if key != [] {
        var v := ValPtr();
        active := Put(active, key, Str(v + s));
        if counts {
          justWritten := true;
        }
      }
    }

    /** `feed(s)`. */
    method Feed(s: string)
      requires Valid() && ValOk(State())
      modifies this
      ensures Valid() && State() == JsonWriterSpec.Feed(old(State()), s)
    {
      if Writing() {
        if !Skipping() {
          var session := JustWritten();
          if session {
            Write(s, true);
          } else {
            var start := FirstNotSpace(s);
            if start != |s| {
              var sep := Written();
              if sep {
                Write(" ", false);
              }
              Write(CStr(s[start..]), true);
            }
          }
        }
        toSkip := false;
      }
    }

    /** `trim_written()`: pop trailing whitespace, then erase an empty value's key. */
    method TrimWritten()
      requires Valid() && ValOk(State())
      modifies this
      ensures Valid() && State() == JsonWriterSpec.TrimWritten(old(State()))
    {
      if key != [] {
        ghost var j := active;
        var v := ValPtr();
        while v != [] && IsSpace(v[|v| - 1])
          invariant Writable(j, key) && TrimRight(v) == TrimRight(Text(j, key))
          invariant active == Put(j, key, Str(v))
          invariant State() == old(State()).(active := active)
          decreases |v|
        {
          v := v[..|v| - 1];
          active := Put(active, key, Str(v));
          assert active.fields == Fields(j)[key := Str(v)];
        }
        if v == [] {
          active := Erase(active, key);
        }
      }
    }

    /** `reset_active()`. */
    method ResetActive()
      requires Valid()
      modifies this
      ensures Valid() && State() == JsonWriterSpec.ResetActive(old(State()))
    {
      active := Clear(active);
      key := [];
      writing, justWritten, toSkip := false, false, false;
    }

    /** `reset()`. */
    method Reset()
      requires Valid()
      modifies this
      ensures Valid() && State() == JsonWriterSpec.Reset(old(State()))
    {
      stored := Clear(stored);
      ResetActive();
    }

    /** `store(pk, dest)`: `dest` is passed in and handed back. */
    method StoreInto(pk: string, dest: Json) returns (d: Json)
      requires Valid() && StoreIntoOk(State(), pk, dest)
      modifies this
      ensures Valid() && (State(), d) == JsonWriterSpec.StoreInto(old(State()), pk, dest)
    {
      var slot := At(dest, pk);
      d := Index(dest, pk);
      if AnythingWritten() && Listed(slot) {
        TrimWritten();
        d := Put(d, pk, PushBack(slot, active));
        assert d == Put(dest, pk, PushBack(slot, active));
        active := Null;
        ResetActive();
      }
    }

    /** `unstow()`. */
    method Unstow()
      requires UnstowOk(State())
      modifies this
      ensures Valid() && State() == JsonWriterSpec.Unstow(old(State()))
    {
      if AnythingStowed() {
        var d := StoreInto(unstowKey, stowed);
        stowed := d;
        active := stowed;
        stowed := Null;
      }
      unstowKey := [];
    }

    /** `stow_for(k)`. */
    method StowFor(k: string)
      requires UnstowOk(State())
      modifies this
      ensures Valid() && State() == JsonWriterSpec.StowFor(old(State()), k)
    {
      if AnythingStowed() {
        Unstow();
      }
      unstowKey := k;
      stowed := active;
      active := Null;
      ResetActive();
    }

    /** `start_writing()`. */
    method StartWriting()
      modifies this
      ensures State() == JsonWriterSpec.StartWriting(old(State()))
    {
      writing := true;
      justWritten := false;
    }

    /** `stop_writing()`. */
    method StopWriting()
      requires Valid() && ValOk(State())
      modifies this
      ensures Valid() && State() == JsonWriterSpec.StopWriting(old(State()))
    {
      writing := false;
      TrimWritten();
    }

    /** `skip_write()`. */
    method SkipWrite()
      modifies this
      ensures State() == JsonWriterSpec.SkipWrite(old(State()))
    {
      toSkip := true;
    }

    /** `set_key_active(k)`. */
    method SetKeyActive(k: string)
      requires Valid() && ValOk(State())
      modifies this
      ensures Valid() && State() == JsonWriterSpec.SetKeyActive(old(State()), k)
    {
      TrimWritten();
      key := k;
      justWritten := false;
    }

    /** `set_key(k)`. */
    method SetKey(k: string)
      requires SetKeyOk(State())
      modifies this
      ensures Valid() && State() == JsonWriterSpec.SetKey(old(State()), k)
    {
      Unstow();
      SetKeyActive(k);
    }

    /** `clear_key()`. */
    method ClearKey()
      requires SetKeyOk(State())
      modifies this
      ensures Valid() && State() == JsonWriterSpec.ClearKey(old(State()))
    {
      SetKey([]);
    }

    /** `store(pk)`. */
    method Store(pk: string)
      requires StoreOk(State(), pk)
      modifies this
      ensures Valid() && State() == JsonWriterSpec.Store(old(State()), pk)
    {
      Unstow();
      var d := StoreInto(pk, stored);
      stored := d;
    }
  }
}
