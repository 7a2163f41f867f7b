/**
 * The part of nlohmann::json the writers use: null, strings, arrays and
 * objects keyed by strings, with `empty`, `clear`, `push_back`, `erase`
 * and the inserting `operator[]`. An object's keys are unordered here,
 * as they are compared only by name.
 */
module Json {
  import opened CStrings

  datatype Json = Null | Str(s: string) | Arr(items: seq<Json>) | Obj(fields: map<string, Json>)

  /** `empty()`: true of null and of arrays and objects without elements, false of strings. */
  predicate Empty(j: Json)
  {
    match j
    case Null => true
    case Str(_) => false
    case Arr(a) => a == []
    case Obj(m) => m == map[]
  }

  /** `clear()`: the value keeps its type and loses its contents; null stays null. */
  function Clear(j: Json): (r: Json)
    ensures r.Null? == j.Null? && r.Str? == j.Str? && r.Arr? == j.Arr? && r.Obj? == j.Obj?
    ensures r.Str? ==> r.s == []
    ensures !r.Str? ==> Empty(r)
  {
    match j
    case Null => Null
    case Str(_) => Str([])
    case Arr(_) => Arr([])
    case Obj(_) => Obj(map[])
  }

  /** The values `operator[]` with a key accepts: null turns into an object, anything else but an object throws. */
  predicate Keyed(j: Json)
  {
    j.Null? || j.Obj?
  }

  function Fields(j: Json): map<string, Json>
    requires Keyed(j)
  {
    if j.Null? then map[] else j.fields
  }

  /** The value under `k`, and null where there is none. */
  function At(j: Json, k: string): (r: Json)
    requires Keyed(j)
    ensures k !in Fields(j) ==> r == Null
    ensures k in Fields(j) ==> r == Fields(j)[k]
  {
    if k in Fields(j) then Fields(j)[k] else Null
  }

  /** `j[k] = v`: an object with `v` under `k` and every other key as before. */
  function Put(j: Json, k: string, v: Json): (r: Json)
    requires Keyed(j)
    ensures r.Obj? && k in r.fields && At(r, k) == v
    ensures r.fields.Keys == Fields(j).Keys + {k}
    ensures forall x :: x != k ==> At(r, x) == At(j, x)
  {
    Obj(Fields(j)[k := v])
  }

  /** `j[k]` used as a place: a missing key is inserted with null. */
  function Index(j: Json, k: string): (r: Json)
    requires Keyed(j)
    ensures r.Obj? && k in r.fields && r.fields.Keys == Fields(j).Keys + {k}
    ensures forall x :: At(r, x) == At(j, x)
  {
    if k in Fields(j) then Obj(Fields(j)) else Put(j, k, Null)
  }

  /** `erase(k)` on an object. */
  function Erase(j: Json, k: string): (r: Json)
    requires j.Obj?
    ensures r.Obj? && k !in r.fields && r.fields.Keys == j.fields.Keys - {k}
    ensures forall x :: x != k ==> At(r, x) == At(j, x)
  {
    Obj(j.fields - {k})
  }

  /** The values `push_back` accepts: null turns into an array. */
  predicate Listed(j: Json)
  {
    j.Null? || j.Arr?
  }

  /** `push_back(x)`. */
  function PushBack(j: Json, x: Json): (r: Json)
    requires Listed(j)
    ensures r.Arr? && r.items == (if j.Null? then [] else j.items) + [x]
  {
    if j.Null? then Arr([x]) else Arr(j.items + [x])
  }

  // ---------------------------------------------------------------------
  // The string under the handled key, as `val_()` reaches it
  // ---------------------------------------------------------------------

  /**
   * `val_()` hands out the string under `k` after turning a null there into
   * "". Anything else under `k` is not a string and the pointer is null.
   */
  predicate Writable(j: Json, k: string)
  {
    Keyed(j) && (At(j, k).Null? || At(j, k).Str?)
  }

  /** The string `val_()` points to. */
  function Text(j: Json, k: string): string
    requires Writable(j, k)
  {
    if At(j, k).Str? then At(j, k).s else []
  }

  /** What calling `val_()` leaves behind: the key holds a string. */
  function Materialized(j: Json, k: string): (r: Json)
    requires Writable(j, k)
    ensures r.Obj? && At(r, k) == Str(Text(j, k)) && Writable(r, k) && Text(r, k) == Text(j, k)
    ensures r.fields.Keys == Fields(j).Keys + {k}
    ensures forall x :: x != k ==> At(r, x) == At(j, x)
  {
    if At(j, k).Str? then Obj(Fields(j)) else Put(j, k, Str([]))
  }

  /** `val_()->append(s)`. */
  function Appended(j: Json, k: string, s: string): (r: Json)
    requires Writable(j, k)
    ensures Writable(r, k) && Text(r, k) == Text(j, k) + s && r.Obj?
    ensures r.fields.Keys == Fields(j).Keys + {k}
    ensures forall x :: x != k ==> At(r, x) == At(j, x)
  {
    Put(j, k, Str(Text(j, k) + s))
  }

  /** A string without its trailing `isspace` characters. */
  function TrimRight(s: string): (r: string)
    ensures r <= s
    ensures r == [] || !IsSpace(r[|r| - 1])
    ensures forall i :: |r| <= i < |s| ==> IsSpace(s[i])
  {
    if s == [] || !IsSpace(s[|s| - 1]) then s else TrimRight(s[..|s| - 1])
  }

  /** Trimming twice is trimming once. */
  lemma TrimRightIdempotent(s: string)
    ensures TrimRight(TrimRight(s)) == TrimRight(s)
  {
  }

  /** The trimmed string is the longest prefix that does not end in whitespace. */
  lemma {:induction false} TrimRightLongest(s: string, p: string)
    requires p <= s && forall i :: |p| <= i < |s| ==> IsSpace(s[i])
    ensures TrimRight(s) <= p
    decreases |s|
  {
    if s != [] && IsSpace(s[|s| - 1]) && |p| < |s| {
      assert p <= s[..|s| - 1];
      TrimRightLongest(s[..|s| - 1], p);
      assert TrimRight(s) == TrimRight(s[..|s| - 1]);
    } else if s != [] && !IsSpace(s[|s| - 1]) {
      assert |p| == |s|;
      assert p == s;
    }
  }

  /**
   * The trim loop of the writers: trailing whitespace goes, and a value
   * left empty is erased with its key.
   */
  function Trimmed(j: Json, k: string): (r: Json)
    requires Writable(j, k)
    ensures r.Obj? && Writable(r, k)
    ensures TrimRight(Text(j, k)) == [] ==> k !in r.fields
    ensures TrimRight(Text(j, k)) != [] ==> At(r, k) == Str(TrimRight(Text(j, k)))
    ensures Text(r, k) == TrimRight(Text(j, k))
    ensures forall x :: x != k ==> At(r, x) == At(j, x)
  {
    var v := TrimRight(Text(j, k));
    if v == [] then Erase(Put(j, k, Str(v)), k) else Put(j, k, Str(v))
  }
}
