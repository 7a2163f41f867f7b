/**
 * The fixed-size map over pairs given in ascending key order, searched by
 * bisection. Keys are characters, as in the trie's children maps; a
 * position equal to the number of entries plays the part of `end()`.
 */
module SortedMap {
  /** What the search relies on: keys never decrease along the entries. */
  predicate SortedKeys<V>(s: seq<(char, V)>)
  {
    forall i, j :: 0 <= i < j < |s| ==> s[i].0 <= s[j].0
  }

  /**
   * The bisection of `find` on the window [begin, end): probe the middle,
   * keep the half that can still hold the key; `|s|` when the window empties.
   */
  function SearchIn<V>(s: seq<(char, V)>, key: char, begin: nat, end: nat): (r: nat)
    requires begin <= end <= |s|
    decreases end - begin
    ensures r == |s| || (begin <= r < end && s[r].0 == key)
    ensures SortedKeys(s) ==> (r == |s| <==> forall i :: begin <= i < end ==> s[i].0 != key)
  {
    if begin >= end then |s|
    else
      var mid := begin + (end - begin) / 2;
      if key == s[mid].0 then mid
      else if key < s[mid].0 then SearchIn(s, key, begin, mid)
      else SearchIn(s, key, mid + 1, end)
  }

  /** The search over the whole map: the position of an entry with the key, or `|s|` for none. */
  function Search<V>(s: seq<(char, V)>, key: char): (r: nat)
    ensures r <= |s|
    ensures r < |s| ==> s[r].0 == key
    ensures SortedKeys(s) ==> (r == |s| <==> forall i :: 0 <= i < |s| ==> s[i].0 != key)
  {
    SearchIn(s, key, 0, |s|)
  }

  class Map<V> {
    const mapping: array<(char, V)>

    /** The pairs are stored in the given order. */
    constructor (data: seq<(char, V)>)
      ensures mapping[..] == data
      ensures End() - Begin() == |data|
    {
      mapping := new (char, V)[|data|](i requires 0 <= i < |data| => data[i]);
    }

    predicate Sorted()
      reads mapping
    {
      SortedKeys(mapping[..])
    }

    function Begin(): nat
    {
      0
    }

    function End(): nat
    {
      mapping.Length
    }

    /** `find`: the loop of `SearchIn`, narrowing [begin, end) with `mid` kept in step. */
    method Find(key: char) returns (pos: nat)
      ensures pos == Search(mapping[..], key)
      ensures pos <= End()
      ensures pos < End() ==> mapping[pos].0 == key
      ensures Sorted() ==> (pos == End() <==> forall i :: 0 <= i < mapping.Length ==> mapping[i].0 != key)
    {
      var begin, end := 0, mapping.Length;
      var mid := begin + (end - begin) / 2;
      while begin < end
        invariant 0 <= begin <= end <= mapping.Length
        invariant mid == begin + (end - begin) / 2
        invariant SearchIn(mapping[..], key, begin, end) == Search(mapping[..], key)
        decreases end - begin
      {
        if key == mapping[mid].0 {
          return mid;
        } else if key < mapping[mid].0 {
          end := mid;
          mid := begin + (end - begin) / 2;
        } else {
          begin := mid + 1;
          mid := begin + (end - begin) / 2;
        }
      }
      return mapping.Length;
    }

    /** The non-const `find` forwards to the const one. */
    method FindMut(key: char) returns (pos: nat)
      ensures pos == Search(mapping[..], key)
    {
      pos := Find(key);
    }
  }

  /** The map of the unit test: 'a' -> 1 and 'b' -> 3; 'c' is absent. */
  method FindExample() returns (a: nat, b: nat, c: nat, size: nat)
    ensures a == 0 && b == 1 && c == size == 2
  {
    var m := new Map<int>([('a', 1), ('b', 3)]);
    assert m.mapping[0] == ('a', 1) && m.mapping[1] == ('b', 3);
    a := m.Find('a');
    b := m.Find('b');
    c := m.Find('c');
    size := m.End();
  }
}
