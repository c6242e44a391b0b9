/** `LinkedMap<T>` (src/components/data_structures/LinkedMap.h): a scoped
    symbol table kept as a list of maps whose last element is the front,
    innermost scope. */
module LinkedMaps {
  import opened Wrappers

  /** The value a key has in the front-most map holding it. */
  function Lookup<T>(maps: seq<map<string, T>>, key: string): Result<T>
  {
    if maps == [] then Err("No value at key " + key + " in LinkedMap.")
    else if key in maps[|maps| - 1] then Ok(maps[|maps| - 1][key])
    else Lookup(maps[..|maps| - 1], key)
  }

  /** The maps after inserting into the front one; `std::map::insert`
      leaves an existing binding alone. */
  function InsertFront<T>(maps: seq<map<string, T>>, key: string, value: T): (r: seq<map<string, T>>)
    requires |maps| > 0
    ensures |r| == |maps| && r[..|maps| - 1] == maps[..|maps| - 1]
  {
    var front := maps[|maps| - 1];
    maps[..|maps| - 1] + [if key in front then front else front[key := value]]
  }

  class LinkedMap<T> {
    var maps: seq<map<string, T>>
    var size: int

    /** There is always at least one map, and `_size` counts them. */
    ghost predicate Valid()
      reads this
    {
      size == |maps| && size >= 1
    }

    constructor ()
      ensures maps == [map[]] && size == 1 && Valid()
    {
      maps := [map[]];
      size := 1;
    }

    /** `at`: searches from the front map backwards. */
    method At(key: string) returns (r: Result<T>)
      ensures r == Lookup(maps, key)
    {
      var i := |maps|;
      assert maps[..i] == maps;
      while i > 0
        invariant 0 <= i <= |maps|
        invariant Lookup(maps, key) == Lookup(maps[..i], key)
      {
        assert maps[..i][..i - 1] == maps[..i - 1];
        if key in maps[i - 1] {
          return Ok(maps[i - 1][key]);
        }
        i := i - 1;
      }
      r := Err("No value at key " + key + " in LinkedMap.");
    }

    /** `contains`: whether some map binds the key. */
    method Contains(key: string) returns (b: bool)
      ensures b <==> exists i :: 0 <= i < |maps| && key in maps[i]
    {
      var i := |maps|;
      while i > 0
        invariant 0 <= i <= |maps|
        invariant forall j :: i <= j < |maps| ==> key !in maps[j]
      {
        if key in maps[i - 1] {
          return true;
        }
        i := i - 1;
      }
      b := false;
    }

    method Front() returns (m: map<string, T>)
      requires Valid()
      ensures m == maps[|maps| - 1]
    {
      m := maps[|maps| - 1];
    }

    method Insert(key: string, value: T)
      requires Valid()
      modifies this
      ensures maps == InsertFront(old(maps), key, value) && size == old(size) && Valid()
    {
      var front := maps[|maps| - 1];
      if key !in front {
        front := front[key := value];
      }
      maps := maps[..|maps| - 1] + [front];
    }

    method PushFront()
      modifies this
      ensures maps == old(maps) + [map[]] && size == old(size) + 1
    {
      maps := maps + [map[]];
      size := size + 1;
    }

    /** Drops the front map unless it is the only one. */
    method PopFront()
      requires Valid()
      modifies this
      ensures old(size) > 1 ==> maps == old(maps)[..|old(maps)| - 1] && size == old(size) - 1
      ensures old(size) <= 1 ==> maps == old(maps) && size == old(size)
      ensures Valid()
    {
      if size > 1 {
        maps := maps[..|maps| - 1];
        size := size - 1;
      }
    }
  }

  /** `at` finds a key exactly when some map binds it, and then returns the
      binding of the front-most such map: inner scopes shadow outer ones. */
  lemma {:induction false} LookupFindsFrontmost<T>(maps: seq<map<string, T>>, key: string)
    ensures Lookup(maps, key).Ok? <==> exists i :: 0 <= i < |maps| && key in maps[i]
    ensures Lookup(maps, key).Ok? ==>
      exists i :: 0 <= i < |maps| && key in maps[i] && Lookup(maps, key).value == maps[i][key] &&
        forall j :: i < j < |maps| ==> key !in maps[j]
  {
    if maps != [] && key !in maps[|maps| - 1] {
      var init := maps[..|maps| - 1];
      LookupFindsFrontmost(init, key);
      if Lookup(maps, key).Ok? {
        var i :| 0 <= i < |init| && key in init[i] && Lookup(init, key).value == init[i][key] &&
          forall j :: i < j < |init| ==> key !in init[j];
        assert key in maps[i];
      } else {
        forall i | 0 <= i < |maps|
          ensures key !in maps[i]
        {
          if i < |init| {
            assert maps[i] == init[i];
          }
        }
      }
    }
  }

  /** `contains` agrees with `at` succeeding. */
  lemma ContainsIffLookupSucceeds<T>(maps: seq<map<string, T>>, key: string)
    ensures (exists i :: 0 <= i < |maps| && key in maps[i]) <==> Lookup(maps, key).Ok?
  {
    LookupFindsFrontmost(maps, key);
  }

  /** After `insert(k, v)` the key is bound, to its old front binding if it
      had one and to `v` otherwise; every other key keeps its lookup. */
  lemma {:induction false} InsertFrontLookup<T>(maps: seq<map<string, T>>, key: string, value: T, other: string)
    requires |maps| > 0
    ensures Lookup(InsertFront(maps, key, value), key) ==
      Ok(if key in maps[|maps| - 1] then maps[|maps| - 1][key] else value)
    ensures other != key ==> Lookup(InsertFront(maps, key, value), other) == Lookup(maps, other)
  {
    var r := InsertFront(maps, key, value);
    assert r[|r| - 1] == (if key in maps[|maps| - 1] then maps[|maps| - 1] else maps[|maps| - 1][key := value]);
    assert r[..|r| - 1] == maps[..|maps| - 1];
  }

  /** `pushFront` adds an empty scope: every lookup is unchanged. */
  lemma PushFrontLookup<T>(maps: seq<map<string, T>>, key: string)
    ensures Lookup(maps + [map[]], key) == Lookup(maps, key)
  {
    assert (maps + [map[]])[..|maps|] == maps;
  }

  /** `pushFront; insert(k, v); popFront` gives back the maps it started
      from, so every lookup is restored. */
  lemma ScopedInsertRestores<T>(maps: seq<map<string, T>>, key: string, value: T)
    requires |maps| > 0
    ensures InsertFront(maps + [map[]], key, value)[..|maps|] == maps
    ensures Lookup(InsertFront(maps + [map[]], key, value)[..|maps|], key) == Lookup(maps, key)
  {
    assert (maps + [map[]])[..|maps|] == maps;
  }
}
