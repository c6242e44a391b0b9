/** `VariableStack` (src/components/structured-language/VariableStack.cpp):
    gives each variable an 8-byte slot on the machine stack. */
module VariableStacks {
  import opened Wrappers

  /** The locations after pushing `variables` with the counter at `next`:
      every name draws the next slot, and `std::map::insert` keeps the slot a
      name already has. */
  function PushAll(locations: map<string, int>, next: int, variables: seq<string>): map<string, int>
    decreases |variables|
  {
    if variables == [] then locations
    else
      var v := variables[0];
      PushAll(if v in locations then locations else locations[v := next], next + 8, variables[1..])
  }

  /** The slot layout the stack keeps: slots are distinct multiples of 8
      below the counter, which is itself a non-negative multiple of 8. */
  predicate SlotsValid(locations: map<string, int>, next: int)
  {
    0 <= next && next % 8 == 0 &&
    (forall v :: v in locations ==> 0 <= locations[v] < next && locations[v] % 8 == 0) &&
    (forall v, w :: v in locations && w in locations && v != w ==> locations[v] != locations[w])
  }

  /** Index of the first occurrence of `v` in `variables`. */
  function FirstIndex(variables: seq<string>, v: string): (i: nat)
    requires v in variables
    ensures i < |variables| && variables[i] == v && v !in variables[..i]
  {
    if variables[0] == v then 0 else 1 + FirstIndex(variables[1..], v)
  }

  /** The slot `location` reports for `variable` in a stack holding
      `locations`. */
  function LocationOf(locations: map<string, int>, variable: string): Result<int>
  {
    if variable in locations then Ok(locations[variable]) else Err("No variable in stack: '" + variable + "'.")
  }

  class VariableStack {
    var locations: map<string, int>
    var currentLocation: int

    ghost predicate Valid()
      reads this
    {
      SlotsValid(locations, currentLocation)
    }

    constructor ()
      ensures locations == map[] && currentLocation == 0 && Valid()
    {
      locations := map[];
      currentLocation := 0;
    }

    /** Returns the counter and advances it by one slot. */
    method NextLocation() returns (location: int)
      requires Valid()
      modifies this
      ensures Valid()
      ensures location == old(currentLocation) && currentLocation == old(currentLocation) + 8
      ensures locations == old(locations)
    {
      location := currentLocation;
      currentLocation := currentLocation + 8;
    }

    method Push(variables: seq<string>)
      requires Valid()
      modifies this
      ensures Valid()
      ensures locations == PushAll(old(locations), old(currentLocation), variables)
      ensures currentLocation == old(currentLocation) + 8 * |variables|
    {
      var i := 0;
      while i < |variables|
        invariant 0 <= i <= |variables|
        invariant Valid()
        invariant currentLocation == old(currentLocation) + 8 * i
        invariant PushAll(old(locations), old(currentLocation), variables) ==
          PushAll(locations, currentLocation, variables[i..])
      {
        var v := variables[i];
        assert variables[i..][1..] == variables[i + 1..];
        var location := NextLocation();
        if v !in locations {
          locations := locations[v := location];
        }
        i := i + 1;
      }
    }

    /** `location`: the slot of a stored name; asking for any other name is
        an error naming it. */
    method Location(variable: string) returns (r: Result<int>)
      requires Valid()
      ensures r == LocationOf(locations, variable)
      ensures r.Ok? ==> 0 <= r.value < currentLocation && r.value % 8 == 0
      ensures variable in locations ==> r == Ok(locations[variable])
      ensures variable !in locations ==> r == Err("No variable in stack: '" + variable + "'.")
    {
      if variable in locations {
        r := Ok(locations[variable]);
      } else {
        r := Err("No variable in stack: '" + variable + "'.");
      }
    }

    /** The bytes in use: one slot per stored name. */
    method Size() returns (n: int)
      ensures n == 8 * |locations.Keys|
    {
      n := |locations.Keys| * 8;
    }
  }

  /** Pushing keeps the slot layout: new slots are fresh multiples of 8. */
  lemma {:induction false} PushAllKeepsSlotsValid(locations: map<string, int>, next: int, variables: seq<string>)
    requires SlotsValid(locations, next)
    ensures SlotsValid(PushAll(locations, next, variables), next + 8 * |variables|)
    decreases |variables|
  {
    if variables != [] {
      var v := variables[0];
      var m := if v in locations then locations else locations[v := next];
      assert SlotsValid(m, next + 8);
      PushAllKeepsSlotsValid(m, next + 8, variables[1..]);
    }
  }

  /** A name that already has a slot keeps it, and every pushed name ends up
      with one. */
  lemma {:induction false} PushAllKeepsExisting(locations: map<string, int>, next: int, variables: seq<string>)
    ensures forall v :: v in locations ==>
      (v in PushAll(locations, next, variables) && PushAll(locations, next, variables)[v] == locations[v])
    ensures forall v :: v in variables ==> v in PushAll(locations, next, variables)
    ensures forall v :: v in PushAll(locations, next, variables) ==> v in locations || v in variables
    decreases |variables|
  {
    if variables != [] {
      var v := variables[0];
      var m := if v in locations then locations else locations[v := next];
      PushAllKeepsExisting(m, next + 8, variables[1..]);
    }
  }

  /** A name that had no slot gets the slot of its first occurrence: the
      counter plus 8 for every name pushed before it, slots being used up
      also by names that were already present. */
  lemma {:induction false} PushAllNewSlot(locations: map<string, int>, next: int, variables: seq<string>, v: string)
    requires v !in locations && v in variables
    ensures v in PushAll(locations, next, variables)
    ensures PushAll(locations, next, variables)[v] == next + 8 * FirstIndex(variables, v)
    decreases |variables|
  {
    var w := variables[0];
    var m := if w in locations then locations else locations[w := next];
    if w == v {
      PushAllKeepsExisting(m, next + 8, variables[1..]);
    } else {
      assert v in variables[1..];
      PushAllNewSlot(m, next + 8, variables[1..], v);
    }
  }
}
