/** main/manager/device_manager.c: the device table. */
module DeviceManager {
  import opened Types

  const MAX_DEVICES: nat := 8

  /** The first place of an id in the table, its length if there is none. */
  function Find(t: seq<Device>, id: bv8): (k: nat)
    ensures k <= |t| && (forall i | 0 <= i < k :: t[i].id != id) && (k < |t| ==> t[k].id == id)
  {
    if t == [] || t[0].id == id then 0 else 1 + Find(t[1..], id)
  }

  /** The first record with the id is replaced, and no other. */
  function Updated(t: seq<Device>, id: bv8, d: Device): (u: seq<Device>)
    ensures |u| == |t|
    ensures forall k | 0 <= k < |t| ::
              u[k] == if t[k].id == id && (forall i | 0 <= i < k :: t[i].id != id) then d else t[k]
  {
    if Find(t, id) < |t| then t[Find(t, id) := d] else t
  }

  predicate Listed(d: Device) {
    d.id != 0 && d.online
  }

  function ListedOf(t: seq<Device>): seq<Device> {
    if t == [] then [] else ListedOf(t[..|t| - 1]) + if Listed(t[|t| - 1]) then [t[|t| - 1]] else []
  }

  /** The places of the listed devices. */
  ghost function Places(t: seq<Device>): (ps: seq<nat>)
    ensures forall j | 0 <= j < |ps| :: ps[j] < |t|
  {
    if t == [] then [] else Places(t[..|t| - 1]) + if Listed(t[|t| - 1]) then [|t| - 1] else []
  }

  /** The list is the table read at increasing places, and these are the places of all devices with an id that are
      online. */
  lemma {:induction false} ListedInTableOrder(t: seq<Device>)
    ensures |Places(t)| == |ListedOf(t)|
    ensures forall j | 0 <= j < |Places(t)| :: ListedOf(t)[j] == t[Places(t)[j]] && Listed(t[Places(t)[j]])
    ensures forall i, j | 0 <= i < j < |Places(t)| :: Places(t)[i] < Places(t)[j]
    ensures forall k: nat | k < |t| && Listed(t[k]) :: k in Places(t)
    decreases |t|
  {
    if t != [] {
      ListedInTableOrder(t[..|t| - 1]);
    }
  }

  function FirstOf(s: seq<Device>, n: int): seq<Device> {
    if n <= 0 then [] else if n < |s| then s[..n] else s
  }

  /** The call copies the longest beginning of the list that has at most `n` devices; room for the whole table is room
      for the whole list. */
  lemma FirstOfListed(t: seq<Device>, n: int, got: seq<Device>)
    ensures got == FirstOf(ListedOf(t), n) <==>
              && got <= ListedOf(t)
              && |got| == if n <= 0 then 0 else if n <= |ListedOf(t)| then n else |ListedOf(t)|
    ensures |t| <= n ==> FirstOf(ListedOf(t), n) == ListedOf(t)
  {
    ListedAtMost(t);
  }

  lemma {:induction false} ListedAtMost(t: seq<Device>)
    ensures |ListedOf(t)| <= |t|
  {
    if t != [] {
      ListedAtMost(t[..|t| - 1]);
    }
  }

  class Manager {
    const table: array<Device>
    var ready: bool             // whether the mutex exists

    ghost predicate Valid() {
      table.Length == MAX_DEVICES
    }

    constructor ()
      ensures Valid() && fresh(table) && !ready
      ensures forall i | 0 <= i < MAX_DEVICES :: table[i] == CLEARED
    {
      table := new Device[MAX_DEVICES](_ => CLEARED);
      ready := false;
    }

    /** `device_manager_init`: three devices, offline. */
    method Init()
      requires Valid()
      modifies this`ready, table
      ensures Valid() && ready
      ensures table[0].id == 1 && table[1].id == 2 && table[2].id == 3
      ensures forall i | 0 <= i < 3 :: !table[i].online
      ensures forall i | 3 <= i < MAX_DEVICES :: table[i] == CLEARED
    {
      ready := true;
      forall i | 0 <= i < MAX_DEVICES {
        table[i] := CLEARED;
      }
      table[0] := Device(1, "sensor_01", false, 0, Preset(25.0), Preset(50.0), Preset(1.2));
      table[1] := Device(2, "sensor_02", false, 0, Preset(28.0), Preset(45.0), Preset(0.8));
      table[2] := Device(3, "sensor_03", false, 0, Preset(22.0), Preset(60.0), Preset(1.5));
    }

    /** `device_manager_update`; None is the null pointer. */
    method Update(id: bv8, data: Option<Device>)
      requires Valid()
      modifies table
      ensures Valid()
      ensures table[..] == if ready && data.Some? then Updated(old(table[..]), id, data.value) else old(table[..])
    {
      if !ready || data == None {
        return;
      }
      var i := 0;
      while i < MAX_DEVICES
        invariant i <= MAX_DEVICES && table[..] == old(table[..])
        invariant forall k | 0 <= k < i :: table[k].id != id
      {
        if table[i].id == id {
          assert i == Find(table[..], id) by {
            assert table[..][i] == table[i];
          }
          table[i] := data.value;
          return;
        }
        i := i + 1;
      }
      assert forall k | 0 <= k < MAX_DEVICES :: table[..][k].id != id;
    }

    /** `device_manager_get_all`. */
    method GetAll(outArray: array?<Device>, maxCount: int) returns (count: nat)
      requires Valid() && outArray != table && (outArray != null ==> maxCount <= outArray.Length)
      modifies outArray
      ensures count <= MAX_DEVICES
      ensures !ready || outArray == null ==> count == 0
      ensures ready && outArray != null && maxCount >= MAX_DEVICES ==> outArray[..count] == ListedOf(table[..])
      ensures outArray != null ==>
                && count <= outArray.Length
                && outArray[..count] == (if ready then FirstOf(ListedOf(table[..]), maxCount) else [])
                && outArray[count..] == old(outArray[count..])
    {
      if !ready || outArray == null || maxCount <= 0 {
        return 0;
      }
      count := 0;
      var i := 0;
      while i < MAX_DEVICES && count < maxCount
        invariant i <= MAX_DEVICES && count <= maxCount && count <= i
        invariant outArray[..count] == ListedOf(table[..i])
        invariant outArray[count..] == old(outArray[count..])
      {
        assert table[..i + 1][..i] == table[..i];
        if table[i].id != 0 && table[i].online {
          outArray[count] := table[i];
          count := count + 1;
        }
        i := i + 1;
      }
      assert table[..MAX_DEVICES] == table[..];
      ListedPrefix(table[..], i);
      FirstOfListed(table[..], maxCount, outArray[..count]);
    }
  }

  lemma {:induction false} ListedPrefix(t: seq<Device>, i: nat)
    requires i <= |t|
    ensures ListedOf(t[..i]) <= ListedOf(t)
    decreases |t|
  {
    if i == |t| {
      assert t[..i] == t;
    } else {
      ListedPrefix(t[..|t| - 1], i);
      assert t[..|t| - 1][..i] == t[..i];
    }
  }
}
