/** Sharing a Ceph storage among devices (block-ts/lib/tsapi-ceph.c, tsapi_ceph_prepare_params). */
module CephParams {
  import opened Text

  /** Gigabytes kept for auxiliary information. */
  const AUX_INFO_SZ_GB := 2

  /** Device slots of the inventory template. */
  const BLK_NUM_MAX := 3

  const UINT_RANGE := 0x1_0000_0000
  const INT_MAX := 0x7FFF_FFFF

  /** int and unsigned int of the source. */
  type Int = n: int | -INT_MAX - 1 <= n <= INT_MAX
  type UInt = n: int | 0 <= n < UINT_RANGE

  function ToUInt(n: int): UInt {
    n % UINT_RANGE
  }

  function ToInt(n: UInt): Int {
    if n <= INT_MAX then n else n - UINT_RANGE
  }

  /** (storage - 2) / count * 1024, where the unsigned count makes the arithmetic unsigned. */
  function DevSizeMb(storageGb: Int, blockCount: UInt): Int
    requires storageGb > 0 && blockCount > 0
  {
    ToInt(ToUInt(ToUInt(storageGb - AUX_INFO_SZ_GB) / blockCount * 1024))
  }

  /** A device slot: the name and the size that are advertised, or an empty slot. */
  datatype Slot = Empty | Device(number: nat, sizeMb: int)

  function Slots(devSizeMb: int, blockCount: int): seq<Slot> {
    seq(BLK_NUM_MAX, (i: nat) => if i < blockCount then Device(i, devSizeMb) else Empty)
  }

  /** Fills the slots; a storage that is not positive is refused before the count divides it. */
  method PrepareParams(storageGb: Int, blockCount: UInt) returns (rc: Errno, slots: seq<Slot>)
    requires storageGb > 0 ==> blockCount > 0
    ensures if storageGb <= 0 then rc == EINVAL && slots == []
            else rc == OK && slots == Slots(DevSizeMb(storageGb, blockCount), blockCount)
  {
    slots := [];
    if storageGb <= 0 {
      return EINVAL, slots;
    }
    var devSizeMb := DevSizeMb(storageGb, blockCount);
    var i := 0;
    while i < BLK_NUM_MAX
      invariant 0 <= i <= BLK_NUM_MAX
      invariant slots == Slots(devSizeMb, blockCount)[..i]
    {
      slots := slots + [if i < blockCount then Device(i, devSizeMb) else Empty];
      i := i + 1;
    }
    rc := OK;
  }

  /** Whatever the count, the first slots are devices with their numbers and the others are empty. */
  lemma {:induction false} FirstSlots(devSizeMb: int, blockCount: nat, i: nat)
    requires i < 3
    ensures |Slots(devSizeMb, blockCount)| == 3
    ensures Slots(devSizeMb, blockCount)[i] == if i < blockCount then Device(i, devSizeMb) else Empty
  {
  }

  /** The megabytes that the slots advertise. */
  function Advertised(slots: seq<Slot>): int {
    if slots == [] then 0
    else (if slots[0].Device? then slots[0].sizeMb else 0) + Advertised(slots[1..])
  }

  lemma {:induction false} AdvertisedSlots(devSizeMb: int, blockCount: int)
    requires 1 <= blockCount <= BLK_NUM_MAX
    ensures Advertised(Slots(devSizeMb, blockCount)) == blockCount * devSizeMb
  {
    var slots := Slots(devSizeMb, blockCount);
    var second := slots[1..];
    var third := second[1..];
    assert Advertised(third) == if third[0].Device? then third[0].sizeMb else 0;
    assert Advertised(second) == (if second[0].Device? then second[0].sizeMb else 0) + Advertised(third);
  }

  /** The sizes and the reserve fit into the storage, and less than a gigabyte a device is lost. */
  predicate FairShare(storageGb: int, blockCount: int, slots: seq<Slot>) {
    && (forall i :: 0 <= i < |slots| ==> (slots[i].Device? <==> i < blockCount))
    && (forall i :: 0 <= i < |slots| && slots[i].Device? ==> slots[i].sizeMb >= 0)
    && var left := (storageGb - 2) * 1024 - Advertised(slots);
       0 <= left < 1024 * blockCount
  }

  lemma {:induction false} Quotient(s: int, n: int)
    requires s >= 0 && n > 0
    ensures 0 <= s - n * (s / n) < n
  {
  }

  /** A size that wrapped around leaves at least a gigabyte a device unused. */
  lemma {:induction false} WrappedSize(q: nat)
    requires q * 1024 > INT_MAX && q < UINT_RANGE
    ensures exists d :: ToInt(ToUInt(q * 1024)) == 1024 * d && d < q
  {
    var p := ToUInt(q * 1024);
    var k := q * 1024 / UINT_RANGE;
    assert p == q * 1024 - k * UINT_RANGE;
    assert p == 1024 * (q - k * 0x40_0000);
    assert ToInt(p) == 1024 * (if p <= INT_MAX then q - k * 0x40_0000 else q - k * 0x40_0000 - 0x40_0000);
  }

  /** What a size means for the storage, s gigabytes above the reserve. */
  predicate Fair(s: int, n: int, size: int) {
    size >= 0 && 0 <= s * 1024 - n * size < 1024 * n
  }

  lemma {:induction false} FairWhole(s: int, n: int, q: int)
    requires 1 <= n <= BLK_NUM_MAX && q >= 0 && 0 <= s - n * q < n
    ensures Fair(s, n, 1024 * q)
    ensures forall d :: d < q ==> !Fair(s, n, 1024 * d)
  {
    if n == 1 {
      assert 0 <= s - q < 1;
    } else if n == 2 {
      assert 0 <= s - 2 * q < 2;
    } else {
      assert 0 <= s - 3 * q < 3;
    }
  }

  /**
   * The storage is shared fairly among one to three devices exactly when it is not smaller
   * than the reserve and the size of a device in megabytes is an int.
   */
  lemma {:induction false} FairShareIff(storageGb: Int, blockCount: UInt)
    requires storageGb > 0 && 1 <= blockCount <= 3
    ensures FairShare(storageGb, blockCount, Slots(DevSizeMb(storageGb, blockCount), blockCount))
       <==> storageGb >= 2 && (storageGb - 2) / blockCount * 1024 <= 0x7FFF_FFFF
  {
    var s, size := storageGb - AUX_INFO_SZ_GB, DevSizeMb(storageGb, blockCount);
    ShareIsFair(storageGb, blockCount, size);
    if s >= 0 {
      var q := s / blockCount;
      Quotient(s, blockCount);
      FairWhole(s, blockCount, q);
      SizeOf(storageGb, blockCount, q);
      if q * 1024 <= INT_MAX {
        SmallSize(q);
      } else {
        WrappedSize(q);
      }
    } else {
      NoShare(s, blockCount, size);
    }
  }

  lemma {:induction false} SizeOf(storageGb: Int, blockCount: UInt, q: nat)
    requires storageGb >= AUX_INFO_SZ_GB && blockCount > 0
    requires q == (storageGb - AUX_INFO_SZ_GB) / blockCount
    ensures q < UINT_RANGE && DevSizeMb(storageGb, blockCount) == ToInt(ToUInt(q * 1024))
  {
    assert ToUInt(storageGb - AUX_INFO_SZ_GB) == storageGb - AUX_INFO_SZ_GB;
  }

  lemma {:induction false} SmallSize(q: nat)
    requires q * 1024 <= INT_MAX
    ensures ToInt(ToUInt(q * 1024)) == 1024 * q
  {
  }

  lemma {:induction false} NoShare(s: int, n: int, size: int)
    requires s < 0 && 1 <= n <= BLK_NUM_MAX
    ensures !Fair(s, n, size)
  {
    if size >= 0 {
      assert n * size >= 0;
    }
  }

  lemma {:induction false} ShareIsFair(storageGb: int, blockCount: int, size: int)
    requires 1 <= blockCount <= BLK_NUM_MAX
    ensures FairShare(storageGb, blockCount, Slots(size, blockCount))
       <==> Fair(storageGb - AUX_INFO_SZ_GB, blockCount, size)
  {
    AdvertisedSlots(size, blockCount);
    assert Slots(size, blockCount)[0].sizeMb == size;
  }

  /** One gigabyte is accepted, but the size of a device is then a wrapped number. */
  lemma {:induction false} OneGigabyte()
    ensures DevSizeMb(1, 1) == -1024
  {
  }
}
