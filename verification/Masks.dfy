/** CPU masks: unsigned long values whose one bits name CPUs. */
module Masks {
  import opened Text
  import opened Numbers

  type Mask = bv64

  const WIDTH: nat := 64

  /** Whether bit number cpu of the mask is one. */
  predicate HasCpu(mask: Mask, cpu: nat)
    decreases cpu
  {
    if cpu == 0 then mask & 1 == 1 else HasCpu(mask >> 1, cpu - 1)
  }

  function Cpus(mask: Mask): set<nat> {
    set cpu: nat | 0 <= cpu < WIDTH && HasCpu(mask, cpu)
  }

  /** The one bits among the lowest n, counted bit by bit. */
  function BitSum(mask: Mask, n: nat): nat {
    if n == 0 then 0 else (if mask & 1 == 1 then 1 else 0) + BitSum(mask >> 1, n - 1)
  }

  function CpusBelow(mask: Mask, n: nat): set<nat> {
    set cpu: nat | 0 <= cpu < n && HasCpu(mask, cpu)
  }

  lemma {:induction false} BitSumCounts(mask: Mask, n: nat)
    ensures BitSum(mask, n) == |CpusBelow(mask, n)|
    decreases n
  {
    if n > 0 {
      BitSumCounts(mask >> 1, n - 1);
      var shifted := ShiftedCpus(mask, mask >> 1, n);
      assert CpusBelow(mask, n) == (if mask & 1 == 1 then {0} else {}) + shifted;
    }
  }

  /** The CPUs above the lowest are those of half the mask, moved by one. */
  lemma {:induction false} ShiftedCpus(mask: Mask, half: Mask, n: nat) returns (shifted: set<nat>)
    requires n > 0 && half == mask >> 1
    ensures |shifted| == |CpusBelow(half, n - 1)| && 0 !in shifted
    ensures CpusBelow(mask, n) == (if mask & 1 == 1 then {0} else {}) + shifted
  {
    var upper := CpusBelow(half, n - 1);
    shifted := set cpu: nat | cpu in upper :: cpu + 1;
    ShiftedSize(upper, shifted);
    forall cpu: nat ensures cpu in CpusBelow(mask, n) <==> (cpu == 0 && mask & 1 == 1) || cpu in shifted {
      if cpu > 0 {
        assert cpu in shifted <==> cpu - 1 in upper;
      }
    }
  }

  lemma {:induction false} ShiftedSize(s: set<nat>, t: set<nat>)
    requires t == set cpu: nat | cpu in s :: cpu + 1
    ensures |t| == |s|
    decreases |s|
  {
    if s != {} {
      var x :| x in s;
      var less := set cpu: nat | cpu in s - {x} :: cpu + 1;
      forall y: nat ensures y in t - {x + 1} <==> y in less {
        if y in t - {x + 1} {
          assert y - 1 in s - {x};
        }
      }
      assert t - {x + 1} == less;
      assert x + 1 in t;
      ShiftedSize(s - {x}, less);
    }
  }

  lemma {:induction false} ClearLowestOdd(mask: Mask)
    requires mask & 1 == 1
    ensures (mask & (mask - 1)) >> 1 == mask >> 1
    ensures (mask & (mask - 1)) & 1 == 0
  {
  }

  lemma {:induction false} ClearLowestEven(mask: Mask)
    requires mask & 1 == 0 && mask != 0
    ensures (mask & (mask - 1)) >> 1 == (mask >> 1) & ((mask >> 1) - 1)
    ensures (mask & (mask - 1)) & 1 == 0
    ensures mask >> 1 != 0
  {
  }

  /** mask & (mask - 1) is the mask without its lowest one bit. */
  lemma {:induction false} ClearLowest(mask: Mask, n: nat)
    requires mask != 0 && Narrow(mask, n)
    ensures BitSum(mask & (mask - 1), n) == BitSum(mask, n) - 1
    ensures Narrow(mask & (mask - 1), n)
    decreases n
  {
    if n > 0 {
      if mask & 1 == 1 {
        ClearLowestOdd(mask);
      } else {
        assert mask & 1 == 0;
        ClearLowestEven(mask);
        ClearLowest(mask >> 1, n - 1);
      }
    }
  }

  /** No one bits at position n or above. */
  predicate Narrow(mask: Mask, n: nat) {
    if n == 0 then mask == 0 else Narrow(mask >> 1, n - 1)
  }

  lemma {:induction false} NarrowHalf(mask: Mask, half: Mask, n: nat)
    requires half == mask >> 1 && Narrow(half, n)
    ensures Narrow(mask, n + 1)
  {
  }

  lemma {:induction false} NarrowHalves(mask: Mask, m1: Mask, m2: Mask, m3: Mask, m4: Mask, n: nat)
    requires m1 == mask >> 1 && m2 == m1 >> 1 && m3 == m2 >> 1 && m4 == m3 >> 1
    requires Narrow(m4, n)
    ensures Narrow(mask, n + 4)
  {
    NarrowHalf(m3, m4, n);
    NarrowHalf(m2, m3, n + 1);
    NarrowHalf(m1, m2, n + 2);
    NarrowHalf(mask, m1, n + 3);
  }

  lemma ShiftBy4(mask: Mask) returns (m1: Mask, m2: Mask, m3: Mask)
    ensures m1 == mask >> 1 && m2 == m1 >> 1 && m3 == m2 >> 1 && m3 >> 1 == mask >> 4
  {
    m1 := mask >> 1;
    m2 := m1 >> 1;
    m3 := m2 >> 1;
  }

  lemma {:induction false} NarrowBy4(mask: Mask, m4: Mask, n: nat)
    requires m4 == mask >> 4 && Narrow(m4, n)
    ensures Narrow(mask, n + 4)
  {
    var m1, m2, m3 := ShiftBy4(mask);
    NarrowHalves(mask, m1, m2, m3, m4, n);
  }

  lemma ShiftBy16(mask: Mask) returns (m4: Mask, m8: Mask, m12: Mask)
    ensures m4 == mask >> 4 && m8 == m4 >> 4 && m12 == m8 >> 4 && m12 >> 4 == mask >> 16
  {
    m4 := mask >> 4;
    m8 := m4 >> 4;
    m12 := m8 >> 4;
  }

  lemma {:induction false} NarrowBy16(mask: Mask, m16: Mask, n: nat)
    requires m16 == mask >> 16 && Narrow(m16, n)
    ensures Narrow(mask, n + 16)
  {
    var m4, m8, m12 := ShiftBy16(mask);
    NarrowBy4(m12, m16, n);
    NarrowBy4(m8, m12, n + 4);
    NarrowBy4(m4, m8, n + 8);
    NarrowBy4(mask, m4, n + 12);
  }

  /** Every unsigned long has at most 64 bits. */
  lemma {:induction false} AllNarrow(mask: Mask)
    ensures Narrow(mask, WIDTH)
  {
    var m16 := mask >> 16;
    var m32 := m16 >> 16;
    var m48 := m32 >> 16;
    assert m48 >> 16 == 0;
    NarrowBy16(m48, 0, 0);
    NarrowBy16(m32, m48, 16);
    NarrowBy16(m16, m32, 32);
    NarrowBy16(mask, m16, 48);
  }

  lemma {:induction false} NoCpus(mask: Mask, n: nat)
    requires Narrow(mask, n)
    ensures mask == 0 <==> CpusBelow(mask, n) == {}
    decreases n
  {
    if n == 0 {
    } else {
      var half := mask >> 1;
      NoCpus(half, n - 1);
      ZeroHalf(mask);
      if mask == 0 {
        forall cpu: nat | cpu < n ensures !HasCpu(mask, cpu) {
          assert cpu > 0 ==> cpu - 1 !in CpusBelow(half, n - 1);
        }
      } else if mask & 1 == 1 {
        assert 0 in CpusBelow(mask, n);
      } else {
        var cpu :| cpu in CpusBelow(half, n - 1);
        assert cpu + 1 in CpusBelow(mask, n);
      }
    }
  }

  lemma {:induction false} ZeroHalf(mask: Mask)
    ensures mask == 0 <==> mask & 1 == 0 && mask >> 1 == 0
    ensures mask & 1 == 0 || mask & 1 == 1
  {
  }

  /** A mask is zero exactly when it names no CPU. */
  lemma {:induction false} ZeroIsNoCpus(mask: Mask)
    ensures mask == 0 <==> Cpus(mask) == {}
  {
    AllNarrow(mask);
    NoCpus(mask, WIDTH);
    assert Cpus(mask) == CpusBelow(mask, WIDTH);
  }

  lemma {:induction false} NextCpu(mask: Mask, half: Mask, cpu: nat)
    requires half == mask >> 1 && cpu > 0
    ensures HasCpu(mask, cpu) <==> HasCpu(half, cpu - 1)
  {
  }

  lemma {:induction false} OrHasCpu(a: Mask, b: Mask, c: Mask, cpu: nat)
    requires c == a | b
    ensures HasCpu(c, cpu) <==> HasCpu(a, cpu) || HasCpu(b, cpu)
    decreases cpu
  {
    if cpu == 0 {
      OrLow(a, b, c);
    } else {
      var a', b', c' := OrHalf(a, b, c);
      NextCpu(a, a', cpu);
      NextCpu(b, b', cpu);
      NextCpu(c, c', cpu);
      OrHasCpu(a', b', c', cpu - 1);
    }
  }

  lemma {:induction false} OrHalf(a: Mask, b: Mask, c: Mask) returns (a': Mask, b': Mask, c': Mask)
    requires c == a | b
    ensures a' == a >> 1 && b' == b >> 1 && c' == c >> 1 && c' == a' | b'
  {
    a', b', c' := a >> 1, b >> 1, c >> 1;
  }

  lemma {:induction false} OrLow(a: Mask, b: Mask, c: Mask)
    requires c == a | b
    ensures c & 1 == 1 <==> a & 1 == 1 || b & 1 == 1
  {
  }

  lemma {:induction false} AndHasCpu(a: Mask, b: Mask, c: Mask, cpu: nat)
    requires c == a & b
    ensures HasCpu(c, cpu) <==> HasCpu(a, cpu) && HasCpu(b, cpu)
    decreases cpu
  {
    if cpu == 0 {
      AndLow(a, b, c);
    } else {
      var a', b', c' := AndHalf(a, b, c);
      NextCpu(a, a', cpu);
      NextCpu(b, b', cpu);
      NextCpu(c, c', cpu);
      AndHasCpu(a', b', c', cpu - 1);
    }
  }

  lemma {:induction false} AndHalf(a: Mask, b: Mask, c: Mask) returns (a': Mask, b': Mask, c': Mask)
    requires c == a & b
    ensures a' == a >> 1 && b' == b >> 1 && c' == c >> 1 && c' == a' & b'
  {
    a', b', c' := a >> 1, b >> 1, c >> 1;
  }

  lemma {:induction false} AndLow(a: Mask, b: Mask, c: Mask)
    requires c == a & b
    ensures c & 1 == 1 <==> a & 1 == 1 && b & 1 == 1
  {
  }

  /** The C operator | on masks is the union of the CPUs that they name. */
  lemma {:induction false} OrIsUnion(a: Mask, b: Mask, c: Mask)
    requires c == a | b
    ensures Cpus(c) == Cpus(a) + Cpus(b)
  {
    forall cpu: nat | cpu < WIDTH ensures HasCpu(c, cpu) <==> HasCpu(a, cpu) || HasCpu(b, cpu) {
      OrHasCpu(a, b, c, cpu);
    }
  }

  /** The C operator & on masks is the intersection of the CPUs that they name. */
  lemma {:induction false} AndIsIntersection(a: Mask, b: Mask, c: Mask)
    requires c == a & b
    ensures Cpus(c) == Cpus(a) * Cpus(b)
  {
    forall cpu: nat | cpu < WIDTH ensures HasCpu(c, cpu) <==> HasCpu(a, cpu) && HasCpu(b, cpu) {
      AndHasCpu(a, b, c, cpu);
    }
  }

  lemma {:induction false} CpuCount(mask: Mask)
    ensures |Cpus(mask)| == BitSum(mask, WIDTH)
  {
    BitSumCounts(mask, WIDTH);
    assert Cpus(mask) == CpusBelow(mask, WIDTH);
  }

  /** mask & (mask - 1) names one CPU less. */
  lemma {:induction false} OneCpuLess(mask: Mask, less: Mask)
    requires mask != 0 && less == mask & (mask - 1)
    ensures |Cpus(less)| == |Cpus(mask)| - 1
  {
    AllNarrow(mask);
    ClearLowest(mask, WIDTH);
    CpuCount(mask);
    CpuCount(less);
  }

  // ---- The word of a number ----

  const TOP: Mask := 0x8000_0000_0000_0000

  lemma {:induction false} ShiftedBy4(mask: Mask, m4: Mask, cpu: nat)
    requires m4 == mask >> 4
    ensures HasCpu(mask, cpu + 4) <==> HasCpu(m4, cpu)
  {
    var m1, m2, m3 := ShiftBy4(mask);
    NextCpu(mask, m1, cpu + 4);
    NextCpu(m1, m2, cpu + 3);
    NextCpu(m2, m3, cpu + 2);
    NextCpu(m3, m4, cpu + 1);
  }

  lemma {:induction false} ShiftedBy16(mask: Mask, m16: Mask, cpu: nat)
    requires m16 == mask >> 16
    ensures HasCpu(mask, cpu + 16) <==> HasCpu(m16, cpu)
  {
    var m4, m8, m12 := ShiftBy16(mask);
    ShiftedBy4(mask, m4, cpu + 12);
    ShiftedBy4(m4, m8, cpu + 8);
    ShiftedBy4(m8, m12, cpu + 4);
    ShiftedBy4(m12, m16, cpu);
  }

  /** The highest bit is bit 63 and no other. */
  lemma {:induction false} TopCpu()
    ensures Cpus(TOP) == {63}
  {
    ShiftedBy16(TOP, 0x8000_0000_0000, 47);
    ShiftedBy16(0x8000_0000_0000, 0x8000_0000, 31);
    ShiftedBy16(0x8000_0000, 0x8000, 15);
    ShiftedBy4(0x8000, 0x800, 11);
    ShiftedBy4(0x800, 0x80, 7);
    ShiftedBy4(0x80, 8, 3);
    NextCpu(8, 4, 3);
    NextCpu(4, 2, 2);
    NextCpu(2, 1, 1);
    assert 63 in Cpus(TOP);
    OneCpuLess(TOP, 0);
    ZeroIsNoCpus(0);
    assert |Cpus(TOP) - {63}| == 0;
  }

  /** Dropping the highest bit leaves the others. */
  lemma {:induction false} WithoutTop(mask: Mask, low: Mask, cpu: nat)
    requires low == mask & !TOP && cpu < 63
    ensures HasCpu(low, cpu) <==> HasCpu(mask, cpu)
  {
    var top := mask & TOP;
    JoinTop(mask, low, top);
    OrHasCpu(low, top, mask, cpu);
    AndHasCpu(mask, TOP, top, cpu);
    TopCpu();
    assert cpu !in Cpus(TOP);
  }

  lemma {:induction false} JoinTop(mask: Mask, low: Mask, top: Mask)
    requires low == mask & !TOP && top == mask & TOP
    ensures mask == low | top
  {
  }

  lemma {:induction false} Doubled(half: Mask, word: Mask, bit: Mask) returns (low: Mask)
    requires word == (half << 1) | bit && (bit == 0 || bit == 1)
    ensures low == word >> 1 && low == half & !TOP
    ensures word & 1 == 1 <==> bit == 1
  {
    low := word >> 1;
  }

  /** A number halved k times. */
  function Halved(n: nat, k: nat): nat {
    if k == 0 then n else Halved(n / 2, k - 1)
  }

  function Pow2(k: nat): (p: nat)
    ensures p > 0
  {
    if k == 0 then 1 else 2 * Pow2(k - 1)
  }

  lemma {:induction false} Larger(x: nat, d: nat)
    requires x >= 1
    ensures x * d >= d
  {
    if x > 1 {
      Larger(x - 1, d);
      assert x * d == (x - 1) * d + d;
    }
  }

  lemma {:induction false} NotBelow(q: nat, r: nat, q': nat, r': nat, d: nat)
    requires q * d + r == q' * d + r' && r < d && r' < d
    ensures q <= q'
  {
    assert (q - q') * d == q * d - q' * d;
    if q > q' {
      Larger(q - q', d);
    }
  }

  lemma {:induction false} QuotientIs(n: nat, d: nat, q: nat, r: nat)
    requires n == q * d + r && r < d
    ensures n / d == q
  {
    NotBelow(q, r, n / d, n % d, d);
    NotBelow(n / d, n % d, q, r, d);
  }

  lemma {:induction false} HalvedRemainder(n: nat, k: nat) returns (r: nat)
    ensures n == Halved(n, k) * Pow2(k) + r && r < Pow2(k)
    decreases k
  {
    if k == 0 {
      r := 0;
    } else {
      r := HalvedRemainder(n / 2, k - 1);
      DoubledProduct(n, Halved(n / 2, k - 1), Pow2(k - 1), r);
      r := 2 * r + n % 2;
    }
  }

  lemma {:induction false} DoubledProduct(n: nat, h: nat, p: nat, r: nat)
    requires n / 2 == h * p + r
    ensures n == h * (2 * p) + (2 * r + n % 2)
  {
    assert h * (2 * p) == 2 * (h * p);
  }

  /** The word of a number is that of its half, moved by one, with the last bit put in. */
  lemma {:induction false} WordCons(n: nat, half: Mask, bit: Mask)
    requires half == Word(n / 2) && bit == if n % 2 == 1 then 1 else 0
    ensures Word(n) == (half << 1) | bit
  {
    if n == 0 {
      Zero(half, bit);
    }
  }

  lemma {:induction false} Zero(half: Mask, bit: Mask)
    requires half == 0 && bit == 0
    ensures (half << 1) | bit == 0
  {
  }

  lemma {:induction false} WordHalved(n: nat, cpu: nat)
    requires cpu < WIDTH
    ensures HasCpu(Word(n), cpu) <==> Halved(n, cpu) % 2 == 1
    decreases cpu
  {
    var word, half, bit: Mask := Word(n), Word(n / 2), if n % 2 == 1 then 1 else 0;
    WordCons(n, half, bit);
    var low := Doubled(half, word, bit);
    if cpu > 0 {
      NextCpu(word, low, cpu);
      WithoutTop(half, low, cpu - 1);
      WordHalved(n / 2, cpu - 1);
    } else {
      LowestCpu(word);
    }
  }

  lemma {:induction false} LowestCpu(mask: Mask)
    ensures HasCpu(mask, 0) <==> mask & 1 == 1
  {
  }

  /** The mask of a number names exactly the CPUs at the one bits of the number. */
  lemma {:induction false} WordBit(n: nat, cpu: nat)
    requires cpu < WIDTH
    ensures HasCpu(Word(n), cpu) <==> n / Pow2(cpu) % 2 == 1
  {
    WordHalved(n, cpu);
    var r := HalvedRemainder(n, cpu);
    QuotientIs(n, Pow2(cpu), Halved(n, cpu), r);
  }

  /** The CPUs at the one bits of a number. */
  function BitsOf(n: nat): set<nat> {
    set cpu: nat | 0 <= cpu < WIDTH && n / Pow2(cpu) % 2 == 1
  }

  lemma {:induction false} WordCpus(n: nat)
    ensures Cpus(Word(n)) == BitsOf(n)
  {
    forall cpu: nat | cpu < WIDTH ensures HasCpu(Word(n), cpu) <==> n / Pow2(cpu) % 2 == 1 {
      WordBit(n, cpu);
    }
  }

  /** The mask of a number that was printed in base 16 names the CPUs at its one bits. */
  lemma {:induction false} PrintedMask(n: nat)
    requires n <= ULONG_MAX
    ensures Strtoul16("0x" + Hex(n)).Ok? && Cpus(Strtoul16("0x" + Hex(n)).value) == BitsOf(n)
  {
    PlainHexRead(n);
    WordCpus(n);
  }

  /** The number of CPUs that a hexadecimal mask names. */
  method CountBitsInMask(maskStr: string) returns (rc: Errno, count: nat)
    ensures match Strtoul16(maskStr)
            case Ok(mask) => rc == OK && count == |Cpus(mask)|
            case Err(e) => rc == e && rc != OK
  {
    var parsed := Strtoul16(maskStr);
    if parsed.Err? {
      return parsed.error, 0;
    }
    count := CountBits(parsed.value);
    rc := OK;
  }

  /** The loop of CountBitsInMask: clears the lowest one bit until none is left. */
  method CountBits(value: Mask) returns (count: nat)
    ensures count == |Cpus(value)|
  {
    var mask := value;
    count := 0;
    while mask != 0
      invariant count + |Cpus(mask)| == |Cpus(value)|
      decreases |Cpus(mask)|
    {
      var less := mask & (mask - 1);
      OneCpuLess(mask, less);
      mask := less;
      count := count + 1;
    }
    ZeroIsNoCpus(mask);
  }
}
