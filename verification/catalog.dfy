/**
 * The register catalog `AllRegisters_G` (src/registers.c): eleven named
 * descriptor tables scanned in order. A lookup is a nested linear scan, so
 * when several sets hold the same address the earliest one wins.
 */
module Catalog {
  import opened Word
  import opened Registers
  import ClkPwr
  import Gpdma
  import Emc
  import Mlc
  import Slc
  import Lcd
  import Ts
  import Spi
  import Ssp
  import Gpio
  import Pinmux

  /** `AllRegisters_G`, in the order the lookups scan it. */
  const AllRegisters: seq<RegisterSet> := [
    RegisterSet("clkpwr", ClkPwr.Table),
    RegisterSet("gpdma", Gpdma.Table),
    RegisterSet("emc", Emc.Table),
    RegisterSet("mlc", Mlc.Table),
    RegisterSet("slc", Slc.Table),
    RegisterSet("lcd", Lcd.Table),
    RegisterSet("ts", Ts.Table),
    RegisterSet("spi", Spi.Table),
    RegisterSet("ssp", Ssp.Table),
    RegisterSet("gpio", Gpio.Table),
    RegisterSet("pinmux", Pinmux.Table)
  ]

  /** What a lookup asks of a matching entry: nothing (print), read permission (get) or write permission (set). */
  datatype Need = AnyAccess | NeedRead | NeedWrite

  predicate Allows(need: Need, a: Access)
  {
    match need
    case AnyAccess => true
    case NeedRead => Readable(a)
    case NeedWrite => Writable(a)
  }

  /** A position in the catalog: set `group`, entry `index` of that set. */
  datatype Pos = Pos(group: nat, index: nat)

  predicate Valid(sets: seq<RegisterSet>, p: Pos)
  {
    p.group < |sets| && p.index < |sets[p.group].regs|
  }

  function At(sets: seq<RegisterSet>, p: Pos): RegisterDescription
    requires Valid(sets, p)
  {
    sets[p.group].regs[p.index]
  }

  /** `p` comes before `q` in the scan order. */
  predicate Before(p: Pos, q: Pos)
  {
    p.group < q.group || (p.group == q.group && p.index < q.index)
  }

  /** The entry at `p` has address `addr` and the permission `need` asks for. */
  predicate Hit(sets: seq<RegisterSet>, p: Pos, addr: u32, need: Need)
  {
    Valid(sets, p) && At(sets, p).addr == addr && Allows(need, At(sets, p).access)
  }

  /** `p` is a hit and no position before it is: the entry a scan stops at. */
  ghost predicate IsFirst(sets: seq<RegisterSet>, p: Pos, addr: u32, need: Need)
  {
    Hit(sets, p, addr, need) && forall q :: Before(q, p) ==> !Hit(sets, q, addr, need)
  }

  /**
   * The nested scan from position (s, i): the rest of set s, then every later
   * set; the first hit ends it. Entries that match the address but lack the
   * permission are passed over, as the access functions do with `continue`.
   */
  function Scan(sets: seq<RegisterSet>, addr: u32, need: Need, s: nat, i: nat): Option<Pos>
    requires s <= |sets| && (s < |sets| ==> i <= |sets[s].regs|)
    decreases |sets| - s, if s < |sets| then |sets[s].regs| - i else 0
  {
    if s == |sets| then None
    else if i == |sets[s].regs| then Scan(sets, addr, need, s + 1, 0)
    else if sets[s].regs[i].addr == addr && Allows(need, sets[s].regs[i].access) then Some(Pos(s, i))
    else Scan(sets, addr, need, s, i + 1)
  }

  /** The whole scan. */
  function Find(sets: seq<RegisterSet>, addr: u32, need: Need): Option<Pos>
  {
    Scan(sets, addr, need, 0, 0)
  }

  /** The scan from (s, i) returns the first hit at or after (s, i), or None when there is none. */
  lemma {:induction false} ScanSpec(sets: seq<RegisterSet>, addr: u32, need: Need, s: nat, i: nat)
    requires s <= |sets| && (s < |sets| ==> i <= |sets[s].regs|)
    ensures Scan(sets, addr, need, s, i).Some? ==>
      var p := Scan(sets, addr, need, s, i).value;
      Hit(sets, p, addr, need) && !Before(p, Pos(s, i))
      && forall q :: Before(q, p) && !Before(q, Pos(s, i)) ==> !Hit(sets, q, addr, need)
    ensures Scan(sets, addr, need, s, i).None? ==>
      forall q :: !Before(q, Pos(s, i)) ==> !Hit(sets, q, addr, need)
    decreases |sets| - s, if s < |sets| then |sets[s].regs| - i else 0
  {
    if s == |sets| {
    } else if i == |sets[s].regs| {
      ScanSpec(sets, addr, need, s + 1, 0);
      forall q | !Before(q, Pos(s, i)) && Before(q, Pos(s + 1, 0))
        ensures !Valid(sets, q)
      {
      }
    } else if sets[s].regs[i].addr == addr && Allows(need, sets[s].regs[i].access) {
    } else {
      ScanSpec(sets, addr, need, s, i + 1);
    }
  }

  /**
   * Find returns exactly the first hit in scan order, and None exactly when no
   * entry of any set has the address with the permission asked for.
   */
  lemma FindSpec(sets: seq<RegisterSet>, addr: u32, need: Need)
    ensures forall p :: Find(sets, addr, need) == Some(p) <==> IsFirst(sets, p, addr, need)
    ensures Find(sets, addr, need) == None <==> forall q :: !Hit(sets, q, addr, need)
  {
    ScanSpec(sets, addr, need, 0, 0);
    if Find(sets, addr, need).Some? {
      var p := Find(sets, addr, need).value;
      forall p' | IsFirst(sets, p', addr, need)
        ensures p' == p
      {
        if Before(p, p') {
        } else if Before(p', p) {
        } else {
        }
      }
    }
  }

  /**
   * The address region each set's entries lie in. Only three pairs of sets
   * share a page: clkpwr's page 0x40004000 holds a few entries of emc, lcd,
   * ts, spi, ssp and pinmux, and gpio and pinmux share page 0x40028000 at
   * disjoint offsets.
   */
  predicate InRegion(s: nat, a: u32)
  {
    if s == 0 then PageOf(a) == 0x4000_4000 && !(0x4000_4068 <= a <= 0x4000_4074)
    else if s == 1 then PageOf(a) == 0x3100_0000
    else if s == 2 then 0x4000_4068 <= a <= 0x4000_4074 || 0x3108_0000 <= a <= 0x3108_0488
    else if s == 3 then PageOf(a) == 0x200a_8000 || PageOf(a) == 0x200b_0000 || PageOf(a) == 0x200b_8000
    else if s == 4 then PageOf(a) == 0x2002_0000
    else if s == 5 then a == 0x4000_4054 || PageOf(a) == 0x3104_0000
    else if s == 6 then a == 0x4000_40b4 || a == 0x4000_4060 || PageOf(a) == 0x4004_8000
    else if s == 7 then a == 0x4000_40c4 || PageOf(a) == 0x2008_8000 || PageOf(a) == 0x2009_0000
    else if s == 8 then a == 0x4000_4078 || PageOf(a) == 0x2008_4000 || PageOf(a) == 0x2008_c000
    else if s == 9 then 0x4002_8000 <= a < 0x4002_8028 || 0x4002_8040 <= a < 0x4002_8080
    else if s == 10 then
      || a == 0x4000_4090 || a == 0x4000_4054 || a == 0x4000_4080 || a == 0x4005_4000
      || 0x4002_8028 <= a <= 0x4002_8030 || 0x4002_8100 <= a < 0x4002_8140
    else false
  }

  lemma ClkPwrRegion()
    ensures forall i :: 0 <= i < |ClkPwr.Table| ==> InRegion(0, ClkPwr.Table[i].addr)
  {
    ClkPwr.TableFacts();
    forall i | 0 <= i < |ClkPwr.Table|
      ensures InRegion(0, ClkPwr.Table[i].addr)
    {
      assert ClkPwr.Row(ClkPwr.Table[i]);
    }
  }

  lemma GpdmaRegion()
    ensures forall i :: 0 <= i < |Gpdma.Table| ==> InRegion(1, Gpdma.Table[i].addr)
  {
    Gpdma.TableFacts();
    forall i | 0 <= i < |Gpdma.Table|
      ensures InRegion(1, Gpdma.Table[i].addr)
    {
      assert Gpdma.Row(Gpdma.Table[i]);
    }
  }

  lemma EmcRegion()
    ensures forall i :: 0 <= i < |Emc.Table| ==> InRegion(2, Emc.Table[i].addr)
  {
    Emc.TableFacts();
    forall i | 0 <= i < |Emc.Table|
      ensures InRegion(2, Emc.Table[i].addr)
    {
      assert Emc.Row(Emc.Table[i]);
    }
  }

  lemma MlcRegion()
    ensures forall i :: 0 <= i < |Mlc.Table| ==> InRegion(3, Mlc.Table[i].addr)
  {
    Mlc.TableFacts();
    forall i | 0 <= i < |Mlc.Table|
      ensures InRegion(3, Mlc.Table[i].addr)
    {
      assert Mlc.Row(Mlc.Table[i]);
    }
  }

  lemma SlcRegion()
    ensures forall i :: 0 <= i < |Slc.Table| ==> InRegion(4, Slc.Table[i].addr)
  {
    Slc.TableFacts();
    forall i | 0 <= i < |Slc.Table|
      ensures InRegion(4, Slc.Table[i].addr)
    {
      assert Slc.Row(Slc.Table[i]);
    }
  }

  lemma LcdRegion()
    ensures forall i :: 0 <= i < |Lcd.Table| ==> InRegion(5, Lcd.Table[i].addr)
  {
    Lcd.TableFacts();
    forall i | 0 <= i < |Lcd.Table|
      ensures InRegion(5, Lcd.Table[i].addr)
    {
      assert Lcd.Row(Lcd.Table[i]);
    }
  }

  lemma TsRegion()
    ensures forall i :: 0 <= i < |Ts.Table| ==> InRegion(6, Ts.Table[i].addr)
  {
    Ts.TableFacts();
    forall i | 0 <= i < |Ts.Table|
      ensures InRegion(6, Ts.Table[i].addr)
    {
      assert Ts.Row(Ts.Table[i]);
    }
  }

  lemma SpiRegion()
    ensures forall i :: 0 <= i < |Spi.Table| ==> InRegion(7, Spi.Table[i].addr)
  {
    Spi.TableFacts();
    forall i | 0 <= i < |Spi.Table|
      ensures InRegion(7, Spi.Table[i].addr)
    {
      assert Spi.Row(Spi.Table[i]);
    }
  }

  lemma SspRegion()
    ensures forall i :: 0 <= i < |Ssp.Table| ==> InRegion(8, Ssp.Table[i].addr)
  {
    Ssp.TableFacts();
    forall i | 0 <= i < |Ssp.Table|
      ensures InRegion(8, Ssp.Table[i].addr)
    {
      assert Ssp.Row(Ssp.Table[i]);
    }
  }

  lemma GpioRegion()
    ensures forall i :: 0 <= i < |Gpio.Table| ==> InRegion(9, Gpio.Table[i].addr)
  {
    Gpio.TableFacts();
    forall i | 0 <= i < |Gpio.Table|
      ensures InRegion(9, Gpio.Table[i].addr)
    {
      assert Gpio.Row(Gpio.Table[i]);
    }
  }

  lemma PinmuxRegion()
    ensures forall i :: 0 <= i < |Pinmux.Table| ==> InRegion(10, Pinmux.Table[i].addr)
  {
    Pinmux.TableFacts();
    forall i | 0 <= i < |Pinmux.Table|
      ensures InRegion(10, Pinmux.Table[i].addr)
    {
      assert Pinmux.Row(Pinmux.Table[i]);
    }
  }

  /** Every catalog entry lies in its set's region. */
  lemma Regions()
    ensures |AllRegisters| == 11
    ensures forall p :: Valid(AllRegisters, p) ==> InRegion(p.group, At(AllRegisters, p).addr)
  {
    ClkPwrRegion();
    GpdmaRegion();
    EmcRegion();
    MlcRegion();
    SlcRegion();
    LcdRegion();
    TsRegion();
    SpiRegion();
    SspRegion();
    GpioRegion();
    PinmuxRegion();
  }

  /** In a table whose addresses ascend, an earlier entry has a smaller address. */
  lemma {:induction false} AscendingBelow(t: seq<RegisterDescription>, j: nat, i: nat)
    requires forall k :: 0 < k < |t| ==> t[k - 1].addr < t[k].addr
    requires j < i < |t|
    ensures t[j].addr < t[i].addr
    decreases i - j
  {
    if j + 1 < i {
      AscendingBelow(t, j, i - 1);
    }
  }

  /** In a table whose addresses ascend, every entry's address occurs only there. */
  lemma AscendingOnlyAt(t: seq<RegisterDescription>, i: nat)
    requires forall k :: 0 < k < |t| ==> t[k - 1].addr < t[k].addr
    requires i < |t|
    ensures OnlyAt(t, t[i].addr, i)
  {
    forall j | 0 <= j < |t| && t[j].addr == t[i].addr
      ensures j == i
    {
      if j < i {
        AscendingBelow(t, j, i);
      } else if i < j {
        AscendingBelow(t, i, j);
      }
    }
  }

  /**
   * An address held by one entry only, in a region no earlier set reaches,
   * resolves to that entry for every lookup the entry permits.
   */
  lemma ResolvesTo(p: Pos, addr: u32, need: Need)
    requires Valid(AllRegisters, p) && OnlyAt(AllRegisters[p.group].regs, addr, p.index)
    requires Allows(need, At(AllRegisters, p).access)
    requires forall s :: 0 <= s < p.group ==> !InRegion(s, addr)
    ensures Find(AllRegisters, addr, need) == Some(p)
  {
    Regions();
    FindSpec(AllRegisters, addr, need);
    forall q | Before(q, p)
      ensures !Hit(AllRegisters, q, addr, need)
    {
    }
  }

  /**
   * An address held by one entry only, in a region no other set reaches, is
   * refused by every lookup the entry does not permit.
   */
  lemma RefusedBy(p: Pos, addr: u32, need: Need)
    requires Valid(AllRegisters, p) && OnlyAt(AllRegisters[p.group].regs, addr, p.index)
    requires !Allows(need, At(AllRegisters, p).access)
    requires forall s :: 0 <= s < 11 && s != p.group ==> !InRegion(s, addr)
    ensures Find(AllRegisters, addr, need) == None
  {
    Regions();
    FindSpec(AllRegisters, addr, need);
    forall q
      ensures !Hit(AllRegisters, q, addr, need)
    {
    }
  }

  /**
   * An address held by one entry only, in a region no other set reaches, is
   * answered by that entry exactly when the entry permits the lookup.
   */
  lemma Owned(p: Pos, addr: u32, need: Need)
    requires Valid(AllRegisters, p) && OnlyAt(AllRegisters[p.group].regs, addr, p.index)
    requires forall s :: 0 <= s < 11 && s != p.group ==> !InRegion(s, addr)
    ensures Find(AllRegisters, addr, need) == if Allows(need, At(AllRegisters, p).access) then Some(p) else None
  {
    if Allows(need, At(AllRegisters, p).access) {
      ResolvesTo(p, addr, need);
    } else {
      RefusedBy(p, addr, need);
    }
  }
}
