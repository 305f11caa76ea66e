/**
 * Register access through one 4 KiB window of /dev/mem (src/registers.c):
 * the device file is opened once, one page is mapped at a time, and every
 * access first finds the register in the catalog and checks its permission.
 *
 * Physical memory is an abstract word map; whether `open` and `mmap` succeed
 * is given by the caller. The log records every word the window loads or
 * stores, so that "no access without permission" can be stated.
 */
module DevMem {
  import opened Word
  import opened Registers
  import opened Catalog

  /** `map_pG`: no mapping (NULL), a failed `mmap` (MAP_FAILED), or the page mapped at `base`. */
  datatype Mapping = Unmapped | MapFailed | Mapped(base: u32)

  /** A word of physical memory read or written through the window. */
  datatype MemOp = Load(addr: u32) | Store(addr: u32, val: u32)

  /** One register a dump prints: the entry `print_reg` shows and the value read. */
  datatype Line = Line(entry: RegisterDescription, val: u32)

  /** The entry `print_reg` shows for an address: the first with that address, whatever its permission. */
  function Shown(sets: seq<RegisterSet>, addr: u32): (r: Option<RegisterDescription>)
    ensures r.Some? ==> r.value.addr == addr
  {
    match Find(sets, addr, AnyAccess)
    case None => None
    case Some(p) => FindSpec(sets, addr, AnyAccess); Some(At(sets, p))
  }

  /** Every address a read lookup accepts has an entry for `print_reg` to show. */
  lemma ReadableIsShown(sets: seq<RegisterSet>, addr: u32)
    ensures Find(sets, addr, NeedRead).Some? ==> Shown(sets, addr).Some?
  {
    if Find(sets, addr, NeedRead).Some? {
      FindSpec(sets, addr, AnyAccess);
      FindSpec(sets, addr, NeedRead);
      assert Hit(sets, Find(sets, addr, NeedRead).value, addr, AnyAccess);
    }
  }

  /**
   * What a dump of `regs` prints when /dev/mem opens and every mapping
   * succeeds: for each register in order that a read lookup accepts, the
   * entry `print_reg` shows and the word at its address.
   */
  function DumpLines(sets: seq<RegisterSet>, regs: seq<RegisterDescription>, mem: u32 -> u32): seq<Line>
  {
    if regs == [] then []
    else
      var a := regs[|regs| - 1].addr;
      DumpLines(sets, regs[..|regs| - 1], mem)
      + if Find(sets, a, NeedRead).Some? then ReadableIsShown(sets, a); [Line(Shown(sets, a).value, mem(a))] else []
  }

  /** The first set at or after `from` with the given name, as the `strcmp` loop finds it. */
  function NamedSet(sets: seq<RegisterSet>, name: string, from: nat): (r: Option<nat>)
    requires from <= |sets|
    ensures r.Some? ==> from <= r.value < |sets| && sets[r.value].name == name
    decreases |sets| - from
  {
    if from == |sets| then None
    else if sets[from].name == name then Some(from)
    else NamedSet(sets, name, from + 1)
  }

  /** The search finds nothing exactly when no set from `from` on has the name, and otherwise the first that has. */
  lemma {:induction false} NamedSetSpec(sets: seq<RegisterSet>, name: string, from: nat)
    requires from <= |sets|
    ensures NamedSet(sets, name, from).None? <==> forall s :: from <= s < |sets| ==> sets[s].name != name
    ensures NamedSet(sets, name, from).Some? ==> forall s :: from <= s < NamedSet(sets, name, from).value ==> sets[s].name != name
    decreases |sets| - from
  {
    if from < |sets| && sets[from].name != name {
      NamedSetSpec(sets, name, from + 1);
    }
  }

  /** Set names are pairwise different. */
  predicate NamesDistinct(sets: seq<RegisterSet>)
  {
    forall s, t :: 0 <= s < |sets| && 0 <= t < |sets| && sets[s].name == sets[t].name ==> s == t
  }

  /** With distinct names, looking a set up by its own name finds that set. */
  lemma NamedSetFindsItself(sets: seq<RegisterSet>, s: nat)
    requires NamesDistinct(sets) && s < |sets|
    ensures NamedSet(sets, sets[s].name, 0) == Some(s)
  {
    NamedSetSpec(sets, sets[s].name, 0);
  }

  /** Each set is the one its own name finds. */
  predicate SelfNamed(sets: seq<RegisterSet>)
  {
    forall s {:trigger NamedSet(sets, sets[s].name, 0)} :: 0 <= s < |sets| ==> NamedSet(sets, sets[s].name, 0) == Some(s)
  }

  /** Distinct names are exactly what makes every set findable by its name. */
  lemma SelfNamedIffDistinct(sets: seq<RegisterSet>)
    ensures SelfNamed(sets) <==> NamesDistinct(sets)
  {
    if NamesDistinct(sets) {
      forall s | 0 <= s < |sets|
        ensures NamedSet(sets, sets[s].name, 0) == Some(s)
      {
        NamedSetFindsItself(sets, s);
      }
    }
    if SelfNamed(sets) {
      forall s, t | 0 <= s < |sets| && 0 <= t < |sets| && sets[s].name == sets[t].name
        ensures s == t
      {
        assert NamedSet(sets, sets[s].name, 0) == Some(s);
        assert NamedSet(sets, sets[t].name, 0) == Some(t);
      }
    }
  }

  /** What dumping the first `n` sets prints, set after set. */
  function AllLines(sets: seq<RegisterSet>, n: nat, mem: u32 -> u32): seq<Line>
    requires n <= |sets|
  {
    if n == 0 then [] else AllLines(sets, n - 1, mem) + DumpLines(sets, sets[n - 1].regs, mem)
  }

  /** The loads a list of dump lines costs, one per line, in order. */
  function LoadsOf(lines: seq<Line>): (r: seq<MemOp>)
    ensures |r| == |lines|
  {
    if lines == [] then [] else LoadsOf(lines[..|lines| - 1]) + [Load(lines[|lines| - 1].entry.addr)]
  }

  lemma {:induction false} LoadsOfAppend(a: seq<Line>, b: seq<Line>)
    ensures LoadsOf(a + b) == LoadsOf(a) + LoadsOf(b)
    decreases |b|
  {
    if b != [] {
      assert (a + b)[..|a + b| - 1] == a + b[..|b| - 1];
      LoadsOfAppend(a, b[..|b| - 1]);
    } else {
      assert a + b == a;
    }
  }

  /** A line a dump may print: a readable register, the entry `print_reg` shows for it, its current value. */
  predicate GoodLine(sets: seq<RegisterSet>, l: Line, mem: u32 -> u32)
  {
    && Find(sets, l.entry.addr, NeedRead).Some?
    && Shown(sets, l.entry.addr) == Some(l.entry)
    && l.val == mem(l.entry.addr)
  }

  /** Every line of `lines` is one a dump may print. */
  predicate AllGood(sets: seq<RegisterSet>, lines: seq<Line>, mem: u32 -> u32)
  {
    forall k {:trigger GoodLine(sets, lines[k], mem)} :: 0 <= k < |lines| ==> GoodLine(sets, lines[k], mem)
  }

  lemma AllGoodSnoc(sets: seq<RegisterSet>, lines: seq<Line>, l: Line, mem: u32 -> u32)
    requires AllGood(sets, lines, mem)
    requires Find(sets, l.entry.addr, NeedRead).Some? && Shown(sets, l.entry.addr) == Some(l.entry) && l.val == mem(l.entry.addr)
    ensures AllGood(sets, lines + [l], mem)
  {
    assert GoodLine(sets, l, mem);
  }

  /**
   * What a dump of `regs` has printed after `i` registers: with /dev/mem
   * available (`avail`) and every mapping succeeding, DumpLines of those
   * registers; nothing without /dev/mem; only good lines in any case.
   */
  predicate DumpInv(sets: seq<RegisterSet>, regs: seq<RegisterDescription>, i: nat, mem: u32 -> u32, lines: seq<Line>, avail: bool, mmapOk: bool)
    requires i <= |regs|
  {
    && (avail && mmapOk ==> lines == DumpLines(sets, regs[..i], mem))
    && (!avail ==> lines == [])
    && AllGood(sets, lines, mem)
  }

  /** One register of the dump: the invariant survives whether or not its read succeeds. */
  lemma DumpInvStep(sets: seq<RegisterSet>, regs: seq<RegisterDescription>, i: nat, mem: u32 -> u32, lines: seq<Line>,
                    avail: bool, mmapOk: bool, ok: bool, val: u32)
    requires i < |regs| && DumpInv(sets, regs, i, mem, lines, avail, mmapOk)
    requires ok <==> avail && Find(sets, regs[i].addr, NeedRead).Some? && (mmapOk || ok)
    requires ok ==> val == mem(regs[i].addr)
    ensures ok ==> Shown(sets, regs[i].addr).Some?
    ensures DumpInv(sets, regs, i + 1, mem, if ok then lines + [Line(Shown(sets, regs[i].addr).value, val)] else lines, avail, mmapOk)
  {
    DumpStep(sets, regs, i, mem);
    if ok {
      AllGoodSnoc(sets, lines, Line(Shown(sets, regs[i].addr).value, val), mem);
    }
  }

  lemma AllGoodAppend(sets: seq<RegisterSet>, a: seq<Line>, b: seq<Line>, mem: u32 -> u32)
    requires AllGood(sets, a, mem) && AllGood(sets, b, mem)
    ensures AllGood(sets, a + b, mem)
  {
    forall k | 0 <= k < |a + b|
      ensures GoodLine(sets, (a + b)[k], mem)
    {
      if k >= |a| {
        assert (a + b)[k] == b[k - |a|];
      }
    }
  }

  /** What dumping the first `idx` sets has printed, as DumpInv says for one set. */
  predicate AllInv(sets: seq<RegisterSet>, idx: nat, mem: u32 -> u32, lines: seq<Line>, avail: bool, mmapOk: bool)
    requires idx <= |sets|
  {
    && (avail && mmapOk ==> lines == AllLines(sets, idx, mem))
    && (!avail ==> lines == [])
    && AllGood(sets, lines, mem)
  }

  /** One more set dumped: its lines extend the invariant. */
  lemma AllInvStep(sets: seq<RegisterSet>, idx: nat, mem: u32 -> u32, lines: seq<Line>, more: seq<Line>, avail: bool, mmapOk: bool)
    requires idx < |sets| && AllInv(sets, idx, mem, lines, avail, mmapOk)
    requires avail && mmapOk ==> more == DumpLines(sets, sets[idx].regs, mem)
    requires !avail ==> more == []
    requires AllGood(sets, more, mem)
    ensures AllInv(sets, idx + 1, mem, lines + more, avail, mmapOk)
  {
    AllGoodAppend(sets, lines, more, mem);
    if !avail {
      assert lines + more == [];
    }
  }

  lemma LoadsOfConcat(prior: seq<MemOp>, a: seq<Line>, b: seq<Line>)
    ensures prior + LoadsOf(a) + LoadsOf(b) == prior + LoadsOf(a + b)
  {
    LoadsOfAppend(a, b);
  }

  /** Every line of a full dump is one a dump may print. */
  lemma {:induction false} DumpLinesGood(sets: seq<RegisterSet>, regs: seq<RegisterDescription>, mem: u32 -> u32)
    ensures forall k :: 0 <= k < |DumpLines(sets, regs, mem)| ==> GoodLine(sets, DumpLines(sets, regs, mem)[k], mem)
    decreases |regs|
  {
    if regs != [] {
      var a := regs[|regs| - 1].addr;
      var prefix := DumpLines(sets, regs[..|regs| - 1], mem);
      DumpLinesGood(sets, regs[..|regs| - 1], mem);
      if Find(sets, a, NeedRead).Some? {
        ReadableIsShown(sets, a);
        var l := Line(Shown(sets, a).value, mem(a));
        assert DumpLines(sets, regs, mem) == prefix + [l];
        assert GoodLine(sets, l, mem);
      } else {
        assert DumpLines(sets, regs, mem) == prefix;
      }
    }
  }

  /** A log that held the loads of `lines` after `prior` holds those of `lines + [l]` after one more load. */
  lemma LoadsOfSnoc(prior: seq<MemOp>, lines: seq<Line>, l: Line)
    ensures prior + LoadsOf(lines) + [Load(l.entry.addr)] == prior + LoadsOf(lines + [l])
  {
    assert (lines + [l])[..|lines|] == lines;
  }

  /** Dumping one more register of `regs` adds its line exactly when a read lookup accepts it. */
  lemma DumpStep(sets: seq<RegisterSet>, regs: seq<RegisterDescription>, i: nat, mem: u32 -> u32)
    requires i < |regs|
    ensures Find(sets, regs[i].addr, NeedRead).Some? ==> Shown(sets, regs[i].addr).Some?
    ensures DumpLines(sets, regs[..i + 1], mem) == DumpLines(sets, regs[..i], mem) +
      if Find(sets, regs[i].addr, NeedRead).Some? then [Line(Shown(sets, regs[i].addr).value, mem(regs[i].addr))] else []
  {
    ReadableIsShown(sets, regs[i].addr);
    assert regs[..i + 1][..i] == regs[..i];
  }

  /** The readable entries of a table, each with the word at its address. */
  function ReadableLines(regs: seq<RegisterDescription>, mem: u32 -> u32): seq<Line>
  {
    if regs == [] then []
    else
      var r := regs[|regs| - 1];
      ReadableLines(regs[..|regs| - 1], mem) + if Readable(r.access) then [Line(r, mem(r.addr))] else []
  }

  lemma {:induction false} ReadableLinesAppend(a: seq<RegisterDescription>, b: seq<RegisterDescription>, mem: u32 -> u32)
    ensures ReadableLines(a + b, mem) == ReadableLines(a, mem) + ReadableLines(b, mem)
    decreases |b|
  {
    if b != [] {
      assert (a + b)[..|a + b| - 1] == a + b[..|b| - 1];
      ReadableLinesAppend(a, b[..|b| - 1], mem);
    } else {
      assert a + b == a;
    }
  }

  /**
   * Each entry of `regs` is the entry the catalog resolves its address to:
   * `print_reg` shows it, and a read lookup succeeds exactly when it is readable.
   */
  predicate SelfShown(sets: seq<RegisterSet>, regs: seq<RegisterDescription>)
  {
    forall k :: 0 <= k < |regs| ==>
      Shown(sets, regs[k].addr) == Some(regs[k]) && (Find(sets, regs[k].addr, NeedRead).Some? <==> Readable(regs[k].access))
  }

  /** A table whose entries the catalog resolves to themselves dumps exactly its readable entries. */
  lemma {:induction false} DumpOfSelfShown(sets: seq<RegisterSet>, regs: seq<RegisterDescription>, mem: u32 -> u32)
    requires SelfShown(sets, regs)
    ensures DumpLines(sets, regs, mem) == ReadableLines(regs, mem)
    decreases |regs|
  {
    if regs != [] {
      var n := |regs| - 1;
      assert Shown(sets, regs[n].addr) == Some(regs[n]);
      assert SelfShown(sets, regs[..n]) by {
        forall k | 0 <= k < n
          ensures Shown(sets, regs[..n][k].addr) == Some(regs[..n][k])
        {
          assert regs[..n][k] == regs[k];
        }
      }
      DumpOfSelfShown(sets, regs[..n], mem);
    }
  }

  /**
   * The nested scan of the catalog (`AllRegisters_G`) that
   * `lpc32x0__get_reg`, `lpc32x0__set_reg` and `lpc32x0__print_reg` each
   * make: sets in order, entries in order, stopping at the first entry with
   * the address whose permission suits the caller; a match without it is
   * passed over.
   */
  method Lookup(sets: seq<RegisterSet>, addr: u32, need: Need) returns (found: Option<Pos>)
    ensures found == Find(sets, addr, need)
  {
    var idx := 0;
    while idx < |sets|
      invariant 0 <= idx <= |sets|
      invariant Scan(sets, addr, need, idx, 0) == Find(sets, addr, need)
    {
      var regs := sets[idx].regs;
      var i := 0;
      while i < |regs|
        invariant 0 <= i <= |regs|
        invariant Scan(sets, addr, need, idx, i) == Find(sets, addr, need)
      {
        if regs[i].addr == addr && Allows(need, regs[i].access) {
          return Some(Pos(idx, i));
        }
        i := i + 1;
      }
      idx := idx + 1;
    }
    return None;
  }

  /**
   * The globals `memFd_G`, `map_pG` and `curBase_G`, with the memory behind
   * them; `catalog` is `AllRegisters_G`, which every access scans.
   */
  class Window {
    const catalog: seq<RegisterSet>
    var fdOpen: bool
    var mapping: Mapping
    var curBase: u32
    var phys: u32 -> u32
    var log: seq<MemOp>

    /** `curBase_G` is always a page start, and a live mapping is of that page. */
    predicate Valid()
      reads this
    {
      curBase % 0x1000 == 0 && (mapping.Mapped? ==> mapping.base == curBase)
    }

    /** The initial values: no descriptor, no mapping, base 0. */
    constructor (mem: u32 -> u32)
      ensures Valid()
      ensures catalog == AllRegisters && SelfNamed(catalog)
      ensures !fdOpen && mapping == Unmapped && curBase == 0 && phys == mem && log == []
    {
      catalog := AllRegisters;
      fdOpen := false;
      mapping := Unmapped;
      curBase := 0;
      phys := mem;
      log := [];
      CatalogNamesDistinct();
      SelfNamedIffDistinct(AllRegisters);
    }

    /** `open_dev_mem`: opens /dev/mem unless it is open already. */
    method OpenDevMem(openOk: bool) returns (ok: bool)
      modifies this`fdOpen
      ensures ok == (old(fdOpen) || openOk)
      ensures fdOpen == ok
    {
      if !fdOpen {
        fdOpen := openOk;
        if !openOk {
          return false;
        }
      }
      return true;
    }

    /**
     * `set_mapping` with the window check it evidently intends: the page of
     * `addr` is (re)mapped unless it is the live mapping, `curBase_G` is
     * updated before `mmap` is tried, and success means the page is mapped.
     */
    method SetMapping(addr: u32, mmapOk: bool) returns (ok: bool)
      requires Valid()
      modifies this`mapping, this`curBase
      ensures Valid()
      ensures curBase == PageOf(addr)
      ensures ok <==> mapping == Mapped(PageOf(addr))
      ensures ok <==> old(mapping) == Mapped(PageOf(addr)) || mmapOk
      ensures old(mapping) == Mapped(PageOf(addr)) ==> mapping == old(mapping)
      ensures !ok ==> mapping == MapFailed
    {
      var newBase := PageOf(addr);
      PageSplit(addr);
      if !mapping.Mapped? || curBase != newBase {
        curBase := newBase;
        if mmapOk {
          mapping := Mapped(newBase);
        } else {
          mapping := MapFailed;
          return false;
        }
      }
      return true;
    }

    /**
     * `set_mapping` as written: it remaps only when the page differs from
     * `curBase_G`, whether or not a mapping is live.
     */
    method SetMappingAsWritten(addr: u32, mmapOk: bool) returns (ok: bool)
      requires Valid()
      modifies this`mapping, this`curBase
      ensures Valid()
      ensures curBase == PageOf(addr)
      ensures old(curBase) == PageOf(addr) ==> ok && mapping == old(mapping)
      ensures old(curBase) != PageOf(addr) ==> ok == mmapOk && mapping == (if mmapOk then Mapped(PageOf(addr)) else MapFailed)
    {
      var newBase := PageOf(addr);
      PageSplit(addr);
      if curBase != newBase {
        curBase := newBase;
        if mmapOk {
          mapping := Mapped(newBase);
        } else {
          mapping := MapFailed;
          return false;
        }
      }
      return true;
    }

    /** `lpc32x0__cleanup`: closes the descriptor and drops the mapping; `curBase_G` is kept. */
    method Cleanup()
      requires Valid()
      modifies this`fdOpen, this`mapping
      ensures Valid()
      ensures !fdOpen && mapping == Unmapped
    {
      fdOpen := false;
      mapping := Unmapped;
    }

    /**
     * `lpc32x0__get_reg`. `prior` is the caller's variable, left alone when
     * /dev/mem cannot be opened. The scan stops at the first readable entry
     * with the address; a non-readable match is skipped without any access.
     */
    method GetReg(addr: u32, openOk: bool, mmapOk: bool, prior: u32) returns (ok: bool, val: u32)
      requires Valid()
      modifies this`fdOpen, this`mapping, this`curBase, this`log
      ensures Valid()
      ensures fdOpen == (old(fdOpen) || openOk)
      ensures ok <==> fdOpen && Find(catalog, addr, NeedRead).Some? && (old(mapping) == Mapped(PageOf(addr)) || mmapOk)
      ensures ok ==> val == phys(addr) && log == old(log) + [Load(addr)] && mapping == Mapped(PageOf(addr))
      ensures !ok ==> log == old(log) && val == (if fdOpen then 0xffff_ffff else prior)
      ensures (!fdOpen || Find(catalog, addr, NeedRead).None?) ==> mapping == old(mapping) && curBase == old(curBase)
    {
      var isOpen := OpenDevMem(openOk);
      if !isOpen {
        return false, prior;
      }
      val := 0xffff_ffff;
      var found := Lookup(catalog, addr, NeedRead);
      if found.None? {
        return false, val;
      }
      var mapped := SetMapping(addr, mmapOk);
      if !mapped {
        return false, val;
      }
      PageSplit(addr);
      val := phys(curBase + OffsetOf(addr));
      log := log + [Load(addr)];
      return true, val;
    }

    /**
     * `lpc32x0__set_reg`, the mirror of GetReg: the first writable entry with
     * the address lets the value be stored; nothing is stored otherwise.
     */
    method SetReg(addr: u32, val: u32, openOk: bool, mmapOk: bool) returns (ok: bool)
      requires Valid()
      modifies this`fdOpen, this`mapping, this`curBase, this`log, this`phys
      ensures Valid()
      ensures fdOpen == (old(fdOpen) || openOk)
      ensures ok <==> fdOpen && Find(catalog, addr, NeedWrite).Some? && (old(mapping) == Mapped(PageOf(addr)) || mmapOk)
      ensures ok ==> log == old(log) + [Store(addr, val)] && mapping == Mapped(PageOf(addr))
      ensures ok ==> forall a :: phys(a) == if a == addr then val else old(phys)(a)
      ensures !ok ==> log == old(log) && phys == old(phys)
      ensures (!fdOpen || Find(catalog, addr, NeedWrite).None?) ==> mapping == old(mapping) && curBase == old(curBase)
    {
      var isOpen := OpenDevMem(openOk);
      if !isOpen {
        return false;
      }
      var found := Lookup(catalog, addr, NeedWrite);
      if found.None? {
        return false;
      }
      var mapped := SetMapping(addr, mmapOk);
      if !mapped {
        return false;
      }
      PageSplit(addr);
      var target := curBase + OffsetOf(addr);
      var mem := phys;
      phys := (a: u32) => if a == target then val else mem(a);
      log := log + [Store(addr, val)];
      return true;
    }

    /**
     * `lpc32x0__print_reg`: shows the first entry with the address whatever
     * its permission, and calls its decoder only in verbose mode and only
     * when it has one. The printed text is left out.
     */
    method PrintReg(addr: u32, val: u32, verbose: bool) returns (found: bool, shown: Option<RegisterDescription>, decoded: bool)
      ensures found <==> Find(catalog, addr, AnyAccess).Some?
      ensures shown == Shown(catalog, addr)
      ensures decoded <==> found && verbose && shown.value.hasDecoder
    {
      var p := Lookup(catalog, addr, AnyAccess);
      if p.None? {
        return false, None, false;
      }
      FindSpec(catalog, addr, AnyAccess);
      var entry := At(catalog, p.value);
      return true, Some(entry), verbose && entry.hasDecoder;
    }

    /**
     * The body of `lpc32x0__get_and_print_reg_set_by_name` once the set is
     * found: each register of `regs` in order is read with GetReg and, when
     * the read succeeds, printed. `openOk` and `mmapOk` are the outcomes of
     * every `open` and `mmap` tried. With /dev/mem available and every
     * mapping succeeding, the lines are DumpLines of `regs`; in any case each
     * line is a readable register with its current value, and the log holds
     * exactly the loads behind the lines.
     */
    method DumpRegs(regs: seq<RegisterDescription>, verbose: bool, openOk: bool, mmapOk: bool) returns (lines: seq<Line>)
      requires Valid()
      modifies this`fdOpen, this`mapping, this`curBase, this`log
      ensures Valid()
      ensures (old(fdOpen) || openOk) && mmapOk ==> lines == DumpLines(catalog, regs, phys)
      ensures !(old(fdOpen) || openOk) ==> lines == [] && !fdOpen
      ensures fdOpen == (old(fdOpen) || (openOk && |regs| > 0))
      ensures AllGood(catalog, lines, phys)
      ensures log == old(log) + LoadsOf(lines)
    {
      lines := [];
      var mem := phys;
      var avail := old(fdOpen) || openOk;
      var i := 0;
      while i < |regs|
        invariant 0 <= i <= |regs|
        invariant Valid() && phys == mem
        invariant fdOpen == (old(fdOpen) || (openOk && i > 0))
        invariant DumpInv(catalog, regs, i, mem, lines, avail, mmapOk)
        invariant log == old(log) + LoadsOf(lines)
      {
        var a := regs[i].addr;
        var ok, val := GetReg(a, openOk, mmapOk, 0);
        DumpInvStep(catalog, regs, i, mem, lines, avail, mmapOk, ok, val);
        if ok {
          var _, shown, _ := PrintReg(a, val, verbose);
          var l := Line(shown.value, val);
          LoadsOfSnoc(old(log), lines, l);
          lines := lines + [l];
        }
        i := i + 1;
      }
      assert regs[..|regs|] == regs;
    }

    /**
     * `lpc32x0__get_and_print_reg_set_by_name`: dumps the first set whose
     * name compares equal to `name`, and reports whether there was one.
     */
    method GetAndPrintRegSetByName(name: string, verbose: bool, openOk: bool, mmapOk: bool) returns (found: bool, lines: seq<Line>)
      requires Valid()
      modifies this`fdOpen, this`mapping, this`curBase, this`log
      ensures Valid()
      ensures found <==> NamedSet(catalog, name, 0).Some?
      ensures !found ==> lines == [] && fdOpen == old(fdOpen)
      ensures !found ==> mapping == old(mapping) && curBase == old(curBase)
      ensures found && (old(fdOpen) || openOk) && mmapOk ==> lines == DumpLines(catalog, catalog[NamedSet(catalog, name, 0).value].regs, phys)
      ensures !(old(fdOpen) || openOk) ==> lines == [] && !fdOpen
      ensures old(fdOpen) ==> fdOpen
      ensures fdOpen ==> old(fdOpen) || openOk
      ensures AllGood(catalog, lines, phys)
      ensures log == old(log) + LoadsOf(lines)
    {
      var idx := 0;
      while idx < |catalog|
        invariant 0 <= idx <= |catalog|
        invariant NamedSet(catalog, name, idx) == NamedSet(catalog, name, 0)
      {
        if catalog[idx].name == name {
          lines := DumpRegs(catalog[idx].regs, verbose, openOk, mmapOk);
          return true, lines;
        }
        idx := idx + 1;
      }
      return false, [];
    }

    /**
     * `lpc32x0__get_and_print_all_regs`: dumps every set by its name, in
     * catalog order. The result is false only if some set's name were not
     * found, which distinct names rule out, so it is always true.
     */
    method GetAndPrintAllRegs(verbose: bool, openOk: bool, mmapOk: bool) returns (rtn: bool, lines: seq<Line>)
      requires Valid() && SelfNamed(catalog)
      modifies this`fdOpen, this`mapping, this`curBase, this`log
      ensures Valid()
      ensures rtn
      ensures (old(fdOpen) || openOk) && mmapOk ==> lines == AllLines(catalog, |catalog|, phys)
      ensures !(old(fdOpen) || openOk) ==> lines == [] && !fdOpen
      ensures AllGood(catalog, lines, phys)
      ensures log == old(log) + LoadsOf(lines)
    {
      rtn := true;
      lines := [];
      var mem := phys;
      var avail := old(fdOpen) || openOk;
      ghost var start := log;
      var idx := 0;
      while idx < |catalog|
        invariant 0 <= idx <= |catalog|
        invariant Valid() && phys == mem && rtn
        invariant (fdOpen || openOk) == avail
        invariant AllInv(catalog, idx, mem, lines, avail, mmapOk)
        invariant log == start + LoadsOf(lines)
      {
        ghost var before := log;
        var found, more := GetAndPrintRegSetByName(catalog[idx].name, verbose, openOk, mmapOk);
        if !found {
          rtn := false;
        }
        AllInvStep(catalog, idx, mem, lines, more, avail, mmapOk);
        assert log == before + LoadsOf(more);
        LoadsOfConcat(start, lines, more);
        lines, idx := lines + more, idx + 1;
        assert AllInv(catalog, idx, mem, lines, avail, mmapOk);
      }
    }
  }

  /**
   * SetMappingAsWritten after Cleanup: the mapping is gone but `curBase_G`
   * still names the page of SPI1_STAT, so the next access to that page is
   * reported mapped while `map_pG` is NULL.
   */
  method StaleAfterCleanup() returns (ok: bool, after: Mapping)
    ensures ok && after == Unmapped
  {
    var w := new Window(a => 0);
    var isOpen := w.OpenDevMem(true);
    var mapped := w.SetMappingAsWritten(SPI1_STAT, true);
    w.Cleanup();
    ok := w.SetMappingAsWritten(SPI1_STAT, true);
    after := w.mapping;
  }

  /**
   * SetMappingAsWritten after a failed `mmap`: `curBase_G` was updated before
   * the attempt, so the next access to the same page (SPI1_DAT after
   * SPI1_STAT) is reported mapped while `map_pG` is MAP_FAILED, and `mmap`
   * is not tried again even though it would now succeed.
   */
  method StaleAfterFailedMap() returns (first: bool, second: bool, after: Mapping)
    ensures !first && second && after == MapFailed
  {
    var w := new Window(a => 0);
    var isOpen := w.OpenDevMem(true);
    first := w.SetMappingAsWritten(SPI1_STAT, false);
    second := w.SetMappingAsWritten(SPI1_DAT, true);
    after := w.mapping;
  }

  /** SetMapping, in the same sequence as StaleAfterCleanup, maps the page again. */
  method RemapAfterCleanup() returns (ok: bool, after: Mapping)
    ensures ok && after == Mapped(SPI1_GLOBAL)
  {
    var w := new Window(a => 0);
    var isOpen := w.OpenDevMem(true);
    var mapped := w.SetMapping(SPI1_STAT, true);
    w.Cleanup();
    ok := w.SetMapping(SPI1_STAT, true);
    after := w.mapping;
  }

  /** SetMapping, in the same sequence as StaleAfterFailedMap, tries `mmap` again and succeeds. */
  method RetryAfterFailedMap() returns (first: bool, second: bool, after: Mapping)
    ensures !first && second && after == Mapped(SPI1_GLOBAL)
  {
    var w := new Window(a => 0);
    var isOpen := w.OpenDevMem(true);
    first := w.SetMapping(SPI1_STAT, false);
    second := w.SetMapping(SPI1_DAT, true);
    after := w.mapping;
  }

  /** The catalog's set names are distinct. */
  lemma CatalogNamesDistinct()
    ensures NamesDistinct(AllRegisters)
  {
  }
}
