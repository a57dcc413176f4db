/** The memory limit (src/limits/MemoryLimitListener.cc): the address space limit the kernel enforces, the large requests
    that are traced, and the peak that is checked on every event. */
module MemoryLimit {
  import opened Common
  import opened Bits
  import opened Supervision
  import R = ResultRecord

  const KIB := 1024
  const PAGE := 4096
  const MEMORY_LIMIT_MARGIN := 8 * KIB * KIB
  const MREMAP_DONTUNMAP := 4

  /** A request for address space. */
  datatype Request =
    | Map(address: Size, length: Size)
    | Remap(oldSize: Size, newSize: Size, flags: Size)

  /** flags & MREMAP_DONTUNMAP. */
  predicate KeepsOld(flags: Size) {
    flags / MREMAP_DONTUNMAP % 2 == 1
  }

  /** What the filters of the traced rules match. */
  predicate IsTraced(r: Request) {
    match r
    case Map(address, length) => address == 0 && length > MEMORY_LIMIT_MARGIN / 2
    case Remap(_, newSize, _) => newSize > MEMORY_LIMIT_MARGIN / 2
  }

  // ------------------------------------------------------------------ the kernel's side

  function Pages(bytes: nat): nat {
    (bytes + PAGE - 1) / PAGE
  }

  /** The pages a request adds. A remapping that keeps the old pages adds all the new ones. */
  function Growth(r: Request): nat {
    match r
    case Map(_, length) => Pages(length)
    case Remap(oldSize, newSize, flags) =>
      if KeepsOld(flags) then Pages(newSize)
      else if Pages(newSize) > Pages(oldSize) then Pages(newSize) - Pages(oldSize)
      else 0
  }

  /** The limit set on the address space, in 64 bits. */
  function AddressSpaceLimit(limitKb: Size): Size {
    (limitKb * KIB + MEMORY_LIMIT_MARGIN) % WORD_SIZE
  }

  /** The kernel counts the limit in whole pages; `used` is the pages of the address space. */
  predicate Refused(limitKb: Size, used: nat, r: Request) {
    Growth(r) > 0 && used + Growth(r) > AddressSpaceLimit(limitKb) / PAGE
  }

  /** VmSize; VmPeak is never less. */
  function UsageKb(used: nat): nat {
    used * (PAGE / KIB)
  }

  // ------------------------------------------------------------------ the supervisor's side

  /** A remapping that shrinks, or stays, is let through. */
  predicate Shrinks(r: Request) {
    r.Remap? && !KeepsOld(r.flags) && r.oldSize >= r.newSize
  }

  /** What the handlers of the traced rules count a request as. */
  function CountedKb(r: Request): nat {
    match r
    case Map(_, length) => length / KIB
    case Remap(oldSize, newSize, flags) =>
      if KeepsOld(flags) then newSize / KIB
      else if oldSize >= newSize then 0
      else (newSize - oldSize) / KIB
  }

  /** What the handlers go by: the limit, whether exec has been seen, and the size of the address space in pages. */
  datatype View = View(limitKb: Size, peakValid: bool, used: nat) {
    /** The size they come to with a request they count. */
    function Reached(r: Request): nat {
      if peakValid && !Shrinks(r) then UsageKb(used) + CountedKb(r) else 0
    }

    predicate Kills(r: Request) {
      limitKb > 0 && Reached(r) > limitKb
    }
  }

  /** The request is on the limit's account: killed before it is made, or the peak is over the limit already, which the
      next event finds. */
  predicate Attributed(limitKb: Size, used: nat, r: Request) {
    || (IsTraced(r) && UsageKb(used) + CountedKb(r) > limitKb)
    || UsageKb(used) > limitKb
  }

  // ------------------------------------------------------------------ what is killed, in bytes

  /** What a request adds to the size, in bytes: the length of a mapping, the growth of a remapping, or its whole new size
      if bit 2 of its flags keeps the old pages. */
  function AddedBytes(r: Request): int {
    match r
    case Map(_, length) => length
    case Remap(oldSize, newSize, flags) => if BitAt(flags, 2) then newSize else newSize - oldSize
  }

  lemma KeepsOldIsBit(flags: Size)
    ensures KeepsOld(flags) <==> BitAt(flags, 2)
  {
    assert BitAt(flags, 2) == BitAt(flags / 2, 1) == BitAt(flags / 2 / 2, 0);
    assert flags / 2 / 2 == flags / 4;
  }

  lemma Floor(kb: nat, bytes: nat, limitKb: nat)
    ensures kb + bytes / KIB > limitKb <==> kb * KIB + bytes >= (limitKb + 1) * KIB
  {}

  /** A request is killed exactly after exec, under a limit, when it adds something, or keeps the old pages, and takes the
      size to a whole KiB over the limit. */
  lemma KillsIff(view: View, r: Request)
    ensures view.Kills(r) <==>
      && view.peakValid && view.limitKb > 0
      && (r.Remap? ==> AddedBytes(r) > 0 || BitAt(r.flags, 2))
      && view.used * PAGE + AddedBytes(r) >= (view.limitKb + 1) * KIB
  {
    if r.Remap? {
      KeepsOldIsBit(r.flags);
    }
    if AddedBytes(r) >= 0 {
      Floor(UsageKb(view.used), AddedBytes(r), view.limitKb);
    }
  }

  // ------------------------------------------------------------------ refusals are attributed

  lemma PagesBound(bytes: nat)
    ensures bytes <= Pages(bytes) * PAGE <= bytes + PAGE - 1
  {}

  lemma CountedIsNear(r: Request)
    requires r.Map? ==> r.address == 0
    ensures Growth(r) > 0 ==> Growth(r) * PAGE <= CountedKb(r) * KIB + 2 * PAGE
    ensures !IsTraced(r) ==> Growth(r) * PAGE <= MEMORY_LIMIT_MARGIN / 2
  {
    match r
    case Map(_, length) => PagesBound(length);
    case Remap(oldSize, newSize, _) => {
      PagesBound(oldSize);
      PagesBound(newSize);
    }
  }

  /** A limit that fits in 64 bits with its margin: a mapping the kernel was free to place, or a growing remapping, that
      the kernel refuses is on the limit's account. */
  lemma RefusalsAreAttributed(limitKb: Size, used: nat, r: Request)
    requires limitKb * KIB + MEMORY_LIMIT_MARGIN < WORD_SIZE
    requires r.Map? ==> r.address == 0
    requires Refused(limitKb, used, r)
    ensures Attributed(limitKb, used, r)
  {
    CountedIsNear(r);
    var limit := AddressSpaceLimit(limitKb);
    assert limit / PAGE * PAGE > limit - PAGE;
    assert (used + Growth(r)) * PAGE > limit / PAGE * PAGE;
  }

  /** And only then: a limit that wraps around with its margin lets the kernel refuse what nobody is killed for. */
  lemma AttributedIff(limitKb: Size)
    ensures limitKb * KIB + MEMORY_LIMIT_MARGIN < WORD_SIZE <==>
      forall used: nat, r: Request :: (r.Map? ==> r.address == 0) && Refused(limitKb, used, r) ==> Attributed(limitKb, used, r)
  {
    if limitKb * KIB + MEMORY_LIMIT_MARGIN < WORD_SIZE {
      forall used: nat, r: Request | (r.Map? ==> r.address == 0) && Refused(limitKb, used, r)
        ensures Attributed(limitKb, used, r)
      {
        RefusalsAreAttributed(limitKb, used, r);
      }
    } else {
      var limit := AddressSpaceLimit(limitKb);
      var used, r := limit / PAGE, Map(0, 1);
      assert Pages(1) == 1;
      assert used * PAGE <= limit;
      assert Refused(limitKb, used, r) && !Attributed(limitKb, used, r);
    }
  }

  /** A mapping with an address hint is not traced: whatever the hint, the kernel can refuse one that is on nobody's
      account, and without a hint it never does. */
  lemma HintedMappingsEscape(limitKb: Size, address: Size)
    requires limitKb * KIB + MEMORY_LIMIT_MARGIN < WORD_SIZE
    ensures address == 0 <==>
      forall used: nat, r: Request | r.Map? && r.address == address && Refused(limitKb, used, r) ::
        Attributed(limitKb, used, r)
  {
    if address == 0 {
      forall used: nat, r: Request | r.Map? && r.address == address && Refused(limitKb, used, r)
        ensures Attributed(limitKb, used, r)
      {
        RefusalsAreAttributed(limitKb, used, r);
      }
    } else {
      var used, r := limitKb / (PAGE / KIB), Map(address, MEMORY_LIMIT_MARGIN + 4 * PAGE);
      assert Growth(r) == MEMORY_LIMIT_MARGIN / PAGE + 4;
      assert Refused(limitKb, used, r) && !Attributed(limitKb, used, r);
    }
  }

  // ------------------------------------------------------------------ the listener

  class MemoryLimitListener {
    const memoryLimitKb: Size
    const out: R.OIModelOutputBuilder
    var memoryPeakKb: nat
    var vmPeakValid: bool

    constructor (memoryLimitKb: Size, out: R.OIModelOutputBuilder)
      ensures this.memoryLimitKb == memoryLimitKb && this.out == out && memoryPeakKb == 0 && !vmPeakValid
    {
      this.memoryLimitKb, this.out, memoryPeakKb, vmPeakValid := memoryLimitKb, out, 0, false;
    }

    function Sees(used: nat): View
      reads this
    {
      View(memoryLimitKb, vmPeakValid, used)
    }

    method OnPostExec()
      modifies this
      ensures vmPeakValid && memoryPeakKb == old(memoryPeakKb)
    {
      vmPeakValid := true;
    }

    method RaisePeak(sizeKb: nat)
      modifies this`memoryPeakKb
      ensures memoryPeakKb == Max(old(memoryPeakKb), sizeKb)
    {
      memoryPeakKb := Max(memoryPeakKb, sizeKb);
    }

    method OnExecuteEvent(vmPeakKb: nat, ghost c: Config, ghost s: Sandbox, ghost o: Oracle) returns (kill: bool)
      requires c.memoryLimitKb == memoryLimitKb && s.peakKb == memoryPeakKb && s.peakValid == vmPeakValid
      requires s.verdict == out.verdict && o.vmPeakKb == vmPeakKb
      modifies this, out
      ensures MemoryOnEvent(c, s, o) == (s.(peakKb := memoryPeakKb, verdict := out.verdict), kill)
      ensures vmPeakValid == old(vmPeakValid)
    {
      if !vmPeakValid {
        return false;
      }
      RaisePeak(vmPeakKb);
      if memoryLimitKb > 0 && memoryPeakKb > memoryLimitKb {
        out.SetKillReason(R.MLE);
        return true;
      }
      return false;
    }

    method HandleMemoryAllocation(vmSizeKb: nat, allocatedMemoryKb: nat) returns (kill: bool)
      modifies this, out
      ensures kill <==> memoryLimitKb > 0 && vmSizeKb + allocatedMemoryKb > memoryLimitKb
      ensures out.verdict == if kill then old(out.verdict).WithReason(R.MLE) else old(out.verdict)
      ensures memoryPeakKb == Max(old(memoryPeakKb), vmSizeKb + allocatedMemoryKb)
      ensures vmPeakValid == old(vmPeakValid)
    {
      var memoryUsage := vmSizeKb + allocatedMemoryKb;
      RaisePeak(memoryUsage);
      if memoryLimitKb > 0 && memoryUsage > memoryLimitKb {
        out.SetKillReason(R.MLE);
        return true;
      }
      return false;
    }

    /** The handlers of the traced rules. The subtraction does not underflow. */
    method OnRequest(r: Request, used: nat) returns (kill: bool)
      modifies this, out
      ensures vmPeakValid == old(vmPeakValid)
      ensures kill <==> old(Sees(used)).Kills(r)
      ensures memoryPeakKb == Max(old(memoryPeakKb), old(Sees(used)).Reached(r))
      ensures out.verdict == if kill then old(out.verdict).WithReason(R.MLE) else old(out.verdict)
    {
      if !vmPeakValid {
        return false;
      }
      match r
      case Map(_, length) => kill := HandleMemoryAllocation(UsageKb(used), length / KIB);
      case Remap(oldSize, newSize, flags) =>
        var doesntUnmap := KeepsOld(flags);
        if !doesntUnmap && oldSize >= newSize {
          return false;
        }
        var newMemoryAllocated: Size := newSize;
        if !doesntUnmap {
          newMemoryAllocated := newMemoryAllocated - oldSize;
        }
        kill := HandleMemoryAllocation(UsageKb(used), newMemoryAllocated / KIB);
    }
  }
}
