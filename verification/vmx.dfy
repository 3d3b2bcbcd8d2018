/**
 * The bookkeeping rules of the VT-x ring-0 code (VMM/VMMR0/HWVMXR0.cpp) that sit
 * around the VMX instructions: where an MSR's permission bits live in the MSR
 * bitmap, the VMCS write cache used by 32-bit hosts, VPID/ASID allocation and TLB
 * flushing before a world switch, the choice of INVEPT/INVVPID flush types, the
 * control words, the exception bitmap, the preemption-timer clamp, the escalation
 * of events injected into an emulated real-mode guest, and the DR7/TR/CR0 fix-ups.
 *
 * The VMX instructions themselves are outside: a VMCS write is an entry in a log
 * and an INVEPT/INVVPID is an entry in a flush log.  Bit positions of the control
 * words, capability bits, exception vectors, CR0 bits and VMCS field encodings are
 * those of the Intel SDM (x86.h, hm_vmx.h and vmx.h are not part of this model).
 */
module VmxR0 {
  import opened Wrappers

  /** The VBox status codes this file returns. */
  datatype Rc =
    | VINF_SUCCESS
    | VERR_ACCESS_DENIED
    | VERR_INVALID_PARAMETER
    | VERR_HM_UNSUPPORTED_CPU_FEATURE_COMBO
    | VINF_EM_RESET

  // ---------------------------------------------------------------------------
  // MSR bitmap (hmR0VmxSetMSRPermission)
  // ---------------------------------------------------------------------------

  /** The MSR bitmap page holds 4096 bytes: read bits low, read bits high, write bits low, write bits high. */
  const MSR_BITMAP_BITS: nat := 0x8000
  /** Byte offset 0x400 of the high-MSR read bits, in bits. */
  const HIGH_MSR_OFFSET: nat := 0x2000
  /** Byte offset 0x800 of the write bits, in bits. */
  const WRITE_OFFSET: nat := 0x4000

  /** The read bit an MSR's permission lives at, if the bitmap covers the MSR. */
  function MsrReadBit(msr: nat): (r: Option<nat>)
    ensures r.Some? <==> msr <= 0x1FFF || 0xC000_0000 <= msr <= 0xC000_1FFF
    ensures r.Some? ==> r.value < WRITE_OFFSET
    ensures r.Some? && msr <= 0x1FFF ==> r.value < HIGH_MSR_OFFSET
    ensures r.Some? && msr > 0x1FFF ==> HIGH_MSR_OFFSET <= r.value
  {
    if msr <= 0x1FFF then Some(msr)
    else if 0xC000_0000 <= msr <= 0xC000_1FFF then Some(HIGH_MSR_OFFSET + (msr - 0xC000_0000))
    else None
  }

  /** Two covered MSRs never share a permission bit. */
  lemma MsrReadBitInjective(a: nat, b: nat)
    requires MsrReadBit(a).Some? && MsrReadBit(b).Some?
    ensures MsrReadBit(a) == MsrReadBit(b) <==> a == b
  {
  }

  /** Whether the guest may read and write an MSR without an exit: a clear bit allows. */
  function MsrPermission(bits: seq<bool>, msr: nat): (r: Option<(bool, bool)>)
    requires |bits| == MSR_BITMAP_BITS
    ensures r.Some? <==> MsrReadBit(msr).Some?
  {
    match MsrReadBit(msr)
    case None => None
    case Some(b) => Some((!bits[b], !bits[b + WRITE_OFFSET]))
  }

  /** The MSR bitmap of a VCPU, updated bit by bit. */
  class MsrBitmap {
    const bits: array<bool>

    /** The page starts filled with ones: every access to every covered MSR exits. */
    constructor ()
      ensures bits.Length == MSR_BITMAP_BITS && fresh(bits)
      ensures forall msr :: MsrReadBit(msr).Some? ==> MsrPermission(bits[..], msr) == Some((false, false))
    {
      bits := new bool[MSR_BITMAP_BITS](_ => true);
    }

    /**
     * hmR0VmxSetMSRPermission: the read bit is cleared iff reads are allowed and
     * the write bit iff writes are; an MSR outside both ranges changes nothing.
     */
    method SetPermission(msr: nat, read: bool, write: bool)
      requires bits.Length == MSR_BITMAP_BITS
      modifies bits
      ensures MsrReadBit(msr).None? ==> bits[..] == old(bits[..])
      ensures MsrReadBit(msr).Some? ==>
        var b := MsrReadBit(msr).value;
        bits[..] == old(bits[..])[b := !read][b + WRITE_OFFSET := !write]
    {
      var base: nat := 0;
      var bit: nat;
      if msr <= 0x1FFF {
        bit := msr;
      } else if 0xC000_0000 <= msr <= 0xC000_1FFF {
        bit := msr - 0xC000_0000;
        base := HIGH_MSR_OFFSET;
      } else {
        return;
      }
      bits[base + bit] := !read;
      bits[base + bit + WRITE_OFFSET] := !write;
    }

    /** Lets the guest read and write one MSR without exits; every other MSR keeps its permission. */
    method AllowMsr(msr: nat)
      requires bits.Length == MSR_BITMAP_BITS && MsrReadBit(msr).Some?
      modifies bits
      ensures Allowed(old(bits[..]), bits[..], {msr})
    {
      SetPermission(msr, true, true);
      forall other | other != msr
        ensures MsrPermission(bits[..], other) == MsrPermission(old(bits[..]), other)
      {
        PermissionReadsBack(old(bits[..]), msr, true, true, other);
      }
      PermissionReadsBack(old(bits[..]), msr, true, true, msr);
    }

    /** AllowMsr applied to `msr` after the MSRs in `done` were allowed since `start`. */
    method AllowNext(msr: nat, ghost start: seq<bool>, ghost done: set<nat>)
      requires bits.Length == MSR_BITMAP_BITS && MsrReadBit(msr).Some?
      requires |start| == MSR_BITMAP_BITS && Allowed(start, bits[..], done)
      modifies bits
      ensures Allowed(start, bits[..], done + {msr})
    {
      ghost var mid := bits[..];
      AllowMsr(msr);
      AllowedThen(start, mid, bits[..], done, {msr});
    }

    /**
     * The MSRs VMXR0SetupVM hands to the guest (they are swapped through the
     * MSR-load/store areas): the SYSENTER, SYSCALL and segment-base MSRs, and
     * TSC_AUX when RDTSCP is enabled.  Every other MSR keeps its permission.
     */
    method AllowGuestMsrs(rdtscp: bool)
      requires bits.Length == MSR_BITMAP_BITS
      modifies bits
      ensures Allowed(old(bits[..]), bits[..], GuestMsrs(rdtscp))
    {
      ghost var start := bits[..];
      AllowMsr(MSR_IA32_SYSENTER_CS);
      ghost var done := {MSR_IA32_SYSENTER_CS};
      AllowNext(MSR_IA32_SYSENTER_ESP, start, done);
      done := done + {MSR_IA32_SYSENTER_ESP};
      AllowNext(MSR_IA32_SYSENTER_EIP, start, done);
      done := done + {MSR_IA32_SYSENTER_EIP};
      AllowNext(MSR_K8_LSTAR, start, done);
      done := done + {MSR_K8_LSTAR};
      AllowNext(MSR_K6_STAR, start, done);
      done := done + {MSR_K6_STAR};
      AllowNext(MSR_K8_SF_MASK, start, done);
      done := done + {MSR_K8_SF_MASK};
      AllowNext(MSR_K8_KERNEL_GS_BASE, start, done);
      done := done + {MSR_K8_KERNEL_GS_BASE};
      AllowNext(MSR_K8_GS_BASE, start, done);
      done := done + {MSR_K8_GS_BASE};
      AllowNext(MSR_K8_FS_BASE, start, done);
      done := done + {MSR_K8_FS_BASE};
      if rdtscp {
        AllowNext(MSR_K8_TSC_AUX, start, done);
      } else {
        assert done + {} == done;
      }
    }
  }

  /** MSR numbers. */
  const MSR_IA32_SYSENTER_CS: nat := 0x174
  const MSR_IA32_SYSENTER_ESP: nat := 0x175
  const MSR_IA32_SYSENTER_EIP: nat := 0x176
  const MSR_K6_STAR: nat := 0xC000_0081
  const MSR_K8_LSTAR: nat := 0xC000_0082
  const MSR_K8_SF_MASK: nat := 0xC000_0084
  const MSR_K8_FS_BASE: nat := 0xC000_0100
  const MSR_K8_GS_BASE: nat := 0xC000_0101
  const MSR_K8_KERNEL_GS_BASE: nat := 0xC000_0102
  const MSR_K8_TSC_AUX: nat := 0xC000_0103

  /** The MSRs the guest accesses without exits. */
  function GuestMsrs(rdtscp: bool): set<nat>
  {
    {MSR_IA32_SYSENTER_CS} + {MSR_IA32_SYSENTER_ESP} + {MSR_IA32_SYSENTER_EIP} + {MSR_K8_LSTAR}
    + {MSR_K6_STAR} + {MSR_K8_SF_MASK} + {MSR_K8_KERNEL_GS_BASE} + {MSR_K8_GS_BASE} + {MSR_K8_FS_BASE}
    + (if rdtscp then {MSR_K8_TSC_AUX} else {})
  }

  /**
   * From `before` to `after`, every MSR in `done` became readable and writable
   * without exits and every other MSR kept its permission.
   */
  ghost predicate Allowed(before: seq<bool>, after: seq<bool>, done: set<nat>)
    requires |before| == MSR_BITMAP_BITS && |after| == MSR_BITMAP_BITS
  {
    && (forall msr :: msr in done ==> MsrPermission(after, msr) == Some((true, true)))
    && (forall msr :: msr !in done ==> MsrPermission(after, msr) == MsrPermission(before, msr))
  }

  /** Allowing `d1` and then `d2` allows both. */
  lemma AllowedThen(a: seq<bool>, b: seq<bool>, c: seq<bool>, d1: set<nat>, d2: set<nat>)
    requires |a| == MSR_BITMAP_BITS && |b| == MSR_BITMAP_BITS && |c| == MSR_BITMAP_BITS
    requires Allowed(a, b, d1) && Allowed(b, c, d2)
    ensures Allowed(a, c, d1 + d2)
  {
    forall msr | msr in d1 && msr !in d2
      ensures MsrPermission(c, msr) == Some((true, true))
    {
      assert MsrPermission(b, msr) == Some((true, true));
    }
  }

  /** After setting an MSR's permission, that MSR reads back as set and every other MSR is unaffected. */
  lemma PermissionReadsBack(before: seq<bool>, msr: nat, read: bool, write: bool, other: nat)
    requires |before| == MSR_BITMAP_BITS && MsrReadBit(msr).Some?
    ensures var b := MsrReadBit(msr).value;
      var after := before[b := !read][b + WRITE_OFFSET := !write];
      && MsrPermission(after, msr) == Some((read, write))
      && (other != msr ==> MsrPermission(after, other) == MsrPermission(before, other))
  {
    var b := MsrReadBit(msr).value;
    var after := before[b := !read][b + WRITE_OFFSET := !write];
    if other != msr && MsrReadBit(other).Some? {
      var c := MsrReadBit(other).value;
      MsrReadBitInjective(msr, other);
      assert after[c] == before[c] && after[c + WRITE_OFFSET] == before[c + WRITE_OFFSET];
    }
  }

  // ---------------------------------------------------------------------------
  // VMCS write cache (VMXWriteCachedVmcsEx) and 64-bit write routing (VMXWriteVmcs64Ex)
  // ---------------------------------------------------------------------------

  /** A write the hardware sees: VMXWriteVmcs32 of one field. */
  datatype VmcsWrite = VmcsWrite(field: nat, value: bv32)

  /** The fields of a cache, in entry order. */
  ghost predicate UniqueFields(fields: seq<nat>)
  {
    forall i, j :: 0 <= i < j < |fields| ==> fields[i] != fields[j]
  }

  /** The value cached for a field, if any. */
  function Cached(fields: seq<nat>, values: seq<bv64>, field: nat): (r: Option<bv64>)
    requires |fields| == |values|
    ensures r.Some? <==> field in fields
  {
    if fields == [] then None
    else if fields[|fields| - 1] == field then Some(values[|values| - 1])
    else Cached(fields[..|fields| - 1], values[..|values| - 1], field)
  }

  /** With unique fields, the value cached at an entry is the value of its field. */
  lemma {:induction false} CachedAt(fields: seq<nat>, values: seq<bv64>, i: nat)
    requires |fields| == |values| && UniqueFields(fields) && i < |fields|
    ensures Cached(fields, values, fields[i]) == Some(values[i])
    decreases |fields|
  {
    if i < |fields| - 1 {
      CachedAt(fields[..|fields| - 1], values[..|values| - 1], i);
    }
  }

  /** The cache of VMCS writes a 32-bit host queues for a 64-bit guest (VMCSCACHE.Write). */
  class VmcsCache {
    const fields: array<nat>
    const values: array<bv64>
    var count: nat

    ghost predicate Valid()
      reads this, fields
    {
      && fields.Length == values.Length && fields != values as object
      && count <= fields.Length
      && UniqueFields(fields[..count])
    }

    function Fields(): seq<nat>
      reads this, fields
      requires count <= fields.Length
    {
      fields[..count]
    }

    function Values(): seq<bv64>
      reads this, values
      requires count <= values.Length
    {
      values[..count]
    }

    constructor (maxEntries: nat)
      ensures Valid() && fresh(fields) && fresh(values)
      ensures fields.Length == maxEntries && count == 0
    {
      fields := new nat[maxEntries];
      values := new bv64[maxEntries];
      count := 0;
    }

    /**
     * VMXWriteCachedVmcsEx: refused when `count` has reached VMCSCACHE_MAX_ENTRY-1
     * (even for a field already cached); a cached field gets its new value in
     * place; any other field is appended.
     */
    method Write(field: nat, value: bv64) returns (rc: Rc)
      requires Valid()
      modifies this`count, fields, values
      ensures Valid()
      ensures rc == VINF_SUCCESS || rc == VERR_ACCESS_DENIED
      ensures rc == VERR_ACCESS_DENIED <==> old(count) + 1 >= fields.Length
      ensures rc == VERR_ACCESS_DENIED ==> count == old(count) && Fields() == old(Fields()) && Values() == old(Values())
      ensures rc == VINF_SUCCESS ==> Cached(Fields(), Values(), field) == Some(value)
      ensures rc == VINF_SUCCESS ==> forall f :: f != field ==> Cached(Fields(), Values(), f) == Cached(old(Fields()), old(Values()), f)
      ensures rc == VINF_SUCCESS ==> count == old(count) + (if field in old(Fields()) then 0 else 1)
    {
      if count + 1 >= fields.Length {
        return VERR_ACCESS_DENIED;
      }
      var i := 0;
      while i < count
        invariant i <= count
        invariant forall j :: 0 <= j < i ==> fields[j] != field
      {
        if fields[i] == field {
          ghost var fs, vs := Fields(), Values();
          values[i] := value;
          assert Fields() == fs && Values() == vs[i := value];
          CachedAt(Fields(), Values(), i);
          forall f | f != field
            ensures Cached(Fields(), Values(), f) == Cached(fs, vs, f)
          {
            CachedOther(fs, vs, i, value, f);
          }
          return VINF_SUCCESS;
        }
        i := i + 1;
      }
      ghost var fs, vs := Fields(), Values();
      fields[count] := field;
      values[count] := value;
      count := count + 1;
      assert Fields() == fs + [field] && Values() == vs + [value];
      assert Fields()[..|Fields()| - 1] == fs && Values()[..|Values()| - 1] == vs;
      return VINF_SUCCESS;
    }
  }

  /** Overwriting the value of one entry leaves the cached value of every other field alone. */
  lemma {:induction false} CachedOther(fields: seq<nat>, values: seq<bv64>, i: nat, v: bv64, f: nat)
    requires |fields| == |values| && i < |fields| && f != fields[i]
    ensures Cached(fields, values[i := v], f) == Cached(fields, values, f)
    decreases |fields|
  {
    if |fields| > 0 && i < |fields| - 1 {
      assert values[i := v][..|values| - 1] == values[..|values| - 1][i := v];
      CachedOther(fields[..|fields| - 1], values[..|values| - 1], i, v, f);
    }
  }

  /** 64-bit fields made of two 32-bit halves (`*_FULL`; the high half is the next encoding). */
  const TWO_PART_FIELDS: set<nat> := {
    0x2010, // TSC_OFFSET
    0x2000, // IO_BITMAP_A
    0x2002, // IO_BITMAP_B
    0x2004, // MSR_BITMAP
    0x2006, // EXIT_MSR_STORE
    0x2008, // EXIT_MSR_LOAD
    0x200A, // ENTRY_MSR_LOAD
    0x2012, // VAPIC_PAGEADDR
    0x2014, // APIC_ACCESSADDR
    0x2800, // VMCS_LINK_PTR
    0x280A, // PDPTE0
    0x280C, // PDPTE1
    0x280E, // PDPTE2
    0x2810, // PDPTE3
    0x2802, // DEBUGCTL
    0x2806, // EFER
    0x201A  // EPTP
  }

  /** Natural-width guest fields that a 32-bit host cannot write in full. */
  const NATURAL_GUEST_FIELDS: set<nat> := {
    0x6812, 0x6814, 0x6816, 0x6818, // LDTR, TR, GDTR, IDTR bases
    0x6826, 0x6824,                 // SYSENTER_EIP, SYSENTER_ESP
    0x6800, 0x6804, 0x6802, 0x681A, // CR0, CR4, CR3, DR7
    0x681E, 0x681C,                 // RIP, RSP
    0x6808, 0x680C, 0x6806, 0x680E, 0x6810, 0x680A // CS, DS, ES, FS, GS, SS bases
  }

  function Low32(v: bv64): bv32 { (v & 0xFFFF_FFFF) as bv32 }
  function High32(v: bv64): bv32 { (v >> 32) as bv32 }

  /** The two halves give the value back. */
  lemma HalvesRebuild(v: bv64)
    ensures ((High32(v) as bv64) << 32) | (Low32(v) as bv64) == v
  {
  }

  /**
   * VMXWriteVmcs64Ex: two-part fields are written as two halves, a natural-width
   * guest field with a non-zero high half goes to the cache, one without is
   * written directly, and any other field is refused.
   */
  method WriteVmcs64(cache: VmcsCache, log: seq<VmcsWrite>, field: nat, value: bv64)
    returns (rc: Rc, log': seq<VmcsWrite>)
    requires cache.Valid()
    modifies cache`count, cache.fields, cache.values
    ensures cache.Valid()
    ensures field in TWO_PART_FIELDS ==>
      rc == VINF_SUCCESS && log' == log + [VmcsWrite(field, Low32(value)), VmcsWrite(field + 1, High32(value))]
    ensures field !in TWO_PART_FIELDS && field in NATURAL_GUEST_FIELDS && High32(value) == 0 ==>
      rc == VINF_SUCCESS && log' == log + [VmcsWrite(field, Low32(value))]
    ensures field !in TWO_PART_FIELDS && field in NATURAL_GUEST_FIELDS && High32(value) != 0 ==>
      log' == log && (rc == VINF_SUCCESS ==> Cached(cache.Fields(), cache.Values(), field) == Some(value))
    ensures field !in TWO_PART_FIELDS && field !in NATURAL_GUEST_FIELDS ==> rc == VERR_INVALID_PARAMETER && log' == log
    ensures !(field !in TWO_PART_FIELDS && field in NATURAL_GUEST_FIELDS && High32(value) != 0) ==>
      cache.count == old(cache.count) && cache.Fields() == old(cache.Fields()) && cache.Values() == old(cache.Values())
  {
    log' := log;
    if field in TWO_PART_FIELDS {
      log' := log' + [VmcsWrite(field, Low32(value)), VmcsWrite(field + 1, High32(value))];
      rc := VINF_SUCCESS;
    } else if field in NATURAL_GUEST_FIELDS {
      if value >> 32 != 0 {
        rc := cache.Write(field, value);
      } else {
        log' := log' + [VmcsWrite(field, Low32(value))];
        rc := VINF_SUCCESS;
      }
    } else {
      rc := VERR_INVALID_PARAMETER;
    }
  }

  // ---------------------------------------------------------------------------
  // Flush types (VMXR0SetupVM)
  // ---------------------------------------------------------------------------

  /** IA32_VMX_EPT_VPID_CAP bits (20, 25, 26, 32, 40, 41, 42). */
  const CAP_INVEPT: bv64 := 0x10_0000
  const CAP_INVEPT_SINGLE_CONTEXT: bv64 := 0x200_0000
  const CAP_INVEPT_ALL_CONTEXTS: bv64 := 0x400_0000
  const CAP_INVVPID: bv64 := 0x1_0000_0000
  const CAP_INVVPID_INDIV_ADDR: bv64 := 0x100_0000_0000
  const CAP_INVVPID_SINGLE_CONTEXT: bv64 := 0x200_0000_0000
  const CAP_INVVPID_ALL_CONTEXTS: bv64 := 0x400_0000_0000

  predicate HasCap(caps: bv64, cap: bv64) { caps & cap != 0 }

  datatype EptFlush = EptNone | EptSingleContext | EptAllContexts | EptNotSupported
  datatype VpidFlush = VpidNone | VpidIndivAddr | VpidSingleContext | VpidAllContexts | VpidNotSupported

  /** What VMXR0SetupVM settles before touching any VCPU. */
  datatype FlushSetup = FlushSetup(ept: EptFlush, vpidFlush: VpidFlush, vpid: bool, rc: Rc)

  /**
   * The flush-type choice: the most selective INVEPT the CPU offers, and failing
   * that VERR_HM_UNSUPPORTED_CPU_FEATURE_COMBO; then the most selective INVVPID,
   * and failing that VPID is turned off.
   */
  function SelectFlushTypes(nestedPaging: bool, vpid: bool, caps: bv64): (r: FlushSetup)
    ensures r.rc == VINF_SUCCESS || r.rc == VERR_HM_UNSUPPORTED_CPU_FEATURE_COMBO
    ensures r.rc == VERR_HM_UNSUPPORTED_CPU_FEATURE_COMBO <==>
      nestedPaging && !(HasCap(caps, CAP_INVEPT) && (HasCap(caps, CAP_INVEPT_SINGLE_CONTEXT) || HasCap(caps, CAP_INVEPT_ALL_CONTEXTS)))
    ensures r.rc == VERR_HM_UNSUPPORTED_CPU_FEATURE_COMBO ==> r == FlushSetup(EptNotSupported, VpidNone, vpid, r.rc)
    ensures r.rc == VINF_SUCCESS ==>
      && (r.ept == EptNone <==> !nestedPaging)
      && (r.ept == EptSingleContext <==> nestedPaging && HasCap(caps, CAP_INVEPT_SINGLE_CONTEXT))
      && (r.ept == EptAllContexts <==> nestedPaging && !HasCap(caps, CAP_INVEPT_SINGLE_CONTEXT))
      && (r.vpid <==> vpid && HasCap(caps, CAP_INVVPID) && (HasCap(caps, CAP_INVVPID_SINGLE_CONTEXT) || HasCap(caps, CAP_INVVPID_ALL_CONTEXTS)))
      && (r.vpidFlush == VpidNone <==> !vpid)
      && (r.vpidFlush == VpidNotSupported <==> vpid && !r.vpid)
      && (r.vpid ==> r.vpidFlush == if HasCap(caps, CAP_INVVPID_SINGLE_CONTEXT) then VpidSingleContext else VpidAllContexts)
  {
    if nestedPaging && !(HasCap(caps, CAP_INVEPT) && (HasCap(caps, CAP_INVEPT_SINGLE_CONTEXT) || HasCap(caps, CAP_INVEPT_ALL_CONTEXTS))) then
      FlushSetup(EptNotSupported, VpidNone, vpid, VERR_HM_UNSUPPORTED_CPU_FEATURE_COMBO)
    else
      var ept :=
        if !nestedPaging then EptNone
        else if HasCap(caps, CAP_INVEPT_SINGLE_CONTEXT) then EptSingleContext
        else EptAllContexts;
      if !vpid then FlushSetup(ept, VpidNone, false, VINF_SUCCESS)
      else if HasCap(caps, CAP_INVVPID) && HasCap(caps, CAP_INVVPID_SINGLE_CONTEXT) then
        FlushSetup(ept, VpidSingleContext, true, VINF_SUCCESS)
      else if HasCap(caps, CAP_INVVPID) && HasCap(caps, CAP_INVVPID_ALL_CONTEXTS) then
        FlushSetup(ept, VpidAllContexts, true, VINF_SUCCESS)
      else FlushSetup(ept, VpidNotSupported, false, VINF_SUCCESS)
  }

  // ---------------------------------------------------------------------------
  // Control words
  // ---------------------------------------------------------------------------

  /** A control word: the bits the CPU insists on, plus the wanted ones, masked to the ones it allows. */
  function ControlWord(disallowed0: bv32, wanted: bv32, allowed1: bv32): (r: bv32)
  {
    (disallowed0 | wanted) & allowed1
  }

  /** No bit outside `allowed1` is ever written. */
  lemma ControlWordWithinAllowed(disallowed0: bv32, wanted: bv32, allowed1: bv32)
    ensures ControlWord(disallowed0, wanted, allowed1) & !allowed1 == 0
  {
  }

  /** No bit that is neither required nor wanted is written. */
  lemma ControlWordOnlyAsked(disallowed0: bv32, wanted: bv32, allowed1: bv32)
    ensures ControlWord(disallowed0, wanted, allowed1) & !(disallowed0 | wanted) == 0
  {
  }

  /** Every allowed bit that is required or wanted is written. */
  lemma ControlWordGrantsAllowed(disallowed0: bv32, wanted: bv32, allowed1: bv32)
    ensures ControlWord(disallowed0, wanted, allowed1) & (allowed1 & (disallowed0 | wanted)) == allowed1 & (disallowed0 | wanted)
  {
  }

  /** Pin-based controls. */
  const PIN_EXT_INT_EXIT: bv32 := 0x1
  const PIN_NMI_EXIT: bv32 := 0x8
  const PIN_PREEMPT_TIMER: bv32 := 0x40

  /** Primary processor-based controls. */
  const PROC_USE_TSC_OFFSETTING: bv32 := 0x8
  const PROC_HLT_EXIT: bv32 := 0x80
  const PROC_INVLPG_EXIT: bv32 := 0x200
  const PROC_MWAIT_EXIT: bv32 := 0x400
  const PROC_RDPMC_EXIT: bv32 := 0x800
  const PROC_RDTSC_EXIT: bv32 := 0x1000
  const PROC_CR3_LOAD_EXIT: bv32 := 0x8000
  const PROC_CR3_STORE_EXIT: bv32 := 0x1_0000
  const PROC_CR8_LOAD_EXIT: bv32 := 0x8_0000
  const PROC_CR8_STORE_EXIT: bv32 := 0x10_0000
  const PROC_USE_TPR_SHADOW: bv32 := 0x20_0000
  const PROC_MOV_DR_EXIT: bv32 := 0x80_0000
  const PROC_UNCOND_IO_EXIT: bv32 := 0x100_0000
  const PROC_USE_MSR_BITMAPS: bv32 := 0x1000_0000
  const PROC_MONITOR_EXIT: bv32 := 0x2000_0000
  const PROC_USE_SECONDARY: bv32 := 0x8000_0000

  /** Secondary processor-based controls. */
  const PROC2_VIRT_APIC: bv32 := 0x1
  const PROC2_EPT: bv32 := 0x2
  const PROC2_RDTSCP: bv32 := 0x8
  const PROC2_VPID: bv32 := 0x20
  const PROC2_WBINVD_EXIT: bv32 := 0x40
  const PROC2_UNRESTRICTED_GUEST: bv32 := 0x80

  /** The pin-based controls VMXR0SetupVM asks for. */
  function PinWanted(usePreemptTimer: bool): bv32
  {
    PIN_EXT_INT_EXIT | PIN_NMI_EXIT | (if usePreemptTimer then PIN_PREEMPT_TIMER else 0)
  }

  /** The primary processor-based controls VMXR0SetupVM asks for. */
  function ProcWanted(nestedPaging: bool, allowed1: bv32): bv32
  {
    PROC_HLT_EXIT | PROC_USE_TSC_OFFSETTING | PROC_MOV_DR_EXIT | PROC_UNCOND_IO_EXIT
    | PROC_RDPMC_EXIT | PROC_MONITOR_EXIT | PROC_MWAIT_EXIT
    | (if !nestedPaging then PROC_INVLPG_EXIT | PROC_CR3_LOAD_EXIT | PROC_CR3_STORE_EXIT else 0)
    | (if allowed1 & PROC_USE_TPR_SHADOW != 0 then PROC_USE_TPR_SHADOW else PROC_CR8_STORE_EXIT | PROC_CR8_LOAD_EXIT)
    | (if allowed1 & PROC_USE_MSR_BITMAPS != 0 then PROC_USE_MSR_BITMAPS else 0)
    | PROC_USE_SECONDARY
  }

  /** The secondary controls VMXR0SetupVM asks for, when the CPU has them. */
  function Proc2Wanted(nestedPaging: bool, vpid: bool, hasIoApic: bool, unrestrictedGuest: bool, allowed1: bv32): bv32
  {
    PROC2_WBINVD_EXIT
    | (if nestedPaging then PROC2_EPT else 0)
    | (if vpid then PROC2_VPID else 0)
    | (if hasIoApic then PROC2_VIRT_APIC else 0)
    | (if unrestrictedGuest then PROC2_UNRESTRICTED_GUEST else 0)
    | (if allowed1 & PROC2_RDTSCP != 0 then PROC2_RDTSCP else 0)
  }

  /**
   * The primary word exits on CR8 accesses exactly when the CPU offers no TPR
   * shadow and allows the exits; without nested paging INVLPG and CR3 accesses
   * exit whenever the CPU allows it.
   */
  lemma ProcWordChoices(nestedPaging: bool, disallowed0: bv32, allowed1: bv32)
    ensures var w := ControlWord(disallowed0, ProcWanted(nestedPaging, allowed1), allowed1);
      && (w & PROC_USE_TPR_SHADOW != 0 <==> allowed1 & PROC_USE_TPR_SHADOW != 0)
      && (allowed1 & PROC_USE_TPR_SHADOW == 0 ==> w & PROC_CR8_LOAD_EXIT == allowed1 & PROC_CR8_LOAD_EXIT)
      && (!nestedPaging ==> w & PROC_INVLPG_EXIT == allowed1 & PROC_INVLPG_EXIT)
      && (!nestedPaging ==> w & PROC_CR3_LOAD_EXIT == allowed1 & PROC_CR3_LOAD_EXIT)
      && w & !allowed1 == 0
  {
  }

  /** The preemption timer is on exactly when asked for (or required) and the CPU allows it. */
  lemma PinWordPreemptTimer(usePreemptTimer: bool, disallowed0: bv32, allowed1: bv32)
    ensures var w := ControlWord(disallowed0, PinWanted(usePreemptTimer), allowed1);
      && (w & PIN_PREEMPT_TIMER != 0 <==> allowed1 & PIN_PREEMPT_TIMER != 0 && (usePreemptTimer || disallowed0 & PIN_PREEMPT_TIMER != 0))
      && w & (PIN_EXT_INT_EXIT | PIN_NMI_EXIT) == allowed1 & (PIN_EXT_INT_EXIT | PIN_NMI_EXIT)
  {
  }

  /** The secondary controls are written only when the primary word may use them. */
  function SecondaryControls(procAllowed1: bv32, disallowed0: bv32, allowed1: bv32, nestedPaging: bool, vpid: bool,
                             hasIoApic: bool, unrestrictedGuest: bool): (r: Option<bv32>)
    ensures r.Some? <==> procAllowed1 & PROC_USE_SECONDARY != 0
  {
    if procAllowed1 & PROC_USE_SECONDARY != 0 then
      Some(ControlWord(disallowed0, Proc2Wanted(nestedPaging, vpid, hasIoApic, unrestrictedGuest, allowed1), allowed1))
    else None
  }

  /** EPT and VPID are enabled in the secondary word exactly when configured (or required) and allowed. */
  lemma SecondaryChoices(procAllowed1: bv32, disallowed0: bv32, allowed1: bv32, nestedPaging: bool, vpid: bool,
                         hasIoApic: bool, unrestrictedGuest: bool)
    requires procAllowed1 & PROC_USE_SECONDARY != 0
    ensures var w := SecondaryControls(procAllowed1, disallowed0, allowed1, nestedPaging, vpid, hasIoApic, unrestrictedGuest).value;
      && (w & PROC2_EPT != 0 <==> allowed1 & PROC2_EPT != 0 && (nestedPaging || disallowed0 & PROC2_EPT != 0))
      && (w & PROC2_VPID != 0 <==> allowed1 & PROC2_VPID != 0 && (vpid || disallowed0 & PROC2_VPID != 0))
      && (w & PROC2_RDTSCP != 0 <==> allowed1 & PROC2_RDTSCP != 0)
      && w & !allowed1 == 0
  {
  }

  // ---------------------------------------------------------------------------
  // Exception bitmap (hmR0VmxUpdateExceptionBitmap)
  // ---------------------------------------------------------------------------

  /** x86 exception vectors. */
  const XCPT_DE: nat := 0
  const XCPT_DB: nat := 1
  const XCPT_NMI: nat := 2
  const XCPT_BP: nat := 3
  const XCPT_OF: nat := 4
  const XCPT_BR: nat := 5
  const XCPT_UD: nat := 6
  const XCPT_NM: nat := 7
  const XCPT_DF: nat := 8
  const XCPT_CO_SEG_OVERRUN: nat := 9
  const XCPT_TS: nat := 10
  const XCPT_NP: nat := 11
  const XCPT_SS: nat := 12
  const XCPT_GP: nat := 13
  const XCPT_PF: nat := 14
  const XCPT_MF: nat := 16
  const XCPT_AC: nat := 17
  const XCPT_MC: nat := 18
  const XCPT_XF: nat := 19

  /** CR0 bits. */
  const CR0_PE: bv64 := 0x1
  const CR0_MP: bv64 := 0x2
  const CR0_TS: bv64 := 0x8
  const CR0_ET: bv64 := 0x10
  const CR0_NE: bv64 := 0x20
  const CR0_WP: bv64 := 0x1_0000
  const CR0_NW: bv64 := 0x2000_0000
  const CR0_CD: bv64 := 0x4000_0000
  const CR0_PG: bv64 := 0x8000_0000

  /** Every exception a real-mode guest emulated on a TSS must have intercepted. */
  const REAL_MODE_XCPTS: bv32 := 0xF_3F7F // vectors 0-6, 8-13 and 16-19

  /** Bitmap bits of single vectors. */
  const XCPT_MASK_DB: bv32 := 0x2
  const XCPT_MASK_NM: bv32 := 0x80
  const XCPT_MASK_PF: bv32 := 0x4000
  const XCPT_MASK_MF: bv32 := 0x1_0000

  /**
   * The exception bitmap of a release build (neither VBOX_STRICT nor
   * VBOX_ALWAYS_TRAP_PF): #DB and #NM always, #PF without nested paging, #MF
   * when CR0.NE is clear, and the whole real-mode set when real mode is emulated.
   */
  function ExceptionBitmap(nestedPaging: bool, cr0: bv64, realModeEmulated: bool): bv32
  {
    XCPT_MASK_DB | XCPT_MASK_NM
    | (if !nestedPaging then XCPT_MASK_PF else 0)
    | (if cr0 & CR0_NE == 0 then XCPT_MASK_MF else 0)
    | (if realModeEmulated then REAL_MODE_XCPTS else 0)
  }

  /**
   * Which vectors are intercepted: #PF exactly without nested paging (even in
   * real mode), and in emulated real mode every vector 0-19 but #PF and the
   * reserved 15.
   */
  lemma ExceptionBitmapBits(nestedPaging: bool, cr0: bv64, realModeEmulated: bool)
    ensures var m := ExceptionBitmap(nestedPaging, cr0, realModeEmulated);
      && m & XCPT_MASK_DB != 0 && m & XCPT_MASK_NM != 0
      && (m & XCPT_MASK_PF != 0 <==> !nestedPaging)
      && (m & XCPT_MASK_MF != 0 <==> cr0 & CR0_NE == 0 || realModeEmulated)
      && (realModeEmulated ==> m & REAL_MODE_XCPTS == REAL_MODE_XCPTS)
      && m & 0xFFF0_0000 == 0
  {
  }

  // ---------------------------------------------------------------------------
  // Preemption timer (VMXR0SetupTscOffsetAndPreemption)
  // ---------------------------------------------------------------------------

  function Min(a: nat, b: nat): nat { if a <= b then a else b }
  function Max(a: nat, b: nat): nat { if a >= b then a else b }

  /** `x >> n` on an unsigned integer. */
  function Shr(x: nat, n: nat): nat
  {
    if n == 0 then x else Shr(x / 2, n - 1)
  }

  /** Shifting right never grows a value and keeps the order of two values. */
  lemma {:induction false} ShrMono(x: nat, y: nat, n: nat)
    ensures Shr(x, n) <= x
    ensures x <= y ==> Shr(x, n) <= Shr(y, n)
  {
    if n > 0 {
      ShrMono(x / 2, y / 2, n - 1);
    }
  }

  const UINT32_MAX: nat := 0xFFFF_FFFF

  /**
   * The preemption-timer value: the ticks to the deadline clamped to between
   * 1/2048 and 1/64 of a second, shifted right by the timer's rate, and capped at
   * UINT32_MAX-16.
   */
  function PreemptTicks(ticksToDeadline: nat, cpuHz: nat, shift: nat): nat
  {
    Min(Shr(Max(Min(ticksToDeadline, cpuHz / 64), cpuHz / 2048), shift), UINT32_MAX - 16)
  }

  /**
   * The timer value never exceeds 1/64 of a second (scaled by the shift) nor the
   * 32-bit cap, is at least 1/2048 of a second unless capped, and a later
   * deadline never gives a shorter timer.
   */
  lemma PreemptTicksBounds(t: nat, t': nat, hz: nat, shift: nat)
    ensures PreemptTicks(t, hz, shift) <= UINT32_MAX - 16
    ensures PreemptTicks(t, hz, shift) <= Shr(hz / 64, shift)
    ensures PreemptTicks(t, hz, shift) >= Min(Shr(hz / 2048, shift), UINT32_MAX - 16)
    ensures t <= t' ==> PreemptTicks(t, hz, shift) <= PreemptTicks(t', hz, shift)
  {
    var clamped := Max(Min(t, hz / 64), hz / 2048);
    ShrMono(clamped, hz / 64, shift);
    ShrMono(hz / 2048, clamped, shift);
    ShrMono(clamped, Max(Min(t', hz / 64), hz / 2048), shift);
  }

  // ---------------------------------------------------------------------------
  // Event injection into an emulated real-mode guest (hmR0VmxInjectEvent)
  // ---------------------------------------------------------------------------

  /** Interruption types. */
  const INT_TYPE_HW_XCPT: nat := 3
  const INT_TYPE_SW_INT: nat := 4

  /** What injecting an event into an emulated real-mode guest comes to. */
  datatype RealModeOutcome =
    | Delivered(vector: nat, pushedIp: nat)
    | TripleFault

  /** The handler of `vector` lies within the IDT limit. */
  predicate HandlerPresent(vector: nat, cbIdt: nat) { vector * 4 + 3 <= cbIdt }

  /** Steps left before the escalation ends: #DF ends it, #GP escalates to #DF, the rest to #GP. */
  function EscalationRank(vector: nat): nat
  {
    if vector == XCPT_DF then 0 else if vector == XCPT_GP then 1 else 2
  }

  /**
   * The real-mode branch: without a handler, #DF resets the VM, #GP becomes #DF
   * and anything else #GP, each re-injected as a hardware exception with no
   * instruction length; with one, the frame gets the return IP, which is past the
   * instruction for software interrupts, #BP and #OF.  IP is 16 bits wide.
   */
  function InjectRealMode(vector: nat, intType: nat, cbInstr: nat, ip: nat, cbIdt: nat): (r: RealModeOutcome)
    decreases EscalationRank(vector)
  {
    if !HandlerPresent(vector, cbIdt) then
      if vector != XCPT_DF then
        InjectRealMode(if vector == XCPT_GP then XCPT_DF else XCPT_GP, INT_TYPE_HW_XCPT, 0, ip, cbIdt)
      else TripleFault
    else
      Delivered(vector, if intType == INT_TYPE_SW_INT || vector == 3 || vector == 4 then (ip + cbInstr) % 0x1_0000 else ip)
  }

  /**
   * The escalation chain: the event is delivered as itself when its handler is
   * present, otherwise as #GP, otherwise as #DF, and the VM is reset only when no
   * handler on the chain is present.  An escalated event returns to the same IP.
   */
  lemma InjectRealModeChain(vector: nat, intType: nat, cbInstr: nat, ip: nat, cbIdt: nat)
    requires ip < 0x1_0000
    ensures var r := InjectRealMode(vector, intType, cbInstr, ip, cbIdt);
      && (HandlerPresent(vector, cbIdt) ==> r.Delivered? && r.vector == vector)
      && (!HandlerPresent(vector, cbIdt) && vector != XCPT_DF && vector != XCPT_GP && HandlerPresent(XCPT_GP, cbIdt) ==>
            r == Delivered(XCPT_GP, ip))
      && (!HandlerPresent(vector, cbIdt) && vector != XCPT_DF && (vector == XCPT_GP || !HandlerPresent(XCPT_GP, cbIdt)) && HandlerPresent(XCPT_DF, cbIdt) ==>
            r == Delivered(XCPT_DF, ip))
      && (r == TripleFault <==> !HandlerPresent(vector, cbIdt) && !HandlerPresent(XCPT_DF, cbIdt))
      && (r.Delivered? ==> r.pushedIp < 0x1_0000)
  {
  }

  /** A software interrupt returns past the INT instruction, a hardware interrupt to the interrupted one. */
  lemma InjectRealModeReturnIp(vector: nat, cbInstr: nat, ip: nat, cbIdt: nat)
    requires HandlerPresent(vector, cbIdt) && ip < 0x1_0000
    ensures InjectRealMode(vector, INT_TYPE_SW_INT, cbInstr, ip, cbIdt) == Delivered(vector, (ip + cbInstr) % 0x1_0000)
    ensures vector != 3 && vector != 4 ==> InjectRealMode(vector, INT_TYPE_HW_XCPT, cbInstr, ip, cbIdt) == Delivered(vector, ip)
  {
  }

  // ---------------------------------------------------------------------------
  // DR6, DR7, TR and CR0 fix-ups
  // ---------------------------------------------------------------------------

  /** X86_DR6_INIT_VAL: the DR6 bits that read as one. */
  const DR6_INIT_VAL: bv64 := 0xFFFF_0FF0
  const DR6_MBZ: bv64 := 0x1000 // bit 12

  /** DR6 before it is loaded: the reserved bits set to one, then bit 12 cleared. */
  function SanitiseDr6(dr6: bv64): bv64
  {
    (dr6 | DR6_INIT_VAL) & !DR6_MBZ
  }

  /** The reserved bits come out as the architecture wants them and the status bits are the guest's. */
  lemma SanitiseDr6Bits(dr6: bv64)
    ensures SanitiseDr6(dr6) & (DR6_INIT_VAL | DR6_MBZ) == DR6_INIT_VAL
    ensures SanitiseDr6(dr6) & !(DR6_INIT_VAL | DR6_MBZ) == dr6 & !(DR6_INIT_VAL | DR6_MBZ)
  {
  }

  const DR7_MBZ: bv64 := 0xD800 // bits 11, 12, 14 and 15
  const DR7_MB1: bv64 := 0x400
  const LOW32: bv64 := 0xFFFF_FFFF

  /** DR7 before it is loaded: the upper half and bits 11, 12, 14 and 15 cleared, bit 10 set. */
  function SanitiseDr7(dr7: bv64): bv64
  {
    ((dr7 & LOW32) & !DR7_MBZ) | DR7_MB1
  }

  /** The upper half and bits 11, 12, 14 and 15 come out clear and bit 10 set. */
  lemma SanitiseDr7Reserved(dr7: bv64)
    ensures SanitiseDr7(dr7) & (DR7_MBZ | !LOW32) == 0 && SanitiseDr7(dr7) & DR7_MB1 == DR7_MB1
  {
  }

  /** Every other bit of the lower half is the guest's. */
  lemma SanitiseDr7KeepsOthers(dr7: bv64)
    ensures SanitiseDr7(dr7) & LOW32 & !(DR7_MBZ | DR7_MB1) == dr7 & LOW32 & !(DR7_MBZ | DR7_MB1)
  {
  }

  /** A second pass changes nothing. */
  lemma SanitiseDr7Idempotent(dr7: bv64)
    ensures SanitiseDr7(SanitiseDr7(dr7)) == SanitiseDr7(dr7)
  {
  }

  /** TSS descriptor types in TR's access rights. */
  const TSS_BUSY_MASK: bv32 := 0x2
  const TSS_286_BUSY: bv32 := 0x3
  const TSS_386_AVAIL: bv32 := 0x9
  const TSS_386_BUSY: bv32 := 0xB
  const TSS_286_AVAIL: bv32 := 0x1

  /** TR's access rights as loaded: a TSS that is not marked busy is made busy, and no type at all becomes a busy 386 TSS. */
  function TrAccessRights(attr: bv32): bv32
  {
    if attr & TSS_BUSY_MASK != 0 then attr
    else if attr & 0xF != 0 then attr | TSS_BUSY_MASK
    else (attr & !0xF) | TSS_386_BUSY
  }

  /**
   * A TR holding any TSS type, or none, comes out as a busy TSS of the same
   * width (a missing type counting as 386), and the bits above the type are kept.
   */
  lemma TrAccessRightsBusy(attr: bv32)
    requires attr & 0xF in {0, TSS_286_AVAIL, TSS_286_BUSY, TSS_386_AVAIL, TSS_386_BUSY}
    ensures TrAccessRights(attr) & 0xF == (if attr & 0xF in {TSS_286_AVAIL, TSS_286_BUSY} then TSS_286_BUSY else TSS_386_BUSY)
    ensures TrAccessRights(attr) & !0xF == attr & !0xF
  {
  }

  /** The CR0 the guest runs with (VMX_VMCS_GUEST_CR0). */
  function GuestCr0(cr0: bv64, fpuActive: bool, unrestrictedGuest: bool, nestedPaging: bool): bv64
  {
    var v := cr0 | (if fpuActive then CR0_NE else CR0_TS | CR0_ET | CR0_NE | CR0_MP);
    var v := v | (if !unrestrictedGuest then CR0_PE | CR0_PG else 0);
    var v := v | (if !nestedPaging then CR0_WP else 0);
    v & !(CR0_CD | CR0_NW)
  }

  /**
   * With nested paging, loading CR0 also decides the CR3 exits: off while the
   * guest pages in protected mode, on while the identity-mapped page table of
   * real or unpaged mode is active.
   */
  function Cr3ExitsForCr0(procCtls: bv32, pagedProtectedMode: bool): (r: bv32)
    ensures r & (PROC_CR3_LOAD_EXIT | PROC_CR3_STORE_EXIT) == (if pagedProtectedMode then 0 else PROC_CR3_LOAD_EXIT | PROC_CR3_STORE_EXIT)
    ensures r & !(PROC_CR3_LOAD_EXIT | PROC_CR3_STORE_EXIT) == procCtls & !(PROC_CR3_LOAD_EXIT | PROC_CR3_STORE_EXIT)
  {
    if pagedProtectedMode then procCtls & !(PROC_CR3_LOAD_EXIT | PROC_CR3_STORE_EXIT)
    else procCtls | PROC_CR3_LOAD_EXIT | PROC_CR3_STORE_EXIT
  }

  /** The CR0 bits the host owns (VMX_VMCS_CTRL_CR0_MASK): guest writes to them exit. */
  function Cr0Mask(fpuActive: bool): bv64
  {
    CR0_PE | CR0_WP | CR0_PG | CR0_CD | CR0_NW | CR0_NE | (if fpuActive then 0 else CR0_TS | CR0_ET | CR0_MP)
  }

  /**
   * Every bit where the loaded CR0 differs from the guest's own value is owned by
   * the host, so the guest reads its own value from the shadow; NE is always on
   * and caching is always enabled.
   */
  lemma GuestCr0Hidden(cr0: bv64, fpuActive: bool, unrestrictedGuest: bool, nestedPaging: bool)
    ensures (GuestCr0(cr0, fpuActive, unrestrictedGuest, nestedPaging) ^ cr0) & !Cr0Mask(fpuActive) == 0
    ensures GuestCr0(cr0, fpuActive, unrestrictedGuest, nestedPaging) & CR0_NE != 0
    ensures GuestCr0(cr0, fpuActive, unrestrictedGuest, nestedPaging) & (CR0_CD | CR0_NW) == 0
    ensures !unrestrictedGuest ==> GuestCr0(cr0, fpuActive, unrestrictedGuest, nestedPaging) & (CR0_PE | CR0_PG) == CR0_PE | CR0_PG
  {
  }

  // ---------------------------------------------------------------------------
  // Tagged TLB setup before a world switch
  // ---------------------------------------------------------------------------

  /** An INVVPID with the ASID and address of its descriptor, or an INVEPT (of the VCPU's EPTP). */
  datatype TlbFlush = InvVpid(kind: VpidFlush, asid: nat, addr: nat) | InvEpt(eptKind: EptFlush)

  /** hmR0VmxFlushVPID: an all-contexts flush carries a zero descriptor, any other the VCPU's ASID and the address. */
  function VpidFlushOf(kind: VpidFlush, asid: nat, addr: nat): (r: TlbFlush)
    ensures r.InvVpid? && r.kind == kind
    ensures kind == VpidAllContexts ==> r.asid == 0 && r.addr == 0
    ensures kind != VpidAllContexts ==> r.asid == asid && r.addr == addr
  {
    if kind == VpidAllContexts then InvVpid(kind, 0, 0) else InvVpid(kind, asid, addr)
  }

  /** One flush by address per shot-down page, each tagged with the VCPU's ASID. */
  function PageFlushes(asid: nat, pages: seq<nat>): (r: seq<TlbFlush>)
    ensures |r| == |pages|
    ensures forall i :: 0 <= i < |pages| ==> r[i] == InvVpid(VpidIndivAddr, asid, pages[i])
  {
    seq(|pages|, i requires 0 <= i < |pages| => VpidFlushOf(VpidIndivAddr, asid, pages[i]))
  }

  /** VMX_VMCS16_GUEST_FIELD_VPID. */
  const FIELD_VPID: nat := 0x0000

  /** The ASID after a new one is taken: the next one, or 1 (the host owns 0) with a new flush generation when the range is used up. */
  function NextAsid(asid: nat, maxAsid: nat): (r: (nat, bool))
    requires maxAsid >= 2
    ensures 1 <= r.0 < maxAsid
    ensures r.1 <==> asid + 1 >= maxAsid
    ensures r.1 ==> r.0 == 1
    ensures !r.1 ==> r.0 == asid + 1
  {
    if asid + 1 >= maxAsid then (1, true) else (asid + 1, false)
  }

  /** The host CPU's tagged-TLB state (HMGLOBLCPUINFO). */
  class HostCpu {
    const idCpu: nat
    var currentAsid: nat
    var tlbFlushes: nat
    var flushAsidBeforeUse: bool

    constructor (idCpu: nat)
      ensures this.idCpu == idCpu && currentAsid == 0 && tlbFlushes == 0 && flushAsidBeforeUse
    {
      this.idCpu := idCpu;
      currentAsid := 0;
      tlbFlushes := 0;
      flushAsidBeforeUse := true;
    }
  }

  /** A VCPU's tagged-TLB state, with the flushes and VMCS writes made on its behalf. */
  class Vcpu {
    var idLastCpu: int
    var tlbFlushes: nat
    var currentAsid: nat
    var forceTlbFlush: bool
    /** VMCPU_FF_TLB_FLUSH and VMCPU_FF_TLB_SHOOTDOWN. */
    var ffTlbFlush: bool
    var ffTlbShootdown: bool
    /** TlbShootdown.aPages[0 .. cPages). */
    var shootdownPages: seq<nat>
    var flushes: seq<TlbFlush>
    var writes: seq<VmcsWrite>

    /** This VCPU last ran on `cpu`, in the CPU's current flush generation. */
    predicate Current(cpu: HostCpu)
      reads this, cpu
    {
      idLastCpu == cpu.idCpu && tlbFlushes == cpu.tlbFlushes
    }

    /** The setup must flush: the VCPU is not current on `cpu`, or a flush is forced or requested. */
    predicate MustFlush(cpu: HostCpu)
      reads this, cpu
    {
      forceTlbFlush || !Current(cpu) || ffTlbFlush
    }

    /**
     * What the world-switch code keeps true about VPIDs: ASIDs fit the 16-bit VPID
     * field, the CPU's ASID is below the limit, and a current VCPU and its CPU both
     * hold valid ASIDs.
     */
    predicate AsidInvariant(cpu: HostCpu, maxAsid: nat)
      reads this, cpu
    {
      && 2 <= maxAsid <= 0x1_0000 && cpu.currentAsid < maxAsid
      && (Current(cpu) ==> 1 <= currentAsid < maxAsid && 1 <= cpu.currentAsid)
    }

    constructor ()
      ensures idLastCpu == -1 && tlbFlushes == 0 && currentAsid == 0
      ensures !forceTlbFlush && !ffTlbFlush && !ffTlbShootdown
      ensures shootdownPages == [] && flushes == [] && writes == []
    {
      idLastCpu := -1;
      tlbFlushes := 0;
      currentAsid := 0;
      forceTlbFlush := false;
      ffTlbFlush := false;
      ffTlbShootdown := false;
      shootdownPages := [];
      flushes := [];
      writes := [];
    }

    /** The flushes of a pending shootdown: one per page when INVVPID can flush by address, else `fallback`. */
    method ShootdownFlushes(caps: bv64, fallback: TlbFlush) returns (fs: seq<TlbFlush>)
      ensures HasCap(caps, CAP_INVVPID_INDIV_ADDR) ==> fs == PageFlushes(currentAsid, shootdownPages)
      ensures !HasCap(caps, CAP_INVVPID_INDIV_ADDR) ==> fs == [fallback]
    {
      if HasCap(caps, CAP_INVVPID_INDIV_ADDR) {
        fs := [];
        var i := 0;
        while i < |shootdownPages|
          invariant i <= |shootdownPages| && |fs| == i
          invariant fs == PageFlushes(currentAsid, shootdownPages[..i])
        {
          fs := fs + [VpidFlushOf(VpidIndivAddr, currentAsid, shootdownPages[i])];
          i := i + 1;
        }
      } else {
        fs := [fallback];
      }
    }

    /** Takes the CPU's next ASID for this VCPU, opening a new flush generation on wrap-around. */
    method NewAsid(cpu: HostCpu, maxAsid: nat)
      requires 2 <= maxAsid
      modifies this`currentAsid, cpu
      ensures var (asid, wrapped) := NextAsid(old(cpu.currentAsid), maxAsid);
        && cpu.currentAsid == asid && currentAsid == asid
        && cpu.tlbFlushes == old(cpu.tlbFlushes) + (if wrapped then 1 else 0)
        && cpu.flushAsidBeforeUse == (old(cpu.flushAsidBeforeUse) || wrapped)
    {
      var (asid, wrapped) := NextAsid(cpu.currentAsid, maxAsid);
      cpu.currentAsid := asid;
      if wrapped {
        cpu.tlbFlushes := cpu.tlbFlushes + 1;
        cpu.flushAsidBeforeUse := true;
      }
      currentAsid := asid;
    }

    /**
     * The common start of the setups: a flush is forced when the VCPU is not
     * current on `cpu` or VMCPU_FF_TLB_FLUSH is pending (which is consumed), and
     * the VCPU is recorded as last run on `cpu`.  Reports whether it was not current.
     */
    method TakeFlushRequests(cpu: HostCpu) returns (notCurrent: bool)
      modifies this`forceTlbFlush, this`ffTlbFlush, this`idLastCpu
      ensures notCurrent == !old(Current(cpu))
      ensures forceTlbFlush == old(MustFlush(cpu)) && !ffTlbFlush && idLastCpu == cpu.idCpu
    {
      notCurrent := idLastCpu != cpu.idCpu || tlbFlushes != cpu.tlbFlushes;
      if notCurrent {
        forceTlbFlush := true;
      }
      if ffTlbFlush {
        ffTlbFlush := false;
        forceTlbFlush := true;
      }
      idLastCpu := cpu.idCpu;
    }

    /** The common end: no page is left to shoot down and the request is cleared. */
    method EndShootdown()
      modifies this`shootdownPages, this`ffTlbShootdown
      ensures shootdownPages == [] && !ffTlbShootdown
    {
      shootdownPages := [];
      ffTlbShootdown := false;
    }

    /** Writes the VCPU's ASID to the VMCS VPID field. */
    method WriteVpid()
      requires currentAsid < 0x1_0000
      modifies this`writes
      ensures writes == old(writes) + [VmcsWrite(FIELD_VPID, currentAsid as bv32)]
    {
      writes := writes + [VmcsWrite(FIELD_VPID, currentAsid as bv32)];
    }

    /**
     * hmR0VmxSetupTLBVPID: a VCPU that must flush takes a new ASID, and flushes it
     * when the CPU's ASIDs may be stale; otherwise a pending shootdown is flushed.
     * Afterwards the VCPU is current on `cpu` with a valid ASID, which goes to the
     * VMCS, and no flush or shootdown is pending.
     */
    method SetupTlbVpid(cpu: HostCpu, maxAsid: nat, flushVpid: VpidFlush, caps: bv64)
      requires AsidInvariant(cpu, maxAsid)
      modifies this, cpu
      ensures AsidInvariant(cpu, maxAsid) && Current(cpu) && 1 <= currentAsid < maxAsid
      ensures !forceTlbFlush && !ffTlbFlush && !ffTlbShootdown && shootdownPages == []
      ensures old(MustFlush(cpu)) ==>
        var (asid, wrapped) := NextAsid(old(cpu.currentAsid), maxAsid);
        && cpu.currentAsid == asid && currentAsid == asid
        && cpu.tlbFlushes == old(cpu.tlbFlushes) + (if wrapped then 1 else 0)
        && cpu.flushAsidBeforeUse == (old(cpu.flushAsidBeforeUse) || wrapped)
        && flushes == old(flushes) + (if cpu.flushAsidBeforeUse then [VpidFlushOf(flushVpid, asid, 0)] else [])
      ensures !old(MustFlush(cpu)) ==>
        && cpu.currentAsid == old(cpu.currentAsid) && currentAsid == old(currentAsid)
        && cpu.tlbFlushes == old(cpu.tlbFlushes) && cpu.flushAsidBeforeUse == old(cpu.flushAsidBeforeUse)
        && (!old(ffTlbShootdown) ==> flushes == old(flushes))
        && (old(ffTlbShootdown) && HasCap(caps, CAP_INVVPID_INDIV_ADDR) ==>
              flushes == old(flushes) + PageFlushes(currentAsid, old(shootdownPages)))
        && (old(ffTlbShootdown) && !HasCap(caps, CAP_INVVPID_INDIV_ADDR) ==>
              flushes == old(flushes) + [VpidFlushOf(flushVpid, currentAsid, 0)])
      ensures writes == old(writes) + [VmcsWrite(FIELD_VPID, currentAsid as bv32)]
    {
      var notCurrent := TakeFlushRequests(cpu);
      if forceTlbFlush {
        NewAsid(cpu, maxAsid);
        forceTlbFlush := false;
        tlbFlushes := cpu.tlbFlushes;
        if cpu.flushAsidBeforeUse {
          flushes := flushes + [VpidFlushOf(flushVpid, currentAsid, 0)];
        }
      } else if ffTlbShootdown {
        var fs := ShootdownFlushes(caps, VpidFlushOf(flushVpid, currentAsid, 0));
        flushes := flushes + fs;
      }
      EndShootdown();
      WriteVpid();
    }

    /**
     * hmR0VmxSetupTLBBoth: like the VPID setup, except that a new ASID is taken
     * only when the VCPU is not current on `cpu`; a flush forced otherwise keeps
     * the ASID and flushes its context (or the EPT context when INVVPID cannot do
     * single contexts), and a shootdown without flush-by-address flushes the EPT.
     */
    method SetupTlbBoth(cpu: HostCpu, maxAsid: nat, flushVpid: VpidFlush, flushEpt: EptFlush, caps: bv64)
      requires AsidInvariant(cpu, maxAsid)
      modifies this, cpu
      ensures AsidInvariant(cpu, maxAsid) && Current(cpu) && 1 <= currentAsid < maxAsid
      ensures !forceTlbFlush && !ffTlbFlush && !ffTlbShootdown && shootdownPages == []
      ensures !old(Current(cpu)) ==>
        var (asid, wrapped) := NextAsid(old(cpu.currentAsid), maxAsid);
        && cpu.currentAsid == asid && currentAsid == asid
        && cpu.tlbFlushes == old(cpu.tlbFlushes) + (if wrapped then 1 else 0)
        && cpu.flushAsidBeforeUse == (old(cpu.flushAsidBeforeUse) || wrapped)
        && flushes == old(flushes) + (if cpu.flushAsidBeforeUse then [VpidFlushOf(flushVpid, asid, 0)] else [])
      ensures old(Current(cpu)) ==>
        && cpu.currentAsid == old(cpu.currentAsid) && currentAsid == old(currentAsid)
        && cpu.tlbFlushes == old(cpu.tlbFlushes) && cpu.flushAsidBeforeUse == old(cpu.flushAsidBeforeUse)
      ensures old(Current(cpu) && (forceTlbFlush || ffTlbFlush)) ==>
        flushes == old(flushes) + [if HasCap(caps, CAP_INVVPID_SINGLE_CONTEXT) then VpidFlushOf(VpidSingleContext, currentAsid, 0) else InvEpt(flushEpt)]
      ensures !old(MustFlush(cpu)) ==>
        && (!old(ffTlbShootdown) ==> flushes == old(flushes))
        && (old(ffTlbShootdown) && HasCap(caps, CAP_INVVPID_INDIV_ADDR) ==>
              flushes == old(flushes) + PageFlushes(currentAsid, old(shootdownPages)))
        && (old(ffTlbShootdown) && !HasCap(caps, CAP_INVVPID_INDIV_ADDR) ==> flushes == old(flushes) + [InvEpt(flushEpt)])
      ensures writes == old(writes) + [VmcsWrite(FIELD_VPID, currentAsid as bv32)]
    {
      var newAsid := TakeFlushRequests(cpu);
      if forceTlbFlush {
        if newAsid {
          NewAsid(cpu, maxAsid);
          if cpu.flushAsidBeforeUse {
            flushes := flushes + [VpidFlushOf(flushVpid, currentAsid, 0)];
          }
        } else if HasCap(caps, CAP_INVVPID_SINGLE_CONTEXT) {
          flushes := flushes + [VpidFlushOf(VpidSingleContext, currentAsid, 0)];
        } else {
          flushes := flushes + [InvEpt(flushEpt)];
        }
        tlbFlushes := cpu.tlbFlushes;
        forceTlbFlush := false;
      } else if ffTlbShootdown {
        var fs := ShootdownFlushes(caps, InvEpt(flushEpt));
        flushes := flushes + fs;
      }
      EndShootdown();
      WriteVpid();
    }

    /**
     * hmR0VmxSetupTLBEPT: the VCPU becomes current on `cpu`; a forced or requested
     * flush, or a shootdown, flushes the EPT context.  This function does not
     * clear the forced-flush flag; the run loop does after every VM entry
     * (HWVMXR0.cpp:3405), and the run loop is not part of this model.
     */
    method SetupTlbEpt(cpu: HostCpu, flushEpt: EptFlush)
      modifies this
      ensures Current(cpu) && !ffTlbFlush && !ffTlbShootdown && shootdownPages == []
      ensures forceTlbFlush == old(MustFlush(cpu))
      ensures flushes == old(flushes) + (if old(MustFlush(cpu) || ffTlbShootdown) then [InvEpt(flushEpt)] else [])
      ensures currentAsid == old(currentAsid) && writes == old(writes)
    {
      var notCurrent := TakeFlushRequests(cpu);
      tlbFlushes := cpu.tlbFlushes;
      if forceTlbFlush || ffTlbShootdown {
        flushes := flushes + [InvEpt(flushEpt)];
      }
      EndShootdown();
    }

    /** hmR0VmxSetupTLBDummy: without EPT or VPID only the pending requests are dropped. */
    method SetupTlbDummy()
      modifies this`ffTlbFlush, this`ffTlbShootdown, this`shootdownPages
      ensures !ffTlbFlush && !ffTlbShootdown && shootdownPages == []
    {
      ffTlbFlush := false;
      ffTlbShootdown := false;
      shootdownPages := [];
    }
  }
}
