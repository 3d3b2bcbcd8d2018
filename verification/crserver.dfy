/**
 * Inline helpers of the OpenGL host server (crserverlib/server.h): the normalisation of
 * the output-redirection flags, the front/back FBO index arithmetic, the bounds check
 * on guest-supplied VRAM offsets, the "present needed" test, and the texture-slot
 * bookkeeping of the read-pixels worker (RPW) entry.
 */
module CrServer {
  import opened Wrappers

  // ---------------------------------------------------------------------------
  // Output-redirection flags (GLuint).

  const REDIR_F_NONE: bv32         := 0x00
  const REDIR_F_DISPLAY: bv32      := 0x01
  const REDIR_F_FBO: bv32          := 0x02
  const REDIR_F_FBO_RAM: bv32      := 0x04
  const REDIR_F_FBO_RAM_VRDP: bv32 := 0x08
  const REDIR_F_FBO_RAM_VMFB: bv32 := 0x10
  const REDIR_F_FBO_RPW: bv32      := 0x20
  const REDIR_F_ALL: bv32          := 0x3f
  /** Any of these needs the window redirected to an FBO. */
  const REDIR_FGROUP_REQUIRE_FBO: bv32 := REDIR_F_ALL & !REDIR_F_DISPLAY
  /** Any of these needs the FBO contents copied to RAM. */
  const REDIR_FGROUP_REQUIRE_FBO_RAM: bv32 := REDIR_F_FBO_RAM_VRDP | REDIR_F_FBO_RAM_VMFB | REDIR_F_FBO_RPW

  /** crServerRedirModeAdjust: drops unknown bits and adds the bits the others depend on. */
  function RedirModeAdjust(value: bv32): (r: bv32)
  {
    var v := value & REDIR_F_ALL;
    var v1 := if v & REDIR_FGROUP_REQUIRE_FBO != 0 then v | REDIR_F_FBO else v;
    if v1 & REDIR_FGROUP_REQUIRE_FBO_RAM != 0 then v1 | REDIR_F_FBO_RAM else v1
  }

  /**
   * A consistent redirection mode: only known bits, FBO whenever an FBO-dependent bit
   * is set, FBO_RAM whenever a RAM-dependent bit is set.
   */
  predicate RedirConsistent(v: bv32)
  {
    v & !REDIR_F_ALL == 0 &&
    (v & REDIR_FGROUP_REQUIRE_FBO != 0 ==> v & REDIR_F_FBO != 0) &&
    (v & REDIR_FGROUP_REQUIRE_FBO_RAM != 0 ==> v & REDIR_F_FBO_RAM != 0)
  }

  /**
   * The adjusted mode is the smallest consistent mode that keeps every known bit the
   * caller asked for: it is consistent, contains `value & ALL`, and is contained in
   * every consistent mode that contains `value & ALL`.
   */
  lemma RedirModeAdjustLeast(value: bv32, w: bv32)
    ensures var r := RedirModeAdjust(value);
      RedirConsistent(r) &&
      r & REDIR_F_ALL == r &&
      value & REDIR_F_ALL & r == value & REDIR_F_ALL &&
      (RedirConsistent(w) && value & REDIR_F_ALL & w == value & REDIR_F_ALL ==> r & w == r)
  {
  }

  /** Adjusting is idempotent. */
  lemma RedirModeAdjustIdempotent(value: bv32)
    ensures RedirModeAdjust(RedirModeAdjust(value)) == RedirModeAdjust(value)
  {
    RedirModeAdjustLeast(value, value);
    RedirModeFixpoints(RedirModeAdjust(value));
  }

  /** The modes adjusting leaves alone are exactly the consistent ones. */
  lemma RedirModeFixpoints(value: bv32)
    ensures RedirModeAdjust(value) == value <==> RedirConsistent(value)
  {
    RedirModeAdjustLeast(value, value);
    if RedirConsistent(value) {
      assert value & REDIR_F_ALL == value;
      assert value & REDIR_F_FBO != 0 ==> value | REDIR_F_FBO == value;
      assert value & REDIR_F_FBO_RAM != 0 ==> value | REDIR_F_FBO_RAM == value;
    }
  }

  // ---------------------------------------------------------------------------
  // Front/back buffer indices of a mural with `cBuffers` FBOs.

  /** CR_SERVER_FBO_FB_IDX: the buffer after the back buffer, cyclically (GLuint arithmetic). */
  function FrontBufferIdx(iBbBuffer: nat, cBuffers: nat): (r: nat)
    requires iBbBuffer < 0x1_0000_0000 && 0 < cBuffers < 0x1_0000_0000
    ensures r < cBuffers
  {
    ((iBbBuffer + 1) % 0x1_0000_0000) % cBuffers
  }

  /**
   * With the back-buffer index in range, the front buffer is the next one modulo
   * `cBuffers`: distinct from the back buffer when there are two or more buffers, the
   * same buffer when there is only one.
   */
  lemma FrontBackBuffers(iBbBuffer: nat, cBuffers: nat)
    requires 0 < cBuffers < 0x1_0000_0000 && iBbBuffer < cBuffers
    ensures FrontBufferIdx(iBbBuffer, cBuffers) ==
      (if iBbBuffer + 1 == cBuffers then 0 else iBbBuffer + 1)
    ensures FrontBufferIdx(iBbBuffer, cBuffers) == iBbBuffer <==> cBuffers == 1
  {
    ModBelow(iBbBuffer + 1, 0x1_0000_0000);
    if iBbBuffer + 1 < cBuffers {
      ModBelow(iBbBuffer + 1, cBuffers);
    } else {
      ModSelf(cBuffers);
    }
  }

  lemma ModBelow(a: nat, n: nat)
    requires a < n
    ensures a % n == a
  {
  }

  lemma ModSelf(n: nat)
    requires n > 0
    ensures n % n == 0
  {
  }

  // ---------------------------------------------------------------------------
  // Guest offsets into VRAM.

  const UINT64_LIMIT: nat := 0x1_0000_0000_0000_0000

  /**
   * crServerCrHgsmiPtrGet as written: the 64-bit sum `offBuffer + cbBuffer` is compared
   * with the VRAM size; the result is the offset the returned pointer designates.
   */
  function HgsmiPtrGetAsWritten(offBuffer: nat, cbBuffer: nat, cbVRam: nat): (r: Option<nat>)
    requires offBuffer < UINT64_LIMIT && cbBuffer < 0x1_0000_0000 && cbVRam < 0x1_0000_0000
    ensures r.Some? ==> r.value == offBuffer
    ensures offBuffer + cbBuffer < UINT64_LIMIT ==> (r.Some? <==> offBuffer + cbBuffer <= cbVRam)
  {
    if (offBuffer + cbBuffer) % UINT64_LIMIT <= cbVRam then Some(offBuffer) else None
  }

  /** The 64-bit sum wraps for an offset near 2^64 and the check lets a buffer far outside VRAM through. */
  lemma HgsmiPtrGetWrapAccepts()
    ensures var off := UINT64_LIMIT - 1;
      HgsmiPtrGetAsWritten(off, 1, 0x100_0000) == Some(off) && off + 1 > 0x100_0000
  {
  }

  /** The check with the sum taken without wrap-around. */
  function HgsmiPtrGet(offBuffer: nat, cbBuffer: nat, cbVRam: nat): (r: Option<nat>)
    requires offBuffer < UINT64_LIMIT && cbBuffer < 0x1_0000_0000 && cbVRam < 0x1_0000_0000
    ensures offBuffer + cbBuffer < UINT64_LIMIT ==> r == HgsmiPtrGetAsWritten(offBuffer, cbBuffer, cbVRam)
    ensures offBuffer + cbBuffer >= UINT64_LIMIT ==> r.None?
  {
    if offBuffer + cbBuffer <= cbVRam then Some(offBuffer) else None
  }

  /** A pointer is handed out exactly when the whole buffer lies inside VRAM. */
  lemma HgsmiPtrGetInside(offBuffer: nat, cbBuffer: nat, cbVRam: nat)
    requires offBuffer < UINT64_LIMIT && cbBuffer < 0x1_0000_0000 && cbVRam < 0x1_0000_0000
    ensures HgsmiPtrGet(offBuffer, cbBuffer, cbVRam).Some? <==> offBuffer + cbBuffer <= cbVRam
    ensures HgsmiPtrGet(offBuffer, cbBuffer, cbVRam).Some? ==>
      HgsmiPtrGet(offBuffer, cbBuffer, cbVRam).value == offBuffer
  {
  }

  // ---------------------------------------------------------------------------
  // Whether a mural's composited contents must be presented.  The two list-membership
  // tests are the compositor's (CrVrScrCompositorEntryIsInList) and are parameters.

  /** crServerVBoxCompositionPresentNeeded as written: `?:` binds looser than `&&`. */
  function PresentNeededAsWritten(bVisible: bool, width: nat, height: nat, fRootVrOn: bool,
                                  entryInList: bool, rootEntryInList: bool): (r: bool)
    ensures !(bVisible && width != 0 && height != 0) ==> r == rootEntryInList
    ensures bVisible && width != 0 && height != 0 ==> r == (if fRootVrOn then rootEntryInList else entryInList)
  {
    if bVisible && width != 0 && height != 0 && !fRootVrOn then entryInList else rootEntryInList
  }

  /** As written, an invisible mural whose root-region entry is listed is reported as needing a present. */
  lemma PresentNeededInvisible()
    ensures PresentNeededAsWritten(false, 0, 0, true, false, true)
  {
  }

  /** The test with the visibility and size conditions applying to both branches. */
  function PresentNeeded(bVisible: bool, width: nat, height: nat, fRootVrOn: bool,
                         entryInList: bool, rootEntryInList: bool): bool
  {
    bVisible && width != 0 && height != 0 && (if !fRootVrOn then entryInList else rootEntryInList)
  }

  /**
   * The corrected test is the as-written one restricted to visible, non-empty murals,
   * and the two differ exactly on an invisible or empty mural whose root-region entry
   * is listed.
   */
  lemma PresentNeededVersusAsWritten(bVisible: bool, width: nat, height: nat, fRootVrOn: bool,
                                     entryInList: bool, rootEntryInList: bool)
    ensures PresentNeeded(bVisible, width, height, fRootVrOn, entryInList, rootEntryInList)
            == (bVisible && width != 0 && height != 0
                && PresentNeededAsWritten(bVisible, width, height, fRootVrOn, entryInList, rootEntryInList))
    ensures PresentNeededAsWritten(bVisible, width, height, fRootVrOn, entryInList, rootEntryInList)
            != PresentNeeded(bVisible, width, height, fRootVrOn, entryInList, rootEntryInList)
            <==> !(bVisible && width != 0 && height != 0) && rootEntryInList
  {
  }

  // ---------------------------------------------------------------------------
  // Read-pixels-worker entry.

  /** The four texture roles of an RPW entry (the `_name` argument of the macros). */
  datatype Slot = Draw | Submitted | Worker | Gpu

  function Abs(i: int): nat { if i < 0 then -i else i }

  /** The C `%` on int: the remainder takes the sign of the dividend. */
  function CRem(a: int, b: int): (r: int)
    requires b > 0
    ensures a >= 0 ==> r == a % b
    ensures -b < r < b
  {
    if a >= 0 then a % b else -((-a) % b)
  }

  /** CR_SERVER_RPW_ENTRY_PBO_NEXT_ID. */
  function PboNextId(i: int): (r: int)
  {
    CRem(i + 1, 2)
  }

  /**
   * The PBO index alternates between 0 and 1; an inactive index (-1) becomes 0, and two
   * flips of an active index give it back.
   */
  lemma PboFlipAlternates(i: int)
    ensures i == 0 || i == 1 ==> PboNextId(i) == 1 - i && PboNextId(PboNextId(i)) == i
    ensures i == -1 ==> PboNextId(i) == 0
  {
  }

  /**
   * crServerRpwEntryDbgDoVerify, step by step: each value's absolute value must lie in
   * 1..4 and not be in the mask of values seen so far; the final mask must be 0x1E.
   */
  function Bit(a: nat): bv8
    requires a < 8
  {
    (1 as bv8) << a
  }

  function DbgCheckVal(mask: Option<bv8>, v: int): Option<bv8>
  {
    match mask
    case None => None
    case Some(m) =>
      var a := Abs(v);
      if 0 < a < 5 && m & Bit(a) == 0 then Some(m | Bit(a)) else None
  }

  predicate DbgDoVerify(draw: int, submitted: int, worker: int, gpu: int)
  {
    draw > 0 &&
    DbgCheckVal(DbgCheckVal(DbgCheckVal(DbgCheckVal(Some(0), draw), submitted), worker), gpu) == Some(0x1E)
  }

  /**
   * The entry invariant in plain words: Draw is valid and the absolute values of the
   * four roles are 1..4, each exactly once.
   */
  predicate EntryInvariant(draw: int, submitted: int, worker: int, gpu: int)
  {
    draw > 0 &&
    0 < Abs(draw) < 5 && 0 < Abs(submitted) < 5 && 0 < Abs(worker) < 5 && 0 < Abs(gpu) < 5 &&
    Abs(draw) != Abs(submitted) && Abs(draw) != Abs(worker) && Abs(draw) != Abs(gpu) &&
    Abs(submitted) != Abs(worker) && Abs(submitted) != Abs(gpu) && Abs(worker) != Abs(gpu)
  }

  lemma DbgCheckValOk(m: bv8, v: int)
    requires DbgCheckVal(Some(m), v).Some?
    ensures 0 < Abs(v) < 5 && m & Bit(Abs(v)) == 0
    ensures DbgCheckVal(Some(m), v) == Some(m | Bit(Abs(v)))
  {
  }

  lemma BitsDisjoint(a: nat, b: nat)
    requires 0 < a < 5 && 0 < b < 5
    ensures Bit(a) & Bit(b) == 0 <==> a != b
  {
  }

  lemma BitsCover(a: nat, b: nat, c: nat, d: nat)
    requires 0 < a < 5 && 0 < b < 5 && 0 < c < 5 && 0 < d < 5
    requires a != b && a != c && a != d && b != c && b != d && c != d
    ensures Bit(a) | Bit(b) | Bit(c) | Bit(d) == 0x1E
  {
    assert {a, b, c, d} == {1, 2, 3, 4};
  }

  /** The debug check passes exactly when the entry invariant holds. */
  lemma DbgDoVerifyMeaning(draw: int, submitted: int, worker: int, gpu: int)
    ensures DbgDoVerify(draw, submitted, worker, gpu) <==> EntryInvariant(draw, submitted, worker, gpu)
  {
    var a, b, c, d := Abs(draw), Abs(submitted), Abs(worker), Abs(gpu);
    if DbgDoVerify(draw, submitted, worker, gpu) {
      var m1 := DbgCheckVal(Some(0), draw);
      var m2 := DbgCheckVal(m1, submitted);
      var m3 := DbgCheckVal(m2, worker);
      DbgCheckValOk(0, draw);
      DbgCheckValOk(m1.value, submitted);
      DbgCheckValOk(m2.value, worker);
      DbgCheckValOk(m3.value, gpu);
      BitsDisjoint(a, b);
      BitsDisjoint(a, c);
      BitsDisjoint(b, c);
      BitsDisjoint(a, d);
      BitsDisjoint(b, d);
      BitsDisjoint(c, d);
    }
    if EntryInvariant(draw, submitted, worker, gpu) {
      BitsDisjoint(a, b);
      BitsDisjoint(a, c);
      BitsDisjoint(b, c);
      BitsDisjoint(a, d);
      BitsDisjoint(b, d);
      BitsDisjoint(c, d);
      BitsCover(a, b, c, d);
    }
  }

  class RpwEntry {
    var iTexDraw: int
    var iTexSubmitted: int
    var iTexWorker: int
    var iTexGpu: int
    var iCurPBO: int
    /** aidWorkerTexs[4]: texture ids, addressed by |slot value| - 1. */
    var aidWorkerTexs: array<int>

    function Tex(s: Slot): int
      reads this
    {
      match s
      case Draw => iTexDraw
      case Submitted => iTexSubmitted
      case Worker => iTexWorker
      case Gpu => iTexGpu
    }

    /** CR_SERVER_RPW_ENTRY_TEX_IS_VALID. */
    predicate IsValid(s: Slot)
      reads this
    {
      Tex(s) > 0
    }

    ghost predicate Valid()
      reads this
    {
      aidWorkerTexs.Length == 4 && EntryInvariant(Tex(Draw), Tex(Submitted), Tex(Worker), Tex(Gpu))
    }

    /** CR_SERVER_RPW_ENTRY_PBO_IS_ACTIVE. */
    predicate PboIsActive()
      reads this
    {
      iCurPBO >= 0
    }

    /** A freshly initialised entry: Draw owns texture 1 and the other roles hold 2, 3, 4 invalid. */
    constructor (texs: seq<int>)
      requires |texs| == 4
      ensures Valid() && fresh(aidWorkerTexs) && aidWorkerTexs[..] == texs
      ensures iTexDraw == 1 && !IsValid(Submitted) && !IsValid(Worker) && !IsValid(Gpu)
      ensures !PboIsActive()
    {
      iTexDraw, iTexSubmitted, iTexWorker, iTexGpu, iCurPBO := 1, -2, -3, -4, -1;
      aidWorkerTexs := new int[4](i requires 0 <= i < 4 => texs[i]);
    }

    method SetTex(s: Slot, v: int)
      modifies this
      ensures Tex(s) == v && iCurPBO == old(iCurPBO) && aidWorkerTexs == old(aidWorkerTexs)
      ensures forall t :: t != s ==> Tex(t) == old(Tex(t))
    {
      match s
      case Draw => iTexDraw := v;
      case Submitted => iTexSubmitted := v;
      case Worker => iTexWorker := v;
      case Gpu => iTexGpu := v;
    }

    /** crServerXchgI8 on two texture roles. */
    method Xchg(a: Slot, b: Slot)
      requires a != b
      modifies this
      ensures Tex(a) == old(Tex(b)) && Tex(b) == old(Tex(a))
      ensures forall t :: t != a && t != b ==> Tex(t) == old(Tex(t))
      ensures iCurPBO == old(iCurPBO) && aidWorkerTexs == old(aidWorkerTexs)
    {
      var tmp := Tex(a);
      SetTex(a, Tex(b));
      SetTex(b, tmp);
    }

    /** CR_SERVER_RPW_ENTRY_TEX_INVALIDATE: a valid role gives up its texture (Draw keeps its own). */
    method Invalidate(s: Slot)
      requires Valid() && IsValid(s) && s != Draw
      modifies this
      ensures Valid() && Tex(s) == -old(Tex(s)) && !IsValid(s)
      ensures forall t :: t != s ==> Tex(t) == old(Tex(t))
      ensures iCurPBO == old(iCurPBO) && aidWorkerTexs == old(aidWorkerTexs)
    {
      SetTex(s, -Tex(s));
    }

    /** CR_SERVER_RPW_ENTRY_TEX_PROMOTE: a valid texture moves into an invalid role, and the reverse. */
    method Promote(from: Slot, to: Slot)
      requires Valid() && IsValid(from) && !IsValid(to) && from != Draw
      modifies this
      ensures Valid() && Tex(to) == old(Tex(from)) && Tex(from) == old(Tex(to))
      ensures IsValid(to) && !IsValid(from)
      ensures forall t :: t != from && t != to ==> Tex(t) == old(Tex(t))
      ensures iCurPBO == old(iCurPBO) && aidWorkerTexs == old(aidWorkerTexs)
    {
      Xchg(from, to);
    }

    /** CR_SERVER_RPW_ENTRY_TEX_XCHG_VALID: two valid roles trade textures. */
    method XchgValid(from: Slot, to: Slot)
      requires Valid() && IsValid(from) && IsValid(to) && from != to
      modifies this
      ensures Valid() && Tex(to) == old(Tex(from)) && Tex(from) == old(Tex(to))
      ensures IsValid(to) && IsValid(from)
      ensures forall t :: t != from && t != to ==> Tex(t) == old(Tex(t))
      ensures iCurPBO == old(iCurPBO) && aidWorkerTexs == old(aidWorkerTexs)
    {
      Xchg(from, to);
    }

    /**
     * CR_SERVER_RPW_ENTRY_TEX_PROMOTE_KEEPVALID: the valid texture moves on and the
     * source role takes over the texture the target held, made valid.
     */
    method PromoteKeepValid(from: Slot, to: Slot)
      requires Valid() && IsValid(from) && !IsValid(to)
      modifies this
      ensures Valid() && Tex(to) == old(Tex(from)) && Tex(from) == -old(Tex(to))
      ensures IsValid(to) && IsValid(from)
      ensures forall t :: t != from && t != to ==> Tex(t) == old(Tex(t))
      ensures iCurPBO == old(iCurPBO) && aidWorkerTexs == old(aidWorkerTexs)
    {
      Xchg(from, to);
      SetTex(from, -Tex(from));
    }

    /** CR_SERVER_RPW_ENTRY_TEX: the texture id a valid role owns. */
    method TexId(s: Slot) returns (id: int)
      requires Valid() && IsValid(s)
      ensures id == aidWorkerTexs[Tex(s) - 1]
    {
      id := aidWorkerTexs[Tex(s) - 1];
    }

    /** CR_SERVER_RPW_ENTRY_PBO_FLIP. */
    method PboFlip()
      modifies this`iCurPBO
      ensures iCurPBO == PboNextId(old(iCurPBO))
    {
      iCurPBO := PboNextId(iCurPBO);
    }
  }
}
