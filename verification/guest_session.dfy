/**
 * The host side of a guest-control session (Main/src-client/GuestSessionImpl.cpp):
 * the session status as the guest reports it, the guards around starting and
 * closing, the decision `waitFor` takes without waiting, and the registry of
 * guest processes and files that share one object counter and one ID space per
 * kind.  Processes and files are opaque handles; COM, locking, events other than
 * the status-change event, HGCM messages and the waiting itself are outside.
 */
module GuestSession {
  import opened Wrappers
  import Numerals

  /**
   * IPRT status codes.  The codes this file names are constructors; any other
   * status travels as `Code` with its value.  The numeric values live in
   * iprt/err.h, which is not part of this model: what matters here is which codes
   * are failures, and every named VERR_ code is one.
   */
  datatype Rc =
    | VINF_SUCCESS
    | VERR_INVALID_PARAMETER
    | VERR_NOT_SUPPORTED
    | VERR_NOT_FOUND
    | VERR_NOT_IMPLEMENTED
    | VERR_MAX_PROCS_REACHED
    | VERR_GSTCTL_GUEST_ERROR
    | VERR_COM_UNEXPECTED
    | VERR_INVALID_VM_HANDLE
    | VERR_HGCM_SERVICE_NOT_FOUND
    | VERR_AUTHENTICATION_FAILURE
    | VERR_TIMEOUT
    | VERR_CANCELLED
    | VERR_PERMISSION_DENIED
    | VERR_NOT_EQUAL
    | Code(value: int)

  /** RT_FAILURE: a negative status. */
  predicate Failure(rc: Rc)
  {
    match rc
    case VINF_SUCCESS => false
    case Code(v) => v < 0
    case _ => true
  }

  /** GuestSessionStatus. */
  datatype Status =
    | Undefined | Starting | Started | Terminating | Terminated
    | TimedOutKilled | TimedOutAbnormally | Down | Error

  // ---------------------------------------------------------------------------
  // Status notifications from the guest
  // ---------------------------------------------------------------------------

  /** GUEST_SESSION_NOTIFYTYPE_* of the guest-control protocol (GuestControlSvc.h is not part of this model). */
  const NOTIFYTYPE_UNDEFINED: nat := 0
  const NOTIFYTYPE_ERROR: nat := 1
  const NOTIFYTYPE_STARTED: nat := 11
  const NOTIFYTYPE_TEN: nat := 20
  const NOTIFYTYPE_TES: nat := 30
  const NOTIFYTYPE_TEA: nat := 40
  const NOTIFYTYPE_TOK: nat := 50
  const NOTIFYTYPE_TOA: nat := 60
  const NOTIFYTYPE_DWN: nat := 150

  /** The switch of onSessionStatusChange: the status a notification type stands for. */
  function StatusOfNotify(uType: nat): (r: Option<Status>)
    ensures r.None? <==> uType !in {NOTIFYTYPE_ERROR, NOTIFYTYPE_STARTED, NOTIFYTYPE_TEN, NOTIFYTYPE_TES,
                                    NOTIFYTYPE_TEA, NOTIFYTYPE_TOK, NOTIFYTYPE_TOA, NOTIFYTYPE_DWN}
    ensures r.Some? ==> r.value !in {Undefined, Starting, Terminating}
    ensures r == Some(Error) <==> uType == NOTIFYTYPE_ERROR
    ensures r == Some(Terminated) <==> uType in {NOTIFYTYPE_TEN, NOTIFYTYPE_TES, NOTIFYTYPE_TEA}
  {
    if uType == NOTIFYTYPE_ERROR then Some(Error)
    else if uType == NOTIFYTYPE_STARTED then Some(Started)
    else if uType == NOTIFYTYPE_TEN || uType == NOTIFYTYPE_TES || uType == NOTIFYTYPE_TEA then Some(Terminated)
    else if uType == NOTIFYTYPE_TOK then Some(TimedOutKilled)
    else if uType == NOTIFYTYPE_TOA then Some(TimedOutAbnormally)
    else if uType == NOTIFYTYPE_DWN then Some(Down)
    else None
  }

  /** The status a known notification sets: a failing guest result turns it into Error. */
  function NotifiedStatus(uType: nat, guestRc: Rc): (r: Option<Status>)
    ensures r.Some? <==> StatusOfNotify(uType).Some?
    ensures r.Some? ==> (r.value == Error <==> uType == NOTIFYTYPE_ERROR || Failure(guestRc))
    ensures r.Some? && !Failure(guestRc) ==> r == StatusOfNotify(uType)
  {
    match StatusOfNotify(uType)
    case None => None
    case Some(s) => Some(if Failure(guestRc) then Error else s)
  }

  /** The event fired when the status changes. */
  datatype StatusEvent = StateChanged(status: Status, rc: Rc)

  /** mStatus, mRC and the status-change events fired so far. */
  datatype Track = Track(status: Status, rc: Rc, events: seq<StatusEvent>)

  /** setSessionStatus: status, result and event only when the status differs. */
  function SetSessionStatus(t: Track, status: Status, sessionRc: Rc): (r: Track)
    ensures r.status == status
    ensures r == t <==> t.status == status
    ensures r != t ==> r.rc == sessionRc && r.events == t.events + [StateChanged(status, sessionRc)]
  {
    if t.status != status then Track(status, sessionRc, t.events + [StateChanged(status, sessionRc)]) else t
  }

  /** Setting a status twice fires at most one event and leaves the first result in place. */
  lemma SetSessionStatusTwice(t: Track, status: Status, rc1: Rc, rc2: Rc)
    ensures SetSessionStatus(SetSessionStatus(t, status, rc1), status, rc2) == SetSessionStatus(t, status, rc1)
    ensures |SetSessionStatus(t, status, rc1).events| <= |t.events| + 1
  {
  }

  /** Each status a sequence of notifications sets, in order. */
  function ApplyAll(t: Track, updates: seq<(Status, Rc)>): Track
    decreases |updates|
  {
    if updates == [] then t else ApplyAll(SetSessionStatus(t, updates[0].0, updates[0].1), updates[1..])
  }

  /** Every status-change event records a real change: no event repeats the status it follows. */
  ghost predicate EventsAreChanges(t: Track)
  {
    && (forall i :: 0 < i < |t.events| ==> t.events[i - 1].status != t.events[i].status)
    && (t.events != [] ==> t.events[|t.events| - 1].status == t.status)
  }

  /** setSessionStatus alone keeps every event a real change. */
  lemma {:induction false} ApplyAllKeepsEvents(t: Track, updates: seq<(Status, Rc)>)
    requires EventsAreChanges(t)
    ensures EventsAreChanges(ApplyAll(t, updates))
    ensures ApplyAll(t, updates).status == if updates == [] then t.status else updates[|updates| - 1].0
    decreases |updates|
  {
    if updates != [] {
      var t1 := SetSessionStatus(t, updates[0].0, updates[0].1);
      assert EventsAreChanges(t1);
      ApplyAllKeepsEvents(t1, updates[1..]);
    }
  }

  // ---------------------------------------------------------------------------
  // waitFor: what is decided before any waiting
  // ---------------------------------------------------------------------------

  /** GuestSessionWaitForFlag. */
  const WAITFOR_START: bv32 := 0x1
  const WAITFOR_TERMINATE: bv32 := 0x2
  const WAITFOR_STATUS: bv32 := 0x4

  /** GuestSessionWaitResult. */
  datatype WaitResult = WaitNone | WaitStart | WaitTerminate | WaitStatus | WaitError | WaitTimeout

  /** What waitFor does before waiting: answer at once, wait, or refuse. */
  datatype WaitStep = Immediate(result: WaitResult, vrc: Rc) | MustWait | Refused(vrc: Rc)

  /** The switch after waitForStatusChange: the wait result a new status stands for. */
  function WaitResultOf(status: Status): (r: WaitResult)
    ensures r == WaitStatus <==> status in {Undefined, Starting, Terminating}
    ensures r == WaitTerminate <==> status in {Terminated, Down}
    ensures r == WaitTimeout <==> status in {TimedOutKilled, TimedOutAbnormally}
  {
    match status
    case Started => WaitStart
    case Terminated => WaitTerminate
    case TimedOutKilled => WaitTimeout
    case TimedOutAbnormally => WaitTimeout
    case Down => WaitTerminate
    case Error => WaitError
    case _ => WaitStatus
  }

  /** The immediate part of waitFor for the session's status and last result. */
  function WaitDecision(flags: bv32, status: Status, rc: Rc): (r: WaitStep)
    ensures flags == 0 ==> r == Refused(VERR_INVALID_PARAMETER)
    ensures flags != 0 && status == Error ==> r == Immediate(WaitError, VERR_GSTCTL_GUEST_ERROR)
    ensures r.Immediate? ==> r.result != WaitNone
    ensures r.Immediate? && status != Error ==> r.vrc == if Failure(rc) then VERR_GSTCTL_GUEST_ERROR else VINF_SUCCESS
    ensures r.MustWait? <==>
      && flags != 0 && status != Error
      && (status in {Undefined, Starting} || flags & (WAITFOR_START | WAITFOR_TERMINATE) == 0)
    ensures r == Refused(VERR_NOT_IMPLEMENTED) <==> flags & WAITFOR_TERMINATE != 0 && status == Terminating
  {
    if flags == 0 then Refused(VERR_INVALID_PARAMETER)
    else if status == Error then Immediate(WaitError, VERR_GSTCTL_GUEST_ERROR)
    else
      var result :=
        if flags & WAITFOR_TERMINATE != 0 then
          match status
          case Terminated => Some(WaitTerminate)
          case Down => Some(WaitTerminate)
          case TimedOutKilled => Some(WaitTimeout)
          case TimedOutAbnormally => Some(WaitTimeout)
          case Started => Some(WaitStart)
          case Undefined => Some(WaitNone)
          case Starting => Some(WaitNone)
          case _ => None
        else if flags & WAITFOR_START != 0 then
          match status
          case Started => Some(WaitStart)
          case Terminating => Some(WaitStart)
          case Terminated => Some(WaitStart)
          case Down => Some(WaitStart)
          case TimedOutKilled => Some(WaitTimeout)
          case TimedOutAbnormally => Some(WaitTimeout)
          case _ => Some(WaitNone)
        else Some(WaitNone);
      if result.None? then Refused(VERR_NOT_IMPLEMENTED)
      else if result.value == WaitNone then MustWait
      else Immediate(result.value, if Failure(rc) then VERR_GSTCTL_GUEST_ERROR else VINF_SUCCESS)
  }

  /**
   * Under the Terminate flag, answering at once gives the result waiting would
   * have given for the same status; under the Start flag alone, every status at or
   * past Started counts as started.
   */
  lemma ImmediateMatchesWait(flags: bv32, status: Status, rc: Rc)
    ensures flags & WAITFOR_TERMINATE != 0 && WaitDecision(flags, status, rc).Immediate? ==>
      WaitDecision(flags, status, rc).result == WaitResultOf(status)
    ensures flags & WAITFOR_TERMINATE == 0 && flags & WAITFOR_START != 0 && status in {Started, Terminating, Terminated, Down} ==>
      WaitDecision(flags, status, rc).result == WaitStart
  {
  }

  // ---------------------------------------------------------------------------
  // guestErrorToString
  // ---------------------------------------------------------------------------

  /** The guest results that have a message of their own. */
  predicate KnownGuestError(rc: Rc)
  {
    match rc
    case VERR_INVALID_VM_HANDLE | VERR_HGCM_SERVICE_NOT_FOUND | VERR_AUTHENTICATION_FAILURE
      | VERR_TIMEOUT | VERR_CANCELLED | VERR_PERMISSION_DENIED | VERR_MAX_PROCS_REACHED
      | VERR_NOT_EQUAL | VERR_NOT_FOUND => true
    case _ => false
  }

  /** The message guestErrorToString has for a known guest error. */
  function GuestMessage(rc: Rc): string
    requires KnownGuestError(rc)
  {
    match rc
    case VERR_INVALID_VM_HANDLE => "VMM device is not available (is the VM running?)"
    case VERR_HGCM_SERVICE_NOT_FOUND => "The guest execution service is not available"
    case VERR_AUTHENTICATION_FAILURE => "The specified user was not able to logon on guest"
    case VERR_TIMEOUT => "The guest did not respond within time"
    case VERR_CANCELLED => "The session operation was canceled"
    case VERR_PERMISSION_DENIED => "Invalid user/password credentials"
    case VERR_MAX_PROCS_REACHED => "Maximum number of concurrent guest processes has been reached"
    case VERR_NOT_EQUAL => "Unable to retrieve requested information"
    case VERR_NOT_FOUND => "The guest execution service is not ready (yet)"
  }

  /**
   * guestErrorToString, before translation; `formatRc` is IPRT's `%Rrc`
   * formatting, which is not part of this model.
   */
  function GuestErrorText(guestRc: Rc, formatRc: Rc -> string): (s: string)
    ensures !KnownGuestError(guestRc) ==> s == formatRc(guestRc)
    ensures KnownGuestError(guestRc) ==> s == GuestMessage(guestRc)
  {
    if KnownGuestError(guestRc) then GuestMessage(guestRc) else formatRc(guestRc)
  }

  /** The length of each known guest error's message. */
  function KnownTextLength(rc: Rc): nat
  {
    match rc
    case VERR_INVALID_VM_HANDLE => 48
    case VERR_HGCM_SERVICE_NOT_FOUND => 44
    case VERR_AUTHENTICATION_FAILURE => 49
    case VERR_TIMEOUT => 37
    case VERR_CANCELLED => 34
    case VERR_PERMISSION_DENIED => 33
    case VERR_MAX_PROCS_REACHED => 61
    case VERR_NOT_EQUAL => 40
    case VERR_NOT_FOUND => 46
    case _ => 0
  }

  lemma GuestMessageLength(rc: Rc)
    requires KnownGuestError(rc)
    ensures |GuestMessage(rc)| == KnownTextLength(rc)
  {
  }

  /** No two known guest errors have messages of the same length. */
  lemma KnownTextLengthsDistinct(a: Rc, b: Rc)
    requires KnownGuestError(a) && KnownGuestError(b)
    ensures KnownTextLength(a) == KnownTextLength(b) <==> a == b
  {
  }

  /** Each known guest error has its own message, whatever `%Rrc` would print. */
  lemma GuestErrorTextsDistinct(a: Rc, b: Rc, f: Rc -> string, g: Rc -> string)
    requires KnownGuestError(a) && KnownGuestError(b)
    ensures GuestErrorText(a, f) == GuestErrorText(b, g) <==> a == b
  {
    GuestMessageLength(a);
    GuestMessageLength(b);
    KnownTextLengthsDistinct(a, b);
  }

  // ---------------------------------------------------------------------------
  // Process creation flags
  // ---------------------------------------------------------------------------

  /** ProcessCreateFlag (VirtualBox.xidl is not part of this model). */
  const WAIT_FOR_PROCESS_START_ONLY: bv32 := 0x1
  const IGNORE_ORPHANED_PROCESSES: bv32 := 0x2
  const HIDDEN: bv32 := 0x4
  const NO_PROFILE: bv32 := 0x8
  const WAIT_FOR_STD_OUT: bv32 := 0x10
  const WAIT_FOR_STD_ERR: bv32 := 0x20

  const KNOWN_PROCESS_FLAGS: bv32 :=
    IGNORE_ORPHANED_PROCESSES | WAIT_FOR_PROCESS_START_ONLY | HIDDEN | NO_PROFILE | WAIT_FOR_STD_OUT | WAIT_FOR_STD_ERR

  /** One flag bit is set in `flags`. */
  predicate HasFlag(flags: bv32, bit: bv32) { flags & bit != 0 }

  /** The flag validation of processCreateExInteral. */
  predicate ProcessFlagsOk(flags: bv32)
  {
    && !(flags != 0 && flags & KNOWN_PROCESS_FLAGS == 0)
    && !(flags & WAIT_FOR_PROCESS_START_ONLY != 0 && flags & (WAIT_FOR_STD_OUT | WAIT_FOR_STD_ERR) != 0)
  }

  /**
   * The validation spelled out flag by flag: flags are refused when set but
   * naming none of the six known flags, or when start-only is combined with
   * waiting for output.  Unknown bits beside a known one pass.
   */
  lemma ProcessFlagsRule(flags: bv32)
    ensures ProcessFlagsOk(flags) <==>
      && (flags == 0 || HasFlag(flags, IGNORE_ORPHANED_PROCESSES) || HasFlag(flags, WAIT_FOR_PROCESS_START_ONLY)
          || HasFlag(flags, HIDDEN) || HasFlag(flags, NO_PROFILE) || HasFlag(flags, WAIT_FOR_STD_OUT)
          || HasFlag(flags, WAIT_FOR_STD_ERR))
      && !(HasFlag(flags, WAIT_FOR_PROCESS_START_ONLY) && (HasFlag(flags, WAIT_FOR_STD_OUT) || HasFlag(flags, WAIT_FOR_STD_ERR)))
  {
  }

  /** A timeout of 0 means "no timeout", kept as UINT32_MAX milliseconds. */
  function EffectiveTimeout(timeoutMS: nat): (r: nat)
    ensures r != 0
    ensures timeoutMS != 0 ==> r == timeoutMS
    ensures timeoutMS == 0 ==> r == 0xFFFF_FFFF
  {
    if timeoutMS == 0 then 0xFFFF_FFFF else timeoutMS
  }

  // ---------------------------------------------------------------------------
  // Object IDs
  // ---------------------------------------------------------------------------

  /** `id` is the smallest number not in `used`. */
  ghost predicate LeastFree(used: set<nat>, id: nat)
  {
    id !in used && forall k :: 0 <= k < id ==> k in used
  }

  /** A set holding all of 0 .. n-1 has at least n members. */
  lemma {:induction false} AllBelowCounted(used: set<nat>, n: nat)
    requires forall k :: 0 <= k < n ==> k in used
    ensures |used| >= n
    decreases n
  {
    if n > 0 {
      var rest := used - {n - 1};
      assert forall k :: 0 <= k < n - 1 ==> k in rest;
      AllBelowCounted(rest, n - 1);
    }
  }

  /**
   * The ID search loop of processCreateExInteral and fileOpenInternal: IDs are
   * tried from 0, wrapping at `maxObjects`, and the search gives up after
   * `maxTries` tries.
   */
  method FindFreeId(used: set<nat>, maxObjects: nat, maxTries: nat) returns (r: Option<nat>)
    requires maxObjects > 0 && maxTries > 0
    ensures r.Some? ==> r.value < maxObjects && LeastFree(used, r.value)
    ensures r.None? ==> forall k :: 0 <= k < maxObjects && k < maxTries ==> k in used
  {
    var id: nat := 0;
    var tries: nat := 0;
    while true
      invariant tries < maxTries && id < maxObjects
      invariant tries < maxObjects ==> id == tries
      invariant forall k :: 0 <= k < tries && k < maxObjects ==> k in used
      decreases maxTries - tries
    {
      if id !in used {
        return Some(id);
      }
      id := id + 1;
      if id == maxObjects {
        id := 0;
      }
      tries := tries + 1;
      if tries == maxTries {
        return None;
      }
    }
  }

  /** Fewer used IDs than `maxObjects`, and enough tries, always find one. */
  lemma FreeIdExists(used: set<nat>, maxObjects: nat, maxTries: nat)
    requires |used| < maxObjects <= maxTries
    ensures !(forall k :: 0 <= k < maxObjects && k < maxTries ==> k in used)
  {
    if forall k :: 0 <= k < maxObjects && k < maxTries ==> k in used {
      AllBelowCounted(used, maxObjects);
    }
  }

  /** A GuestProcess or GuestFile object, compared only by identity. */
  type Handle = nat

  /** `k` is the first key, in the map's ascending order, whose object is `h`. */
  ghost predicate FirstKeyOf(m: map<nat, Handle>, h: Handle, k: nat)
  {
    k in m && m[k] == h && forall j :: j in m && j < k ==> m[j] != h
  }

  /** The iteration of processRemoveFromList / fileRemoveFromList: the first entry holding `h`. */
  method FindEntry(m: map<nat, Handle>, h: Handle, bound: nat) returns (r: Option<nat>)
    requires forall k :: k in m ==> k < bound
    ensures r.Some? ==> FirstKeyOf(m, h, r.value)
    ensures r.None? ==> forall k :: k in m ==> m[k] != h
  {
    var k: nat := 0;
    while k < bound
      invariant k <= bound
      invariant forall j :: j in m && j < k ==> m[j] != h
    {
      if k in m && m[k] == h {
        return Some(k);
      }
      k := k + 1;
    }
    return None;
  }

  predicate AllDigits(s: string) { forall i :: 0 <= i < |s| ==> Numerals.IsDigit(s[i]) }

  /** The guest process that directoryCreateInternal runs. */
  datatype ProcInfo = ProcInfo(command: string, flags: bv32, arguments: seq<string>)

  const TOOL_MKDIR: string := "vbox_mkdir"
  /** DirectoryCreateFlag_Parents. */
  const DIRECTORY_CREATE_PARENTS: bv32 := 0x1

  /**
   * The argument list directoryCreateInternal pushes: `--parents` when asked for,
   * `--mode` and the mode in octal when it is non-zero, then the path.  `%o` of a
   * 32-bit mode takes at most 11 characters, so the 16-byte buffer never
   * overflows and VERR_BUFFER_OVERFLOW is not reachable.
   */
  method DirectoryCreateArgs(path: string, mode: nat, flags: bv32) returns (info: ProcInfo)
    requires mode < 0x1_0000_0000
    ensures info.command == TOOL_MKDIR && info.flags == HIDDEN
    ensures var args := info.arguments;
      var parents := HasFlag(flags, DIRECTORY_CREATE_PARENTS);
      && |args| == 1 + (if parents then 1 else 0) + (if mode != 0 then 2 else 0)
      && args[|args| - 1] == path
      && (parents ==> args[0] == "--parents")
      && (mode != 0 ==>
            && args[|args| - 3] == "--mode"
            && |args[|args| - 2]| <= 11
            && AllDigits(args[|args| - 2])
            && Numerals.ParseNat(args[|args| - 2], 8) == mode)
  {
    var args: seq<string> := [];
    if flags & DIRECTORY_CREATE_PARENTS != 0 {
      args := args + ["--parents"];
    }
    if mode != 0 {
      args := args + ["--mode"];
      var text := Numerals.Octal(mode);
      Numerals.NatTextLength(mode, 8, 11);
      assert Numerals.Pow(8, 11) == 0x2_0000_0000;
      Numerals.ParseNatText(mode, 8);
      args := args + [text];
    }
    args := args + [path];
    info := ProcInfo(TOOL_MKDIR, HIDDEN, args);
  }

  // ---------------------------------------------------------------------------
  // The session object
  // ---------------------------------------------------------------------------

  class Session {
    /** mData.mProtocolVersion. */
    const protocolVersion: nat
    /** VBOX_GUESTCTRL_MAX_OBJECTS. */
    const maxObjects: nat
    var status: Status
    var rc: Rc
    var events: seq<StatusEvent>
    var processes: map<nat, Handle>
    var files: map<nat, Handle>
    var numObjects: nat

    /** The object counter counts the registered processes and files, and every ID is below the maximum. */
    ghost predicate Valid()
      reads this
    {
      && 0 < maxObjects <= 0xFFFF_FFFF
      && numObjects == |processes| + |files|
      && numObjects <= maxObjects
      && (forall id :: id in processes ==> id < maxObjects)
      && (forall id :: id in files ==> id < maxObjects)
    }

    function Tracked(): Track
      reads this
    {
      Track(status, rc, events)
    }

    constructor (protocolVersion: nat, maxObjects: nat)
      requires 0 < maxObjects <= 0xFFFF_FFFF
      ensures Valid()
      ensures this.protocolVersion == protocolVersion && this.maxObjects == maxObjects
      ensures Tracked() == Track(Undefined, VINF_SUCCESS, [])
      ensures processes == map[] && files == map[]
    {
      this.protocolVersion := protocolVersion;
      this.maxObjects := maxObjects;
      status := Undefined;
      rc := VINF_SUCCESS;
      events := [];
      processes := map[];
      files := map[];
      numObjects := 0;
    }

    /** setSessionStatus. */
    method SetStatus(newStatus: Status, sessionRc: Rc) returns (vrc: Rc)
      modifies this`status, this`rc, this`events
      ensures Tracked() == SetSessionStatus(old(Tracked()), newStatus, sessionRc)
      ensures vrc == VINF_SUCCESS
    {
      if status != newStatus {
        status := newStatus;
        rc := sessionRc;
        events := events + [StateChanged(newStatus, sessionRc)];
      }
      vrc := VINF_SUCCESS;
    }

    /**
     * onSessionStatusChange for a callback with `cParms` parameters carrying the
     * notification type and the guest's result.
     */
    method OnSessionStatusChange(cParms: nat, uType: nat, guestRc: Rc) returns (vrc: Rc)
      modifies this`status, this`rc, this`events
      ensures cParms < 3 ==> vrc == VERR_INVALID_PARAMETER && Tracked() == old(Tracked())
      ensures cParms >= 3 && NotifiedStatus(uType, guestRc).None? ==>
        vrc == VERR_NOT_SUPPORTED && Tracked() == old(Tracked())
      ensures cParms >= 3 && NotifiedStatus(uType, guestRc).Some? ==>
        vrc == VINF_SUCCESS && Tracked() == SetSessionStatus(old(Tracked()), NotifiedStatus(uType, guestRc).value, guestRc)
    {
      if cParms < 3 {
        return VERR_INVALID_PARAMETER;
      }
      vrc := VINF_SUCCESS;
      var sessionStatus := Undefined;
      var mapped := StatusOfNotify(uType);
      if mapped.None? {
        vrc := VERR_NOT_SUPPORTED;
      } else {
        sessionStatus := mapped.value;
      }
      if !Failure(vrc) && Failure(guestRc) {
        sessionStatus := Error;
      }
      if sessionStatus != Undefined {
        var rc2 := SetStatus(sessionStatus, guestRc);
        if !Failure(vrc) {
          vrc := rc2;
        }
      }
    }

    /**
     * The guards of startSessionIntenal.  `toGuest` says the session-create
     * request goes to the guest (registering the wait event, sending it and
     * waiting are not part of this model); no event is fired here.
     */
    method StartSession() returns (vrc: Rc, toGuest: bool)
      modifies this`status
      ensures protocolVersion < 2 ==> status == Started && vrc == VINF_SUCCESS && !toGuest
      ensures protocolVersion >= 2 && old(status) != Undefined ==> status == old(status) && vrc == VINF_SUCCESS && !toGuest
      ensures protocolVersion >= 2 && old(status) == Undefined ==> status == Starting && toGuest
    {
      toGuest := false;
      vrc := VINF_SUCCESS;
      if protocolVersion < 2 {
        status := Started;
        return;
      }
      if status != Undefined {
        return;
      }
      status := Starting;
      toGuest := true;
    }

    /**
     * closeSession.  The guest round trip is foreign: `registerRc` is what
     * registerEvent returns (VERR_NO_MEMORY when the event list cannot grow),
     * `sendRc` what sendCommand returns and `waitRc` what waitForStatusChange
     * returns; only a started session of a recent guest reaches the guest.
     */
    method CloseSession(registerRc: Rc, sendRc: Rc, waitRc: Rc) returns (vrc: Rc, toGuest: bool)
      ensures toGuest <==> protocolVersion >= 2 && status == Started
      ensures !toGuest ==> vrc == VINF_SUCCESS
      ensures toGuest && Failure(registerRc) ==> vrc == registerRc
      ensures toGuest && !Failure(registerRc) && Failure(sendRc) ==> vrc == sendRc
      ensures toGuest && !Failure(registerRc) && !Failure(sendRc) ==> vrc == waitRc
      ensures Failure(vrc) ==> toGuest
    {
      toGuest := false;
      if protocolVersion < 2 {
        return VINF_SUCCESS, toGuest;
      }
      if status != Started {
        return VINF_SUCCESS, toGuest;
      }
      toGuest := true;
      vrc := registerRc;
      if Failure(vrc) {
        return;
      }
      vrc := sendRc;
      if !Failure(vrc) {
        vrc := waitRc;
      }
    }

    /**
     * processCreateExInteral.  `comOk` is whether the COM object is created and
     * `initRc` what GuestProcess::init returns; `timeout` is the adjusted timeout
     * handed to the process.
     */
    method ProcessCreate(flags: bv32, timeoutMS: nat, h: Handle, comOk: bool, initRc: Rc)
      returns (vrc: Rc, id: Option<nat>, timeout: nat)
      requires Valid()
      modifies this`processes, this`numObjects
      ensures Valid() && files == old(files)
      ensures ProcessFlagsOk(flags) ==> timeout == EffectiveTimeout(timeoutMS)
      ensures !ProcessFlagsOk(flags) ==> timeout == timeoutMS && vrc == VERR_INVALID_PARAMETER
      ensures ProcessFlagsOk(flags) && old(numObjects) >= maxObjects ==> vrc == VERR_MAX_PROCS_REACHED
      ensures ProcessFlagsOk(flags) && old(numObjects) < maxObjects && !comOk ==> vrc == VERR_COM_UNEXPECTED
      ensures ProcessFlagsOk(flags) && old(numObjects) < maxObjects && comOk ==> vrc == initRc
      ensures !Failure(vrc) <==> ProcessFlagsOk(flags) && old(numObjects) < maxObjects && comOk && !Failure(initRc)
      ensures !Failure(vrc) ==>
        && id.Some? && LeastFree(old(processes).Keys, id.value)
        && processes == old(processes)[id.value := h] && numObjects == old(numObjects) + 1
      ensures Failure(vrc) ==> processes == old(processes) && numObjects == old(numObjects)
    {
      id := None;
      timeout := timeoutMS;
      if flags != 0 && flags & KNOWN_PROCESS_FLAGS == 0 {
        return VERR_INVALID_PARAMETER, id, timeout;
      }
      if flags & WAIT_FOR_PROCESS_START_ONLY != 0 && flags & (WAIT_FOR_STD_OUT | WAIT_FOR_STD_ERR) != 0 {
        return VERR_INVALID_PARAMETER, id, timeout;
      }
      timeout := EffectiveTimeout(timeoutMS);
      if numObjects >= maxObjects {
        return VERR_MAX_PROCS_REACHED, id, timeout;
      }
      var found := FindFreeId(processes.Keys, maxObjects, maxObjects);
      if found.None? {
        FreeIdExists(processes.Keys, maxObjects, maxObjects);
        return VERR_MAX_PROCS_REACHED, id, timeout;
      }
      if !comOk {
        return VERR_COM_UNEXPECTED, id, timeout;
      }
      if Failure(initRc) {
        return initRc, id, timeout;
      }
      processes := processes[found.value := h];
      numObjects := numObjects + 1;
      return initRc, found, timeout;
    }

    /**
     * The registry part of fileOpenInternal.  `comOk` is whether the COM object is
     * created, `initRc` what GuestFile::init returns and `openRc` what openFile
     * returns; the ID search gives up after UINT32_MAX tries.
     */
    method FileOpen(h: Handle, comOk: bool, initRc: Rc, openRc: Rc) returns (vrc: Rc, id: Option<nat>)
      requires Valid()
      modifies this`files, this`numObjects
      ensures Valid() && processes == old(processes)
      ensures old(numObjects) >= maxObjects ==> vrc == VERR_MAX_PROCS_REACHED
      ensures old(numObjects) < maxObjects && !comOk ==> vrc == VERR_COM_UNEXPECTED
      ensures old(numObjects) < maxObjects && comOk && Failure(initRc) ==> vrc == initRc
      ensures old(numObjects) < maxObjects && comOk && !Failure(initRc) ==> vrc == openRc
      ensures !Failure(vrc) ==>
        && id.Some? && LeastFree(old(files).Keys, id.value)
        && files == old(files)[id.value := h] && numObjects == old(numObjects) + 1
      ensures Failure(vrc) ==> files == old(files) && numObjects == old(numObjects)
    {
      id := None;
      if numObjects >= maxObjects {
        return VERR_MAX_PROCS_REACHED, id;
      }
      var found := FindFreeId(files.Keys, maxObjects, 0xFFFF_FFFF);
      if found.None? {
        FreeIdExists(files.Keys, maxObjects, 0xFFFF_FFFF);
        return VERR_MAX_PROCS_REACHED, id;
      }
      if !comOk {
        return VERR_COM_UNEXPECTED, id;
      }
      if Failure(initRc) {
        return initRc, id;
      }
      vrc := openRc;
      if !Failure(openRc) {
        files := files[found.value := h];
        numObjects := numObjects + 1;
        id := found;
      }
    }

    /** processRemoveFromList: the first entry holding `h` goes, and the counter with it. */
    method ProcessRemove(h: Handle) returns (vrc: Rc)
      requires Valid()
      modifies this`processes, this`numObjects
      ensures Valid() && files == old(files)
      ensures vrc == VINF_SUCCESS || vrc == VERR_NOT_FOUND
      ensures vrc == VERR_NOT_FOUND <==> h !in old(processes).Values
      ensures vrc == VERR_NOT_FOUND ==> processes == old(processes) && numObjects == old(numObjects)
      ensures vrc == VINF_SUCCESS ==> exists k :: FirstKeyOf(old(processes), h, k) && processes == old(processes) - {k}
      ensures vrc == VINF_SUCCESS ==> numObjects == old(numObjects) - 1
    {
      var k := FindEntry(processes, h, maxObjects);
      if k.None? {
        return VERR_NOT_FOUND;
      }
      assert processes.Keys - {k.value} == (processes - {k.value}).Keys;
      processes := processes - {k.value};
      numObjects := numObjects - 1;
      return VINF_SUCCESS;
    }

    /** fileRemoveFromList: the first entry holding `h` goes, and the counter with it. */
    method FileRemove(h: Handle) returns (vrc: Rc)
      requires Valid()
      modifies this`files, this`numObjects
      ensures Valid() && processes == old(processes)
      ensures vrc == VINF_SUCCESS || vrc == VERR_NOT_FOUND
      ensures vrc == VERR_NOT_FOUND <==> h !in old(files).Values
      ensures vrc == VERR_NOT_FOUND ==> files == old(files) && numObjects == old(numObjects)
      ensures vrc == VINF_SUCCESS ==> exists k :: FirstKeyOf(old(files), h, k) && files == old(files) - {k}
      ensures vrc == VINF_SUCCESS ==> numObjects == old(numObjects) - 1
    {
      var k := FindEntry(files, h, maxObjects);
      if k.None? {
        return VERR_NOT_FOUND;
      }
      assert files.Keys - {k.value} == (files - {k.value}).Keys;
      files := files - {k.value};
      numObjects := numObjects - 1;
      return VINF_SUCCESS;
    }
  }
}
