/**
 * Window bookkeeping of the OpenGL host server (crserverlib/server_window.c): every
 * client keeps a fixed table of the window ids it uses, the server keeps a table of
 * murals (server-side windows) by id, and clients, contexts and the server itself
 * point at a "current" mural that must not outlive the mural.
 *
 * Windows created through the SPU chain, the compositor and the output-redirection
 * callbacks are foreign; their results enter as parameters.
 */
module ServerWindow {
  import opened Wrappers

  /** Slots in a client's window table. */
  const CR_MAX_WINDOWS: nat := 100

  // ---------------------------------------------------------------------------
  // Slot tables as values.

  /** Index of the first zero slot, or the length when every slot is taken. */
  function FirstZero(s: seq<int>): (p: nat)
    ensures p <= |s|
    ensures p < |s| ==> s[p] == 0
    ensures forall k :: 0 <= k < p ==> s[k] != 0
  {
    if s == [] then 0 else if s[0] == 0 then 0 else 1 + FirstZero(s[1..])
  }

  /** Index of the first slot holding `w`, or the length when none does. */
  function FirstIndex(s: seq<int>, w: int): (p: nat)
    ensures p <= |s|
    ensures p < |s| <==> w in s
    ensures p < |s| ==> s[p] == w
    ensures forall k :: 0 <= k < p ==> s[k] != w
  {
    if s == [] then 0 else if s[0] == w then 0 else 1 + FirstIndex(s[1..], w)
  }

  /** The table with the first slot holding `w` cleared. */
  function RemoveFirst(s: seq<int>, w: int): seq<int>
  {
    var p := FirstIndex(s, w);
    if p < |s| then s[p := 0] else s
  }

  /** The table with `id` stored in its first zero slot, if it has one. */
  function PlaceFirstFree(s: seq<int>, id: int): seq<int>
  {
    var p := FirstZero(s);
    if p < |s| then s[p := id] else s
  }

  /**
   * Removing a non-zero id takes away exactly one of its occurrences, adds one zero
   * and leaves every other id's count alone; removing an absent id changes nothing.
   */
  lemma RemoveFirstCounts(s: seq<int>, w: int)
    requires w != 0
    ensures w in s ==> multiset(RemoveFirst(s, w)) == multiset(s) - multiset{w} + multiset{0}
    ensures w !in s ==> RemoveFirst(s, w) == s
    ensures |RemoveFirst(s, w)| == |s|
  {
    var p := FirstIndex(s, w);
    if p < |s| {
      assert s == s[..p] + [w] + s[p + 1..];
      assert s[p := 0] == s[..p] + [0] + s[p + 1..];
    }
  }

  /** Placing a new id fills one free slot and touches nothing else. */
  lemma PlaceFirstFreeCounts(s: seq<int>, id: int)
    ensures 0 in s ==> multiset(PlaceFirstFree(s, id)) == multiset(s) - multiset{0} + multiset{id}
    ensures 0 !in s ==> PlaceFirstFree(s, id) == s
    ensures forall k :: 0 <= k < |s| && s[k] != 0 ==> PlaceFirstFree(s, id)[k] == s[k]
  {
    var p := FirstZero(s);
    if p < |s| {
      var a, b := s[..p], s[p + 1..];
      assert s == a + [0] + b;
      assert s[p := id] == a + [id] + b;
      assert multiset(s) == multiset(a) + multiset{0} + multiset(b);
      assert multiset(s[p := id]) == multiset(a) + multiset{id} + multiset(b);
    } else {
      assert 0 !in s;
    }
  }

  /** Placing then removing the same fresh id gives the table back. */
  lemma PlaceThenRemove(s: seq<int>, id: int)
    requires id != 0 && id !in s
    ensures RemoveFirst(PlaceFirstFree(s, id), id) == s
  {
    var p := FirstZero(s);
    if p < |s| {
      var t := s[p := id];
      FirstIndexAt(t, id, p);
    }
  }

  // ---------------------------------------------------------------------------
  // Rectangles.

  datatype Rect = Rect(xLeft: int, yTop: int, xRight: int, yBottom: int)

  predicate Inside(r: Rect, x: int, y: int)
  {
    r.xLeft <= x < r.xRight && r.yTop <= y < r.yBottom
  }

  function Max(a: int, b: int): int { if a < b then b else a }
  function Min(a: int, b: int): int { if a < b then a else b }

  /**
   * crServerVBoxTranslateIntersectRect as written: the source rectangle's right and
   * bottom edges stand where its left and top ones belong, and the other way round.
   */
  function TranslateIntersectRectAsWritten(gX: int, gY: int, width: int, height: int, src: Rect): (r: Option<Rect>)
    ensures r.Some? ==> src.xRight < src.xLeft && src.yBottom < src.yTop
    ensures r.Some? ==> r.value.xLeft < r.value.xRight && r.value.yTop < r.value.yBottom
  {
    var xLeft := Max(gX, src.xRight);
    var yTop := Max(gY, src.yBottom);
    var xRight := Min(gX + width, src.xLeft);
    var yBottom := Min(gY + height, src.yTop);
    if xLeft < xRight && yTop < yBottom then Some(Rect(xLeft, yTop, xRight, yBottom)) else None
  }

  /**
   * As written, no well-formed source rectangle ever intersects: a 10x10 rectangle
   * inside a 100x100 window at the origin is reported as not overlapping it.
   */
  lemma TranslateIntersectAsWrittenMisses(gX: int, gY: int, width: int, height: int, src: Rect)
    requires src.xLeft <= src.xRight
    ensures TranslateIntersectRectAsWritten(gX, gY, width, height, src) == None
    ensures TranslateIntersectRectAsWritten(0, 0, 100, 100, Rect(0, 0, 10, 10)) == None
    ensures TranslateIntersect(0, 0, 100, 100, Rect(0, 0, 10, 10)) == Some(Rect(0, 0, 10, 10))
  {
  }

  /**
   * The intersection of the window's rectangle (origin gX, gY) with `src`, when it is
   * not empty: exactly the points inside both.
   */
  function TranslateIntersect(gX: int, gY: int, width: int, height: int, src: Rect): (r: Option<Rect>)
    ensures r.Some? ==> r.value.xLeft < r.value.xRight && r.value.yTop < r.value.yBottom
    ensures r.Some? ==> forall x, y :: Inside(r.value, x, y) <==>
                          Inside(Rect(gX, gY, gX + width, gY + height), x, y) && Inside(src, x, y)
    ensures r.None? ==> forall x, y :: !(Inside(Rect(gX, gY, gX + width, gY + height), x, y) && Inside(src, x, y))
  {
    var xLeft := Max(gX, src.xLeft);
    var yTop := Max(gY, src.yTop);
    var xRight := Min(gX + width, src.xRight);
    var yBottom := Min(gY + height, src.yBottom);
    if xLeft < xRight && yTop < yBottom then Some(Rect(xLeft, yTop, xRight, yBottom)) else None
  }

  // ---------------------------------------------------------------------------
  // Murals, clients, contexts.

  class Mural {
    var width: int
    var height: int
    var fDataPresented: bool
    var cVisibleRects: nat
    var visibleRects: array?<int>
    var bReceivedRects: bool

    constructor (width: int, height: int)
      ensures this.width == width && this.height == height
      ensures !fDataPresented && cVisibleRects == 0 && visibleRects == null && !bReceivedRects
    {
      this.width := width;
      this.height := height;
      fDataPresented := false;
      cVisibleRects := 0;
      visibleRects := null;
      bReceivedRects := false;
    }

    /**
     * crServerMuralSize: the same size returns at once; otherwise, once the
     * compositor has taken the new texture size (`texUpdateOk`), the size is stored
     * and the presented data is marked stale.
     */
    method Size(width: int, height: int, texUpdateOk: bool)
      modifies this
      ensures old(this.width == width && this.height == height) ==> unchanged(this)
      ensures old(this.width != width || this.height != height) && texUpdateOk ==>
                this.width == width && this.height == height && !fDataPresented
      ensures !texUpdateOk ==> unchanged(this)
      ensures cVisibleRects == old(cVisibleRects) && visibleRects == old(visibleRects)
      ensures bReceivedRects == old(bReceivedRects)
    {
      if this.width == width && this.height == height {
        return;
      }
      if !texUpdateOk {
        return;
      }
      this.width := width;
      this.height := height;
      fDataPresented := false;
    }

    /**
     * The mural part of crServerDispatchWindowVisibleRegion: the old rectangles are
     * dropped, a fresh copy of the 4 * cRects coordinates is kept (none when cRects is
     * 0) and the mural is marked as having received rectangles.
     */
    method SetVisibleRegion(cRects: nat, rects: seq<int>)
      requires |rects| == 4 * cRects
      modifies this
      ensures cVisibleRects == cRects && bReceivedRects
      ensures cRects == 0 ==> visibleRects == null
      ensures cRects > 0 ==> visibleRects != null && fresh(visibleRects) && visibleRects[..] == rects
      ensures width == old(width) && height == old(height) && fDataPresented == old(fDataPresented)
    {
      visibleRects := null;
      cVisibleRects := cRects;
      bReceivedRects := true;
      if cRects > 0 {
        visibleRects := CopyInts(rects);
      }
    }
  }

  /** crAlloc followed by crMemcpy: a fresh array holding `src`. */
  method CopyInts(src: seq<int>) returns (a: array<int>)
    ensures fresh(a) && a[..] == src
  {
    a := new int[|src|];
    var i := 0;
    while i < |src|
      invariant 0 <= i <= |src|
      invariant a[..i] == src[..i]
    {
      a[i] := src[i];
      i := i + 1;
    }
  }

  class Client {
    const windowList: array<int>
    var currentMural: Mural?
    var currentWindow: int

    constructor ()
      ensures windowList.Length == CR_MAX_WINDOWS && fresh(windowList)
      ensures forall k :: 0 <= k < CR_MAX_WINDOWS ==> windowList[k] == 0
      ensures currentMural == null && currentWindow == -1
    {
      windowList := new int[CR_MAX_WINDOWS](_ => 0);
      currentMural := null;
      currentWindow := -1;
    }
  }

  class ContextInfo {
    var currentMural: Mural?

    constructor ()
      ensures currentMural == null
    {
      currentMural := null;
    }
  }

  /** The first zero slot of a client's table (the scans in crServerDispatchWindowCreateEx). */
  method FindFreeSlot(list: array<int>) returns (pos: nat)
    ensures pos == FirstZero(list[..])
  {
    pos := 0;
    while pos < list.Length && list[pos] != 0
      invariant pos <= list.Length
      invariant forall k :: 0 <= k < pos ==> list[k] != 0
    {
      pos := pos + 1;
    }
    FirstZeroAt(list[..], pos);
  }

  lemma {:induction false} FirstZeroAt(s: seq<int>, p: nat)
    requires p <= |s| && (p < |s| ==> s[p] == 0)
    requires forall k :: 0 <= k < p ==> s[k] != 0
    ensures FirstZero(s) == p
    decreases p
  {
    if p > 0 {
      FirstZeroAt(s[1..], p - 1);
    }
  }

  lemma {:induction false} FirstIndexAt(s: seq<int>, w: int, p: nat)
    requires p < |s| && s[p] == w
    requires forall k :: 0 <= k < p ==> s[k] != w
    ensures FirstIndex(s, w) == p
    decreases p
  {
    if p > 0 {
      FirstIndexAt(s[1..], w, p - 1);
    }
  }

  /** The first client whose slot `pos` is taken, and the id it holds there. */
  function SlotOwner(slots: seq<int>): (r: Option<int>)
    ensures r.Some? <==> exists j :: 0 <= j < |slots| && slots[j] != 0
    ensures r.Some? ==> r.value != 0 && r.value in slots
  {
    var p := FirstNonZero(slots);
    if p < |slots| then Some(slots[p]) else None
  }

  /** Index of the first non-zero slot, or the length when all are zero. */
  function FirstNonZero(s: seq<int>): (p: nat)
    ensures p <= |s|
    ensures p < |s| ==> s[p] != 0
    ensures forall k :: 0 <= k < p ==> s[k] == 0
  {
    if s == [] then 0 else if s[0] != 0 then 0 else 1 + FirstNonZero(s[1..])
  }

  /**
   * crServerRemoveClientWindow: clears the first slot holding `window` and reports
   * whether there was one.
   */
  method RemoveClientWindow(client: Client, window: int) returns (found: bool)
    modifies if window in client.windowList[..] then {client.windowList} else {}
    ensures found <==> window in old(client.windowList[..])
    ensures client.windowList[..] == RemoveFirst(old(client.windowList[..]), window)
    ensures !found ==> unchanged(client.windowList)
  {
    var list := client.windowList;
    var pos := 0;
    while pos < list.Length
      invariant pos <= list.Length
      invariant forall k :: 0 <= k < pos ==> list[k] != window
      invariant unchanged(list)
    {
      if list[pos] == window {
        FirstIndexAt(list[..], window, pos);
        list[pos] := 0;
        return true;
      }
      pos := pos + 1;
    }
    assert window !in list[..];
    return false;
  }

  // ---------------------------------------------------------------------------
  // The server.

  class Server {
    var muralTable: map<int, Mural>
    var clients: seq<Client>
    var cleanup: seq<Client>
    var contexts: seq<ContextInfo>
    var curClient: Client?
    var currentMural: Mural?
    var currentWindow: int
    var sharedWindows: bool
    var loading: bool

    /** Every client the server knows of: the connected ones, the cleanup list and the current one. */
    function AllClients(): set<Client>
      reads this`clients, this`cleanup, this`curClient
    {
      (set c | c in clients) + (set c | c in cleanup) + (if curClient == null then {} else {curClient})
    }

    function Lists(): set<array<int>>
      reads this`clients, this`cleanup, this`curClient
    {
      set c | c in AllClients() :: c.windowList
    }

    function Contexts(): set<ContextInfo>
      reads this`contexts
    {
      set x | x in contexts
    }

    predicate Valid()
      reads this`clients, this`cleanup, this`curClient
    {
      forall c :: c in AllClients() ==> c.windowList.Length == CR_MAX_WINDOWS
    }

    /** Slot `pos` of each connected client, in client order. */
    function Slots(pos: nat): (s: seq<int>)
      requires Valid() && pos < CR_MAX_WINDOWS
      reads this, AllClients(), Lists()
      ensures |s| == |clients| && forall j :: 0 <= j < |clients| ==> s[j] == clients[j].windowList[pos]
    {
      seq(|clients|, j reads this, AllClients(), Lists() requires 0 <= j < |clients| && Valid() =>
        clients[j].windowList[pos])
    }

    /**
     * The slot logic of crServerDispatchWindowCreateEx.  `initId` is what the SPU
     * chain and crServerMuralInit produce for a new window (negative on failure).
     * With shared windows, a client whose table is full gets -1, and a slot already
     * used by another client makes the current client share that window.  Otherwise a
     * new mural is registered under `initId` and, outside loading, stored in the first
     * free slot of the current client.
     */
    method CreateWindow(initId: int, width: int, height: int) returns (windowId: int)
      requires Valid() && curClient != null
      modifies this, curClient.windowList
      ensures clients == old(clients) && cleanup == old(cleanup) && curClient == old(curClient)
      ensures contexts == old(contexts) && currentMural == old(currentMural)
      ensures sharedWindows == old(sharedWindows) && loading == old(loading)
      ensures Valid()
      ensures var pos := FirstZero(old(curClient.windowList[..]));
              sharedWindows && pos == CR_MAX_WINDOWS ==>
                windowId == -1 && muralTable == old(muralTable) && curClient.windowList[..] == old(curClient.windowList[..])
      ensures var pos := FirstZero(old(curClient.windowList[..]));
              sharedWindows && pos < CR_MAX_WINDOWS && old(SlotOwner(Slots(pos))).Some? ==>
                windowId == old(SlotOwner(Slots(pos))).value && muralTable == old(muralTable)
                && curClient.windowList[..] == old(curClient.windowList[..])[pos := windowId]
      ensures var pos := FirstZero(old(curClient.windowList[..]));
              !sharedWindows || (pos < CR_MAX_WINDOWS && old(SlotOwner(Slots(pos))).None?) ==>
                windowId == initId
                && (initId < 0 ==> muralTable == old(muralTable) && curClient.windowList[..] == old(curClient.windowList[..]))
                && (initId >= 0 ==>
                      initId in muralTable && fresh(muralTable[initId])
                      && muralTable[initId].width == width && muralTable[initId].height == height
                      && muralTable == old(muralTable)[initId := muralTable[initId]]
                      && curClient.windowList[..] ==
                           if loading then old(curClient.windowList[..]) else PlaceFirstFree(old(curClient.windowList[..]), initId))
    {
      var cur := curClient;
      if sharedWindows {
        var pos := FindFreeSlot(cur.windowList);
        if pos == CR_MAX_WINDOWS {
          return -1;
        }
        var shared := ShareSlot(pos);
        if shared.Some? {
          return shared.value;
        }
      }
      windowId := RegisterMural(initId, width, height);
    }

    /**
     * The sharing scan: the first connected client whose slot `pos` is taken lends
     * its window id to the current client's slot `pos`.
     */
    method ShareSlot(pos: nat) returns (shared: Option<int>)
      requires Valid() && curClient != null && pos < CR_MAX_WINDOWS
      modifies curClient.windowList
      ensures shared == old(SlotOwner(Slots(pos)))
      ensures shared.Some? ==> curClient.windowList[..] == old(curClient.windowList[..])[pos := shared.value]
      ensures shared.None? ==> curClient.windowList[..] == old(curClient.windowList[..])
    {
      var cur := curClient;
      ghost var slots := Slots(pos);
      var j := 0;
      while j < |clients|
        invariant j <= |clients|
        invariant forall k :: 0 <= k < j ==> slots[k] == 0
      {
        if clients[j].windowList[pos] != 0 {
          var id := clients[j].windowList[pos];
          SlotOwnerFirst(slots, j);
          cur.windowList[pos] := id;
          return Some(id);
        }
        j := j + 1;
      }
      SlotOwnerNone(slots);
      return None;
    }

    /**
     * A new mural under `initId` (nothing happens when it is negative), placed in
     * the current client's first free slot unless the server is loading state.
     */
    method RegisterMural(initId: int, width: int, height: int) returns (windowId: int)
      requires Valid() && curClient != null
      modifies this, curClient.windowList
      ensures clients == old(clients) && cleanup == old(cleanup) && curClient == old(curClient)
      ensures contexts == old(contexts) && currentMural == old(currentMural)
      ensures sharedWindows == old(sharedWindows) && loading == old(loading)
      ensures windowId == initId
      ensures initId < 0 ==> muralTable == old(muralTable) && curClient.windowList[..] == old(curClient.windowList[..])
      ensures initId >= 0 ==>
                initId in muralTable && fresh(muralTable[initId])
                && muralTable[initId].width == width && muralTable[initId].height == height
                && muralTable == old(muralTable)[initId := muralTable[initId]]
                && curClient.windowList[..] ==
                     if loading then old(curClient.windowList[..]) else PlaceFirstFree(old(curClient.windowList[..]), initId)
    {
      var cur := curClient;
      windowId := initId;
      if windowId < 0 {
        return;
      }
      var mural := new Mural(width, height);
      muralTable := muralTable[windowId := mural];
      if windowId != -1 && !loading {
        var pos := FindFreeSlot(cur.windowList);
        if pos < CR_MAX_WINDOWS {
          cur.windowList[pos] := windowId;
        }
      }
    }

    /**
     * crServerDispatchWindowDestroy: window 0 and unknown windows are ignored;
     * any other window's mural is destroyed.
     */
    method DestroyWindow(window: int)
      requires Valid()
      modifies this, AllClients(), Lists(), Contexts()
      ensures clients == old(clients) && cleanup == old(cleanup) && curClient == old(curClient)
      ensures contexts == old(contexts) && Valid()
      ensures window == 0 || window !in old(muralTable) ==>
                unchanged(this) && unchanged(AllClients()) && unchanged(Lists()) && unchanged(Contexts())
      ensures window != 0 && window in old(muralTable) ==>
                var m := old(muralTable[window]);
                muralTable == old(muralTable) - {window}
                && currentMural != m
                && (forall c :: c in AllClients() ==> c.currentMural != m)
                && (forall x :: x in contexts ==> x.currentMural != m)
      ensures sharedWindows == old(sharedWindows) && loading == old(loading)
      ensures window != 0 && window in old(muralTable) ==>
                var m := old(muralTable[window]);
                currentMural == (if old(currentMural) == m then null else old(currentMural))
                && currentWindow == (if old(currentMural) == m then -1 else old(currentWindow))
      ensures window != 0 && window in old(muralTable) ==>
                var m := old(muralTable[window]);
                forall c :: c in AllClients() ==>
                  c.currentMural == (if old(c.currentMural) == m then null else old(c.currentMural))
                  && c.currentWindow == (if old(c.currentMural) == m then -1 else old(c.currentWindow))
      ensures window != 0 && window in old(muralTable) ==>
                var m := old(muralTable[window]);
                forall x :: x in contexts ==> x.currentMural == (if old(x.currentMural) == m then null else old(x.currentMural))
      ensures window != 0 && window in old(muralTable) && old(curClient) != null ==>
                var t := old(RemovalTarget(curClient, clients, cleanup, window));
                (t.Some? ==> t.value[..] == RemoveFirst(old(t.value[..]), window))
                && forall a :: a in old(Lists()) && t != Some(a) ==> unchanged(a)
      ensures window != 0 && window in old(muralTable) && old(curClient) == null ==>
                forall a :: a in old(Lists()) ==> unchanged(a)
    {
      if window == 0 || window !in muralTable {
        return;
      }
      DestroyMural(window);
    }

    /**
     * The destruction proper: the first client holding the id (the current one, then
     * the other connected ones, then those being cleaned up) loses it, every other
     * table is left as it was, no context, no client and not the server itself is left
     * pointing at the mural, and the mural leaves the table.  Only the slot removal
     * touches the window tables and nothing else reads them, so the model does it
     * before the reference clean-up that precedes it in the source.
     */
    method DestroyMural(window: int)
      requires Valid() && window in muralTable
      modifies this, AllClients(), Lists(), Contexts()
      ensures clients == old(clients) && cleanup == old(cleanup) && curClient == old(curClient)
      ensures contexts == old(contexts)
      ensures var m := old(muralTable[window]);
              muralTable == old(muralTable) - {window}
              && currentMural != m
              && (forall c :: c in AllClients() ==> c.currentMural != m)
              && (forall x :: x in contexts ==> x.currentMural != m)
      ensures sharedWindows == old(sharedWindows) && loading == old(loading)
      ensures var m := old(muralTable[window]);
              currentMural == (if old(currentMural) == m then null else old(currentMural))
              && currentWindow == (if old(currentMural) == m then -1 else old(currentWindow))
      ensures var m := old(muralTable[window]);
              forall c :: c in AllClients() ==>
                c.currentMural == (if old(c.currentMural) == m then null else old(c.currentMural))
                && c.currentWindow == (if old(c.currentMural) == m then -1 else old(c.currentWindow))
      ensures var m := old(muralTable[window]);
              forall x :: x in contexts ==> x.currentMural == (if old(x.currentMural) == m then null else old(x.currentMural))
      ensures old(curClient) != null ==>
                var t := old(RemovalTarget(curClient, clients, cleanup, window));
                (t.Some? ==> t.value[..] == RemoveFirst(old(t.value[..]), window))
                && forall a :: a in old(Lists()) && t != Some(a) ==> unchanged(a)
      ensures old(curClient) == null ==> forall a :: a in old(Lists()) ==> unchanged(a)
    {
      var mural := muralTable[window];
      if curClient != null {
        RemoveWindowSlots(window);
      }
      ForgetMural(window, mural);
    }

    /**
     * The reference clean-up of crServerDispatchWindowDestroy: the contexts, the
     * server (crServerMuralTerm), the current client, the connected clients and those
     * being cleaned up stop pointing at the mural, which then leaves the table.
     */
    method ForgetMural(window: int, mural: Mural)
      modifies this, AllClients(), Contexts()
      ensures clients == old(clients) && cleanup == old(cleanup) && curClient == old(curClient)
      ensures contexts == old(contexts)
      ensures muralTable == old(muralTable) - {window}
      ensures sharedWindows == old(sharedWindows) && loading == old(loading)
      ensures currentMural == (if old(currentMural) == mural then null else old(currentMural))
      ensures currentWindow == (if old(currentMural) == mural then -1 else old(currentWindow))
      ensures forall c :: c in AllClients() ==>
                c.currentMural == (if old(c.currentMural) == mural then null else old(c.currentMural))
                && c.currentWindow == (if old(c.currentMural) == mural then -1 else old(c.currentWindow))
      ensures forall x :: x in contexts ==> x.currentMural == (if old(x.currentMural) == mural then null else old(x.currentMural))
    {
      ClearContextRefs(contexts, mural);

      // crServerMuralTerm
      if currentMural == mural {
        currentWindow := -1;
        currentMural := null;
      }

      ClearEveryClientRef(curClient, clients, cleanup, mural);

      muralTable := muralTable - {window};
    }

    /**
     * The slot removal of crServerDispatchWindowDestroy: RemovalTarget's table, the
     * first one holding the id (the current client's, then the other connected
     * clients', then those being cleaned up), loses it; every other table is left as
     * it was.
     */
    method RemoveWindowSlots(window: int)
      requires Valid() && curClient != null
      modifies Lists()
      ensures var t := old(RemovalTarget(curClient, clients, cleanup, window));
              (t.Some? ==> t.value[..] == RemoveFirst(old(t.value[..]), window))
              && forall a :: a in old(Lists()) && t != Some(a) ==> unchanged(a)
    {
      var cur := curClient;
      ghost var t := RemovalTarget(curClient, clients, cleanup, window);
      var found := RemoveClientWindow(cur, window);
      if found {
        assert t == Some(cur.windowList);
      } else {
        assert RemovalTarget(cur, clients, cleanup, window) == t;
        RemoveFromOthers(window);
      }
    }

    /**
     * The fall-backs for a window the current client does not hold: the connected
     * clients other than the current one are searched first, then the cleanup list.
     */
    method RemoveFromOthers(window: int)
      requires Valid() && curClient != null && window !in curClient.windowList[..]
      modifies Lists()
      ensures var t := old(RemovalTarget(curClient, clients, cleanup, window));
              (t.Some? ==> t.value[..] == RemoveFirst(old(t.value[..]), window))
              && forall a :: a in old(Lists()) && t != Some(a) ==> unchanged(a)
    {
      ghost var t := RemovalTarget(curClient, clients, cleanup, window);
      ghost var k := Holder(clients, curClient, window);
      ghost var j := Holder(cleanup, null, window);
      var found := RemoveFromClients(clients, curClient, window);
      if found {
        assert t == Some(clients[k].windowList);
      } else {
        assert Holder(cleanup, null, window) == j;
        found := RemoveFromClients(cleanup, null, window);
        assert t == if j < |cleanup| then Some(cleanup[j].windowList) else None;
      }
    }

    /**
     * crServerDispatchWindowVisibleRegion as written: the present-needed test reads
     * the looked-up mural's fields before the NULL check, so an unknown window
     * faults (`faulted`) instead of being ignored.  A known window keeps a copy of
     * the rectangles, as in VisibleRegion.
     */
    method VisibleRegionAsWritten(window: int, cRects: nat, rects: seq<int>) returns (faulted: bool)
      requires |rects| == 4 * cRects
      modifies if window in muralTable then {muralTable[window]} else {}
      ensures faulted <==> window !in muralTable
      ensures window in muralTable ==>
                var m := muralTable[window];
                m.cVisibleRects == cRects && m.bReceivedRects
                && (cRects > 0 ==> m.visibleRects != null && m.visibleRects[..] == rects)
    {
      if window !in muralTable {
        // crServerVBoxCompositionPresentNeeded(NULL) reads mural->bVisible
        return true;
      }
      muralTable[window].SetVisibleRegion(cRects, rects);
      return false;
    }

    /**
     * crServerDispatchWindowVisibleRegion with the NULL check ahead of the
     * present-needed test: an unknown window is ignored and nothing changes;
     * otherwise the mural keeps a copy of the rectangles.
     */
    method VisibleRegion(window: int, cRects: nat, rects: seq<int>)
      requires |rects| == 4 * cRects
      modifies if window in muralTable then {muralTable[window]} else {}
      ensures window in muralTable ==>
                var m := muralTable[window];
                m.cVisibleRects == cRects && m.bReceivedRects
                && (cRects > 0 ==> m.visibleRects != null && m.visibleRects[..] == rects)
    {
      if window !in muralTable {
        return;
      }
      muralTable[window].SetVisibleRegion(cRects, rects);
    }
  }

  /** The walk over the context table: contexts current on `m` lose it. */
  method ClearContextRefs(ctxs: seq<ContextInfo>, m: Mural)
    modifies set x | x in ctxs
    ensures forall x :: x in ctxs ==> x.currentMural != m
    ensures forall x :: x in ctxs ==> x.currentMural == (if old(x.currentMural) == m then null else old(x.currentMural))
  {
    for i := 0 to |ctxs|
      invariant forall x :: x in ctxs[..i] ==> x.currentMural != m
      invariant forall x :: x in ctxs ==> x.currentMural == old(x.currentMural) || (old(x.currentMural) == m && x.currentMural == null)
    {
      if ctxs[i].currentMural == m {
        ctxs[i].currentMural := null;
      }
    }
  }

  /**
   * The current client, then the connected clients, then those being cleaned up:
   * exactly the ones current on `m` lose it and get window -1.
   */
  method ClearEveryClientRef(cur: Client?, cs: seq<Client>, cleanup: seq<Client>, m: Mural)
    modifies (set c | c in cs) + (set c | c in cleanup) + (if cur == null then {} else {cur})
    ensures forall c :: (c in cs || c in cleanup || c == cur) ==>
              c.currentMural == (if old(c.currentMural) == m then null else old(c.currentMural))
              && c.currentWindow == (if old(c.currentMural) == m then -1 else old(c.currentWindow))
  {
    if cur != null && cur.currentMural == m {
      cur.currentMural := null;
      cur.currentWindow := -1;
    }
    ClearClientRefs(cs, m);
    ClearClientRefs(cleanup, m);
  }

  /** Clients current on `m` lose it, and their current window becomes -1. */
  method ClearClientRefs(cs: seq<Client>, m: Mural)
    modifies set c | c in cs
    ensures forall c :: c in cs ==> c.currentMural != m
    ensures forall c :: c in cs && old(c.currentMural) != m ==> c.currentMural == old(c.currentMural) && c.currentWindow == old(c.currentWindow)
    ensures forall c :: c in cs && old(c.currentMural) == m ==> c.currentMural == null && c.currentWindow == -1
  {
    for i := 0 to |cs|
      invariant forall c :: c in cs[..i] ==> c.currentMural != m
      invariant forall c :: c in cs && old(c.currentMural) != m ==> c.currentMural == old(c.currentMural) && c.currentWindow == old(c.currentWindow)
      invariant forall c :: c in cs[..i] && old(c.currentMural) == m ==> c.currentMural == null && c.currentWindow == -1
      invariant forall c :: c in cs && c !in cs[..i] ==> c.currentMural == old(c.currentMural) && c.currentWindow == old(c.currentWindow)
    {
      if cs[i].currentMural == m {
        cs[i].currentMural := null;
        cs[i].currentWindow := -1;
      }
    }
  }

  /**
   * Index of the first client in `cs`, other than `skip`, whose table holds `window`,
   * or the length of `cs` when none does.
   */
  function Holder(cs: seq<Client>, skip: Client?, window: int): (k: nat)
    reads set c | c in cs :: c.windowList
    ensures k <= |cs|
    ensures k < |cs| ==> cs[k] != skip && window in cs[k].windowList[..]
    ensures forall j :: 0 <= j < k ==> cs[j] == skip || window !in cs[j].windowList[..]
  {
    if cs == [] then 0
    else if cs[0] != skip && window in cs[0].windowList[..] then 0
    else 1 + Holder(cs[1..], skip, window)
  }

  /**
   * The table crServerDispatchWindowDestroy clears for `window`: the current
   * client's when it holds the id, else that of the first other connected client
   * holding it, else that of the first client on the cleanup list holding it.
   */
  function RemovalTarget(cur: Client, clients: seq<Client>, cleanup: seq<Client>, window: int): (t: Option<array<int>>)
    reads cur.windowList, set c | c in clients :: c.windowList, set c | c in cleanup :: c.windowList
    ensures t.Some? ==> window in t.value[..]
    ensures window in cur.windowList[..] ==> t == Some(cur.windowList)
    ensures t.None? <==>
              window !in cur.windowList[..]
              && (forall c :: c in clients ==> window !in c.windowList[..])
              && (forall c :: c in cleanup ==> window !in c.windowList[..])
  {
    if window in cur.windowList[..] then Some(cur.windowList)
    else
      var k := Holder(clients, cur, window);
      if k < |clients| then Some(clients[k].windowList)
      else
        var j := Holder(cleanup, null, window);
        if j < |cleanup| then Some(cleanup[j].windowList) else None
  }

  /**
   * The fall-back searches of crServerDispatchWindowDestroy: the first client in
   * `cs` (other than `skip`) holding `window` loses its first slot with it, and every
   * other table is left as it was.
   */
  method RemoveFromClients(cs: seq<Client>, skip: Client?, window: int) returns (found: bool)
    modifies set c | c in cs :: c.windowList
    ensures found <==> exists c :: c in cs && c != skip && window in old(c.windowList[..])
    ensures found <==> old(Holder(cs, skip, window)) < |cs|
    ensures var k := old(Holder(cs, skip, window));
            k < |cs| ==>
              cs[k].windowList[..] == RemoveFirst(old(cs[k].windowList[..]), window)
              && forall c :: c in cs && c.windowList != cs[k].windowList ==> unchanged(c.windowList)
    ensures !found ==> forall c :: c in cs ==> unchanged(c.windowList)
  {
    ghost var h := Holder(cs, skip, window);
    found := false;
    var i := 0;
    while i < |cs| && !found
      invariant i <= |cs|
      invariant !found ==> i <= h && forall c :: c in cs ==> unchanged(c.windowList)
      invariant found ==>
                  i == h + 1 && h < |cs|
                  && cs[h].windowList[..] == RemoveFirst(old(cs[h].windowList[..]), window)
                  && forall c :: c in cs && c.windowList != cs[h].windowList ==> unchanged(c.windowList)
    {
      if cs[i] != skip {
        assert cs[i].windowList[..] == old(cs[i].windowList[..]);
        found := RemoveClientWindow(cs[i], window);
        if found {
          assert h == i;
        }
      }
      i := i + 1;
    }
    if !found {
      forall c | c in cs && c != skip ensures window !in old(c.windowList[..]) {
        var k :| 0 <= k < |cs| && cs[k] == c;
      }
    }
  }

  lemma {:induction false} SlotOwnerFirst(slots: seq<int>, j: nat)
    requires j < |slots| && slots[j] != 0
    requires forall k :: 0 <= k < j ==> slots[k] == 0
    ensures SlotOwner(slots) == Some(slots[j])
    decreases j
  {
    FirstNonZeroAt(slots, j);
  }

  lemma {:induction false} FirstNonZeroAt(s: seq<int>, p: nat)
    requires p < |s| && s[p] != 0
    requires forall k :: 0 <= k < p ==> s[k] == 0
    ensures FirstNonZero(s) == p
    decreases p
  {
    if p > 0 {
      FirstNonZeroAt(s[1..], p - 1);
    }
  }

  lemma SlotOwnerNone(slots: seq<int>)
    requires forall k :: 0 <= k < |slots| ==> slots[k] == 0
    ensures SlotOwner(slots) == None
  {
  }
}
