# VirtualBox bookkeeping rules, modelled in Dafny

This project models nine small pieces of logic from the VirtualBox source tree. Their
state machines, tables, counters and parsers are written as Dafny classes and
functions, with contracts that state what the C, C++ and Python code promises. One
module per source file:

| module | file | what it models |
|---|---|---|
| `PortForward` (portforward.dfy) | vbox/src/VBox/NetworkServices/NetLib/VBoxNetPortForwardString.cpp | the parser of `name:proto:[hostaddr]:hostport:[guestaddr]:guestport` into a PORTFORWARDRULE: bracketed address, port, address/port pair, name and protocol, fill and clear of the rule |
| `GuestSession` (guest_session.dfy) | vbox/src/VBox/Main/src-client/GuestSessionImpl.cpp | the guest-control session status machine, the start/close guards, the immediate decision of `waitFor`, process flags, the process/file registry with its object counter and ID search, the `mkdir` argument list and the guest error texts |
| `VmxR0` (vmx.dfy) | vbox/src/VBox/VMM/VMMR0/HWVMXR0.cpp | the MSR permission bitmap, the VMCS write cache of 32-bit hosts, VPID/ASID allocation and TLB flushing before a world switch, flush-type selection, control words, the exception bitmap, the preemption-timer clamp, real-mode event escalation, and the DR6/DR7/TR/CR0 fix-ups |
| `CrServer` (crserver.dfy) | vbox/src/VBox/HostServices/SharedOpenGL/crserverlib/server.h | output-redirection flag normalisation, front/back FBO indices, the VRAM pointer check, the "present needed" test, and the read-pixels worker texture slots |
| `ServerWindow` (server_window.dfy) | vbox/src/VBox/HostServices/SharedOpenGL/crserverlib/server_window.c | per-client window slot tables, window creation with shared slots, window destruction and the clearing of every reference to the destroyed mural, mural resize and visible region, rectangle intersection |
| `RenderSpu` (renderspu.dfy) | vbox/src/VBox/HostServices/SharedOpenGL/render/renderspu.c | the visual description string, the bounded visual table, context reference counting with shared contexts, window size/visibility updates, barriers, trailing-space removal |
| `NtQueryStuff` (ntquery.dfy) | vbox/src/VBox/HostDrivers/Support/testcase/tstNtQueryStuff.cpp | the bounded-buffer append and the flag stringifier with its `BIT(n)` leftovers and three descriptor tables |
| `CharDev` (chardev.dfy) | device/chardev.c | the open/read/release/write character device with its busy flag, counter and message cursor |
| `UnpackExtend` (unpack_extend.dfy) | vbox/src/VBox/HostServices/SharedOpenGL/unpacker/unpack_extend.py | the generated `unpack_extend.h` header |

Helper modules: `Wrappers` (Option), `Numerals` (decimal and octal text of numbers,
with its parser and digit-count bounds) and `CStrings` (NUL-terminated buffers,
`strlen`, `strcat`).

Foreign calls become parameters or logs throughout. The VMX instructions become a log
of VMCS writes and a log of TLB flushes. Window-system calls become an outcome
parameter plus a call log. `RTStrToUInt16` and `RTNetStrToIPv4Addr` become function
parameters. The `apiutil` registry is a parameter.

## Model

| member | source | states |
|---|---|---|
| CharDev.NextCounter | device/chardev.c:103-104 | `counter++` keeps the counter a 32-bit int and adds one below INT32_MAX |
| CharDev.MessageFits | device/chardev.c:103-104 | for every 32-bit counter the printed message and its NUL fit in BUF_LEN (80) bytes, and the message holds no NUL |
| CharDev.PrintInto | device/chardev.c:103-104 | sprintf writes the text and its NUL at the start of `Message` and leaves the rest of the buffer as it was |
| CharDev.Device.constructor | device/chardev.c:51-64 | at load time the device is closed, the counter is 0, `Message` is zeroed and `Message_Ptr` is unset |
| CharDev.Device.Open | device/chardev.c:63-122 | a second opener gets -EBUSY and nothing changes; otherwise `Device_Open` and `counter` go up by one, the message is printed with the old counter and `Message_Ptr` points at its start |
| CharDev.Device.Release | device/chardev.c:132-152 | `Device_Open` goes down by one and the result is 0 |
| CharDev.Device.Read | device/chardev.c:159-197 | the read returns n = min(length, bytes left in the message), hands over exactly the next n message bytes in order, and advances `Message_Ptr` by n; at the end of the message n is 0 |
| CharDev.Device.Write | device/chardev.c:202-212 | writing always fails with -EINVAL |
| CrServer.RedirModeAdjustLeast | vbox/src/VBox/HostServices/SharedOpenGL/crserverlib/server.h:156-167 | the adjusted mode has only known bits, has F_FBO whenever an FBO-dependent bit is set and F_FBO_RAM whenever a RAM-dependent bit is set, keeps every known bit asked for, and is the smallest such mode |
| CrServer.RedirModeAdjustIdempotent | vbox/src/VBox/HostServices/SharedOpenGL/crserverlib/server.h:156-167 | adjusting twice gives the same mode as adjusting once |
| CrServer.RedirModeFixpoints | vbox/src/VBox/HostServices/SharedOpenGL/crserverlib/server.h:156-167 | the modes adjusting leaves unchanged are exactly the consistent ones |
| CrServer.FrontBufferIdx | vbox/src/VBox/HostServices/SharedOpenGL/crserverlib/server.h:188-189 | the front-buffer index, computed in 32-bit unsigned arithmetic, is below cBuffers |
| CrServer.FrontBackBuffers | vbox/src/VBox/HostServices/SharedOpenGL/crserverlib/server.h:188-189 | with the back buffer in range, the front buffer is the next one cyclically; it differs from the back buffer exactly when there are two or more buffers |
| CrServer.HgsmiPtrGetAsWritten | vbox/src/VBox/HostServices/SharedOpenGL/crserverlib/server.h:33-36 | the pointer returned designates offBuffer; when the 64-bit sum does not wrap, a pointer is returned exactly when off + cb <= cbVRam |
| CrServer.HgsmiPtrGetWrapAccepts | vbox/src/VBox/HostServices/SharedOpenGL/crserverlib/server.h:33-36 | an offset of 2^64 - 1 with one byte passes the check as written although it lies far outside a 16 MiB VRAM |
| CrServer.HgsmiPtrGetInside | vbox/src/VBox/HostServices/SharedOpenGL/crserverlib/server.h:33-36 | with the sum taken without wrap-around, a pointer (to offBuffer) is returned exactly when the whole buffer lies inside VRAM |
| CrServer.HgsmiPtrGet | vbox/src/VBox/HostServices/SharedOpenGL/crserverlib/server.h:33-36 | the corrected check agrees with the as-written one whenever the 64-bit sum does not wrap, and refuses every buffer whose end lies at or beyond 2^64 |
| CrServer.PresentNeededInvisible | vbox/src/VBox/HostServices/SharedOpenGL/crserverlib/server.h:180-186 | as written, an invisible, empty mural whose root-region entry is listed is reported as needing a present |
| CrServer.PresentNeededAsWritten | vbox/src/VBox/HostServices/SharedOpenGL/crserverlib/server.h:180-186 | as written, a visible, non-empty mural is tested on the entry its root-region mode selects, but an invisible or empty one is still tested on its root-region entry |
| CrServer.PresentNeededVersusAsWritten | vbox/src/VBox/HostServices/SharedOpenGL/crserverlib/server.h:180-186 | the corrected test (CrServer.PresentNeeded) is the as-written one restricted to visible murals with non-zero width and height, and the two differ exactly on an invisible or empty mural whose root-region entry is listed |
| CrServer.CRem | vbox/src/VBox/HostServices/SharedOpenGL/crserverlib/server.h:280 | C's `%` on int: it agrees with the mathematical remainder for a non-negative dividend and stays strictly between -b and b |
| CrServer.PboFlipAlternates | vbox/src/VBox/HostServices/SharedOpenGL/crserverlib/server.h:280-286 | flipping moves the PBO index 0 to 1 and 1 to 0 (two flips give it back) and the inactive index -1 to 0 |
| CrServer.DbgCheckValOk | vbox/src/VBox/HostServices/SharedOpenGL/crserverlib/server.h:295-301 | a value passes CHECKVAL exactly when its absolute value is in 1..4 and not yet in the mask, which then gains its bit |
| CrServer.BitsDisjoint | vbox/src/VBox/HostServices/SharedOpenGL/crserverlib/server.h:295-301 | the mask bits of two values in 1..4 overlap exactly when the values are equal |
| CrServer.BitsCover | vbox/src/VBox/HostServices/SharedOpenGL/crserverlib/server.h:289-309 | four distinct values in 1..4 fill the mask 0x1E |
| CrServer.DbgDoVerifyMeaning | vbox/src/VBox/HostServices/SharedOpenGL/crserverlib/server.h:289-309 | the debug check passes exactly when Draw is valid and the absolute values of the four texture roles are 1..4, each exactly once |
| CrServer.RpwEntry.SetTex | vbox/src/VBox/HostServices/SharedOpenGL/crserverlib/server.h:239-278 | assigning one role's `iTex` field changes that role and nothing else |
| CrServer.RpwEntry.Xchg | vbox/src/VBox/HostServices/SharedOpenGL/crserverlib/server.h:217-223 | crServerXchgI8 swaps the two roles' values and leaves the others alone |
| CrServer.RpwEntry.Invalidate | vbox/src/VBox/HostServices/SharedOpenGL/crserverlib/server.h:241-246 | INVALIDATE negates a valid role, which becomes invalid; the entry invariant is kept |
| CrServer.RpwEntry.Promote | vbox/src/VBox/HostServices/SharedOpenGL/crserverlib/server.h:248-254 | PROMOTE swaps a valid source with an invalid target: the target becomes valid, the source invalid, and the invariant is kept |
| CrServer.RpwEntry.XchgValid | vbox/src/VBox/HostServices/SharedOpenGL/crserverlib/server.h:256-264 | XCHG_VALID swaps two valid roles, which both stay valid; the invariant is kept |
| CrServer.RpwEntry.PromoteKeepValid | vbox/src/VBox/HostServices/SharedOpenGL/crserverlib/server.h:267-276 | PROMOTE_KEEPVALID moves the valid texture to the target and makes the source valid again with the target's old texture; the invariant is kept |
| CrServer.RpwEntry.TexId | vbox/src/VBox/HostServices/SharedOpenGL/crserverlib/server.h:278 | the texture id of a valid role is `aidWorkerTexs[iTex - 1]` |
| CrServer.RpwEntry.PboFlip | vbox/src/VBox/HostServices/SharedOpenGL/crserverlib/server.h:284-286 | PBO_FLIP sets `iCurPBO` to the next PBO index |
| ServerWindow.FirstZero | vbox/src/VBox/HostServices/SharedOpenGL/crserverlib/server_window.c:150-158 | the scan stops at the first zero slot: every earlier slot is taken, and the length means the table is full |
| ServerWindow.FirstIndex | vbox/src/VBox/HostServices/SharedOpenGL/crserverlib/server_window.c:247-254 | the first slot holding the window, found exactly when the window is in the table |
| ServerWindow.RemoveFirstCounts | vbox/src/VBox/HostServices/SharedOpenGL/crserverlib/server_window.c:243-257 | clearing the first match takes away one occurrence of the id and adds one zero; an absent id leaves the table as it is |
| ServerWindow.PlaceFirstFreeCounts | vbox/src/VBox/HostServices/SharedOpenGL/crserverlib/server_window.c:199-207 | storing an id in the first free slot fills exactly one zero slot and leaves every taken slot alone; a full table is unchanged |
| ServerWindow.PlaceThenRemove | vbox/src/VBox/HostServices/SharedOpenGL/crserverlib/server_window.c:199-207 | storing a fresh id and then removing it gives the table back |
| ServerWindow.TranslateIntersectRectAsWritten | vbox/src/VBox/HostServices/SharedOpenGL/crserverlib/server_window.c:216-233 | as written, an overlap can only be reported for a source rectangle whose right edge lies left of its left edge and whose bottom lies above its top; what it reports is non-empty |
| ServerWindow.TranslateIntersectAsWrittenMisses | vbox/src/VBox/HostServices/SharedOpenGL/crserverlib/server_window.c:216-233 | as written (right and bottom of the source rectangle used for its left and top and the reverse), no well-formed rectangle ever intersects; a 10x10 rectangle inside a 100x100 window is reported as missing it |
| ServerWindow.TranslateIntersect | vbox/src/VBox/HostServices/SharedOpenGL/crserverlib/server_window.c:216-233 | the result is non-empty, and is returned exactly when the window rectangle and the source meet; its points are exactly those inside both |
| ServerWindow.Mural.constructor | vbox/src/VBox/HostServices/SharedOpenGL/crserverlib/server_window.c:19-30 | a new mural (crMemset to zero) has the given size, no visible rectangles and no presented data |
| ServerWindow.Mural.Size | vbox/src/VBox/HostServices/SharedOpenGL/crserverlib/server_window.c:436-505 | the same width and height return at once; otherwise, once the compositor takes the new texture size, width and height are stored and `fDataPresented` becomes false; the visible rectangles are untouched |
| ServerWindow.Mural.SetVisibleRegion | vbox/src/VBox/HostServices/SharedOpenGL/crserverlib/server_window.c:705-721 | the old rectangles are dropped, `cVisibleRects` is cRects, a fresh copy of the 4 * cRects coordinates is kept (none for 0), and `bReceivedRects` is set |
| ServerWindow.CopyInts | vbox/src/VBox/HostServices/SharedOpenGL/crserverlib/server_window.c:715-720 | crAlloc then crMemcpy gives a fresh array holding the coordinates |
| ServerWindow.Client.constructor | vbox/src/VBox/HostServices/SharedOpenGL/crserverlib/server_window.c:150-154 | a new client's window table has CR_MAX_WINDOWS zero slots and no current mural |
| ServerWindow.ContextInfo.constructor | vbox/src/VBox/HostServices/SharedOpenGL/crserverlib/server_window.c:301-308 | a new context has no current mural |
| ServerWindow.FindFreeSlot | vbox/src/VBox/HostServices/SharedOpenGL/crserverlib/server_window.c:150-154 | the loop returns the first zero slot of the table (CR_MAX_WINDOWS when none is free) |
| ServerWindow.FirstZeroAt | vbox/src/VBox/HostServices/SharedOpenGL/crserverlib/server_window.c:150-154 | a zero slot with only taken slots before it is the first free one |
| ServerWindow.FirstIndexAt | vbox/src/VBox/HostServices/SharedOpenGL/crserverlib/server_window.c:247-254 | a slot holding the window with no earlier match is the first match |
| ServerWindow.SlotOwner | vbox/src/VBox/HostServices/SharedOpenGL/crserverlib/server_window.c:161-171 | some connected client has slot pos taken exactly when the scan finds a (non-zero) id in it |
| ServerWindow.FirstNonZero | vbox/src/VBox/HostServices/SharedOpenGL/crserverlib/server_window.c:161-162 | the first client whose slot is taken: every earlier one has it free |
| ServerWindow.SlotOwnerFirst | vbox/src/VBox/HostServices/SharedOpenGL/crserverlib/server_window.c:161-171 | the id lent is the one held by the first client whose slot is taken |
| ServerWindow.FirstNonZeroAt | vbox/src/VBox/HostServices/SharedOpenGL/crserverlib/server_window.c:161-162 | a taken slot with only free slots before it is the first taken one |
| ServerWindow.SlotOwnerNone | vbox/src/VBox/HostServices/SharedOpenGL/crserverlib/server_window.c:161-171 | when every connected client has the slot free, nothing is shared |
| ServerWindow.RemoveClientWindow | vbox/src/VBox/HostServices/SharedOpenGL/crserverlib/server_window.c:243-257 | only the first slot equal to the window is zeroed, and the result says whether there was one |
| ServerWindow.Server.Slots | vbox/src/VBox/HostServices/SharedOpenGL/crserverlib/server_window.c:161-162 | slot pos of each connected client, in client order |
| ServerWindow.Server.CreateWindow | vbox/src/VBox/HostServices/SharedOpenGL/crserverlib/server_window.c:139-214 | with shared windows a full table gives -1 and no change; a slot taken by another client makes the current client share that id in the same slot; otherwise the id from crServerMuralInit is returned, a failed one changes nothing, and a new mural is registered under it and stored in the first free slot unless loading |
| ServerWindow.Server.ShareSlot | vbox/src/VBox/HostServices/SharedOpenGL/crserverlib/server_window.c:160-171 | the first connected client whose slot pos is taken lends its id, which is stored in the current client's slot pos; otherwise nothing changes |
| ServerWindow.Server.RegisterMural | vbox/src/VBox/HostServices/SharedOpenGL/crserverlib/server_window.c:178-207 | a negative id changes nothing; otherwise a new mural with the given size enters the table under the id, and the id goes to the first free slot of the current client unless loading |
| ServerWindow.Server.DestroyWindow | vbox/src/VBox/HostServices/SharedOpenGL/crserverlib/server_window.c:311-398 | window 0 and unknown windows change nothing; otherwise the mural leaves the table; every context, client and the server itself that was current on the mural is cleared (the server and the clients also get window -1), and every other reference, sharedWindows and loading keep their values; the table RemovalTarget names (the current client's, else the first other connected client's, else the first cleanup client's that holds the id) loses its first slot with the id, and every other window table is unchanged |
| ServerWindow.Server.DestroyMural | vbox/src/VBox/HostServices/SharedOpenGL/crserverlib/server_window.c:324-397 | the mural leaves the table; exactly the contexts, clients (connected, cleanup or current) and the server that were current on the mural are cleared, to null and window -1, and all other references, sharedWindows and loading keep their values; with a current client, exactly RemovalTarget's table loses its first slot with the id and the other tables are unchanged; without one, no table changes |
| ServerWindow.RemovalTarget | vbox/src/VBox/HostServices/SharedOpenGL/crserverlib/server_window.c:346-371 | the table chosen is the current client's whenever it holds the id; a table is chosen exactly when some current, connected or cleanup client holds the id, and the chosen one holds it |
| ServerWindow.Server.RemoveWindowSlots | vbox/src/VBox/HostServices/SharedOpenGL/crserverlib/server_window.c:346-371 | RemovalTarget's table loses its first slot with the id and every other client's table is unchanged |
| ServerWindow.Server.RemoveFromOthers | vbox/src/VBox/HostServices/SharedOpenGL/crserverlib/server_window.c:348-371 | when the current client does not hold the id, the first other connected client holding it loses it, else the first cleanup client holding it; every other table is unchanged |
| ServerWindow.Server.ForgetMural | vbox/src/VBox/HostServices/SharedOpenGL/crserverlib/server_window.c:331-397 | exactly the contexts, clients and the server that were current on the mural are cleared (clients and server to null and window -1); every other context and client and the server keep their current mural and window when it was another one; sharedWindows and loading are unchanged; the mural leaves the table |
| ServerWindow.Server.VisibleRegion | vbox/src/VBox/HostServices/SharedOpenGL/crserverlib/server_window.c:680-721 | corrected: with the NULL check ahead of the present-needed test, an unknown window changes nothing; otherwise the mural keeps cRects and a copy of the rectangles and is marked as having received them |
| ServerWindow.Server.VisibleRegionAsWritten | vbox/src/VBox/HostServices/SharedOpenGL/crserverlib/server_window.c:680-686 | as written: the call faults exactly when the window is unknown, because the present-needed test reads the NULL mural before the check; a known window keeps cRects and a copy of the rectangles |
| ServerWindow.ClearContextRefs | vbox/src/VBox/HostServices/SharedOpenGL/crserverlib/server_window.c:301-308 | every context current on the mural loses it and the others keep theirs |
| ServerWindow.ClearEveryClientRef | vbox/src/VBox/HostServices/SharedOpenGL/crserverlib/server_window.c:338-395 | exactly the current, connected and cleanup clients that were current on the mural get null and window -1; every other one keeps its current mural and window |
| ServerWindow.ClearClientRefs | vbox/src/VBox/HostServices/SharedOpenGL/crserverlib/server_window.c:376-395 | every client current on the mural gets no current mural and current window -1; the others are untouched |
| ServerWindow.Holder | vbox/src/VBox/HostServices/SharedOpenGL/crserverlib/server_window.c:351-359 | the index of the first client of the list, other than the skipped one, that holds the id: every earlier client is skipped or does not hold it |
| ServerWindow.RemoveFromClients | vbox/src/VBox/HostServices/SharedOpenGL/crserverlib/server_window.c:349-371 | the result says whether some client of the list other than the skipped one held the window; exactly the first such client (Holder) loses its first slot with it, and every other table of the list is unchanged |
| RenderSpu.Chosen | vbox/src/VBox/HostServices/SharedOpenGL/render/renderspu.c:62-81 | entry i is true exactly when the bit of the i-th test is set |
| RenderSpu.Recognise | vbox/src/VBox/HostServices/SharedOpenGL/render/renderspu.c:62-81 | reading a text back yields one answer per test of the table |
| RenderSpu.DescribeCons | vbox/src/VBox/HostServices/SharedOpenGL/render/renderspu.c:62-81 | the description of a table with one more test in front starts with that test's text |
| RenderSpu.DescribeAvoids | vbox/src/VBox/HostServices/SharedOpenGL/render/renderspu.c:62-81 | a description built only from texts that differ from `a` never starts with `a` |
| RenderSpu.RecogniseDescribe | vbox/src/VBox/HostServices/SharedOpenGL/render/renderspu.c:58-82 | the visual description loses nothing: reading it back gives exactly the set of tested bits that were set |
| RenderSpu.VisLabelsUnambiguous | vbox/src/VBox/HostServices/SharedOpenGL/render/renderspu.c:62-81 | the ten texts of renderspuMakeVisString are non-empty and pairwise distinguishable, so the description can be read back |
| RenderSpu.DescribeNothing | vbox/src/VBox/HostServices/SharedOpenGL/render/renderspu.c:58-82 | with none of the tested bits set the description is the empty string |
| RenderSpu.DescribeLength | vbox/src/VBox/HostServices/SharedOpenGL/render/renderspu.c:62-81 | a description is never longer than all of the table's texts together |
| RenderSpu.VisDescriptionBound | vbox/src/VBox/HostServices/SharedOpenGL/render/renderspu.c:58-82 | no description of renderspuMakeVisString exceeds 76 characters, so a 77-character buffer always holds it |
| RenderSpu.MakeVisString | vbox/src/VBox/HostServices/SharedOpenGL/render/renderspu.c:58-82 | after the call the C string in the buffer is the description of the bits, given room for it and its NUL |
| RenderSpu.AppendLabels | vbox/src/VBox/HostServices/SharedOpenGL/render/renderspu.c:62-81 | the tests in order append the description of the bits to what the buffer already held |
| RenderSpu.AppendLabel | vbox/src/VBox/HostServices/SharedOpenGL/render/renderspu.c:62-63 | one test appends its text when its bit is set and nothing otherwise |
| RenderSpu.TrimRight | vbox/src/VBox/HostServices/SharedOpenGL/render/renderspu.c:1517-1523 | the result is a prefix of the text followed only by spaces in the text, and does not itself end in a space |
| RenderSpu.TrimRightUnique | vbox/src/VBox/HostServices/SharedOpenGL/render/renderspu.c:1517-1523 | any prefix leaving only spaces behind and not ending in a space is the trimmed text |
| RenderSpu.TrimRightIdempotent | vbox/src/VBox/HostServices/SharedOpenGL/render/renderspu.c:1517-1523 | removing trailing spaces twice is removing them once |
| RenderSpu.RemoveTrailingSpace | vbox/src/VBox/HostServices/SharedOpenGL/render/renderspu.c:1517-1523 | the C string becomes its text without trailing spaces, a NUL is still present, and only the cell of the new NUL changes |
| RenderSpu.FirstMatch | vbox/src/VBox/HostServices/SharedOpenGL/render/renderspu.c:103-117 | the index of the first entry that answers the request (attributes, and on GLX the display name too), the length when none does |
| RenderSpu.FindSpec | vbox/src/VBox/HostServices/SharedOpenGL/render/renderspu.c:96-135 | a found entry answers the request; the table either stays as it was or gains the requested visual at its end, and never grows beyond its capacity |
| RenderSpu.FindAgain | vbox/src/VBox/HostServices/SharedOpenGL/render/renderspu.c:96-135 | asking again for a visual just found or added returns the same entry and leaves the table unchanged |
| RenderSpu.VisualTable.constructor | vbox/src/VBox/HostServices/SharedOpenGL/render/renderspu.c:96-135 | the table starts empty with the given capacity and build flavour |
| RenderSpu.VisualTable.Scan | vbox/src/VBox/HostServices/SharedOpenGL/render/renderspu.c:103-117 | the loop stops at the first live entry answering the request |
| RenderSpu.VisualTable.FindVisual | vbox/src/VBox/HostServices/SharedOpenGL/render/renderspu.c:96-135 | table and answer are those of FindSpec; a matching or full table leaves the array unchanged; only slot numVisuals may be written, and a new visual is stored there even when renderspu_SystemInitVisual fails |
| RenderSpu.ReleaseSpec | vbox/src/VBox/HostServices/SharedOpenGL/render/renderspu.c:233-241 | a release keeps ids, sharing links and visual bits, never revives a context, and touches no context created after the released one |
| RenderSpu.TerminateSpec | vbox/src/VBox/HostServices/SharedOpenGL/render/renderspu.c:218-231 | termination frees the context and releases its shared context, with the same frame as ReleaseSpec |
| RenderSpu.DecrementStep | vbox/src/VBox/HostServices/SharedOpenGL/render/renderspu.c:235-239 | a release that leaves a count above zero restores exact counts |
| RenderSpu.KillStep | vbox/src/VBox/HostServices/SharedOpenGL/render/renderspu.c:235-237 | a count reaching zero belongs to a context already marked deleted; freeing it leaves its shared context as the one context still owed a release |
| RenderSpu.ReleaseKeepsCounts | vbox/src/VBox/HostServices/SharedOpenGL/render/renderspu.c:218-251 | release keeps every live reference count equal to the number of references to the context (the table's plus one per live sharer), keeps every shared context alive, and only frees contexts marked deleted (the CRASSERT at 220) |
| RenderSpu.AddContext | vbox/src/VBox/HostServices/SharedOpenGL/render/renderspu.c:171-186 | the new context is appended after all existing ones |
| RenderSpu.AddKeepsCounts | vbox/src/VBox/HostServices/SharedOpenGL/render/renderspu.c:171-186 | adding a live context with one reference and a live shared context (whose count goes up by one) keeps every count exact |
| RenderSpu.ReferrersAfterAdd | vbox/src/VBox/HostServices/SharedOpenGL/render/renderspu.c:184-185 | the new context has no sharers, and only its shared context gains it as a sharer |
| RenderSpu.ReferrersAfterKill | vbox/src/VBox/HostServices/SharedOpenGL/render/renderspu.c:227-228 | freeing a context removes it from its shared context's sharers and nobody else's |
| RenderSpu.ContextTable.constructor | vbox/src/VBox/HostServices/SharedOpenGL/render/renderspu.c:137-189 | the context list and the table start empty |
| RenderSpu.ContextTable.Release | vbox/src/VBox/HostServices/SharedOpenGL/render/renderspu.c:233-241 | the list becomes ReleaseSpec of the old one, and the count after the wrapping decrement is returned |
| RenderSpu.ContextTable.Terminate | vbox/src/VBox/HostServices/SharedOpenGL/render/renderspu.c:218-231 | the list becomes TerminateSpec of the old one |
| RenderSpu.ContextTable.MarkDeletedAndRelease | vbox/src/VBox/HostServices/SharedOpenGL/render/renderspu.c:243-251 | the id becomes -1 and the table's reference is released; the count returned is one less than before, and all counts stay exact |
| RenderSpu.ContextTable.DestroyContext | vbox/src/VBox/HostServices/SharedOpenGL/render/renderspu.c:254-289 | the default context and unknown ids change nothing; otherwise the id leaves the table and the context is marked deleted and released, keeping all counts exact |
| RenderSpu.ContextTable.CreateContextInternal | vbox/src/VBox/HostServices/SharedOpenGL/render/renderspu.c:137-189 | an unusable key (no key allocated, or an explicit key in use) fails with nothing changed; otherwise the visual lookup happens, and a context exists afterwards exactly when a visual was found and the system accepted it: then it is added with one reference under its key and its shared context gains one |
| RenderSpu.ContextTable.Insert | vbox/src/VBox/HostServices/SharedOpenGL/render/renderspu.c:176-186 | the context joins the list and the table under its id, and all counts stay exact |
| RenderSpu.ContextTable.CreateContextEx | vbox/src/VBox/HostServices/SharedOpenGL/render/renderspu.c:191-205 | the answer is -1 with nothing changed, or the new key, present in the table with one reference; a known shared id gains one reference |
| RenderSpu.Resized | vbox/src/VBox/HostServices/SharedOpenGL/render/renderspu.c:552-573 | the window has the requested size afterwards; it changes exactly when the size differs, and then the compositor is cleared and one renderspu_SystemWindowSize call is made |
| RenderSpu.Shown | vbox/src/VBox/HostServices/SharedOpenGL/render/renderspu.c:609-635 | the window is visible afterwards exactly when it is not native and the flag is non-zero; it changes exactly when the visibility differs, with one renderspu_SystemShowWindow call |
| RenderSpu.ResizedIdempotent | vbox/src/VBox/HostServices/SharedOpenGL/render/renderspu.c:558-568 | resizing twice to the same size is resizing once, with at most one system call |
| RenderSpu.ShownIdempotent | vbox/src/VBox/HostServices/SharedOpenGL/render/renderspu.c:626-630 | showing twice with the same flag is showing once, with at most one system call |
| RenderSpu.NativeNeverShown | vbox/src/VBox/HostServices/SharedOpenGL/render/renderspu.c:616-622 | no sequence of show requests makes a native window visible: a non-empty one acts as a single hide request |
| RenderSpu.Window.constructor | vbox/src/VBox/HostServices/SharedOpenGL/render/renderspu.c:609-635 | a new window is hidden, without compositor data and without system calls |
| RenderSpu.Window.Size | vbox/src/VBox/HostServices/SharedOpenGL/render/renderspu.c:558-568 | the new window state is Resized of the old one |
| RenderSpu.Window.Show | vbox/src/VBox/HostServices/SharedOpenGL/render/renderspu.c:615-630 | the new window state is Shown of the old one |
| RenderSpu.WindowTable.constructor | vbox/src/VBox/HostServices/SharedOpenGL/render/renderspu.c:552-635 | the window table starts empty |
| RenderSpu.WindowTable.WindowSize | vbox/src/VBox/HostServices/SharedOpenGL/render/renderspu.c:552-573 | a known window is resized as by Resized; an unknown one changes nothing |
| RenderSpu.WindowTable.WindowShow | vbox/src/VBox/HostServices/SharedOpenGL/render/renderspu.c:609-635 | a known window is shown as by Shown; an unknown one changes nothing |
| RenderSpu.CreateBarrier | vbox/src/VBox/HostServices/SharedOpenGL/render/renderspu.c:1143-1166 | a barrier is created exactly when papi is not ignored and the name is new; an existing name keeps its count, and a different count is reported as the mismatch the source raises with crError |
| RenderSpu.RecreateBarrier | vbox/src/VBox/HostServices/SharedOpenGL/render/renderspu.c:1150-1165 | creating a name a second time changes nothing, keeps the first count, and is quiet exactly when the counts agree |
| RenderSpu.Barriers.constructor | vbox/src/VBox/HostServices/SharedOpenGL/render/renderspu.c:1143-1166 | the barrier table starts empty |
| RenderSpu.Barriers.Create | vbox/src/VBox/HostServices/SharedOpenGL/render/renderspu.c:1143-1166 | table and outcome are those of CreateBarrier |
| NtQueryStuff.BitName | vbox/src/VBox/HostDrivers/Support/testcase/tstNtQueryStuff.cpp:115-116 | the text of an unclaimed bit has the form "BIT(" digits ")" and holds no NUL |
| NtQueryStuff.BitNameInjective | vbox/src/VBox/HostDrivers/Support/testcase/tstNtQueryStuff.cpp:115-116 | different bits are shown under different names |
| NtQueryStuff.AppendStep | vbox/src/VBox/HostDrivers/Support/testcase/tstNtQueryStuff.cpp:91-107 | an append that fits adds the optional space and the item behind what was written; written bytes plus free bytes stay equal to the buffer size, and an append that does not fit changes nothing |
| NtQueryStuff.AppendStepStaysInside | vbox/src/VBox/HostDrivers/Support/testcase/tstNtQueryStuff.cpp:91-107 | with the free count kept right, the text and its terminator never go past the buffer, whatever is appended |
| NtQueryStuff.AppendStepAsWritten | vbox/src/VBox/HostDrivers/Support/testcase/tstNtQueryStuff.cpp:96-100 | as written, an append with a space that fits grows the written bytes plus the free count by two instead of keeping it equal to the buffer size |
| NtQueryStuff.AppendAsWrittenOverruns | vbox/src/VBox/HostDrivers/Support/testcase/tstNtQueryStuff.cpp:96-100 | with the free count raised for the space, three one-letter appends into a 4-byte buffer all pass the size test and the last one writes past its end |
| NtQueryStuff.CopyInto | vbox/src/VBox/HostDrivers/Support/testcase/tstNtQueryStuff.cpp:101 | the item lands at the given position and nothing else in the buffer changes |
| NtQueryStuff.Append | vbox/src/VBox/HostDrivers/Support/testcase/tstNtQueryStuff.cpp:91-107 | the buffer and the new position and free count are those of AppendStep; a successful append leaves a terminator after the text, a refused one leaves the buffer as it was (on the corrected step: line 99 adjusted as `-= 1`, see Findings) |
| NtQueryStuff.AppendBits | vbox/src/VBox/HostDrivers/Support/testcase/tstNtQueryStuff.cpp:110-122 | the unknown-bit loop only extends what was written and keeps written plus free bytes equal to the buffer size (on the corrected step: line 99 adjusted as `-= 1`, see Findings) |
| NtQueryStuff.AppendUnknownFlags | vbox/src/VBox/HostDrivers/Support/testcase/tstNtQueryStuff.cpp:110-122 | the buffer holds what AppendBits computes, terminated when non-empty, with the bytes behind it untouched (on the corrected step: line 99 adjusted as `-= 1`, see Findings) |
| NtQueryStuff.StringifyFlags | vbox/src/VBox/HostDrivers/Support/testcase/tstNtQueryStuff.cpp:125-148 | the result is the buffer start; a zero word is written as "0"; any other word as Rendered (the table names, then the leftover bits), terminated when non-empty, with the bytes behind it untouched (on the corrected step: line 99 adjusted as `-= 1`, see Findings) |
| NtQueryStuff.AppendDescsLeftover | vbox/src/VBox/HostDrivers/Support/testcase/tstNtQueryStuff.cpp:130-137 | the bits left after the table loop are those of Leftover |
| NtQueryStuff.LeftoverIsUncovered | vbox/src/VBox/HostDrivers/Support/testcase/tstNtQueryStuff.cpp:130-140 | the bits shown as "BIT(n)" are exactly those of the word that no table entry covers |
| NtQueryStuff.SetBitsExact | vbox/src/VBox/HostDrivers/Support/testcase/tstNtQueryStuff.cpp:112-113 | the bits listed are exactly the set bits, in strictly ascending order |
| NtQueryStuff.BitNames | vbox/src/VBox/HostDrivers/Support/testcase/tstNtQueryStuff.cpp:112-119 | one name per listed bit, in the same order |
| NtQueryStuff.BitShownIff | vbox/src/VBox/HostDrivers/Support/testcase/tstNtQueryStuff.cpp:112-119 | "BIT(n)" is among the names of a leftover word exactly when bit n is set in it |
| NtQueryStuff.AppendItems | vbox/src/VBox/HostDrivers/Support/testcase/tstNtQueryStuff.cpp:91-107 | appending a list of items keeps written plus free bytes equal to the buffer size |
| NtQueryStuff.DescsAsItems | vbox/src/VBox/HostDrivers/Support/testcase/tstNtQueryStuff.cpp:130-137 | the table loop appends the names of the matching entries, in table order, one after the other |
| NtQueryStuff.BitsAsItems | vbox/src/VBox/HostDrivers/Support/testcase/tstNtQueryStuff.cpp:112-119 | with room for them, the unknown-bit loop appends the names of the set bits, lowest first |
| NtQueryStuff.ItemsWithRoom | vbox/src/VBox/HostDrivers/Support/testcase/tstNtQueryStuff.cpp:91-107 | with room for everything, items are written joined by single spaces behind what was there |
| NtQueryStuff.JoinLength | vbox/src/VBox/HostDrivers/Support/testcase/tstNtQueryStuff.cpp:94 | joined items plus their terminator take exactly the room counted for them |
| NtQueryStuff.RenderedWithRoom | vbox/src/VBox/HostDrivers/Support/testcase/tstNtQueryStuff.cpp:125-148 | with room for all of it, a non-zero word is written as the matching names in table order followed by "BIT(n)" for each leftover bit, separated by single spaces (on the corrected step: line 99 adjusted as `-= 1`, see Findings) |
| NtQueryStuff.MemTypesDisjoint | vbox/src/VBox/HostDrivers/Support/testcase/tstNtQueryStuff.cpp:151-160 | no two entries of the memory type table share a bit |
| NtQueryStuff.MemStatesDisjoint | vbox/src/VBox/HostDrivers/Support/testcase/tstNtQueryStuff.cpp:163-173 | no two entries of the memory state table share a bit |
| NtQueryStuff.ProtectionsDisjoint | vbox/src/VBox/HostDrivers/Support/testcase/tstNtQueryStuff.cpp:176-194 | no two entries of the protection table share a bit |
| NtQueryStuff.MemStateExample | vbox/src/VBox/HostDrivers/Support/testcase/tstNtQueryStuff.cpp:163-173 | a committed, reserved region is shown as "COMMIT RESERVE" |
| GuestSession.StatusOfNotify | vbox/src/VBox/Main/src-client/GuestSessionImpl.cpp:1267-1299 | unknown notification types (UNDEFINED included) have no status; the known ones never map to Undefined, Starting or Terminating; ERROR maps to Error and the three termination types to Terminated |
| GuestSession.NotifiedStatus | vbox/src/VBox/Main/src-client/GuestSessionImpl.cpp:1267-1305 | a known type sets a status, and it is Error exactly when the type is ERROR or the guest result is a failure; a successful result keeps the type's own status |
| GuestSession.SetSessionStatus | vbox/src/VBox/Main/src-client/GuestSessionImpl.cpp:1684-1717 | the status is the new one afterwards; nothing changes exactly when it already was; a change stores the result and fires one state-changed event |
| GuestSession.SetSessionStatusTwice | vbox/src/VBox/Main/src-client/GuestSessionImpl.cpp:1699-1714 | setting the same status twice fires at most one event and keeps the first result |
| GuestSession.ApplyAllKeepsEvents | vbox/src/VBox/Main/src-client/GuestSessionImpl.cpp:1699-1714 | through any sequence of status updates no event repeats the status before it, the last event names the current status, and the status is the last one set |
| GuestSession.WaitResultOf | vbox/src/VBox/Main/src-client/GuestSessionImpl.cpp:1927-1955 | after waiting, Terminated and Down give Terminate, the two time-outs give Timeout, and Undefined, Starting and Terminating give Status |
| GuestSession.WaitDecision | vbox/src/VBox/Main/src-client/GuestSessionImpl.cpp:1807-1901 | no flags are refused as an invalid parameter; an Error session answers Error with VERR_GSTCTL_GUEST_ERROR; an immediate answer reports the last result as success or guest error; waiting happens exactly for Undefined and Starting or when neither Start nor Terminate is asked; Terminating under Terminate is VERR_NOT_IMPLEMENTED |
| GuestSession.ImmediateMatchesWait | vbox/src/VBox/Main/src-client/GuestSessionImpl.cpp:1829-1955 | under Terminate an immediate answer is the one waiting would give for that status; under Start alone Started, Terminating, Terminated and Down count as started |
| GuestSession.GuestErrorTextsDistinct | vbox/src/VBox/Main/src-client/GuestSessionImpl.cpp:1176-1225 | each of the nine guest errors that have a message of their own gets a different text, whatever %Rrc prints |
| GuestSession.GuestMessageLength | vbox/src/VBox/Main/src-client/GuestSessionImpl.cpp:1183-1217 | the length of each guest error's own message |
| GuestSession.KnownTextLengthsDistinct | vbox/src/VBox/Main/src-client/GuestSessionImpl.cpp:1183-1217 | no two of those messages have the same length |
| GuestSession.ProcessFlagsRule | vbox/src/VBox/Main/src-client/GuestSessionImpl.cpp:1521-1542 | flags pass exactly when they are zero or include one of the six known flags, and start-only is not combined with waiting for stdout or stderr |
| GuestSession.EffectiveTimeout | vbox/src/VBox/Main/src-client/GuestSessionImpl.cpp:1544-1547 | a timeout of 0 becomes UINT32_MAX; any other is kept |
| GuestSession.AllBelowCounted | vbox/src/VBox/Main/src-client/GuestSessionImpl.cpp:1554-1578 | a set holding every ID below n has at least n members |
| GuestSession.FindFreeId | vbox/src/VBox/Main/src-client/GuestSessionImpl.cpp:1557-1578 | a found ID is below the maximum and is the smallest unused one; giving up means every ID the tries reached is taken |
| GuestSession.FreeIdExists | vbox/src/VBox/Main/src-client/GuestSessionImpl.cpp:1554-1578 | with fewer objects than the maximum and at least as many tries, the search always finds an ID |
| GuestSession.FindEntry | vbox/src/VBox/Main/src-client/GuestSessionImpl.cpp:1464-1489 | a found key is the first in ascending order whose object is the handle; not found means no entry holds it |
| GuestSession.DirectoryCreateArgs | vbox/src/VBox/Main/src-client/GuestSessionImpl.cpp:699-727 | vbox_mkdir runs hidden, with --parents when asked, --mode and the mode in octal (at most 11 digits, so the 16-byte buffer never overflows) when it is non-zero, and the path last |
| GuestSession.Session.constructor | vbox/src/VBox/Main/src-client/GuestSessionImpl.cpp:169-202 | a new session is Undefined with a successful result, no events and no objects |
| GuestSession.Session.SetStatus | vbox/src/VBox/Main/src-client/GuestSessionImpl.cpp:1684-1717 | status, result and events become SetSessionStatus of the old ones; the answer is VINF_SUCCESS |
| GuestSession.Session.OnSessionStatusChange | vbox/src/VBox/Main/src-client/GuestSessionImpl.cpp:1245-1319 | fewer than 3 parameters are refused with nothing changed; an unknown type gives VERR_NOT_SUPPORTED with nothing changed; otherwise the notified status is set |
| GuestSession.Session.StartSession | vbox/src/VBox/Main/src-client/GuestSessionImpl.cpp:1321-1345 | an old guest protocol marks the session Started at once; a session that is not Undefined is left alone; otherwise it becomes Starting and the request goes to the guest |
| GuestSession.Session.CloseSession | vbox/src/VBox/Main/src-client/GuestSessionImpl.cpp:613-672 | the guest is asked to close exactly when the protocol is at least 2 and the session is Started, and only then can the result be a failure; otherwise the result is VINF_SUCCESS; when asked, a failed registerEvent is returned, else a failed sendCommand, else the result of waitForStatusChange |
| GuestSession.Session.ProcessCreate | vbox/src/VBox/Main/src-client/GuestSessionImpl.cpp:1503-1605 | bad flags, a full session, a COM failure and an init failure are reported in that order with nothing registered; success registers the process under the smallest free ID and counts it; the timeout is adjusted as EffectiveTimeout once the flags pass, and is left as given when they are refused |
| GuestSession.Session.FileOpen | vbox/src/VBox/Main/src-client/GuestSessionImpl.cpp:1019-1091 | a full session, a COM failure, an init failure and an open failure are reported in that order with nothing registered; success registers the file under the smallest free ID and counts it |
| GuestSession.Session.ProcessRemove | vbox/src/VBox/Main/src-client/GuestSessionImpl.cpp:1448-1493 | VERR_NOT_FOUND exactly when no entry holds the process, with nothing changed; otherwise the first entry holding it goes and the counter drops by one |
| GuestSession.Session.FileRemove | vbox/src/VBox/Main/src-client/GuestSessionImpl.cpp:956-986 | VERR_NOT_FOUND exactly when no entry holds the file, with nothing changed; otherwise the first entry holding it goes and the counter drops by one |
| VmxR0.MsrReadBit | vbox/src/VBox/VMM/VMMR0/HWVMXR0.cpp:912-928 | an MSR has a bitmap bit exactly when it lies in 0-0x1FFF or 0xC0000000-0xC0001FFF; low MSRs map below 0x400 bytes, high MSRs into the second kilobyte, and every read bit lies in the read half |
| VmxR0.MsrReadBitInjective | vbox/src/VBox/VMM/VMMR0/HWVMXR0.cpp:912-928 | two MSRs that both have bitmap bits share a bit only when they are the same MSR |
| VmxR0.MsrPermission | vbox/src/VBox/VMM/VMMR0/HWVMXR0.cpp:912-939 | an MSR has a (read, write) permission exactly when it has a bitmap bit |
| VmxR0.MsrBitmap.constructor | vbox/src/VBox/VMM/VMMR0/HWVMXR0.cpp:395 | a fresh bitmap (filled with 0xff) intercepts both reads and writes of every MSR |
| VmxR0.MsrBitmap.SetPermission | vbox/src/VBox/VMM/VMMR0/HWVMXR0.cpp:900-940 | an MSR outside both ranges leaves the bitmap unchanged; otherwise only its read bit and its write bit (0x800 bytes further) change, each set when the access is to be intercepted |
| VmxR0.PermissionReadsBack | vbox/src/VBox/VMM/VMMR0/HWVMXR0.cpp:900-940 | after setting an MSR's permission it reads back as (read, write) and every other MSR's permission is unchanged |
| VmxR0.MsrBitmap.AllowMsr | vbox/src/VBox/VMM/VMMR0/HWVMXR0.cpp:762-772 | allowing one MSR grants it read and write pass-through and changes no other MSR |
| VmxR0.MsrBitmap.AllowNext | vbox/src/VBox/VMM/VMMR0/HWVMXR0.cpp:762-772 | allowing one more MSR extends the set of MSRs passed through since a start state, the others unchanged |
| VmxR0.AllowedThen | vbox/src/VBox/VMM/VMMR0/HWVMXR0.cpp:762-772 | two pass-through steps in sequence pass through the union of their MSRs and change nothing else |
| VmxR0.MsrBitmap.AllowGuestMsrs | vbox/src/VBox/VMM/VMMR0/HWVMXR0.cpp:759-773 | SYSENTER_CS/ESP/EIP, LSTAR, STAR, SF_MASK, KERNEL_GS_BASE, GS_BASE and FS_BASE, plus TSC_AUX when RDTSCP is on, are passed through and no other MSR's permission changes |
| VmxR0.Cached | vbox/src/VBox/VMM/VMMR0/HWVMXR0.cpp:5770-5778 | a field has a queued value exactly when it is among the queued fields |
| VmxR0.CachedAt | vbox/src/VBox/VMM/VMMR0/HWVMXR0.cpp:5770-5778 | with no duplicate fields, the value queued at a position is the value found for its field |
| VmxR0.CachedOther | vbox/src/VBox/VMM/VMMR0/HWVMXR0.cpp:5773-5776 | overwriting the value at one position leaves the value of every other field as it was |
| VmxR0.VmcsCache.Write | vbox/src/VBox/VMM/VMMR0/HWVMXR0.cpp:5763-5784 | a full cache (count + 1 >= capacity) refuses with VERR_ACCESS_DENIED and changes nothing; otherwise the field reads back the new value, every other field keeps its value, no duplicate is created and the count grows only for a new field |
| VmxR0.HalvesRebuild | vbox/src/VBox/VMM/VMMR0/HWVMXR0.cpp:5718-5719 | the low and high 32-bit halves of a 64-bit value put together give the value back |
| VmxR0.WriteVmcs64 | vbox/src/VBox/VMM/VMMR0/HWVMXR0.cpp:5695-5753 | a two-part field is written as its low half then its high half at field + 1; a natural-width guest field is written directly when its high half is zero and queued in the cache otherwise; any other field is refused with VERR_INVALID_PARAMETER and writes nothing; the cache changes only when a value is queued |
| VmxR0.SelectFlushTypes | vbox/src/VBox/VMM/VMMR0/HWVMXR0.cpp:519-583 | with nested paging and no usable INVEPT the result is VERR_HM_UNSUPPORTED_CPU_FEATURE_COMBO; otherwise EPT is off without nested paging, uses single-context when offered and all-contexts when only that is offered, VPID stays on exactly when INVVPID offers single- or all-context flushes, and it is marked not supported otherwise |
| VmxR0.ControlWordWithinAllowed | vbox/src/VBox/VMM/VMMR0/HWVMXR0.cpp:611-620 | a control word never sets a bit the CPU disallows (outside allowed1) |
| VmxR0.ControlWordOnlyAsked | vbox/src/VBox/VMM/VMMR0/HWVMXR0.cpp:611-620 | a control word sets only bits that are required (disallowed0) or requested |
| VmxR0.ControlWordGrantsAllowed | vbox/src/VBox/VMM/VMMR0/HWVMXR0.cpp:611-620 | every required or requested bit the CPU allows is set |
| VmxR0.PinWordPreemptTimer | vbox/src/VBox/VMM/VMMR0/HWVMXR0.cpp:611-620 | the pin-based word exits on external interrupts and NMIs when allowed, and enables the preemption timer exactly when it is used (or required) and allowed |
| VmxR0.ProcWordChoices | vbox/src/VBox/VMM/VMMR0/HWVMXR0.cpp:630-674 | the primary word uses the TPR shadow exactly when the CPU offers it, exits on CR8 loads only without it, and without nested paging exits on INVLPG and CR3 loads when allowed; it never exceeds allowed1 |
| VmxR0.SecondaryControls | vbox/src/VBox/VMM/VMMR0/HWVMXR0.cpp:680-708 | the secondary word is produced exactly when the primary controls allow secondary controls |
| VmxR0.SecondaryChoices | vbox/src/VBox/VMM/VMMR0/HWVMXR0.cpp:686-706 | the secondary word enables EPT exactly with nested paging, VPID exactly with VPID on, RDTSCP exactly when offered, each only when allowed, and never exceeds allowed1 |
| VmxR0.ExceptionBitmapBits | vbox/src/VBox/VMM/VMMR0/HWVMXR0.cpp:1624-1695 | #DB and #NM always exit, #PF exits exactly without nested paging, #MF exactly when CR0.NE is clear or real mode is emulated, emulated real mode traps all of its exceptions, and no bit above vector 19 is set |
| VmxR0.ShrMono | vbox/src/VBox/VMM/VMMR0/HWVMXR0.cpp:1770 | a right shift never increases a value and keeps the order of two values |
| VmxR0.PreemptTicksBounds | vbox/src/VBox/VMM/VMMR0/HWVMXR0.cpp:1760-1772 | the preemption tick count never exceeds UINT32_MAX - 16 or 1/64 of a second (shifted), is at least 1/2048 of a second (shifted, capped), and grows with the deadline |
| VmxR0.InjectRealModeChain | vbox/src/VBox/VMM/VMMR0/HWVMXR0.cpp:1005-1021 | an event with a handler is delivered as itself; one without is escalated to #GP, then #DF, returning to the same IP; the VM is reset exactly when neither the event nor #DF has a handler |
| VmxR0.InjectRealModeReturnIp | vbox/src/VBox/VMM/VMMR0/HWVMXR0.cpp:1022-1029 | a software interrupt returns past the instruction (16-bit IP), a hardware exception other than #BP and #OF returns to the interrupted IP |
| VmxR0.SanitiseDr6Bits | vbox/src/VBox/VMM/VMMR0/HWVMXR0.cpp:2266-2267 | the reserved DR6 bits become their init value, bit 12 becomes zero, every other bit is kept |
| VmxR0.SanitiseDr7Reserved | vbox/src/VBox/VMM/VMMR0/HWVMXR0.cpp:2269-2271 | the sanitised DR7 has no upper 32 bits, bits 11, 12, 14 and 15 clear and bit 10 set |
| VmxR0.SanitiseDr7KeepsOthers | vbox/src/VBox/VMM/VMMR0/HWVMXR0.cpp:2269-2271 | every other bit of the low 32 bits of DR7 is kept |
| VmxR0.SanitiseDr7Idempotent | vbox/src/VBox/VMM/VMMR0/HWVMXR0.cpp:2269-2271 | sanitising DR7 twice gives the same value as once |
| VmxR0.TrAccessRightsBusy | vbox/src/VBox/VMM/VMMR0/HWVMXR0.cpp:2002-2013 | the written TR type is always a busy TSS (286 busy for a 286 TSS, 386 busy otherwise, including the unset default), and the other attribute bits are kept |
| VmxR0.Cr3ExitsForCr0 | vbox/src/VBox/VMM/VMMR0/HWVMXR0.cpp:2076-2090 | with nested paging the CR3 load/store exits are off exactly in paged protected mode and on otherwise; all other control bits are kept |
| VmxR0.GuestCr0Hidden | vbox/src/VBox/VMM/VMMR0/HWVMXR0.cpp:2054-2123 | the CR0 the CPU runs with differs from the guest's CR0 only in bits the host owns (the CR0 mask), always has NE set and CD/NW clear, and has PE and PG set without unrestricted guest execution |
| VmxR0.VpidFlushOf | vbox/src/VBox/VMM/VMMR0/HWVMXR0.cpp:5178-5195 | an all-contexts INVVPID carries ASID 0 and address 0; any other kind carries the current ASID and the given address |
| VmxR0.PageFlushes | vbox/src/VBox/VMM/VMMR0/HWVMXR0.cpp:2694-2698 | a shootdown by address issues one flush per pending page, in order: the i-th is the by-address INVVPID of page i under the VCPU's ASID |
| VmxR0.NextAsid | vbox/src/VBox/VMM/VMMR0/HWVMXR0.cpp:2653-2659 | the next ASID is always in 1 .. uMaxAsid - 1: the old one plus one, or 1 with a new flush generation when that reaches uMaxAsid |
| VmxR0.Vcpu.ShootdownFlushes | vbox/src/VBox/VMM/VMMR0/HWVMXR0.cpp:2851-2863 | with flush-by-address, one INVVPID per pending page; otherwise the single fallback flush |
| VmxR0.Vcpu.NewAsid | vbox/src/VBox/VMM/VMMR0/HWVMXR0.cpp:2826-2837 | the CPU's and the VCPU's ASID become the next ASID; on wrap-around the flush generation advances and ASIDs must be flushed before use |
| VmxR0.Vcpu.TakeFlushRequests | vbox/src/VBox/VMM/VMMR0/HWVMXR0.cpp:2810-2823 | a flush is forced when the VCPU last ran on another CPU, missed a flush generation, had one forced or had a flush request, which is consumed; the VCPU is now on this CPU |
| VmxR0.Vcpu.EndShootdown | vbox/src/VBox/VMM/VMMR0/HWVMXR0.cpp:2866-2867 | the pending shootdown pages and the shootdown request are cleared |
| VmxR0.Vcpu.WriteVpid | vbox/src/VBox/VMM/VMMR0/HWVMXR0.cpp:2876 | the VCPU's ASID is written to the VMCS VPID field |
| VmxR0.Vcpu.SetupTlbVpid | vbox/src/VBox/VMM/VMMR0/HWVMXR0.cpp:2795-2887 | keeps the ASID invariant; a forced flush takes a new ASID and flushes it when the CPU requires, otherwise the ASID stays and a shootdown flushes by page or by the configured kind; requests are cleared, the VCPU is current and its ASID is written to the VMCS |
| VmxR0.Vcpu.SetupTlbBoth | vbox/src/VBox/VMM/VMMR0/HWVMXR0.cpp:2619-2719 | a VCPU that moved CPU or missed a generation takes a new ASID; a forced flush on the same CPU flushes its single context or the EPT; a shootdown flushes by page or the EPT; requests are cleared and the ASID is written |
| VmxR0.Vcpu.SetupTlbEpt | vbox/src/VBox/VMM/VMMR0/HWVMXR0.cpp:2729-2785 | the VCPU becomes current on this CPU, the EPT is flushed exactly when a flush was forced or a shootdown was pending, the ASID and VMCS stay unchanged |
| VmxR0.Vcpu.SetupTlbDummy | vbox/src/VBox/VMM/VMMR0/HWVMXR0.cpp:2604-2610 | the flush and shootdown requests and the pending pages are dropped |
| PortForward.Find | vbox/src/VBox/NetworkServices/NetLib/VBoxNetPortForwardString.cpp:70 | RTStrStr for one character: the index of the first occurrence at or after the cursor, or none when no later character matches |
| PortForward.FindIs | vbox/src/VBox/NetworkServices/NetLib/VBoxNetPortForwardString.cpp:70 | a character present at an index with no earlier occurrence after the cursor is the one found |
| PortForward.Truncate | vbox/src/VBox/NetworkServices/NetLib/VBoxNetPortForwardString.cpp:81 | RTStrCopy into a buffer of n bytes keeps the text when it is shorter than n and otherwise exactly its first n - 1 characters |
| PortForward.AddressParse | vbox/src/VBox/NetworkServices/NetLib/VBoxNetPortForwardString.cpp:49-89 | a field not opening with `[` gives -1; an unclosed `[` or a field longer than cbRaw gives VERR_INVALID_PARAMETER; `[addr]` gives its length plus two and the address cut to 46 bytes; `[]` gives 2 only where an empty address is acceptable and -1 otherwise |
| PortForward.PortParse | vbox/src/VBox/NetworkServices/NetLib/VBoxNetPortForwardString.cpp:92-145 | a field not opening with `:` or with nothing after it gives -1; `:port` up to the next `:` or the end gives one plus the port's length and the value of its first nine characters, and -1 when that value is 0 |
| PortForward.PairParse | vbox/src/VBox/NetworkServices/NetLib/VBoxNetPortForwardString.cpp:148-208 | `:[addr]:port` within cbRaw gives its length, the address and the port; empty brackets where an address is required give -1, a port that does not convert VERR_INVALID_PARAMETER, a cbRaw of 1 or less VERR_INVALID_PARAMETER, no `[` -1; reading past the end of the string happens exactly at the end with cbRaw above 1 |
| PortForward.NameField | vbox/src/VBox/NetworkServices/NetLib/VBoxNetPortForwardString.cpp:251-271 | the name is empty for a leading `:`, otherwise the text before the first `:` after the first character, shorter than PF_NAMELEN and free of `:`; there is no name only when the text does not start with `:` |
| PortForward.HeadName | vbox/src/VBox/NetworkServices/NetLib/VBoxNetPortForwardString.cpp:251-271 | a name without `:`, shorter than PF_NAMELEN and followed by `:`, is the name the parser reads |
| PortForward.ParseHead | vbox/src/VBox/NetworkServices/NetLib/VBoxNetPortForwardString.cpp:239-293 | the head is accepted exactly when the text is longer than 14 characters, holds a name that fits PF_NAMELEN, then `tcp` or `udp` in any case, then `:`; the name returned is the only one that fits |
| PortForward.Protocol | vbox/src/VBox/NetworkServices/NetLib/VBoxNetPortForwardString.cpp:281-289 | the intended protocol: IPPROTO_TCP exactly for the word `tcp`, IPPROTO_UDP otherwise |
| PortForward.ProtocolAsWritten | vbox/src/VBox/NetworkServices/NetLib/VBoxNetPortForwardString.cpp:281-285 | as written, the word `udp` selects IPPROTO_TCP, unlike the intended protocol |
| PortForward.RuleTextHead | vbox/src/VBox/NetworkServices/NetLib/VBoxNetPortForwardString.cpp:241-293 | the text of a well-formed rule has an accepted head whose name is the rule's name, whose protocol is the rule's, and whose pairs follow it |
| PortForward.RuleTextRead | vbox/src/VBox/NetworkServices/NetLib/VBoxNetPortForwardString.cpp:213-351 | the text `name:proto:[hostaddr]:hostport:[guestaddr]:guestport` of well-formed parts is read by the parser, and the rule filled in from it is the rule those parts stand for |
| PortForward.HostOnlyRead | vbox/src/VBox/NetworkServices/NetLib/VBoxNetPortForwardString.cpp:295-315 | a text that stops after its host pair, once past the length check, is recognised as one |
| PortForward.HostMissingRead | vbox/src/VBox/NetworkServices/NetLib/VBoxNetPortForwardString.cpp:170-182 | a text whose host pair does not open with `[`, once past the length check, is recognised as one |
| PortForward.PortForwardRule.Clear | vbox/src/VBox/NetworkServices/NetLib/VBoxNetPortForwardString.cpp:233 | every field of the rule is zero or empty |
| PortForward.PortForwardRule.Fill | vbox/src/VBox/NetworkServices/NetLib/VBoxNetPortForwardString.cpp:318-351 | succeeds exactly when a guest address is present and, for IPv4, both address texts convert; then the rule holds the name, the mode, the protocol, both converted addresses with their texts and both ports; a failure clears the rule |
| PortForward.PortForwardRule.ReadPairs | vbox/src/VBox/NetworkServices/NetLib/VBoxNetPortForwardString.cpp:295-351 | two well-formed pairs up to the end are read into the rule exactly; a host pair with nothing after it or without `[` is rejected; a success leaves a filled rule and a failure a cleared one |
| PortForward.PortForwardRule.FromString | vbox/src/VBox/NetworkServices/NetLib/VBoxNetPortForwardString.cpp:213-371 | a text of 14 characters or fewer is rejected; every well-formed rule text is accepted and read exactly (a `udp` rule with IPPROTO_UDP); a rule without guest pair or without `[` is rejected; success means an accepted head and a filled rule, failure a cleared rule |
| PortForward.PortForwardRule.ReadPairsAsWritten | vbox/src/VBox/NetworkServices/NetLib/VBoxNetPortForwardString.cpp:295-351 | as written: a host pair without `[` returns VERR_INVALID_PARAMETER with the rule untouched, and a host pair with nothing after it, under a cbRaw that exceeds what is left by more than one, reads past the end of the string |
| PortForward.PortForwardRule.FromStringAsWritten | vbox/src/VBox/NetworkServices/NetLib/VBoxNetPortForwardString.cpp:213-371 | as written: a well-formed rule is read with IPPROTO_TCP whatever its word, a host pair without `[` leaves the name in the rule, and a text stopping after its host pair under a name of two or more characters reads past the end of the string |
| UnpackExtend.Decls | vbox/src/VBox/HostServices/SharedOpenGL/unpacker/unpack_extend.py:25-29 | one declaration per special, in registry order: the i-th line is the declaration of the i-th special |
| UnpackExtend.DeclLineShape | vbox/src/VBox/HostServices/SharedOpenGL/unpacker/unpack_extend.py:26-29 | a declaration is `extern void crUnpackExtend<name>(void);` exactly when the name is tagged `extpack`, and `extern void crUnpack<name>(void);` otherwise |
| UnpackExtend.FirstLineLength | vbox/src/VBox/HostServices/SharedOpenGL/unpacker/unpack_extend.py:25-29 | the first line of printed text ends at its first newline |
| UnpackExtend.FirstLineOfPrinted | vbox/src/VBox/HostServices/SharedOpenGL/unpacker/unpack_extend.py:27-29 | a printed line without a newline of its own is read back as the first line of the output |
| UnpackExtend.SplitJoinLines | vbox/src/VBox/HostServices/SharedOpenGL/unpacker/unpack_extend.py:25-29 | splitting lines printed one after the other gives the same lines back |
| UnpackExtend.DeclarationLines | vbox/src/VBox/HostServices/SharedOpenGL/unpacker/unpack_extend.py:25-29 | the declaration part of the output holds exactly one line per special, in registry order |
| UnpackExtend.JoinLinesSnoc | vbox/src/VBox/HostServices/SharedOpenGL/unpacker/unpack_extend.py:25-29 | printing one more line extends the output by that line and a newline |
| UnpackExtend.Generate | vbox/src/VBox/HostServices/SharedOpenGL/unpacker/unpack_extend.py:12-33 | the output is the banner, the DO-NOT-EDIT comment with the opening `#ifndef/#define UNPACK_EXTEND_H`, the printed declarations, then `#endif` |

## Left out

- HWVMXR0.cpp: the VMX and ASM instructions themselves (VMXWriteVmcs, INVEPT, INVVPID, RDTSC, MSR reads) are only log entries. Also not modelled: memory-object allocation in VMXR0InitVM/VMXR0TermVM, the VMXR0RunGuestCode exit loop, statistics, logging and the 32-to-64-bit switcher. These are hardware access or lean on other VMM components.
- HWVMXR0.cpp: the EPTP and VMCS field contents other than those named above, the VMCS read-cache set-up, and the TSC-offsetting choice of VMXR0SetupTscOffsetAndPreemption (lines 1776-1811). The last one depends on clock readings; only the preemption-tick clamp is modelled.
- HWVMXR0.cpp: the real-mode frame that hmR0VmxInjectEvent pushes and the CS:IP it loads (lines 1034-1063) are guest memory writes. The model stops at which event is delivered and which IP it returns to. VMXR0LoadMinimalGuestState's EFLAGS handling is not part of this model.
- VmxR0.Vcpu.SetupTlbVpid, VmxR0.Vcpu.SetupTlbBoth: require the ASID invariant (both ASIDs in 1 .. uMaxAsid - 1, equal flush counts while current) that the source asserts after every set-up, rather than handling a state that breaks it.
- VmxR0.HostCpu.constructor, VmxR0.Vcpu.constructor, VmxR0.VmcsCache.constructor: the initial per-CPU and per-VCPU state comes from HMR0.cpp, which is not part of this model; these constructors only give the model a starting state.
- HWVMXR0.cpp: the 32-bit wrap of cTlbFlushes is not modelled; the counter is unbounded.
- GuestSessionImpl.cpp: COM getters and setters, AutoCaller and locks, event registration and delivery other than the status-change event, the waiting in waitFor, the startSessionAsync thread, HGCM sendCommand, progress tasks and GuestProcessTool are not modelled. They are COM, threading or guest I/O. Processes and files are opaque handles, and the results of GuestProcess::init, GuestFile::init and openFile are parameters.
- GuestSession.GuestErrorText: its contract only restates its body. The properties of guestErrorToString are stated by GuestSession.GuestErrorTextsDistinct and GuestSession.GuestMessageLength; the numeric status values and the message formatting of iprt/err.h are not part of this model.
- renderspu.c: GL and window-system calls, DoSync and gather networking, compositor locking, DrawCursor/SetRasterPos and the compositor blits (floating point), and the `%i` window-title substitution are not modelled. The atomic updates of cRefs are plain sequential updates. Allocation failures are outcome parameters.
- RenderSpu.ContextTable.DestroyContext: the MakeCurrent call that unbinds a context that is current on this thread is a GL call and is not modelled.
- RenderSpu.ContextTable.CreateContextInternal: a failure after the key is taken (the visual lookup, crCalloc or renderspu_SystemCreateContext) leaves the key free again in the model; in the source crHashtableAllocKeys keeps it reserved. The model takes the ids in use to be the keys of the context table.
- ServerWindow.Server.VisibleRegion: the present-needed result and the compositor enter/leave around the update are not modelled, only the NULL mural read that the as-written member faults on.
- server_window.c: SPU dispatch, the compositor (CrVrScr*), root visible-region translation and the output-redirection callbacks are foreign and not modelled. crServerMuralInit's result is the `initId` parameter of window creation; a crCalloc failure and crServerGetDummyMural are not modelled.
- NtQueryStuff.Append, NtQueryStuff.AppendBits, NtQueryStuff.AppendUnknownFlags, NtQueryStuff.StringifyFlags, NtQueryStuff.RenderedWithRoom: are built on the corrected append step (line 99 adjusted as `-= 1`), not on line 99 as written; the as-written drift of the free count is modelled only by NtQueryStuff.AppendStepAsWritten.
- CrServer.RpwEntry.constructor: the initial entry (Draw owning texture 1, the other roles invalid, no active PBO) stands in for crServerRpwEntryInit, declared at server.h:321; its body is not part of this model, so the constructor has no row.
- CrServer.RpwEntry.Invalidate, CrServer.RpwEntry.Promote: require that the slot acted on is not the draw slot, because crServerRpwEntryDbgVerify (server.h:245) requires the draw slot to stay valid; the macros themselves have no such guard.
- VBoxNetPortForwardString.cpp: RTStrDup failure, RTStrFree, Log, the strict-build Asserts and the compiled-out IPv6 conversion are not modelled. RTStrToUInt16 and RTNetStrToIPv4Addr are function parameters. cbAddress is always INET6_ADDRSTRLEN (46). A read past the end of the string is an outcome flag, not a memory model.
- PortForward.PortForwardRule.ReadPairsAsWritten: requires cbRaw at least the number of characters left, the only case its caller produces.
- chardev.c: printk, module registration and the major number are not modelled. put_user is the sequence of bytes handed to the reader. The counter's signed overflow is modelled as 32-bit two's-complement wrap-around.
- unpack_extend.py: apiutil (the registry, the properties and the copyright banner) is a parameter; printing to stdout is the returned text.
- tstNtQueryStuff.cpp: the NtQueryVirtualMemory/NtQueryInformationProcess test bodies are OS calls and RTStrPrintf's general formatting is not modelled; only `BIT(%u)` is.

## Findings

| source | as written | input that shows it | evidently intended | confidence | as-written member | corrected member |
|---|---|---|---|---|---|---|
| vbox/src/VBox/HostServices/SharedOpenGL/crserverlib/server.h:33-36 | `offBuffer + cbBuffer <= g_cbVRam` is computed in 64 bits and wraps | offBuffer = 2^64 - 1, cbBuffer = 1, 16 MiB VRAM: the sum wraps to 0 and a pointer is returned (CrServer.HgsmiPtrGetWrapAccepts) | a pointer only when the whole buffer lies inside VRAM (proved by CrServer.HgsmiPtrGetInside) | not executed; high | CrServer.HgsmiPtrGetAsWritten | CrServer.HgsmiPtrGet |
| vbox/src/VBox/HostServices/SharedOpenGL/crserverlib/server.h:180-186 | `?:` binds looser than `&&`, so an invisible or empty mural takes the root-region branch | an invisible 0x0 mural with the root-region mode on and its root entry listed is reported as needing a present (CrServer.PresentNeededInvisible) | visibility and size checked for both entries (proved by CrServer.PresentNeededVersusAsWritten) | not executed; medium | CrServer.PresentNeededAsWritten | CrServer.PresentNeeded |
| vbox/src/VBox/HostDrivers/Support/testcase/tstNtQueryStuff.cpp:99 | `*pcbBuf += 1` for the space raises the free count | three one-letter appends into a 4-byte buffer all pass the size test and write "A B C" plus its NUL, 6 bytes (NtQueryStuff.AppendAsWrittenOverruns) | `*pcbBuf -= 1`: text and terminator stay inside the buffer (proved by NtQueryStuff.AppendStepStaysInside) | not executed; high | NtQueryStuff.AppendStepAsWritten | NtQueryStuff.AppendStep |
| vbox/src/VBox/HostServices/SharedOpenGL/crserverlib/server_window.c:216-233 | left/top are taken from the source's right/bottom and right/bottom from its left/top | a 10x10 rectangle inside a 100x100 window is reported as not intersecting (ServerWindow.TranslateIntersectAsWrittenMisses) | the intersection of the window and the rectangle (proved by ServerWindow.TranslateIntersect) | not executed; high | ServerWindow.TranslateIntersectRectAsWritten | ServerWindow.TranslateIntersect |
| vbox/src/VBox/NetworkServices/NetLib/VBoxNetPortForwardString.cpp:281-285 | `fTcpProto` is assigned the whole disjunction of the `tcp` and `udp` comparisons, so it is set for `udp` too | `r:udp:[]:80:[10.0.0.2]:8080` is read with IPPROTO_TCP (PortForward.ProtocolAsWritten, PortForward.PortForwardRule.FromStringAsWritten) | IPPROTO_UDP for `udp` (proved by PortForward.Protocol and PortForward.PortForwardRule.FromString) | not executed; high | PortForward.ProtocolAsWritten | PortForward.Protocol |
| vbox/src/VBox/NetworkServices/NetLib/VBoxNetPortForwardString.cpp:298-299 | a failing host pair returns VERR_INVALID_PARAMETER without the memset of the `invalid_parameter` exit | `rule:tcp::80:[10.0.0.2]:8080` fails with the name `rule` left in the rule (PortForward.PortForwardRule.FromStringAsWritten) | every failure leaves the rule all zero (proved by PortForward.PortForwardRule.FromString) | not executed; high | PortForward.PortForwardRule.FromStringAsWritten | PortForward.PortForwardRule.FromString |
| vbox/src/VBox/NetworkServices/NetLib/VBoxNetPortForwardString.cpp:270-292 | cbRaw loses one for the name's separator but never the name's length | `abcdefgh:tcp:[]:8080` passes the host pair with cbRaw still 8 at the end of the string, so the guest pair parser reads past the terminating NUL (PortForward.PortForwardRule.FromStringAsWritten) | cbRaw equal to the characters left, so the text is rejected without reading past it (proved by PortForward.PortForwardRule.FromString) | not executed; high | PortForward.PortForwardRule.ReadPairsAsWritten | PortForward.PortForwardRule.ReadPairs |
| vbox/src/VBox/HostServices/SharedOpenGL/crserverlib/server_window.c:680-686 | crServerVBoxCompositionPresentNeeded(mural) runs before `if (!mural) return;`, and it reads `mural->bVisible` (server.h:182) | any window id absent from the mural table, e.g. 7 on an empty table: the call dereferences NULL (ServerWindow.Server.VisibleRegionAsWritten faults exactly for unknown windows) | an unknown window is ignored (proved by ServerWindow.Server.VisibleRegion, whose frame is empty for it) | not executed; high | ServerWindow.Server.VisibleRegionAsWritten | ServerWindow.Server.VisibleRegion |
