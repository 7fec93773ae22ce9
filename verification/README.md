# TAI multiplexer and AC400 driver: model and proofs

This project models the two parts of the TAI library collection that hold the most state, and proves
what their callers rely on.

**The multiplexer (`tai_mux`).** One process-wide TAI library stands in front of several vendor
libraries. It hands out its own object ids (1 to 255), keeps for each the vendor's id and the library
it belongs to, rewrites every object id inside attribute values on the way in and out, and replaces
the host's notification handlers with contexts of its own. `MuxSpec.dfy` is the state machine: the
multiplexer's tables, the libraries behind it, one step per host call, and the libraries' answers as
parameters of the step. `OidAllocator.dfy`, `Buffers.dfy`, `PlatformAdapter.dfy` and `Platform.dfy`
are the classes, in the shape of the program - bitset, buffers that source and destination of a
translation may share, loops that stop half-way - each method proved to do what the state machine
says. The theorems are in `Translation.dfy` (one value), `MuxInvariants.dfy` (the tables),
`MuxNotifications.dfy` (contexts), `MuxTransparency.dfy` (set, anything, get) and `MuxLogs.dfy` (log
settings); `MuxOutcomes.dfy` says what each call comes to for the host and the libraries, without the
state machine's own functions.

**The AC400 driver (`tai_ac400`).** Some forty attributes of six interfaces per module are packed into
16-bit registers that are changed by read-modify-write; some registers may only be written while the
module is in low power or the lane is off, so setters bracket the write; a change of module state is
awaited with a capped exponential back-off. `Ac400Words.dfy` has the header's macros on words of bits,
`Ac400Layout.dfy` and `Ac400Store.dfy` the register map as an attribute store, `Ac400Registers.dfy`
what a set does to the registers in literal addresses, bits and codes, `Ac400Timing.dfy` the table of
transition times and the back-off, `Ac400Trace.dfy` the safety conditions on a trace of accesses,
`Ac400Device.dfy` and `Ac400Interfaces.dfy` the driver, `Ac400Strings.dfy` and `Ac400Presence.dfy`
string reads and the presence thread.

**Main results.** `MuxTransparency.Transparency` (what is set through the multiplexer is what is read
back, after any run that leaves it alone); `MuxNotifications.RunSafeIffClean` with
`AcceptedSafeIffClean` (the exact runs and requests in which no library is left holding a context that
was let go); `MuxOutcomes.NotifyDelivers`, `CreateInterface`, `CreateModule`, `RemovedIsGone` and
`LaterModuleShares` (what is delivered, made, removed and shared); `MuxInvariants.RunTablesAgree` and
`RunLinked` (the tables, whatever the libraries answer and with honest ones);
`Translation.NestedIsFlat` and `RoundTripIffOwned`; `MuxLogs.LiveObjectsCarrySettings`;
`Store.BankRefinesStore` with `Interfaces.RunOn` (the packed registers are a store with one cell per
attribute, over any calls, whichever fail); `Registers.PutWritten` (every set writes the bits the
header names, in their sense); `Device.Driver.SetGeneralMode` with `Interfaces.RunAll` and
`Trace.SafeWritesFindLowPower` (the bracket); `Device.Driver.WaitForState`;
`Timing.TableIsShortestPath`; `Presence.ModulePresence` with `EdgesAlternate`;
`Strings.PaddedReadsBackIff`.

**What is assumed of the world.** A vendor library is a state machine with an explicit contract,
`MuxInvariants.HonestRun`: a new object's id is not live in its library, a module with interfaces is
not removed (as `tai_sff/sff_fsm.cpp:88-103` has it), no library is handed the multiplexer's callback
but by the multiplexer, and new contexts are allocated at unused addresses. Removing an object removes
its handlers; metadata is a function of library, real id and attribute id. Results that need none of
this say so. For the AC400, registers change only by writes, a write that reports an error has not
landed, a module stays in the state its signals ask for once it is there, until a signal is driven
(any other state it may leave at any time), and which accesses fail, what the state register reads and
when the alarm is up are arbitrary functions of the number of accesses made (`Device.World`).

**Where the code does less than it seems to.**
- A `set` that names one notification attribute twice, null first and a handler last, installs the
  handler and then erases its context: `MuxNotifications.AcceptedSafeIffClean` gives the exact
  condition, `ClearThenInstallDangles` the request.
- Forward translation does not ask whether an id belongs to the object's library; the value comes back
  only if it does: `Translation.RoundTripIffOwned`, `ForeignIdComesBackAsAnother`.
- A location that changes its library can leave live modules of the old one out of later log settings:
  `MuxLogs.SettingUpToDateIff` says exactly when, `ChangedLocationMissesSetting` gives a run.
- A library that loads but fails to initialise stays resident, so a second creation that names it enters
  a null adapter for its location, and `set_log` dereferences it: `MuxLogs.SetLogReturns` says exactly
  when, `RetryListsNull` and `NullAdapterStopsSetLog` give the run.
- `get` shows a handler the library does not hold: one whose `set` the library rejected, or one set on
  an earlier object with the same id, whose entry removal leaves behind. `MuxTransparency.UnheldShown`
  gives the exact condition, `RejectedHandlerShown` and `StaleHandlerShown` the two cases.
- The setters take a module they read as in LOW_POWER to be settled there. It may be passing through,
  after an earlier change of state that did not complete: `Device.CallFindsLowPowerIff` gives the exact
  condition, `WriteInPassing` a run of the driver.
- A value refused inside the low-power bracket leaves it open: `Device.Driver.SetGeneralMode`,
  `RefusedRestoresLaneIff`, `RefusedRestoresModuleIff`, and `RefusedModulationLeavesLaneOff`.
- The comment over the transition table speaks of the shortest path
  (`tai_ac400/src/ac400_tai_utils.c:207-208`); from HIGH_POWER_UP the table allows 190 s to LOW_POWER
  although RESET first takes 20: `Timing.TableIsShortestPath`.
- Setters do not mask: a number too wide for its field does not read back and may change neighbouring
  attributes: `Store.ReadsBackIffFits` and `Layout.NeighbourKeptIff` say exactly when,
  `Store.WideChannelMovesGrid` gives an input.
- The string reader's result as a C string depends on NUL bytes and trailing spaces:
  `Strings.PaddedReadsBackIff`.

## Model

| member | source | states |
|---|---|---|
| OidAllocators.OIDAllocator.Next | tai_mux/platform_adapter.hpp:41-50 | Gives out the least free id of 1..255 and marks exactly it; fails, changing nothing, exactly when none is free. |
| OidAllocators.OIDAllocator.Release | tai_mux/platform_adapter.hpp:51-53 | Exactly the id becomes free. |
| Translation.Reverse | tai_mux/platform_adapter.hpp:83-90 | With any table, the least muxed id standing for the pair; null exactly if there is none. |
| PlatformAdapters.PlatformAdapter.GetReverseMapping | tai_mux/platform_adapter.hpp:83-90 | The walk in key order finds that least id. |
| PlatformAdapters.PlatformAdapter.CreateMapping | tai_mux/platform_adapter.hpp:92-97 | Table and bitset gain the same new id, or neither changes. |
| PlatformAdapters.PlatformAdapter.RemoveMapping | tai_mux/platform_adapter.hpp:99-106 | Table and bitset lose the id together; an unknown id changes nothing; contexts stay. |
| PlatformAdapters.PlatformAdapter.Convert | tai_mux/platform_adapter.cpp:64-73 | One id, in either direction, with null for an unknown one. |
| PlatformAdapters.PlatformAdapter.ConvertIdList | tai_mux/platform_adapter.cpp:82-89 | In place or into a copy: ids up to the first untranslatable one are written, that one null, the rest of the destination untouched. |
| PlatformAdapters.PlatformAdapter.ConvertEntryAt | tai_mux/platform_adapter.cpp:93-102 | One entry: key, then list, stopping at the first failure; other entries and all pointers untouched. |
| PlatformAdapters.PlatformAdapter.ConvertMapList | tai_mux/platform_adapter.cpp:90-104 | The doubly nested loop computes the same on one buffer as on two, and stops at the first bad entry. |
| PlatformAdapters.PlatformAdapter.ConvertNotification | tai_mux/platform_adapter.cpp:105-134 | Which context is made or rewritten, and what handler each side is shown. |
| PlatformAdapters.PlatformAdapter.ConvertIds | tai_mux/platform_adapter.cpp:75-104 | The id cases agree with the value-level translation whether or not source and destination are one attribute. |
| PlatformAdapters.PlatformAdapter.ConvertOid | tai_mux/platform_adapter.cpp:51-139 | Status, destination and contexts are those of the value-level conversion, in place or not. |
| PlatformAdapters.PlatformAdapter.ConvertCopy | tai_mux/platform_adapter.cpp:181-196 | One turn of the loop: copy, translation, and whether the key is to be erased. |
| PlatformAdapters.PlatformAdapter.ConvertAll | tai_mux/platform_adapter.cpp:176-197 | The loop over the request stops at the first failure, keeping the contexts made so far. |
| PlatformAdapters.PlatformAdapter.Erase | tai_mux/platform_adapter.cpp:204-206 | Exactly the collected keys go. |
| PlatformAdapters.PlatformAdapter.Set | tai_mux/platform_adapter.cpp:170-208 | The call is the state machine's step: contexts before the library call, erasure only after it accepted. |
| PlatformAdapters.PlatformAdapter.ConvertEach | tai_mux/platform_adapter.cpp:151-157 | The caller's attributes are translated where they are, up to the first that fails; the rest keep the library's values. |
| PlatformAdapters.PlatformAdapter.Get | tai_mux/platform_adapter.cpp:141-159 | Status and the contents of every caller buffer; no table changes. |
| PlatformAdapters.PlatformAdapter.Notify | tai_mux/platform_adapter.cpp:18-45 | Nothing for an unmapped id, else the registered handler, the muxed id and the translated attributes. |
| PlatformAdapters.PlatformAdapter.GetModuleAdapter | tai_mux/exec_platform_adapter.cpp:73-96 | One adapter per library handle; both maps and the loaded libraries after every outcome. |
| Platforms.Platform.InstallObject | tai_mux/mux.cpp:284-290 | Library call, mapping and insertion; when ids run out the library keeps its new object. |
| Platforms.Platform.ReplaySettings | tai_mux/mux.cpp:277-282 | Settings reach the adapter in ascending API order up to a refusal. |
| Platforms.Platform.Create | tai_mux/mux.cpp:45-87 | Status, id and whole new state for every type, parent, location and library answer, keeping the tables in agreement. |
| Platforms.Platform.Remove | tai_mux/mux.cpp:89-125 | Status and whole new state; a refusal changes nothing. |
| MuxInvariants.ObjectTypeIsLibrarys | tai_mux/mux.cpp:127-133 | What `get_object_type` answers is, for every mapped id, the type the library itself has for the live real object; the null type exactly for ids that are not mapped. |
| Platforms.Platform.GetModuleId | tai_mux/mux.cpp:135-159 | Itself for a module, the parent for an interface, null otherwise. |
| Platforms.Platform.SetLog | tai_mux/mux.cpp:161-175 | Sent in turn to what the locations map to, up to a refusal or a null adapter; recorded only if all accept. |
| Translation.ReverseOfTarget | tai_mux/platform_adapter.hpp:69-90 | On an injective table, looking up and looking back gives the id. |
| Translation.NestedIsFlat | tai_mux/platform_adapter.cpp:90-104 | The nested loop is the single loop over keys and ids in order: same stop, same result, any destination of the shape. |
| Translation.ValueIsFlat | tai_mux/platform_adapter.cpp:75-104 | Every value is translated slot by slot, and succeeds exactly if all its slots do. |
| Translation.TranslatedPrefix | tai_mux/platform_adapter.cpp:75-104 | After a failure exactly a prefix in traversal order is translated, the failing slot is null, the rest is as before. |
| Translation.ReverseConfined | tai_mux/platform_adapter.cpp:64-104 | After a successful reverse translation every id is a mapped id of the adapter asked. |
| Translation.ValueRoundTrip | tai_mux/platform_adapter.cpp:64-104 | Forward then reverse is the identity on values whose ids the object's adapter owns, nested ones included. |
| Translation.RoundTripIffOwned | tai_mux/platform_adapter.cpp:64-104 | A translatable value comes back exactly if every id in it is of the object's adapter. |
| Translation.ForeignIdComesBackAsAnother | tai_mux/platform_adapter.cpp:68-72 | An input where it does not: with one real id in two libraries, an id of the second comes back as an id of the first, with no error. |
| MuxOutcomes.ReverseRenders | tai_mux/platform_adapter.cpp:64-104 | Reverse translation succeeds exactly if every id in the value is the real id of a mapped object of the library, and then puts its muxed id in its place and changes nothing else. |
| MuxOutcomes.RendersUnique | tai_mux/platform_adapter.cpp:64-104 | With no pair mapped twice, that determines the host's value. |
| MuxOutcomes.ForwardSends | tai_mux/platform_adapter.cpp:64-104 | Forward translation succeeds exactly if every id is mapped and its real id not null, and then puts the real id in its place. |
| MuxInvariants.StepTablesAgree | tai_mux/mux.cpp:45-125 | Every call keeps object table, id table and bitset the same subset of 1..255, each object filed under its id and pair. |
| MuxInvariants.RunTablesAgree | tai_mux/mux.cpp:45-125 | So does every run, failed calls and dishonest libraries included. |
| MuxInvariants.CreateOutcome | tai_mux/mux.cpp:79-86 | ITEM_ALREADY_EXISTS never happens, the id is fresh, never 0 and least; an accepted creation fails exactly at 255 live objects. |
| MuxOutcomes.CreateInterface | tai_mux/mux.cpp:45-87 | An interface is made if and only if the parent is a live module, its library accepts and fewer than 255 objects live: of the type asked for, under the parent, in its library as in the tables; each refusal has its status and changes nothing; at 255 the library is left with its object. |
| MuxOutcomes.CreateModule | tai_mux/mux.cpp:267-294 | A module is made if and only if the location leads to a library, which accepts every recorded setting and the creation, and fewer than 255 objects live; in that library, of type module; and the statuses of the failures. |
| MuxOutcomes.CreateRefusals | tai_mux/mux.cpp:45-62 | A module without a location and an unknown type are refused with nothing changed. |
| MuxOutcomes.RemovedIsGone | tai_mux/mux.cpp:89-125 | A removed object is in no table and not in its library, its id is free and no lookup leads to it; nothing else is touched. |
| MuxOutcomes.RemoveRefusals | tai_mux/mux.cpp:89-121 | An unknown object and a refused removal change nothing, with their statuses. |
| MuxOutcomes.FirstModuleLoads | tai_mux/exec_platform_adapter.cpp:84-96 | A library not resident gets an adapter of its own if it loads, entered for the location; if it does not, the creation fails and no adapter is made. |
| MuxOutcomes.RunHandles | tai_mux/exec_platform_adapter.cpp:84-96 | Over every run a library keeps the adapter it was given, and no two libraries have the same. |
| MuxOutcomes.LaterModuleShares | tai_mux/exec_platform_adapter.cpp:91-96 | After any honest run, a module made at a location that leads to a library in use lands in that library's adapter, and nothing is loaded. |
| MuxInvariants.UsedCount | tai_mux/platform_adapter.hpp:37-50 | At most 255 ids are in use and the allocator throws exactly then. |
| MuxInvariants.CreateLinked | tai_mux/mux.cpp:267-332 | A creation keeps pairs injective and live, and parents live modules of the same adapter. |
| MuxInvariants.RemoveLinked | tai_mux/mux.cpp:89-125 | So does a removal, given that libraries do not remove a module with interfaces. |
| MuxInvariants.RunLinked | tai_mux/mux.cpp:45-175 | Over every honest run, id reuse included. |
| MuxInvariants.LookupsAreInverse | tai_mux/platform_adapter.hpp:69-90 | The two lookups are inverse between live ids and their pairs, and a pair of no live object has no id. |
| MuxInvariants.ModuleIdIsLiveModule | tai_mux/mux.cpp:135-159 | The answer is a live module of the same adapter, the one under which the library has the object; null exactly for unknown ids. |
| MuxNotifications.ConvertRequestOk | tai_mux/platform_adapter.cpp:180-197 | However far the loop gets: contexts carry their key's id, keep their addresses and are touched only under the request's keys; each input holds the right context. |
| MuxNotifications.AcceptedHolds | tai_mux/platform_adapter.cpp:170-208 | After an accepted request, a context the library holds was entered before the erasure, and its attribute ended in a handler if the request named it. |
| MuxNotifications.AcceptedSafeIffClean | tai_mux/platform_adapter.cpp:194-206 | An accepted request leaves no dangling context if and only if no attribute it nulls ends up with a handler. |
| MuxNotifications.DistinctIsClean | tai_mux/platform_adapter.cpp:194-206 | A request that names no attribute twice meets the condition. |
| MuxNotifications.ClearThenInstallIsNotClean | tai_mux/platform_adapter.cpp:194-206 | The request that clears a handler and then installs one does not. |
| MuxNotifications.ClearThenInstallDangles | tai_mux/platform_adapter.cpp:170-208 | In any safe state that request succeeds when the library accepts it, and leaves the library a context that is gone. |
| MuxNotifications.FailedSafe | tai_mux/platform_adapter.cpp:189-202 | A failed request is always safe, whatever part the library stored. |
| MuxNotifications.RemoveSafe | tai_mux/mux.cpp:89-125 | Removal leaves context entries behind, and no live object without its own. |
| MuxNotifications.StepSafe | tai_mux/platform_adapter.cpp:105-134 | Every call keeps each held context the entry under its object's key. |
| MuxNotifications.RunSafe | tai_mux/platform_adapter.cpp:105-208 | So does every honest run of clean requests, across id reuse. |
| MuxNotifications.RunSafeIffClean | tai_mux/platform_adapter.cpp:105-208 | Over honest runs, no library holds a dangling context at any point if and only if every accepted request is clean. |
| MuxNotifications.InitialSafe | tai_mux/mux.cpp:29-43 | The initial state is safe, and so linked, so the results over runs apply from start-up. |
| MuxNotifications.ShownInOrder | tai_mux/platform_adapter.cpp:26-40 | The delivered list is built attribute by attribute in order, each skipped or kept on its own. |
| MuxOutcomes.NotifyOneMore | tai_mux/platform_adapter.cpp:18-45 | Each attribute of a notification is delivered in its turn, as the host knows it, or skipped exactly if its metadata is unknown or an id in it is not the real id of a live object of the library. |
| MuxOutcomes.NotifyDelivers | tai_mux/platform_adapter.cpp:18-45 | If the library sends, for known attributes, the host's values in its own ids, exactly those values are delivered, all and in order. |
| MuxNotifications.NotificationReachesHost | tai_mux/platform_adapter.cpp:8-45 | In a safe state a held address is one context, the entry under the object's own key; the call goes to the host handler kept there, under the object's muxed id, showing only live ids of its adapter. |
| MuxTransparency.RunSound | tai_mux/mux.cpp:45-175 | Every honest run keeps the state in which transparency holds, clean requests or not. |
| MuxOutcomes.SetOutcome | tai_mux/platform_adapter.cpp:170-208 | A set fails, without calling the library, exactly for an unknown id, an unknown attribute or an id with no real one; else the answer is the library's. |
| MuxOutcomes.FailedSetEnters | tai_mux/platform_adapter.cpp:180-197 | A request that fails half-way has entered the contexts of the handlers before the failing attribute. |
| MuxOutcomes.SetStoresRealIds | tai_mux/platform_adapter.cpp:170-208 | After an accepted set the library holds the last value given, with the real id in the place of every id, nested ones included. |
| MuxOutcomes.SetEntersContext | tai_mux/platform_adapter.cpp:117-134 | For a handler it has entered a context with the handler, the object's muxed id and its type. |
| MuxOutcomes.GetOutcome | tai_mux/platform_adapter.cpp:141-159 | A get fails for an unknown id, passes on a refusal, and else succeeds exactly if every attribute is known and every id in it is of a live object of the library, showing the muxed ids and the handlers kept. |
| MuxOutcomes.GetStopsAt | tai_mux/platform_adapter.cpp:151-157 | Where it stops, the attributes before are translated and those after are as the library left them. |
| MuxTransparency.StepFrame | tai_mux/platform_adapter.cpp:170-208 | A call that does not name the attribute or remove the object leaves its entry, context and stored value alone. |
| MuxTransparency.SetCarries | tai_mux/platform_adapter.cpp:170-208 | After a successful set the library holds the translation of the last value given, with all needed to translate it back. |
| MuxTransparency.RunCarries | tai_mux/mux.cpp:45-175 | Any run that leaves the attribute and its ids alone keeps that. |
| MuxTransparency.Transparency | tai_mux/platform_adapter.cpp:141-208 | A successful set, any such run, a successful get: the host reads its original value, plain, id, list, nested list or handler. |
| MuxTransparency.GetSucceeds | tai_mux/platform_adapter.cpp:141-159 | A get of attributes that are all carried cannot fail in the multiplexer, and shows all their values. |
| MuxTransparency.TransparencyAlone | tai_mux/platform_adapter.cpp:141-208 | For a request of that attribute alone, success of the get follows from the library's answer. |
| MuxTransparency.CallbackCallsSetHandler | tai_mux/platform_adapter.cpp:8-134 | After a successful set of a handler and any run that leaves it alone, the library holds exactly one context for the attribute, and a callback with it calls that very handler under the object's muxed id. |
| MuxTransparency.GetConfined | tai_mux/platform_adapter.cpp:141-159 | Whatever the library answers, a successful get shows only live muxed ids of the queried object's adapter. |
| MuxTransparency.UnheldShown | tai_mux/platform_adapter.cpp:105-116 | If the library answers that it has no handler, a successful get shows none if and only if no context is entered under the attribute, else the handler kept there. |
| MuxTransparency.RejectedHandlerShown | tai_mux/platform_adapter.cpp:197-202 | So a handler whose set the library rejected, storing nothing, is shown as if it had been accepted. |
| MuxTransparency.RunKeepsEntry | tai_mux/platform_adapter.hpp:99-106 | No run of calls but a set that names the attribute changes or erases an entry, removal of the object included. |
| MuxTransparency.StaleHandlerShown | tai_mux/platform_adapter.hpp:99-106 | After any run that does not set the attribute, removal and reuse of the id included, a handler entered before it is shown for the object that has the id then, if its library has none. |
| MuxLogs.ReplayCarries | tai_mux/mux.cpp:277-282 | An accepting adapter ends up with all recorded settings over its own, others untouched. |
| MuxOutcomes.ReplayStopsAt | tai_mux/mux.cpp:277-282 | A refused replay has sent exactly the settings before the refused one, in ascending order. |
| MuxOutcomes.ReplayAccepted | tai_mux/mux.cpp:277-282 | The replay succeeds if and only if the library accepts every recorded setting. |
| MuxLogs.BroadcastCarries | tai_mux/mux.cpp:166-172 | Exactly the listed adapters get the setting; the walk returns exactly if it meets no null adapter. |
| MuxOutcomes.BroadcastStopsAt | tai_mux/mux.cpp:166-172 | A walk that stops at a refusal or a null adapter has sent the setting to exactly the adapters before. |
| MuxOutcomes.SetLogOutcome | tai_mux/mux.cpp:161-175 | A setting is recorded if and only if the logger and every adapter accept it; a refusing logger changes nothing; no table changes in any case. |
| MuxLogs.SetLogReturns | tai_mux/mux.cpp:161-175 | With accepting libraries the call returns success exactly if no location maps to a null adapter. |
| MuxLogs.RetryListsNull | tai_mux/exec_platform_adapter.cpp:73-96 | From any state, creating twice at a location whose library loads but fails to initialise ends with a failure and a null adapter entered for the location, whatever the library would answer the second time. |
| MuxLogs.NullAdapterStopsSetLog | tai_mux/mux.cpp:166-172 | A concrete run from the start after which a log setting meets the null adapter. |
| MuxLogs.ModuleLogs | tai_mux/mux.cpp:272-282 | The replay brings the adapter of the location up to date, newly loaded or shared, and touches no other. |
| MuxLogs.CreateLogs | tai_mux/mux.cpp:45-87 | A creation with accepting libraries leaves every library with a live object up to date, whatever the location does. |
| MuxLogs.SettingUpToDateIff | tai_mux/mux.cpp:161-175 | A new setting leaves every library with a live object up to date if and only if each is still under some location or the setting is the recorded one. |
| MuxLogs.RunLogs | tai_mux/mux.cpp:161-175 | Over runs with accepting libraries, all of them are up to date after every call if and only if that holds at each new setting. |
| MuxLogs.LiveObjectsCarrySettings | tai_mux/mux.cpp:161-175 | The same from the initial state: each adapter with a live object carries exactly the recorded settings, whichever came first. |
| MuxLogs.ChangedLocationMissesSetting | tai_mux/exec_platform_adapter.cpp:94-94 | A concrete run in which a location changes its library and a live module misses a setting. |
| Words.MaskBits | tai_ac400/inc/ac400.h:15-16 | GENMASK(h, l) has exactly the bits l to h, for every 16-bit field. |
| Words.GetBits | tai_ac400/inc/ac400.h:27-28 | Which bits of a word AC400_GET_FIELD isolates, and where they land. |
| Words.PutBits | tai_ac400/inc/ac400.h:40-41 | Every bit of what AC400_PUT_FIELD gives, for values of any width. |
| Words.GetPut | tai_ac400/inc/ac400.h:27-41 | A value is read back exactly if it is below two to the field's width. |
| Words.GetPutOther | tai_ac400/inc/ac400.h:27-41 | A fitting value moves no disjoint field. |
| Words.PutBack | tai_ac400/inc/ac400.h:27-41 | Writing a field's old contents back restores the word. |
| Words.DigitsAt | tai_ac400/inc/ac400.h:27-41 | The bits of a stored number are those of the number, by division. |
| Words.LowDigits | tai_ac400/inc/ac400.h:27-41 | The low bits of a word are its remainder. |
| Words.BitOps | tai_ac400/inc/ac400.h:51-64 | The bit macros, built from their shifts and masks, read and write one bit, and are the one-bit fields. |
| Layout.SlotsApart | tai_ac400/inc/ac400.h:452-590 | No two settable attributes of a module share a bit. |
| Layout.PutLook | tai_ac400/src/ac400_tai_hostif.c:162-378 | One fitting register write shows in its own attribute and in no other. |
| Layout.NeighbourKeptIff | tai_ac400/inc/ac400.h:40-41 | A write leaves another attribute alone in every bank if and only if no set bit of the value, moved to its field, lands in the other's. |
| Registers.PutWritten | tai_ac400/inc/ac400.h:452-590 | For every settable attribute of both interfaces and the network mode, in literal addresses, bits and codes: which bits an accepted set writes, in which sense (the FEC, transmit and differential bits are disable bits), what a number too wide does, and that nothing else changes. |
| Registers.RefusedValues | tai_ac400/src/ac400_tai_hostif.c:171-180 | A value is refused exactly if it is an enumeration's value that has no code. |
| Registers.UnknownCodes | tai_ac400/src/ac400_tai_networkif.c:400-422 | A code that no value has is shown as the unknown value, an unknown rate not at all. |
| Store.ReadsBackIffFits | tai_ac400/src/ac400_tai_hostif.c:354-378 | An accepted set reads back exactly if the number fits its field, or the frequency is whole MHz below 65536. |
| Store.WideChannelMovesGrid | tai_ac400/src/ac400_tai_networkif.c:1415-1420 | An input where it does not fit: channel 0x2000 is accepted, reads back as 0, and moves the grid spacing from 100 to 50 GHz. |
| Store.PutOneShown | tai_ac400/src/ac400_tai_networkif.c:254-278 | One accepted set changes what one attribute shows. |
| Store.BankRefinesStore | tai_ac400/src/ac400_tai_hostif.c:162-378 | After any sequence of accepted sets on both modules every attribute shows the last value set, or what it showed before. |
| Timing.TableIsShortestPath | tai_ac400/src/ac400_tai_utils.c:203-243 | For paths of any length through settable states the table's entry is at most the path's time, exactly if the start is not HIGH_POWER_UP. |
| Timing.TableIsLadder | tai_ac400/src/ac400_tai_utils.c:203-243 | In seconds: every time looked up is that to settle and then to go up or down the ladder reset - low power - transmitters off - ready in steps of 20, 180 and 1 up, 1 and 10 down. |
| Timing.SleepClosed | tai_ac400/src/ac400_tai_module.c:317-318 | The sleep before poll k is 25 * 2^(k-1), capped at half a second from the sixteenth. |
| Timing.SleptClosed | tai_ac400/src/ac400_tai_module.c:308-328 | After k polls the loop has slept 25 * (2^k - 2) microseconds for k up to 15, and 819150 + 500000 * (k - 15) beyond. |
| Trace.PinsTell | tai_ac400/src/ac400_tai_module.c:262-274 | Which of the four pins each settable state has; no two states have the same. |
| Trace.InStateIsState | tai_ac400/src/ac400_tai_module.c:205-230 | A module last seen in the state its signals ask for, no signal driven since, is in it, if only settled states persist. |
| Trace.SurelyInIff | tai_ac400/src/ac400_tai_module.c:205-230 | The converse too: in no other case does what the driver has seen and done settle which state the module is in. |
| Trace.SafeWritesFindLowPower | tai_ac400/src/ac400_tai_networkif.c:762-764 | In a safe trace a general-mode write of an independent module finds the lane off; that of a coupled one, and every mode write, finds the module surely in low power exactly if the signals in force ask for it. |
| Trace.BracketFindsLowPowerIff | tai_ac400/src/ac400_tai_networkif.c:787-796 | In terms of the call: exactly if the first status read was not LOW_POWER, or the signals at the call asked for low power. |
| Trace.LowPowerInPassing | tai_ac400/src/ac400_tai_networkif.c:793-796 | Where it was, and the signals ask for READY: the module may have been passing through, and the write then finds it in HIGH_POWER_UP. |
| Device.TopBit | tai_ac400/src/ac400_tai_module.c:206-227 | The highest of the nine state bits gives the status, in the order of the bits. |
| Device.Driver.GetModuleOperStatus | tai_ac400/src/ac400_tai_module.c:190-231 | RESET if the reset signal is up, else the state of the highest bit set, unknown with none; fails exactly if an access does. |
| Device.Driver.DriveAll | tai_ac400/src/ac400_tai_module.c:276-288 | Reset, low power and the two transmit disables in that order: the events and signals after each number of them, a failing one leaving the signals as they were. |
| Device.Driver.WaitForAlarm | tai_ac400/src/ac400_tai_module.c:293-305 | Stops at the first look that finds the alarm, else after a hundred looks and twenty seconds. |
| Device.Driver.WaitForState | tai_ac400/src/ac400_tai_module.c:308-330 | Terminates for every device; succeeds at the first poll that sees the state; exact sleep after the polls made; a time-out has slept at least the budget and less than half a second more, with no budget it has polled once. |
| Device.Driver.SetModuleOperStatus | tai_ac400/src/ac400_tai_module.c:242-331 | On success the module was last seen in the settable state asked for, its four pins are that state's, and coming out of reset the alarm was seen; it fails only on a failing access or with its time used up; refused exactly for a state that cannot be asked for. |
| Device.GivesUpAfter | tai_ac400/src/ac400_tai_module.c:290-328 | In seconds: a change given up was given the time of the table and at most half a second more (from READY to LOW_POWER 11), a module in reset also twenty for the alarm, or just those. |
| Device.Driver.GetNetworkMode | tai_ac400/src/ac400_tai_module.c:342-365 | The mode in the setup register, independent with both low bits clear, coupled with just the lowest set. |
| Device.Driver.SetNetworkMode | tai_ac400/src/ac400_tai_module.c:375-417 | Written only once the module was seen in low power, and under which signals; the first event is a look at the module; on success the register holds the mode and the module is back in its prior state, which was settable; a failure leaves the register old or written, nothing else, and takes a failing access or a change of state that did not come about in time. |
| Device.Driver.GetMasterEnable | tai_ac400/src/ac400_tai_networkif.c:666-680 | The lane's own bit of register 0x9018. |
| Device.Driver.SetMasterEnable | tai_ac400/src/ac400_tai_networkif.c:690-717 | That bit only; the module's state is not affected. |
| Device.Driver.MoveToLowPower | tai_ac400/src/ac400_tai_networkif.c:772-810 | On success the lane may be written: module seen in low power if coupled, else lane off; what was saved, the signals in force and the bank; on failure no register changed, and an access failed or the module did not get to low power in time. |
| Device.Driver.RestoreFromLowPower | tai_ac400/src/ac400_tai_networkif.c:825-851 | Puts back the saved module state with its signals, or the saved enable; a failure changes no register and takes a failing access, a state that cannot be asked for, or one not reached in time. |
| Device.Driver.SetGeneralMode | tai_ac400/src/ac400_tai_networkif.c:861-1088 | Modulation, differential and FEC-mode setters: every write in the trace allowed, and under which signals; a coupled module is looked at first; on success the bank is the old one with just the field replaced, and module, signals or enable are as before; after a refused value the bracket is left open; after any other failure the bank is one of three, and an access failed or a change of state did not come about. |
| Device.CallFindsLowPowerIff | tai_ac400/src/ac400_tai_networkif.c:787-796 | What the contracts of the mode change and of the setters on a coupled module mean for the module: a guarded write of the call finds it surely in low power if and only if the call first read another state or the signals at the call asked for low power. |
| Device.RefusedRestoresLaneIff | tai_ac400/src/ac400_tai_networkif.c:889-891 | After a refused value the lane is off, so its enable is as before exactly if it was off; the other lane's is untouched. |
| Device.RefusedRestoresModuleIff | tai_ac400/src/ac400_tai_networkif.c:889-891 | A coupled module left in low power is back in its state exactly if it was seen there to begin with. |
| Device.RefusedModulationLeavesLaneOff | tai_ac400/src/ac400_tai_networkif.c:889-891 | An input that is left so: modulation UNKNOWN on an enabled lane of an independent module, no access failing. |
| Device.WriteInPassing | tai_ac400/src/ac400_tai_networkif.c:787-796 | A run of the driver that makes that trace: a coupled module whose signals ask for READY is read as in LOW_POWER, nothing is driven, the register is written and the call succeeds. |
| Device.EnablePutBack | tai_ac400/src/ac400_tai_networkif.c:798-850 | Lane off, a write elsewhere, lane on: only the write remains. |
| Interfaces.SetField | tai_ac400/src/ac400_tai_hostif.c:354-378 | Read-modify-write of one field, or no change on a failing access. |
| Interfaces.SetBit | tai_ac400/src/ac400_tai_hostif.c:262-299 | The same for one bit. |
| Interfaces.GetFieldAt | tai_ac400/src/ac400_tai_hostif.c:317-336 | The field of the register, failing exactly with the read. |
| Interfaces.SetHostAttribute | tai_ac400/src/ac400_tai_hostif.c:531-614 | Exact status and bank for settable, read-only, index and unknown attributes; on success the register written in literal address, bits and sense. |
| Interfaces.GetHostAttribute | tai_ac400/src/ac400_tai_hostif.c:388-495 | The getters of settable attributes show what the store shows; an unknown rate code fails. |
| Interfaces.SetHostAttributes | tai_ac400/src/ac400_tai_hostif.c:625-640 | The entries before the first failing one are applied, in order, and nothing else; a refusal names the index. |
| Interfaces.SetGridSpacing | tai_ac400/src/ac400_tai_networkif.c:432-476 | Fails for an unknown spacing or a failing access, else replaces the three bits. |
| Interfaces.SetNetField | tai_ac400/src/ac400_tai_networkif.c:346-1088 | On success just the attribute's field changed; failures outside the bracket change nothing, and each kind of failure has its cause. |
| Interfaces.SetNetAttribute | tai_ac400/src/ac400_tai_networkif.c:1379-1461 | Dispatch: status and bank for every kind of attribute; on success the register written in literal address, bits and sense, the inverted clear-counters bit included. |
| Interfaces.GetNetAttribute | tai_ac400/src/ac400_tai_networkif.c:1237-1343 | The getters of settable attributes show what the store shows. |
| Interfaces.SetNetAttributes | tai_ac400/src/ac400_tai_networkif.c:1472-1487 | The entries before the first failing one are applied, in order, and that one leaves the bank unchanged or as an interrupted bracket does; every guarded write was allowed however the list ends. |
| Interfaces.InterruptedShows | tai_ac400/src/ac400_tai_networkif.c:861-902 | What an interrupted bracket leaves moves no attribute but the one set and the lane's enable. |
| Interfaces.Execute | tai_ac400/src/ac400_tai_networkif.c:1379-1461 | Any one call: a set that succeeds is one cell of the store, a call that sets no stored attribute moves none, a failing one moves only what it touches; a set of a value with a code fails only with an access or a change of the module's state. |
| Interfaces.RunAll | tai_ac400/src/ac400_tai_networkif.c:772-1088 | No run of calls, whatever fails in it, ever makes a guarded write that is not allowed. |
| Interfaces.RunOn | tai_ac400/src/ac400_tai_networkif.c:1379-1461 | Any run of fitting calls, whichever of them fail: every attribute of both modules that no failing call touches shows the last value set by the calls that succeeded; each failure has its cause. |
| Interfaces.RunSets | tai_ac400/src/ac400_tai_networkif.c:1379-1461 | The run up to the first call that fails, index, clear-counters and operating-state calls included: every attribute that call does not touch shows the last value set before it. |
| Strings.GetString | tai_ac400/src/ac400_tai_utils.c:158-188 | Needs a buffer larger than the field; writes within length + 1; leaves the bytes without exactly the trailing spaces, then NUL; after a failing read, the bytes read so far and the rest as before. |
| Strings.BytesAreRemainders | tai_ac400/src/ac400_tai_utils.c:168-176 | Each character is its register's number modulo 256. |
| Strings.StrippedPadding | tai_ac400/src/ac400_tai_utils.c:177-186 | Padding with spaces does not change what is left. |
| Strings.PaddedReadsBackIff | tai_ac400/src/ac400_tai_utils.c:158-188 | A string written space-padded is read back exactly if it has no NUL and no trailing space. |
| Presence.Visit | tai_ac400/src/ac400_tai_interface.c:47-59 | One pass: each module's flag follows its reading, with one call exactly when it changes, and no call about anything else. |
| Presence.LastReadingIs | tai_ac400/src/ac400_tai_interface.c:41-57 | The state kept is the last successful reading, absent before the first. |
| Presence.ModulePresence | tai_ac400/src/ac400_tai_interface.c:32-63 | The calls about each module are one for each successful reading that differs from the last successful one; there are no others. |
| Presence.EdgesAlternate | tai_ac400/src/ac400_tai_interface.c:41-57 | For any readings and failures those calls alternate starting with present, and leave the host with the last successful reading. |

## Left out

- Vendor libraries: their answers (status, new ids, stored and returned values) are parameters; the contract on them is `MuxInvariants.HonestRun`, and `MuxTransparency.HonestGet` for reads.
- Attribute values carry a tag where the C union has none; a value whose tag does not match its metadata type passes through unchanged. `Attribute` and the framework's base classes are not part of this model: copies are deep, `m_objects` is a map, and attribute calls come in through a live object with its type.
- Notification contexts are map entries with an address rather than heap objects; their mutex, shared ownership and the null checks of the callback are not modelled. Each call and each notification is one atomic step.
- PlatformAdapters.PlatformAdapter.Get: the library's values arrive in fresh buffers put into the caller's attributes, because who owns the caller's buffers before the call plays no part.
- `MuxObject` is a value: a `Module`, `NetIf` or `HostIf` is never changed after its constructor.
- Finding the location attribute in a request (`find_attribute_in_list`) is the `location` parameter of `Create`.
- `StaticPlatformAdapter`, running the script, `dlopen` and JSON loading: the answers are parameters, and adapters are numbered by load order.
- Platforms.Platform.SetLog: does not say what happens after the null dereference, which the source leaves undefined; the walk over the unordered set is given by a parameter that lists exactly what the locations map to.
- Metadata queries, capabilities and the multiplexer's own attributes (which expose real ids on purpose).
- `tai_sff`, `module_adapter` dispatch, sysfs and MDIO file access, logging text.
- AC400 interface ids and the `hostif_info` and `netif_info` arrays: an interface is named by module and index; creation and removal of modules and interfaces are left out.
- Floating-point attributes (output power among them), laser frequency reads, bit-error rates, FEC counts and the other read-only attributes: they would add only easy members.
- The clear-FEC-counters attribute is a write only: it stores the negation of what its getter shows, so it has no round trip.
- List reads of the interfaces; the getters are modelled one attribute at a time.
- The bound test of the transition table lets one value past the last state through (`tai_ac400/src/ac400_tai_utils.c:237-238`); the enumeration type has no such value.
- The presence thread is modelled with the host's function registered; its half-second pause is not.
