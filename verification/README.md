# Verified model of the keyboard firmware core

A Dafny 4.11 model of the state machines and data layouts at the heart of the Vial/QMK
keyboard firmware, with machine-checked properties of every run. Each part comes twice where
the source updates state in place: as functions on values, about which the properties are
proved, and as a class whose methods follow the C (or Python) code statement by statement and
are proved to compute those functions.

| files | part | source |
|---|---|---|
| `TappingSpec`, `TappingProofs`, `TappingTaps`, `TappingDecisions`, `TappingRing` | tap/hold resolver over an 8-slot ring | `quantum/action_tapping.c` |
| `DeferredSpec`, `DeferredProofs`, `DeferredTiming`, `DeferredTable` | deferred executor: token allocation, timing | `quantum/deferred_exec.c` |
| `LayerCache` | layer resolution, bit-sliced source-layer cache and its two clients | `quantum/action_layer.c`, `quantum/quantum.c` |
| `ActionCode`, `ActionReport`, `ActionLayers` | keycode, packed action code, effect on the keyboard report and the layers | `quantum/keymap_common.c`, `quantum/action_code.h`, `quantum/action.c` |
| `EepromLayout`, `Eeprom`, `EepromDevice` | EEPROM regions, accessors, locked writes, crash-safe initialisation | `quantum/dynamic_keymap.c`, `quantum/via.c`, `quantum/qmk_settings.c` |
| `EepromPages` | page-split writes | `drivers/eeprom/*.c` |
| `MacroPlayer` | macro byte code | `quantum/dynamic_keymap.c` |
| `DynamicMacro` | two-ended macro recorder | `quantum/dynamic_macro.h` |
| `MatrixScan` | matrix change detection, ghosting | `quantum/keyboard.c` |
| `VialUnlock` | unlock protocol | `quantum/vial.c` |
| `TapDance`, `TapDanceKeys` | tap dances | `quantum/vial.c`, `quantum/process_keycode/process_tap_dance.c` |
| `Uf2` | UF2 encoder and decoder (UF2 File Format Specification, section "File format") | `util/uf2conv.py` |
| `Timer` | wrapping clocks | `platforms/timer.h` |
| `Masks` | bit masks as sets of bits | shared by `ActionReport` and `ActionLayers` |
| `Basics` | bytes, byte images, division with remainder | shared by the others |

`dafny verify dfyconfig.toml` checks everything.

## Conventions

- Clocks, the rest of the firmware and the user are parameters. In the tapping model every
  answer the code asks for (tapping terms, whether a key is a tap key, the hold options) is an
  arbitrary value chosen anew for each call, so the properties hold for all of them. Callbacks of
  the deferred executor may do anything to their own table through its API.
- C integer widths are explicit: 16- and 32-bit clocks wrap, tokens and tap-dance counters are
  8 bits wide, the tap counter 4, action codes and layer states are bit vectors.
- Fields that exist for the proof only (what was emitted, written or lost, and what each call of
  `process_tapping` was given) are the traces the properties speak about.
- Rows of the key matrix are sets of columns; `PopcountOnRow` and `AndShows` justify
  the word operations of the code.

## What the proofs found

Properties that hold only under a condition are stated with exactly that condition:

- A callback that cancels and re-queues itself is recognised by its changed token. All tables
  share one token counter, so the same token can come back; then the new entry is thrown away
  or put off (`RequeueDetected`, `RequeueCanBeLost`).
- The zero byte checked at the end of the macro buffer does not keep the search for a macro
  inside the buffer: with exactly as many zero bytes as the macro's number the search ends right
  behind it (`FindStaysInside`); the comment in `dynamic_keymap_macro_send` claims otherwise. A macro
  that breaks off inside a token makes the player read past its terminator
  (`StopsExactlyWhenComplete`).
- `LM()` with right-hand modifiers switches the next layer up unless the layer is odd
  (`LayerModPreserved`). `LT()` with a tap keycode from 0xF0 to 0xF4 is executed as a layer
  operation, `MT()` with tap keycode 0 or 1 as a one-shot or tap-toggle modifier; the lemmas say
  exactly when that comes to the same (`LayerTapPreserved`, `ModTapPreserved`).
- The I2C driver computes the device address once per block, so a block that crosses to the next
  device address wraps around in the first (`FlatExactlyInsideBank`).
- The crash safety of `eeconfig_init_via` rests on the build ID never being 0xFFFFFF (`CrashSafe`);
  `util/build_id.py:5` never draws it.
- Storing another tap-dance entry while the dance holds a key leaves a key down or sends a stray
  release unless both entries give the phase the same key (`ChangedWhileHeld`). The 8-bit tap
  counter loses one tap per wrap (`PlainTapsPassThrough`).
- A release that waits from before can make a tap of a later press of its key. With one term for
  all keys, fixed options and keys pressed and released in turn, that happens to a release and a
  press exactly when the 16-bit clock puts the release less than the term after the press
  (`StaleReleaseTaps`): both in the same millisecond, or, the release still waiting, the press
  almost a wrap of the clock later or more (`StaleInRealTime`; eight late ticks leave nothing
  waiting, `LateTicksFlush`). Every other tap has its release after it (`TapsAreTaps`).
- A release that decides a tap dance early clears `active_td`, whichever dance that names. A key
  that rolls from such a dance to another makes the code forget the second, and its tap is never
  sent (`EarlyReleaseForgets`, `RolledTap`).
- In `util/uf2conv.py` the messages for bad blocks add a number to a string, so a block with bad
  magic raises where it was to be skipped: the decoder agrees with a skipping one exactly when no
  block has bad magic or the file is refused anyway (`SkipsAsAnnounced`, `ZeroBlockFails`).

## Model

| member | source | states |
|---|---|---|
| Timer.Diff16NeverExceedsReal | platforms/timer.h:27-31 | the 16-bit difference of two real instants never exceeds the time between them, and is exact below one wrap |
| Timer.SignedDiff32Exact | platforms/timer.h:27-31 | the signed 32-bit difference recovers the real one below half a wrap, across any number of wraps |
| TappingProofs.StepAccounted | quantum/action_tapping.c:166-433 | one call of process_tapping neither loses nor duplicates an event: input and held-back press equal emissions, held-back press and what is still to be queued |
| TappingProofs.StepMarks | quantum/action_tapping.c:494-521 | a call marks waiting releases only, with count 1, and changes a record only in its tap state |
| TappingProofs.AcceptConserves | quantum/action_tapping.c:80-95 | a record handed over is emitted, queued, held back or, on overflow, accounted as lost, exactly once |
| TappingProofs.DrainConserves | quantum/action_tapping.c:97-109 | the drain loop keeps the count of every event over emitted, waiting, held-back and lost ones |
| TappingProofs.ProcessKeepsInv | quantum/action_tapping.c:80-113 | the invariant is kept; events get lost exactly when a record that has to wait arrives while seven are waiting |
| TappingProofs.RunKeepsInv | quantum/action_tapping.c:80-113 | every reachable state: at most seven records wait, waiting presses have count 0, and a key held as a first tap has its marked release waiting |
| TappingProofs.Conservation | quantum/action_tapping.c:80-113 | in every run the multiset of input events is emitted plus waiting plus held-back plus lost events |
| TappingProofs.StepClassified | quantum/action_tapping.c:202-214 | a pressed tapping key with count 1 has a waiting release of its key marked as tap |
| TappingTaps.TapsAreTaps | quantum/action_tapping.c:202-214 | in every run a press is emitted with count 1 only if it and a release of its key were input, less than a tapping term answered in the emitting call apart; the release comes later in the input unless one before the press is stale |
| TappingTaps.StaleReleaseTaps | quantum/action_tapping.c:494-521 | for a release and a press of one key and a term: some run from a keyboard, with that constant term, ends in that press and emits it as a tap although the only release of its key came before, if and only if the clock puts the release less than the term after the press |
| TappingTaps.StaleInRealTime | quantum/action_tapping.c:508-510 | within a wrap of real time that means the same instant, or a press more than a wrap minus the term later |
| TappingProofs.LateTickSettles | quantum/action_tapping.c:333-380 | a late tick leaves no press undecided, so the oldest waiting record is processed next |
| TappingProofs.LateTickProgress | quantum/action_tapping.c:171-188 | a late tick dequeues at least one record when any waits |
| TappingProofs.LateTicksFlush | quantum/action_tapping.c:97-109 | after any run, one more late tick than waiting records leaves nothing waiting and nothing undecided, every event emitted once |
| TappingDecisions.EveryPressDecided | quantum/action_tapping.c:195-343 | in every run each call given an undecided press sends it with count 1 exactly when it is given the key's own release within the term, and with count 0 exactly when the term is over, a key typed meanwhile comes up under permissive hold, or a key goes down under hold on other key press |
| TappingDecisions.TapComesOut | quantum/action_tapping.c:202-214 | a tap key released within its term: its press goes out with count 1, then its release with count 1, whatever ticks come between |
| TappingDecisions.HoldComesOut | quantum/action_tapping.c:333-343 | a tap key still down when its term is over: its press goes out with count 0 before anything else, at once with a tick, followed by a late release |
| TappingDecisions.OtherKeyPasses | quantum/action_tapping.c:182-186 | with nothing undecided every other event goes out at once, unchanged |
| TappingDecisions.OtherPressHolds | quantum/action_tapping.c:272-287 | another press within the term under hold on other key press: the tap key goes out as a hold, then that press, unless that key is a tap key too |
| TappingDecisions.TypedInsideHolds | quantum/action_tapping.c:220-236 | a key typed within the term under permissive hold: the hold, the typed press and its release go out in that order |
| TappingDecisions.RolledTaps | quantum/action_tapping.c:202-301 | without the two options, a key typed inside and then the tap key released within the term: the tap, the typed key, and the release of the tap go out in that order |
| TappingDecisions.RolledToTapKey | quantum/action_tapping.c:302-326 | the same with a second tap key still down: the first goes out as a tap, released as it was and by nothing else, and the second is undecided |
| TappingDecisions.RolledOverTapKey | quantum/action_tapping.c:302-326 | with a second tap key that came up within its term: both go out as taps, in the order of their presses |
| TappingDecisions.EarlierKeyUp | quantum/action_tapping.c:241-269 | a key from before that comes up within the term goes out at once and decides nothing |
| TappingDecisions.TapsAreCounted | quantum/action_tapping.c:389-400 | a series of quick taps of a key: the n-th goes out with count n, up to 15, press and release |
| TappingDecisions.SlowPress | quantum/action_tapping.c:401-403 | after the quick-tap term, or after another key, the key is undecided anew |
| TappingDecisions.OtherTapKey | quantum/action_tapping.c:404-410 | another tap key after a tap is undecided |
| TappingDecisions.OtherKey | quantum/action_tapping.c:411-421 | any other key after a tap goes out at once, and its press interrupts the series |
| TappingDecisions.TapsForgotten | quantum/action_tapping.c:423-431 | after the term the series of taps is forgotten |
| TappingDecisions.TapLetGo | quantum/action_tapping.c:302-322 | another tap key while a repeated tap is down: the tap is released first, by an event the code makes up |
| TappingDecisions.SlowRelease | quantum/action_tapping.c:347-352 | the release of a repeated tap after the term goes out with its count and ends the series |
| TappingRing.TapResolver.WaitingBufferEnq | quantum/action_tapping.c:439-459 | appends to the queue unless seven wait; ticks are dropped |
| TappingRing.TapResolver.WaitingBufferTyped | quantum/action_tapping.c:470-478 | whether the event's opposite waits |
| TappingRing.TapResolver.WaitingBufferScanTap | quantum/action_tapping.c:494-521 | the first release in time is marked, the tapping key becomes a tap and is emitted; nothing else changes |
| TappingRing.TapResolver.ProcessTapping | quantum/action_tapping.c:166-433 | the in-place code computes the step of the machine |
| TappingRing.TapResolver.ActionTappingProcess | quantum/action_tapping.c:80-113 | accept, overflow and drain on the ring refine the machine on a queue |
| DeferredProofs.TokensStayDistinct | quantum/deferred_exec.c:46-157 | over every sequence of calls, callbacks' own and other tables' use of the shared counter included, non-zero tokens are pairwise distinct and free entries blank |
| DeferredProofs.AllocationFailsOnlyWhenExhausted | quantum/deferred_exec.c:18-40 | no token is returned exactly when all 255 are in use |
| DeferredProofs.FreeSlotAllocates | quantum/deferred_exec.c:30-40 | pigeonhole: with a free slot among at most 255 a token is found |
| DeferredProofs.DeferSucceeds | quantum/deferred_exec.c:46-72 | success exactly for a delay, a callback and a free slot |
| DeferredProofs.CancelUndoesDefer | quantum/deferred_exec.c:46-116 | the token names the new entry, was unused, and cancelling it restores the table |
| DeferredProofs.HandleStable | quantum/deferred_exec.c:46-116 | an entry stays as it is until somebody names its token |
| DeferredProofs.NextTokenIsFirst | quantum/deferred_exec.c:30-40 | a token is handed out exactly when no usable one is tried before it |
| DeferredProofs.TokenComesBack | quantum/deferred_exec.c:30-40 | a freed token comes back exactly when no unused one is tried first |
| DeferredProofs.RequeueDetected | quantum/deferred_exec.c:131-153 | whatever the callback returns, the changed-token test leaves a re-queued entry alone exactly when an earlier slot is free or an unused token comes first |
| DeferredProofs.RequeueCanBeLost | quantum/deferred_exec.c:16-40 | a run from the empty table in which the entry a callback re-queues for itself gets the old token and is thrown away |
| DeferredTiming.DueIsExact | quantum/deferred_exec.c:131 | an entry less than half a wrap away is due exactly when its real time has come |
| DeferredTiming.SweepFiresOnce | quantum/deferred_exec.c:118-157 | one sweep runs a due entry once, with its own callback and argument, and re-queues it its reply after its trigger or frees it; an entry that is not due, or was re-queued, it leaves alone, whatever other callbacks do |
| DeferredTiming.NeverEarly | quantum/deferred_exec.c:118-157 | over every sequence of calls, whatever callbacks do and return, none runs before its trigger on the 32-bit clock |
| DeferredTiming.NeverEarlyInRealTime | quantum/deferred_exec.c:118-157 | nor before the real instant its trigger stands for, as long as that is less than half a wrap away |
| DeferredTiming.NoDrift | quantum/deferred_exec.c:118-157 | over runs with any calls that spare its token, a callback that returns the constant d has its k-th run, with its argument, triggered for exactly t0 + k*d, never early, however late the sweep is called |
| DeferredTiming.DeferredRunsInTime | quantum/deferred_exec.c:46-157 | from the deferring call on: the k-th run is triggered for exactly delay + k*d after that call |
| DeferredTiming.DeferCounts | quantum/deferred_exec.c:56-72 | deferring writes an entry that is due delay after now into the first free slot, under a token nobody has |
| DeferredTiming.DeferRefused | quantum/deferred_exec.c:48-63 | without a delay, a callback or a free slot nothing changes |
| DeferredTiming.ExtendCounts | quantum/deferred_exec.c:75-93 | extending makes exactly the named entry due delay after now, by no delay nothing |
| DeferredTiming.CancelFrees | quantum/deferred_exec.c:95-116 | cancelling blanks exactly the named entry |
| DeferredTiming.NoEntryNoEffect | quantum/deferred_exec.c:75-116 | a token that names no entry has no effect |
| DeferredTiming.ThrottledExactly | quantum/deferred_exec.c:118-126 | a sweep runs exactly if real time has gone on since the last one, within half a wrap |
| DeferredTable.Executors.TokenCanBeUsed | quantum/deferred_exec.c:18-28 | whether the token is valid and unused |
| DeferredTable.Executors.AllocateToken | quantum/deferred_exec.c:30-40 | terminates within 256 candidates with the first usable one |
| DeferredTable.Executors.Defer | quantum/deferred_exec.c:46-72 | the table with the new entry in the first free slot, and its token |
| DeferredTable.Executors.Extend | quantum/deferred_exec.c:75-93 | exactly the named entry gets a new trigger; whether it exists |
| DeferredTable.Executors.Cancel | quantum/deferred_exec.c:95-116 | exactly the named entry is freed; whether it exists |
| DeferredTable.Executors.Task | quantum/deferred_exec.c:118-157 | the throttled sweep over the table |
| LayerCache.MergeSetsOneBit | quantum/action_layer.c:236-246 | the update expression sets one bit of a cache byte and keeps the others |
| LayerCache.TopLayerIsHighest | quantum/action_layer.c:335-353 | resolution finds the highest layer that is on and not transparent, else layer 0 |
| LayerCache.PressTakesHighest | quantum/action_layer.c:335-353 | a press resolves to layer l if and only if l is the highest layer that is on or a default layer and not transparent for the key, or 0 when there is none; its action and keycode are those of l |
| LayerCache.LastSettingInForce | quantum/action_layer.c:38-131 | over every run the layers, the default layers and the cache switch are as last set |
| LayerCache.PlacesOfKeys | quantum/action_layer.c:264-301 | matrix keys have cache places of their own, the two directions of an encoder share one, all other rows have none |
| LayerCache.LastPressRecalled | quantum/action_layer.c:264-301 | the cache recalls the layer of the last press recorded at the key's place, whichever client recorded it and whatever layer changes, other keys, releases and spells without the cache follow; an encoder's two directions share a place |
| LayerCache.ReleaseMatchesPress | quantum/action_layer.c:311-329 | after such a run a release triggers the action of the press exactly when the key has a cache entry or layer 0 gives that action anyway; with the cache off, exactly when it resolves to it afresh |
| LayerCache.KeycodeMatchesPress | quantum/quantum.c:234-250 | with the cache on, every look at the keycode but a recording press gives that of the last recorded press, and the action of a release compiles it |
| LayerCache.LayerKeeper.UpdateImpl | quantum/action_layer.c:236-246 | the entry holds the layer afterwards, every other bit of the cache is as before |
| LayerCache.LayerKeeper.ReadImpl | quantum/action_layer.c:248-258 | returns the layer the entry holds |
| LayerCache.LayerKeeper.Update | quantum/action_layer.c:264-283 | refines a map update at the place of a matrix key or an encoder; the other cache stays as it is |
| LayerCache.LayerKeeper.Read | quantum/action_layer.c:285-301 | refines a map lookup with default 0 |
| LayerCache.LayerKeeper.GetLayer | quantum/action_layer.c:335-353 | the loop finds the resolved layer |
| LayerCache.LayerKeeper.LayerStateSet | quantum/action_layer.c:118-131 | only the layer state changes, no remembered layer |
| LayerCache.LayerKeeper.DefaultLayerStateSet | quantum/action_layer.c:38-51 | only the default layers change, no remembered layer |
| LayerCache.LayerKeeper.SetDisabled | quantum/action.c:220-224 | switching the cache off and on changes no remembered layer |
| LayerCache.LayerKeeper.StoreOrGetAction | quantum/action_layer.c:311-329 | the action of the resolved layer on a press, of the remembered one on a release; with the cache off the press's resolution each time; the caches stay a map |
| LayerCache.LayerKeeper.GetEventKeycode | quantum/quantum.c:234-250 | the keycode of the resolved layer on a recording press, of the remembered one otherwise; the caches stay a map |
| ActionCode.GotoMoves | quantum/action_code.h:213-225 | executing the packed TO operation is layer_move |
| ActionCode.DefaultSets | quantum/action_code.h:213-216 | executing the packed DF operation sets exactly one default layer |
| ActionCode.ToggleInverts | quantum/action_code.h:220-221 | executing the packed TG operation is layer_invert |
| ActionCode.OnSets | quantum/action_code.h:222 | executing ACTION_LAYER_ON is layer_on |
| ActionCode.OffClears | quantum/action_code.h:223 | executing ACTION_LAYER_OFF is layer_off: the extra bit extends the 4-bit mask over all other parts |
| ActionCode.KindMovesMods | quantum/action.c:391-393 | the fifth modifier bit falls into the kind, which moves the others to the right-hand half as extract_mod_bits does |
| ActionCode.KeysPreserved | quantum/keymap_common.c:70-102 | plain, mouse and modified keys: the compiled code sends what the keycode stands for; what that does to the report is in the next rows |
| ActionReport.PlainKeyReport | quantum/action.c:392-419 | the outputs of a plain key, applied to any report: the press adds exactly the key, the release takes exactly it away |
| ActionReport.ModifiedKeyReport | quantum/action.c:392-419 | a modified key: the press adds exactly its modifiers, weak or real as the key is, and then the key; the release takes exactly those away, the key first; together they restore the report if and only if nothing of it was held before |
| ActionReport.SideOfMods | quantum/action.c:391-393 | which of the eight modifiers the five bits stand for |
| ActionReport.ModTapReport | quantum/action.c:494-539 | a dual-role modifier holds its key on a tap and its modifiers on a hold; press and release restore the report if and only if nothing of it was held |
| ActionReport.TapToggleReport | quantum/action.c:483-493 | a tap-toggle modifier is held below the limit of taps, left down at it, and not touched above |
| ActionReport.OneshotHeld | quantum/action.c:426-480 | a one-shot modifier that is held adds its modifiers and takes them back in every way they may be set |
| ActionReport.OneshotTapped | quantum/action.c:459-467 | tapped once it makes its modifiers one-shot, tapped as often as the setting says it locks them, else nothing |
| ActionReport.OneshotReleased | quantum/action.c:469-479 | the release of a tap clears the modifiers exactly when it is a first tap that finds them down with that setting on |
| ActionLayers.NoKeys | quantum/keymap_common.c:69-87 | KC_NO and KC_TRNS have no effect |
| ActionCode.LayerKeysPreserved | quantum/keymap_common.c:117-161 | TO, MO, DF, TG and TT, layers 16 to 31 included: executing the compiled code is the layer operation |
| ActionLayers.Momentary | quantum/action.c:631-633 | MO turns its layer, and no other, on with the press and off with the release |
| ActionLayers.Goto | quantum/action.c:582-603 | TO leaves its layer alone on, with the press |
| ActionLayers.Toggle | quantum/action.c:582-603 | TG inverts its layer, and no other, with the release |
| ActionLayers.Default | quantum/action.c:561-581 | DF makes its layer the only default layer, with the release |
| ActionLayers.TapToggle | quantum/action.c:618-629 | TT inverts its layer at both events below the limit of taps, at the release alone at the limit, and not above |
| ActionCode.OneshotKeysPreserved | quantum/keymap_common.c:132-147 | OSL and OSM: executing the compiled code is the one-shot branch for that layer or those modifiers |
| ActionLayers.OneshotPressed | quantum/action.c:641-677 | OSL pressed: its layer goes on and waits for another key, goes off if it was locked, or nothing happens, by the taps and their setting |
| ActionLayers.OneshotReleased | quantum/action.c:641-677 | OSL released: its layer goes off after another key or a double tap, is locked after as many taps as the setting says, else waits on |
| ActionCode.LayerTapPreserved | quantum/action.c:615-687 | LT keeps its meaning in all states exactly when its tap key is not one of the five operation codes or the operation agrees: MO or a disabled one-shot layer without a tap, TT on a tap that does not invert |
| ActionLayers.LayerTapHeld | quantum/action.c:687-710 | LT held turns its layer on and off and sends no key |
| ActionLayers.LayerTapTapped | quantum/action.c:687-710 | LT tapped sends its key and touches no layer |
| ActionCode.ModTapPreserved | quantum/action.c:419-493 | MT keeps its meaning exactly when its tap key is neither 0 nor 1, or the one-shot or tap-toggle branch agrees |
| ActionCode.LayerModPreserved | quantum/keymap_common.c:162-166 | LM keeps its meaning in all states exactly for left-hand modifiers or odd layers |
| ActionLayers.LayerModHeld | quantum/action.c:605-613 | LM with left-hand modifiers, or an odd layer, holds layer and modifiers together |
| EepromLayout.AddrIsIndexed | quantum/dynamic_keymap.c:139-164 | the address macros number the cells of a region without gaps |
| EepromLayout.IndexInjective | quantum/dynamic_keymap.c:139-164 | mixed-radix key and encoder indices are injective |
| EepromLayout.RegionsInOrder | quantum/dynamic_keymap.c:65-129 | for all sizes that meet the assertion, regions are disjoint and end at the last address |
| EepromLayout.CellsApart | quantum/dynamic_keymap.c:65-129 | no two cells of the image share a byte |
| EepromLayout.WriteRead | quantum/dynamic_keymap.c:144-266 | a cell reads what was written, every other cell what it held |
| Eeprom.LockedByte | quantum/dynamic_keymap.c:346-391 | each byte of a locked write, in terms of what plain writing would give |
| Eeprom.LockedWrite | quantum/dynamic_keymap.c:336-392 | all or nothing; no touched cell ends as QK_BOOT, half-overlapped ones included; cells that would not have become QK_BOOT read as if written plainly; others are untouched |
| Eeprom.LockedRunsAddNoBoot | quantum/dynamic_keymap.c:336-392 | over any series of locked writes no cell becomes QK_BOOT |
| Eeprom.FlatCell | quantum/dynamic_keymap.c:385-391 | after a plain write a keycode reads the big-endian pair of the data, or of data and stored neighbour |
| Eeprom.FilteredByParts | quantum/dynamic_keymap.c:348-381 | the code's three-part check computes the byte-wise filter |
| Eeprom.CrashSafe | quantum/via.c:141-152 | if the image is valid after any prefix of the writes, none or all bytes outside the magic are written, for all images exactly when the build ID is not 0xFFFFFF |
| Eeprom.CrashOutcome | quantum/via.c:141-152 | what a valid image holds after a crash |
| EepromDevice.LayoutOptionsRoundTrip | quantum/via.c:156-178 | layout options read back modulo the region's size |
| EepromDevice.Device.SetterGetter | quantum/dynamic_keymap.c:144-266 | bounds checks included, a setter is undone by its getter and seen by no other |
| EepromDevice.Device.UpdateByte | drivers/eeprom/eeprom_driver.c:60-65 | the byte is written exactly if it differs |
| EepromDevice.Device.GetKeycode | quantum/dynamic_keymap.c:144-151 | reads the cell, KC_NO out of range |
| EepromDevice.Device.KeyIsCell | quantum/dynamic_keymap.c:139-151 | each key is the cell of the host's buffer with its index |
| EepromDevice.Device.SetKeycode | quantum/dynamic_keymap.c:153-159 | writes exactly the key's cell, nothing out of range |
| EepromDevice.Device.GetEncoder | quantum/dynamic_keymap.c:166-173 | reads the cell, KC_NO out of range |
| EepromDevice.Device.SetEncoder | quantum/dynamic_keymap.c:175-181 | writes exactly the encoder's cell, nothing out of range |
| EepromDevice.Device.SetEntry | quantum/dynamic_keymap.c:213-266 | writes exactly the ten bytes of the entry, in order, and returns 0, or nothing and -1 |
| EepromDevice.Device.GetEntry | quantum/dynamic_keymap.c:203-256 | reads the entry, none out of range |
| EepromDevice.Device.ReadBuffer | quantum/dynamic_keymap.c:321-334 | the keymap region's bytes, zeros behind it, nothing else of the buffer changed |
| EepromDevice.Device.WriteBuffer | quantum/dynamic_keymap.c:336-392 | the keymap region becomes SetBuffer of the old one and no byte outside it changes |
| EepromDevice.Device.SaveSettings | quantum/qmk_settings.c:77-85 | the region holds the settings, nothing else changes |
| EepromDevice.Device.LoadSettings | quantum/qmk_settings.c:69-75 | the settings are the region's bytes |
| EepromDevice.Device.SettingsSurvive | quantum/qmk_settings.c:69-85 | save then load is the identity, also after any other cell was written |
| EepromDevice.Device.GetLayoutOptions | quantum/via.c:156-166 | the big-endian value of the region |
| EepromDevice.Device.SetLayoutOptions | quantum/via.c:170-178 | the region holds the low-order bytes, nothing else changes |
| EepromDevice.Device.Reset | quantum/dynamic_keymap.c:268-319 | every key, encoder, setting byte, tap dance, combo and override holds its default afterwards, none undone by a later one, and so do the keymap options; the lock state is restored |
| EepromDevice.Device.ResetSettings | quantum/qmk_settings.c:163-199 | the settings are the defaults and stored, and the stored keymap options are the defaults |
| EepromDevice.Device.KeysRead | quantum/dynamic_keymap.c:268-319 | after a reset every key and both directions of every encoder read as in the flash |
| EepromDevice.Device.EntriesRead | quantum/dynamic_keymap.c:268-319 | and every entry of the three tables as its default |
| EepromDevice.Device.BytesRead | quantum/dynamic_keymap.c:268-319 | and every byte of the settings, the layout options and the empty macros |
| EepromDevice.Device.ResetMacros | quantum/dynamic_keymap.c:444-451 | the macro region is zero, nothing else changes |
| EepromDevice.Device.IsValidMagic | quantum/via.c:85-98 | whether the magic is the build ID |
| EepromDevice.Device.SetMagic | quantum/via.c:102-117 | writes the three bytes only |
| EepromDevice.Device.InitVia | quantum/via.c:141-152 | writes come invalidate first, body outside the magic, validate last, as CrashSafe needs; at the end all defaults hold, keymap options, layout options, settings and the empty macro region included |
| EepromPages.TransferIsBanked | drivers/eeprom/eeprom_i2c.c:97-133 | a transfer inside a page puts every byte where it belongs although the device wraps |
| EepromPages.FlatExactlyInsideBank | drivers/eeprom/eeprom_i2c.c:97-133 | for all memories and data, a block write is the flat write exactly when the block stays within one device address |
| EepromPages.Device.WriteBlock | drivers/eeprom/eeprom_i2c.c:97-133 | the packet loop writes every byte to its place in the bank; no packet is empty or crosses a page |
| EepromPages.Device.ReadBlock | drivers/eeprom/eeprom_i2c.c:81-95 | reads every byte from its place in the bank of the first |
| EepromPages.Device.UpdateBlock | drivers/eeprom/eeprom_driver.c:52-58 | same effect as writing the block, the flat write inside one device address; equal data causes no transfer |
| EepromPages.Device.Erase | drivers/eeprom/eeprom_i2c.c:65-79 | all of the memory is zero, also if the last page ends behind it |
| MacroPlayer.KeycodeOperands | quantum/dynamic_keymap.c:453-458 | exactly the keycodes 0x0100 to 0xFF00 have a zero-free operand, and decoding inverts it |
| MacroPlayer.DelayOperands | quantum/dynamic_keymap.c:535-543 | exactly the delays up to 65024 ms have a zero-free operand, one each |
| MacroPlayer.StopsExactlyWhenComplete | quantum/dynamic_keymap.c:496-549 | a string is played without reading past its terminator exactly when it does not break off inside a token |
| MacroPlayer.BrokenTokens | quantum/dynamic_keymap.c:496-549 | tokens with a zero byte in place of an operand, or an unknown code: what is skipped and where the macro ends |
| MacroPlayer.PlaysWhatWasEncoded | quantum/dynamic_keymap.c:496-549 | an encoded macro performs exactly its actions and stops at its terminator, whatever follows |
| MacroPlayer.PlayIgnoresTail | quantum/dynamic_keymap.c:496-549 | bytes behind those read make no difference |
| MacroPlayer.FindsMacro | quantum/dynamic_keymap.c:474-489 | skipping id zero bytes leads to the string of macro id |
| MacroPlayer.PlaysTheRightMacro | quantum/dynamic_keymap.c:460-550 | in a buffer of encoded macros, number id performs exactly the id-th action list |
| MacroPlayer.Player.SendsTheRightMacro | quantum/dynamic_keymap.c:460-550 | what Send plays on a buffer of encoded macros: number id for the ids 0 to 15, nothing for others, never past the buffer |
| MacroPlayer.FindStaysInside | quantum/dynamic_keymap.c:465-489 | the search ends right behind the buffer exactly with id zero bytes, and outside exactly with fewer |
| MacroPlayer.Player.SkipTo | quantum/dynamic_keymap.c:474-489 | the loop finds the position or stops at the end |
| MacroPlayer.Player.PlayToken | quantum/dynamic_keymap.c:496-549 | one turn of the loop is one token of the interpreter, or would read behind the buffer |
| MacroPlayer.Player.Send | quantum/dynamic_keymap.c:460-550 | sends exactly the actions the found string stands for, and reads on behind the buffer exactly when the string says so |
| DynamicMacro.RecordingTakes | quantum/dynamic_macro.h:104-122 | a recording holds the records seen, without leading releases, cut to the capacity left |
| DynamicMacro.DropsExactlyLeadingReleases | quantum/dynamic_macro.h:105-109 | the leading releases go and nothing else |
| DynamicMacro.SessionStores | quantum/dynamic_macro.h:179-256 | recording a slot stores those records without trailing presses; the other slot stays as it was |
| DynamicMacro.RecordedIsPlayed | quantum/dynamic_macro.h:179-256 | after a session its slot's play key puts out the recorded records, trimmed and cut, the other play key the macro the other slot held; no macro changes |
| DynamicMacro.PlayKeyPlays | quantum/dynamic_macro.h:213-218 | after any run that ends with no recording, each play key puts out its own slot and changes nothing |
| DynamicMacro.PassesOnTyped | quantum/dynamic_macro.h:201-259 | which events are left to the rest of the firmware: in a recording exactly those it records |
| DynamicMacro.MacroRecorder.Play | quantum/dynamic_macro.h:77-93 | replays exactly the slot's records in order and restores the layer state |
| DynamicMacro.MacroRecorder.RecordKey | quantum/dynamic_macro.h:104-122 | the pointer guard limits the slot to the capacity; no record of the other macro changes |
| DynamicMacro.MacroRecorder.RecordEnd | quantum/dynamic_macro.h:128-142 | the slot without its trailing presses |
| DynamicMacro.MacroRecorder.ProcessRecord | quantum/dynamic_macro.h:154-256 | the shared array refines two independent sequences; the ends never cross; what is played and passed on, and the layer state after it |
| MatrixScan.PopcountIsTwoBits | quantum/keyboard.c:238-241 | the word trick is non-zero exactly when two bits are set |
| MatrixScan.PopcountOnRow | quantum/keyboard.c:238-241 | on the word that shows a row, the trick says whether the row has two columns |
| MatrixScan.AndShows | quantum/keyboard.c:260 | masking words with AND is intersecting the rows they show |
| MatrixScan.AlternationMeans | quantum/keyboard.c:542-595 | a key's events alternate, starting with a press |
| MatrixScan.GhostsComeInPairs | quantum/keyboard.c:243-265 | the ghost relation is symmetric: another row is ghosted with it |
| MatrixScan.RectangleWithheld | quantum/keyboard.c:243-265 | four keys that look down at the corners of a rectangle: both rows are withheld |
| MatrixScan.WithheldForRectangle | quantum/keyboard.c:243-265 | a row is withheld for no other reason |
| MatrixScan.Matrix.HasGhostInRow | quantum/keyboard.c:243-265 | exactly when another row shares two active real-key columns |
| MatrixScan.Matrix.ProcessRow | quantum/keyboard.c:577-592 | the row's events alternate and make the row the current one |
| MatrixScan.Matrix.MatrixTask | quantum/keyboard.c:542-595 | events add up to the stored rows and alternate; a row is taken over exactly unless it is ghosted |
| VialUnlock.CountingAlways | quantum/vial.c:155-184 | in every run, while unlocking the counter is 50 minus the current streak of good polls |
| VialUnlock.GoodIsReallyLater | quantum/vial.c:168 | a good poll comes more than 100 real ms later despite the 16-bit timer |
| VialUnlock.UnlockTakesFiftyHeldPolls | quantum/vial.c:155-192 | unlocking happens only at the 50th consecutive poll with the keys held, each more than 100 real ms after the one before |
| VialUnlock.OnlyLockLocks | quantum/vial.c:187-192 | an unlocked keyboard is locked by the lock command, by nothing else, and that leaves the count alone |
| VialUnlock.LockedUntilHeld | quantum/vial.c:155-192 | over every run, a keyboard that was locked is unlocked only after such a series of polls since |
| VialUnlock.LockedFromTheStart | quantum/vial.c:155-192 | one that was just started, too |
| VialUnlock.FiftySteadyPollsUnlock | quantum/vial.c:155-184 | fifty such polls, none a wrap late, do unlock, whatever came before; the counter is 0 then |
| VialUnlock.Lockable.UnlockStart | quantum/vial.c:155-160 | counter and timer start anew, the lock stays |
| VialUnlock.Lockable.LockAgain | quantum/vial.c:187-192 | the keyboard is locked, the running count stays |
| VialUnlock.Lockable.UnlockPoll | quantum/vial.c:161-184 | the poll on the statics is the step of the protocol |
| TapDance.FinishedPresses | quantum/vial.c:372-423 | finishing leaves exactly the key of the phase down |
| TapDance.ResetReleases | quantum/vial.c:425-476 | resetting releases exactly the key of the phase |
| TapDance.PressesMatchReleases | quantum/process_keycode/process_tap_dance.c:88-189 | in every run each dance holds down exactly the key of its phase while its own key stays down, else nothing |
| TapDance.ChangedWhileHeld | quantum/vial.c:239-248 | a new entry under a held dance balances exactly when it gives the phase the same key |
| TapDance.PlainTapsPassThrough | quantum/vial.c:356-370 | a tap-only dance passes n taps on as n strokes exactly for n < 256, one fewer per wrap |
| TapDanceKeys.HeldOnce | quantum/vial.c:383-389 | from any state before the dance: pressed once and held for the term, the dance holds the hold key, or else the tap key |
| TapDanceKeys.InterruptedOnce | quantum/vial.c:345-347 | held once when another key goes down, it holds the tap key |
| TapDanceKeys.TappedOnce | quantum/vial.c:535-559 | tapped once it strikes the tap key, at the release exactly if only tap and hold key are set, else when the dance ends |
| TapDanceKeys.HeldTwice | quantum/vial.c:399-414 | tapped and held it holds the tap-hold key, or else strikes the tap key and holds the hold key, each with its fallback |
| TapDanceKeys.InterruptedTwice | quantum/vial.c:415-421 | held at the second press when another key goes down: the tap key struck and then held |
| TapDanceKeys.DoubleTapped | quantum/vial.c:535-559 | tapped twice with a double-tap key, it strikes that at the second release, and nothing else |
| TapDanceKeys.TappedTwice | quantum/vial.c:390-398 | tapped twice without one, it strikes the tap key twice when the dance ends |
| TapDanceKeys.TappedMore | quantum/vial.c:356-370 | n taps, 3 to 255, are n strokes of the tap key, sent while the dance goes on |
| TapDanceKeys.EarlyReleaseForgets | quantum/process_keycode/process_tap_dance.c:112-127 | the release of one dance key makes the code forget another dance under way exactly when it decides early |
| TapDanceKeys.RolledTap | quantum/process_keycode/process_tap_dance.c:112-127 | a key rolled over from a first dance: its tap is sent when its term ends, exactly unless the first release decides early |
| TapDance.Dancer.DanceFinished | quantum/process_keycode/process_tap_dance.c:112-127 | decides at most once and resets at once if the key is up |
| TapDance.Dancer.PreprocessTapDance | quantum/process_keycode/process_tap_dance.c:129-150 | another key's press interrupts and decides the active dance |
| TapDance.Dancer.ProcessRecordVial | quantum/vial.c:535-560 | the early decision at a release |
| TapDance.Dancer.ProcessTapDance | quantum/process_keycode/process_tap_dance.c:152-178 | counting, activating and resetting on the key's own events |
| TapDance.Dancer.Task | quantum/process_keycode/process_tap_dance.c:180-189 | the term's end decides the active dance |
| Uf2.HeaderRoundTrip | util/uf2conv.py:50 | unpacking eight little-endian words inverts packing them |
| Uf2.BlockView | util/uf2conv.py:121-142 | the decoder sees the i-th payload at start + 256*i, of 256 bytes, numbered i |
| Uf2.EncodedViews | util/uf2conv.py:121-142 | the encoded file is cut into exactly its blocks |
| Uf2.EncodedBytes | util/uf2conv.py:121-142 | every byte of the i-th block of 512: the eight words with both start magics, the family flag, address, 256, number, count and family; the content or zeros; zeros; the end magic |
| Uf2.FitsExactly | util/uf2conv.py:134-136 | an image can be encoded if and only if it is empty or its last byte lies in a block whose address is a 32-bit word, and so does the count |
| Uf2.RoundTrip | util/uf2conv.py:37-142 | decoding what was encoded for the same family gives the content padded with zeros to 256 and its address |
| Uf2.TwoFamilies | util/uf2conv.py:37-109 | of two images of different families in one file, choosing a family gives that image alone, choosing none gives nothing |
| Uf2.BadMagicFails | util/uf2conv.py:51-53 | a block with bad magic makes decoding fail, wherever it stands |
| Uf2.SkipsAsAnnounced | util/uf2conv.py:51-53 | the decoder agrees with one that skips such blocks exactly when there are none or the file is refused anyway |
| Uf2.ZeroBlockFails | util/uf2conv.py:51-53 | a good block before a block of zeros: to be decoded, but refused |
| Uf2.RefusedExactly | util/uf2conv.py:51-74 | decoding stops at a block exactly for a bad magic or, if it is meant for the flash, for more than 476 bytes or a gap that is negative, above 10 MB or no multiple of 4 |
| Uf2.NotFlashedSkipped | util/uf2conv.py:54-56 | a block not meant for the flash changes nothing |
| Uf2.BlocksStandInPlace | util/uf2conv.py:57-80 | for plain blocks every payload stands in the image at its address, with zeros in the gaps |
| Uf2.ConvertToUf2 | util/uf2conv.py:121-142 | the loop computes the encoding, or fails exactly when an address or the count exceeds 32 bits |
| Uf2.ConvertFromUf2 | util/uf2conv.py:37-109 | the loop computes the decoding, all errors included |

## Left out

- Tapping: combos, swap-hands, RETRO_SHIFT, one-shot release, the tap hint, and re-entry or change of the record by `process_record` (`process_action` cancels taps there).
- Tapping order: outputs are not first in, first out (a release can overtake waiting records), so conservation is stated instead.
- TappingProofs.LateTicksFlush: ticks are late relative to the state they start from, since terms may differ from call to call.
- DeferredTiming.NoDrift: neither a callback, its own included, nor a caller may cancel or extend the entry by its token.
- DeferredTiming.SweepFiresOnce: no callback, the entry's own included, may cancel or extend it by its token; after an entry is freed its token may name a new one, which is not followed.
- LayerCache.ReleaseMatchesPress: the keymap is fixed between press and release.
- LayerCache.LayerKeeper.Update: an encoder event names an encoder that exists; the source does not check it.
- LayerCache.LayerKeeper.Read: the same.
- ActionCode: magic key swaps, system and consumer keys, swap-hands, the release of a one-shot layer by the next key, and tap delays.
- EepromDevice.Device.WriteBuffer: on a locked keyboard size 0 at an odd offset inside the keymap is excluded, where the source's loop counter wraps.
- EepromDevice: the magic of builds without Vial, the keyboard's own EEPROM block, and the setting callbacks.
- EepromPages.Device.WriteBlock: I2C and SPI share the packet loop; busy polling, time-outs and bus errors are not modelled, and over SPI one device address reaches the whole memory.
- EepromPages.Device.ReadBlock: the bank of the block lies wholly in the memory, as on devices whose size is a multiple of it.
- EepromPages.Device.UpdateBlock: the same.
- MacroPlayer.Player.Send: once it reads on behind the buffer, what it does there is left open; the values of the send-string codes are distinct constants.
- MacroPlayer: `dynamic_keymap_macro_get_buffer` and `dynamic_keymap_macro_set_buffer`, plain bounded copies.
- DynamicMacro.MacroRecorder.Play: playback does not re-enter the recorder; what a played record does to the layers is arbitrary.
- MatrixScan.Matrix.MatrixTask: keypress processing is on and the matrix readable; debouncing and tick events are outside.
- VialUnlock: the insecure build and the other Vial commands.
- TapDance: modifier saving, delays, custom terms and dance indices beyond the table.
- Uf2.ConvertFromUf2: reading the family table for the printed report.
- `qmk_settings_get`, `qmk_settings_set`, `qmk_settings_query` and `get_numeric_str`: field access and formatting, easy beside the above.
- USB, Bluetooth, GPIO, LEDs, haptics and other drivers.
