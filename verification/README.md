# ckb-next daemon: a verified model

This project models the parts of the ckb-next daemon that keep state and promise something
about it, and proves those promises in Dafny: key translation and the macro engine, the fair
ticket lock, the DPI cache, Bragi handle transfers, the fixed-point acceleration curves, the
lighting command printer and parser, the 9-bit colour packets and the firmware upload.

`dafny verify dfyconfig.toml` checks all of it. Each `.dfy` file is one module:

| module | what it is about |
|---|---|
| QueuedMutex | the ticket lock as a transition system over any number of threads, and the object |
| MacroEngine | trigger counters, players and the thread list: states, steps, the invariant |
| MacroWheels | wheel macros: activations against passes played |
| MacroTaps | macros without wheels: presses and releases against passes played, and the delays of a held key |
| MacroDrain | what a player still does after the keys are up; termination |
| MacroThreads | the linked list with its head and tail, and the object whose methods are the critical sections |
| InputEvents | what one input report makes of the changed keys, and what replaying it does to the virtual device |
| InputScrolls | codes that scroll: one movement for each changed key |
| InputArray | the event array with its three regions, shifted in place |
| DpiSync | packets of an update, the cache, the mouse, failures half way |
| Bragi | fragmenting a buffer in place, reading a handle back |
| Division | quotient and remainder are unique, for RootFinder and Bragi |
| RootFinder | the two digit-by-digit square roots |
| SegmentMerge, Acceleration | the curve merge and the segment list with its sentinel |
| LightingText, Lighting, LightingNames, LightingCommands | words, fields and colours; groups by colour and their effect; the loops over arrays |
| ColourPacking | three bits a channel, four packets, and back |
| Firmware | blocks of 256 bytes in packets of 60, 60, 60, 60 and 16 |

Concurrency is modelled as interleaved steps. A step is the code between two points where the
relevant lock is released. Runs are sequences of actions; properties of runs are proved for
every sequence that the threads' program counters allow. USB is a device that receives packets
and may stop receiving after any number of them. Code that updates fields or arrays is a class
or a method over arrays, proved equal to a function, and the properties are lemmas about that
function.

What the code does where it is not what its comments or its readers might expect:

- The counter of a macro is a signed `char`. `structures.h:48-58` describes it without a bound,
  and it runs over: 64 wheel notches before the first pass is finished leave it at -128, and from
  there the players never finish although no key is down
  (`MacroDrain.SixtyFourTurnsNeverFinish`). In general the players finish within some number of
  steps if and only if every counter is even and not negative (`MacroDrain.FinishesExactly`); for
  wheel macros, activations and passes agree if and only if no press finds the counter full
  (`MacroWheels.BalancedExactly`).
- If `malloc` fails in the scan, the counter stays raised without a player, whereas a failing
  `pthread_create` resets it. `MacroEngine.LiveExactly` and `MacroEngine.ParityAfterScan` say
  when the counter's meaning survives each.
- `queued_cond_nanosleep` (`device.c:102-103`) broadcasts the mutex's own condition while it
  still holds the inner mutex, so that a sleep never loses a wakeup (`QueuedMutex.NextCanEnter`).
- The repetition delays of a macro are never zero: `input.c:690-693` ignores a zero, although the
  comment above it allows one. A player that neither repeats at once nor exits therefore sleeps.
- A wheel bound to a silent code leaves some code pressed with no key down, unless the code is
  unbound or `KEY_NONE` (`InputEvents.SilentWheelSticks`); the virtual device follows the keys if
  and only if no wheel is so bound (`InputEvents.FollowsExactly`). Line 419 of `input.c` copies an
  event from before its array when the mouse's wheel moved more than one notch, the wheel key of
  that direction sends no key-down of its own, and no modifier-down or other key event stands
  before it (`InputEvents.WithinExactly`, `InputEvents.MuteWheelOutside`); reports that do this
  are excluded.
- A key bound to a wheel direction scrolls when it is pressed and again when it is released
  (`InputScrolls.OneKeyScrolls`), and of two keys bound to opposite directions that change in one
  report both scroll in the direction of the first (`InputScrolls.OppositeKeys`).
- A macro that is pressed a second time while its player sleeps plays one pass more than it was
  pressed: the player repeats the first pass before it takes it off the counter
  (`MacroTaps.TapsPlayed` counts such repeats).
- An unforced DPI update that fails after the stage switch leaves a cache that no longer mirrors
  the mouse; a forced one does so if and only if something it sent after the preparation of the
  new stage changed a setting (`DpiSync.FailureExactly`). Trying again with the same request
  repairs it (`DpiSync.RetryArrives`). Another request is brought to the mouse if and only if it
  settles every packet that got through unrecorded: asks for the same, or differs from the cache
  there (`DpiSync.EditArrivesExactly`). Going back to what the cache says does neither
  (`DpiSync.EditForgets`).
- The merge of the acceleration curves compares a point with a line that starts at the wrong
  place: `input_mac_mouse_legacy.c:895-905` moves the near end when a low point is next, where it
  should move it when the curve changes. `SegmentMerge.LowNeighbourExactly` and
  `SegmentMerge.HighNeighbourExactly` say exactly when the line does run between the neighbours of
  the point, and `Acceleration.NotTheNeighbour` is an input where it does not.
- The speed curve of the acceleration can jump: two points of different curves with the same X
  leave a segment without width that the search never returns (`Acceleration.CurveJumps`). The
  jump is the rise of the scaled points at that X, rounding apart (`Acceleration.JumpAtThreshold`).
- Continuation packets of a Bragi write name the lighting handle whatever handle is written
  (`bragi_common.c:92`); `Bragi.OtherHandleExactly` has the consequence.
- The dithering table is a bit reversal in its first half only: `led_keyboard.c:21` adds 127
  where 128 is meant (`ColourPacking.TableExactly`). With that table a second save and load
  changes six LEDs at certain levels and no other (`ColourPacking.SecondRoundDithered`).
- `printrgb` compares every key with key 0 and uses key 0's colour for the all-keys shortcut
  even if key 0 itself is not printed.
- The ids in a firmware file are read as `short` and compared with unsigned ones
  (`firmware.c:162-168`): no file fits a device whose id is 0x8000 or more
  (`Firmware.IdMatchesExactly`).

## Model

| member | source | states |
|---|---|---|
| QueuedMutex.MutualExclusionAndOrder | src/daemon/device.c:42-116 | Over every run of lock, trylock, unlock and timed sleep by any number of threads, with counters that wrap at any modulus above that number: at most one owner, held tickets distinct and exactly the values from next_in up to next_waiting, and threads enter in the order in which they drew. |
| QueuedMutex.Kept | src/daemon/device.c:42-116 | Every single step keeps the invariant that ties tickets to the order of draws, entries to releases, and sleepers whose turn has come to a broadcast on its way. |
| QueuedMutex.TryLockExact | src/daemon/device.c:56-74 | Trylock takes the lock exactly when no thread holds a ticket, and otherwise changes nothing. |
| QueuedMutex.EntersAfterExactlyItsDistance | src/daemon/device.c:42-85 | A thread with a ticket enters after exactly ticket minus next_in releases, computed on the wrapping counters; until then there were fewer. |
| QueuedMutex.NextCanEnter | src/daemon/device.c:42-116 | No wakeup is lost: with tickets outstanding and nobody inside, the next thread gets in with at most a broadcast already on its way and one turn of its waiting loop. |
| QueuedMutex.UnlockEnds | src/daemon/device.c:76-85 | An owner that unlocks is out again when its broadcast is done, whatever others did in between: it holds no ticket, may lock and try to lock, and succeeds in trying if nobody holds a ticket; every sleeper is woken with its ticket. |
| QueuedMutex.SleepEnds | src/daemon/device.c:94-116 | An owner that goes to sleep holds no ticket until its sleep ends; then it has the newest ticket, and is inside at once exactly if nobody else holds one. |
| QueuedMutex.CanGetIn | src/daemon/device.c:42-116 | From every reachable state every thread with a ticket can still get in, those before it releasing one after the other. |
| QueuedMutex.NotNextSleeps | src/daemon/device.c:46-49 | Whoever draws a ticket or looks at it again is inside if it is next_in and asleep with it otherwise. |
| QueuedMutex.SpuriousLooks | src/daemon/device.c:48-49 | A wakeup for no reason leads to another look at the same ticket and changes nothing else. |
| QueuedMutex.TicketsDistinct | src/daemon/device.c:46-49 | In every reachable state no two waiting or owning threads hold the same counter value. |
| QueuedMutex.TicketsExact | src/daemon/device.c:46-49 | In every reachable state the set of held counter values is exactly the window between the two counters. |
| QueuedMutex.Mutex.TakeTicket | src/daemon/device.c:46-49 | Draws the next counter value and enters at once exactly if it is the one let in. |
| QueuedMutex.Mutex.Lock | src/daemon/device.c:42-54 | Carries out the lock step of the transition system. |
| QueuedMutex.Mutex.TryLock | src/daemon/device.c:56-74 | Carries out the trylock step and reports by its result whether the caller is inside. |
| QueuedMutex.Mutex.Recheck | src/daemon/device.c:48-49 | One turn of a waiting loop: inside exactly if the ticket is next_in. |
| QueuedMutex.Mutex.Release | src/daemon/device.c:80-82 | Raises next_in; the broadcast is still owed. |
| QueuedMutex.Mutex.Broadcast | src/daemon/device.c:83 | Wakes every sleeper of the lock; the unlocking thread is outside. |
| QueuedMutex.Mutex.Doze | src/daemon/device.c:99-106 | Gives the lock up and wakes the waiters in one step before sleeping. |
| QueuedMutex.Mutex.Return | src/daemon/device.c:108-115 | After the sleep, queues again with a new ticket. |
| MacroEngine.LiveOverRuns | src/daemon/input.c:107-328 | Over every run of scans, SWITCH commands and player steps in which malloc does not fail for a starting player: every macro with a non-zero counter has exactly one live player, wheel counters are even, and only the head of the thread list plays. |
| MacroEngine.Kept | src/daemon/input.c:107-328 | Each single step keeps that invariant, failing thread creation included. |
| MacroEngine.InitialHolds | src/daemon/input.c:570-576 | A fresh table with all counters at zero satisfies the invariant. |
| MacroEngine.ScanEffect | src/daemon/input.c:270-328 | What a whole scan does to one slot: its new counter in terms of its own old state, and a player appears exactly if one was wanted and could be made. |
| MacroEngine.ParityAfterScan | src/daemon/input.c:270-311 | Right after a scan, a counter without wheels is odd exactly when its combo is held, if and only if its thread did not fail to start in this scan; a counter with a wheel is even. |
| MacroEngine.LiveExactly | src/daemon/input.c:291-319 | A scan leaves every non-zero counter with a player if and only if malloc failed for none that was to start. |
| MacroEngine.PlayersKeepParity | src/daemon/input.c:183-221 | No sequence of player steps changes the parity of any counter. |
| MacroEngine.SwitchKeeps | src/daemon/command.c:234-241 | Resetting all counters of the mode that is left, with its players alive, keeps the invariant. |
| MacroEngine.SwitchExactly | src/daemon/command.c:234-241 | SWITCH sets exactly the counters of the mode that is left to zero and touches no player; to the current mode it does nothing. |
| MacroEngine.StartsExactly | src/daemon/input.c:274-293 | For which counters a held combo without a player starts one; after a lack of memory a macro without wheels is tried once more, one with a wheel not before its counter wraps. |
| MacroWheels.BalancedExactly | src/daemon/input.c:270-281 | In every state of every undisturbed run, activations of a wheel macro equal accounted passes plus half the counter, if and only if no press ever finds the counter at 126 or more. |
| MacroWheels.Ledger | src/daemon/input.c:133-218 | Activations less passes begun, over any such run, equal the change of half the counter less the pass under way. |
| MacroWheels.PlayedExactlyOnce | src/daemon/input.c:133-218 | From the start: a wheel macro's player never sleeps, never begins more passes than there were activations, and once it has exited there were exactly as many. |
| MacroTaps.CountedExactly | src/daemon/input.c:270-289 | For a macro without wheels, in every state of every undisturbed run: the counter is the presses and releases of its combo, read off the keys of the scans, less two for every settled pass, if and only if no release finds it at 127. |
| MacroTaps.TapLedger | src/daemon/input.c:133-218 | Over any such run: passes begun, less repeats after a sleep and less the one that is open, are half of the presses and releases that have left the counter. |
| MacroTaps.TapsPlayed | src/daemon/input.c:133-218 | From the start, whenever the player has exited: every press and release was played exactly once, apart from repeats. |
| MacroTaps.OneTapOnePass | src/daemon/input.c:133-218 | One press and one release of an idle macro, with no repeat, play exactly one pass. |
| MacroTaps.HeldRepeats | src/daemon/input.c:179-217 | While the keys stay down a player goes round, with the first-repeat delay for its first sleep and the other one for all later sleeps. |
| MacroTaps.FirstAgain | src/daemon/input.c:132-195 | The first pass and every pass after a settled one start with the first-repeat delay again. |
| MacroDrain.PassesBounded | src/daemon/input.c:177-218 | Once the keys of a macro are up and as long as its counter has not run below zero, from any phase of its player, sleeping or reset by SWITCH included, it begins at most max(1, triggered/2) further passes, however often the mode is switched. |
| MacroDrain.PassesExact | src/daemon/input.c:177-218 | Under the same condition and without SWITCH that number is fixed by the phase and the counter. |
| MacroDrain.PassesBoundedExactly | src/daemon/input.c:177-218 | A macro whose player is at the head of the list has a bound on its further passes if and only if its counter is even and not negative. |
| MacroDrain.FinishesExactly | src/daemon/input.c:107-234 | From any state of the invariant: there is a number that no run of player steps exceeds, if and only if every counter is even and not negative. |
| MacroDrain.AllPlayersFinish | src/daemon/input.c:116-233 | With every counter even and not negative no run of player steps is longer than a rank read off the state; a run is that long exactly if all players have left, and then every counter is zero and every macro free. |
| MacroDrain.SomeoneCanMove | src/daemon/input.c:116-126 | As long as there is a player some player has a step: the list of players never gets stuck. |
| MacroDrain.SixtyFourTurns | src/daemon/input.c:274-281 | A concrete run of 64 wheel notches that leaves the counter at -128. |
| MacroDrain.SixtyFourTurnsNeverFinish | src/daemon/input.c:191-217 | After that run, with no key down, the runs of player steps have no bound. |
| MacroThreads.ThreadList.Enqueue | src/daemon/input.c:45-59 | Appends one fresh node; the list of ids grows at its end. |
| MacroThreads.ThreadList.Dequeue | src/daemon/input.c:67-80 | Removes and returns the first id; on an empty list returns 0 and changes nothing. |
| MacroThreads.ThreadList.First | src/daemon/input.c:88-90 | The first id, or 0. |
| MacroThreads.Engine.Scan | src/daemon/input.c:270-328 | The macro loop over the table equals the scan step. |
| MacroThreads.Engine.IsWheelKeybit | src/daemon/input.c:237-255 | The loop over the combo finds a wheel exactly if there is one. |
| MacroThreads.Engine.ScanSlot | src/daemon/input.c:272-326 | One turn of that loop, with the two increments for wheels and the three outcomes of starting a thread. |
| MacroThreads.Engine.Switch | src/daemon/command.c:235-241 | The reset loop equals the SWITCH step. |
| MacroThreads.Engine.Enqueue | src/daemon/input.c:118-119 | A starting player goes to the end of the list. |
| MacroThreads.Engine.Begin | src/daemon/input.c:121-132 | A waiting player goes on exactly if it is the head of the list, and otherwise changes nothing. |
| MacroThreads.Engine.Decide | src/daemon/input.c:191-203 | The decision after a pass equals the step: take two off, exit at zero, repeat at once or sleep. |
| MacroThreads.Engine.Wake | src/daemon/input.c:205-217 | The decision after the sleep equals the step: exit at two, else repeat. |
| MacroThreads.Engine.GiveUp | src/daemon/input.c:219-221 | The macro is freed of its player with the counter at zero. |
| MacroThreads.Engine.Leave | src/daemon/input.c:223-233 | The player leaves the list. |
| InputEvents.DeviceFollowsKeys | src/daemon/input.c:338-516 | After any sequence of reports, for injective bindings with no wheel bound to a silent code other than the two harmless ones, the virtual device holds exactly the codes bound to visible keys that are down in prevkeys, and every wheel is up. |
| InputEvents.FollowsExactly | src/daemon/input.c:353-428 | For injective bindings: every report from every mirrored state leaves the virtual device as the keys are, if and only if no wheel is bound to a silent code other than unbound and KEY_NONE. |
| InputEvents.WithinExactly | src/daemon/input.c:405-421 | Over all reports with a given turn of the wheel, from any keys with the wheels up: the copy of the last two events stays inside the array, if and only if the turn is at most one notch or the wheel key of its direction sends an event of its own, scrolls vertically or is unbound. |
| InputEvents.SpeakingWithin | src/daemon/input.c:405-421 | For any key map and any change of keys it stays inside if the wheel moved at most one notch or every newly pressed vertical wheel does so. |
| InputEvents.MuteWheelOutside | src/daemon/input.c:405-421 | A wheel key that does not, turned by several notches with no other key changed, makes the copy start before the array. |
| InputEvents.FoldMirrors | src/daemon/input.c:338-473 | One report: replaying its events carries the virtual device from the old keys to the new ones. |
| InputEvents.FoldSays | src/daemon/input.c:347-428 | For every visible key, the last thing the events say about its code: down, up, or nothing if it did not change; a pressed wheel ends up. |
| InputEvents.FoldBits | src/daemon/input.c:425-428 | Key bits after the scan: as reported, except that a newly pressed wheel is cleared. |
| InputEvents.OneKeyEvents | src/daemon/input.c:347-428 | One visible key changes: a release sends its key-up, a press its key-down, a volume or control wheel both, a vertical wheel both for every notch; wheels end up. |
| InputEvents.SilentKeys | src/daemon/input.c:353-396 | A key bound to -3 sends nothing; one bound to -1 sends nothing either, except an event for no code if it is a wheel. |
| InputEvents.WheelKeys | src/daemon/input.c:493-502 | A turned wheel presses key 250 or 251 by its direction, and no key if it did not turn. |
| InputScrolls.ScrollsExactly | src/daemon/input.c:368-383 | For every report and binding: one movement for each changed key that is bound to scrolling, in key order, by the reported turn or, without one, by the direction of the first key that gave one. |
| InputScrolls.OneKeyScrolls | src/daemon/input.c:368-383 | One changed key bound to wheel up, down, left or right scrolls by (0,1), (0,-1), (-1,0) or (1,0); a wheel turned by y scrolls by (0,y), bound to a horizontal direction by (y,0); any other code does not scroll. |
| InputScrolls.AxisKept | src/daemon/input.c:370-371 | A turn that the mouse reports is the same for all keys of the report. |
| InputScrolls.OppositeKeys | src/daemon/input.c:370-372 | Two keys bound to up and down that change in one report both scroll up if the first of them is the one bound to up. |
| InputEvents.PulsesLast | src/daemon/input.c:405-422 | However many notches are repeated, and whatever event stands before, the last event about the wheel's code is its key-up, and what is said last about any other code does not change. |
| InputEvents.ReplayByLast | src/daemon/input.c:454-473 | Replaying events leaves a code held exactly if the last event about it is a key-down, or there is none and it was held before. |
| InputEvents.SilentWheelSticks | src/daemon/input.c:353-428 | Any wheel bound to any other silent code: one notch leaves the code two below its negation pressed with no key down. |
| InputArray.Ordered | src/daemon/input.c:351-392 | If no wheel is pressed, the events are the modifier-downs, the other events and the modifier-ups, each in key order, one for each changed visible key. |
| InputArray.EventsFit | src/daemon/input.c:332-336 | With at most two volume, two control and two vertical wheel keys there are never more than N_KEYS_INPUT + 514 events, for every report, all bindings and at any point of the scan. |
| InputArray.Insert | src/daemon/input.c:357-363 | Shifting in place: the new event at its position, everything before and behind it unchanged. |
| InputArray.MoveTail | src/daemon/input.c:413 | The block move keeps what is before the gap and carries the tail over it. |
| InputArray.MoveOne | src/daemon/input.c:413 | One element of that move. |
| InputArray.MakeRoom | src/daemon/input.c:411-415 | The modifier-ups move up over a gap and the key-up stands where they began. |
| InputArray.AddPulses | src/daemon/input.c:411-421 | The key-up and the copied pairs stand between the events so far and the untouched modifier-ups. |
| InputArray.Repeat | src/daemon/input.c:417-421 | Copying the last two events again and again repeats that pair and leaves the tail alone. |
| InputArray.AddModDown | src/daemon/input.c:357-363 | The array goes from one state of its three regions to the one with a further modifier-down. |
| InputArray.AddKey | src/daemon/input.c:384-391 | The same for a further regular event. |
| InputArray.AddModUp | src/daemon/input.c:364-367 | The same for a further modifier-up. |
| InputArray.AddWheel | src/daemon/input.c:405-422 | The same for a scroll wheel's key-up and its repetitions. |
| InputArray.Input.EchoKey | src/daemon/input.c:352-392 | Array, counters, wheel registers and scroll output after echoing a change equal the specification's. |
| InputArray.Input.PulseKey | src/daemon/input.c:395-424 | The same for the key-ups that wheels need. |
| InputArray.Input.PulseWheel | src/daemon/input.c:405-422 | The same for a scroll wheel bound to a key or button, including the missing axis that counts as 1. |
| InputArray.Input.FinishKey | src/daemon/input.c:394-428 | The same with the wheel's bit cleared. |
| InputArray.Input.HandleKey | src/daemon/input.c:351-429 | One changed key, echo and key-ups together. |
| InputArray.Input.Emit | src/daemon/input.c:454-473 | The replay loop has the effect of the event list on the virtual device. |
| InputArray.Input.ScanKey | src/daemon/input.c:342-452 | One key of the scan takes the array, the counters and the key bits to the specification's next state, within the array's size. |
| InputArray.Input.UpdateKeys | src/daemon/input.c:261-474 | The whole scan and replay equal the specification, and the scrolling sent out is that of InputScrolls; nothing happens if no key changed. |
| InputArray.Input.Update | src/daemon/input.c:489-514 | A report equals one step of the specification that InputEvents.DeviceFollowsKeys is about, and scrolls what InputScrolls says. |
| DpiSync.SafeExactly | src/daemon/dpi.c:122-213 | From a mirroring cache with an enabled stage: after every single packet the current stage is enabled, if and only if the request enables the stage it selects. |
| DpiSync.ReadyAtSwitch | src/daemon/dpi.c:122-167 | When the stage switch is sent, the new stage is enabled and has its requested X and Y already. |
| DpiSync.UpdateArrives | src/daemon/dpi.c:110-218 | An update from a mirroring cache, or a forced one from any cache and any device state, leaves the mouse with exactly what was requested. |
| DpiSync.MirrorOverRuns | src/daemon/dpi.c:110-218 | Over every run of edits, mode switches and updates the cache mirrors the mouse; a forced update establishes it from nothing; right after an update the mouse has what the current mode asks for. |
| DpiSync.FailureExactly | src/daemon/dpi.c:139-216 | If an update, forced or not, fails half way, the cache still mirrors the mouse if and only if no packet sent after the preparation of the new stage changes a setting. |
| DpiSync.UnforcedFailureExactly | src/daemon/dpi.c:139-216 | For an unforced update that is: if and only if the failure came no later than the stage switch. |
| DpiSync.RetryArrives | src/daemon/dpi.c:110-218 | However often and wherever unforced updates for one request fail, the first that gets through leaves the mouse with exactly what was requested. |
| DpiSync.RetryHappens | src/daemon/dpi.c:116-119 | After a failure the cache differs from the request, so that the next update goes ahead. |
| DpiSync.ArrivesExactly | src/daemon/dpi.c:122-213 | From any cache and any device state an update brings what is requested if and only if it is forced or every setting differs from the cache, is changed for the switch, or is there already. |
| DpiSync.EndsAtFinal | src/daemon/dpi.c:122-213 | The device state that an unforced update leads to, setting by setting, from any cache and any device state. |
| DpiSync.UpdateArrivesExactly | src/daemon/dpi.c:110-218 | The same for the whole function, with its test whether anything changed. |
| DpiSync.EditArrivesExactly | src/daemon/dpi.c:110-218 | After an unforced update that failed anywhere, an update for any other request brings what that one asks for if and only if, for every packet sent after the preparation, it asks for the same setting or sends that setting again. |
| DpiSync.EditForgets | src/daemon/dpi.c:116-119 | In particular, if the request is edited to what the cache says after the switch went out, nothing is sent and the mouse keeps settings nobody asked for. |
| DpiSync.ProfileArrives | src/daemon/dpi.c:150-156 | Two bytes per axis and one bit for independent axes carry both 16-bit values. |
| DpiSync.ProfileBytes | src/daemon/dpi.c:148-156 | The packet has both axes, low byte first, and the flag for independent axes exactly if they differ. |
| DpiSync.ForcedPlan | src/daemon/dpi.c:122-213 | The twelve packets of a forced update, in order. |
| DpiSync.NothingTwice | src/daemon/dpi.c:122-203 | An unforced update sends every stage that differs once and no other, and the mask packets are listed: at most one, unless a disabled stage has to be enabled and the old one disabled afterwards. |
| DpiSync.FlagsDown | src/daemon/dpi.c:117-120 | After any update both force flags are down and cache and request are the same; the other modes are untouched. |
| DpiSync.ResultMeans | src/daemon/dpi.c:139-217 | Zero exactly if everything got through, -1 if a stage was lost, -2 if anything else was. |
| DpiSync.Syncer.SendIf | src/daemon/dpi.c:139-141 | A wanted packet reaches the mouse and the log, or is lost if the link fails; an unwanted one changes nothing. |
| DpiSync.Syncer.PrepareStage | src/daemon/dpi.c:122-162 | Sends exactly the preparation, stops at a failure with the right code, and caches what got through. |
| DpiSync.Syncer.SendProfiles | src/daemon/dpi.c:174-196 | Sends the stages that differ, in order, up to a failure. |
| DpiSync.Syncer.SendProfile | src/daemon/dpi.c:175-195 | One stage: its packet if it differs, or the failure code. |
| DpiSync.Syncer.SendSettings | src/daemon/dpi.c:199-213 | Sends the mask, lift height and snap packets that are needed, up to a failure. |
| DpiSync.Syncer.SendRest | src/daemon/dpi.c:163-213 | Sends the switch and everything after it, up to a failure, without touching the cache. |
| DpiSync.Syncer.Push | src/daemon/dpi.c:122-217 | All packets in order with the return value of the first that fails; the cache takes the request over only at the end. |
| DpiSync.Syncer.UpdateNow | src/daemon/dpi.c:120-217 | The same from the point where both force flags are cleared. |
| DpiSync.Syncer.Update | src/daemon/dpi.c:110-218 | Does nothing if idle or nothing changed; otherwise mouse, packets, cache, request and return value are exactly those of the plan, for any number of packets that get through. |
| DpiSync.Syncer.Edit | src/daemon/dpi.c:32-40 | Whatever request is put into a mode, mouse and cache are not touched. |
| DpiSync.Syncer.Select | src/daemon/command.c:240 | Switching the mode touches neither mouse nor cache. |
| Bragi.PacketCount | src/daemon/bragi_common.c:38-102 | The number of packets sent, times the packet size, is the calculated buffer size, for every length and packet size. |
| Bragi.BufferFits | src/daemon/bragi_common.c:38-52 | No packet of the loop reaches beyond the calculated size. |
| Bragi.EnoughRoom | src/daemon/bragi_common.c:38-52 | Header and data fit the calculated size. |
| Bragi.PayloadsRestore | src/daemon/bragi_common.c:83-99 | The continuation payloads put together are the original buffer behind the first packet, at least to the end of the data. |
| Bragi.WriteStores | src/daemon/bragi_common.c:60-102 | A byte store that receives the packets holds exactly the data, whatever it held before. |
| Bragi.OtherHandleExactly | src/daemon/bragi_common.c:89-92 | On any other handle the data arrives if and only if it fits the first packet. |
| Bragi.WordRoundTrip | src/daemon/bragi_common.c:74 | The four little-endian length bytes read back as the length. |
| Bragi.HeaderLayout | src/daemon/bragi_common.c:69-92 | The bytes of both headers. |
| Bragi.WordLayout | src/daemon/bragi_common.c:74 | The length goes lowest byte first. |
| Bragi.Continue | src/daemon/bragi_common.c:89-95 | The header goes over three bytes already sent, the packet carries the bytes behind them, and nothing behind the header changes. |
| Bragi.SendAll | src/daemon/bragi_common.c:78-101 | Exactly the packets made from the buffer's original contents go out, up to a failure, although headers overwrite it meanwhile. |
| Bragi.WriteToHandle | src/daemon/bragi_common.c:60-106 | A buffer that is too short is refused untouched; otherwise the same with the header in front, and nothing beyond the calculated size is written. |
| Bragi.ReadSome | src/daemon/bragi_common.c:142-164 | One read brings the next stretch of the stream, cut off at the length. |
| Bragi.ReadFromHandle | src/daemon/bragi_common.c:124-167 | Either fails with nothing returned, or makes exactly ceil(len/(packet size - 3)) reads and returns exactly the first len bytes of the stream. |
| Bragi.WriteData | src/daemon/bragi_common.c:54-106 | A write with a buffer of the calculated size stores the data on the device. |
| Bragi.WriteThenRead | src/daemon/bragi_common.c:54-167 | Writing to the lighting handle and reading it back is the identity for 1 byte to 100 MiB, and reads nothing for any other length. |
| RootFinder.Round | src/daemon/input_mac_mouse_legacy.c:176-188 | The invariant of one round: the remainder is the prefix less the square of half of root, and at most twice it; the larger digit is taken exactly if it fits. |
| RootFinder.Consume | src/daemon/input_mac_mouse_legacy.c:178-179 | The top two bits shifted out are the next base-4 digit of the argument, and the word holds the rest. |
| RootFinder.DigitRoot | src/daemon/input_mac_mouse_legacy.c:170-216 | For any word width of at least four bits, with every operation wrapping: the integer square root. |
| RootFinder.LLSqrt | src/daemon/input_mac_mouse_legacy.c:170-192 | For every 64-bit x the result r fits 32 bits and r*r <= x < (r+1)*(r+1). |
| RootFinder.LSqrt | src/daemon/input_mac_mouse_legacy.c:194-216 | For every 32-bit x the result r fits 16 bits and r*r <= x < (r+1)*(r+1). |
| SegmentMerge.TakesAll | src/daemon/input_mac_mouse_legacy.c:841-869 | The merge takes every point of both curves exactly once. |
| SegmentMerge.TakesInOrder | src/daemon/input_mac_mouse_legacy.c:841-869 | From sorted curves it takes them in order of X, the smallest first. |
| SegmentMerge.TurnAt | src/daemon/input_mac_mouse_legacy.c:841-915 | The n-th turn works with the points and line ends left by the n turns before it. |
| SegmentMerge.FarEnd | src/daemon/input_mac_mouse_legacy.c:842-869 | Which point each turn takes, and that its line ends at the next point of the other curve, or at its last one. |
| SegmentMerge.NearEnd | src/daemon/input_mac_mouse_legacy.c:894-905 | The line starts at the origin; while both curves have points, its start moves to the point just taken when a low point is next and stays when a high one is. |
| SegmentMerge.NearEndBack | src/daemon/input_mac_mouse_legacy.c:906-913 | Once a curve is used up, it starts where that of the turn before the last did. |
| SegmentMerge.LowNeighbourExactly | src/daemon/input_mac_mouse_legacy.c:842-905 | A low point is compared with the line between its neighbours on the high curve if and only if it is the very first, or a high point was taken just before it, or the points coincide. |
| SegmentMerge.HighNeighbourExactly | src/daemon/input_mac_mouse_legacy.c:842-905 | A high point is compared with the line between its neighbours on the low curve if and only if no low point was taken yet, or the points coincide. |
| Acceleration.MergeExact | src/daemon/input_mac_mouse_legacy.c:821-915 | Exactly lowPoints + highPoints segments, within segCount, with device units that never fall and MAX_DEVICE_THRESHOLD last. |
| Acceleration.JumpAtThreshold | src/daemon/input_mac_mouse_legacy.c:874-1010 | For sorted curves: at a threshold and just above it the search returns two segments, and the speed jumps between them by what the scaled points with that X rise from the end of the former to the start of the latter, up to less than one unit and the rounding of the slope; if the latter is vertical, to its end. |
| Acceleration.JumpExactly | src/daemon/input_mac_mouse_legacy.c:874-890 | The same bound for any two segments whose adjoining points have the same X. |
| Acceleration.CurveJumps | src/daemon/input_mac_mouse_legacy.c:841-1010 | Two sorted curves with a point at X = 1 each, where the speed is 2 at magnitude 1 and 3 just above it, although no cast cuts anything. |
| Acceleration.NotTheNeighbour | src/daemon/input_mac_mouse_legacy.c:841-905 | Two sorted curves where a high point is compared with a line from the origin instead of from the low point before it. |
| Acceleration.Blends | src/daemon/input_mac_mouse_legacy.c:709-728 | The blended height is that of the lower curve at scale 0 and of the higher one at scale 1; in between it is between them, as far from the lower one as the scale says, up to less than one unit. |
| Acceleration.BlendsMonotone | src/daemon/input_mac_mouse_legacy.c:709-728 | With a larger scale it is nearer to the higher curve. |
| Acceleration.HeightOnLine | src/daemon/input_mac_mouse_legacy.c:719-721 | The height of a line at any X is that of the straight line through its ends, up to less than one unit and the rounding of the slope; exact at its start, level if it is vertical. |
| Acceleration.SpeedsBlend | src/daemon/input_mac_mouse_legacy.c:872-887 | For every point of the merge but the last: its segment ends at its scaled X, and the speed there is the scaled blend of the point and the line of the other curve. |
| Acceleration.DivideTruncates | src/daemon/input_mac_mouse_legacy.c:254-257 | Fixed-point division cuts towards zero, with the sign of the quotient. |
| Acceleration.LineMeetsStart | src/daemon/input_mac_mouse_legacy.c:883-887 | From left to right, a line none of whose casts cuts anything misses the point it starts from by less than one unit and the rounding of the slope over its length; a vertical line is at the height of its end. |
| Acceleration.NextTurn | src/daemon/input_mac_mouse_legacy.c:842-913 | One turn of the loop's point bookkeeping, swaplines included, equals the specification. |
| Acceleration.Put | src/daemon/input_mac_mouse_legacy.c:870-892 | One turn fills the next segment, and no other, with the specified line. |
| Acceleration.MergeCurves | src/daemon/input_mac_mouse_legacy.c:821-920 | The loop fills the allocated array with exactly the segments of the merged turns. |
| Acceleration.FindSegment | src/daemon/input_mac_mouse_legacy.c:1003-1006 | The search stops inside the filled part, at the first segment that reaches the magnitude. |
| Acceleration.FindLowest | src/daemon/input_mac_mouse_legacy.c:1003-1006 | With rising thresholds the segment found has the lowest one that reaches the magnitude. |
| Acceleration.Lookup | src/daemon/input_mac_mouse_legacy.c:821-1006 | Setup and search together find, for any magnitude and any two sorted curves, a covering segment with the lowest threshold. |
| LightingText.WordsOfJoin | src/daemon/command.c:332-344 | Words without blanks, joined by blanks, come apart into the same words. |
| LightingText.FieldsOfJoin | src/daemon/command.c:347-369 | Names without separators, joined by commas, come apart into the same names. |
| LightingText.ScanPrinted | src/daemon/led.c:45-49 | A colour printed as six hexadecimal digits scans as itself, and its text has no separator in it. |
| Lighting.GroupsUniform | src/daemon/led.c:187-209 | Every group printed consists of shown keys of one colour. |
| Lighting.PrintedOnce | src/daemon/led.c:187-209 | Every key still named from a position on is in exactly one group, exactly once, and no other key is. |
| Lighting.PrintedExactly | src/daemon/led.c:159-209 | A key is printed exactly if it has an LED and a name and exists in the layout, and then once. |
| Lighting.Shortcut | src/daemon/led.c:168-183 | If all those keys have the colour of the first key, the line is that colour alone. |
| Lighting.WordComesApart | src/daemon/command.c:332-369 | A printed word is not taken for a colour, its left side is up to the colon, and its fields are the names. |
| Lighting.RunPrintedWord | src/daemon/command.c:332-370 | Reading one printed word sets every key of its group to the printed colour and changes nothing but towards it. |
| Lighting.RunPrintedWords | src/daemon/command.c:310-370 | The same for a whole line: later words do not undo earlier ones, keys that share an LED included. |
| Lighting.PrintedRestores | src/daemon/led.c:145-211 | Printing a lighting state and reading the line back on any other state restores the colour of every shown key; without the all-keys shortcut nothing else is written. |
| LightingNames.AllKeys | src/daemon/command.c:310-354 | The word "all" with a colour, or a colour alone: every LED of a key takes the colour, and no other LED changes. |
| LightingNames.ColourWord | src/daemon/command.c:310-319 | The same for any word that starts with a colour. |
| LightingNames.KeyByNumber | src/daemon/command.c:355-358 | A key by its number, decimal or hexadecimal: its LED alone takes the colour. |
| LightingNames.KeyByName | src/daemon/command.c:359-367 | A key by its name: the LED of the first key of that name alone, or nothing. |
| LightingNames.NoColour | src/daemon/led.c:44-49 | A word whose right side is no colour, or that has none, changes nothing. |
| LightingNames.ScanCapitals | src/daemon/led.c:45 | Capital hexadecimal digits read the same. |
| LightingNames.ScanFive | src/daemon/led.c:45 | With five digits the last channel has one. |
| LightingNames.NumeralOfDigits | src/daemon/command.c:355-356 | Every number reads back as itself, in both bases. |
| LightingCommands.PrintGroup | src/daemon/led.c:190-205 | One group: the names of all later keys with the same colour, which are erased in place. |
| LightingCommands.PrintWord | src/daemon/led.c:189-208 | A group and its colour are appended behind a blank, or at the start. |
| LightingCommands.PrintGroups | src/daemon/led.c:186-210 | The outer loop prints exactly the words of the groups, each name once. |
| LightingCommands.PrintRgb | src/daemon/led.c:145-211 | For any key map whose LEDs exist and whose first key has one: the whole function equals the line that Lighting.PrintedRestores is about. |
| LightingCommands.Set | src/daemon/led.c:7-50 | A key's LED takes the scanned colour; nothing else changes, and nothing at all without an LED or a colour. |
| LightingCommands.SetEvery | src/daemon/command.c:313-317 | All keys in map order take the colour. |
| LightingCommands.SetNamed | src/daemon/command.c:351-367 | All keys, the key of that number, the first key of that name, or none. |
| LightingCommands.ReadField | src/daemon/command.c:349-370 | One turn of the key-list loop: the field is applied and the position moves past it and one comma. |
| LightingCommands.ReadFields | src/daemon/command.c:346-370 | The key-list loop applies every field in order and stops at an empty one. |
| LightingCommands.ReadWord | src/daemon/command.c:310-370 | One word: a colour for all keys, or a list of keys. |
| LightingCommands.ReadRgb | src/daemon/command.c:310-370 | The word loop has the effect of the words in order. |
| LightingCommands.PrintThenRead | src/daemon/led.c:145-211 | Run together on actual arrays: every shown key gets its colour back. |
| ColourPacking.LoadedLevels | src/daemon/led_keyboard.c:49-67 | On each of the 144 transmitted LEDs and each channel, what is loaded from a packed lighting is the expanded level of the input, dithered or not. |
| ColourPacking.SecondRoundExactly | src/daemon/led_keyboard.c:330-357 | A second save and load changes an LED exactly if its level does not survive expansion. |
| ColourPacking.SecondRoundDithered | src/daemon/led_keyboard.c:9-31 | With the dithering table of the source a second save and load changes an LED exactly if it is number 0, 63, 64, 127, 128 or 129 and the level is one of those listed for it. |
| ColourPacking.DriftsExactly | src/daemon/led_keyboard.c:9-31 | For each LED, the levels that do not survive expansion and dithering again. |
| ColourPacking.SecondRoundPlain | src/daemon/led_keyboard.c:33-37 | Without dithering the second save and load is the identity. |
| ColourPacking.ExpandOrderedExactly | src/daemon/led_keyboard.c:25-31 | With a dithering threshold, exactly which levels survive. |
| ColourPacking.OrderedRounds | src/daemon/led_keyboard.c:25-31 | A dithered level is less than one step away from the exact share of seven; black and full stay what they are. |
| ColourPacking.QuantizedRounds | src/daemon/led_keyboard.c:33-37 | Without dithering a level is the share of eight, rounded down. |
| ColourPacking.ExpandValues | src/daemon/led_keyboard.c:353-356 | The eight levels as bytes. |
| ColourPacking.ExpandOver | src/daemon/led_keyboard.c:344-356 | A half byte that is no level comes out between 252 and 255. |
| ColourPacking.TableExactly | src/daemon/led_keyboard.c:9-23 | The table is the bit reversal of its index exactly in its first half. |
| ColourPacking.PackPlane | src/daemon/led_keyboard.c:53-60 | Two inverted levels to a byte, for every pair of LEDs. |
| ColourPacking.PackedHalves | src/daemon/led_keyboard.c:53-60 | Inverting the half byte of an LED gives its level back. |
| ColourPacking.PackedLayout | src/daemon/led_keyboard.c:57-59 | The even LED is in the low half of its byte and the odd one in the high half, both inverted. |
| ColourPacking.MakeRgb512 | src/daemon/led_keyboard.c:49-67 | The payloads of the four packets are red, green and blue one after the other; headers are kept. |
| ColourPacking.LoadRgb | src/daemon/led_keyboard.c:330-357 | Every LED below 144 is read from its place in the payloads, whatever the unwritten bytes hold. |
| ColourPacking.UnpackPlane | src/daemon/led_keyboard.c:339-357 | Every LED is the expanded inverse of its half byte. |
| ColourPacking.SaveAndLoad | src/daemon/led_keyboard.c:49-67 | Through actual packets: every transmitted LED comes back as its expanded level. |
| Firmware.FileArrives | src/daemon/firmware.c:154-236 | For every accepted file, from any device state: the declared parts of the packets put the file byte for byte in place, the final message announces the number of blocks, at most 255, and the first block is full. |
| Firmware.BlocksArrive | src/daemon/firmware.c:187-227 | After n blocks the device holds the first 256 n bytes and is at block n - 1. |
| Firmware.ChunkAfter | src/daemon/firmware.c:191-205 | One more packet puts the next 60 or 16 bytes of the file behind those before it, cut off at its end. |
| Firmware.BlockCount | src/daemon/firmware.c:154-190 | Block indices fit a byte and all blocks but the last are full. |
| Firmware.MessageLayout | src/daemon/firmware.c:176-184 | The bytes of the start, position and reset messages, zero to their ends. |
| Firmware.ChunkLayout | src/daemon/firmware.c:176-220 | The bytes of a data packet: its number, the declared length, cut short at the end of the file, and the data, zero behind the file. |
| Firmware.IdMatchesExactly | src/daemon/firmware.c:162-168 | A signed id from the file equals an unsigned one of the device exactly if its bytes are those of the id, low byte first, and the id is below 0x8000. |
| Firmware.FillBlock | src/daemon/firmware.c:188-205 | The inner loop fills as many packets as start inside the file and says where it stopped. |
| Firmware.FinishBlock | src/daemon/firmware.c:218-220 | Adjusting one length byte makes the packets exactly those of the block. |
| Firmware.SendBlock | src/daemon/firmware.c:188-225 | One turn of the outer loop sends exactly the messages of its block, or as many as get through. |
| Firmware.SendBlocks | src/daemon/firmware.c:185-227 | The outer loop terminates and sends a prefix of the stream: all blocks, or as many messages as get through. |
| Firmware.NewPackets | src/daemon/firmware.c:176-184 | The packets start blank, with bulk numbers 1 to 5 and lengths 60, 60, 60, 60 and 16. |
| Firmware.Update | src/daemon/firmware.c:142-242 | Each status if and only if it applies, the sizes and the id bytes spelt out and a link that carries less than the whole stream included; on success the stream went out whole, on a failing link exactly what got through, otherwise nothing. |

## Left out

- Macro table edits and aborts (input.c:627-761): erasing shifts slots and growing moves the table while players hold pointers; the player results assume an unchanged table.
- MacroThreads.Engine.GiveUp: the branch for an aborted macro, which leaves `param` alone, is not modelled, because aborts come from table edits only.
- MacroDrain.PassesBounded: does not speak of counters below zero, for which there is no bound; MacroDrain.PassesBoundedExactly and MacroDrain.FinishesExactly say so exactly.
- MacroDrain.PassesExact: the same.
- MacroDrain.AllPlayersFinish: the same.
- The contents of a pass (input.c:136-175): actions, mouse moves and delays within it; a pass is one phase. Scans with an inactive keyboard or unchanged keys leave the macros alone and are no steps.
- The macro thread list across devices: it is global but guarded by a mutex of each device; one device is modelled.
- Scheduling and time: a sleep may end at any moment, and waiting loops are steps between releases of the inner mutex; that runs are fair is not assumed, and liveness is stated as steps that are enabled and runs that are bounded.
- NO_FAIR_MUTEX_QUEUEING builds, and errors of the pthread functions other than pthread_create.
- MacroTaps.TapsPlayed: excludes SWITCH, failing starts and counters that run over, for which MacroTaps.CountedExactly shows it fails; the lengths of the delays are not modelled, only which one is used.
- MacroEngine.LiveOverRuns: assumes that malloc succeeds whenever a player is to start, because the source leaves a raised counter without a player otherwise; MacroEngine.LiveExactly has the exact condition.
- MacroWheels.PlayedExactlyOnce: excludes SWITCH and failing starts, which throw activations away, and presses that find the counter at 126, for which MacroWheels.BalancedExactly shows it fails.
- InputEvents.WithinExactly: assumes that only the mouse's own two wheel keys scroll vertically, as in keymap.c:293-294; InputEvents.SpeakingWithin does without.
- InputEvents.DeviceFollowsKeys: excludes bindings of two visible keys to one code, wheels bound to silent codes other than unbound and KEY_NONE, for which InputEvents.FollowsExactly shows it fails, and reports for which line 419 would read before the array.
- Sync flags and os_inputsync, mouse movement, notifications and indicator LEDs; key bits are booleans, not bits of bytes; 6KRO reports (keymap.c) come in as key bits.
- The edit of bindings while reports arrive: the configuration is fixed for a sequence of reports.
- DpiSync.Syncer.Edit: the scanning of stages, values, "off" and ranges in dpi.c:6-86 is not modelled; any request may be put into a mode, so that the results hold for whatever a command asks for. A request with current equal to 6, which cmd_dpisel lets through, is excluded.
- DpiSync.Syncer.SendProfiles: the colour bytes 9 to 11 that some devices take in these packets are not part of the packet. savedpi and loaddpi are left out.
- DpiSync.Syncer.SendProfile: the same colour bytes.
- DpiSync.RetryArrives: is about unforced updates; a forced one needs no such result, because it arrives from any cache and any device state.
- A DPI packet whose send fails counts as not received by the mouse.
- NDEBUG builds of the Bragi writer, which do not check the buffer size; device error codes in responses, which the writer ignores and the reader treats like a failed read; opening, closing and probing handles, and jumbo packets.
- Acceleration.MergeExact: requires at least one high point, a device scale that is not negative and products within 32 bits; the choice of the two curves from the table, its big-endian reading, and overflow of sums and differences are not modelled, and neither is the rest of ScaleAxes.
- Acceleration.Blends: requires that the difference of the two heights fits 32 bits, because the cast cuts it otherwise, and a scale from 0 to 1.
- Acceleration.JumpAtThreshold: says nothing about lines where the slope or a product of it with an end leaves 32 bits, because the casts cut them.
- Acceleration.LineMeetsStart: the same, and lines from right to left, which sorted curves do not have.
- Lighting.PrintedRestores: requires names without separators that are no colours, an LED for the first key, and names that no earlier key has; name truncation, the 4096-byte buffer and the duplicate report of debug builds are not modelled.
- LightingCommands.Set: the side light (LED number -2) is not part of the lighting state here.
- LightingCommands.SetNamed: key numbers with a sign or a 0x prefix, numbers of 2^32 or more, and a lone "#", for which the source uses an uninitialised number, are not modelled.
- LightingCommands.ReadField: the same.
- LightingCommands.ReadFields: the same.
- LightingCommands.ReadWord: signs, a 0x prefix and white space, which scanf accepts inside a colour, are not modelled.
- Other commands of readcmd, and readline_fifo.
- LEDs 144 to 151 in the 9-bit format, which are never transmitted; the 24-bit format; reply header checks in loadrgb_kb.
- Retries, delays and resets of USB, reading the firmware file, and the version that is recorded after an update.
- Plumbing for uinput, udev, IOKit and files, device tables and the Qt program.
