# MP3 play-control example, modelled in Dafny

This project models the control logic of the ESP-ADF "play MP3 with
control" example (`main/play_mp3_control_example.c`). The example plays
three MP3 assets that are compiled into the firmware. Button and touch
events drive it. A background task keeps checking that the FAT file
system still works.

The four pieces of sequential logic in that file are modelled as pure
functions over immutable values:

- `TrackStream` (`track_stream.dfy`) models the byte-supply callback
  `mp3_music_read_cb`. The file-scope `file_marker` becomes a `Marker`
  value: the bytes of the selected asset plus a cursor. A call is `Read`,
  which returns either the end-of-stream sentinel (`Done`, standing for
  `AEL_IO_DONE`) or a chunk, together with the advanced marker. `Drain`
  runs a sequence of calls with the requested lengths.
- `TrackSelect` (`track_select.dfy`) models `set_next_file_marker`. The
  function's static index and the marker form a `Selector`. Index values
  the `switch` does not know are modelled too: they take the default
  branch, which keeps the old asset.
- `Controller` (`controller.dfy`) models one iteration of the `while (1)`
  loop in `app_main` as `Step`. `Step` maps an event and the loop's state
  (volume and selector) to a new state, a trace of external calls
  (`Action`s) and an exit flag. `Run` folds `Step` over an event sequence
  and stops at the first exit. The i2s writer's element state and the
  decoder's music info are read from the pipeline while a message is
  handled, so they arrive with the event. `Apply`/`ApplyAll` give the
  lifecycle edges the controller expects from the pipeline: run goes to
  Running, pause goes from Running to Paused, resume goes from Paused to
  Running, stop goes to Stopped, and change-state(INIT) goes to Init. The
  Play table is checked against these edges.
- `StorageCheck` (`storage_check.dfy`) models `testWriteAndReadFile`,
  `worker` and `foreverLoop` as a monitor state machine. The file system
  is a map from path to contents. A `Faults` value says what the medium
  does in one cycle: each of the two `fopen` calls may fail, and the medium may keep
  something other than what was written. The pass counter is a 16-bit
  `Counter` that wraps. A failure moves the monitor to `Halted`, which is
  terminal.

Points where the code does something a reader might not expect, which
the model follows:

- The FINISHED branch of the Play key logs "Rewinding" (line 293) but
  calls `set_next_file_marker` (line 297). It moves on to the next asset
  instead of replaying the one that finished (`FinishedPlayAdvances`).
- `mp3_music_read_cb` returns `AEL_IO_DONE` whenever the cursor is at the
  end (lines 82-84). At the end it returns the sentinel on every call, not
  just once (`DoneRepeats`).
- `worker` runs the first check before its first delay (lines 170-172).
  There is no delay before the first check.
- `nTest` is a `uint16_t` (line 134), so `nTest += 1` (line 160) wraps to 0
  after 65535 (`Increment`).
- Vol+ clamps only from above and Vol− only from below (lines 318-329).
  A hardware volume that starts outside [0, 100] is not forced back into
  range by the opposite key. The range invariant holds when the start
  volume is in range (`RunKeepsInvariants`).

## Model

| member | source | states |
|---|---|---|
| `TrackStream.Read` | main/play_mp3_control_example.c:81-91 | returns the sentinel exactly when the cursor is at the end of the asset, and then leaves the marker unchanged; otherwise returns min(len, remaining) bytes, never more than len, equal to the asset from the cursor, and advances the cursor by exactly that count, staying within the asset |
| `TrackStream.DrainPosition` | main/play_mp3_control_example.c:82-89 | after successive calls the cursor stands at min(asset length, start + sum of requested lengths) |
| `TrackStream.DrainContent` | main/play_mp3_control_example.c:88-90 | the bytes of successive calls, concatenated, are the asset from the starting cursor to the final cursor, with nothing skipped or repeated |
| `TrackStream.DoneRepeats` | main/play_mp3_control_example.c:82-84 | once the cursor is at the end, every further call returns the sentinel and leaves the marker unchanged |
| `TrackStream.DoneExactlyAfterAll` | main/play_mp3_control_example.c:82-90 | a call returns the sentinel if and only if the earlier calls have already delivered every byte from the starting cursor to the end |
| `TrackStream.WholeTrack` | main/play_mp3_control_example.c:81-91 | round trip: from cursor 0, more positive-length calls than the asset has bytes deliver exactly the whole asset, and the last call returns the sentinel |
| `TrackStream.DrainSnoc` | main/play_mp3_control_example.c:81-91 | one more call extends a run of calls by exactly the reply and marker `Read` gives from where the run left the cursor |
| `TrackStream.PullWhole` | main/play_mp3_control_example.c:81-91 | round trip with a fixed request size: the replies are exactly those of successive `Read` calls of len bytes from cursor 0, up to the first sentinel; every call but the last hands over between 1 and len bytes, the last returns the sentinel, and together they deliver exactly the asset |
| `TrackSelect.SelectNext` | main/play_mp3_control_example.c:56-79 | each call resets the cursor to 0; a known index selects its asset (0 low, 1 medium, 2 high) and moves to the following tier; an unknown index keeps the previous asset; an index of 2 or more wraps to 0, and a negative index goes up by one |
| `TrackSelect.SelectionKeepsInvariant` | main/play_mp3_control_example.c:75-78 | starting from a known index, any number of calls keeps the index in {0,1,2}, and after at least one call the cursor is 0 |
| `TrackSelect.DefaultUnreachable` | main/play_mp3_control_example.c:57-77 | from power-on the index is always 0, 1 or 2, so the default error branch never runs |
| `TrackSelect.SelectionFromBoot` | main/play_mp3_control_example.c:56-79 | after n calls from power-on the index is n mod 3, and the marker is at the start of the low, medium, high, low, … asset |
| `TrackSelect.FirstSelectionIsLow` | main/play_mp3_control_example.c:57-63 | the first call after power-on selects the low-rate asset at cursor 0 |
| `TrackSelect.ThreeCallsCycle` | main/play_mp3_control_example.c:59-77 | three calls bring the index back, and three more calls after a selection select the same asset again |
| `Controller.Start` | main/play_mp3_control_example.c:206-256 | before the loop the volume is the hardware volume, the low-rate asset is selected at cursor 0, and the pipeline is run |
| `Controller.PlayStep` | main/play_mp3_control_example.c:276-302 | Play never exits or changes the volume; INIT makes only the run call, RUNNING only pause, PAUSED only resume; FINISHED makes reset ringbuffer, reset elements, change state to INIT, next track and run; any other state makes no call; the track advances exactly in the FINISHED state |
| `Controller.ModeStep` | main/play_mp3_control_example.c:307-315 | Mode never exits or changes the volume, always advances the track, and makes stop, wait, terminate, reset ringbuffer, reset elements, next track and run, in that order |
| `Controller.KeyStep` | main/play_mp3_control_example.c:275-333 | the loop exits exactly on Set, with no call; Play and Mode are handled by their branches (`PlayStep`, `ModeStep`); the track advances exactly on Mode, or on Play when FINISHED; Vol+ sets min(v+10, 100) and Vol− sets max(v−10, 0), each with exactly one `set_volume` call carrying the new level and no other call or change; an unknown key does nothing |
| `Controller.Step` | main/play_mp3_control_example.c:258-334 | one loop iteration: exits exactly on a Set key press; advances the selector exactly on Mode, or on Play when FINISHED, and logs the selection in the trace exactly then; on Vol+/Vol− makes exactly one call, `set_volume` with the new volume, and leaves the track alone; a Play press is handled by the Play branch for the writer's state; Vol+ gives min(v+10, 100) and Vol− gives max(v−10, 0); other events keep the volume; keeps a volume in [0, 100] in range |
| `Controller.KeyDispatch` | main/play_mp3_control_example.c:275-276 | a key-peripheral press that is not a music-info report goes to the key dispatch, with the writer's state |
| `Controller.IgnoredEvents` | main/play_mp3_control_example.c:260-275 | a failed listen, a message from another source or with another command, or an unknown key changes nothing and makes no call |
| `Controller.MusicInfoConfiguresWriter` | main/play_mp3_control_example.c:265-273 | the decoder's music-info report copies sample rate, bits and channels to the i2s writer's info and clock, and changes nothing else |
| `Controller.ModeRestartsOnNextTrack` | main/play_mp3_control_example.c:307-315 | Mode makes stop, wait, terminate, reset ringbuffer, reset elements, next track and run, in that order; it selects the next asset at cursor 0, keeps the volume, and leaves the writer Running from any state |
| `Controller.FinishedPlayAdvances` | main/play_mp3_control_example.c:292-299 | Play in FINISHED makes reset ringbuffer, reset elements, change state to INIT, next track and run; it selects the next asset at cursor 0, not the one that finished |
| `Controller.RunKeepsInvariants` | main/play_mp3_control_example.c:316-331 | over any event sequence, a volume that starts in [0, 100] stays there, and the selector index stays in {0,1,2} |
| `Controller.OneSetVolumePerVolumeEvent` | main/play_mp3_control_example.c:316-331 | without a Set press, the loop makes exactly as many `set_volume` calls as there are volume events; the last call carries the final volume, and with no call the volume is unchanged |
| `Controller.Run` | main/play_mp3_control_example.c:258-334 | the loop breaks out exactly when the events contain a Set press |
| `Controller.RunStopsAtSet` | main/play_mp3_control_example.c:303-306 | the first Set press ends the loop with the state and calls of the events before it; nothing after it is handled |
| `Controller.ExitIgnoresLaterEvents` | main/play_mp3_control_example.c:303-306 | once the loop has broken out on Set, later events change neither the state nor the trace |
| `Controller.PlayStepFollowsTable` | main/play_mp3_control_example.c:279-302 | the Play branch's calls move the writer along the table Init→Running, Running→Paused, Paused→Running, Finished→Init→Running; any other state gets no call |
| `Controller.FinishedPassesThroughInit` | main/play_mp3_control_example.c:292-298 | the FINISHED branch's calls take the writer to Init after the first three calls, and to Running at the end |
| `Controller.RestartEndsRunning` | main/play_mp3_control_example.c:309-315 | the Mode calls leave the writer Running from any state |
| `Controller.PlayFollowsTable` | main/play_mp3_control_example.c:276-302 | the same table for a Play press handled by a full loop iteration |
| `Controller.PlayPressesToggle` | main/play_mp3_control_example.c:284-291 | from Running or Paused, repeated Play presses toggle between the two |
| `Controller.PlayPressesAlternate` | main/play_mp3_control_example.c:280-291 | from Init, successive Play presses leave the writer Running, Paused, Running, … |
| `StorageCheck.StrncmpIsEquality` | main/play_mp3_control_example.c:155 | `strncmp` over the whole length of a NUL-free string is plain equality |
| `StorageCheck.RoundTrip` | main/play_mp3_control_example.c:133-158 | the check passes iff both `fopen`s succeed, the test file holds at least 11 characters, and the 11 read back are "hello world"; a failed create leaves the file system as it was; otherwise the test file holds what the medium kept; other files are untouched |
| `StorageCheck.FaithfulPasses` | main/play_mp3_control_example.c:138-157 | when the medium opens both times and returns what was written, the check passes |
| `StorageCheck.Increment` | main/play_mp3_control_example.c:159-161 | the pass counter goes up by one, and wraps from 65535 to 0 |
| `StorageCheck.Cycle` | main/play_mp3_control_example.c:159-171 | a halted monitor does nothing; a checking monitor stays checking iff the round trip passes; a pass increments the counter; a failure halts with the counter unchanged |
| `StorageCheck.Worker` | main/play_mp3_control_example.c:159-174 | once halted (`foreverLoop`), no further check runs and the counter and file system stay unchanged for good; the monitor is still checking after a run only if it was checking before and every cycle passed |
| `StorageCheck.PassingCyclesCount` | main/play_mp3_control_example.c:168-174 | k passing cycles leave the monitor checking with the counter at n + k mod 65536 |
| `StorageCheck.FaithfulNeverHalts` | main/play_mp3_control_example.c:168-174 | on a faithful medium every cycle passes and the monitor never halts |
| `StorageCheck.HaltsAtFirstFailure` | main/play_mp3_control_example.c:159-166 | the first failing cycle halts the monitor, with the counter at the passes before it |
| `StorageCheck.HaltedIffSomeFailure` | main/play_mp3_control_example.c:168-174 | after a run the monitor is halted iff some cycle of the run failed |

## Left out

- FreeRTOS task creation, core pinning, priorities and `vTaskDelay` (lines 93-97, 168-187) are left out. These are scheduling concerns. The two tasks share no data, so each is modelled on its own, and `foreverLoop` is the terminal `Halted` state.
- `init_nvs` and `init_fatfs` (lines 99-126) are left out. They are bootstrap calls into flash libraries that abort on error.
- The inside of the ESP-ADF pipeline is left out: MP3 decoding, ringbuffers, i2s clocking and the codec HAL. Its calls appear only as `Action`s in a trace. `Apply` is a reference for the lifecycle edges, not a model of the pipeline.
- The setup before the loop (lines 203-253) and the teardown after it (lines 336-352) are left out. They build and free the pipeline and listeners and contain no decisions. `Start` models only the volume read and the first selection and run.
- Real `FILE*` I/O is left out. It is replaced by a path-to-contents map and a per-cycle `Faults` value.
- `StorageCheck.RoundTrip`: a failing or short `fread` (line 152) on intact contents is folded into `Kept`. It appears as `Damaged` contents, so the disk is then described as holding that damaged content.
- The MP3 bytes and the linker symbols that delimit them are left out. Each asset is an abstract `seq<bv8>`.
- Board-specific key ids (`get_input_play_id` and friends) and numeric source types and commands are left out. They are abstract datatypes with distinct values. If two key ids were equal on some board, the first branch in the `if` chain would win, and that case is not modelled.
- The numeric value of `AEL_IO_DONE` is left out. It is defined in an ESP-ADF header that is not part of this model, so it is the constructor `Done`.
- Logging is left out.
- The other fields of `audio_element_info_t` that `audio_element_setinfo` (line 270) copies to the i2s writer are left out. Only sample rate, bits and channels are modelled, because they are the fields the clock call uses.
- The serialisation between the pipeline task that calls the read callback and the event loop that reselects the track is left out. The loop reselects only after stopping or finishing the pipeline.
- `TrackStream.Read`: requires `len >= 0`, because a negative length makes `memcpy` undefined. It also requires the cursor invariant `0 <= pos <= length`, which every reachable marker satisfies.
- `Controller.Step`: `player_volume` is an unbounded integer here. A C `int` overflow of `v + 10` near `INT_MAX` is not modelled, because the codec reports volumes in 0-100.
