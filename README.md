# midicade firmware core in Dafny

This project models the state machine of the midicade MIDI controller
firmware. The device is a 4x4 grid of buttons with one LED per button. It
sends USB-MIDI event packets, keeps its per-button configuration in
EEPROM, and can be reconfigured over a serial "programming mode". The
repository holds two hardware variants, modelled separately:

- **Bicolour** (`src/device.cpp`, `device.h`): an MD_MAX72XX LED matrix in
  which each button owns two matrix points, one per colour. It adds a
  display intensity setting and uses 3-byte programming frames.
- **Midicade / RGB** (`midicade/device.cpp`, `midicade/programmer.cpp`,
  `midicade/device.h`): four FastLED strips of four RGB LEDs each. Buttons
  are wired to LEDs through `ledPinMap`, and programming frames are 5 bytes.

Each variant has three modelled parts:

1. the boot-time three-way load on the EEPROM status byte: custom, default,
   or anything else, which is reset;
2. `UpdateState`, which turns button edges into LED and MIDI output in
   index order and runs the one-shot `once` boot-pattern check;
3. `runProgrammer`, the frame loop with operand range checks and immediate
   persistence.

Module layout:

- `Storage`: the EEPROM as an `Image` of header bytes plus a record table,
  with a class `Eeprom` that keeps a log of every store. Record size stays
  symbolic in the offset lemmas.
- `UsbMidi`: the 4-byte USB-MIDI event packet (section 4 of the USB Device
  Class Definition for MIDI Devices 1.0) and MIDI 1.0 channel-voice status
  bytes.
- `Seqs`: two sequence lemmas.
- Per variant:
  - `*Config`: the header constants, types and default table;
  - `*Programmer`: the pure semantics of one frame (`Execute`) and of a
    session (`Run`);
  - `*Model`: the pure semantics of load, LEDs, packets and ticks;
  - `*Device`: the firmware's `Device` class, written imperatively over
    arrays and proved against those functions.

Bytes are `bv8`, so `uint8_t` wrap-around and the bitwise OR that builds
status bytes are exact. Five behaviours of the code are kept as written:

- `0xB0 | controlChannel` folds channel 16 onto channel 0.
- The custom load takes stored bytes without any check.
- `SET_STATUS` only writes EEPROM; the status matters only at the next
  boot.
- The bicolour `SET_INTENSITY` updates `intensity` in memory and in EEPROM,
  but it never calls `control(INTENSITY, ...)`. The display brightness
  therefore changes only at the next boot.
- The default branch of the load uses the compiled-in configuration and
  leaves EEPROM as it was. After a default boot, `SET_STATUS CONFIG_CUSTOM`
  therefore brings back whatever records EEPROM still holds, not the
  configuration the session ran with (`*Model.DefaultBootRestoresStored`,
  `*Model.StaleNoteComesBack`).

Three more facts about the code shape the model:

- **Boot pattern.** The two variants test different things. The bicolour
  code checks all sixteen raw levels: the corners must read false and the
  rest true. The RGB code checks only the three corners and ignores the
  other buttons (`BicolourModel.IsBootPattern`,
  `MidicadeModel.BootPatternCorners`).
- **ButtonConfig ranges.** The programming commands keep note and velocity
  at most 127. The custom load accepts any stored value. The model
  therefore proves only that programming preserves the ranges
  (`*Programmer.RunPreserves`).
- **Opcode range.** The bicolour opcodes are exactly 0x10-0x1A; the RGB
  opcodes are exactly 0x10-0x19.

## Model

| member | source | states |
|---|---|---|
| Storage.Apply | src/device.cpp:245-259 | a byte store changes only the header and a record store only the record table; both keep the sizes |
| Storage.ApplyAllAppend | src/device.cpp:245-259 | replaying two batches of stores one after the other equals replaying their concatenation |
| Storage.FetchAfterStoreRecord | midicade/programmer.cpp:116-126 | fetching record i after storing c there returns c; every other record and the header are unchanged |
| Storage.RecordAboveBase | src/device.cpp:246 | every byte of record i at `ADDR_CONFIG + i*size` lies at or above `ADDR_CONFIG` and differs from every header address below it, so no record write reaches a header byte |
| Storage.RecordOffset | src/device.cpp:246 | the start address `ADDR_CONFIG + button * sizeof(btnConfig_t)` of a record, with the record size symbolic (also midicade/programmer.cpp:117); `RecordAboveBase`, `RecordsDisjoint` and `SpacedRecords` state its properties |
| Storage.RecordsDisjoint | src/device.cpp:246 | the byte ranges of two distinct records never share a byte |
| Storage.SpacedRecords | src/device.cpp:246 | for i < j, record j starts at least one whole record after record i starts |
| Storage.Eeprom.StoreByte | src/device.cpp:257-259 | header cell `addr` becomes `data`; records unchanged; the store is appended to the log |
| Storage.Eeprom.FetchByte | src/device.cpp:261-265 | returns the stored header cell |
| Storage.Eeprom.StoreRecord | src/device.cpp:245-248 | record `index` becomes `record`; header and other records unchanged; the store is logged |
| Storage.Eeprom.FetchRecord | src/device.cpp:250-255 | returns the stored record |
| UsbMidi.ChannelVoiceDecodes | src/device.cpp:289-338 | for channels below 16, each packet's code index equals its status nibble (9, 8, B) and the channel decodes back from byte1 |
| UsbMidi.NoteOn | src/device.cpp:290-295 | the note-on packet initialiser: code index 0x09, `0x90` OR channel, note, velocity (midicade/device.cpp:153-158 is the same); `ChannelVoiceDecodes` states what a receiver reads |
| UsbMidi.NoteOff | src/device.cpp:303-308 | the note-off packet initialiser: 0x08, `0x80` OR channel, note, velocity; `ChannelVoiceDecodes` states what a receiver reads |
| UsbMidi.ControlChange | src/device.cpp:316-321 | the control-change initialiser: 0x0B, `0xB0` OR channel, controller, value; `ChannelVoiceDecodes` and `ChannelSixteenFolds` state what a receiver reads |
| UsbMidi.ChannelVoiceInjective | src/device.cpp:292 | OR-ing a channel 0..15 into a status byte with a clear low nibble is injective: equal bytes iff equal channels |
| UsbMidi.ChannelSixteenFolds | src/device.cpp:331 | channel 16 is not representable: a control change lands on 0xB0 like channel 0, and a note-off on "channel 16" carries the note-on status 0x90 |
| BicolourConfig.Defaults | device.h:91-93 | the member initialisers form a well-formed configuration: note channel 2, control channel 3, intensity `MAX_INTENSITY` |
| BicolourConfig.CodesDistinct | device.h:9-11 | the three status codes are pairwise distinct, and the `ledValue_t` values (lines 38-42) are exactly 0, 1 and 2 |
| BicolourConfig.OpcodesFillRange | device.h:72-84 | the eleven opcodes are distinct and are exactly the bytes 0x10..0x1A |
| BicolourConfig.DefaultIndexOf | device.h:94-111 | every note 36..51 occurs in the default table, at the returned position |
| BicolourConfig.DefaultTableValid | device.h:94-111 | sixteen in-range entries, each with velocity 0x7F, pressed `LED_OFF`, released `LED_COLOR_1`, momentary on |
| BicolourConfig.DefaultNotes | device.h:94-111 | the default notes are pairwise distinct and their set is exactly 36..51, a permutation |
| BicolourConfig.DefaultChannels | device.h:92-93 | the default control channel is note channel + 1 = 3; any accepted base channel below 16 yields a control channel of at most 16, with no wrap |
| BicolourProgrammer.ButtonBytes | src/device.cpp:160-164 | a button is dumped as exactly five bytes |
| BicolourProgrammer.Dump | src/device.cpp:160-166 | the dump loop over buttons 0..n-1; `DumpLayout` and `DumpWindow` place button b at bytes 5b..5b+4 |
| BicolourProgrammer.FetchBytes | src/device.cpp:157-167 | note channel, intensity, then the sixteen buttons; `FetchLayout` and `FetchRoundTrip` state its length and meaning |
| BicolourProgrammer.UpdateButton | src/device.cpp:189-234 | an accepted per-button command: one record replaced in memory and stored; `ButtonCommandKeepsValid` and the `Set*Spec` lemmas state it per opcode |
| BicolourProgrammer.ParseButtonBytes | src/device.cpp:160-164 | reading the five dumped bytes back gives the same button: note, velocity, pressed, released, momentary |
| BicolourProgrammer.Execute | src/device.cpp:150-235 | one frame keeps the table at sixteen buttons; what each opcode does is stated by the lemmas below |
| BicolourProgrammer.Feed | src/device.cpp:146-149 | one loop iteration keeps the table at sixteen buttons |
| BicolourProgrammer.Run | src/device.cpp:146-236 | a session keeps the table at sixteen buttons |
| BicolourProgrammer.DoneEndsLoop | src/device.cpp:151-153 | a frame ends the loop iff its opcode is `PRG_DONE`, and `PRG_DONE` changes, writes and stores nothing |
| BicolourProgrammer.EchoAnswers | src/device.cpp:154-156 | `PRG_ECHO` writes exactly the single byte 0x19 and changes nothing |
| BicolourProgrammer.UnknownOpcodeIgnored | src/device.cpp:150-235 | a frame whose opcode is none of the eleven is a no-op: no change, no output, no store, the loop continues |
| BicolourProgrammer.DumpLayout | src/device.cpp:159-165 | the record dump has 5n bytes; byte i is field i mod 5 of button i / 5 |
| BicolourProgrammer.FetchLayout | src/device.cpp:157-167 | `PRG_FETCH` writes 82 bytes (note channel, intensity, then five bytes per button in order) and changes and stores nothing |
| BicolourProgrammer.ParseFetch | src/device.cpp:157-167 | a reader for the 82-byte dump yields sixteen buttons |
| BicolourProgrammer.DumpWindow | src/device.cpp:159-165 | bytes 5b..5b+4 of the dump are exactly button b's five bytes |
| BicolourProgrammer.FetchRoundTrip | src/device.cpp:157-167 | reading the `PRG_FETCH` output back reconstructs the whole configuration (channels, intensity, all sixteen buttons) |
| BicolourProgrammer.SetStatusDeferred | src/device.cpp:168-173 | `SET_STATUS` stores the status byte iff it is one of the three codes and never changes the in-memory state |
| BicolourProgrammer.SetBaseChannelSpec | src/device.cpp:174-181 | operand below 16: note channel = v, control channel = v+1 (at most 16), exactly one store of the channel byte; otherwise a no-op |
| BicolourProgrammer.SetIntensitySpec | src/device.cpp:182-188 | operand at most `MAX_INTENSITY`: intensity = v and exactly one store of the intensity byte; otherwise a no-op |
| BicolourProgrammer.SetPressedLedSpec | src/device.cpp:189-197 | a valid `ledValue_t` in arg1 with button arg2 below 16 changes only that button's pressed value and stores only its record; otherwise a no-op |
| BicolourProgrammer.SetReleasedLedSpec | src/device.cpp:198-206 | same for the released value |
| BicolourProgrammer.SetMidiNoteSpec | src/device.cpp:207-215 | note at most 127 with button below 16 changes only that button's note and stores only its record; otherwise (for example note 128) a no-op |
| BicolourProgrammer.SetMidiVelocitySpec | src/device.cpp:216-225 | same for the velocity |
| BicolourProgrammer.SetMomentarySpec | src/device.cpp:226-234 | value 0 or 1 with button below 16 sets momentary to value == 1 for that button only and stores its record; otherwise a no-op |
| BicolourProgrammer.ExecutePreserves | src/device.cpp:168-234 | every frame keeps the configuration well-formed (control = note + 1) and keeps every button in range if it was |
| BicolourProgrammer.ChannelsOnlyBySetBaseChannel | src/device.cpp:174-181 | no opcode other than `SET_BASE_CHANNEL` changes either channel |
| BicolourProgrammer.OtherCommandKeepsButtons | src/device.cpp:150-188 | opcodes outside `SET_PRESSED_LED..SET_MOMENTARY` leave the button table unchanged |
| BicolourProgrammer.ButtonCommandKeepsValid | src/device.cpp:189-234 | per-button commands keep all buttons in range |
| BicolourProgrammer.ExecuteKeepsMirror | src/device.cpp:168-234 | if EEPROM mirrors memory before a frame, then after the frame's stores it mirrors the new memory: every accepted change is persisted |
| BicolourProgrammer.NoStoreNoChange | src/device.cpp:168-234 | a frame issues at most one store, and a frame that stores nothing changes nothing in memory |
| BicolourProgrammer.OtherCommandStoresRecord | src/device.cpp:189-234 | a per-button command that stores anything addresses a button below 16 and changes only that button |
| BicolourProgrammer.RunStopsAtDone | src/device.cpp:146-153 | once `PRG_DONE` has been read, later frames are never read |
| BicolourProgrammer.RunDoneIff | src/device.cpp:146-153 | a session ends iff some frame carries `PRG_DONE` |
| BicolourProgrammer.RunPreserves | src/device.cpp:146-236 | a whole session keeps well-formedness, in-range buttons, and the EEPROM mirror of memory |
| Storage.RecordWrites | src/device.cpp:33-35 | the record loop of the reset branch issues exactly one store per button (`midicade/device.cpp` lines 30-32 are the same loop) |
| BicolourModel.Load | src/device.cpp:12-37 | every boot leaves a well-formed configuration (control = note + 1) |
| BicolourModel.ResetWrites | src/device.cpp:27-36 | the stores of the reset branch, in order: status 0xFD, base channel, intensity, then records 0..15; `ResetImage` and `LoadReset` state their effect |
| Storage.RecordWritesImage | src/device.cpp:33-35 | storing records 0..n-1 overwrites exactly those records and no header byte |
| BicolourModel.LoadCustom | src/device.cpp:14-23 | status 0xFE: intensity, note channel and all sixteen records are taken from EEPROM unchecked, control = note + 1, nothing is stored |
| BicolourModel.LoadDefault | src/device.cpp:24-27 | status 0xFD: compiled-in defaults and no store |
| BicolourModel.LoadReset | src/device.cpp:28-37 | any other status: defaults in memory, 3 + 16 stores that leave exactly (0xFD, 2, `MAX_INTENSITY`, default table) in EEPROM, so the next boot takes the default branch |
| BicolourModel.ResetImage | src/device.cpp:28-37 | the reset stores overwrite the whole image with the defaults, whatever it held |
| BicolourModel.LoadMirrors | src/device.cpp:12-37 | after a custom or reset boot, EEPROM mirrors the in-memory configuration |
| BicolourModel.CustomBootRestores | src/device.cpp:14-23 | a custom boot over an image that mirrors a configuration reproduces that configuration exactly |
| BicolourModel.SessionSurvivesReboot | src/device.cpp:14-21 | when the session started from a boot that did not take the default branch (stored status not 0xFD), and it leaves status 0xFE, the next boot reloads exactly the configuration the session ended with |
| BicolourModel.DefaultBootRestoresStored | src/device.cpp:24-27 | after a default boot (status 0xFD) and a session of `SET_STATUS 0xFE`, `PRG_DONE`, the next boot loads the stored records, channel and intensity; it differs from the session's configuration whenever the stored records are not the defaults |
| BicolourModel.StaleNoteComesBack | src/device.cpp:14-27 | an EEPROM with status 0xFD and button 0's note set to 0: the session plays note 48, the next boot plays note 0 |
| BicolourModel.ChannelFiveSession | src/device.cpp:174-181 | the frames (`SET_BASE_CHANNEL` 5, `SET_STATUS` 0xFE, `PRG_DONE`) end with note channel 5, control channel 6 and exactly those two stores |
| BicolourModel.BaseChannelSurvivesReboot | src/device.cpp:174-181 | on a reset device, that session's channels 5 and 6 come back at the next boot |
| BicolourModel.LedShowsValue | src/device.cpp:267-287 | `setButtonLed` sets points (b/4, b%4) and (b/4+4, b%4) only; afterwards the first point is lit iff the value is `LED_COLOR_1` and the second iff it is neither `LED_OFF` nor `LED_COLOR_1` (the `default:` branch), so the pair reads back as the value for `LED_OFF`/`LED_COLOR_1`/`LED_COLOR_2` and any other byte shows colour 2 |
| BicolourModel.LedEffects | src/device.cpp:267-287 | the two `setPoint` calls of `setButtonLed`; `LedShowsValue`, `LedLeavesOthers` and `LedPointsDisjoint` state what they display and touch |
| BicolourModel.LedLeavesOthers | src/device.cpp:267-287 | every other matrix point keeps its state |
| BicolourModel.LedPointsDisjoint | src/device.cpp:268-270 | distinct buttons own disjoint matrix points |
| BicolourModel.PacketBytes | src/device.cpp:289-338 | note-on (09, 90+ch, note, velocity), note-off (08, 80+ch, note, velocity), CC (0B, B0+ctl, note, 7F / 00); for note channel 15 the CC folds to 0xB0 |
| BicolourModel.NoteOnPacket | src/device.cpp:289-300 | the `midiNoteOn` packet: note channel, the button's note and velocity; `PacketBytes` gives its bytes |
| BicolourModel.NoteOffPacket | src/device.cpp:302-313 | the `midiNoteOff` packet, with the configured velocity; `PacketBytes` gives its bytes |
| BicolourModel.ControlOnPacket | src/device.cpp:315-326 | the `midiControlOn` packet: control channel, the note as controller, value 0x7F; `PacketBytes` gives its bytes |
| BicolourModel.ControlOffPacket | src/device.cpp:328-339 | the `midiControlOff` packet, value 0x00; `PacketBytes` gives its bytes |
| BicolourModel.PressPackets | src/device.cpp:81-87 | a press sends the CC-on first, if momentary, then the note-on |
| BicolourModel.ReleasePackets | src/device.cpp:90-96 | a release sends the note-off, then the CC-off if momentary |
| BicolourModel.PressEffects | src/device.cpp:81-87 | a press edge's output in program order: LED to the pressed value, CC-on if momentary, note-on; `PressPackets` states the packet order |
| BicolourModel.ReleaseEffects | src/device.cpp:90-96 | a release edge's output: LED to the released value, note-off, CC-off if momentary; `ReleasePackets` states the packet order |
| BicolourModel.ButtonEffects | src/device.cpp:77-96 | one pass of the loop body: the press effects before the release effects; `PressThenRelease` states the packets of a button with both edges |
| BicolourModel.ScanEffects | src/device.cpp:75-97 | the button loop over buttons 0..15 in index order; `OnlyEdgesCount` and `QuietButton` state which buttons produce output |
| BicolourModel.IsBootPattern | src/device.cpp:104-122 | corners 0, 3 and 15 read level false and the other thirteen read true; `BicolourDevice.Device.BootPatternHeld` proves the accumulating loop computes it |
| BicolourModel.PressThenRelease | src/device.cpp:81-96 | press then release sends exactly CC-on, note-on, note-off, CC-off (momentary) or note-on, note-off; each edge begins with its LED update |
| BicolourModel.OnlyEdgesCount | src/device.cpp:75-97 | with edges on one button only, a tick emits exactly that button's effects |
| BicolourModel.TickLatch | src/device.cpp:99-129 | after a tick `once` is false; programming ran iff `once` was set and the boot pattern holds; without programming the configuration, EEPROM and serial are untouched |
| BicolourModel.Tick | src/device.cpp:73-130 | a tick keeps sixteen buttons; `TickLatch` states the rest |
| BicolourModel.ProgrammingOnlyOnFirstTick | src/device.cpp:99-103 | over any run of ticks, programming can only happen on the first one |
| BicolourModel.LatchedStaysQuiet | src/device.cpp:99-103 | once the latch is consumed, no later tick ever programs |
| BicolourModel.InitShowsReleased | src/device.cpp:55-57 | after the first n iterations of the start-up LED loop, for each button below n the first point is lit iff its released value is `LED_COLOR_1` and the second iff it is neither `LED_OFF` nor `LED_COLOR_1`; later buttons have both points dark |
| BicolourModel.InitShowsReleasedButtons | src/device.cpp:52-57 | after start-up each button's first point is lit iff its released value is `LED_COLOR_1` and its second iff it is neither `LED_OFF` nor `LED_COLOR_1`, so it shows that value, or `LED_COLOR_2` for a byte that is not a named value |
| BicolourModel.InitLeds | src/device.cpp:55-57 | the start-up LED loop over buttons 0..n-1; `InitShowsReleased` states what it displays |
| BicolourModel.InitEffects | src/device.cpp:52-57 | the loaded intensity, scan limit 3, then every released value; `InitShowsReleasedButtons` states what it displays |
| BicolourModel.ControlsKeepPoints | src/device.cpp:53-54 | intensity, scan-limit and MIDI requests leave every matrix point unchanged |
| BicolourDevice.Peripherals.Emit | src/device.cpp:296-297 | appends one driver request (LED point, display control or MIDI packet) to the output log |
| BicolourDevice.Peripherals.Write | src/device.cpp:155 | appends one byte to the serial output |
| BicolourDevice.Device.constructor | src/device.cpp:11-58 | the arrays are fresh and `once` is set; memory and EEPROM are exactly what `Load` gives; the display gets intensity, scan limit and every released LED |
| BicolourDevice.Device.LoadStored | src/device.cpp:12-37 | the switch on the status byte leaves memory, stores and EEPROM as `Load` says |
| BicolourDevice.Device.ReadCustom | src/device.cpp:14-21 | memory becomes (stored intensity, stored channel, channel+1, stored records) |
| BicolourDevice.Device.ReadRecords | src/device.cpp:19-21 | `btnConfig` becomes the sixteen stored records |
| BicolourDevice.Device.WriteDefaults | src/device.cpp:28-35 | issues exactly the reset stores and leaves their effect in EEPROM |
| BicolourDevice.Device.InitDisplay | src/device.cpp:51-57 | emits intensity, scan limit and the released LED of every button in order |
| BicolourDevice.Device.SetButtonLed | src/device.cpp:267-287 | emits exactly the two point updates of `LedEffects` |
| BicolourDevice.Device.MidiNoteOn | src/device.cpp:289-300 | emits the note-on packet of that button |
| BicolourDevice.Device.MidiNoteOff | src/device.cpp:302-313 | emits the note-off packet |
| BicolourDevice.Device.MidiControlOn | src/device.cpp:315-326 | emits the CC-on packet |
| BicolourDevice.Device.MidiControlOff | src/device.cpp:328-338 | emits the CC-off packet |
| BicolourDevice.Device.UpdateState | src/device.cpp:73-130 | the latch, output, serial, memory and EEPROM change exactly as `Tick` says |
| BicolourDevice.Device.ScanButtons | src/device.cpp:75-97 | the button loop emits the effects of buttons 0..15 in index order |
| BicolourDevice.Device.HandleButton | src/device.cpp:77-96 | one button's press effects, then its release effects |
| BicolourDevice.Device.ProcessPressed | src/device.cpp:81-87 | LED(pressed), CC-on if momentary, note-on |
| BicolourDevice.Device.ProcessReleased | src/device.cpp:90-96 | LED(released), note-off, CC-off if momentary |
| BicolourDevice.Device.BootPatternHeld | src/device.cpp:104-122 | the accumulating loop returns true iff corners 0, 3, 15 read false and all others read true |
| BicolourDevice.Device.RunProgrammer | src/device.cpp:132-243 | memory, serial output and EEPROM end exactly as `Run` says; LEDs and MIDI are untouched |
| BicolourDevice.Device.Dispatch | src/device.cpp:150-235 | one frame has exactly `Execute`'s effect; stops iff `PRG_DONE` |
| BicolourDevice.Device.HeaderCommand | src/device.cpp:168-188 | the three header opcodes behave as `Execute` |
| BicolourDevice.Device.SetStatus | src/device.cpp:168-173 | behaves as `Execute` for `SET_STATUS` |
| BicolourDevice.Device.SetBaseChannel | src/device.cpp:174-181 | behaves as `Execute` for `SET_BASE_CHANNEL` |
| BicolourDevice.Device.SetIntensity | src/device.cpp:182-188 | behaves as `Execute` for `SET_INTENSITY` |
| BicolourDevice.Device.ButtonCommand | src/device.cpp:189-234 | per-button opcodes and unknown opcodes behave as `Execute` |
| BicolourDevice.Device.StoreButton | src/device.cpp:192-193 | replaces one button in memory and stores exactly that record |
| BicolourDevice.Device.Fetch | src/device.cpp:157-167 | appends exactly `FetchBytes` to the serial output |
| BicolourDevice.Device.WriteButton | src/device.cpp:160-164 | appends the five bytes of one button |
| MidicadeConfig.Defaults | midicade/device.h:113-114 | well-formed defaults: note channel 2, control channel 3 |
| MidicadeConfig.CodesDistinct | midicade/device.h:13-15 | the three status codes are pairwise distinct |
| MidicadeConfig.OpcodesFillRange | midicade/device.h:76-85 | the ten opcodes are distinct and are exactly the bytes 0x10..0x19 |
| MidicadeConfig.DefaultIndexOf | midicade/device.h:115-132 | every note 36..51 occurs in the default table, at the returned position |
| MidicadeConfig.DefaultTableValid | midicade/device.h:115-132 | sixteen in-range entries, velocity 127, pressed Cyan, released Black, momentary on |
| MidicadeConfig.DefaultNotes | midicade/device.h:115-132 | the default notes are pairwise distinct and their set is exactly 36..51 |
| MidicadeConfig.SlotAt | midicade/device.h:110 | each of the positions 0..15 of the strip-after-strip order names a slot inside the 4x4 `ledArrays` |
| MidicadeConfig.PinSlot | midicade/device.h:56-73 | button b's LED slot (`ledPinMap[2b]`, `ledPinMap[2b+1]`); the `Wiring*` lemmas state that it is a bijection onto the grid |
| MidicadeConfig.SlotIndexInjective | midicade/device.h:110 | a slot inside the grid is determined by its position |
| MidicadeConfig.WiringInGrid | midicade/device.h:56-73 | every `ledPinMap` pair names a strip below 4 and an LED below 4 |
| MidicadeConfig.WiringLeftInverse | midicade/device.h:56-73 | `SLOT_BUTTONS` maps each button's LED back to that button |
| MidicadeConfig.WiringRightInverse | midicade/device.h:56-73 | every one of the sixteen LEDs is some button's LED, so the wiring is a bijection from buttons onto LEDs |
| MidicadeConfig.WiringInjective | midicade/device.h:56-73 | distinct buttons drive distinct LEDs |
| MidicadeConfig.DefaultChannels | midicade/device.h:113-114 | default control = note + 1 = 3; an accepted base channel keeps the control channel at most 16, with no wrap |
| MidicadeProgrammer.ButtonItems | midicade/programmer.cpp:35-39 | a button is dumped as five serial items: two bytes, two colours, one byte |
| MidicadeProgrammer.Dump | midicade/programmer.cpp:34-40 | the dump loop over buttons 0..n-1; `DumpLayout` and `DumpWindow` place button b at items 5b..5b+4 |
| MidicadeProgrammer.FetchItems | midicade/programmer.cpp:32-41 | note channel, then the sixteen buttons; `FetchLayout` and `FetchRoundTrip` state its length and meaning |
| MidicadeProgrammer.UpdateButton | midicade/programmer.cpp:56-105 | an accepted per-button command: one record replaced in memory and stored; `ButtonCommandKeepsValid` and the `Set*Spec` lemmas state it per opcode |
| MidicadeProgrammer.ParseButtonItems | midicade/programmer.cpp:35-39 | reading the three byte items of a button's five back gives its note, velocity and momentary flag |
| MidicadeProgrammer.Execute | midicade/programmer.cpp:25-106 | one frame keeps the table at sixteen buttons; the lemmas below state each opcode |
| MidicadeProgrammer.Feed | midicade/programmer.cpp:20-24 | one loop iteration keeps sixteen buttons |
| MidicadeProgrammer.Run | midicade/programmer.cpp:19-107 | a session keeps sixteen buttons |
| MidicadeProgrammer.DoneEndsLoop | midicade/programmer.cpp:26-28 | a frame ends the loop iff its opcode is 0x17, which changes nothing |
| MidicadeProgrammer.EchoAnswers | midicade/programmer.cpp:29-31 | `PRG_ECHO` writes exactly the single byte 0x18 and changes nothing |
| MidicadeProgrammer.UnknownOpcodeIgnored | midicade/programmer.cpp:25-106 | an opcode outside the ten is a no-op |
| MidicadeProgrammer.DumpLayout | midicade/programmer.cpp:34-40 | the dump has 5n items; item i is field i mod 5 of button i / 5 |
| MidicadeProgrammer.FetchLayout | midicade/programmer.cpp:32-41 | `PRG_FETCH` writes 81 items (channel byte, then five items per button in order) and changes and stores nothing |
| MidicadeProgrammer.ParseFetch | midicade/programmer.cpp:32-41 | a reader for the 81-item dump yields the note channel and the byte fields of sixteen buttons |
| MidicadeProgrammer.DumpWindow | midicade/programmer.cpp:34-40 | items 5b..5b+4 are button b's five items |
| MidicadeProgrammer.FetchRoundTrip | midicade/programmer.cpp:32-41 | reading the `PRG_FETCH` output back gives the note channel (control = note + 1) and every button's note, velocity and momentary flag; button b's colour writes sit at items 3+5b and 4+5b |
| MidicadeProgrammer.SetStatusDeferred | midicade/programmer.cpp:42-47 | stores the status byte iff it is one of the three codes; in-memory state untouched |
| MidicadeProgrammer.SetBaseChannelSpec | midicade/programmer.cpp:48-55 | operand below 16: note = v, control = v+1 (at most 16), one store of the channel byte; otherwise a no-op |
| MidicadeProgrammer.SetColorPressedSpec | midicade/programmer.cpp:56-65 | button arg1 below 16: its pressed colour becomes (arg2, arg3, arg4) unchecked, only its record is stored; otherwise a no-op |
| MidicadeProgrammer.SetColorReleasedSpec | midicade/programmer.cpp:66-75 | same for the released colour |
| MidicadeProgrammer.SetMidiNoteSpec | midicade/programmer.cpp:76-85 | button below 16 and note at most 127: only that note changes, only its record is stored; otherwise a no-op |
| MidicadeProgrammer.SetMidiVelocitySpec | midicade/programmer.cpp:86-95 | same for the velocity |
| MidicadeProgrammer.SetMomentarySpec | midicade/programmer.cpp:96-105 | button below 16 and value 0 or 1: momentary = value == 1, only its record is stored; otherwise a no-op |
| MidicadeProgrammer.ExecutePreserves | midicade/programmer.cpp:42-105 | well-formedness and in-range buttons survive every frame |
| MidicadeProgrammer.ChannelsOnlyBySetBaseChannel | midicade/programmer.cpp:48-55 | no other opcode changes the channels |
| MidicadeProgrammer.OtherCommandKeepsButtons | midicade/programmer.cpp:26-55 | opcodes outside the per-button range leave the button table unchanged |
| MidicadeProgrammer.ButtonCommandKeepsValid | midicade/programmer.cpp:56-105 | per-button commands keep all buttons in range |
| MidicadeProgrammer.ExecuteKeepsMirror | midicade/programmer.cpp:42-105 | every accepted change is persisted: an EEPROM mirror of memory stays a mirror |
| MidicadeProgrammer.NoStoreNoChange | midicade/programmer.cpp:42-105 | at most one store per frame; no store means no change |
| MidicadeProgrammer.OtherCommandStoresRecord | midicade/programmer.cpp:56-105 | a storing per-button command addresses a button below 16 and changes only it |
| MidicadeProgrammer.RunStopsAtDone | midicade/programmer.cpp:19-28 | frames after `PRG_DONE` are never read |
| MidicadeProgrammer.RunDoneIff | midicade/programmer.cpp:19-28 | a session ends iff some frame carries `PRG_DONE` |
| MidicadeProgrammer.RunPreserves | midicade/programmer.cpp:19-107 | a whole session keeps well-formedness, in-range buttons and the EEPROM mirror |
| MidicadeModel.Load | midicade/device.cpp:11-34 | every boot leaves a well-formed configuration |
| MidicadeModel.ResetWrites | midicade/device.cpp:26-32 | the stores of the reset branch, in order: status 0xFD, base channel, then records 0..15; `ResetImage` and `LoadReset` state their effect |
| MidicadeModel.LoadCustom | midicade/device.cpp:13-21 | status 0xFE: stored channel and records taken unchecked, control = note + 1, nothing stored, no intensity |
| MidicadeModel.LoadDefault | midicade/device.cpp:22-25 | status 0xFD: compiled-in defaults and no store |
| MidicadeModel.LoadReset | midicade/device.cpp:26-34 | any other status: defaults in memory, 2 + 16 stores leaving (0xFD, 2, default table), so the next boot takes the default branch |
| MidicadeModel.ResetImage | midicade/device.cpp:26-34 | the reset stores overwrite the whole image with the defaults |
| MidicadeModel.LoadMirrors | midicade/device.cpp:11-34 | after a custom or reset boot, EEPROM mirrors memory |
| MidicadeModel.CustomBootRestores | midicade/device.cpp:13-21 | a custom boot over a mirroring image reproduces that configuration |
| MidicadeModel.SessionSurvivesReboot | midicade/device.cpp:15-18 | when the session started from a boot that did not take the default branch (stored status not 0xFD), and it leaves status 0xFE, the next boot reloads exactly the session's final configuration |
| MidicadeModel.DefaultBootRestoresStored | midicade/device.cpp:22-25 | after a default boot (status 0xFD) and a session of `SET_STATUS 0xFE`, `PRG_DONE`, the next boot loads the stored records and channel; it differs from the session's configuration whenever the stored records are not the defaults |
| MidicadeModel.StaleNoteComesBack | midicade/device.cpp:12-25 | an EEPROM with status 0xFD and button 0's note set to 0: the session plays note 48, the next boot plays note 0 |
| MidicadeModel.LedShowsColor | midicade/device.cpp:146-150 | painting button b's LED sets exactly its slot in `ledArrays` and keeps every other button's LED |
| MidicadeModel.LedEffects | midicade/device.cpp:132-150 | the one LED write of `setButtonLed*`; `LedShowsColor` states which LED it paints |
| MidicadeModel.PacketBytes | midicade/device.cpp:152-197 | packet layouts as in the bicolour variant, from `midiNote`/`midiVelocity`; note-off keeps the configured velocity |
| MidicadeModel.NoteOnPacket | midicade/device.cpp:152-162 | the `midiNoteOn` packet: note channel, `midiNote`, `midiVelocity`; `PacketBytes` gives its bytes |
| MidicadeModel.NoteOffPacket | midicade/device.cpp:164-174 | the `midiNoteOff` packet, with the configured velocity; `PacketBytes` gives its bytes |
| MidicadeModel.ControlOnPacket | midicade/device.cpp:176-186 | the `midiControlOn` packet, value 0x7F; `PacketBytes` gives its bytes |
| MidicadeModel.ControlOffPacket | midicade/device.cpp:188-198 | the `midiControlOff` packet, value 0x00; `PacketBytes` gives its bytes |
| MidicadeModel.PressPackets | midicade/device.cpp:102-108 | a press sends the note-on, then the CC-on if momentary |
| MidicadeModel.ReleasePackets | midicade/device.cpp:111-117 | a release sends the note-off, then the CC-off if momentary |
| MidicadeModel.PressEffects | midicade/device.cpp:102-108 | a press edge's output: LED to the pressed colour, note-on, CC-on if momentary; `PressPackets` states the packet order |
| MidicadeModel.ReleaseEffects | midicade/device.cpp:111-117 | a release edge's output: LED to the released colour, note-off, CC-off if momentary; `ReleasePackets` states the packet order |
| MidicadeModel.ButtonEffects | midicade/device.cpp:98-117 | one pass of the loop body: the press effects before the release effects |
| MidicadeModel.ScanEffects | midicade/device.cpp:96-118 | the button loop over buttons 0..15 in index order; `OnlyEdgesCount` and `QuietButton` state which buttons produce output |
| MidicadeModel.IsBootPattern | midicade/device.cpp:126 | the three-corner test on the levels; `BootPatternCorners` states that only buttons 0, 3 and 15 matter |
| MidicadeModel.PressThenRelease | midicade/device.cpp:102-117 | press then release sends note-on, CC-on, note-off, CC-off (momentary) or note-on, note-off; each edge starts by painting the pressed / released colour |
| MidicadeModel.EdgePaints | midicade/device.cpp:102-117 | of an edge's effects only the LED update changes the display |
| MidicadeModel.BootPatternCorners | midicade/device.cpp:126 | the boot pattern holds iff buttons 0, 3 and 15 read level false; the other buttons do not matter |
| MidicadeModel.OnlyEdgesCount | midicade/device.cpp:96-118 | with edges on one button only, a tick emits exactly that button's effects |
| MidicadeModel.TickLatch | midicade/device.cpp:120-129 | `once` is false after a tick; programming ran iff `once` was set and the pattern holds; otherwise memory, EEPROM and serial are untouched |
| MidicadeModel.ProgrammingOnlyOnFirstTick | midicade/device.cpp:121-122 | over any run of ticks, only the first can program |
| MidicadeModel.LatchedStaysQuiet | midicade/device.cpp:121-122 | with the latch consumed no tick programs |
| MidicadeModel.InitPaints | midicade/device.cpp:79-83 | after n loop iterations buttons below n show their released colour and every other LED is untouched |
| MidicadeModel.InitShowsReleased | midicade/device.cpp:79-83 | after the wiring loop every LED shows its button's released colour, whatever `ledArrays` held before |
| MidicadeModel.InitLeds | midicade/device.cpp:79-83 | the paints of the wiring loop over buttons 0..n-1; `InitPaints` and `InitShowsReleased` state what they display |
| MidicadeModel.Tick | midicade/device.cpp:94-130 | a tick keeps sixteen buttons; `TickLatch` states the rest |
| MidicadeDevice.Peripherals.Emit | midicade/device.cpp:159-160 | appends one LED paint or MIDI packet to the output log |
| MidicadeDevice.Peripherals.Write | midicade/programmer.cpp:30 | appends one serial item |
| MidicadeDevice.Device.constructor | midicade/device.cpp:10-84 | fresh arrays, `once` set, memory and EEPROM as `Load` says, every button wired to its `ledPinMap` slot, display = every released colour |
| MidicadeDevice.Device.LoadStored | midicade/device.cpp:11-34 | the status switch leaves memory, stores and EEPROM as `Load` says |
| MidicadeDevice.Device.ReadCustom | midicade/device.cpp:13-21 | memory becomes (stored channel, channel + 1, stored records) |
| MidicadeDevice.Device.ReadRecords | midicade/device.cpp:17-19 | `btnConfig` becomes the stored records |
| MidicadeDevice.Device.WriteDefaults | midicade/device.cpp:26-32 | exactly the reset stores, with their effect on EEPROM |
| MidicadeDevice.Device.WireLeds | midicade/device.cpp:79-83 | binds every button b to slot (`ledPinMap[2b]`, `ledPinMap[2b+1]`) and shows every released colour |
| MidicadeDevice.Device.WireButton | midicade/device.cpp:80-82 | one iteration wires button i/2 and paints its released colour, keeping earlier buttons wired |
| MidicadeDevice.Device.SetButtonLedColor | midicade/device.cpp:146-150 | exactly that button's slot receives the colour |
| MidicadeDevice.Device.SetButtonLedPressed | midicade/device.cpp:132-137 | exactly that button's slot receives its pressed colour |
| MidicadeDevice.Device.SetButtonLedReleased | midicade/device.cpp:139-144 | exactly that button's slot receives its released colour |
| MidicadeDevice.Device.MidiNoteOn | midicade/device.cpp:152-162 | emits the note-on packet |
| MidicadeDevice.Device.MidiNoteOff | midicade/device.cpp:164-174 | emits the note-off packet |
| MidicadeDevice.Device.MidiControlOn | midicade/device.cpp:176-186 | emits the CC-on packet |
| MidicadeDevice.Device.MidiControlOff | midicade/device.cpp:188-197 | emits the CC-off packet |
| MidicadeDevice.Device.UpdateState | midicade/device.cpp:94-130 | latch, output, display, serial, memory and EEPROM change exactly as `Tick` says |
| MidicadeDevice.Device.ScanButtons | midicade/device.cpp:96-118 | buttons 0..15 in index order; the display is repainted accordingly |
| MidicadeDevice.Device.HandleButton | midicade/device.cpp:98-117 | one button's press effects, then its release effects |
| MidicadeDevice.Device.ProcessPressed | midicade/device.cpp:102-108 | LED(pressed), note-on, CC-on if momentary |
| MidicadeDevice.Device.ProcessReleased | midicade/device.cpp:111-117 | LED(released), note-off, CC-off if momentary |
| MidicadeDevice.Device.RunProgrammer | midicade/programmer.cpp:6-114 | memory, serial and EEPROM end as `Run` says; LEDs and MIDI untouched |
| MidicadeDevice.Device.Dispatch | midicade/programmer.cpp:25-106 | one frame has exactly `Execute`'s effect; stops iff `PRG_DONE` |
| MidicadeDevice.Device.SetStatus | midicade/programmer.cpp:42-47 | behaves as `Execute` for `SET_STATUS` |
| MidicadeDevice.Device.SetBaseChannel | midicade/programmer.cpp:48-55 | behaves as `Execute` for `SET_BASE_CHANNEL` |
| MidicadeDevice.Device.ButtonCommand | midicade/programmer.cpp:56-105 | per-button and unknown opcodes behave as `Execute` |
| MidicadeDevice.Device.ColorCommand | midicade/programmer.cpp:56-75 | the two colour opcodes behave as `Execute` |
| MidicadeDevice.Device.ValueCommand | midicade/programmer.cpp:76-105 | note, velocity and momentary opcodes behave as `Execute` |
| MidicadeDevice.Device.StoreButton | midicade/programmer.cpp:59-62 | replaces one button in memory and stores exactly that record |
| MidicadeDevice.Device.Fetch | midicade/programmer.cpp:32-41 | appends exactly `FetchItems` to the serial output |
| MidicadeDevice.Device.WriteButton | midicade/programmer.cpp:35-39 | appends the five items of one button |

## Left out

- Button debouncing and levels (ezButton `loop`, `isPressed`, `isReleased`, `getState`): each tick takes one `Sample` per button (press edge, release edge, level) as input.
- Hardware drivers: MD_MAX72XX `begin`, FastLED `addLeds`/`show`, `MidiUSB.flush`, `Serial.begin`/`flush`/the input drain/`end`. Their calls become entries of the output logs or are dropped; `show` is implicit because the modelled `ledArrays` is the display.
- `Serial.readBytes` timeouts: a short read would leave a zero-padded frame. Frames are modelled as complete tuples.
- Blocking: when no `PRG_DONE` arrives, the firmware waits forever for the next frame; the model's `Run` returns after the last given frame with `done` false.
- Raw struct layout behind `EEPROM.put`/`get` and `sizeof(btnConfig_t)`: records are abstract values in a record table, offsets are proved for a symbolic record size, and the byte encoding of a record is not modelled.
- The wire encoding of `Serial.write(CRGB)` in the RGB `PRG_FETCH`: the code calls the one-argument `write` on a `CRGB`, which sends a single byte and cannot carry three colour bytes. Colours are opaque serial items, so the byte length of that dump is not claimed (81 items are).
- MidicadeProgrammer.FetchRoundTrip, MidicadeProgrammer.ParseButtonItems: they do not claim that a reader recovers the pressed and released colours. The dump does not carry them as bytes, so only the note channel, notes, velocities and momentary flags are read back.
- `MAX_INTENSITY` comes from an MD_MAX72xx header that is not part of this model; it is a parameter `maxIntensity`.
- Pin numbers, `deviceConfig_t`, the `btnState`/`btnStates` driver objects, `new`/`delete` and the destructors: resource plumbing with no behaviour of the core.
- `debug.h` and every `DEBUG_PRINTF`: logging only.
- `setButtonLedColor` is declared and modelled but never called by the firmware.
- BicolourProgrammer.Execute, BicolourProgrammer.Run, MidicadeProgrammer.Execute, MidicadeProgrammer.Run: their own ensures state only that the table keeps sixteen buttons; their meaning is stated by the per-opcode lemmas listed above.
