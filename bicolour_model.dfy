/** The boot-time load, the LED matrix wiring, the MIDI packets and the
    per-tick event processing of the bicolour variant (src/device.cpp), as
    functions on values. The class `BicolourDevice.Device` is proved to
    behave exactly as these functions say. */
module BicolourModel {
  import opened BicolourConfig
  import opened Storage
  import opened UsbMidi
  import opened BicolourProgrammer
  import opened Seqs

  // ----- boot-time load (the `Device` constructor's switch) -----

  /** What the constructor leaves in memory and which stores it issues. */
  datatype Boot = Boot(config: Config, writes: seq<Store>)

  /** The stores of the `default:` branch: status, base channel, intensity,
      then every record. */
  function ResetWrites(c: Config): seq<Store>
    requires |c.buttons| == DEV_MAX_BTN
  {
    [StoreByte(ADDR_STATUS, CONFIG_DEFAULT), StoreByte(ADDR_BASE_CHANNEL, c.noteChannel),
     StoreByte(ADDR_INTENSITY, c.intensity)] + RecordWrites(c.buttons, DEV_MAX_BTN)
  }

  /** The three-way decision on the stored status byte. The custom branch
      takes the stored bytes as they are, without any range check. */
  function Load(img: Image<ButtonConfig>, maxIntensity: bv8): (b: Boot)
    requires IsImage(img)
    ensures WellFormed(b.config)
  {
    var status := img.header[ADDR_STATUS];
    if status == CONFIG_CUSTOM then
      var ch := img.header[ADDR_BASE_CHANNEL];
      Boot(Config(img.header[ADDR_INTENSITY], ch, ch + 1, img.records), [])
    else if status == CONFIG_DEFAULT then
      Boot(Defaults(maxIntensity), [])
    else
      Boot(Defaults(maxIntensity), ResetWrites(Defaults(maxIntensity)))
  }

  /** Status `CONFIG_CUSTOM`: intensity, note channel and all sixteen records
      come from the EEPROM, the control channel is derived, nothing is stored. */
  lemma LoadCustom(img: Image<ButtonConfig>, maxIntensity: bv8)
    requires IsImage(img) && img.header[ADDR_STATUS] == CONFIG_CUSTOM
    ensures Load(img, maxIntensity).writes == []
    ensures var c := Load(img, maxIntensity).config;
      c.intensity == img.header[ADDR_INTENSITY] && c.noteChannel == img.header[ADDR_BASE_CHANNEL] &&
      c.controlChannel == c.noteChannel + 1 && c.buttons == img.records
  {
  }

  /** Status `CONFIG_DEFAULT`: the compiled-in defaults, nothing stored. */
  lemma LoadDefault(img: Image<ButtonConfig>, maxIntensity: bv8)
    requires IsImage(img) && img.header[ADDR_STATUS] == CONFIG_DEFAULT
    ensures Load(img, maxIntensity) == Boot(Defaults(maxIntensity), [])
  {
  }

  /** Any other status byte, `CONFIG_RESET` included: the defaults stay in
      memory and are written back, status `CONFIG_DEFAULT` first, so that the
      next boot takes the default branch and changes nothing. */
  lemma LoadReset(img: Image<ButtonConfig>, maxIntensity: bv8)
    requires IsImage(img) && img.header[ADDR_STATUS] != CONFIG_CUSTOM && img.header[ADDR_STATUS] != CONFIG_DEFAULT
    ensures Load(img, maxIntensity).config == Defaults(maxIntensity)
    ensures |Load(img, maxIntensity).writes| == 3 + DEV_MAX_BTN
    ensures ApplyAll(img, Load(img, maxIntensity).writes) ==
            Image([CONFIG_DEFAULT, MIDI_CHANNEL_BASE, maxIntensity], DEFAULT_BUTTONS)
    ensures Load(ApplyAll(img, Load(img, maxIntensity).writes), maxIntensity) == Boot(Defaults(maxIntensity), [])
  {
    ResetImage(img, maxIntensity);
  }

  /** Writing the defaults back leaves exactly the default image. */
  lemma ResetImage(img: Image<ButtonConfig>, maxIntensity: bv8)
    requires IsImage(img)
    ensures ApplyAll(img, ResetWrites(Defaults(maxIntensity))) ==
            Image([CONFIG_DEFAULT, MIDI_CHANNEL_BASE, maxIntensity], DEFAULT_BUTTONS)
  {
    var d := Defaults(maxIntensity);
    var head := [StoreByte(ADDR_STATUS, CONFIG_DEFAULT), StoreByte(ADDR_BASE_CHANNEL, d.noteChannel),
                 StoreByte(ADDR_INTENSITY, d.intensity)];
    ApplyAllAppend(img, head, RecordWrites(d.buttons, DEV_MAX_BTN));
    ThreeStores(img, head[0], head[1], head[2]);
    assert head == [head[0], head[1], head[2]];
    var mid := ApplyAll(img, head);
    assert mid.header == [CONFIG_DEFAULT, MIDI_CHANNEL_BASE, maxIntensity];
    RecordWritesImage(mid, d.buttons, DEV_MAX_BTN);
    assert d.buttons[..DEV_MAX_BTN] + mid.records[DEV_MAX_BTN..] == DEFAULT_BUTTONS;
  }

  /** After a boot that did not take the default branch, the EEPROM holds
      exactly the configuration in memory. */
  lemma LoadMirrors(img: Image<ButtonConfig>, maxIntensity: bv8)
    requires IsImage(img) && img.header[ADDR_STATUS] != CONFIG_DEFAULT
    ensures Mirrors(Load(img, maxIntensity).config, ApplyAll(img, Load(img, maxIntensity).writes))
  {
    if img.header[ADDR_STATUS] != CONFIG_CUSTOM {
      LoadReset(img, maxIntensity);
    }
  }

  /** A custom boot reproduces whatever configuration the EEPROM mirrors. */
  lemma CustomBootRestores(c: Config, img: Image<ButtonConfig>, maxIntensity: bv8)
    requires WellFormed(c) && Mirrors(c, img) && img.header[ADDR_STATUS] == CONFIG_CUSTOM
    ensures Load(img, maxIntensity) == Boot(c, [])
  {
  }

  /** Every change accepted in a programming session survives a reboot once
      the status byte says `CONFIG_CUSTOM`, provided the session started from
      a boot that did not take the default branch. */
  lemma {:induction false} SessionSurvivesReboot(img: Image<ButtonConfig>, frames: seq<Frame>, maxIntensity: bv8)
    requires IsImage(img) && img.header[ADDR_STATUS] != CONFIG_DEFAULT
    ensures var boot := Load(img, maxIntensity);
      var s := Run(boot.config, frames, maxIntensity);
      var after := ApplyAll(ApplyAll(img, boot.writes), s.writes);
      after.header[ADDR_STATUS] == CONFIG_CUSTOM ==> Load(after, maxIntensity) == Boot(s.config, [])
  {
    var boot := Load(img, maxIntensity);
    LoadMirrors(img, maxIntensity);
    RunPreserves(boot.config, frames, maxIntensity, ApplyAll(img, boot.writes));
  }

  /** The three frames of a session that moves the base channel to 5 and
      makes the configuration permanent. */
  const CHANNEL_FIVE_SESSION: seq<Frame> :=
    [Frame(SET_BASE_CHANNEL, 5, 0), Frame(SET_STATUS, CONFIG_CUSTOM, 0), Frame(PRG_DONE, 0, 0)]

  lemma RunSnoc(c: Config, frames: seq<Frame>, f: Frame, maxIntensity: bv8)
    requires |c.buttons| == DEV_MAX_BTN
    ensures Run(c, frames + [f], maxIntensity) == Feed(Run(c, frames, maxIntensity), f, maxIntensity)
  {
    assert (frames + [f])[..|frames|] == frames;
  }

  /** That session ends the loop, sets the channels to 5 and 6 and issues
      two stores: the channel byte, then the status byte. */
  lemma ChannelFiveSession(c: Config, maxIntensity: bv8)
    requires |c.buttons| == DEV_MAX_BTN
    ensures var s := Run(c, CHANNEL_FIVE_SESSION, maxIntensity);
      s.done && s.config.noteChannel == 5 && s.config.controlChannel == 6 &&
      s.writes == [StoreByte(ADDR_BASE_CHANNEL, 5), StoreByte(ADDR_STATUS, CONFIG_CUSTOM)]
  {
    var f0, f1, f2 := CHANNEL_FIVE_SESSION[0], CHANNEL_FIVE_SESSION[1], CHANNEL_FIVE_SESSION[2];
    RunSnoc(c, [], f0, maxIntensity);
    assert [] + [f0] == [f0];
    SetBaseChannelSpec(c, f0, maxIntensity);
    var s1 := Run(c, [f0], maxIntensity);
    assert s1.writes == [StoreByte(ADDR_BASE_CHANNEL, 5)] && !s1.done && s1.config.noteChannel == 5;
    RunSnoc(c, [f0], f1, maxIntensity);
    assert [f0] + [f1] == [f0, f1];
    SetStatusDeferred(s1.config, f1, maxIntensity);
    var s2 := Run(c, [f0, f1], maxIntensity);
    assert s2.writes == [StoreByte(ADDR_BASE_CHANNEL, 5), StoreByte(ADDR_STATUS, CONFIG_CUSTOM)];
    RunSnoc(c, [f0, f1], f2, maxIntensity);
    assert [f0, f1] + [f2] == CHANNEL_FIVE_SESSION;
    DoneEndsLoop(s2.config, f2, maxIntensity);
  }

  /** A base channel set to 5 on a freshly reset device, then made permanent
      with `SET_STATUS CONFIG_CUSTOM`, comes back as note channel 5 and
      control channel 6 at the next boot. */
  lemma BaseChannelSurvivesReboot(img: Image<ButtonConfig>, maxIntensity: bv8)
    requires IsImage(img) && img.header[ADDR_STATUS] == CONFIG_RESET
    ensures var boot := Load(img, maxIntensity);
      var s := Run(boot.config, CHANNEL_FIVE_SESSION, maxIntensity);
      var next := Load(ApplyAll(ApplyAll(img, boot.writes), s.writes), maxIntensity).config;
      s.done && next.noteChannel == 5 && next.controlChannel == 6
  {
    var boot := Load(img, maxIntensity);
    var s := Run(boot.config, CHANNEL_FIVE_SESSION, maxIntensity);
    ChannelFiveSession(boot.config, maxIntensity);
    var mid := ApplyAll(img, boot.writes);
    TwoStores(mid, s.writes[0], s.writes[1]);
    assert ApplyAll(mid, s.writes).header[ADDR_STATUS] == CONFIG_CUSTOM;
    SessionSurvivesReboot(img, CHANNEL_FIVE_SESSION, maxIntensity);
  }

  /** The two frames of a session that only makes the configuration permanent. */
  const MAKE_CUSTOM_SESSION: seq<Frame> := [Frame(SET_STATUS, CONFIG_CUSTOM, 0), Frame(PRG_DONE, 0, 0)]

  /** The default branch runs on the compiled-in configuration but leaves
      the EEPROM as it was. Making the configuration permanent from there
      therefore brings back at the next boot whatever the EEPROM held, not
      the configuration the session ran with; the two differ whenever the
      stored records are not the defaults. */
  lemma DefaultBootRestoresStored(img: Image<ButtonConfig>, maxIntensity: bv8)
    requires IsImage(img) && img.header[ADDR_STATUS] == CONFIG_DEFAULT
    ensures var boot := Load(img, maxIntensity);
      var s := Run(boot.config, MAKE_CUSTOM_SESSION, maxIntensity);
      var next := Load(ApplyAll(ApplyAll(img, boot.writes), s.writes), maxIntensity).config;
      s.done && s.config == Defaults(maxIntensity) && next.buttons == img.records &&
      next.noteChannel == img.header[ADDR_BASE_CHANNEL] && next.intensity == img.header[ADDR_INTENSITY] &&
      (img.records != DEFAULT_BUTTONS ==> next != s.config)
  {
    var d := Defaults(maxIntensity);
    LoadDefault(img, maxIntensity);
    var f0, f1 := MAKE_CUSTOM_SESSION[0], MAKE_CUSTOM_SESSION[1];
    RunSnoc(d, [], f0, maxIntensity);
    assert [] + [f0] == [f0];
    SetStatusDeferred(d, f0, maxIntensity);
    var s1 := Run(d, [f0], maxIntensity);
    assert s1.config == d && !s1.done && s1.writes == [StoreByte(ADDR_STATUS, CONFIG_CUSTOM)];
    RunSnoc(d, [f0], f1, maxIntensity);
    assert [f0] + [f1] == MAKE_CUSTOM_SESSION;
    DoneEndsLoop(d, f1, maxIntensity);
    var s := Run(d, MAKE_CUSTOM_SESSION, maxIntensity);
    assert s.writes == s1.writes && s.config == d && s.done;
    assert ApplyAll(img, []) == img;
    SingleStore(img, StoreByte(ADDR_STATUS, CONFIG_CUSTOM));
    var after := ApplyAll(img, s.writes);
    assert after == img.(header := img.header[ADDR_STATUS := CONFIG_CUSTOM]);
    LoadCustom(after, maxIntensity);
  }

  /** An EEPROM left with status `CONFIG_DEFAULT` and button 0's note
      changed to 0: the session plays note 48 on button 0, yet after
      `SET_STATUS CONFIG_CUSTOM` the next boot plays note 0. */
  lemma StaleNoteComesBack(maxIntensity: bv8)
    ensures var img := Image([CONFIG_DEFAULT, MIDI_CHANNEL_BASE, maxIntensity],
                             DEFAULT_BUTTONS[0 := DEFAULT_BUTTONS[0].(note := 0)]);
      var boot := Load(img, maxIntensity);
      var s := Run(boot.config, MAKE_CUSTOM_SESSION, maxIntensity);
      var next := Load(ApplyAll(ApplyAll(img, boot.writes), s.writes), maxIntensity).config;
      s.config.buttons[0].note == 48 && next.buttons[0].note == 0
  {
    var img := Image([CONFIG_DEFAULT, MIDI_CHANNEL_BASE, maxIntensity],
                     DEFAULT_BUTTONS[0 := DEFAULT_BUTTONS[0].(note := 0)]);
    DefaultBootRestoresStored(img, maxIntensity);
  }

  // ----- the LED matrix -----

  /** What the firmware asks of its single MD_MAX72XX driver. */
  datatype Effect =
    | SetPoint(row: nat, column: nat, on: bool)  // `setPoint(row, column, on)`
    | DisplayIntensity(level: bv8)               // `control(INTENSITY, level)`
    | DisplayScanLimit(limit: bv8)               // `control(SCANLIMIT, limit)`
    | Send(packet: Packet)                       // `MidiUSB.sendMIDI(packet)` and `flush()`

  /** `setButtonLed(button, value)`: a bicolour LED is two matrix points, one
      per colour, in rows `button / 4` and `button / 4 + 4`. */
  function LedEffects(button: nat, value: LedValue): seq<Effect>
  {
    var rowa, column := button / DEV_BTN_COLUMNS, button % DEV_BTN_COLUMNS;
    var rowb := rowa + DEV_BTN_ROWS;
    if value == LED_OFF then [SetPoint(rowa, column, false), SetPoint(rowb, column, false)]
    else if value == LED_COLOR_1 then [SetPoint(rowa, column, true), SetPoint(rowb, column, false)]
    else [SetPoint(rowa, column, false), SetPoint(rowb, column, true)]
  }

  /** The on/off state of one matrix point after some effects, starting from
      `init`: the last `SetPoint` on it decides. */
  function PointState(init: bool, effects: seq<Effect>, row: nat, column: nat): bool
    decreases |effects|
  {
    if effects == [] then init
    else
      var e := effects[|effects| - 1];
      if e.SetPoint? && e.row == row && e.column == column then e.on
      else PointState(init, effects[..|effects| - 1], row, column)
  }

  /** The colour a viewer sees on a bicolour LED from its two points. */
  function Seen(first: bool, second: bool): LedValue
  {
    if first then LED_COLOR_1 else if second then LED_COLOR_2 else LED_OFF
  }

  /** `setButtonLed(b, v)` sets exactly the two points of button `b`, both
      inside the 8x4 matrix. Whatever they showed before, the first point is
      then lit only for `LED_COLOR_1` and the second only for `LED_COLOR_2`
      and any other byte (the `default:` branch), so the LED shows `v` when
      `v` is a named value and colour 2 otherwise. */
  lemma LedShowsValue(button: nat, value: LedValue, init1: bool, init2: bool)
    requires button < DEV_MAX_BTN
    ensures var es := LedEffects(button, value);
      |es| == 2 && es[0].SetPoint? && es[1].SetPoint? &&
      es[0].row == button / 4 && es[1].row == button / 4 + 4 && es[0].column == es[1].column == button % 4 &&
      es[1].row < 8 && es[0].column < 4
    ensures var es := LedEffects(button, value);
      es[0].on == (value == LED_COLOR_1) && es[1].on == (value != LED_OFF && value != LED_COLOR_1) &&
      PointState(init1, es, button / 4, button % 4) == (value == LED_COLOR_1) &&
      PointState(init2, es, button / 4 + 4, button % 4) == (value != LED_OFF && value != LED_COLOR_1)
    ensures var es := LedEffects(button, value);
      Seen(PointState(init1, es, button / 4, button % 4), PointState(init2, es, button / 4 + 4, button % 4)) ==
      if IsLedValue(value) then value else LED_COLOR_2
  {
    var es := LedEffects(button, value);
    assert es[..1] == [es[0]] && [es[0]][..0] == [];
  }

  /** Every other point of the matrix keeps its state. */
  lemma LedLeavesOthers(button: nat, value: LedValue, init: bool, row: nat, column: nat)
    requires !((row == button / 4 || row == button / 4 + 4) && column == button % 4)
    ensures PointState(init, LedEffects(button, value), row, column) == init
  {
    var es := LedEffects(button, value);
    assert es[..1] == [es[0]] && [es[0]][..0] == [];
    assert PointState(init, es, row, column) == PointState(init, [es[0]], row, column);
    assert PointState(init, [es[0]], row, column) == PointState(init, [], row, column);
  }

  /** Distinct buttons own disjoint pairs of points, so one button's LED
      never disturbs another's. */
  lemma LedPointsDisjoint(b1: nat, b2: nat)
    requires b1 < DEV_MAX_BTN && b2 < DEV_MAX_BTN && b1 != b2
    ensures !((b1 / 4 == b2 / 4 || b1 / 4 == b2 / 4 + 4) && b1 % 4 == b2 % 4)
    ensures !((b1 / 4 + 4 == b2 / 4 || b1 / 4 + 4 == b2 / 4 + 4) && b1 % 4 == b2 % 4)
  {
  }

  // ----- MIDI packets -----

  /** `midiNoteOn(b)`: note-on on the note channel with the button's note and velocity. */
  function NoteOnPacket(c: Config, b: nat): Packet
    requires b < |c.buttons|
  {
    NoteOn(c.noteChannel, c.buttons[b].note, c.buttons[b].velocity)
  }

  /** `midiNoteOff(b)`: note-off, sent with the configured velocity. */
  function NoteOffPacket(c: Config, b: nat): Packet
    requires b < |c.buttons|
  {
    NoteOff(c.noteChannel, c.buttons[b].note, c.buttons[b].velocity)
  }

  /** `midiControlOn(b)`: control change on the control channel, controller
      number = the button's note, value 0x7F. */
  function ControlOnPacket(c: Config, b: nat): Packet
    requires b < |c.buttons|
  {
    ControlChange(c.controlChannel, c.buttons[b].note, CONTROL_ON)
  }

  /** `midiControlOff(b)`: the same with value 0x00. */
  function ControlOffPacket(c: Config, b: nat): Packet
    requires b < |c.buttons|
  {
    ControlChange(c.controlChannel, c.buttons[b].note, CONTROL_OFF)
  }

  /** The bytes on the wire, for a note channel below 16. With note channel
      15 (accepted by `SET_BASE_CHANNEL`) the control channel is 16, which the
      OR folds into channel 0. */
  lemma PacketBytes(c: Config, b: nat)
    requires WellFormed(c) && b < DEV_MAX_BTN && c.noteChannel < MIDI_MAX_CHANNEL
    ensures NoteOnPacket(c, b) == Packet(0x09, 0x90 + c.noteChannel, c.buttons[b].note, c.buttons[b].velocity)
    ensures NoteOffPacket(c, b) == Packet(0x08, 0x80 + c.noteChannel, c.buttons[b].note, c.buttons[b].velocity)
    ensures ControlOnPacket(c, b).header == 0x0B && ControlOnPacket(c, b).byte3 == 0x7F
    ensures ControlOffPacket(c, b).header == 0x0B && ControlOffPacket(c, b).byte3 == 0x00
    ensures ControlOnPacket(c, b).byte2 == ControlOffPacket(c, b).byte2 == c.buttons[b].note
    ensures ControlOnPacket(c, b).byte1 == if c.noteChannel == 15 then 0xB0 else 0xB0 + c.controlChannel
  {
  }

  // ----- per-tick event processing (`UpdateState`) -----

  /** What the button driver reports for one button on one tick: the two
      debounced edges (`isPressed`, `isReleased`) and the level (`getState`). */
  datatype Sample = Sample(pressed: bool, released: bool, level: bool)

  /** A press edge: LED to the pressed value, CC-on if momentary, then note-on. */
  function PressEffects(c: Config, b: nat): seq<Effect>
    requires b < |c.buttons|
  {
    LedEffects(b, c.buttons[b].pressed) +
    (if c.buttons[b].momentary then [Send(ControlOnPacket(c, b))] else []) +
    [Send(NoteOnPacket(c, b))]
  }

  /** A release edge: LED to the released value, note-off, then CC-off if momentary. */
  function ReleaseEffects(c: Config, b: nat): seq<Effect>
    requires b < |c.buttons|
  {
    LedEffects(b, c.buttons[b].released) + [Send(NoteOffPacket(c, b))] +
    (if c.buttons[b].momentary then [Send(ControlOffPacket(c, b))] else [])
  }

  /** One pass of the button loop: press is handled before release. */
  function ButtonEffects(c: Config, b: nat, s: Sample): seq<Effect>
    requires b < |c.buttons|
  {
    (if s.pressed then PressEffects(c, b) else []) + (if s.released then ReleaseEffects(c, b) else [])
  }

  /** The button loop over buttons 0 .. n-1, in index order. */
  function ScanEffects(c: Config, samples: seq<Sample>, n: nat): seq<Effect>
    requires n <= |c.buttons| && n <= |samples|
  {
    if n == 0 then [] else ScanEffects(c, samples, n - 1) + ButtonEffects(c, n - 1, samples[n - 1])
  }

  predicate IsCorner(i: nat)
  {
    i == 0 || i == 3 || i == 15
  }

  /** The boot pattern: buttons 0, 3 and 15 read level false (held down)
      and the other thirteen read level true. */
  predicate IsBootPattern(samples: seq<Sample>)
    requires |samples| == DEV_MAX_BTN
  {
    forall i :: 0 <= i < DEV_MAX_BTN ==> samples[i].level == !IsCorner(i)
  }

  /** The device's state between ticks: its configuration and the `once` latch. */
  datatype Machine = Machine(config: Config, once: bool)

  /** Everything one `UpdateState` call does. */
  datatype TickResult = TickResult(machine: Machine, effects: seq<Effect>, serial: seq<bv8>,
                                   writes: seq<Store>, programmed: bool)

  /** `UpdateState`: the button loop with the configuration as it is, then,
      on the first call only, the boot check and possibly a programming
      session reading `frames`. */
  function Tick(m: Machine, samples: seq<Sample>, frames: seq<Frame>, maxIntensity: bv8): (r: TickResult)
    requires |samples| == DEV_MAX_BTN && |m.config.buttons| == DEV_MAX_BTN
    ensures |r.machine.config.buttons| == DEV_MAX_BTN
  {
    var effects := ScanEffects(m.config, samples, |samples|);
    if m.once && IsBootPattern(samples) then
      var s := Run(m.config, frames, maxIntensity);
      TickResult(Machine(s.config, false), effects, s.serial, s.writes, true)
    else
      TickResult(Machine(m.config, false), effects, [], [], false)
  }

  /** The MIDI packets among some effects, in order. */
  function Packets(effects: seq<Effect>): seq<Packet>
    decreases |effects|
  {
    if effects == [] then []
    else
      var e := effects[|effects| - 1];
      Packets(effects[..|effects| - 1]) + (if e.Send? then [e.packet] else [])
  }

  lemma {:induction false} PacketsAppend(a: seq<Effect>, b: seq<Effect>)
    ensures Packets(a + b) == Packets(a) + Packets(b)
    decreases |b|
  {
    if b == [] {
      assert a + b == a;
    } else {
      assert (a + b)[..|a + b| - 1] == a + b[..|b| - 1];
      PacketsAppend(a, b[..|b| - 1]);
    }
  }

  lemma PacketsSingle(e: Effect)
    ensures Packets([e]) == if e.Send? then [e.packet] else []
  {
    assert [e][..0] == [];
  }

  /** A press edge sends a CC-on (momentary buttons only), then a note-on. */
  lemma PressPackets(c: Config, b: nat)
    requires b < |c.buttons|
    ensures Packets(PressEffects(c, b)) ==
            (if c.buttons[b].momentary then [ControlOnPacket(c, b)] else []) + [NoteOnPacket(c, b)]
  {
    var led := LedEffects(b, c.buttons[b].pressed);
    var cc: seq<Effect> := if c.buttons[b].momentary then [Send(ControlOnPacket(c, b))] else [];
    LedSendsNothing(b, c.buttons[b].pressed);
    if c.buttons[b].momentary { PacketsSingle(Send(ControlOnPacket(c, b))); }
    PacketsSingle(Send(NoteOnPacket(c, b)));
    PacketsAppend(led, cc);
    PacketsAppend(led + cc, [Send(NoteOnPacket(c, b))]);
  }

  /** A release edge sends a note-off, then a CC-off (momentary buttons only). */
  lemma ReleasePackets(c: Config, b: nat)
    requires b < |c.buttons|
    ensures Packets(ReleaseEffects(c, b)) ==
            [NoteOffPacket(c, b)] + (if c.buttons[b].momentary then [ControlOffPacket(c, b)] else [])
  {
    var led := LedEffects(b, c.buttons[b].released);
    var cc: seq<Effect> := if c.buttons[b].momentary then [Send(ControlOffPacket(c, b))] else [];
    LedSendsNothing(b, c.buttons[b].released);
    if c.buttons[b].momentary { PacketsSingle(Send(ControlOffPacket(c, b))); }
    PacketsSingle(Send(NoteOffPacket(c, b)));
    PacketsAppend(led, [Send(NoteOffPacket(c, b))]);
    PacketsAppend(led + [Send(NoteOffPacket(c, b))], cc);
  }

  /** A press followed by a release of the same button sends exactly one
      note-on and then one note-off; when the button is momentary a CC-on
      comes just before the note-on and a CC-off just after the note-off.
      Each edge starts with its LED update. */
  lemma PressThenRelease(c: Config, b: nat)
    requires b < |c.buttons|
    ensures Packets(PressEffects(c, b) + ReleaseEffects(c, b)) ==
            if c.buttons[b].momentary
            then [ControlOnPacket(c, b), NoteOnPacket(c, b), NoteOffPacket(c, b), ControlOffPacket(c, b)]
            else [NoteOnPacket(c, b), NoteOffPacket(c, b)]
    ensures PressEffects(c, b)[..2] == LedEffects(b, c.buttons[b].pressed)
    ensures ReleaseEffects(c, b)[..2] == LedEffects(b, c.buttons[b].released)
  {
    PressPackets(c, b);
    ReleasePackets(c, b);
    PacketsAppend(PressEffects(c, b), ReleaseEffects(c, b));
  }

  lemma LedSendsNothing(b: nat, v: LedValue)
    ensures Packets(LedEffects(b, v)) == []
  {
    var es := LedEffects(b, v);
    assert |es| == 2 && !es[0].Send? && !es[1].Send?;
    assert es[..1] == [es[0]] && [es[0]][..0] == [];
    assert Packets(es) == Packets([es[0]]);
    assert Packets([es[0]]) == Packets([]);
  }

  /** Buttons without an edge contribute nothing, so a tick on which only
      button `b` has edges produces exactly that button's effects. */
  lemma {:induction false} OnlyEdgesCount(c: Config, samples: seq<Sample>, b: nat, n: nat)
    requires n <= |c.buttons| && n <= |samples| && b < |c.buttons| && b < |samples|
    requires forall i :: 0 <= i < |samples| && i != b ==> !samples[i].pressed && !samples[i].released
    ensures n <= b ==> ScanEffects(c, samples, n) == []
    ensures b < n ==> ScanEffects(c, samples, n) == ButtonEffects(c, b, samples[b])
  {
    if n > 0 {
      OnlyEdgesCount(c, samples, b, n - 1);
      var prev, last := ScanEffects(c, samples, n - 1), ButtonEffects(c, n - 1, samples[n - 1]);
      assert ScanEffects(c, samples, n) == prev + last;
      if n - 1 == b {
        assert prev == [];
      } else {
        QuietButton(c, n - 1, samples[n - 1]);
        assert last == [];
      }
      AppendEmpty(prev, last);
    }
  }

  /** A button without an edge produces nothing. */
  lemma QuietButton(c: Config, b: nat, s: Sample)
    requires b < |c.buttons| && !s.pressed && !s.released
    ensures ButtonEffects(c, b, s) == []
  {
  }

  /** The latch: every tick clears `once`; the boot check and the
      programming session happen exactly when `once` was still set and the
      pattern is held; any other tick leaves the configuration and the
      EEPROM alone. The button loop always runs first, on the configuration
      as it was before the tick. */
  lemma TickLatch(m: Machine, samples: seq<Sample>, frames: seq<Frame>, maxIntensity: bv8)
    requires |samples| == DEV_MAX_BTN && |m.config.buttons| == DEV_MAX_BTN
    ensures var r := Tick(m, samples, frames, maxIntensity);
      !r.machine.once && (r.programmed <==> m.once && IsBootPattern(samples)) &&
      r.effects == ScanEffects(m.config, samples, |samples|) &&
      (!r.programmed ==> r.machine.config == m.config && r.writes == [] && r.serial == [])
  {
  }

  /** The inputs of one tick. */
  datatype TickInput = TickInput(samples: seq<Sample>, frames: seq<Frame>)

  predicate WellSampled(inputs: seq<TickInput>)
  {
    forall k :: 0 <= k < |inputs| ==> |inputs[k].samples| == DEV_MAX_BTN
  }

  /** The `programmed` flags of a run of ticks, first tick first. */
  function ProgrammedFlags(m: Machine, inputs: seq<TickInput>, maxIntensity: bv8): (r: seq<bool>)
    requires |m.config.buttons| == DEV_MAX_BTN && WellSampled(inputs)
    ensures |r| == |inputs|
    decreases |inputs|
  {
    if inputs == [] then []
    else
      var t := Tick(m, inputs[0].samples, inputs[0].frames, maxIntensity);
      [t.programmed] + ProgrammedFlags(t.machine, inputs[1..], maxIntensity)
  }

  /** Over the whole life of the device programming mode can only be
      entered on the first tick: a later tick never enters it, even when the
      pattern is still held. */
  lemma {:induction false} ProgrammingOnlyOnFirstTick(m: Machine, inputs: seq<TickInput>, maxIntensity: bv8)
    requires |m.config.buttons| == DEV_MAX_BTN && WellSampled(inputs)
    ensures forall k :: 0 <= k < |inputs| && ProgrammedFlags(m, inputs, maxIntensity)[k] ==>
              k == 0 && m.once && IsBootPattern(inputs[0].samples)
    decreases |inputs|
  {
    if inputs != [] {
      var t := Tick(m, inputs[0].samples, inputs[0].frames, maxIntensity);
      TickLatch(m, inputs[0].samples, inputs[0].frames, maxIntensity);
      assert WellSampled(inputs[1..]) by {
        forall k | 0 <= k < |inputs[1..]| ensures |inputs[1..][k].samples| == DEV_MAX_BTN {
          assert inputs[1..][k] == inputs[k + 1];
        }
      }
      LatchedStaysQuiet(t.machine, inputs[1..], maxIntensity);
    }
  }

  /** Once the latch is clear, no tick programs. */
  lemma {:induction false} LatchedStaysQuiet(m: Machine, inputs: seq<TickInput>, maxIntensity: bv8)
    requires |m.config.buttons| == DEV_MAX_BTN && WellSampled(inputs) && !m.once
    ensures forall k :: 0 <= k < |inputs| ==> !ProgrammedFlags(m, inputs, maxIntensity)[k]
    decreases |inputs|
  {
    if inputs != [] {
      var t := Tick(m, inputs[0].samples, inputs[0].frames, maxIntensity);
      assert t.machine == m;
      assert WellSampled(inputs[1..]) by {
        forall k | 0 <= k < |inputs[1..]| ensures |inputs[1..][k].samples| == DEV_MAX_BTN {
          assert inputs[1..][k] == inputs[k + 1];
        }
      }
      LatchedStaysQuiet(m, inputs[1..], maxIntensity);
    }
  }

  // ----- start-up display -----

  /** The constructor's LED loop: `setButtonLed(i, released)` for i = 0 .. n-1. */
  function InitLeds(c: Config, n: nat): seq<Effect>
    requires n <= |c.buttons|
  {
    if n == 0 then [] else InitLeds(c, n - 1) + LedEffects(n - 1, c.buttons[n - 1].released)
  }

  /** What the constructor asks of the display: the loaded intensity, a
      scan limit of `DEV_BTN_COLUMNS - 1`, then every LED in its released state. */
  function InitEffects(c: Config): seq<Effect>
    requires |c.buttons| == DEV_MAX_BTN
  {
    [DisplayIntensity(c.intensity), DisplayScanLimit((DEV_BTN_COLUMNS - 1) as bv8)] + InitLeds(c, DEV_MAX_BTN)
  }

  lemma PointStateAppend(init: bool, a: seq<Effect>, b: seq<Effect>, row: nat, column: nat)
    ensures PointState(init, a + b, row, column) == PointState(PointState(init, a, row, column), b, row, column)
    decreases |b|
  {
    if b != [] {
      assert (a + b)[..|a + b| - 1] == a + b[..|b| - 1];
      PointStateAppend(init, a, b[..|b| - 1], row, column);
    } else {
      assert a + b == a;
    }
  }

  /** After the constructor's LED loop over buttons 0 .. n-1 on a matrix
      that `begin()` left dark, each of those buttons shows its released
      value: the first point is lit only for `LED_COLOR_1`, the second only
      for `LED_COLOR_2` or an unnamed byte, which takes the `default:`
      branch as `LED_COLOR_2` does. Every later button is still dark. */
  lemma {:induction false} InitShowsReleased(c: Config, n: nat, b: nat)
    requires n <= |c.buttons| == DEV_MAX_BTN && b < DEV_MAX_BTN
    ensures var r := c.buttons[b].released;
      PointState(false, InitLeds(c, n), b / 4, b % 4) == (b < n && r == LED_COLOR_1) &&
      PointState(false, InitLeds(c, n), b / 4 + 4, b % 4) == (b < n && r != LED_OFF && r != LED_COLOR_1)
    ensures var r := c.buttons[b].released;
      Seen(PointState(false, InitLeds(c, n), b / 4, b % 4), PointState(false, InitLeds(c, n), b / 4 + 4, b % 4)) ==
      if b < n then (if IsLedValue(r) then r else LED_COLOR_2) else LED_OFF
  {
    if n > 0 {
      var prev, last := InitLeds(c, n - 1), LedEffects(n - 1, c.buttons[n - 1].released);
      assert InitLeds(c, n) == prev + last;
      var a1, a2 := PointState(false, prev, b / 4, b % 4), PointState(false, prev, b / 4 + 4, b % 4);
      PointStateAppend(false, prev, last, b / 4, b % 4);
      PointStateAppend(false, prev, last, b / 4 + 4, b % 4);
      assert PointState(false, InitLeds(c, n), b / 4, b % 4) == PointState(a1, last, b / 4, b % 4);
      assert PointState(false, InitLeds(c, n), b / 4 + 4, b % 4) == PointState(a2, last, b / 4 + 4, b % 4);
      if b == n - 1 {
        LedShowsValue(b, c.buttons[b].released, a1, a2);
      } else {
        InitShowsReleased(c, n - 1, b);
        OtherLedKept(n - 1, c.buttons[n - 1].released, b, a1, a2);
      }
    }
  }

  /** Setting one button's LED leaves another button's LED as it was. */
  lemma OtherLedKept(button: nat, value: LedValue, b: nat, a1: bool, a2: bool)
    requires button < DEV_MAX_BTN && b < DEV_MAX_BTN && b != button
    ensures PointState(a1, LedEffects(button, value), b / 4, b % 4) == a1
    ensures PointState(a2, LedEffects(button, value), b / 4 + 4, b % 4) == a2
  {
    LedPointsDisjoint(b, button);
    LedLeavesOthers(button, value, a1, b / 4, b % 4);
    LedLeavesOthers(button, value, a2, b / 4 + 4, b % 4);
  }

  /** Right after the constructor every button shows its released value:
      first point lit iff `LED_COLOR_1`, second point lit iff `LED_COLOR_2`
      or an unnamed byte, which therefore shows as `LED_COLOR_2`. */
  lemma InitShowsReleasedButtons(c: Config, b: nat)
    requires |c.buttons| == DEV_MAX_BTN && b < DEV_MAX_BTN
    ensures var r := c.buttons[b].released;
      PointState(false, InitEffects(c), b / 4, b % 4) == (r == LED_COLOR_1) &&
      PointState(false, InitEffects(c), b / 4 + 4, b % 4) == (r != LED_OFF && r != LED_COLOR_1)
    ensures var r := c.buttons[b].released;
      Seen(PointState(false, InitEffects(c), b / 4, b % 4), PointState(false, InitEffects(c), b / 4 + 4, b % 4)) ==
      if IsLedValue(r) then r else LED_COLOR_2
  {
    var controls := [DisplayIntensity(c.intensity), DisplayScanLimit((DEV_BTN_COLUMNS - 1) as bv8)];
    ControlsKeepPoints(false, controls, b / 4, b % 4);
    ControlsKeepPoints(false, controls, b / 4 + 4, b % 4);
    PointStateAppend(false, controls, InitLeds(c, DEV_MAX_BTN), b / 4, b % 4);
    PointStateAppend(false, controls, InitLeds(c, DEV_MAX_BTN), b / 4 + 4, b % 4);
    InitShowsReleased(c, DEV_MAX_BTN, b);
  }

  /** Effects other than `SetPoint` leave every point as it was. */
  lemma {:induction false} ControlsKeepPoints(init: bool, effects: seq<Effect>, row: nat, column: nat)
    requires forall i :: 0 <= i < |effects| ==> !effects[i].SetPoint?
    ensures PointState(init, effects, row, column) == init
    decreases |effects|
  {
    if effects != [] {
      ControlsKeepPoints(init, effects[..|effects| - 1], row, column);
    }
  }
}
