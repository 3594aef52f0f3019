/** The boot-time load, the LED wiring, the MIDI packets and the per-tick
    event processing of the RGB variant (midicade/device.cpp), as functions
    on values. The class `MidicadeDevice.Device` is proved to behave exactly
    as these functions say. */
module MidicadeModel {
  import opened MidicadeConfig
  import opened Storage
  import opened UsbMidi
  import opened MidicadeProgrammer
  import opened Seqs

  // ----- boot-time load (the `Device` constructor's switch) -----

  /** What the constructor leaves in memory and which stores it issues. */
  datatype Boot = Boot(config: Config, writes: seq<Store>)

  /** The stores of the `default:` branch: status, base channel, then every record. */
  function ResetWrites(c: Config): seq<Store>
    requires |c.buttons| == DEV_MAX_BTN
  {
    [StoreByte(ADDR_STATUS, CONFIG_DEFAULT), StoreByte(ADDR_BASE_CHANNEL, c.noteChannel)] +
    RecordWrites(c.buttons, DEV_MAX_BTN)
  }

  /** The three-way decision on the stored status byte. The custom branch
      takes the stored bytes as they are, without any range check. */
  function Load(img: Image<ButtonConfig>): (b: Boot)
    requires IsImage(img)
    ensures WellFormed(b.config)
  {
    var status := img.header[ADDR_STATUS];
    if status == CONFIG_CUSTOM then
      var ch := img.header[ADDR_BASE_CHANNEL];
      Boot(Config(ch, ch + 1, img.records), [])
    else if status == CONFIG_DEFAULT then
      Boot(Defaults(), [])
    else
      Boot(Defaults(), ResetWrites(Defaults()))
  }

  /** Status `CONFIG_CUSTOM`: note channel and all sixteen records come from
      the EEPROM, the control channel is derived, nothing is stored. */
  lemma LoadCustom(img: Image<ButtonConfig>)
    requires IsImage(img) && img.header[ADDR_STATUS] == CONFIG_CUSTOM
    ensures Load(img).writes == []
    ensures var c := Load(img).config;
      c.noteChannel == img.header[ADDR_BASE_CHANNEL] && c.controlChannel == c.noteChannel + 1 && c.buttons == img.records
  {
  }

  /** Status `CONFIG_DEFAULT`: the compiled-in defaults, nothing stored. */
  lemma LoadDefault(img: Image<ButtonConfig>)
    requires IsImage(img) && img.header[ADDR_STATUS] == CONFIG_DEFAULT
    ensures Load(img) == Boot(Defaults(), [])
  {
  }

  /** Any other status byte, `CONFIG_RESET` included: the defaults stay in
      memory and are written back, status `CONFIG_DEFAULT` first, so that the
      next boot takes the default branch and changes nothing. */
  lemma LoadReset(img: Image<ButtonConfig>)
    requires IsImage(img) && img.header[ADDR_STATUS] != CONFIG_CUSTOM && img.header[ADDR_STATUS] != CONFIG_DEFAULT
    ensures Load(img).config == Defaults()
    ensures |Load(img).writes| == 2 + DEV_MAX_BTN
    ensures ApplyAll(img, Load(img).writes) == Image([CONFIG_DEFAULT, MIDI_CHANNEL_BASE], DEFAULT_BUTTONS)
    ensures Load(ApplyAll(img, Load(img).writes)) == Boot(Defaults(), [])
  {
    ResetImage(img);
  }

  /** Writing the defaults back leaves exactly the default image. */
  lemma ResetImage(img: Image<ButtonConfig>)
    requires IsImage(img)
    ensures ApplyAll(img, ResetWrites(Defaults())) == Image([CONFIG_DEFAULT, MIDI_CHANNEL_BASE], DEFAULT_BUTTONS)
  {
    var d := Defaults();
    var head := [StoreByte(ADDR_STATUS, CONFIG_DEFAULT), StoreByte(ADDR_BASE_CHANNEL, d.noteChannel)];
    ApplyAllAppend(img, head, RecordWrites(d.buttons, DEV_MAX_BTN));
    TwoStores(img, head[0], head[1]);
    var mid := ApplyAll(img, head);
    assert mid.header == [CONFIG_DEFAULT, MIDI_CHANNEL_BASE];
    RecordWritesImage(mid, d.buttons, DEV_MAX_BTN);
    assert d.buttons[..DEV_MAX_BTN] + mid.records[DEV_MAX_BTN..] == DEFAULT_BUTTONS;
  }

  /** After a boot that did not take the default branch, the EEPROM holds
      exactly the configuration in memory. */
  lemma LoadMirrors(img: Image<ButtonConfig>)
    requires IsImage(img) && img.header[ADDR_STATUS] != CONFIG_DEFAULT
    ensures Mirrors(Load(img).config, ApplyAll(img, Load(img).writes))
  {
    if img.header[ADDR_STATUS] != CONFIG_CUSTOM {
      LoadReset(img);
    }
  }

  /** A custom boot reproduces whatever configuration the EEPROM mirrors. */
  lemma CustomBootRestores(c: Config, img: Image<ButtonConfig>)
    requires WellFormed(c) && Mirrors(c, img) && img.header[ADDR_STATUS] == CONFIG_CUSTOM
    ensures Load(img) == Boot(c, [])
  {
  }

  /** Every change accepted in a programming session survives a reboot once
      the status byte says `CONFIG_CUSTOM`, provided the session started from
      a boot that did not take the default branch. */
  lemma SessionSurvivesReboot(img: Image<ButtonConfig>, frames: seq<Frame>)
    requires IsImage(img) && img.header[ADDR_STATUS] != CONFIG_DEFAULT
    ensures var boot := Load(img);
      var s := Run(boot.config, frames);
      var after := ApplyAll(ApplyAll(img, boot.writes), s.writes);
      after.header[ADDR_STATUS] == CONFIG_CUSTOM ==> Load(after) == Boot(s.config, [])
  {
    var boot := Load(img);
    LoadMirrors(img);
    RunPreserves(boot.config, frames, ApplyAll(img, boot.writes));
  }

  lemma RunSnoc(c: Config, frames: seq<Frame>, f: Frame)
    requires |c.buttons| == DEV_MAX_BTN
    ensures Run(c, frames + [f]) == Feed(Run(c, frames), f)
  {
    assert (frames + [f])[..|frames|] == frames;
  }

  /** The two frames of a session that only makes the configuration permanent. */
  const MAKE_CUSTOM_SESSION: seq<Frame> := [Frame(SET_STATUS, CONFIG_CUSTOM, 0, 0, 0), Frame(PRG_DONE, 0, 0, 0, 0)]

  /** The default branch runs on the compiled-in configuration but leaves
      the EEPROM as it was. Making the configuration permanent from there
      therefore brings back at the next boot whatever the EEPROM held, not
      the configuration the session ran with; the two differ whenever the
      stored records are not the defaults. */
  lemma DefaultBootRestoresStored(img: Image<ButtonConfig>)
    requires IsImage(img) && img.header[ADDR_STATUS] == CONFIG_DEFAULT
    ensures var boot := Load(img);
      var s := Run(boot.config, MAKE_CUSTOM_SESSION);
      var next := Load(ApplyAll(ApplyAll(img, boot.writes), s.writes)).config;
      s.done && s.config == Defaults() && next.buttons == img.records &&
      next.noteChannel == img.header[ADDR_BASE_CHANNEL] &&
      (img.records != DEFAULT_BUTTONS ==> next != s.config)
  {
    var d := Defaults();
    LoadDefault(img);
    var f0, f1 := MAKE_CUSTOM_SESSION[0], MAKE_CUSTOM_SESSION[1];
    RunSnoc(d, [], f0);
    assert [] + [f0] == [f0];
    SetStatusDeferred(d, f0);
    var s1 := Run(d, [f0]);
    assert s1.config == d && !s1.done && s1.writes == [StoreByte(ADDR_STATUS, CONFIG_CUSTOM)];
    RunSnoc(d, [f0], f1);
    assert [f0] + [f1] == MAKE_CUSTOM_SESSION;
    DoneEndsLoop(d, f1);
    var s := Run(d, MAKE_CUSTOM_SESSION);
    assert s.writes == s1.writes && s.config == d && s.done;
    assert ApplyAll(img, []) == img;
    SingleStore(img, StoreByte(ADDR_STATUS, CONFIG_CUSTOM));
    var after := ApplyAll(img, s.writes);
    assert after == img.(header := img.header[ADDR_STATUS := CONFIG_CUSTOM]);
    LoadCustom(after);
  }

  /** An EEPROM left with status `CONFIG_DEFAULT` and button 0's note
      changed to 0: the session plays note 48 on button 0, yet after
      `SET_STATUS CONFIG_CUSTOM` the next boot plays note 0. */
  lemma StaleNoteComesBack()
    ensures var img := Image([CONFIG_DEFAULT, MIDI_CHANNEL_BASE], DEFAULT_BUTTONS[0 := DEFAULT_BUTTONS[0].(midiNote := 0)]);
      var boot := Load(img);
      var s := Run(boot.config, MAKE_CUSTOM_SESSION);
      var next := Load(ApplyAll(ApplyAll(img, boot.writes), s.writes)).config;
      s.config.buttons[0].midiNote == 48 && next.buttons[0].midiNote == 0
  {
    var img := Image([CONFIG_DEFAULT, MIDI_CHANNEL_BASE], DEFAULT_BUTTONS[0 := DEFAULT_BUTTONS[0].(midiNote := 0)]);
    DefaultBootRestoresStored(img);
  }

  // ----- the LEDs -----

  /** What the firmware asks of FastLED and of the USB-MIDI port. */
  datatype Effect =
    | Paint(slot: Slot, color: Rgb)  // `*(ledStates[b]) = color` followed by `FastLED.show()`
    | Send(packet: Packet)           // `MidiUSB.sendMIDI(packet)` and `flush()`

  /** The colours of the sixteen LEDs, strip after strip, after some effects. */
  function Painted(leds: seq<Rgb>, effects: seq<Effect>): (r: seq<Rgb>)
    ensures |r| == |leds|
    decreases |effects|
  {
    if effects == [] then leds
    else
      var prev, e := Painted(leds, effects[..|effects| - 1]), effects[|effects| - 1];
      if e.Paint? && SlotIndex(e.slot) < |prev| then prev[SlotIndex(e.slot) := e.color] else prev
  }

  lemma {:induction false} PaintedAppend(leds: seq<Rgb>, a: seq<Effect>, b: seq<Effect>)
    ensures Painted(leds, a + b) == Painted(Painted(leds, a), b)
    decreases |b|
  {
    if b == [] {
      assert a + b == a;
    } else {
      assert (a + b)[..|a + b| - 1] == a + b[..|b| - 1];
      PaintedAppend(leds, a, b[..|b| - 1]);
    }
  }

  /** `setButtonLedPressed`, `setButtonLedReleased` and `setButtonLedColor`:
      one assignment through the button's LED pointer. */
  function LedEffects(b: nat, color: Rgb): seq<Effect>
    requires b < DEV_MAX_BTN
  {
    [Paint(PinSlot(b), color)]
  }

  /** Setting button `b`'s LED sets exactly the LED it is wired to; every
      other LED, and so every other button's LED, keeps its colour. */
  lemma LedShowsColor(b: nat, color: Rgb, leds: seq<Rgb>)
    requires b < DEV_MAX_BTN && |leds| == 16
    ensures SlotIndex(PinSlot(b)) < 16 && Painted(leds, LedEffects(b, color)) == leds[SlotIndex(PinSlot(b)) := color]
    ensures forall b2 :: 0 <= b2 < DEV_MAX_BTN && b2 != b ==>
              Painted(leds, LedEffects(b, color))[SlotIndex(PinSlot(b2))] == leds[SlotIndex(PinSlot(b2))]
  {
    WiringInGrid();
    assert LedEffects(b, color)[..0] == [];
    forall b2 | 0 <= b2 < DEV_MAX_BTN && b2 != b
      ensures SlotIndex(PinSlot(b2)) != SlotIndex(PinSlot(b))
    {
      WiringInjective(b, b2);
    }
  }

  // ----- MIDI packets -----

  /** `midiNoteOn(b)`: note-on on the note channel with the button's note and velocity. */
  function NoteOnPacket(c: Config, b: nat): Packet
    requires b < |c.buttons|
  {
    NoteOn(c.noteChannel, c.buttons[b].midiNote, c.buttons[b].midiVelocity)
  }

  /** `midiNoteOff(b)`: note-off, sent with the configured velocity. */
  function NoteOffPacket(c: Config, b: nat): Packet
    requires b < |c.buttons|
  {
    NoteOff(c.noteChannel, c.buttons[b].midiNote, c.buttons[b].midiVelocity)
  }

  /** `midiControlOn(b)`: control change on the control channel, controller
      number = the button's note, value 0x7F. */
  function ControlOnPacket(c: Config, b: nat): Packet
    requires b < |c.buttons|
  {
    ControlChange(c.controlChannel, c.buttons[b].midiNote, CONTROL_ON)
  }

  /** `midiControlOff(b)`: the same with value 0x00. */
  function ControlOffPacket(c: Config, b: nat): Packet
    requires b < |c.buttons|
  {
    ControlChange(c.controlChannel, c.buttons[b].midiNote, CONTROL_OFF)
  }

  /** The bytes on the wire, for a note channel below 16. With note channel
      15 the control channel is 16, which the OR folds into channel 0. */
  lemma PacketBytes(c: Config, b: nat)
    requires WellFormed(c) && b < DEV_MAX_BTN && c.noteChannel < MIDI_MAX_CHANNEL
    ensures NoteOnPacket(c, b) == Packet(0x09, 0x90 + c.noteChannel, c.buttons[b].midiNote, c.buttons[b].midiVelocity)
    ensures NoteOffPacket(c, b) == Packet(0x08, 0x80 + c.noteChannel, c.buttons[b].midiNote, c.buttons[b].midiVelocity)
    ensures ControlOnPacket(c, b).header == 0x0B && ControlOnPacket(c, b).byte3 == 0x7F
    ensures ControlOffPacket(c, b).header == 0x0B && ControlOffPacket(c, b).byte3 == 0x00
    ensures ControlOnPacket(c, b).byte2 == ControlOffPacket(c, b).byte2 == c.buttons[b].midiNote
    ensures ControlOnPacket(c, b).byte1 == if c.noteChannel == 15 then 0xB0 else 0xB0 + c.controlChannel
  {
  }

  // ----- per-tick event processing (`UpdateState`) -----

  /** What the button driver reports for one button on one tick: the two
      debounced edges (`isPressed`, `isReleased`) and the level (`getState`). */
  datatype Sample = Sample(pressed: bool, released: bool, level: bool)

  /** A press edge: LED to the pressed colour, note-on, then CC-on if momentary. */
  function PressEffects(c: Config, b: nat): seq<Effect>
    requires b < |c.buttons| == DEV_MAX_BTN
  {
    LedEffects(b, c.buttons[b].colorPressed) + [Send(NoteOnPacket(c, b))] +
    (if c.buttons[b].momentary then [Send(ControlOnPacket(c, b))] else [])
  }

  /** A release edge: LED to the released colour, note-off, then CC-off if momentary. */
  function ReleaseEffects(c: Config, b: nat): seq<Effect>
    requires b < |c.buttons| == DEV_MAX_BTN
  {
    LedEffects(b, c.buttons[b].colorReleased) + [Send(NoteOffPacket(c, b))] +
    (if c.buttons[b].momentary then [Send(ControlOffPacket(c, b))] else [])
  }

  /** One pass of the button loop: press is handled before release. */
  function ButtonEffects(c: Config, b: nat, s: Sample): seq<Effect>
    requires b < |c.buttons| == DEV_MAX_BTN
  {
    (if s.pressed then PressEffects(c, b) else []) + (if s.released then ReleaseEffects(c, b) else [])
  }

  /** The button loop over buttons 0 .. n-1, in index order. */
  function ScanEffects(c: Config, samples: seq<Sample>, n: nat): seq<Effect>
    requires n <= |c.buttons| == DEV_MAX_BTN && n <= |samples|
  {
    if n == 0 then [] else ScanEffects(c, samples, n - 1) + ButtonEffects(c, n - 1, samples[n - 1])
  }

  /** The boot pattern: buttons 0, 3 and 15 read level false (held down);
      the other buttons are not looked at. */
  predicate IsBootPattern(samples: seq<Sample>)
    requires |samples| == DEV_MAX_BTN
  {
    !samples[0].level && !samples[3].level && !samples[15].level
  }

  /** The device's state between ticks: its configuration and the `once` latch. */
  datatype Machine = Machine(config: Config, once: bool)

  /** Everything one `UpdateState` call does. */
  datatype TickResult = TickResult(machine: Machine, effects: seq<Effect>, serial: seq<SerialItem>,
                                   writes: seq<Store>, programmed: bool)

  /** `UpdateState`: the button loop with the configuration as it is, then,
      on the first call only, the boot check and possibly a programming
      session reading `frames`. */
  function Tick(m: Machine, samples: seq<Sample>, frames: seq<Frame>): (r: TickResult)
    requires |samples| == DEV_MAX_BTN && |m.config.buttons| == DEV_MAX_BTN
    ensures |r.machine.config.buttons| == DEV_MAX_BTN
  {
    var effects := ScanEffects(m.config, samples, |samples|);
    if m.once && IsBootPattern(samples) then
      var s := Run(m.config, frames);
      TickResult(Machine(s.config, false), effects, s.serial, s.writes, true)
    else
      TickResult(Machine(m.config, false), effects, [], [], false)
  }

  /** The boot check reads only the levels of buttons 0, 3 and 15: two
      sample vectors that agree there agree on the pattern, whatever the
      other thirteen buttons show. */
  lemma BootPatternCorners(s: seq<Sample>, t: seq<Sample>)
    requires |s| == |t| == DEV_MAX_BTN
    requires s[0].level == t[0].level && s[3].level == t[3].level && s[15].level == t[15].level
    ensures IsBootPattern(s) <==> IsBootPattern(t)
    ensures IsBootPattern(s) <==> forall i :: 0 <= i < DEV_MAX_BTN && (i == 0 || i == 3 || i == 15) ==> !s[i].level
  {
  }

  /** The MIDI packets among some effects, in order. */
  function Packets(effects: seq<Effect>): seq<Packet>
    decreases |effects|
  {
    if effects == [] then []
    else
      var e := effects[|effects| - 1];
      Packets(effects[..|effects| - 1]) + (if e.Send? then [e.packet] else [])
  }

  lemma {:induction false} PacketsAppend(a: seq<Effect>, b: seq<Effect>)
    ensures Packets(a + b) == Packets(a) + Packets(b)
    decreases |b|
  {
    if b == [] {
      assert a + b == a;
    } else {
      assert (a + b)[..|a + b| - 1] == a + b[..|b| - 1];
      PacketsAppend(a, b[..|b| - 1]);
    }
  }

  lemma PacketsSingle(e: Effect)
    ensures Packets([e]) == if e.Send? then [e.packet] else []
  {
    assert [e][..0] == [];
  }

  /** A press edge sends a note-on, then a CC-on (momentary buttons only). */
  lemma PressPackets(c: Config, b: nat)
    requires b < |c.buttons| == DEV_MAX_BTN
    ensures Packets(PressEffects(c, b)) ==
            [NoteOnPacket(c, b)] + (if c.buttons[b].momentary then [ControlOnPacket(c, b)] else [])
  {
    var led := LedEffects(b, c.buttons[b].colorPressed);
    var cc: seq<Effect> := if c.buttons[b].momentary then [Send(ControlOnPacket(c, b))] else [];
    PacketsSingle(led[0]);
    if c.buttons[b].momentary { PacketsSingle(Send(ControlOnPacket(c, b))); }
    PacketsSingle(Send(NoteOnPacket(c, b)));
    PacketsAppend(led, [Send(NoteOnPacket(c, b))]);
    PacketsAppend(led + [Send(NoteOnPacket(c, b))], cc);
  }

  /** A release edge sends a note-off, then a CC-off (momentary buttons only). */
  lemma ReleasePackets(c: Config, b: nat)
    requires b < |c.buttons| == DEV_MAX_BTN
    ensures Packets(ReleaseEffects(c, b)) ==
            [NoteOffPacket(c, b)] + (if c.buttons[b].momentary then [ControlOffPacket(c, b)] else [])
  {
    var led := LedEffects(b, c.buttons[b].colorReleased);
    var cc: seq<Effect> := if c.buttons[b].momentary then [Send(ControlOffPacket(c, b))] else [];
    PacketsSingle(led[0]);
    if c.buttons[b].momentary { PacketsSingle(Send(ControlOffPacket(c, b))); }
    PacketsSingle(Send(NoteOffPacket(c, b)));
    PacketsAppend(led, [Send(NoteOffPacket(c, b))]);
    PacketsAppend(led + [Send(NoteOffPacket(c, b))], cc);
  }

  /** A press followed by a release of the same button sends exactly one
      note-on and then one note-off; when the button is momentary a CC-on
      follows the note-on and a CC-off follows the note-off. Each edge starts
      with its LED update. */
  lemma PressThenRelease(c: Config, b: nat)
    requires b < |c.buttons| == DEV_MAX_BTN
    ensures Packets(PressEffects(c, b) + ReleaseEffects(c, b)) ==
            if c.buttons[b].momentary
            then [NoteOnPacket(c, b), ControlOnPacket(c, b), NoteOffPacket(c, b), ControlOffPacket(c, b)]
            else [NoteOnPacket(c, b), NoteOffPacket(c, b)]
    ensures PressEffects(c, b)[0] == Paint(PinSlot(b), c.buttons[b].colorPressed)
    ensures ReleaseEffects(c, b)[0] == Paint(PinSlot(b), c.buttons[b].colorReleased)
  {
    PressPackets(c, b);
    ReleasePackets(c, b);
    PacketsAppend(PressEffects(c, b), ReleaseEffects(c, b));
  }

  /** MIDI packets leave the LEDs alone. */
  lemma SendsPaintNothing(leds: seq<Rgb>, a: seq<Effect>, p: Packet)
    ensures Painted(leds, a + [Send(p)]) == Painted(leds, a)
  {
    assert (a + [Send(p)])[..|a|] == a;
  }

  /** An edge changes only the button's own LED: to the pressed colour on
      a press, to the released colour on a release. */
  lemma EdgePaints(c: Config, b: nat, leds: seq<Rgb>)
    requires b < |c.buttons| == DEV_MAX_BTN
    ensures Painted(leds, PressEffects(c, b)) == Painted(leds, LedEffects(b, c.buttons[b].colorPressed))
    ensures Painted(leds, ReleaseEffects(c, b)) == Painted(leds, LedEffects(b, c.buttons[b].colorReleased))
  {
    var lp, lr := LedEffects(b, c.buttons[b].colorPressed), LedEffects(b, c.buttons[b].colorReleased);
    SendsPaintNothing(leds, lp, NoteOnPacket(c, b));
    SendsPaintNothing(leds, lr, NoteOffPacket(c, b));
    if c.buttons[b].momentary {
      SendsPaintNothing(leds, lp + [Send(NoteOnPacket(c, b))], ControlOnPacket(c, b));
      SendsPaintNothing(leds, lr + [Send(NoteOffPacket(c, b))], ControlOffPacket(c, b));
    } else {
      assert PressEffects(c, b) == lp + [Send(NoteOnPacket(c, b))];
      assert ReleaseEffects(c, b) == lr + [Send(NoteOffPacket(c, b))];
    }
  }

  /** Buttons without an edge contribute nothing, so a tick on which only
      button `b` has edges produces exactly that button's effects. */
  lemma {:induction false} OnlyEdgesCount(c: Config, samples: seq<Sample>, b: nat, n: nat)
    requires n <= |c.buttons| == DEV_MAX_BTN && n <= |samples| && b < |c.buttons| && b < |samples|
    requires forall i :: 0 <= i < |samples| && i != b ==> !samples[i].pressed && !samples[i].released
    ensures n <= b ==> ScanEffects(c, samples, n) == []
    ensures b < n ==> ScanEffects(c, samples, n) == ButtonEffects(c, b, samples[b])
  {
    if n > 0 {
      OnlyEdgesCount(c, samples, b, n - 1);
      var prev, last := ScanEffects(c, samples, n - 1), ButtonEffects(c, n - 1, samples[n - 1]);
      assert ScanEffects(c, samples, n) == prev + last;
      if n - 1 == b {
        assert prev == [];
      } else {
        QuietButton(c, n - 1, samples[n - 1]);
        assert last == [];
      }
      AppendEmpty(prev, last);
    }
  }

  /** A button without an edge produces nothing. */
  lemma QuietButton(c: Config, b: nat, s: Sample)
    requires b < |c.buttons| == DEV_MAX_BTN && !s.pressed && !s.released
    ensures ButtonEffects(c, b, s) == []
  {
  }

  /** The latch: every tick clears `once`; the boot check and the
      programming session happen exactly when `once` was still set and the
      pattern is held; any other tick leaves the configuration and the
      EEPROM alone. The button loop always runs first, on the configuration
      as it was before the tick. */
  lemma TickLatch(m: Machine, samples: seq<Sample>, frames: seq<Frame>)
    requires |samples| == DEV_MAX_BTN && |m.config.buttons| == DEV_MAX_BTN
    ensures var r := Tick(m, samples, frames);
      !r.machine.once && (r.programmed <==> m.once && IsBootPattern(samples)) &&
      r.effects == ScanEffects(m.config, samples, |samples|) &&
      (!r.programmed ==> r.machine.config == m.config && r.writes == [] && r.serial == [])
  {
  }

  /** The inputs of one tick. */
  datatype TickInput = TickInput(samples: seq<Sample>, frames: seq<Frame>)

  predicate WellSampled(inputs: seq<TickInput>)
  {
    forall k :: 0 <= k < |inputs| ==> |inputs[k].samples| == DEV_MAX_BTN
  }

  /** The `programmed` flags of a run of ticks, first tick first. */
  function ProgrammedFlags(m: Machine, inputs: seq<TickInput>): (r: seq<bool>)
    requires |m.config.buttons| == DEV_MAX_BTN && WellSampled(inputs)
    ensures |r| == |inputs|
    decreases |inputs|
  {
    if inputs == [] then []
    else
      var t := Tick(m, inputs[0].samples, inputs[0].frames);
      [t.programmed] + ProgrammedFlags(t.machine, inputs[1..])
  }

  lemma TailWellSampled(inputs: seq<TickInput>)
    requires inputs != [] && WellSampled(inputs)
    ensures WellSampled(inputs[1..])
  {
    forall k | 0 <= k < |inputs[1..]| ensures |inputs[1..][k].samples| == DEV_MAX_BTN {
      assert inputs[1..][k] == inputs[k + 1];
    }
  }

  /** Over the whole life of the device programming mode can only be
      entered on the first tick: a later tick never enters it, even when the
      pattern is still held. */
  lemma ProgrammingOnlyOnFirstTick(m: Machine, inputs: seq<TickInput>)
    requires |m.config.buttons| == DEV_MAX_BTN && WellSampled(inputs)
    ensures forall k :: 0 <= k < |inputs| && ProgrammedFlags(m, inputs)[k] ==>
              k == 0 && m.once && IsBootPattern(inputs[0].samples)
  {
    if inputs != [] {
      var t := Tick(m, inputs[0].samples, inputs[0].frames);
      TickLatch(m, inputs[0].samples, inputs[0].frames);
      TailWellSampled(inputs);
      LatchedStaysQuiet(t.machine, inputs[1..]);
    }
  }

  /** Once the latch is clear, no tick programs. */
  lemma {:induction false} LatchedStaysQuiet(m: Machine, inputs: seq<TickInput>)
    requires |m.config.buttons| == DEV_MAX_BTN && WellSampled(inputs) && !m.once
    ensures forall k :: 0 <= k < |inputs| ==> !ProgrammedFlags(m, inputs)[k]
    decreases |inputs|
  {
    if inputs != [] {
      var t := Tick(m, inputs[0].samples, inputs[0].frames);
      assert t.machine == m;
      TailWellSampled(inputs);
      LatchedStaysQuiet(m, inputs[1..]);
    }
  }

  // ----- start-up display -----

  /** The constructor's wiring loop: `setButtonLedReleased(i)` for i = 0 .. n-1. */
  function InitLeds(c: Config, n: nat): seq<Effect>
    requires n <= |c.buttons| == DEV_MAX_BTN
  {
    if n == 0 then [] else InitLeds(c, n - 1) + LedEffects(n - 1, c.buttons[n - 1].colorReleased)
  }

  /** The display the constructor leaves: at each LED the released colour
      of the button wired to it. */
  function ReleasedDisplay(c: Config): (r: seq<Rgb>)
    requires |c.buttons| == DEV_MAX_BTN
    ensures |r| == 16
  {
    seq(16, k requires 0 <= k < 16 => c.buttons[SLOT_BUTTONS[k]].colorReleased)
  }

  /** After the loop over buttons 0 .. n-1 each of those buttons' LEDs shows
      its released colour and every other LED is as it was. */
  lemma {:induction false} InitPaints(c: Config, n: nat, leds: seq<Rgb>)
    requires n <= |c.buttons| == DEV_MAX_BTN && |leds| == 16
    ensures forall b :: 0 <= b < n ==> Painted(leds, InitLeds(c, n))[SlotIndex(PinSlot(b))] == c.buttons[b].colorReleased
    ensures forall k :: 0 <= k < 16 && SLOT_BUTTONS[k] >= n ==> Painted(leds, InitLeds(c, n))[k] == leds[k]
  {
    WiringInGrid();
    WiringLeftInverse();
    if n > 0 {
      var prev := InitLeds(c, n - 1);
      InitPaints(c, n - 1, leds);
      PaintedAppend(leds, prev, LedEffects(n - 1, c.buttons[n - 1].colorReleased));
      LedShowsColor(n - 1, c.buttons[n - 1].colorReleased, Painted(leds, prev));
    }
  }

  /** Right after the constructor the LEDs show exactly `ReleasedDisplay`,
      whatever they held before: the wiring loop reaches every LED. */
  lemma InitShowsReleased(c: Config, leds: seq<Rgb>)
    requires |c.buttons| == DEV_MAX_BTN && |leds| == 16
    ensures Painted(leds, InitLeds(c, DEV_MAX_BTN)) == ReleasedDisplay(c)
    ensures forall b :: 0 <= b < DEV_MAX_BTN ==>
              Painted(leds, InitLeds(c, DEV_MAX_BTN))[SlotIndex(PinSlot(b))] == c.buttons[b].colorReleased
  {
    InitPaints(c, DEV_MAX_BTN, leds);
    WiringRightInverse();
    var r := Painted(leds, InitLeds(c, DEV_MAX_BTN));
    forall k | 0 <= k < 16
      ensures r[k] == ReleasedDisplay(c)[k]
    {
      assert k == SlotIndex(PinSlot(SLOT_BUTTONS[k]));
    }
  }
}
