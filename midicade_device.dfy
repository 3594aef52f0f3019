/** The `Device` class of the RGB variant (midicade/device.cpp and
    midicade/programmer.cpp) as an imperative Dafny class. Its members update
    their fields in place, as the firmware does; every method is proved to
    agree with the value-level functions of `MidicadeModel` and
    `MidicadeProgrammer`, whose properties are proved there.

    The peripherals are modelled as follows: the EEPROM is an `Eeprom`
    object shared with the caller; the LEDs are the 4x4 array `ledArrays`,
    reached through the pointers `ledStates` (a pointer is the slot it
    points at), and every `FastLED.show()` and USB-MIDI send is recorded
    in `effects`; the serial line is `serialOut` (writes made) and the
    `frames` argument (bytes read, five at a time); the button drivers are
    the `samples` argument of `UpdateState`. */
module MidicadeDevice {
  import opened MidicadeConfig
  import opened Storage
  import opened UsbMidi
  import opened MidicadeProgrammer
  import opened MidicadeModel
  import opened Seqs

  /** The output side of the device: every LED update shown and every
      USB-MIDI packet sent, in order, and every serial write. */
  class Peripherals {
    var effects: seq<Effect>
    var serialOut: seq<SerialItem>

    constructor ()
      ensures effects == [] && serialOut == []
    {
      effects := [];
      serialOut := [];
    }

    /** One `FastLED.show()` after an LED assignment, or one `sendMIDI` followed by `flush`. */
    method Emit(e: Effect)
      modifies this
      ensures effects == old(effects) + [e] && serialOut == old(serialOut)
    {
      effects := effects + [e];
    }

    /** One `Serial.write`. */
    method Write(item: SerialItem)
      modifies this
      ensures serialOut == old(serialOut) + [item] && effects == old(effects)
    {
      serialOut := serialOut + [item];
    }
  }

  class Device {
    const eeprom: Eeprom<ButtonConfig>
    const io: Peripherals

    var noteChannel: bv8
    var controlChannel: bv8
    const btnConfig: array<ButtonConfig>
    const ledStates: array<Slot>
    const ledArrays: array2<Rgb>
    var once: bool

    /** The array sizes and the EEPROM format. */
    ghost predicate Shape()
      reads eeprom
    {
      btnConfig.Length == DEV_MAX_BTN && ledStates.Length == DEV_MAX_BTN &&
      ledArrays.Length0 == DEV_MAX_LED_ARRAYS && ledArrays.Length1 == DEV_LEDS_PER_ARRAY && IsImage(eeprom.image)
    }

    /** Button `b`'s LED pointer is bound to its slot of `ledPinMap`. */
    ghost predicate Wired(b: nat)
      reads ledStates
    {
      b < DEV_MAX_BTN && b < ledStates.Length && ledStates[b] == PinSlot(b)
    }

    ghost predicate Valid()
      reads eeprom, ledStates
    {
      Shape() && forall b :: 0 <= b < DEV_MAX_BTN ==> Wired(b)
    }

    /** The configuration held in the members. */
    ghost function Config(): Config
      reads this, btnConfig
    {
      MidicadeConfig.Config(noteChannel, controlChannel, btnConfig[..])
    }

    /** The colours in `ledArrays`, strip after strip. */
    ghost function Leds(): (r: seq<Rgb>)
      requires ledArrays.Length0 == DEV_MAX_LED_ARRAYS && ledArrays.Length1 == DEV_LEDS_PER_ARRAY
      reads ledArrays
      ensures |r| == 16
    {
      seq(16, k requires 0 <= k < 16 reads ledArrays => ledArrays[k / 4, k % 4])
    }

    /** The members and the peripherals show an outcome: the configuration
        `config`, the writes `serial` made after `serial0`, the stores
        `writes` issued after `writes0` and applied to `image0`. */
    ghost predicate Shows(config: Config, serial: seq<SerialItem>, writes: seq<Store>,
                          serial0: seq<SerialItem>, image0: Image<ButtonConfig>, writes0: seq<Store>)
      reads this, btnConfig, eeprom, io
    {
      Config() == config && io.serialOut == serial0 + serial &&
      eeprom.image == ApplyAll(image0, writes) && eeprom.writes == writes0 + writes
    }

    /** `Device::Device`: start from the member initialisers, then load,
        keep or reset the configuration according to the status byte, then
        bind every button to its LED and show its released colour. What
        `ledArrays` held before does not matter: every LED is set. */
    constructor (eeprom: Eeprom<ButtonConfig>)
      requires IsImage(eeprom.image)
      modifies eeprom
      ensures Valid() && fresh(btnConfig) && fresh(ledStates) && fresh(ledArrays) && fresh(io) && once
      ensures this.eeprom == eeprom
      ensures var boot := Load(old(eeprom.image));
        Shows(boot.config, [], boot.writes, [], old(eeprom.image), old(eeprom.writes))
      ensures io.effects == InitLeds(Config(), DEV_MAX_BTN) && Leds() == ReleasedDisplay(Config())
    {
      this.eeprom := eeprom;
      io := new Peripherals();
      noteChannel := MIDI_CHANNEL_BASE;
      controlChannel := MIDI_CHANNEL_BASE + 1;
      btnConfig := new ButtonConfig[DEV_MAX_BTN](i requires 0 <= i < DEV_MAX_BTN => DEFAULT_BUTTONS[i]);
      ledStates := new Slot[DEV_MAX_BTN](i => Slot(0, 0));
      ledArrays := new Rgb[DEV_MAX_LED_ARRAYS, DEV_LEDS_PER_ARRAY]((i, j) => BLACK);
      once := true;
      new;
      assert btnConfig[..] == DEFAULT_BUTTONS;
      LoadStored();
      WireLeds();
    }

    /** The switch on the status byte in the constructor, starting from the
        member initialisers. */
    method LoadStored()
      requires Shape() && Config() == Defaults()
      modifies this, btnConfig, eeprom
      ensures Shape() && once == old(once) && io.effects == old(io.effects)
      ensures var boot := Load(old(eeprom.image));
        Shows(boot.config, [], boot.writes, io.serialOut, old(eeprom.image), old(eeprom.writes))
    {
      var status := eeprom.FetchByte(ADDR_STATUS);
      if status == CONFIG_CUSTOM {
        ReadCustom();
        LoadCustom(old(eeprom.image));
      } else if status == CONFIG_DEFAULT {
        LoadDefault(old(eeprom.image));
      } else {
        WriteDefaults();
        LoadReset(old(eeprom.image));
      }
    }

    /** The `CONFIG_CUSTOM` branch of the constructor. */
    method ReadCustom()
      requires Shape()
      modifies this, btnConfig
      ensures Shape() && once == old(once)
      ensures Config() == MidicadeConfig.Config(eeprom.image.header[ADDR_BASE_CHANNEL],
                                                eeprom.image.header[ADDR_BASE_CHANNEL] + 1, eeprom.image.records)
    {
      noteChannel := eeprom.FetchByte(ADDR_BASE_CHANNEL);
      controlChannel := noteChannel + 1;
      ReadRecords();
    }

    /** The record loop of the `CONFIG_CUSTOM` branch: every button record is
        copied from EEPROM into `btnConfig`, unvalidated. */
    method ReadRecords()
      requires Shape()
      modifies btnConfig
      ensures btnConfig[..] == eeprom.image.records
    {
      for i := 0 to DEV_MAX_BTN
        invariant forall j :: 0 <= j < i ==> btnConfig[j] == eeprom.image.records[j]
      {
        btnConfig[i] := eeprom.FetchRecord(i);
      }
      assert btnConfig[..] == eeprom.image.records;
    }

    /** The `default:` branch of the constructor: store the configuration
        in memory, status `CONFIG_DEFAULT` first. */
    method WriteDefaults()
      requires Shape()
      modifies eeprom
      ensures Shape()
      ensures eeprom.image == ApplyAll(old(eeprom.image), ResetWrites(Config()))
      ensures eeprom.writes == old(eeprom.writes) + ResetWrites(Config())
    {
      ghost var img := eeprom.image;
      ghost var d := Config();
      eeprom.StoreByte(ADDR_STATUS, CONFIG_DEFAULT);
      eeprom.StoreByte(ADDR_BASE_CHANNEL, noteChannel);
      ghost var head := [StoreByte(ADDR_STATUS, CONFIG_DEFAULT), StoreByte(ADDR_BASE_CHANNEL, noteChannel)];
      TwoStores(img, head[0], head[1]);
      assert head == [head[0], head[1]] && head + RecordWrites(d.buttons, 0) == head;
      for i := 0 to DEV_MAX_BTN
        invariant IsImage(eeprom.image)
        invariant eeprom.writes == old(eeprom.writes) + head + RecordWrites(d.buttons, i)
        invariant eeprom.image == ApplyAll(img, head + RecordWrites(d.buttons, i))
      {
        ghost var before := head + RecordWrites(d.buttons, i);
        eeprom.StoreRecord(i, btnConfig[i]);
        AppendAssoc(head, RecordWrites(d.buttons, i), [StoreRecord(i, d.buttons[i])]);
        AppendAssoc(old(eeprom.writes), before, [StoreRecord(i, d.buttons[i])]);
        assert head + RecordWrites(d.buttons, i + 1) == before + [StoreRecord(i, d.buttons[i])];
        assert (before + [StoreRecord(i, d.buttons[i])])[..|before|] == before;
      }
    }

    /** The LED loop of the constructor: `i` steps through the even entries
        of `ledPinMap`; button `i / 2` gets the pointer to its slot and shows
        its released colour. */
    method WireLeds()
      requires Shape() && io.effects == []
      modifies ledStates, ledArrays, io
      ensures Valid() && io.serialOut == old(io.serialOut)
      ensures io.effects == InitLeds(Config(), DEV_MAX_BTN) && Leds() == ReleasedDisplay(Config())
    {
      ghost var c := Config();
      ghost var leds0 := Leds();
      var i := 0;
      ghost var n := 0;
      while i < DEV_MAX_BTN * 2 - 1
        invariant 0 <= n <= DEV_MAX_BTN && i == 2 * n
        invariant forall b :: 0 <= b < n ==> Wired(b)
        invariant io.serialOut == old(io.serialOut)
        invariant io.effects == InitLeds(c, n) && Leds() == Painted(leds0, InitLeds(c, n))
      {
        WireButton(i, n);
        PaintedAppend(leds0, InitLeds(c, n), LedEffects(n, c.buttons[n].colorReleased));
        i, n := i + 2, n + 1;
      }
      InitShowsReleased(c, leds0);
    }

    /** One pass of the LED loop: entries `i` and `i + 1` of `ledPinMap`
        are button `i / 2`'s slot. */
    method WireButton(i: nat, ghost button: nat)
      requires Shape() && i == 2 * button && button < DEV_MAX_BTN
      requires forall b :: 0 <= b < button ==> Wired(b)
      modifies ledStates, ledArrays, io
      ensures forall b :: 0 <= b <= button ==> Wired(b)
      ensures io.effects == old(io.effects) + LedEffects(button, btnConfig[button].colorReleased)
      ensures io.serialOut == old(io.serialOut) && Leds() == Painted(old(Leds()), LedEffects(button, btnConfig[button].colorReleased))
    {
      var b := i / 2;
      assert b == button;
      ghost var wired := ledStates[..];
      assert forall k :: 0 <= k < button ==> wired[k] == PinSlot(k) by {
        forall k | 0 <= k < button ensures wired[k] == PinSlot(k) { assert Wired(k); }
      }
      ledStates[b] := Slot(LED_PIN_MAP[i], LED_PIN_MAP[i + 1]);
      assert ledStates[..] == wired[button := PinSlot(button)];
      SetButtonLedReleased(b);
      forall k | 0 <= k <= button
        ensures Wired(k)
      {
        assert ledStates[k] == ledStates[..][k];
      }
    }

    /** `setButtonLedColor`: assign through the button's pointer, then `show()`. */
    method SetButtonLedColor(button: nat, color: Rgb)
      requires Shape() && button < DEV_MAX_BTN && Wired(button)
      modifies ledArrays, io
      ensures io.effects == old(io.effects) + LedEffects(button, color) && io.serialOut == old(io.serialOut)
      ensures Leds() == Painted(old(Leds()), LedEffects(button, color))
    {
      var slot := ledStates[button];
      WiringInGrid();
      ledArrays[slot.strip, slot.led] := color;
      io.Emit(Paint(slot, color));
      LedShowsColor(button, color, old(Leds()));
      assert Leds() == old(Leds())[SlotIndex(slot) := color];
    }

    /** `setButtonLedPressed`. */
    method SetButtonLedPressed(button: nat)
      requires Shape() && button < DEV_MAX_BTN && Wired(button)
      modifies ledArrays, io
      ensures io.effects == old(io.effects) + LedEffects(button, btnConfig[button].colorPressed)
      ensures io.serialOut == old(io.serialOut) && Leds() == Painted(old(Leds()), LedEffects(button, btnConfig[button].colorPressed))
    {
      SetButtonLedColor(button, btnConfig[button].colorPressed);
    }

    /** `setButtonLedReleased`. */
    method SetButtonLedReleased(button: nat)
      requires Shape() && button < DEV_MAX_BTN && Wired(button)
      modifies ledArrays, io
      ensures io.effects == old(io.effects) + LedEffects(button, btnConfig[button].colorReleased)
      ensures io.serialOut == old(io.serialOut) && Leds() == Painted(old(Leds()), LedEffects(button, btnConfig[button].colorReleased))
    {
      SetButtonLedColor(button, btnConfig[button].colorReleased);
    }

    /** `midiNoteOn`. */
    method MidiNoteOn(button: nat)
      requires button < btnConfig.Length == DEV_MAX_BTN
      modifies io
      ensures io.effects == old(io.effects) + [Send(NoteOnPacket(Config(), button))] && io.serialOut == old(io.serialOut)
    {
      io.Emit(Send(Packet(0x09, 0x90 | noteChannel, btnConfig[button].midiNote, btnConfig[button].midiVelocity)));
    }

    /** `midiNoteOff`. */
    method MidiNoteOff(button: nat)
      requires button < btnConfig.Length == DEV_MAX_BTN
      modifies io
      ensures io.effects == old(io.effects) + [Send(NoteOffPacket(Config(), button))] && io.serialOut == old(io.serialOut)
    {
      io.Emit(Send(Packet(0x08, 0x80 | noteChannel, btnConfig[button].midiNote, btnConfig[button].midiVelocity)));
    }

    /** `midiControlOn`. */
    method MidiControlOn(button: nat)
      requires button < btnConfig.Length == DEV_MAX_BTN
      modifies io
      ensures io.effects == old(io.effects) + [Send(ControlOnPacket(Config(), button))] && io.serialOut == old(io.serialOut)
    {
      io.Emit(Send(Packet(0x0B, 0xB0 | controlChannel, btnConfig[button].midiNote, 0x7F)));
    }

    /** `midiControlOff`. */
    method MidiControlOff(button: nat)
      requires button < btnConfig.Length == DEV_MAX_BTN
      modifies io
      ensures io.effects == old(io.effects) + [Send(ControlOffPacket(Config(), button))] && io.serialOut == old(io.serialOut)
    {
      io.Emit(Send(Packet(0x0B, 0xB0 | controlChannel, btnConfig[button].midiNote, 0x00)));
    }

    /** `UpdateState`: handle every button's edges, then, on the first call
        only, look at the three corner buttons and run the programmer. */
    method UpdateState(samples: seq<Sample>, frames: seq<Frame>)
      requires Valid() && |samples| == DEV_MAX_BTN
      modifies this, btnConfig, eeprom, io, ledArrays
      ensures Valid()
      ensures var r := Tick(Machine(old(Config()), old(once)), samples, frames);
        once == r.machine.once && io.effects == old(io.effects) + r.effects &&
        Leds() == Painted(old(Leds()), r.effects) &&
        Shows(r.machine.config, r.serial, r.writes, old(io.serialOut), old(eeprom.image), old(eeprom.writes))
    {
      ScanButtons(samples);
      if once {
        once := false;
        if !samples[0].level && !samples[3].level && !samples[15].level {
          RunProgrammer(frames);
        }
      }
    }

    /** The button loop of `UpdateState`. */
    method ScanButtons(samples: seq<Sample>)
      requires Valid() && |samples| == DEV_MAX_BTN
      modifies io, ledArrays
      ensures io.effects == old(io.effects) + ScanEffects(Config(), samples, |samples|)
      ensures io.serialOut == old(io.serialOut) && Leds() == Painted(old(Leds()), ScanEffects(Config(), samples, |samples|))
    {
      ghost var c := Config();
      for i := 0 to DEV_MAX_BTN
        invariant io.serialOut == old(io.serialOut)
        invariant io.effects == old(io.effects) + ScanEffects(c, samples, i)
        invariant Leds() == Painted(old(Leds()), ScanEffects(c, samples, i))
      {
        HandleButton(i, samples[i]);
        assert ScanEffects(c, samples, i + 1) == ScanEffects(c, samples, i) + ButtonEffects(c, i, samples[i]);
        AppendAssoc(old(io.effects), ScanEffects(c, samples, i), ButtonEffects(c, i, samples[i]));
        PaintedAppend(old(Leds()), ScanEffects(c, samples, i), ButtonEffects(c, i, samples[i]));
      }
    }

    /** One pass of the button loop: the press edge, then the release edge. */
    method HandleButton(i: nat, sample: Sample)
      requires Valid() && i < DEV_MAX_BTN
      modifies io, ledArrays
      ensures io.effects == old(io.effects) + ButtonEffects(Config(), i, sample) && io.serialOut == old(io.serialOut)
      ensures Leds() == Painted(old(Leds()), ButtonEffects(Config(), i, sample))
    {
      ghost var c := Config();
      ghost var press: seq<Effect> := if sample.pressed then PressEffects(c, i) else [];
      ghost var release: seq<Effect> := if sample.released then ReleaseEffects(c, i) else [];
      if sample.pressed {
        ProcessPressed(i);
      } else {
        assert old(io.effects) + [] == old(io.effects);
      }
      assert io.effects == old(io.effects) + press && Leds() == Painted(old(Leds()), press);
      ghost var mid, midLeds := io.effects, Leds();
      if sample.released {
        ProcessReleased(i);
      } else {
        assert mid + [] == mid;
      }
      assert io.effects == mid + release && Leds() == Painted(midLeds, release);
      AppendAssoc(old(io.effects), press, release);
      PaintedAppend(old(Leds()), press, release);
    }

    /** `if (b->isPressed())`: LED, note-on, CC-on for a momentary button. */
    method ProcessPressed(i: nat)
      requires Valid() && i < DEV_MAX_BTN
      modifies io, ledArrays
      ensures io.effects == old(io.effects) + PressEffects(Config(), i) && io.serialOut == old(io.serialOut)
      ensures Leds() == Painted(old(Leds()), PressEffects(Config(), i))
    {
      ghost var c := Config();
      assert c.buttons[i] == btnConfig[i];
      assert Wired(i);
      SetButtonLedPressed(i);
      MidiNoteOn(i);
      ghost var note := io.effects;
      if btnConfig[i].momentary {
        MidiControlOn(i);
      }
      ghost var cc: seq<Effect> := if c.buttons[i].momentary then [Send(ControlOnPacket(c, i))] else [];
      assert io.effects == note + cc;
      AppendAssoc(old(io.effects), LedEffects(i, c.buttons[i].colorPressed), [Send(NoteOnPacket(c, i))]);
      AppendAssoc(old(io.effects), LedEffects(i, c.buttons[i].colorPressed) + [Send(NoteOnPacket(c, i))], cc);
      EdgePaints(c, i, old(Leds()));
    }

    /** `if (b->isReleased())`: LED, note-off, CC-off for a momentary button. */
    method ProcessReleased(i: nat)
      requires Valid() && i < DEV_MAX_BTN
      modifies io, ledArrays
      ensures io.effects == old(io.effects) + ReleaseEffects(Config(), i) && io.serialOut == old(io.serialOut)
      ensures Leds() == Painted(old(Leds()), ReleaseEffects(Config(), i))
    {
      ghost var c := Config();
      assert c.buttons[i] == btnConfig[i];
      assert Wired(i);
      SetButtonLedReleased(i);
      MidiNoteOff(i);
      ghost var note := io.effects;
      if btnConfig[i].momentary {
        MidiControlOff(i);
      }
      ghost var cc: seq<Effect> := if c.buttons[i].momentary then [Send(ControlOffPacket(c, i))] else [];
      assert io.effects == note + cc;
      AppendAssoc(old(io.effects), LedEffects(i, c.buttons[i].colorReleased), [Send(NoteOffPacket(c, i))]);
      AppendAssoc(old(io.effects), LedEffects(i, c.buttons[i].colorReleased) + [Send(NoteOffPacket(c, i))], cc);
      EdgePaints(c, i, old(Leds()));
    }

    /** `runProgrammer`: read frames until `PRG_DONE`. The frames that
        arrive are `frames`; when they run out before `PRG_DONE` the method
        returns where the firmware would keep waiting. */
    method RunProgrammer(frames: seq<Frame>)
      requires Valid()
      modifies this, btnConfig, eeprom, io
      ensures Valid() && once == old(once) && io.effects == old(io.effects)
      ensures var s := Run(old(Config()), frames);
        Shows(s.config, s.serial, s.writes, old(io.serialOut), old(eeprom.image), old(eeprom.writes))
    {
      ghost var c := Config();
      var running := true;
      var k := 0;
      while running && k < |frames|
        invariant 0 <= k <= |frames| && Valid() && once == old(once) && io.effects == old(io.effects)
        invariant running == !Run(c, frames[..k]).done
        invariant var s := Run(c, frames[..k]);
          Shows(s.config, s.serial, s.writes, old(io.serialOut), old(eeprom.image), old(eeprom.writes))
        decreases |frames| - k
      {
        ghost var s := Run(c, frames[..k]);
        ghost var e := Execute(s.config, frames[k]);
        var stop := Dispatch(frames[k]);
        running := !stop;
        assert frames[..k + 1] == frames[..k] + [frames[k]];
        RunSnoc(c, frames[..k], frames[k]);
        ApplyAllAppend(old(eeprom.image), s.writes, e.writes);
        AppendAssoc(old(io.serialOut), s.serial, e.serial);
        AppendAssoc(old(eeprom.writes), s.writes, e.writes);
        k := k + 1;
      }
      if running {
        assert frames[..k] == frames;
      } else {
        RunStopsAtDone(c, frames[..k], frames[k..]);
        assert frames[..k] + frames[k..] == frames;
      }
    }

    /** One pass of the loop in `runProgrammer`, after `readBytes`. */
    method Dispatch(f: Frame) returns (stop: bool)
      requires Valid()
      modifies this, btnConfig, eeprom, io
      ensures Valid() && once == old(once) && io.effects == old(io.effects)
      ensures var e := Execute(old(Config()), f);
        stop == e.done && Shows(e.config, e.serial, e.writes, old(io.serialOut), old(eeprom.image), old(eeprom.writes))
    {
      stop := false;
      if f.op == PRG_DONE {
        stop := true;
      } else if f.op == PRG_ECHO {
        io.Write(Byte(PRG_ECHO));
      } else if f.op == PRG_FETCH {
        Fetch();
      } else if f.op == SET_STATUS {
        SetStatus(f);
      } else if f.op == SET_BASE_CHANNEL {
        SetBaseChannel(f);
      } else {
        ButtonCommand(f);
      }
    }

    /** `SET_STATUS`: only the EEPROM changes. */
    method SetStatus(f: Frame)
      requires Shape() && f.op == SET_STATUS
      modifies eeprom
      ensures Shape()
      ensures var e := Execute(old(Config()), f);
        !e.done && Shows(e.config, e.serial, e.writes, io.serialOut, old(eeprom.image), old(eeprom.writes))
    {
      SetStatusDeferred(Config(), f);
      var v := f.arg1;
      if v == CONFIG_DEFAULT || v == CONFIG_CUSTOM || v == CONFIG_RESET {
        eeprom.StoreByte(ADDR_STATUS, v);
        SingleStore(old(eeprom.image), StoreByte(ADDR_STATUS, v));
      }
    }

    /** `SET_BASE_CHANNEL`: both channels in memory, the channel byte in the EEPROM. */
    method SetBaseChannel(f: Frame)
      requires Shape() && f.op == SET_BASE_CHANNEL
      modifies this, eeprom
      ensures Shape() && once == old(once)
      ensures var e := Execute(old(Config()), f);
        !e.done && Shows(e.config, e.serial, e.writes, io.serialOut, old(eeprom.image), old(eeprom.writes))
    {
      SetBaseChannelSpec(Config(), f);
      var v := f.arg1;
      if v < MIDI_MAX_CHANNEL {
        noteChannel := v;
        controlChannel := noteChannel + 1;
        eeprom.StoreByte(ADDR_BASE_CHANNEL, noteChannel);
        SingleStore(old(eeprom.image), StoreByte(ADDR_BASE_CHANNEL, v));
      }
    }

    /** The five per-button cases, and an opcode that matches no case. */
    method ButtonCommand(f: Frame)
      requires Shape()
      requires f.op != PRG_DONE && f.op != PRG_ECHO && f.op != PRG_FETCH && f.op != SET_STATUS && f.op != SET_BASE_CHANNEL
      modifies btnConfig, eeprom
      ensures Shape()
      ensures var e := Execute(old(Config()), f);
        !e.done && Shows(e.config, e.serial, e.writes, io.serialOut, old(eeprom.image), old(eeprom.writes))
    {
      if f.op == SET_COLOR_PRESSED || f.op == SET_COLOR_RELEASED {
        ColorCommand(f);
      } else {
        ValueCommand(f);
      }
    }

    /** `SET_COLOR_PRESSED` and `SET_COLOR_RELEASED`: any colour for a button below 16. */
    method ColorCommand(f: Frame)
      requires Shape() && (f.op == SET_COLOR_PRESSED || f.op == SET_COLOR_RELEASED)
      modifies btnConfig, eeprom
      ensures Shape()
      ensures var e := Execute(old(Config()), f);
        !e.done && Shows(e.config, e.serial, e.writes, io.serialOut, old(eeprom.image), old(eeprom.writes))
    {
      ghost var c := Config();
      var button := f.arg1;
      if f.op == SET_COLOR_PRESSED {
        SetColorPressedSpec(c, f);
        if button < 16 {
          StoreButton(button as nat, btnConfig[button].(colorPressed := Rgb(f.arg2, f.arg3, f.arg4)));
        }
      } else {
        SetColorReleasedSpec(c, f);
        if button < 16 {
          StoreButton(button as nat, btnConfig[button].(colorReleased := Rgb(f.arg2, f.arg3, f.arg4)));
        }
      }
    }

    /** `SET_MIDI_NOTE`, `SET_MIDI_VELOCITY`, `SET_MOMENTARY`, and an opcode that matches no case. */
    method ValueCommand(f: Frame)
      requires Shape()
      requires f.op != PRG_DONE && f.op != PRG_ECHO && f.op != PRG_FETCH && f.op != SET_STATUS && f.op != SET_BASE_CHANNEL
      requires f.op != SET_COLOR_PRESSED && f.op != SET_COLOR_RELEASED
      modifies btnConfig, eeprom
      ensures Shape()
      ensures var e := Execute(old(Config()), f);
        !e.done && Shows(e.config, e.serial, e.writes, io.serialOut, old(eeprom.image), old(eeprom.writes))
    {
      ghost var c := Config();
      var button, v := f.arg1, f.arg2;
      if f.op == SET_MIDI_NOTE {
        SetMidiNoteSpec(c, f);
        if button < 16 {
          if v <= MIDI_MAX_NOTE {
            StoreButton(button as nat, btnConfig[button].(midiNote := v));
          }
        }
      } else if f.op == SET_MIDI_VELOCITY {
        SetMidiVelocitySpec(c, f);
        if button < 16 {
          if v <= MIDI_MAX_VELOCITY {
            StoreButton(button as nat, btnConfig[button].(midiVelocity := v));
          }
        }
      } else if f.op == SET_MOMENTARY {
        SetMomentarySpec(c, f);
        if button < 16 {
          if v == 0 || v == 1 {
            StoreButton(button as nat, btnConfig[button].(momentary := v == 1));
          }
        }
      } else {
        UnknownOpcodeIgnored(c, f);
      }
    }

    /** Replace button `b`'s record in memory and `storeButtonConfig` it. */
    method StoreButton(b: nat, cfg: ButtonConfig)
      requires Shape() && b < DEV_MAX_BTN
      modifies btnConfig, eeprom
      ensures Shape()
      ensures Config() == old(Config()).(buttons := old(Config()).buttons[b := cfg])
      ensures eeprom.image == ApplyAll(old(eeprom.image), [StoreRecord(b, cfg)])
      ensures eeprom.writes == old(eeprom.writes) + [StoreRecord(b, cfg)]
    {
      btnConfig[b] := cfg;
      eeprom.StoreRecord(b, btnConfig[b]);
      SingleStore(old(eeprom.image), StoreRecord(b, cfg));
    }

    /** The `PRG_FETCH` case: base channel, then five writes per button. */
    method Fetch()
      requires Shape()
      modifies io
      ensures io.serialOut == old(io.serialOut) + FetchItems(Config()) && io.effects == old(io.effects)
    {
      io.Write(Byte(noteChannel));
      for i := 0 to DEV_MAX_BTN
        invariant io.serialOut == old(io.serialOut) + [Byte(noteChannel)] + Dump(btnConfig[..], i)
        invariant io.effects == old(io.effects)
      {
        WriteButton(i);
        AppendAssoc(old(io.serialOut) + [Byte(noteChannel)], Dump(btnConfig[..], i), ButtonItems(btnConfig[i]));
      }
    }

    /** The five `Serial.write` calls for one button in the `PRG_FETCH` case. */
    method WriteButton(i: nat)
      requires i < btnConfig.Length
      modifies io
      ensures io.serialOut == old(io.serialOut) + ButtonItems(btnConfig[i]) && io.effects == old(io.effects)
    {
      io.Write(Byte(btnConfig[i].midiNote));
      io.Write(Byte(btnConfig[i].midiVelocity));
      io.Write(Color(btnConfig[i].colorPressed));
      io.Write(Color(btnConfig[i].colorReleased));
      io.Write(Byte(if btnConfig[i].momentary then 1 else 0));
    }
  }
}
