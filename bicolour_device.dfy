/** The `Device` class of the bicolour variant (src/device.cpp) as an
    imperative Dafny class. Its members update their fields in place, as the
    firmware does; every method is proved to agree with the value-level
    functions of `BicolourModel` and `BicolourProgrammer`, whose properties
    are proved there.

    The peripherals are modelled as follows: the EEPROM is an `Eeprom`
    object shared with the caller; the LED matrix and the USB-MIDI port
    are the sequence `effects` of requests made to them, in order; the
    serial line is `serialOut` (bytes written) and the `frames` argument
    (bytes read, three at a time); the button drivers are the `samples`
    argument of `UpdateState`. */
module BicolourDevice {
  import opened BicolourConfig
  import opened Storage
  import opened UsbMidi
  import opened BicolourProgrammer
  import opened BicolourModel
  import opened Seqs

  /** The output side of the device: every request made to the LED matrix
      and to the USB-MIDI port, in order, and every byte written to the
      serial line. */
  class Peripherals {
    var effects: seq<Effect>
    var serialOut: seq<bv8>

    constructor ()
      ensures effects == [] && serialOut == []
    {
      effects := [];
      serialOut := [];
    }

    /** One `setPoint`, `control`, or `sendMIDI` followed by `flush`. */
    method Emit(e: Effect)
      modifies this
      ensures effects == old(effects) + [e] && serialOut == old(serialOut)
    {
      effects := effects + [e];
    }

    /** One `Serial.write` of a byte. */
    method Write(b: bv8)
      modifies this
      ensures serialOut == old(serialOut) + [b] && effects == old(effects)
    {
      serialOut := serialOut + [b];
    }
  }

  class Device {
    /** `MAX_INTENSITY` of the display driver. */
    const maxIntensity: bv8
    const eeprom: Eeprom<ButtonConfig>
    const io: Peripherals

    var intensity: bv8
    var noteChannel: bv8
    var controlChannel: bv8
    const btnConfig: array<ButtonConfig>
    var once: bool

    ghost predicate Valid()
      reads this, eeprom
    {
      btnConfig.Length == DEV_MAX_BTN && IsImage(eeprom.image)
    }

    /** The configuration held in the members. */
    ghost function Config(): Config
      reads this, btnConfig
    {
      BicolourConfig.Config(intensity, noteChannel, controlChannel, btnConfig[..])
    }

    /** The members and the peripherals show an outcome: the configuration
        `config`, the bytes `serial` written after `serial0`, the stores
        `writes` issued after `writes0` and applied to `image0`. */
    ghost predicate Shows(config: Config, serial: seq<bv8>, writes: seq<Store>,
                          serial0: seq<bv8>, image0: Image<ButtonConfig>, writes0: seq<Store>)
      reads this, btnConfig, eeprom, io
    {
      Config() == config && io.serialOut == serial0 + serial &&
      eeprom.image == ApplyAll(image0, writes) && eeprom.writes == writes0 + writes
    }

    /** `Device::Device`: start from the member initialisers, then load,
        keep or reset the configuration according to the status byte, then
        set up the display and show every LED in its released state. */
    constructor (eeprom: Eeprom<ButtonConfig>, maxIntensity: bv8)
      requires IsImage(eeprom.image)
      modifies eeprom
      ensures Valid() && fresh(btnConfig) && fresh(io) && once
      ensures this.eeprom == eeprom && this.maxIntensity == maxIntensity
      ensures var boot := Load(old(eeprom.image), maxIntensity);
        Shows(boot.config, [], boot.writes, [], old(eeprom.image), old(eeprom.writes))
      ensures io.effects == InitEffects(Config())
    {
      this.eeprom := eeprom;
      this.maxIntensity := maxIntensity;
      io := new Peripherals();
      intensity := maxIntensity;
      noteChannel := MIDI_CHANNEL_BASE;
      controlChannel := MIDI_CHANNEL_BASE + 1;
      btnConfig := new ButtonConfig[DEV_MAX_BTN](i requires 0 <= i < DEV_MAX_BTN => DEFAULT_BUTTONS[i]);
      once := true;
      new;
      assert btnConfig[..] == DEFAULT_BUTTONS;
      LoadStored();
      InitDisplay();
    }

    /** The switch on the status byte in the constructor, starting from the
        member initialisers. */
    method LoadStored()
      requires Valid() && Config() == Defaults(maxIntensity)
      modifies this, btnConfig, eeprom
      ensures Valid() && once == old(once) && io.effects == old(io.effects)
      ensures var boot := Load(old(eeprom.image), maxIntensity);
        Shows(boot.config, [], boot.writes, io.serialOut, old(eeprom.image), old(eeprom.writes))
    {
      var status := eeprom.FetchByte(ADDR_STATUS);
      if status == CONFIG_CUSTOM {
        ReadCustom();
        LoadCustom(old(eeprom.image), maxIntensity);
      } else if status == CONFIG_DEFAULT {
        LoadDefault(old(eeprom.image), maxIntensity);
      } else {
        WriteDefaults();
        LoadReset(old(eeprom.image), maxIntensity);
      }
    }

    /** The `CONFIG_CUSTOM` branch of the constructor. */
    method ReadCustom()
      requires Valid()
      modifies this, btnConfig
      ensures Valid() && once == old(once)
      ensures Config() == BicolourConfig.Config(eeprom.image.header[ADDR_INTENSITY], eeprom.image.header[ADDR_BASE_CHANNEL],
                                                eeprom.image.header[ADDR_BASE_CHANNEL] + 1, eeprom.image.records)
    {
      intensity := eeprom.FetchByte(ADDR_INTENSITY);
      noteChannel := eeprom.FetchByte(ADDR_BASE_CHANNEL);
      controlChannel := noteChannel + 1;
      ReadRecords();
    }

    /** The record loop of the `CONFIG_CUSTOM` branch: every button record is
        copied from EEPROM into `btnConfig`, unvalidated. */
    method ReadRecords()
      requires Valid()
      modifies btnConfig
      ensures btnConfig[..] == eeprom.image.records
    {
      for i := 0 to DEV_MAX_BTN
        invariant forall j :: 0 <= j < i ==> btnConfig[j] == eeprom.image.records[j]
      {
        btnConfig[i] := eeprom.FetchRecord(i);
      }
      assert btnConfig[..] == eeprom.image.records;
    }

    /** The `default:` branch of the constructor: store the configuration
        in memory, status `CONFIG_DEFAULT` first. */
    method WriteDefaults()
      requires Valid()
      modifies eeprom
      ensures Valid()
      ensures eeprom.image == ApplyAll(old(eeprom.image), ResetWrites(Config()))
      ensures eeprom.writes == old(eeprom.writes) + ResetWrites(Config())
    {
      ghost var img := eeprom.image;
      ghost var d := Config();
      eeprom.StoreByte(ADDR_STATUS, CONFIG_DEFAULT);
      eeprom.StoreByte(ADDR_BASE_CHANNEL, noteChannel);
      eeprom.StoreByte(ADDR_INTENSITY, intensity);
      ghost var head := [StoreByte(ADDR_STATUS, CONFIG_DEFAULT), StoreByte(ADDR_BASE_CHANNEL, noteChannel),
                         StoreByte(ADDR_INTENSITY, intensity)];
      ThreeStores(img, head[0], head[1], head[2]);
      assert head == [head[0], head[1], head[2]] && head + RecordWrites(d.buttons, 0) == head;
      for i := 0 to DEV_MAX_BTN
        invariant IsImage(eeprom.image)
        invariant eeprom.writes == old(eeprom.writes) + head + RecordWrites(d.buttons, i)
        invariant eeprom.image == ApplyAll(img, head + RecordWrites(d.buttons, i))
      {
        ghost var before := head + RecordWrites(d.buttons, i);
        eeprom.StoreRecord(i, btnConfig[i]);
        AppendAssoc(head, RecordWrites(d.buttons, i), [StoreRecord(i, d.buttons[i])]);
        AppendAssoc(old(eeprom.writes), before, [StoreRecord(i, d.buttons[i])]);
        assert head + RecordWrites(d.buttons, i + 1) == before + [StoreRecord(i, d.buttons[i])];
        assert (before + [StoreRecord(i, d.buttons[i])])[..|before|] == before;
      }
    }

    /** The display set-up at the end of the constructor: intensity, scan
        limit, then every LED in its released state. */
    method InitDisplay()
      requires Valid() && io.effects == []
      modifies io
      ensures io.effects == InitEffects(Config()) && io.serialOut == old(io.serialOut)
    {
      io.Emit(DisplayIntensity(intensity));
      io.Emit(DisplayScanLimit((DEV_BTN_COLUMNS - 1) as bv8));
      ghost var c := Config();
      for i := 0 to DEV_MAX_BTN
        invariant io.serialOut == old(io.serialOut)
        invariant io.effects == [DisplayIntensity(c.intensity), DisplayScanLimit((DEV_BTN_COLUMNS - 1) as bv8)] + InitLeds(c, i)
      {
        SetButtonLed(i, btnConfig[i].released);
        AppendAssoc([DisplayIntensity(c.intensity), DisplayScanLimit((DEV_BTN_COLUMNS - 1) as bv8)], InitLeds(c, i),
                    LedEffects(i, c.buttons[i].released));
      }
    }

    /** `setButtonLed`. */
    method SetButtonLed(button: nat, value: LedValue)
      modifies io
      ensures io.effects == old(io.effects) + LedEffects(button, value) && io.serialOut == old(io.serialOut)
    {
      var rowa := button / DEV_BTN_COLUMNS;
      var rowb := rowa + DEV_BTN_ROWS;
      var column := button % DEV_BTN_COLUMNS;
      if value == LED_OFF {
        io.Emit(SetPoint(rowa, column, false));
        io.Emit(SetPoint(rowb, column, false));
      } else if value == LED_COLOR_1 {
        io.Emit(SetPoint(rowa, column, true));
        io.Emit(SetPoint(rowb, column, false));
      } else {
        io.Emit(SetPoint(rowa, column, false));
        io.Emit(SetPoint(rowb, column, true));
      }
    }

    /** `midiNoteOn`. */
    method MidiNoteOn(button: nat)
      requires button < btnConfig.Length
      modifies io
      ensures io.effects == old(io.effects) + [Send(NoteOnPacket(Config(), button))] && io.serialOut == old(io.serialOut)
    {
      io.Emit(Send(Packet(0x09, 0x90 | noteChannel, btnConfig[button].note, btnConfig[button].velocity)));
    }

    /** `midiNoteOff`. */
    method MidiNoteOff(button: nat)
      requires button < btnConfig.Length
      modifies io
      ensures io.effects == old(io.effects) + [Send(NoteOffPacket(Config(), button))] && io.serialOut == old(io.serialOut)
    {
      io.Emit(Send(Packet(0x08, 0x80 | noteChannel, btnConfig[button].note, btnConfig[button].velocity)));
    }

    /** `midiControlOn`. */
    method MidiControlOn(button: nat)
      requires button < btnConfig.Length
      modifies io
      ensures io.effects == old(io.effects) + [Send(ControlOnPacket(Config(), button))] && io.serialOut == old(io.serialOut)
    {
      io.Emit(Send(Packet(0x0B, 0xB0 | controlChannel, btnConfig[button].note, 0x7F)));
    }

    /** `midiControlOff`. */
    method MidiControlOff(button: nat)
      requires button < btnConfig.Length
      modifies io
      ensures io.effects == old(io.effects) + [Send(ControlOffPacket(Config(), button))] && io.serialOut == old(io.serialOut)
    {
      io.Emit(Send(Packet(0x0B, 0xB0 | controlChannel, btnConfig[button].note, 0x00)));
    }

    /** `UpdateState`: handle every button's edges, then, on the first call
        only, look for the boot pattern and run the programmer. */
    method UpdateState(samples: seq<Sample>, frames: seq<Frame>)
      requires Valid() && |samples| == DEV_MAX_BTN
      modifies this, btnConfig, eeprom, io
      ensures Valid()
      ensures var r := Tick(Machine(old(Config()), old(once)), samples, frames, maxIntensity);
        once == r.machine.once && io.effects == old(io.effects) + r.effects &&
        Shows(r.machine.config, r.serial, r.writes, old(io.serialOut), old(eeprom.image), old(eeprom.writes))
    {
      ScanButtons(samples);
      if once {
        once := false;
        var programming := BootPatternHeld(samples);
        if programming {
          RunProgrammer(frames);
        }
      }
    }

    /** The button loop of `UpdateState`. */
    method ScanButtons(samples: seq<Sample>)
      requires Valid() && |samples| == DEV_MAX_BTN
      modifies io
      ensures io.effects == old(io.effects) + ScanEffects(Config(), samples, |samples|)
      ensures io.serialOut == old(io.serialOut)
    {
      ghost var c := Config();
      for i := 0 to DEV_MAX_BTN
        invariant io.serialOut == old(io.serialOut)
        invariant io.effects == old(io.effects) + ScanEffects(c, samples, i)
      {
        HandleButton(i, samples[i]);
        assert ScanEffects(c, samples, i + 1) == ScanEffects(c, samples, i) + ButtonEffects(c, i, samples[i]);
        AppendAssoc(old(io.effects), ScanEffects(c, samples, i), ButtonEffects(c, i, samples[i]));
      }
    }

    /** One pass of the button loop: the press edge, then the release edge. */
    method HandleButton(i: nat, sample: Sample)
      requires Valid() && i < DEV_MAX_BTN
      modifies io
      ensures io.effects == old(io.effects) + ButtonEffects(Config(), i, sample) && io.serialOut == old(io.serialOut)
    {
      if sample.pressed {
        ProcessPressed(i);
      }
      ghost var mid := io.effects;
      if sample.released {
        ProcessReleased(i);
      }
      AppendAssoc(old(io.effects), if sample.pressed then PressEffects(Config(), i) else [],
                  if sample.released then ReleaseEffects(Config(), i) else []);
    }

    /** `if (b->isPressed())`: LED, CC-on for a momentary button, note-on. */
    method ProcessPressed(i: nat)
      requires Valid() && i < DEV_MAX_BTN
      modifies io
      ensures io.effects == old(io.effects) + PressEffects(Config(), i) && io.serialOut == old(io.serialOut)
    {
      ghost var c := Config();
      assert c.buttons[i] == btnConfig[i];
      SetButtonLed(i, btnConfig[i].pressed);
      ghost var led := io.effects;
      if btnConfig[i].momentary {
        MidiControlOn(i);
      }
      ghost var cc: seq<Effect> := if c.buttons[i].momentary then [Send(ControlOnPacket(c, i))] else [];
      assert io.effects == led + cc;
      MidiNoteOn(i);
      AppendAssoc(old(io.effects), LedEffects(i, c.buttons[i].pressed), cc);
      AppendAssoc(old(io.effects), LedEffects(i, c.buttons[i].pressed) + cc, [Send(NoteOnPacket(c, i))]);
    }

    /** `if (b->isReleased())`: LED, note-off, CC-off for a momentary button. */
    method ProcessReleased(i: nat)
      requires Valid() && i < DEV_MAX_BTN
      modifies io
      ensures io.effects == old(io.effects) + ReleaseEffects(Config(), i) && io.serialOut == old(io.serialOut)
    {
      ghost var c := Config();
      assert c.buttons[i] == btnConfig[i];
      SetButtonLed(i, btnConfig[i].released);
      MidiNoteOff(i);
      ghost var note := io.effects;
      if btnConfig[i].momentary {
        MidiControlOff(i);
      }
      ghost var cc: seq<Effect> := if c.buttons[i].momentary then [Send(ControlOffPacket(c, i))] else [];
      assert io.effects == note + cc;
      AppendAssoc(old(io.effects), LedEffects(i, c.buttons[i].released), [Send(NoteOffPacket(c, i))]);
      AppendAssoc(old(io.effects), LedEffects(i, c.buttons[i].released) + [Send(NoteOffPacket(c, i))], cc);
    }

    /** The check made once, at the first `UpdateState`: the three corner
        buttons read low and all the other buttons read high. */
    method BootPatternHeld(samples: seq<Sample>) returns (programming: bool)
      requires |samples| == DEV_MAX_BTN
      ensures programming == IsBootPattern(samples)
    {
      programming := true;
      for i := 0 to DEV_MAX_BTN
        invariant programming <==> forall j :: 0 <= j < i ==> samples[j].level == !IsCorner(j)
      {
        if i == 0 || i == 3 || i == 15 {
          programming := programming && !samples[i].level;
        } else {
          programming := programming && samples[i].level;
        }
      }
    }

    /** `runProgrammer`: read frames until `PRG_DONE`. The frames that
        arrive are `frames`; when they run out before `PRG_DONE` the method
        returns where the firmware would keep waiting. */
    method RunProgrammer(frames: seq<Frame>)
      requires Valid()
      modifies this, btnConfig, eeprom, io
      ensures Valid() && once == old(once) && io.effects == old(io.effects)
      ensures var s := Run(old(Config()), frames, maxIntensity);
        Shows(s.config, s.serial, s.writes, old(io.serialOut), old(eeprom.image), old(eeprom.writes))
    {
      ghost var c := Config();
      var running := true;
      var k := 0;
      while running && k < |frames|
        invariant 0 <= k <= |frames| && Valid() && once == old(once) && io.effects == old(io.effects)
        invariant running == !Run(c, frames[..k], maxIntensity).done
        invariant var s := Run(c, frames[..k], maxIntensity);
          Shows(s.config, s.serial, s.writes, old(io.serialOut), old(eeprom.image), old(eeprom.writes))
        decreases |frames| - k
      {
        ghost var s := Run(c, frames[..k], maxIntensity);
        ghost var e := Execute(s.config, frames[k], maxIntensity);
        var stop := Dispatch(frames[k]);
        running := !stop;
        assert frames[..k + 1] == frames[..k] + [frames[k]];
        RunSnoc(c, frames[..k], frames[k], maxIntensity);
        ApplyAllAppend(old(eeprom.image), s.writes, e.writes);
        AppendAssoc(old(io.serialOut), s.serial, e.serial);
        AppendAssoc(old(eeprom.writes), s.writes, e.writes);
        k := k + 1;
      }
      if running {
        assert frames[..k] == frames;
      } else {
        RunStopsAtDone(c, frames[..k], frames[k..], maxIntensity);
        assert frames[..k] + frames[k..] == frames;
      }
    }

    /** One pass of the loop in `runProgrammer`, after `readBytes`. */
    method Dispatch(f: Frame) returns (stop: bool)
      requires Valid()
      modifies this, btnConfig, eeprom, io
      ensures Valid() && once == old(once) && io.effects == old(io.effects)
      ensures var e := Execute(old(Config()), f, maxIntensity);
        stop == e.done && Shows(e.config, e.serial, e.writes, old(io.serialOut), old(eeprom.image), old(eeprom.writes))
    {
      stop := false;
      if f.op == PRG_DONE {
        stop := true;
      } else if f.op == PRG_ECHO {
        io.Write(PRG_ECHO);
      } else if f.op == PRG_FETCH {
        Fetch();
      } else if f.op == SET_STATUS || f.op == SET_BASE_CHANNEL || f.op == SET_INTENSITY {
        HeaderCommand(f);
      } else {
        ButtonCommand(f);
      }
    }

    /** The `SET_STATUS`, `SET_BASE_CHANNEL` and `SET_INTENSITY` cases. */
    method HeaderCommand(f: Frame)
      requires Valid() && (f.op == SET_STATUS || f.op == SET_BASE_CHANNEL || f.op == SET_INTENSITY)
      modifies this, eeprom
      ensures Valid() && once == old(once)
      ensures var e := Execute(old(Config()), f, maxIntensity);
        !e.done && Shows(e.config, e.serial, e.writes, io.serialOut, old(eeprom.image), old(eeprom.writes))
    {
      if f.op == SET_STATUS {
        SetStatus(f);
      } else if f.op == SET_BASE_CHANNEL {
        SetBaseChannel(f);
      } else {
        SetIntensity(f);
      }
    }

    /** `SET_STATUS`: only the EEPROM changes. */
    method SetStatus(f: Frame)
      requires Valid() && f.op == SET_STATUS
      modifies eeprom
      ensures Valid()
      ensures var e := Execute(old(Config()), f, maxIntensity);
        !e.done && Shows(e.config, e.serial, e.writes, io.serialOut, old(eeprom.image), old(eeprom.writes))
    {
      SetStatusDeferred(Config(), f, maxIntensity);
      var v := f.arg1;
      if v == CONFIG_DEFAULT || v == CONFIG_CUSTOM || v == CONFIG_RESET {
        eeprom.StoreByte(ADDR_STATUS, v);
        SingleStore(old(eeprom.image), StoreByte(ADDR_STATUS, v));
      }
    }

    /** `SET_BASE_CHANNEL`: both channels in memory, the channel byte in the EEPROM. */
    method SetBaseChannel(f: Frame)
      requires Valid() && f.op == SET_BASE_CHANNEL
      modifies this, eeprom
      ensures Valid() && once == old(once)
      ensures var e := Execute(old(Config()), f, maxIntensity);
        !e.done && Shows(e.config, e.serial, e.writes, io.serialOut, old(eeprom.image), old(eeprom.writes))
    {
      SetBaseChannelSpec(Config(), f, maxIntensity);
      var v := f.arg1;
      if v < MIDI_MAX_CHANNEL {
        noteChannel := v;
        controlChannel := noteChannel + 1;
        eeprom.StoreByte(ADDR_BASE_CHANNEL, noteChannel);
        SingleStore(old(eeprom.image), StoreByte(ADDR_BASE_CHANNEL, v));
      }
    }

    /** `SET_INTENSITY`: the intensity in memory and in the EEPROM, not on the display. */
    method SetIntensity(f: Frame)
      requires Valid() && f.op == SET_INTENSITY
      modifies this, eeprom
      ensures Valid() && once == old(once)
      ensures var e := Execute(old(Config()), f, maxIntensity);
        !e.done && Shows(e.config, e.serial, e.writes, io.serialOut, old(eeprom.image), old(eeprom.writes))
    {
      SetIntensitySpec(Config(), f, maxIntensity);
      var v := f.arg1;
      if v <= maxIntensity {
        intensity := v;
        eeprom.StoreByte(ADDR_INTENSITY, intensity);
        SingleStore(old(eeprom.image), StoreByte(ADDR_INTENSITY, v));
      }
    }

    /** The five per-button cases, and an opcode that matches no case. */
    method ButtonCommand(f: Frame)
      requires Valid()
      requires f.op != PRG_DONE && f.op != PRG_ECHO && f.op != PRG_FETCH
      requires f.op != SET_STATUS && f.op != SET_BASE_CHANNEL && f.op != SET_INTENSITY
      modifies btnConfig, eeprom
      ensures Valid()
      ensures var e := Execute(old(Config()), f, maxIntensity);
        !e.done && Shows(e.config, e.serial, e.writes, io.serialOut, old(eeprom.image), old(eeprom.writes))
    {
      ghost var c := Config();
      var v, b := f.arg1, f.arg2;
      if f.op == SET_PRESSED_LED {
        SetPressedLedSpec(c, f, maxIntensity);
        if v == LED_COLOR_1 || v == LED_COLOR_2 || v == LED_OFF {
          if b < 16 {
            StoreButton(b as nat, btnConfig[b].(pressed := v));
          }
        }
      } else if f.op == SET_RELEASED_LED {
        SetReleasedLedSpec(c, f, maxIntensity);
        if v == LED_COLOR_1 || v == LED_COLOR_2 || v == LED_OFF {
          if b < 16 {
            StoreButton(b as nat, btnConfig[b].(released := v));
          }
        }
      } else if f.op == SET_MIDI_NOTE {
        SetMidiNoteSpec(c, f, maxIntensity);
        if v <= MIDI_MAX_NOTE {
          if b < 16 {
            StoreButton(b as nat, btnConfig[b].(note := v));
          }
        }
      } else if f.op == SET_MIDI_VELOCITY {
        SetMidiVelocitySpec(c, f, maxIntensity);
        if v <= MIDI_MAX_VELOCITY {
          if b < 16 {
            StoreButton(b as nat, btnConfig[b].(velocity := v));
          }
        }
      } else if f.op == SET_MOMENTARY {
        SetMomentarySpec(c, f, maxIntensity);
        if v == 0 || v == 1 {
          if b < 16 {
            StoreButton(b as nat, btnConfig[b].(momentary := v == 1));
          }
        }
      } else {
        UnknownOpcodeIgnored(c, f, maxIntensity);
      }
    }

    /** Replace button `b`'s record in memory and `storeButtonConfig` it. */
    method StoreButton(b: nat, cfg: ButtonConfig)
      requires Valid() && b < DEV_MAX_BTN
      modifies btnConfig, eeprom
      ensures Valid()
      ensures Config() == old(Config()).(buttons := old(Config()).buttons[b := cfg])
      ensures eeprom.image == ApplyAll(old(eeprom.image), [StoreRecord(b, cfg)])
      ensures eeprom.writes == old(eeprom.writes) + [StoreRecord(b, cfg)]
    {
      btnConfig[b] := cfg;
      eeprom.StoreRecord(b, btnConfig[b]);
      SingleStore(old(eeprom.image), StoreRecord(b, cfg));
    }

    /** The `PRG_FETCH` case: base channel, intensity, then five bytes per button. */
    method Fetch()
      requires Valid()
      modifies io
      ensures io.serialOut == old(io.serialOut) + FetchBytes(Config()) && io.effects == old(io.effects)
    {
      io.Write(noteChannel);
      io.Write(intensity);
      for i := 0 to DEV_MAX_BTN
        invariant io.serialOut == old(io.serialOut) + [noteChannel, intensity] + Dump(btnConfig[..], i)
        invariant io.effects == old(io.effects)
      {
        WriteButton(i);
        AppendAssoc(old(io.serialOut) + [noteChannel, intensity], Dump(btnConfig[..], i), ButtonBytes(btnConfig[i]));
      }
    }

    /** The five `Serial.write` calls for one button in the `PRG_FETCH` case. */
    method WriteButton(i: nat)
      requires i < btnConfig.Length
      modifies io
      ensures io.serialOut == old(io.serialOut) + ButtonBytes(btnConfig[i]) && io.effects == old(io.effects)
    {
      io.Write(btnConfig[i].note);
      io.Write(btnConfig[i].velocity);
      io.Write(btnConfig[i].pressed);
      io.Write(btnConfig[i].released);
      io.Write(if btnConfig[i].momentary then 1 else 0);
    }
  }
}
