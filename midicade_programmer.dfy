/** The serial programming protocol of the RGB variant
    (`Device::runProgrammer` in midicade/programmer.cpp), as functions on
    values: what one 5-byte frame does to the configuration, what it writes
    back on the serial line and which EEPROM stores it issues. The class
    method `MidicadeDevice.Device.RunProgrammer` is proved to do exactly this. */
module MidicadeProgrammer {
  import opened MidicadeConfig
  import opened Storage

  type Store = Write<ButtonConfig>

  /** What one boot sees in the EEPROM: two header bytes and sixteen records. */
  predicate IsImage(img: Image<ButtonConfig>)
  {
    |img.header| == ADDR_CONFIG && |img.records| == DEV_MAX_BTN
  }

  /** `uint8_t buffer[5]`: the opcode and four operand bytes. */
  datatype Frame = Frame(op: bv8, arg1: bv8, arg2: bv8, arg3: bv8, arg4: bv8)

  /** One `Serial.write`: of a byte, or of a whole `CRGB`, whose encoding on
      the wire is FastLED's business and is kept abstract. */
  datatype SerialItem = Byte(value: bv8) | Color(color: Rgb)

  /** The outcome of one frame. */
  datatype Step = Step(config: Config, serial: seq<SerialItem>, writes: seq<Store>, done: bool)

  /** A frame that changes nothing, writes nothing and stores nothing. */
  function Idle(c: Config): Step
  {
    Step(c, [], [], false)
  }

  /** The five writes `PRG_FETCH` makes for one button, in field order. */
  function ButtonItems(b: ButtonConfig): (r: seq<SerialItem>)
    ensures |r| == 5
  {
    [Byte(b.midiNote), Byte(b.midiVelocity), Color(b.colorPressed), Color(b.colorReleased),
     Byte(if b.momentary then 1 else 0)]
  }

  /** The writes `PRG_FETCH` makes for the first `n` buttons. */
  function Dump(buttons: seq<ButtonConfig>, n: nat): seq<SerialItem>
    requires n <= |buttons|
  {
    if n == 0 then [] else Dump(buttons, n - 1) + ButtonItems(buttons[n - 1])
  }

  /** The whole `PRG_FETCH` answer: the note channel, then every button. */
  function FetchItems(c: Config): seq<SerialItem>
    requires |c.buttons| == DEV_MAX_BTN
  {
    [Byte(c.noteChannel)] + Dump(c.buttons, DEV_MAX_BTN)
  }

  /** An accepted per-button command: replace button `b`'s record and store it. */
  function UpdateButton(c: Config, b: bv8, cfg: ButtonConfig): Step
    requires b as nat < |c.buttons|
  {
    Step(c.(buttons := c.buttons[b as nat := cfg]), [], [StoreRecord(b as nat, cfg)], false)
  }

  /** One pass of the `while (running)` loop, after the frame has been read.
      The per-button commands take the button from `buffer[1]` and their
      value from `buffer[2..4]`. */
  function Execute(c: Config, f: Frame): (r: Step)
    requires |c.buttons| == DEV_MAX_BTN
    ensures |r.config.buttons| == DEV_MAX_BTN
  {
    var b, v := f.arg1, f.arg2;
    if f.op == PRG_DONE then Step(c, [], [], true)
    else if f.op == PRG_ECHO then Step(c, [Byte(PRG_ECHO)], [], false)
    else if f.op == PRG_FETCH then Step(c, FetchItems(c), [], false)
    else if f.op == SET_STATUS then
      if IsStatusCode(f.arg1) then Step(c, [], [StoreByte(ADDR_STATUS, f.arg1)], false) else Idle(c)
    else if f.op == SET_BASE_CHANNEL then
      if f.arg1 < MIDI_MAX_CHANNEL
      then Step(c.(noteChannel := f.arg1, controlChannel := f.arg1 + 1), [], [StoreByte(ADDR_BASE_CHANNEL, f.arg1)], false)
      else Idle(c)
    else if f.op == SET_COLOR_PRESSED then
      if b < 16 then UpdateButton(c, b, c.buttons[b].(colorPressed := Rgb(f.arg2, f.arg3, f.arg4))) else Idle(c)
    else if f.op == SET_COLOR_RELEASED then
      if b < 16 then UpdateButton(c, b, c.buttons[b].(colorReleased := Rgb(f.arg2, f.arg3, f.arg4))) else Idle(c)
    else if f.op == SET_MIDI_NOTE then
      if b < 16 && v <= MIDI_MAX_NOTE then UpdateButton(c, b, c.buttons[b].(midiNote := v)) else Idle(c)
    else if f.op == SET_MIDI_VELOCITY then
      if b < 16 && v <= MIDI_MAX_VELOCITY then UpdateButton(c, b, c.buttons[b].(midiVelocity := v)) else Idle(c)
    else if f.op == SET_MOMENTARY then
      if b < 16 && (v == 0 || v == 1) then UpdateButton(c, b, c.buttons[b].(momentary := v == 1)) else Idle(c)
    else Idle(c)
  }

  /** A programming session so far: the configuration, everything written
      back, every store issued, and whether `PRG_DONE` has ended the loop. */
  datatype Session = Session(config: Config, serial: seq<SerialItem>, writes: seq<Store>, done: bool)

  /** The loop reads the next frame only while it is still running. */
  function Feed(s: Session, f: Frame): (r: Session)
    requires |s.config.buttons| == DEV_MAX_BTN
    ensures |r.config.buttons| == DEV_MAX_BTN
  {
    if s.done then s
    else
      var e := Execute(s.config, f);
      Session(e.config, s.serial + e.serial, s.writes + e.writes, e.done)
  }

  /** The session after the frames `frames` have arrived, in order. */
  function Run(c: Config, frames: seq<Frame>): (r: Session)
    requires |c.buttons| == DEV_MAX_BTN
    ensures |r.config.buttons| == DEV_MAX_BTN
    decreases |frames|
  {
    if frames == [] then Session(c, [], [], false)
    else Feed(Run(c, frames[..|frames| - 1]), frames[|frames| - 1])
  }

  /** The EEPROM holds exactly what is in memory: base channel and all
      sixteen records (the status byte is free). */
  predicate Mirrors(c: Config, img: Image<ButtonConfig>)
  {
    IsImage(img) && img.header[ADDR_BASE_CHANNEL] == c.noteChannel && img.records == c.buttons
  }

  /** An accepted per-button command: button `b` is the only field that
      changes, and exactly one store, of that button's new record, is issued. */
  predicate ChangesOnlyButton(c: Config, e: Step, b: nat)
    requires b < |c.buttons| && |e.config.buttons| == |c.buttons|
  {
    e.config == c.(buttons := c.buttons[b := e.config.buttons[b]]) &&
    e.writes == [StoreRecord(b, e.config.buttons[b])] && e.serial == [] && !e.done
  }

  // ----- one frame -----

  /** Only `PRG_DONE` ends the loop, and it does nothing else. */
  lemma DoneEndsLoop(c: Config, f: Frame)
    requires |c.buttons| == DEV_MAX_BTN
    ensures Execute(c, f).done <==> f.op == PRG_DONE
    ensures f.op == PRG_DONE ==> Execute(c, f) == Step(c, [], [], true)
  {
  }

  /** `PRG_ECHO` writes back the single byte 0x18 and changes nothing. */
  lemma EchoAnswers(c: Config, f: Frame)
    requires |c.buttons| == DEV_MAX_BTN && f.op == PRG_ECHO
    ensures Execute(c, f) == Step(c, [Byte(0x18)], [], false)
  {
  }

  /** A byte that is no opcode is read and ignored. */
  lemma UnknownOpcodeIgnored(c: Config, f: Frame)
    requires |c.buttons| == DEV_MAX_BTN && f.op !in OPCODES
    ensures Execute(c, f) == Idle(c)
  {
  }

  /** The layout of the per-button part of the dump: five writes per
      button, in button order. */
  lemma {:induction false} DumpLayout(buttons: seq<ButtonConfig>, n: nat)
    requires n <= |buttons|
    ensures |Dump(buttons, n)| == 5 * n
    ensures forall i :: 0 <= i < 5 * n ==> Dump(buttons, n)[i] == ButtonItems(buttons[i / 5])[i % 5]
  {
    if n > 0 {
      DumpLayout(buttons, n - 1);
      var d, last := Dump(buttons, n - 1), ButtonItems(buttons[n - 1]);
      assert Dump(buttons, n) == d + last;
      forall i | 0 <= i < 5 * n
        ensures Dump(buttons, n)[i] == ButtonItems(buttons[i / 5])[i % 5]
      {
        if i >= |d| {
          assert i / 5 == n - 1 && i % 5 == i - |d|;
        }
      }
    }
  }

  /** `PRG_FETCH` changes nothing and makes 81 writes: the note channel,
      then note, velocity, pressed colour, released colour and momentary
      flag of each button in order. How many bytes a colour takes on the
      wire is not part of this statement. */
  lemma FetchLayout(c: Config, f: Frame)
    requires |c.buttons| == DEV_MAX_BTN && f.op == PRG_FETCH
    ensures Execute(c, f).config == c && Execute(c, f).writes == [] && !Execute(c, f).done
    ensures |Execute(c, f).serial| == 81 && Execute(c, f).serial[0] == Byte(c.noteChannel)
    ensures forall i :: 1 <= i < 81 ==> Execute(c, f).serial[i] == ButtonItems(c.buttons[(i - 1) / 5])[(i - 1) % 5]
  {
    DumpLayout(c.buttons, DEV_MAX_BTN);
    var s := Execute(c, f).serial;
    var d := Dump(c.buttons, DEV_MAX_BTN);
    assert s == [Byte(c.noteChannel)] + d;
    forall i | 1 <= i < 81
      ensures s[i] == ButtonItems(c.buttons[(i - 1) / 5])[(i - 1) % 5]
    {
      assert s[i] == d[i - 1];
    }
  }

  function ByteOf(item: SerialItem): bv8
  {
    if item.Byte? then item.value else 0
  }

  /** What a configuration tool reads back of one button: its three byte
      fields. The two colours go out as one-argument `Serial.write`s of a
      `CRGB`, whose bytes on the wire are not modelled, so no reading of
      them is claimed. */
  datatype Readback = Readback(midiNote: bv8, midiVelocity: bv8, momentary: bool)

  /** The part of a button record its dump carries as plain bytes. */
  function Readable(b: ButtonConfig): Readback
  {
    Readback(b.midiNote, b.midiVelocity, b.momentary)
  }

  /** How a configuration tool reads one button's five writes back, skipping
      the two colour writes. */
  function ParseButton(items: seq<SerialItem>): Readback
    requires |items| == 5
  {
    Readback(ByteOf(items[0]), ByteOf(items[1]), ByteOf(items[4]) != 0)
  }

  /** One button's byte fields survive its five writes. */
  lemma ParseButtonItems(x: ButtonConfig)
    ensures ParseButton(ButtonItems(x)) == Readable(x)
  {
  }

  /** A `PRG_FETCH` answer as a configuration tool reads it: the note
      channel and the byte fields of every button. */
  datatype Readout = Readout(noteChannel: bv8, buttons: seq<Readback>)

  function ParseFetch(s: seq<SerialItem>): (r: Readout)
    requires |s| == 81
    ensures |r.buttons| == DEV_MAX_BTN
  {
    Readout(ByteOf(s[0]), seq(DEV_MAX_BTN, b requires 0 <= b < DEV_MAX_BTN => ParseButton(s[1 + 5 * b..6 + 5 * b])))
  }

  /** Button `b`'s five writes sit at positions `5 * b .. 5 * b + 4` of the dump. */
  lemma {:induction false} DumpWindow(buttons: seq<ButtonConfig>, n: nat, b: nat)
    requires b < n <= |buttons|
    ensures |Dump(buttons, n)| == 5 * n && Dump(buttons, n)[5 * b..5 * b + 5] == ButtonItems(buttons[b])
  {
    DumpLayout(buttons, n - 1);
    var d := Dump(buttons, n - 1);
    assert Dump(buttons, n) == d + ButtonItems(buttons[n - 1]);
    if b < n - 1 {
      DumpWindow(buttons, n - 1, b);
      assert Dump(buttons, n)[5 * b..5 * b + 5] == d[5 * b..5 * b + 5];
    } else {
      assert Dump(buttons, n)[5 * b..5 * b + 5] == Dump(buttons, n)[|d|..];
    }
  }

  /** Reading the dump back gives the note channel (and with it the
      control channel, one above) and every button's note, velocity and
      momentary flag; each button's two colours are the items at offsets
      2 and 3 of its five. */
  lemma FetchRoundTrip(c: Config, f: Frame)
    requires WellFormed(c) && f.op == PRG_FETCH
    ensures var s := Execute(c, f).serial;
      |s| == 81 && ParseFetch(s).noteChannel == c.noteChannel && ParseFetch(s).noteChannel + 1 == c.controlChannel &&
      forall b :: 0 <= b < DEV_MAX_BTN ==>
        ParseFetch(s).buttons[b] == Readable(c.buttons[b]) &&
        s[3 + 5 * b] == Color(c.buttons[b].colorPressed) && s[4 + 5 * b] == Color(c.buttons[b].colorReleased)
  {
    var s := Execute(c, f).serial;
    var d := Dump(c.buttons, DEV_MAX_BTN);
    DumpWindow(c.buttons, DEV_MAX_BTN, 0);
    assert s == [Byte(c.noteChannel)] + d;
    var p := ParseFetch(s);
    forall b | 0 <= b < DEV_MAX_BTN
      ensures p.buttons[b] == Readable(c.buttons[b])
      ensures s[3 + 5 * b] == Color(c.buttons[b].colorPressed) && s[4 + 5 * b] == Color(c.buttons[b].colorReleased)
    {
      DumpWindow(c.buttons, DEV_MAX_BTN, b);
      assert s[1 + 5 * b..6 + 5 * b] == d[5 * b..5 * b + 5];
      ParseButtonItems(c.buttons[b]);
      assert p.buttons[b] == ParseButton(s[1 + 5 * b..6 + 5 * b]);
      assert s[3 + 5 * b] == s[1 + 5 * b..6 + 5 * b][2];
      assert s[4 + 5 * b] == s[1 + 5 * b..6 + 5 * b][3];
    }
  }

  /** `SET_STATUS` stores a valid status code and nothing else; the
      configuration in memory is untouched, so the change shows only at the
      next boot. Any other operand does nothing. */
  lemma SetStatusDeferred(c: Config, f: Frame)
    requires |c.buttons| == DEV_MAX_BTN && f.op == SET_STATUS
    ensures var e := Execute(c, f);
      e.config == c && e.serial == [] && !e.done &&
      e.writes == (if IsStatusCode(f.arg1) then [StoreByte(ADDR_STATUS, f.arg1)] else [])
  {
  }

  /** `SET_BASE_CHANNEL` with a channel below 16 sets the note channel to
      it and the control channel one above, and stores only the channel
      byte; any other operand does nothing. */
  lemma SetBaseChannelSpec(c: Config, f: Frame)
    requires |c.buttons| == DEV_MAX_BTN && f.op == SET_BASE_CHANNEL
    ensures var e := Execute(c, f);
      if f.arg1 < MIDI_MAX_CHANNEL then
        e.config == c.(noteChannel := f.arg1, controlChannel := f.arg1 + 1) &&
        e.config.controlChannel as int == f.arg1 as int + 1 <= 16 &&
        e.writes == [StoreByte(ADDR_BASE_CHANNEL, f.arg1)] && e.serial == [] && !e.done
      else e == Idle(c)
  {
  }

  /** `SET_COLOR_PRESSED button r g b`: for a button below 16, any colour
      at all becomes that button's pressed colour and its record is stored. */
  lemma SetColorPressedSpec(c: Config, f: Frame)
    requires |c.buttons| == DEV_MAX_BTN && f.op == SET_COLOR_PRESSED
    ensures var e := Execute(c, f);
      if f.arg1 < 16 then
        ChangesOnlyButton(c, e, f.arg1 as nat) &&
        e.config.buttons[f.arg1] == c.buttons[f.arg1].(colorPressed := Rgb(f.arg2, f.arg3, f.arg4))
      else e == Idle(c)
  {
  }

  /** `SET_COLOR_RELEASED button r g b`, likewise for the released colour. */
  lemma SetColorReleasedSpec(c: Config, f: Frame)
    requires |c.buttons| == DEV_MAX_BTN && f.op == SET_COLOR_RELEASED
    ensures var e := Execute(c, f);
      if f.arg1 < 16 then
        ChangesOnlyButton(c, e, f.arg1 as nat) &&
        e.config.buttons[f.arg1] == c.buttons[f.arg1].(colorReleased := Rgb(f.arg2, f.arg3, f.arg4))
      else e == Idle(c)
  {
  }

  /** `SET_MIDI_NOTE button note`: a note up to 127 for a button below 16
      changes that note only and stores the record; anything else does nothing. */
  lemma SetMidiNoteSpec(c: Config, f: Frame)
    requires |c.buttons| == DEV_MAX_BTN && f.op == SET_MIDI_NOTE
    ensures var e := Execute(c, f);
      if f.arg1 < 16 && f.arg2 <= MIDI_MAX_NOTE then
        ChangesOnlyButton(c, e, f.arg1 as nat) && e.config.buttons[f.arg1] == c.buttons[f.arg1].(midiNote := f.arg2)
      else e == Idle(c)
  {
  }

  /** `SET_MIDI_VELOCITY button velocity`, likewise for the velocity. */
  lemma SetMidiVelocitySpec(c: Config, f: Frame)
    requires |c.buttons| == DEV_MAX_BTN && f.op == SET_MIDI_VELOCITY
    ensures var e := Execute(c, f);
      if f.arg1 < 16 && f.arg2 <= MIDI_MAX_VELOCITY then
        ChangesOnlyButton(c, e, f.arg1 as nat) && e.config.buttons[f.arg1] == c.buttons[f.arg1].(midiVelocity := f.arg2)
      else e == Idle(c)
  {
  }

  /** `SET_MOMENTARY button flag`: only the flags 0 and 1 are accepted. */
  lemma SetMomentarySpec(c: Config, f: Frame)
    requires |c.buttons| == DEV_MAX_BTN && f.op == SET_MOMENTARY
    ensures var e := Execute(c, f);
      if f.arg1 < 16 && (f.arg2 == 0 || f.arg2 == 1) then
        ChangesOnlyButton(c, e, f.arg1 as nat) && e.config.buttons[f.arg1] == c.buttons[f.arg1].(momentary := f.arg2 == 1)
      else e == Idle(c)
  {
  }

  // ----- invariants of one frame -----

  /** Replacing one valid record by another valid one keeps a table valid. */
  lemma UpdateKeepsValid(buttons: seq<ButtonConfig>, b: nat, cfg: ButtonConfig)
    requires b < |buttons| && AllValid(buttons) && ValidButton(cfg)
    ensures AllValid(buttons[b := cfg])
  {
  }

  /** Every frame keeps the configuration well formed and keeps valid
      button records valid: the protocol never stores an out-of-range note
      or velocity. */
  lemma ExecutePreserves(c: Config, f: Frame)
    requires WellFormed(c)
    ensures WellFormed(Execute(c, f).config)
    ensures AllValid(c.buttons) ==> AllValid(Execute(c, f).config.buttons)
  {
    ExecuteKeepsWellFormed(c, f);
    if AllValid(c.buttons) {
      if SET_COLOR_PRESSED <= f.op <= SET_MOMENTARY {
        ButtonCommandKeepsValid(c, f);
      } else {
        OtherCommandKeepsButtons(c, f);
      }
    }
  }

  lemma ExecuteKeepsWellFormed(c: Config, f: Frame)
    requires WellFormed(c)
    ensures WellFormed(Execute(c, f).config)
  {
    if f.op == SET_BASE_CHANNEL {
      SetBaseChannelSpec(c, f);
    } else {
      ChannelsOnlyBySetBaseChannel(c, f);
    }
  }

  /** Only `SET_BASE_CHANNEL` touches the channels. */
  lemma ChannelsOnlyBySetBaseChannel(c: Config, f: Frame)
    requires |c.buttons| == DEV_MAX_BTN && f.op != SET_BASE_CHANNEL
    ensures Execute(c, f).config.noteChannel == c.noteChannel
    ensures Execute(c, f).config.controlChannel == c.controlChannel
  {
  }

  /** Only the per-button commands touch the button table. */
  lemma OtherCommandKeepsButtons(c: Config, f: Frame)
    requires |c.buttons| == DEV_MAX_BTN && !(SET_COLOR_PRESSED <= f.op <= SET_MOMENTARY)
    ensures Execute(c, f).config.buttons == c.buttons
  {
  }

  /** The per-button commands accept only notes and velocities inside the record ranges. */
  lemma ButtonCommandKeepsValid(c: Config, f: Frame)
    requires WellFormed(c) && AllValid(c.buttons) && SET_COLOR_PRESSED <= f.op <= SET_MOMENTARY
    ensures AllValid(Execute(c, f).config.buttons)
  {
    var e := Execute(c, f);
    var b, v := f.arg1 as nat, f.arg2;
    if f.op == SET_COLOR_PRESSED {
      SetColorPressedSpec(c, f);
      if b < 16 { UpdateKeepsValid(c.buttons, b, e.config.buttons[b]); }
    } else if f.op == SET_COLOR_RELEASED {
      SetColorReleasedSpec(c, f);
      if b < 16 { UpdateKeepsValid(c.buttons, b, e.config.buttons[b]); }
    } else if f.op == SET_MIDI_NOTE {
      SetMidiNoteSpec(c, f);
      if b < 16 && v <= MIDI_MAX_NOTE { UpdateKeepsValid(c.buttons, b, e.config.buttons[b]); }
    } else if f.op == SET_MIDI_VELOCITY {
      SetMidiVelocitySpec(c, f);
      if b < 16 && v <= MIDI_MAX_VELOCITY { UpdateKeepsValid(c.buttons, b, e.config.buttons[b]); }
    } else {
      SetMomentarySpec(c, f);
      if b < 16 && (v == 0 || v == 1) { UpdateKeepsValid(c.buttons, b, e.config.buttons[b]); }
    }
  }

  /** If the EEPROM mirrors memory before a frame, it still does after the
      frame's stores have been applied: every accepted change is persisted. */
  lemma ExecuteKeepsMirror(c: Config, f: Frame, img: Image<ButtonConfig>)
    requires |c.buttons| == DEV_MAX_BTN && Mirrors(c, img)
    ensures Mirrors(Execute(c, f).config, ApplyAll(img, Execute(c, f).writes))
  {
    var e := Execute(c, f);
    if |e.writes| == 1 {
      SingleStore(img, e.writes[0]);
      assert e.writes == [e.writes[0]];
      if f.op == SET_STATUS {
        SetStatusDeferred(c, f);
      } else if f.op == SET_BASE_CHANNEL {
        SetBaseChannelSpec(c, f);
      } else {
        OtherCommandStoresRecord(c, f);
      }
    } else {
      NoStoreNoChange(c, f);
    }
  }

  /** A frame that issues no store changes nothing in memory, and no frame
      issues more than one store. */
  lemma NoStoreNoChange(c: Config, f: Frame)
    requires |c.buttons| == DEV_MAX_BTN
    ensures var e := Execute(c, f);
      |e.writes| <= 1 && (e.writes == [] ==> e.config == c)
  {
  }

  /** Apart from the two header commands, a frame that stores anything
      stores the new record of the one button it changed. */
  lemma OtherCommandStoresRecord(c: Config, f: Frame)
    requires |c.buttons| == DEV_MAX_BTN && f.op != SET_STATUS && f.op != SET_BASE_CHANNEL
    ensures var e := Execute(c, f);
      e.writes != [] ==> f.arg1 < 16 && ChangesOnlyButton(c, e, f.arg1 as nat)
  {
    if f.op == SET_COLOR_PRESSED {
      SetColorPressedSpec(c, f);
    } else if f.op == SET_COLOR_RELEASED {
      SetColorReleasedSpec(c, f);
    } else if f.op == SET_MIDI_NOTE {
      SetMidiNoteSpec(c, f);
    } else if f.op == SET_MIDI_VELOCITY {
      SetMidiVelocitySpec(c, f);
    } else if f.op == SET_MOMENTARY {
      SetMomentarySpec(c, f);
    }
  }

  // ----- whole sessions -----

  /** Frames that arrive after `PRG_DONE` are never read. */
  lemma {:induction false} RunStopsAtDone(c: Config, frames: seq<Frame>, more: seq<Frame>)
    requires |c.buttons| == DEV_MAX_BTN && Run(c, frames).done
    ensures Run(c, frames + more) == Run(c, frames)
    decreases |more|
  {
    if more != [] {
      var last := |more| - 1;
      assert (frames + more)[..|frames + more| - 1] == frames + more[..last];
      RunStopsAtDone(c, frames, more[..last]);
    } else {
      assert frames + more == frames;
    }
  }

  /** The session has ended exactly when one of the frames was `PRG_DONE`. */
  lemma {:induction false} RunDoneIff(c: Config, frames: seq<Frame>)
    requires |c.buttons| == DEV_MAX_BTN
    ensures Run(c, frames).done <==> exists k :: 0 <= k < |frames| && frames[k].op == PRG_DONE
    decreases |frames|
  {
    if frames != [] {
      var init := frames[..|frames| - 1];
      RunDoneIff(c, init);
      var s := Run(c, init);
      DoneEndsLoop(s.config, frames[|frames| - 1]);
      if exists k :: 0 <= k < |init| && init[k].op == PRG_DONE {
        var k :| 0 <= k < |init| && init[k].op == PRG_DONE;
        assert frames[k].op == PRG_DONE;
      }
      if exists k :: 0 <= k < |frames| && frames[k].op == PRG_DONE {
        var k :| 0 <= k < |frames| && frames[k].op == PRG_DONE;
        if k < |init| {
          assert init[k].op == PRG_DONE;
        }
      }
    }
  }

  /** A whole session keeps the configuration well formed, keeps valid
      records valid and keeps a mirroring EEPROM mirroring. */
  lemma {:induction false} RunPreserves(c: Config, frames: seq<Frame>, img: Image<ButtonConfig>)
    requires WellFormed(c)
    ensures WellFormed(Run(c, frames).config)
    ensures AllValid(c.buttons) ==> AllValid(Run(c, frames).config.buttons)
    ensures Mirrors(c, img) ==> Mirrors(Run(c, frames).config, ApplyAll(img, Run(c, frames).writes))
    decreases |frames|
  {
    if frames != [] {
      var init, f := frames[..|frames| - 1], frames[|frames| - 1];
      RunPreserves(c, init, img);
      var s := Run(c, init);
      if !s.done {
        var e := Execute(s.config, f);
        ExecutePreserves(s.config, f);
        if Mirrors(c, img) {
          ExecuteKeepsMirror(s.config, f, ApplyAll(img, s.writes));
          ApplyAllAppend(img, s.writes, e.writes);
        }
      }
    }
  }
}
