/** The serial programming protocol of the bicolour variant
    (`Device::runProgrammer` in src/device.cpp), as functions on values:
    what one 3-byte frame does to the configuration, which bytes it writes
    back on the serial line and which EEPROM stores it issues. The class
    method `BicolourDevice.Device.RunProgrammer` is proved to do exactly this. */
module BicolourProgrammer {
  import opened BicolourConfig
  import opened Storage

  type Store = Write<ButtonConfig>

  /** What one boot sees in the EEPROM: three header bytes and sixteen records. */
  predicate IsImage(img: Image<ButtonConfig>)
  {
    |img.header| == ADDR_CONFIG && |img.records| == DEV_MAX_BTN
  }

  /** `uint8_t buffer[3]`: the opcode and two operand bytes. */
  datatype Frame = Frame(op: bv8, arg1: bv8, arg2: bv8)

  /** The outcome of one frame. */
  datatype Step = Step(config: Config, serial: seq<bv8>, writes: seq<Store>, done: bool)

  /** A frame that changes nothing, writes nothing and stores nothing. */
  function Idle(c: Config): Step
  {
    Step(c, [], [], false)
  }

  /** The five bytes `PRG_FETCH` writes for one button, in field order. */
  function ButtonBytes(b: ButtonConfig): (r: seq<bv8>)
    ensures |r| == 5
  {
    [b.note, b.velocity, b.pressed, b.released, if b.momentary then 1 else 0]
  }

  /** The bytes `PRG_FETCH` writes for the first `n` buttons. */
  function Dump(buttons: seq<ButtonConfig>, n: nat): seq<bv8>
    requires n <= |buttons|
  {
    if n == 0 then [] else Dump(buttons, n - 1) + ButtonBytes(buttons[n - 1])
  }

  /** The whole `PRG_FETCH` answer. */
  function FetchBytes(c: Config): seq<bv8>
    requires |c.buttons| == DEV_MAX_BTN
  {
    [c.noteChannel, c.intensity] + Dump(c.buttons, DEV_MAX_BTN)
  }

  /** An accepted per-button command: replace button `b`'s record and store it. */
  function UpdateButton(c: Config, b: bv8, cfg: ButtonConfig): Step
    requires b as nat < |c.buttons|
  {
    Step(c.(buttons := c.buttons[b as nat := cfg]), [], [StoreRecord(b as nat, cfg)], false)
  }

  /** One pass of the `while (running)` loop, after the frame has been read. */
  function Execute(c: Config, f: Frame, maxIntensity: bv8): (r: Step)
    requires |c.buttons| == DEV_MAX_BTN
    ensures |r.config.buttons| == DEV_MAX_BTN
  {
    var v, b := f.arg1, f.arg2;
    if f.op == PRG_DONE then Step(c, [], [], true)
    else if f.op == PRG_ECHO then Step(c, [PRG_ECHO], [], false)
    else if f.op == PRG_FETCH then Step(c, FetchBytes(c), [], false)
    else if f.op == SET_STATUS then
      if IsStatusCode(v) then Step(c, [], [StoreByte(ADDR_STATUS, v)], false) else Idle(c)
    else if f.op == SET_BASE_CHANNEL then
      if v < MIDI_MAX_CHANNEL
      then Step(c.(noteChannel := v, controlChannel := v + 1), [], [StoreByte(ADDR_BASE_CHANNEL, v)], false)
      else Idle(c)
    else if f.op == SET_INTENSITY then
      if v <= maxIntensity then Step(c.(intensity := v), [], [StoreByte(ADDR_INTENSITY, v)], false) else Idle(c)
    else if f.op == SET_PRESSED_LED then
      if IsLedValue(v) && b < 16 then UpdateButton(c, b, c.buttons[b].(pressed := v)) else Idle(c)
    else if f.op == SET_RELEASED_LED then
      if IsLedValue(v) && b < 16 then UpdateButton(c, b, c.buttons[b].(released := v)) else Idle(c)
    else if f.op == SET_MIDI_NOTE then
      if v <= MIDI_MAX_NOTE && b < 16 then UpdateButton(c, b, c.buttons[b].(note := v)) else Idle(c)
    else if f.op == SET_MIDI_VELOCITY then
      if v <= MIDI_MAX_VELOCITY && b < 16 then UpdateButton(c, b, c.buttons[b].(velocity := v)) else Idle(c)
    else if f.op == SET_MOMENTARY then
      if (v == 0 || v == 1) && b < 16 then UpdateButton(c, b, c.buttons[b].(momentary := v == 1)) else Idle(c)
    else Idle(c)
  }

  /** A programming session so far: the configuration, every byte written
      back, every store issued, and whether `PRG_DONE` has ended the loop. */
  datatype Session = Session(config: Config, serial: seq<bv8>, writes: seq<Store>, done: bool)

  /** The loop reads the next frame only while it is still running. */
  function Feed(s: Session, f: Frame, maxIntensity: bv8): (r: Session)
    requires |s.config.buttons| == DEV_MAX_BTN
    ensures |r.config.buttons| == DEV_MAX_BTN
  {
    if s.done then s
    else
      var e := Execute(s.config, f, maxIntensity);
      Session(e.config, s.serial + e.serial, s.writes + e.writes, e.done)
  }

  /** The session after the frames `frames` have arrived, in order. */
  function Run(c: Config, frames: seq<Frame>, maxIntensity: bv8): (r: Session)
    requires |c.buttons| == DEV_MAX_BTN
    ensures |r.config.buttons| == DEV_MAX_BTN
    decreases |frames|
  {
    if frames == [] then Session(c, [], [], false)
    else Feed(Run(c, frames[..|frames| - 1], maxIntensity), frames[|frames| - 1], maxIntensity)
  }

  /** The EEPROM holds exactly what is in memory: base channel, intensity
      and all sixteen records (the status byte is free). */
  predicate Mirrors(c: Config, img: Image<ButtonConfig>)
  {
    IsImage(img) && img.header[ADDR_BASE_CHANNEL] == c.noteChannel &&
    img.header[ADDR_INTENSITY] == c.intensity && img.records == c.buttons
  }

  /** An accepted per-button command: button `b` is the only field that
      changes, and exactly one store, of that button's new record, is issued. */
  predicate ChangesOnlyButton(c: Config, e: Step, b: nat)
    requires b < |c.buttons| && |e.config.buttons| == |c.buttons|
  {
    e.config == c.(buttons := c.buttons[b := e.config.buttons[b]]) &&
    e.writes == [StoreRecord(b, e.config.buttons[b])] && e.serial == [] && !e.done
  }

  // ----- one frame -----

  /** Only `PRG_DONE` ends the loop, and it does nothing else. */
  lemma DoneEndsLoop(c: Config, f: Frame, maxIntensity: bv8)
    requires |c.buttons| == DEV_MAX_BTN
    ensures Execute(c, f, maxIntensity).done <==> f.op == PRG_DONE
    ensures f.op == PRG_DONE ==> Execute(c, f, maxIntensity) == Step(c, [], [], true)
  {
  }

  /** `PRG_ECHO` writes back the single byte `PRG_ECHO` and changes nothing. */
  lemma EchoAnswers(c: Config, f: Frame, maxIntensity: bv8)
    requires |c.buttons| == DEV_MAX_BTN && f.op == PRG_ECHO
    ensures Execute(c, f, maxIntensity) == Step(c, [0x19], [], false)
  {
  }

  /** A byte that is no opcode is read and ignored. */
  lemma UnknownOpcodeIgnored(c: Config, f: Frame, maxIntensity: bv8)
    requires |c.buttons| == DEV_MAX_BTN && f.op !in OPCODES
    ensures Execute(c, f, maxIntensity) == Idle(c)
  {
  }

  /** The layout of the per-button part of the dump: five bytes per button,
      in button order. */
  lemma {:induction false} DumpLayout(buttons: seq<ButtonConfig>, n: nat)
    requires n <= |buttons|
    ensures |Dump(buttons, n)| == 5 * n
    ensures forall i :: 0 <= i < 5 * n ==> Dump(buttons, n)[i] == ButtonBytes(buttons[i / 5])[i % 5]
  {
    if n > 0 {
      DumpLayout(buttons, n - 1);
      var d, last := Dump(buttons, n - 1), ButtonBytes(buttons[n - 1]);
      assert Dump(buttons, n) == d + last;
      forall i | 0 <= i < 5 * n
        ensures Dump(buttons, n)[i] == ButtonBytes(buttons[i / 5])[i % 5]
      {
        if i >= |d| {
          assert i / 5 == n - 1 && i % 5 == i - |d|;
        }
      }
    }
  }

  /** `PRG_FETCH` changes nothing and writes 82 bytes: note channel,
      intensity, then note, velocity, pressed, released and momentary of
      each button in order. */
  lemma FetchLayout(c: Config, f: Frame, maxIntensity: bv8)
    requires |c.buttons| == DEV_MAX_BTN && f.op == PRG_FETCH
    ensures Execute(c, f, maxIntensity).config == c
    ensures Execute(c, f, maxIntensity).writes == [] && !Execute(c, f, maxIntensity).done
    ensures |Execute(c, f, maxIntensity).serial| == 82
    ensures Execute(c, f, maxIntensity).serial[0] == c.noteChannel
    ensures Execute(c, f, maxIntensity).serial[1] == c.intensity
    ensures forall i :: 2 <= i < 82 ==>
              Execute(c, f, maxIntensity).serial[i] == ButtonBytes(c.buttons[(i - 2) / 5])[(i - 2) % 5]
  {
    DumpLayout(c.buttons, DEV_MAX_BTN);
    var s := Execute(c, f, maxIntensity).serial;
    var d := Dump(c.buttons, DEV_MAX_BTN);
    assert s == [c.noteChannel, c.intensity] + d;
    forall i | 2 <= i < 82
      ensures s[i] == ButtonBytes(c.buttons[(i - 2) / 5])[(i - 2) % 5]
    {
      assert s[i] == d[i - 2];
    }
  }

  /** How a configuration tool reads one button's five bytes back. */
  function ParseButton(bytes: seq<bv8>): ButtonConfig
    requires |bytes| == 5
  {
    ButtonConfig(bytes[0], bytes[1], bytes[2], bytes[3], bytes[4] != 0)
  }

  /** One button's record survives its five bytes. */
  lemma ParseButtonBytes(x: ButtonConfig)
    ensures ParseButton(ButtonBytes(x)) == x
  {
  }

  /** How a configuration tool reads a `PRG_FETCH` answer back. */
  function ParseFetch(s: seq<bv8>): (c: Config)
    requires |s| == 82
    ensures |c.buttons| == DEV_MAX_BTN
  {
    Config(s[1], s[0], s[0] + 1, seq(DEV_MAX_BTN, b requires 0 <= b < DEV_MAX_BTN => ParseButton(s[2 + 5 * b..7 + 5 * b])))
  }

  /** Button `b`'s five bytes sit at positions `5 * b .. 5 * b + 4` of the dump. */
  lemma {:induction false} DumpWindow(buttons: seq<ButtonConfig>, n: nat, b: nat)
    requires b < n <= |buttons|
    ensures |Dump(buttons, n)| == 5 * n && Dump(buttons, n)[5 * b..5 * b + 5] == ButtonBytes(buttons[b])
  {
    DumpLayout(buttons, n - 1);
    var d := Dump(buttons, n - 1);
    assert Dump(buttons, n) == d + ButtonBytes(buttons[n - 1]);
    if b < n - 1 {
      DumpWindow(buttons, n - 1, b);
      assert Dump(buttons, n)[5 * b..5 * b + 5] == d[5 * b..5 * b + 5];
    } else {
      assert Dump(buttons, n)[5 * b..5 * b + 5] == Dump(buttons, n)[|d|..];
    }
  }

  /** The dump determines the whole configuration: reading it back gives
      the configuration that was dumped. */
  lemma FetchRoundTrip(c: Config, f: Frame, maxIntensity: bv8)
    requires WellFormed(c) && f.op == PRG_FETCH
    ensures |Execute(c, f, maxIntensity).serial| == 82 && ParseFetch(Execute(c, f, maxIntensity).serial) == c
  {
    var s := Execute(c, f, maxIntensity).serial;
    var d := Dump(c.buttons, DEV_MAX_BTN);
    DumpWindow(c.buttons, DEV_MAX_BTN, 0);
    assert s == [c.noteChannel, c.intensity] + d;
    var p := ParseFetch(s);
    forall b | 0 <= b < DEV_MAX_BTN
      ensures p.buttons[b] == c.buttons[b]
    {
      DumpWindow(c.buttons, DEV_MAX_BTN, b);
      assert s[2 + 5 * b..7 + 5 * b] == d[5 * b..5 * b + 5];
      ParseButtonBytes(c.buttons[b]);
      assert p.buttons[b] == ParseButton(s[2 + 5 * b..7 + 5 * b]);
    }
  }

  /** `SET_STATUS` stores a valid status code and nothing else; the
      configuration in memory is untouched, so the change shows only at the
      next boot. Any other operand does nothing. */
  lemma SetStatusDeferred(c: Config, f: Frame, maxIntensity: bv8)
    requires |c.buttons| == DEV_MAX_BTN && f.op == SET_STATUS
    ensures var e := Execute(c, f, maxIntensity);
      e.config == c && e.serial == [] && !e.done &&
      e.writes == (if IsStatusCode(f.arg1) then [StoreByte(ADDR_STATUS, f.arg1)] else [])
  {
  }

  /** `SET_BASE_CHANNEL` with a channel below 16 sets the note channel to
      it and the control channel one above, and stores only the channel
      byte; any other operand does nothing. */
  lemma SetBaseChannelSpec(c: Config, f: Frame, maxIntensity: bv8)
    requires |c.buttons| == DEV_MAX_BTN && f.op == SET_BASE_CHANNEL
    ensures var e := Execute(c, f, maxIntensity);
      if f.arg1 < MIDI_MAX_CHANNEL then
        e.config == c.(noteChannel := f.arg1, controlChannel := f.arg1 + 1) &&
        e.config.controlChannel as int == f.arg1 as int + 1 <= 16 &&
        e.writes == [StoreByte(ADDR_BASE_CHANNEL, f.arg1)] && e.serial == [] && !e.done
      else e == Idle(c)
  {
  }

  /** `SET_INTENSITY` up to the display maximum sets and stores the
      intensity only; nothing drives the display, which keeps its boot-time
      intensity. Any other operand does nothing. */
  lemma SetIntensitySpec(c: Config, f: Frame, maxIntensity: bv8)
    requires |c.buttons| == DEV_MAX_BTN && f.op == SET_INTENSITY
    ensures var e := Execute(c, f, maxIntensity);
      if f.arg1 <= maxIntensity then
        e.config == c.(intensity := f.arg1) && e.writes == [StoreByte(ADDR_INTENSITY, f.arg1)] &&
        e.serial == [] && !e.done
      else e == Idle(c)
  {
  }

  /** `SET_PRESSED_LED value button`: a named LED value for a button below 16
      changes that button's pressed value only and stores its record. */
  lemma SetPressedLedSpec(c: Config, f: Frame, maxIntensity: bv8)
    requires |c.buttons| == DEV_MAX_BTN && f.op == SET_PRESSED_LED
    ensures var e := Execute(c, f, maxIntensity);
      if IsLedValue(f.arg1) && f.arg2 < 16 then
        ChangesOnlyButton(c, e, f.arg2 as nat) && e.config.buttons[f.arg2] == c.buttons[f.arg2].(pressed := f.arg1)
      else e == Idle(c)
  {
  }

  /** `SET_RELEASED_LED value button`, likewise for the released value. */
  lemma SetReleasedLedSpec(c: Config, f: Frame, maxIntensity: bv8)
    requires |c.buttons| == DEV_MAX_BTN && f.op == SET_RELEASED_LED
    ensures var e := Execute(c, f, maxIntensity);
      if IsLedValue(f.arg1) && f.arg2 < 16 then
        ChangesOnlyButton(c, e, f.arg2 as nat) && e.config.buttons[f.arg2] == c.buttons[f.arg2].(released := f.arg1)
      else e == Idle(c)
  {
  }

  /** `SET_MIDI_NOTE note button`: a note up to 127 for a button below 16
      changes that note only and stores the record; 128 and above do nothing. */
  lemma SetMidiNoteSpec(c: Config, f: Frame, maxIntensity: bv8)
    requires |c.buttons| == DEV_MAX_BTN && f.op == SET_MIDI_NOTE
    ensures var e := Execute(c, f, maxIntensity);
      if f.arg1 <= MIDI_MAX_NOTE && f.arg2 < 16 then
        ChangesOnlyButton(c, e, f.arg2 as nat) && e.config.buttons[f.arg2] == c.buttons[f.arg2].(note := f.arg1)
      else e == Idle(c)
  {
  }

  /** `SET_MIDI_VELOCITY velocity button`, likewise for the velocity. */
  lemma SetMidiVelocitySpec(c: Config, f: Frame, maxIntensity: bv8)
    requires |c.buttons| == DEV_MAX_BTN && f.op == SET_MIDI_VELOCITY
    ensures var e := Execute(c, f, maxIntensity);
      if f.arg1 <= MIDI_MAX_VELOCITY && f.arg2 < 16 then
        ChangesOnlyButton(c, e, f.arg2 as nat) && e.config.buttons[f.arg2] == c.buttons[f.arg2].(velocity := f.arg1)
      else e == Idle(c)
  {
  }

  /** `SET_MOMENTARY flag button`: only the flags 0 and 1 are accepted. */
  lemma SetMomentarySpec(c: Config, f: Frame, maxIntensity: bv8)
    requires |c.buttons| == DEV_MAX_BTN && f.op == SET_MOMENTARY
    ensures var e := Execute(c, f, maxIntensity);
      if (f.arg1 == 0 || f.arg1 == 1) && f.arg2 < 16 then
        ChangesOnlyButton(c, e, f.arg2 as nat) && e.config.buttons[f.arg2] == c.buttons[f.arg2].(momentary := f.arg1 == 1)
      else e == Idle(c)
  {
  }

  // ----- invariants of one frame -----

  /** Replacing one valid record by another valid one keeps a table valid. */
  lemma UpdateKeepsValid(buttons: seq<ButtonConfig>, b: nat, cfg: ButtonConfig)
    requires b < |buttons| && AllValid(buttons) && ValidButton(cfg)
    ensures AllValid(buttons[b := cfg])
  {
  }

  /** Every frame keeps the configuration well formed and keeps valid
      button records valid: the protocol never stores an out-of-range value. */
  lemma ExecutePreserves(c: Config, f: Frame, maxIntensity: bv8)
    requires WellFormed(c)
    ensures WellFormed(Execute(c, f, maxIntensity).config)
    ensures AllValid(c.buttons) ==> AllValid(Execute(c, f, maxIntensity).config.buttons)
  {
    ExecuteKeepsWellFormed(c, f, maxIntensity);
    if AllValid(c.buttons) {
      if SET_PRESSED_LED <= f.op <= SET_MOMENTARY {
        ButtonCommandKeepsValid(c, f, maxIntensity);
      } else {
        OtherCommandKeepsButtons(c, f, maxIntensity);
      }
    }
  }

  lemma ExecuteKeepsWellFormed(c: Config, f: Frame, maxIntensity: bv8)
    requires WellFormed(c)
    ensures WellFormed(Execute(c, f, maxIntensity).config)
  {
    if f.op == SET_BASE_CHANNEL {
      SetBaseChannelSpec(c, f, maxIntensity);
    } else {
      ChannelsOnlyBySetBaseChannel(c, f, maxIntensity);
    }
  }

  /** Only `SET_BASE_CHANNEL` touches the channels. */
  lemma ChannelsOnlyBySetBaseChannel(c: Config, f: Frame, maxIntensity: bv8)
    requires |c.buttons| == DEV_MAX_BTN && f.op != SET_BASE_CHANNEL
    ensures Execute(c, f, maxIntensity).config.noteChannel == c.noteChannel
    ensures Execute(c, f, maxIntensity).config.controlChannel == c.controlChannel
  {
  }

  /** Only the per-button commands touch the button table. */
  lemma OtherCommandKeepsButtons(c: Config, f: Frame, maxIntensity: bv8)
    requires |c.buttons| == DEV_MAX_BTN && !(SET_PRESSED_LED <= f.op <= SET_MOMENTARY)
    ensures Execute(c, f, maxIntensity).config.buttons == c.buttons
  {
  }

  /** The per-button commands accept only values inside the record ranges. */
  lemma ButtonCommandKeepsValid(c: Config, f: Frame, maxIntensity: bv8)
    requires WellFormed(c) && AllValid(c.buttons) && SET_PRESSED_LED <= f.op <= SET_MOMENTARY
    ensures AllValid(Execute(c, f, maxIntensity).config.buttons)
  {
    var e := Execute(c, f, maxIntensity);
    var v, b := f.arg1, f.arg2 as nat;
    if f.op == SET_PRESSED_LED {
      SetPressedLedSpec(c, f, maxIntensity);
      if IsLedValue(v) && b < 16 { UpdateKeepsValid(c.buttons, b, e.config.buttons[b]); }
    } else if f.op == SET_RELEASED_LED {
      SetReleasedLedSpec(c, f, maxIntensity);
      if IsLedValue(v) && b < 16 { UpdateKeepsValid(c.buttons, b, e.config.buttons[b]); }
    } else if f.op == SET_MIDI_NOTE {
      SetMidiNoteSpec(c, f, maxIntensity);
      if v <= MIDI_MAX_NOTE && b < 16 { UpdateKeepsValid(c.buttons, b, e.config.buttons[b]); }
    } else if f.op == SET_MIDI_VELOCITY {
      SetMidiVelocitySpec(c, f, maxIntensity);
      if v <= MIDI_MAX_VELOCITY && b < 16 { UpdateKeepsValid(c.buttons, b, e.config.buttons[b]); }
    } else {
      SetMomentarySpec(c, f, maxIntensity);
      if (v == 0 || v == 1) && b < 16 { UpdateKeepsValid(c.buttons, b, e.config.buttons[b]); }
    }
  }

  /** If the EEPROM mirrors memory before a frame, it still does after the
      frame's stores have been applied: every accepted change is persisted. */
  lemma ExecuteKeepsMirror(c: Config, f: Frame, maxIntensity: bv8, img: Image<ButtonConfig>)
    requires |c.buttons| == DEV_MAX_BTN && Mirrors(c, img)
    ensures Mirrors(Execute(c, f, maxIntensity).config, ApplyAll(img, Execute(c, f, maxIntensity).writes))
  {
    var e := Execute(c, f, maxIntensity);
    if |e.writes| == 1 {
      SingleStore(img, e.writes[0]);
      assert e.writes == [e.writes[0]];
      if f.op == SET_STATUS {
        SetStatusDeferred(c, f, maxIntensity);
      } else if f.op == SET_BASE_CHANNEL {
        SetBaseChannelSpec(c, f, maxIntensity);
      } else if f.op == SET_INTENSITY {
        SetIntensitySpec(c, f, maxIntensity);
      } else {
        OtherCommandStoresRecord(c, f, maxIntensity);
      }
    } else {
      NoStoreNoChange(c, f, maxIntensity);
    }
  }

  /** A frame that issues no store changes nothing in memory, and no frame
      issues more than one store. */
  lemma NoStoreNoChange(c: Config, f: Frame, maxIntensity: bv8)
    requires |c.buttons| == DEV_MAX_BTN
    ensures var e := Execute(c, f, maxIntensity);
      |e.writes| <= 1 && (e.writes == [] ==> e.config == c)
  {
  }

  /** Apart from the three header commands, a frame that stores anything
      stores the new record of the one button it changed. */
  lemma OtherCommandStoresRecord(c: Config, f: Frame, maxIntensity: bv8)
    requires |c.buttons| == DEV_MAX_BTN
    requires f.op != SET_STATUS && f.op != SET_BASE_CHANNEL && f.op != SET_INTENSITY
    ensures var e := Execute(c, f, maxIntensity);
      e.writes != [] ==> f.arg2 < 16 && ChangesOnlyButton(c, e, f.arg2 as nat)
  {
    if f.op == SET_PRESSED_LED {
      SetPressedLedSpec(c, f, maxIntensity);
    } else if f.op == SET_RELEASED_LED {
      SetReleasedLedSpec(c, f, maxIntensity);
    } else if f.op == SET_MIDI_NOTE {
      SetMidiNoteSpec(c, f, maxIntensity);
    } else if f.op == SET_MIDI_VELOCITY {
      SetMidiVelocitySpec(c, f, maxIntensity);
    } else if f.op == SET_MOMENTARY {
      SetMomentarySpec(c, f, maxIntensity);
    }
  }

  // ----- whole sessions -----

  /** Frames that arrive after `PRG_DONE` are never read. */
  lemma {:induction false} RunStopsAtDone(c: Config, frames: seq<Frame>, more: seq<Frame>, maxIntensity: bv8)
    requires |c.buttons| == DEV_MAX_BTN && Run(c, frames, maxIntensity).done
    ensures Run(c, frames + more, maxIntensity) == Run(c, frames, maxIntensity)
    decreases |more|
  {
    if more != [] {
      var last := |more| - 1;
      assert (frames + more)[..|frames + more| - 1] == frames + more[..last];
      RunStopsAtDone(c, frames, more[..last], maxIntensity);
    } else {
      assert frames + more == frames;
    }
  }

  /** The session has ended exactly when one of the frames was `PRG_DONE`. */
  lemma {:induction false} RunDoneIff(c: Config, frames: seq<Frame>, maxIntensity: bv8)
    requires |c.buttons| == DEV_MAX_BTN
    ensures Run(c, frames, maxIntensity).done <==> exists k :: 0 <= k < |frames| && frames[k].op == PRG_DONE
    decreases |frames|
  {
    if frames != [] {
      var init := frames[..|frames| - 1];
      RunDoneIff(c, init, maxIntensity);
      var s := Run(c, init, maxIntensity);
      DoneEndsLoop(s.config, frames[|frames| - 1], maxIntensity);
      if exists k :: 0 <= k < |init| && init[k].op == PRG_DONE {
        var k :| 0 <= k < |init| && init[k].op == PRG_DONE;
        assert frames[k].op == PRG_DONE;
      }
      if exists k :: 0 <= k < |frames| && frames[k].op == PRG_DONE {
        var k :| 0 <= k < |frames| && frames[k].op == PRG_DONE;
        if k < |init| {
          assert init[k].op == PRG_DONE;
        }
      }
    }
  }

  /** A whole session keeps the configuration well formed, keeps valid
      records valid and keeps a mirroring EEPROM mirroring. */
  lemma {:induction false} RunPreserves(c: Config, frames: seq<Frame>, maxIntensity: bv8, img: Image<ButtonConfig>)
    requires WellFormed(c)
    ensures WellFormed(Run(c, frames, maxIntensity).config)
    ensures AllValid(c.buttons) ==> AllValid(Run(c, frames, maxIntensity).config.buttons)
    ensures Mirrors(c, img) ==>
              Mirrors(Run(c, frames, maxIntensity).config, ApplyAll(img, Run(c, frames, maxIntensity).writes))
    decreases |frames|
  {
    if frames != [] {
      var init, f := frames[..|frames| - 1], frames[|frames| - 1];
      RunPreserves(c, init, maxIntensity, img);
      var s := Run(c, init, maxIntensity);
      if !s.done {
        var e := Execute(s.config, f, maxIntensity);
        ExecutePreserves(s.config, f, maxIntensity);
        if Mirrors(c, img) {
          ExecuteKeepsMirror(s.config, f, maxIntensity, ApplyAll(img, s.writes));
          ApplyAllAppend(img, s.writes, e.writes);
        }
      }
    }
  }
}
