/** The constants, types, LED wiring table and compiled-in defaults of the
    RGB (FastLED) variant: midicade/device.h. */
module MidicadeConfig {

  // Status codes: the byte at ADDR_STATUS decides how the device boots.
  const CONFIG_DEFAULT: bv8 := 0xFD
  const CONFIG_CUSTOM: bv8 := 0xFE
  const CONFIG_RESET: bv8 := 0xFF

  // EEPROM addresses: two header bytes, then the button records.
  const ADDR_STATUS: nat := 0x00
  const ADDR_BASE_CHANNEL: nat := 0x01
  const ADDR_CONFIG: nat := 0x02

  // Device parameters
  const DEV_MAX_BTN: nat := 16
  const DEV_LEDS_PER_ARRAY: nat := 4
  const DEV_MAX_LED_ARRAYS: nat := 4

  // MIDI
  const MIDI_CHANNEL_BASE: bv8 := 2
  const MIDI_MAX_CHANNEL: bv8 := 16
  const MIDI_MAX_NOTE: bv8 := 127
  const MIDI_MAX_VELOCITY: bv8 := 127

  predicate IsStatusCode(v: bv8)
  {
    v == CONFIG_DEFAULT || v == CONFIG_CUSTOM || v == CONFIG_RESET
  }

  // Programming-mode opcodes
  const SET_STATUS: bv8 := 0x10
  const SET_BASE_CHANNEL: bv8 := 0x11
  const SET_COLOR_PRESSED: bv8 := 0x12
  const SET_COLOR_RELEASED: bv8 := 0x13
  const SET_MIDI_NOTE: bv8 := 0x14
  const SET_MIDI_VELOCITY: bv8 := 0x15
  const SET_MOMENTARY: bv8 := 0x16
  const PRG_DONE: bv8 := 0x17
  const PRG_ECHO: bv8 := 0x18
  const PRG_FETCH: bv8 := 0x19

  /** Every opcode `runProgrammer` dispatches on, in declaration order. */
  const OPCODES: seq<bv8> := [SET_STATUS, SET_BASE_CHANNEL, SET_COLOR_PRESSED, SET_COLOR_RELEASED,
                              SET_MIDI_NOTE, SET_MIDI_VELOCITY, SET_MOMENTARY, PRG_DONE, PRG_ECHO, PRG_FETCH]

  /** FastLED's `CRGB`: one byte per channel. */
  datatype Rgb = Rgb(red: bv8, green: bv8, blue: bv8)

  const CYAN: Rgb := Rgb(0x00, 0xFF, 0xFF)
  const BLACK: Rgb := Rgb(0x00, 0x00, 0x00)

  /** `btnConfig_t`: one button's behaviour. */
  datatype ButtonConfig = ButtonConfig(midiNote: bv8, midiVelocity: bv8, colorPressed: Rgb, colorReleased: Rgb,
                                       momentary: bool)

  /** The ranges the programming protocol enforces on a button record;
      colours are taken as they come. */
  predicate ValidButton(c: ButtonConfig)
  {
    c.midiNote <= MIDI_MAX_NOTE && c.midiVelocity <= MIDI_MAX_VELOCITY
  }

  predicate AllValid(buttons: seq<ButtonConfig>)
  {
    forall i :: 0 <= i < |buttons| ==> ValidButton(buttons[i])
  }

  /** The in-memory configuration of a `Device`: its `noteChannel`,
      `controlChannel` and `btnConfig` members. */
  datatype Config = Config(noteChannel: bv8, controlChannel: bv8, buttons: seq<ButtonConfig>)

  /** What every configuration the firmware builds satisfies: sixteen
      buttons, and the control channel one above the note channel (in `uint8_t`). */
  predicate WellFormed(c: Config)
  {
    |c.buttons| == DEV_MAX_BTN && c.controlChannel == c.noteChannel + 1
  }

  /** One entry of the default table: only the note differs between buttons. */
  function DefaultButton(note: bv8): ButtonConfig
  {
    ButtonConfig(note, 127, CYAN, BLACK, true)
  }

  const DEFAULT_BUTTONS: seq<ButtonConfig> := [
    DefaultButton(48), DefaultButton(49), DefaultButton(50), DefaultButton(51),
    DefaultButton(44), DefaultButton(45), DefaultButton(46), DefaultButton(47),
    DefaultButton(40), DefaultButton(41), DefaultButton(42), DefaultButton(43),
    DefaultButton(36), DefaultButton(37), DefaultButton(38), DefaultButton(39)
  ]

  /** The member initialisers of `Device`. */
  function Defaults(): (c: Config)
    ensures WellFormed(c) && c.noteChannel == 2 && c.controlChannel == 3
  {
    Config(MIDI_CHANNEL_BASE, MIDI_CHANNEL_BASE + 1, DEFAULT_BUTTONS)
  }

  /** The three status codes are pairwise distinct. */
  lemma CodesDistinct()
    ensures CONFIG_DEFAULT != CONFIG_CUSTOM && CONFIG_CUSTOM != CONFIG_RESET && CONFIG_DEFAULT != CONFIG_RESET
  {
  }

  /** The opcodes are ten distinct values that fill 0x10..0x19 exactly. */
  lemma OpcodesFillRange()
    ensures |OPCODES| == 10
    ensures forall i, j :: 0 <= i < j < |OPCODES| ==> OPCODES[i] != OPCODES[j]
    ensures forall v: bv8 :: v in OPCODES <==> 0x10 <= v <= 0x19
  {
    forall v: bv8 | 0x10 <= v <= 0x19
      ensures v in OPCODES
    {
      assert OPCODES[(v - 0x10) as int] == v;
    }
  }

  /** The notes a button table sends. */
  function Notes(buttons: seq<ButtonConfig>): set<bv8>
  {
    set i | 0 <= i < |buttons| :: buttons[i].midiNote
  }

  /** The position of note `n` in the default table (rows of four, bottom row first). */
  function DefaultIndexOf(n: bv8): (i: nat)
    requires 36 <= n <= 51
    ensures i < |DEFAULT_BUTTONS| && DEFAULT_BUTTONS[i].midiNote == n
  {
    var k := (n - 36) as nat;
    (3 - k / 4) * 4 + k % 4
  }

  /** The default table: velocity 127, pressed Cyan, released Black, CC
      enabled, valid ranges. */
  lemma DefaultTableValid()
    ensures |DEFAULT_BUTTONS| == DEV_MAX_BTN && AllValid(DEFAULT_BUTTONS)
    ensures forall i :: 0 <= i < |DEFAULT_BUTTONS| ==>
              DEFAULT_BUTTONS[i].midiVelocity == 127 && DEFAULT_BUTTONS[i].colorPressed == CYAN &&
              DEFAULT_BUTTONS[i].colorReleased == BLACK && DEFAULT_BUTTONS[i].momentary
  {
  }

  /** The notes of the default table are the sixteen distinct values 36..51. */
  lemma DefaultNotes()
    ensures forall i, j :: 0 <= i < j < |DEFAULT_BUTTONS| ==> DEFAULT_BUTTONS[i].midiNote != DEFAULT_BUTTONS[j].midiNote
    ensures forall n: bv8 :: n in Notes(DEFAULT_BUTTONS) <==> 36 <= n <= 51
  {
    assert forall i :: 0 <= i < |DEFAULT_BUTTONS| ==>
      36 <= DEFAULT_BUTTONS[i].midiNote <= 51 && DefaultIndexOf(DEFAULT_BUTTONS[i].midiNote) == i;
    forall n: bv8 | 36 <= n <= 51
      ensures n in Notes(DEFAULT_BUTTONS)
    {
      var i := DefaultIndexOf(n);
      assert DEFAULT_BUTTONS[i].midiNote == n;
    }
  }

  // ----- LED wiring -----

  /** One LED: strip (`ledArrays` row, one data pin each) and position on the strip. */
  datatype Slot = Slot(strip: nat, led: nat)

  /** `ledPinMap`: strip and position of each button's LED, two entries per button. */
  const LED_PIN_MAP: seq<nat> := [
    0, 1,  0, 0,  3, 0,  3, 1,
    0, 2,  0, 3,  3, 3,  3, 2,
    2, 1,  2, 0,  1, 0,  1, 1,
    2, 2,  2, 3,  1, 3,  1, 2
  ]

  /** The slot the constructor binds button `b` to. */
  function PinSlot(b: nat): Slot
    requires b < DEV_MAX_BTN
  {
    Slot(LED_PIN_MAP[2 * b], LED_PIN_MAP[2 * b + 1])
  }

  /** Position of a slot when the 4x4 `ledArrays` is read strip after strip. */
  function SlotIndex(s: Slot): nat
  {
    s.strip * DEV_LEDS_PER_ARRAY + s.led
  }

  predicate InGrid(s: Slot)
  {
    s.strip < DEV_MAX_LED_ARRAYS && s.led < DEV_LEDS_PER_ARRAY
  }

  /** The slot at a position of the strip-after-strip order. */
  function SlotAt(k: nat): (s: Slot)
    ensures (k < 16 ==> InGrid(s)) && SlotIndex(s) == k
  {
    Slot(k / DEV_LEDS_PER_ARRAY, k % DEV_LEDS_PER_ARRAY)
  }

  /** The inverse of the wiring: the button whose LED sits at each position. */
  const SLOT_BUTTONS: seq<nat> := [1, 0, 4, 5, 10, 11, 15, 14, 9, 8, 12, 13, 2, 3, 7, 6]

  /** A slot inside the grid is determined by its position. */
  lemma SlotIndexInjective(s: Slot, t: Slot)
    requires InGrid(s) && InGrid(t) && SlotIndex(s) == SlotIndex(t)
    ensures s == t
  {
  }

  /** Every button's LED lies inside the 4x4 grid. */
  lemma WiringInGrid()
    ensures forall b :: 0 <= b < DEV_MAX_BTN ==> InGrid(PinSlot(b)) && SlotIndex(PinSlot(b)) < 16
  {
  }

  /** `SLOT_BUTTONS` undoes the wiring: the LED of button `b` is wired to `b`. */
  lemma WiringLeftInverse()
    ensures forall b :: 0 <= b < DEV_MAX_BTN ==> SlotIndex(PinSlot(b)) < 16 && SLOT_BUTTONS[SlotIndex(PinSlot(b))] == b
  {
  }

  /** ... and the other way round: every one of the sixteen LEDs is some
      button's, so the table is a bijection from buttons onto LEDs. */
  lemma WiringRightInverse()
    ensures forall k :: 0 <= k < 16 ==> SLOT_BUTTONS[k] < DEV_MAX_BTN && SlotIndex(PinSlot(SLOT_BUTTONS[k])) == k
  {
  }

  /** Distinct buttons drive distinct LEDs. */
  lemma WiringInjective(b1: nat, b2: nat)
    requires b1 < DEV_MAX_BTN && b2 < DEV_MAX_BTN && b1 != b2
    ensures PinSlot(b1) != PinSlot(b2) && SlotIndex(PinSlot(b1)) != SlotIndex(PinSlot(b2))
  {
    WiringLeftInverse();
  }

  /** The default channels: note channel 2, control channel one above it. */
  lemma DefaultChannels(ch: bv8)
    ensures Defaults().controlChannel == Defaults().noteChannel + 1 == 3
    ensures ch < MIDI_MAX_CHANNEL ==> ch + 1 <= 16 && (ch + 1) as int == ch as int + 1
  {
  }
}
