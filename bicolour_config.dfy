/** The constants, types and compiled-in defaults of the bicolour
    (LED-matrix) variant: the top-level `device.h`. */
module BicolourConfig {

  // Status codes: the byte at ADDR_STATUS decides how the device boots.
  const CONFIG_DEFAULT: bv8 := 0xFD
  const CONFIG_CUSTOM: bv8 := 0xFE
  const CONFIG_RESET: bv8 := 0xFF

  // EEPROM addresses: three header bytes, then the button records.
  const ADDR_STATUS: nat := 0x00
  const ADDR_BASE_CHANNEL: nat := 0x01
  const ADDR_INTENSITY: nat := 0x02
  const ADDR_CONFIG: nat := 0x03

  // Device parameters
  const DEV_BTN_ROWS: nat := 4
  const DEV_BTN_COLUMNS: nat := 4
  const DEV_MAX_BTN: nat := 16

  // MIDI
  const MIDI_CHANNEL_BASE: bv8 := 2
  const MIDI_MAX_CHANNEL: bv8 := 16
  const MIDI_MAX_NOTE: bv8 := 127
  const MIDI_MAX_VELOCITY: bv8 := 127

  /** `ledValue_t`. The enum is stored and loaded as a raw byte, so a value
      read back from an unchecked EEPROM can be any byte; only three are named. */
  type LedValue = bv8

  const LED_COLOR_1: LedValue := 0
  const LED_COLOR_2: LedValue := 1
  const LED_OFF: LedValue := 2

  predicate IsLedValue(v: bv8)
  {
    v == LED_COLOR_1 || v == LED_COLOR_2 || v == LED_OFF
  }

  predicate IsStatusCode(v: bv8)
  {
    v == CONFIG_DEFAULT || v == CONFIG_CUSTOM || v == CONFIG_RESET
  }

  // Programming-mode opcodes (`programmingCmd_t`)
  const SET_STATUS: bv8 := 0x10
  const SET_BASE_CHANNEL: bv8 := 0x11
  const SET_INTENSITY: bv8 := 0x12
  const SET_PRESSED_LED: bv8 := 0x13
  const SET_RELEASED_LED: bv8 := 0x14
  const SET_MIDI_NOTE: bv8 := 0x15
  const SET_MIDI_VELOCITY: bv8 := 0x16
  const SET_MOMENTARY: bv8 := 0x17
  const PRG_DONE: bv8 := 0x18
  const PRG_ECHO: bv8 := 0x19
  const PRG_FETCH: bv8 := 0x1A

  /** Every opcode `runProgrammer` dispatches on, in declaration order. */
  const OPCODES: seq<bv8> := [SET_STATUS, SET_BASE_CHANNEL, SET_INTENSITY, SET_PRESSED_LED,
                              SET_RELEASED_LED, SET_MIDI_NOTE, SET_MIDI_VELOCITY, SET_MOMENTARY,
                              PRG_DONE, PRG_ECHO, PRG_FETCH]

  /** `btnConfig_t`: one button's behaviour. */
  datatype ButtonConfig = ButtonConfig(note: bv8, velocity: bv8, pressed: LedValue, released: LedValue,
                                       momentary: bool)

  /** The ranges the programming protocol enforces on a button record. */
  predicate ValidButton(c: ButtonConfig)
  {
    c.note <= MIDI_MAX_NOTE && c.velocity <= MIDI_MAX_VELOCITY && IsLedValue(c.pressed) && IsLedValue(c.released)
  }

  predicate AllValid(buttons: seq<ButtonConfig>)
  {
    forall i :: 0 <= i < |buttons| ==> ValidButton(buttons[i])
  }

  /** The in-memory configuration of a `Device`: its `intensity`,
      `noteChannel`, `controlChannel` and `btnConfig` members. */
  datatype Config = Config(intensity: bv8, noteChannel: bv8, controlChannel: bv8, buttons: seq<ButtonConfig>)

  /** What every configuration the firmware builds satisfies: sixteen buttons,
      and the control channel one above the note channel (in `uint8_t`). */
  predicate WellFormed(c: Config)
  {
    |c.buttons| == DEV_MAX_BTN && c.controlChannel == c.noteChannel + 1
  }

  /** One entry of the default table: only the note differs between buttons. */
  function DefaultButton(note: bv8): ButtonConfig
  {
    ButtonConfig(note, 0x7F, LED_OFF, LED_COLOR_1, true)
  }

  const DEFAULT_BUTTONS: seq<ButtonConfig> := [
    DefaultButton(48), DefaultButton(49), DefaultButton(50), DefaultButton(51),
    DefaultButton(44), DefaultButton(45), DefaultButton(46), DefaultButton(47),
    DefaultButton(40), DefaultButton(41), DefaultButton(42), DefaultButton(43),
    DefaultButton(36), DefaultButton(37), DefaultButton(38), DefaultButton(39)
  ]

  /** The member initialisers of `Device`; `maxIntensity` stands for the
      display driver's `MAX_INTENSITY`. */
  function Defaults(maxIntensity: bv8): (c: Config)
    ensures WellFormed(c)
    ensures c.noteChannel == 2 && c.controlChannel == 3 && c.intensity == maxIntensity
  {
    Config(maxIntensity, MIDI_CHANNEL_BASE, MIDI_CHANNEL_BASE + 1, DEFAULT_BUTTONS)
  }

  /** The three status codes are pairwise distinct and `ledValue_t` names
      exactly the values 0, 1 and 2. */
  lemma CodesDistinct()
    ensures CONFIG_DEFAULT != CONFIG_CUSTOM && CONFIG_CUSTOM != CONFIG_RESET && CONFIG_DEFAULT != CONFIG_RESET
    ensures forall v: bv8 :: IsLedValue(v) <==> v < 3
  {
  }

  /** The opcodes are eleven distinct values that fill 0x10..0x1A exactly. */
  lemma OpcodesFillRange()
    ensures |OPCODES| == 11
    ensures forall i, j :: 0 <= i < j < |OPCODES| ==> OPCODES[i] != OPCODES[j]
    ensures forall v: bv8 :: v in OPCODES <==> 0x10 <= v <= 0x1A
  {
    forall v: bv8 | 0x10 <= v <= 0x1A
      ensures v in OPCODES
    {
      assert OPCODES[(v - 0x10) as int] == v;
    }
  }

  /** The default table meets the button invariants: valid ranges, velocity
      0x7F, pressed dark and released in colour 1, CC enabled. */
  lemma DefaultTableValid()
    ensures |DEFAULT_BUTTONS| == DEV_MAX_BTN && AllValid(DEFAULT_BUTTONS)
    ensures forall i :: 0 <= i < |DEFAULT_BUTTONS| ==>
              DEFAULT_BUTTONS[i].velocity == 0x7F && DEFAULT_BUTTONS[i].pressed == LED_OFF &&
              DEFAULT_BUTTONS[i].released == LED_COLOR_1 && DEFAULT_BUTTONS[i].momentary
  {
  }

  /** The notes of the default table are the sixteen distinct values 36..51. */
  lemma DefaultNotes()
    ensures forall i, j :: 0 <= i < j < |DEFAULT_BUTTONS| ==> DEFAULT_BUTTONS[i].note != DEFAULT_BUTTONS[j].note
    ensures forall n: bv8 :: n in Notes(DEFAULT_BUTTONS) <==> 36 <= n <= 51
  {
    assert forall i :: 0 <= i < |DEFAULT_BUTTONS| ==>
      36 <= DEFAULT_BUTTONS[i].note <= 51 && DefaultIndexOf(DEFAULT_BUTTONS[i].note) == i;
    forall n: bv8 | 36 <= n <= 51
      ensures n in Notes(DEFAULT_BUTTONS)
    {
      var i := DefaultIndexOf(n);
      assert DEFAULT_BUTTONS[i].note == n;
    }
  }

  /** The notes a button table sends. */
  function Notes(buttons: seq<ButtonConfig>): set<bv8>
  {
    set i | 0 <= i < |buttons| :: buttons[i].note
  }

  /** The position of note `n` in the default table (rows of four, bottom row first). */
  function DefaultIndexOf(n: bv8): (i: nat)
    requires 36 <= n <= 51
    ensures i < |DEFAULT_BUTTONS| && DEFAULT_BUTTONS[i].note == n
  {
    var k := (n - 36) as nat;
    (3 - k / 4) * 4 + k % 4
  }

  /** The default channels: note channel 2, control channel one above it.
      Any accepted base channel is below 16, so the control channel it
      derives never exceeds 16. */
  lemma DefaultChannels(maxIntensity: bv8, ch: bv8)
    ensures Defaults(maxIntensity).controlChannel == Defaults(maxIntensity).noteChannel + 1 == 3
    ensures ch < MIDI_MAX_CHANNEL ==> ch + 1 <= 16 && (ch + 1) as int == ch as int + 1
  {
  }
}
