/** USB-MIDI 1.0 event packets (section 4 of the USB Device Class
    Definition for MIDI Devices, release 1.0): a header byte holding the
    cable number (high nibble, always 0 here) and the Code Index Number
    (low nibble), followed by the three bytes of a MIDI 1.0 channel-voice
    message. Both firmware variants build their packets with `0xS0 | channel`,
    a bitwise OR, which is modelled exactly on `bv8`. */
module UsbMidi {

  datatype Packet = Packet(header: bv8, byte1: bv8, byte2: bv8, byte3: bv8)

  // Code Index Numbers (table 4-1 of the USB-MIDI 1.0 definition)
  const CIN_NOTE_OFF: bv8 := 0x08
  const CIN_NOTE_ON: bv8 := 0x09
  const CIN_CONTROL_CHANGE: bv8 := 0x0B

  // MIDI 1.0 channel-voice status bytes for channel 0
  const STATUS_NOTE_OFF: bv8 := 0x80
  const STATUS_NOTE_ON: bv8 := 0x90
  const STATUS_CONTROL_CHANGE: bv8 := 0xB0

  // Control-change values sent on press and on release
  const CONTROL_ON: bv8 := 0x7F
  const CONTROL_OFF: bv8 := 0x00

  /** The `midiEventPacket_t` initialisers of `midiNoteOn`, `midiNoteOff`
      and `midiControlOn/Off`: header, `status | channel`, two data bytes. */
  function ChannelVoice(cin: bv8, status: bv8, channel: bv8, data1: bv8, data2: bv8): Packet
  {
    Packet(cin, status | channel, data1, data2)
  }

  function NoteOn(channel: bv8, note: bv8, velocity: bv8): Packet
  {
    ChannelVoice(CIN_NOTE_ON, STATUS_NOTE_ON, channel, note, velocity)
  }

  function NoteOff(channel: bv8, note: bv8, velocity: bv8): Packet
  {
    ChannelVoice(CIN_NOTE_OFF, STATUS_NOTE_OFF, channel, note, velocity)
  }

  function ControlChange(channel: bv8, controller: bv8, value: bv8): Packet
  {
    ChannelVoice(CIN_CONTROL_CHANGE, STATUS_CONTROL_CHANGE, channel, controller, value)
  }

  /** What a receiver reads back from a packet: the message kind (status
      high nibble) and the channel (status low nibble). */
  function Kind(p: Packet): bv8
  {
    p.byte1 >> 4
  }

  function Channel(p: Packet): bv8
  {
    p.byte1 & 0x0F
  }

  /** For a channel below 16 the receiver decodes exactly the kind and the
      channel that were encoded, and the header's Code Index Number agrees
      with the kind, as section 4 of the USB-MIDI definition requires. */
  lemma ChannelVoiceDecodes(channel: bv8, note: bv8, data: bv8)
    requires channel < 16
    ensures Kind(NoteOn(channel, note, data)) == 0x9 && Channel(NoteOn(channel, note, data)) == channel
    ensures Kind(NoteOff(channel, note, data)) == 0x8 && Channel(NoteOff(channel, note, data)) == channel
    ensures Kind(ControlChange(channel, note, data)) == 0xB && Channel(ControlChange(channel, note, data)) == channel
    ensures NoteOn(channel, note, data).header == Kind(NoteOn(channel, note, data))
    ensures NoteOff(channel, note, data).header == Kind(NoteOff(channel, note, data))
    ensures ControlChange(channel, note, data).header == Kind(ControlChange(channel, note, data))
  {
  }

  /** Two different channels below 16 give two different status bytes: the
      channel survives the OR. */
  lemma ChannelVoiceInjective(status: bv8, c1: bv8, c2: bv8)
    requires status & 0x0F == 0 && c1 < 16 && c2 < 16
    ensures (status | c1 == status | c2) <==> c1 == c2
  {
  }

  /** Channel 16 does not fit the nibble: its bit collides with the status
      byte, so a control change "on channel 16" is sent on channel 0, and a
      note-off on channel 16 even turns into a note-on status. */
  lemma ChannelSixteenFolds(note: bv8, data: bv8)
    ensures ControlChange(16, note, data).byte1 == ControlChange(0, note, data).byte1 == 0xB0
    ensures NoteOn(16, note, data).byte1 == NoteOn(0, note, data).byte1
    ensures NoteOff(16, note, data).byte1 == STATUS_NOTE_ON
  {
  }
}
