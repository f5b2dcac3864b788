/**
  The `MidiMessage` record hierarchy. Each positional record becomes one
  constructor of a single datatype; the record's `Type` property is the
  field `kind`, present in every constructor, with the default the record
  declares. Byte-array payloads are sequence values.
 */
module MidiMessages {
  import opened Basics
  import opened MidiMessageTypes
  import opened MidiNotes

  /** A MIDI channel, the low nibble of a channel voice status byte. */
  type Channel = c: byte | c < 16

  datatype MidiMessage =
    | Message(kind: MessageType)
    | MessageUnknown(data: seq<byte>, kind: MessageType := MessageType.Unknown)
    | MessageNote(channel: Channel, note: MidiNote, velocity: byte, kind: MessageType)
    | MessageNoteAfterTouch(channel: Channel, note: MidiNote, pressure: byte,
                            kind: MessageType := PolyphonicKeyPressure)
    | MessageControlChange(channel: Channel, controlFunction: byte, value: byte,
                           kind: MessageType := ControlChange)
    | MessageProgramChange(channel: Channel, program: byte,
                           kind: MessageType := ProgramChange)
    | MessageChannelAfterTouch(channel: Channel, pressure: byte,
                               kind: MessageType := ChannelPressure)
    | MessagePitchBendChange(channel: Channel, lsb: byte, msb: byte,
                             kind: MessageType := PitchBendChange)
    | MessageSystemExclusive(data: seq<byte>, kind: MessageType := SystemExclusive)
    | MessageSongPositionPointer(lsb: byte, msb: byte,
                                 kind: MessageType := SongPositionPointer)
    | MessageSongSelect(songNumber: byte, kind: MessageType := SongSelect)
  {
    /** The abstract `MidiMessageNoteBase`: the records carrying a note. */
    predicate IsNoteBase() {
      MessageNote? || MessageNoteAfterTouch?
    }

    /** The records carrying a channel. */
    predicate HasChannel() {
      IsNoteBase() || MessageControlChange? || MessageProgramChange?
      || MessageChannelAfterTouch? || MessagePitchBendChange?
    }
  }

  /**
    Each record that declares a default `Type` gets its own status constant
    when the argument is omitted; `MidiMessageUnknown` defaults to Unknown.
   */
  lemma DefaultKinds(c: Channel, n: MidiNote, b: byte, d: byte, data: seq<byte>)
    ensures MessageUnknown(data).kind == Unknown
    ensures MessageNoteAfterTouch(c, n, b).kind == PolyphonicKeyPressure
    ensures MessageControlChange(c, b, d).kind == ControlChange
    ensures MessageProgramChange(c, b).kind == ProgramChange
    ensures MessageChannelAfterTouch(c, b).kind == ChannelPressure
    ensures MessagePitchBendChange(c, b, d).kind == PitchBendChange
    ensures MessageSystemExclusive(data).kind == SystemExclusive
    ensures MessageSongPositionPointer(b, d).kind == SongPositionPointer
    ensures MessageSongSelect(b).kind == SongSelect
  {
  }
}
