/**
  The receiving side of the codec: the static `ConvertMessage` of
  `MidiInputClient`, which turns the bytes of one received frame into a
  message record.
 */
module MidiInput {
  import opened Basics
  import opened MidiMessageTypes
  import opened MidiNotes
  import opened MidiMessages

  /**
    `ConvertMessage(IReadOnlyList<byte>)`. Arguments are evaluated left to
    right, as in C#: for a note message the note byte is read and range
    checked before the velocity byte is read.
   */
  function Decode(message: seq<byte>): (r: Result<MidiMessage>)
    ensures r.Throw? ==> r.error != TypeOutOfRange
  {
    var status :- At(message, 0);
    if 0x80 <= status < 0xF0 then
      DecodeChannelVoice(message, status & 0x0F, FromCode(status & 0xF0))
    else if !IsDefined(status) then
      Ok(MessageUnknown(message))
    else
      DecodeSystem(message, FromCode(status).value)
  }

  /**
    The first `switch`: `kind` is `(MidiMessageType)(status & 0xF0)`, which
    is a declared member for every status byte 0x80..0xEF.
   */
  function DecodeChannelVoice(message: seq<byte>, channel: Channel,
                              kind: Option<MessageType>): (r: Result<MidiMessage>)
    requires kind.Some? && kind.value.IsChannelVoice()
    ensures r.Throw? ==> r.error != TypeOutOfRange
    ensures r.Ok? ==> r.value.HasChannel() && r.value.channel == channel
                      && r.value.kind == kind.value
  {
    if kind == Some(NoteOff) || kind == Some(NoteOn) then
      var b1 :- At(message, 1);
      var note :- FromByte(b1);
      var velocity :- At(message, 2);
      Ok(MessageNote(channel, note, velocity, kind.value))
    else if kind == Some(PolyphonicKeyPressure) then
      var b1 :- At(message, 1);
      var note :- FromByte(b1);
      var pressure :- At(message, 2);
      Ok(MessageNoteAfterTouch(channel, note, pressure))
    else if kind == Some(ProgramChange) then
      var program :- At(message, 1);
      Ok(MessageProgramChange(channel, program))
    else if kind == Some(ChannelPressure) then
      var pressure :- At(message, 1);
      Ok(MessageChannelAfterTouch(channel, pressure))
    else if kind == Some(PitchBendChange) then
      var lsb :- At(message, 1);
      var msb :- At(message, 2);
      Ok(MessagePitchBendChange(channel, lsb, msb))
    else if kind == Some(ControlChange) then
      var controlFunction :- At(message, 1);
      var value :- At(message, 2);
      Ok(MessageControlChange(channel, controlFunction, value))
    else
      assert false;
      Throw(TypeOutOfRange)
  }

  /** The second `switch`, on a defined status byte outside 0x80..0xEF. */
  function DecodeSystem(message: seq<byte>, kind: MessageType): (r: Result<MidiMessage>)
    ensures r.Ok? ==> r.value.kind == kind && !r.value.HasChannel()
                      && !r.value.MessageUnknown?
  {
    match kind
    case SystemExclusive => Ok(MessageSystemExclusive(message))
    case SongPositionPointer =>
      var lsb :- At(message, 1);
      var msb :- At(message, 2);
      Ok(MessageSongPositionPointer(lsb, msb))
    case SongSelect =>
      var songNumber :- At(message, 1);
      Ok(MessageSongSelect(songNumber))
    case TimeCodeQuarterFrame => Throw(NotImplemented)
    case _ => Ok(Message(kind))
  }
}
