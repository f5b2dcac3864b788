/**
  The sending side of the codec: the static `ConvertMessage` of
  `MidiOutputClient` and its local functions `ByteFrom` and
  `DefaultMessage`, which turn a message record into the bytes of a frame.
 */
module MidiOutput {
  import opened Basics
  import opened MidiMessageTypes
  import opened MidiNotes
  import opened MidiMessages

  /** `ByteFrom`: the status byte `type | channel`. */
  function ByteFrom(kind: MessageType, channel: Channel): byte {
    kind.Code() | channel
  }

  /** `DefaultMessage`: the one-byte frame holding the type alone. */
  function DefaultMessage(m: MidiMessage): (r: seq<byte>)
    ensures |r| == 1 && FromCode(r[0]) == Some(m.kind)
  {
    FromCodeOfCode(m.kind);
    [m.kind.Code()]
  }

  /**
    The switch arm that accepts `m` names a record type besides a `Type`:
    the arm applies only when `m` is that record.
   */
  predicate RecordMatchesKind(m: MidiMessage) {
    match m.kind
    case Unknown | TimeCodeQuarterFrame => m.MessageUnknown?
    case NoteOff | NoteOn => m.MessageNote?
    case PolyphonicKeyPressure => m.MessageNoteAfterTouch?
    case ControlChange => m.MessageControlChange?
    case ProgramChange => m.MessageProgramChange?
    case ChannelPressure => m.MessageChannelAfterTouch?
    case PitchBendChange => m.MessagePitchBendChange?
    case SystemExclusive => m.MessageSystemExclusive?
    case SongPositionPointer => m.MessageSongPositionPointer?
    case SongSelect => m.MessageSongSelect?
    case _ => false
  }

  /**
    `ConvertMessage(MidiMessage)`: a `switch` on `Type` whose arms also test
    the record type; a message no arm accepts makes it throw.
   */
  function Encode(m: MidiMessage): (r: Result<seq<byte>>)
    ensures r.Throw? ==> r.error == MessageTypeUnknown
  {
    match m.kind
    case Unknown =>
      if m.MessageUnknown? then Ok(m.data) else Throw(MessageTypeUnknown)
    case NoteOff | NoteOn =>
      if m.MessageNote? then
        Ok([ByteFrom(m.kind, m.channel), ByteRepresentation(m.note), m.velocity])
      else Throw(MessageTypeUnknown)
    case PolyphonicKeyPressure =>
      if m.MessageNoteAfterTouch? then
        Ok([ByteFrom(m.kind, m.channel), ByteRepresentation(m.note), m.pressure])
      else Throw(MessageTypeUnknown)
    case ControlChange =>
      if m.MessageControlChange? then
        Ok([ByteFrom(m.kind, m.channel), m.controlFunction, m.value])
      else Throw(MessageTypeUnknown)
    case ProgramChange =>
      if m.MessageProgramChange? then
        Ok([ByteFrom(m.kind, m.channel), m.program])
      else Throw(MessageTypeUnknown)
    case ChannelPressure =>
      if m.MessageChannelAfterTouch? then
        Ok([ByteFrom(m.kind, m.channel), m.pressure])
      else Throw(MessageTypeUnknown)
    case PitchBendChange =>
      if m.MessagePitchBendChange? then
        Ok([ByteFrom(m.kind, m.channel), m.lsb, m.msb])
      else Throw(MessageTypeUnknown)
    case SystemExclusive =>
      if m.MessageSystemExclusive? then Ok(m.data) else Throw(MessageTypeUnknown)
    case TimeCodeQuarterFrame =>
      if m.MessageUnknown? then Ok(m.data) else Throw(MessageTypeUnknown)
    case SongPositionPointer =>
      if m.MessageSongPositionPointer? then
        Ok([m.kind.Code(), m.lsb, m.msb])
      else Throw(MessageTypeUnknown)
    case SongSelect =>
      if m.MessageSongSelect? then
        Ok([m.kind.Code(), m.songNumber])
      else Throw(MessageTypeUnknown)
    case TuneRequest | EndOfSysEx | TimingClock | Start | Continue | Stop
       | ActiveSensing | SystemReset
       | UndefinedReserved1 | UndefinedReserved2
       | UndefinedReserved3 | UndefinedReserved4 =>
      Ok(DefaultMessage(m))
  }

  /**
    The encoder succeeds exactly when `Type` is a single-byte system type,
    which any record may carry, or when the record is the one the arm for
    its `Type` asks for.
   */
  lemma EncodeAccepts(m: MidiMessage)
    ensures Encode(m).Ok? <==> m.kind.IsSingleByte() || RecordMatchesKind(m)
  {
  }

  /**
    For a channel voice kind and a channel below 16, `type | channel` keeps
    both: the high nibble is the type and the low nibble is the channel, so
    the status byte determines the pair.
   */
  lemma NibbleSplit(kind: MessageType, channel: Channel)
    requires kind.IsChannelVoice()
    ensures ByteFrom(kind, channel) & 0xF0 == kind.Code()
    ensures ByteFrom(kind, channel) & 0x0F == channel
    ensures 0x80 <= ByteFrom(kind, channel) < 0xF0
  {
    ChannelVoiceCodes(kind);
  }

  lemma ByteFromInjective(k1: MessageType, c1: Channel, k2: MessageType, c2: Channel)
    requires k1.IsChannelVoice() && k2.IsChannelVoice()
    ensures ByteFrom(k1, c1) == ByteFrom(k2, c2) <==> k1 == k2 && c1 == c2
  {
    NibbleSplit(k1, c1);
    NibbleSplit(k2, c2);
    CodeInjective(k1, k2);
  }

  /**
    Every channel voice status byte is some `type | channel`: joining the
    two nibbles the decoder splits gives back the byte.
   */
  lemma NibbleJoin(status: byte)
    requires 0x80 <= status < 0xF0
    ensures FromCode(status & 0xF0).Some?
    ensures FromCode(status & 0xF0).value.IsChannelVoice()
    ensures ByteFrom(FromCode(status & 0xF0).value, status & 0x0F) == status
  {
  }

  /** The length of each successful encoding, per `Type`. */
  lemma EncodeLength(m: MidiMessage)
    requires Encode(m).Ok?
    ensures m.kind.IsChannelVoice() && !m.kind.ProgramChange? && !m.kind.ChannelPressure?
      ==> |Encode(m).value| == 3
    ensures m.kind.ProgramChange? || m.kind.ChannelPressure? ==> |Encode(m).value| == 2
    ensures m.kind.SongPositionPointer? ==> |Encode(m).value| == 3
    ensures m.kind.SongSelect? ==> |Encode(m).value| == 2
    ensures m.kind.IsSingleByte() ==> |Encode(m).value| == 1
    ensures m.kind.Unknown? || m.kind.SystemExclusive? || m.kind.TimeCodeQuarterFrame?
      ==> Encode(m).value == m.data
  {
  }

  /**
    The frames the encoder builds itself begin with the status byte of the
    message's type (and channel): a byte with the high bit set whose type
    nibble, or whole value, names `m.kind`.
   */
  lemma EncodedStatusByte(m: MidiMessage)
    requires Encode(m).Ok?
    requires !m.kind.Unknown? && !m.kind.SystemExclusive? && !m.kind.TimeCodeQuarterFrame?
    ensures Encode(m).value[0] & 0x80 == 0x80
    ensures m.kind.IsChannelVoice() ==>
      FromCode(Encode(m).value[0] & 0xF0) == Some(m.kind)
      && Encode(m).value[0] & 0x0F == m.channel
    ensures m.kind.IsSystem() ==> FromCode(Encode(m).value[0]) == Some(m.kind)
  {
    FromCodeOfCode(m.kind);
    if m.kind.IsChannelVoice() {
      NibbleSplit(m.kind, m.channel);
    } else {
      SystemCodes(m.kind);
    }
  }
}
