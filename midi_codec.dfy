/**
  How the decoder and the encoder fit together: which frames decode, the
  error each malformed frame raises, and the round trips in both
  directions.
 */
module MidiCodec {
  import opened Basics
  import opened MidiMessageTypes
  import opened MusicNotes
  import opened MidiNotes
  import opened MidiMessages
  import opened MidiInput
  import opened MidiOutput

  /** Status bytes whose first data byte is a note number. */
  predicate IsNoteStatus(status: byte) {
    0x80 <= status < 0xB0
  }

  /**
    How many bytes of `s` the decoder reads (or keeps): the whole buffer for
    SysEx and undefined status bytes, otherwise the status byte and its
    fixed number of data bytes.
   */
  function FrameLength(s: seq<byte>): (r: nat)
    requires |s| > 0
    ensures 1 <= r <= 3 || r == |s|
  {
    var status := s[0];
    if 0x80 <= status < 0xF0 then
      if 0xC0 <= status < 0xE0 then 2 else 3
    else if !IsDefined(status) || status == 0xF0 then |s|
    else if status == 0xF2 then 3
    else if status == 0xF3 then 2
    else 1
  }

  /** The frames the decoder accepts. */
  predicate WellFormed(s: seq<byte>) {
    |s| > 0 && s[0] != 0xF1 && FrameLength(s) <= |s|
    && (IsNoteStatus(s[0]) ==> s[1] <= 127)
  }

  /**
    The messages the decoder can produce from a frame that does not start
    with 0x00: each record carries the `Type` the decoder gives it, notes
    are in range, and stored buffers begin with the byte that selected them.
   */
  predicate Canonical(m: MidiMessage) {
    match m
    case Message(k) => k.IsSingleByte()
    case MessageUnknown(data, k) => k == Unknown && |data| > 0 && 0 < data[0] < 0x80
    case MessageNote(_, n, _, k) => (k == NoteOff || k == NoteOn) && InRange(n)
    case MessageNoteAfterTouch(_, n, _, k) => k == PolyphonicKeyPressure && InRange(n)
    case MessageControlChange(_, _, _, k) => k == ControlChange
    case MessageProgramChange(_, _, k) => k == ProgramChange
    case MessageChannelAfterTouch(_, _, k) => k == ChannelPressure
    case MessagePitchBendChange(_, _, _, k) => k == PitchBendChange
    case MessageSystemExclusive(data, k) =>
      k == SystemExclusive && |data| > 0 && data[0] == 0xF0
    case MessageSongPositionPointer(_, _, k) => k == SongPositionPointer
    case MessageSongSelect(_, k) => k == SongSelect
  }

  // ---------------------------------------------------------------------
  // Which frames decode, and the error of each one that does not
  // ---------------------------------------------------------------------

  /** The decoder succeeds exactly on well-formed frames. */
  lemma DecodeSucceeds(s: seq<byte>)
    ensures Decode(s).Ok? <==> WellFormed(s)
  {
    if |s| > 0 && 0x80 <= s[0] < 0xF0 {
      NibbleJoin(s[0]);
    }
  }

  /**
    A note byte above 127 is reported before a missing velocity byte;
    otherwise a short frame reads past its end.
   */
  lemma DecodeErrors(s: seq<byte>)
    ensures Decode(s) == Throw(NotImplemented) <==> |s| > 0 && s[0] == 0xF1
    ensures Decode(s) == Throw(NoteOutOfRange) <==>
      |s| >= 2 && IsNoteStatus(s[0]) && s[1] > 127
    ensures Decode(s) == Throw(IndexOutOfRange) <==>
      |s| == 0
      || (s[0] != 0xF1 && |s| < FrameLength(s)
          && !(|s| >= 2 && IsNoteStatus(s[0]) && s[1] > 127))
    ensures Decode(s) != Throw(TypeOutOfRange) && Decode(s) != Throw(MessageTypeUnknown)
  {
    if |s| > 0 && 0x80 <= s[0] < 0xF0 {
      NibbleJoin(s[0]);
    }
  }

  // ---------------------------------------------------------------------
  // What a decoded message holds
  // ---------------------------------------------------------------------

  /**
    A channel voice status byte is split into type and channel, and the
    encoder's `type | channel` joins them back into the same byte.
   */
  lemma DecodedChannelAndType(s: seq<byte>)
    requires Decode(s).Ok? && 0x80 <= s[0] < 0xF0
    ensures Decode(s).value.HasChannel()
    ensures Decode(s).value.kind.IsChannelVoice()
    ensures Decode(s).value.kind.Code() == s[0] & 0xF0
    ensures Decode(s).value.channel == s[0] & 0x0F
    ensures ByteFrom(Decode(s).value.kind, Decode(s).value.channel) == s[0]
  {
    NibbleJoin(s[0]);
    FromCodeOfCode(Decode(s).value.kind);
  }

  /**
    A frame is kept whole as `MidiMessageUnknown` exactly when its lead byte
    is a data byte 0x01..0x7F, none of which names a type.
   */
  lemma DecodeUndefined(s: seq<byte>)
    ensures (Decode(s).Ok? && Decode(s).value.MessageUnknown?) <==>
      |s| > 0 && 0 < s[0] < 0x80
    ensures |s| > 0 && 0 < s[0] < 0x80 ==> !IsDefined(s[0]) && Decode(s) == Ok(MessageUnknown(s))
  {
    if |s| > 0 && 0x80 <= s[0] < 0xF0 {
      NibbleJoin(s[0]);
    } else if |s| > 0 && 0xF0 <= s[0] {
      SystemCodes(FromCode(s[0]).value);
    }
  }

  /**
    Every defined system byte other than SysEx, SongPositionPointer,
    SongSelect and TimeCodeQuarterFrame decodes to the bare type, reading
    no data byte; so does the byte 0, the `Unknown` member.
   */
  lemma DecodeBareType(s: seq<byte>)
    requires |s| > 0 && IsDefined(s[0])
    requires s[0] == 0 || FromCode(s[0]).value.IsSingleByte()
    ensures Decode(s) == Ok(Message(FromCode(s[0]).value))
  {
    SystemCodes(FromCode(s[0]).value);
  }

  /** The decoder only yields canonical messages, and `MidiMessage(Unknown)` for 0x00. */
  lemma DecodeCanonical(s: seq<byte>)
    requires Decode(s).Ok?
    ensures Canonical(Decode(s).value) <==> s[0] != 0
    ensures s[0] == 0 ==> Decode(s).value == Message(Unknown)
  {
    if 0x80 <= s[0] < 0xF0 {
      ChannelVoiceCanonical(s);
    } else if IsDefined(s[0]) {
      SystemCodes(FromCode(s[0]).value);
    }
  }

  lemma ChannelVoiceCanonical(s: seq<byte>)
    requires Decode(s).Ok? && 0x80 <= s[0] < 0xF0
    ensures Canonical(Decode(s).value)
  {
    NibbleJoin(s[0]);
  }

  // ---------------------------------------------------------------------
  // Round trips
  // ---------------------------------------------------------------------

  /**
    Decoding then encoding gives back the bytes the decoder read, for every
    frame it accepts except one led by 0x00.
   */
  lemma DecodeThenEncode(s: seq<byte>)
    requires Decode(s).Ok? && s[0] != 0
    ensures Encode(Decode(s).value) == Ok(s[..FrameLength(s)])
  {
    if 0x80 <= s[0] < 0xF0 {
      ChannelVoiceFrameRoundTrip(s);
    } else if IsDefined(s[0]) {
      SystemFrameRoundTrip(s);
    } else {
      assert s[..|s|] == s;
    }
  }

  lemma ChannelVoiceFrameRoundTrip(s: seq<byte>)
    requires Decode(s).Ok? && 0x80 <= s[0] < 0xF0
    ensures Encode(Decode(s).value) == Ok(s[..FrameLength(s)])
  {
    NibbleJoin(s[0]);
    if IsNoteStatus(s[0]) {
      ByteRoundTrip(s[1]);
      assert s[..3] == [s[0], s[1], s[2]];
    } else if 0xC0 <= s[0] < 0xE0 {
      assert s[..2] == [s[0], s[1]];
    } else {
      assert s[..3] == [s[0], s[1], s[2]];
    }
  }

  lemma SystemFrameRoundTrip(s: seq<byte>)
    requires Decode(s).Ok? && s[0] != 0 && !(0x80 <= s[0] < 0xF0) && IsDefined(s[0])
    ensures Encode(Decode(s).value) == Ok(s[..FrameLength(s)])
  {
    var k := FromCode(s[0]).value;
    SystemCodes(k);
    if k.SystemExclusive? {
      assert s[..|s|] == s;
    } else if k.SongPositionPointer? {
      assert s[..3] == [s[0], s[1], s[2]];
    } else if k.SongSelect? {
      assert s[..2] == [s[0], s[1]];
    } else {
      assert s[..1] == [s[0]];
    }
  }

  /** Encoding a canonical message then decoding the frame gives the message back. */
  lemma EncodeThenDecode(m: MidiMessage)
    requires Canonical(m)
    ensures Encode(m).Ok?
    ensures Decode(Encode(m).value) == Ok(m)
  {
    if m.HasChannel() {
      ChannelVoiceRoundTrip(m);
    } else {
      SystemRoundTrip(m);
    }
  }

  lemma SystemRoundTrip(m: MidiMessage)
    requires Canonical(m) && !m.HasChannel()
    ensures Encode(m).Ok?
    ensures Decode(Encode(m).value) == Ok(m)
  {
    if !m.MessageUnknown? {
      SystemCodes(m.kind);
      FromCodeOfCode(m.kind);
    }
  }

  lemma ChannelVoiceRoundTrip(m: MidiMessage)
    requires Canonical(m) && m.HasChannel()
    ensures Encode(m).Ok?
    ensures Decode(Encode(m).value) == Ok(m)
  {
    NibbleSplit(m.kind, m.channel);
    FromCodeOfCode(m.kind);
    if m.IsNoteBase() {
      NoteRoundTrip(m.note);
    }
  }

  /**
    The lead byte 0x00 decodes to the plain `MidiMessage(Unknown)`, which no
    encoder arm accepts: this frame does not survive the round trip.
   */
  lemma ZeroLeadByte(rest: seq<byte>)
    ensures Decode([0x00] + rest) == Ok(Message(Unknown))
    ensures Encode(Message(Unknown)) == Throw(MessageTypeUnknown)
  {
    assert ([0x00] + rest)[0] == 0;
  }

  /**
    The encoder passes a `MidiMessageUnknown` typed TimeCodeQuarterFrame
    through unchanged, while the decoder refuses the 0xF1 byte.
   */
  lemma TimeCodeQuarterFrameOneWay(data: seq<byte>)
    ensures Encode(MessageUnknown(data, TimeCodeQuarterFrame)) == Ok(data)
    ensures |data| > 0 && data[0] == 0xF1 ==> Decode(data) == Throw(NotImplemented)
  {
  }

  // ---------------------------------------------------------------------
  // Worked frames
  // ---------------------------------------------------------------------

  /** NoteOn on channel 1, note 0x3C (C of octave 5), velocity 100. */
  lemma NoteOnFrame()
    ensures Decode([0x91, 0x3C, 0x64]) == Ok(MessageNote(1, MidiNote(C, 5), 0x64, NoteOn))
    ensures Encode(MessageNote(1, MidiNote(C, 5), 0x64, NoteOn)) == Ok([0x91, 0x3C, 0x64])
  {
    NoteOf60();
  }

  /** ProgramChange on channel 2 to program 5: two bytes. */
  lemma ProgramChangeFrame()
    ensures Decode([0xC2, 0x05]) == Ok(MessageProgramChange(2, 5))
    ensures Encode(MessageProgramChange(2, 5)) == Ok([0xC2, 0x05])
  {
  }

  lemma SongSelectFrame()
    ensures Decode([0xF3, 0x07]) == Ok(MessageSongSelect(7))
    ensures Encode(MessageSongSelect(7)) == Ok([0xF3, 0x07])
  {
  }

  /** Start (0xFA) is a bare status byte. */
  lemma StartFrame()
    ensures Decode([0xFA]) == Ok(Message(Start))
    ensures Encode(Message(Start)) == Ok([0xFA])
  {
  }

  /** An undefined system byte (0xF5) is still a bare type; its data bytes are dropped. */
  lemma UndefinedReservedFrame()
    ensures Decode([0xF5, 1, 2]) == Ok(Message(UndefinedReserved2))
    ensures Encode(Message(UndefinedReserved2)) == Ok([0xF5])
  {
  }

  /** A frame led by a data byte is kept whole. */
  lemma DataByteFrame()
    ensures Decode([0x42, 0x01]) == Ok(MessageUnknown([0x42, 0x01]))
    ensures Encode(MessageUnknown([0x42, 0x01])) == Ok([0x42, 0x01])
  {
  }

  /** The note byte is checked before the missing velocity byte is read. */
  lemma BadNoteBeforeShortFrame()
    ensures Decode([0x90, 200]) == Throw(NoteOutOfRange)
    ensures Decode([0x90, 60]) == Throw(IndexOutOfRange)
    ensures Decode([]) == Throw(IndexOutOfRange)
  {
  }
}
