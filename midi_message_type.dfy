/**
  The `MidiMessageType` status-byte enumeration: the status bytes of the
  MIDI 1.0 Detailed Specification, Table 1 "Summary of MIDI Messages" and
  Table 2 "Expanded Messages List (Status Bytes)", plus `Unknown` = 0.
 */
module MidiMessageTypes {
  import opened Basics

  datatype MessageType =
    | Unknown
      // channel voice messages: high nibble is the kind, low nibble is 0
    | NoteOff | NoteOn | PolyphonicKeyPressure | ControlChange
    | ProgramChange | ChannelPressure | PitchBendChange
      // system common messages
    | SystemExclusive | TimeCodeQuarterFrame | SongPositionPointer | SongSelect
    | UndefinedReserved1 | UndefinedReserved2 | TuneRequest | EndOfSysEx
      // system real-time messages
    | TimingClock | UndefinedReserved3 | Start | Continue
    | Stop | UndefinedReserved4 | ActiveSensing | SystemReset
  {
    /** The underlying byte of the enum member. */
    function Code(): byte {
      match this
      case Unknown => 0
      case NoteOff => 0x80
      case NoteOn => 0x90
      case PolyphonicKeyPressure => 0xA0
      case ControlChange => 0xB0
      case ProgramChange => 0xC0
      case ChannelPressure => 0xD0
      case PitchBendChange => 0xE0
      case SystemExclusive => 0xF0
      case TimeCodeQuarterFrame => 0xF1
      case SongPositionPointer => 0xF2
      case SongSelect => 0xF3
      case UndefinedReserved1 => 0xF4
      case UndefinedReserved2 => 0xF5
      case TuneRequest => 0xF6
      case EndOfSysEx => 0xF7
      case TimingClock => 0xF8
      case UndefinedReserved3 => 0xF9
      case Start => 0xFA
      case Continue => 0xFB
      case Stop => 0xFC
      case UndefinedReserved4 => 0xFD
      case ActiveSensing => 0xFE
      case SystemReset => 0xFF
    }

    /** The seven per-channel kinds, whose status byte carries a channel. */
    predicate IsChannelVoice() {
      NoteOff? || NoteOn? || PolyphonicKeyPressure? || ControlChange?
      || ProgramChange? || ChannelPressure? || PitchBendChange?
    }

    /** The system common and real-time kinds, codes 0xF0..0xFF. */
    predicate IsSystem() {
      !Unknown? && !IsChannelVoice()
    }

    /** The system kinds that are a bare status byte with no data bytes. */
    predicate IsSingleByte() {
      IsSystem() && !SystemExclusive? && !TimeCodeQuarterFrame?
      && !SongPositionPointer? && !SongSelect?
    }
  }

  /**
    The cast `(MidiMessageType)b` for a byte that `Enum.IsDefined` accepts;
    None for a byte that names no member.
   */
  function FromCode(b: byte): (r: Option<MessageType>)
    ensures r.Some? ==> r.value.Code() == b
  {
    match b
    case 0x00 => Some(Unknown)
    case 0x80 => Some(NoteOff)
    case 0x90 => Some(NoteOn)
    case 0xA0 => Some(PolyphonicKeyPressure)
    case 0xB0 => Some(ControlChange)
    case 0xC0 => Some(ProgramChange)
    case 0xD0 => Some(ChannelPressure)
    case 0xE0 => Some(PitchBendChange)
    case 0xF0 => Some(SystemExclusive)
    case 0xF1 => Some(TimeCodeQuarterFrame)
    case 0xF2 => Some(SongPositionPointer)
    case 0xF3 => Some(SongSelect)
    case 0xF4 => Some(UndefinedReserved1)
    case 0xF5 => Some(UndefinedReserved2)
    case 0xF6 => Some(TuneRequest)
    case 0xF7 => Some(EndOfSysEx)
    case 0xF8 => Some(TimingClock)
    case 0xF9 => Some(UndefinedReserved3)
    case 0xFA => Some(Start)
    case 0xFB => Some(Continue)
    case 0xFC => Some(Stop)
    case 0xFD => Some(UndefinedReserved4)
    case 0xFE => Some(ActiveSensing)
    case 0xFF => Some(SystemReset)
    case _ => None
  }

  /** `Enum.IsDefined(typeof(MidiMessageType), b)`. */
  predicate IsDefined(b: byte) {
    FromCode(b).Some?
  }

  /** Every member is found again from its byte, so `Code` is injective. */
  lemma FromCodeOfCode(t: MessageType)
    ensures FromCode(t.Code()) == Some(t)
  {
  }

  lemma CodeInjective(s: MessageType, t: MessageType)
    ensures s.Code() == t.Code() <==> s == t
  {
    FromCodeOfCode(s);
    FromCodeOfCode(t);
  }

  /** `Unknown` is 0, which has the high bit clear and so is no status byte. */
  lemma UnknownIsNotAStatusByte()
    ensures Unknown.Code() == 0 && Unknown.Code() & 0x80 == 0
    ensures forall t: MessageType :: t.Code() & 0x80 == 0 <==> t == Unknown
  {
  }

  /**
    The channel voice kinds are exactly the members whose code has the high
    bit set, the low nibble clear and lies below 0xF0: 0x80, 0x90, ..., 0xE0.
   */
  lemma ChannelVoiceCodes(t: MessageType)
    ensures t.IsChannelVoice() <==>
      0x80 <= t.Code() < 0xF0 && t.Code() & 0x0F == 0
    ensures t.IsChannelVoice() ==> t.Code() & 0x80 == 0x80
  {
  }

  /** The system kinds cover each byte 0xF0..0xFF exactly once. */
  lemma SystemCodesCoverTopRow(b: byte)
    requires 0xF0 <= b
    ensures FromCode(b).Some? && FromCode(b).value.IsSystem()
    ensures forall t: MessageType :: t.Code() == b <==> t == FromCode(b).value
  {
    var t := FromCode(b).value;
    forall s: MessageType ensures s.Code() == b <==> s == t {
      CodeInjective(s, t);
    }
  }

  lemma SystemCodes(t: MessageType)
    ensures t.IsSystem() <==> 0xF0 <= t.Code()
  {
  }

  /**
    Which bytes name a member: 0, the seven channel voice kinds, and every
    byte from 0xF0 up. Every other byte, 0x01..0x7F included, is undefined.
   */
  lemma DefinedBytes(b: byte)
    ensures IsDefined(b) <==>
      b == 0 || (0x80 <= b < 0xF0 && b & 0x0F == 0) || 0xF0 <= b
  {
  }
}
