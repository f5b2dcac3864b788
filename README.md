# RtMidi.Net MIDI message codec in Dafny

This project models the MIDI 1.0 wire-message codec of RtMidi.Net and proves
properties of it. The codec has two directions:

- the decoder `MidiInputClient.ConvertMessage` turns the bytes of one received
  frame into a message record;
- the encoder `MidiOutputClient.ConvertMessage` turns a record back into bytes.

The model also covers the data both directions use:

- the `MidiMessageType` status-byte enumeration;
- the `MusicNote` pitch-class enumeration with its Latin aliases;
- the `MidiNote` value type (note number ⇄ pitch class and octave, and its
  printable name);
- the `MidiMessage*` record hierarchy.

All of this code is pure in the source, so the model is datatypes, functions
and lemmas. Bytes are `bv8`, so the source's `&`, `|` and truncating byte
casts are exact. A thrown exception is the `Throw` case of a `Result`.

Modules, one per file:

| file | module | models |
|---|---|---|
| basics.dfy | `Basics` | `byte`, the exceptions, `Result`, list indexing |
| dotnet.dfy | `DotNet` | the library calls `GetName` uses: LINQ `Where` and `Except`, `StartsWith`, `Replace`, integer formatting |
| midi_message_type.dfy | `MidiMessageTypes` | `MidiMessageType` and `Enum.IsDefined` on it |
| music_note.dfy | `MusicNotes` | `MusicNote` and its member names |
| midi_note.dfy | `MidiNotes` | `MidiNote` |
| midi_messages.dfy | `MidiMessages` | the message records |
| midi_input.dfy | `MidiInput` | the decoder |
| midi_output.dfy | `MidiOutput` | the encoder, `ByteFrom`, `DefaultMessage` |
| midi_codec.dfy | `MidiCodec` | how the two directions fit together |

Behaviour worth knowing, all proved:

- For every frame the decoder accepts, decoding then encoding gives back the
  bytes the decoder read. The one exception is a frame led by 0x00. 0x00 is the
  `Unknown` member, so `Enum.IsDefined` accepts it and the decoder returns a
  plain `MidiMessage(Unknown)`. The encoder has no arm for that record and
  throws (`MidiCodec.ZeroLeadByte`).
- For every message the decoder produces from a frame not led by 0x00,
  encoding then decoding gives the message back.
- For a note message the decoder reads the note byte and range-checks it before
  it reads the velocity byte. So `[0x90, 200]` fails on the note, not on the
  missing byte.

Facts about the code that the model follows:

- Every byte from 0xF0 up is a defined `MidiMessageType` member. So the only
  frames that decode to `MidiMessageUnknown` are those led by 0x01..0x7F. A
  channel voice byte such as 0x91 is not a defined enum value, yet it decodes
  by its nibbles.
- The decoder indexes the received list without a length check, so an empty or
  short frame throws. The model returns `IndexOutOfRange` for it.
- The encoder writes a stored buffer only when `Type` is `Unknown` or
  `TimeCodeQuarterFrame` on a `MidiMessageUnknown`, or `SystemExclusive` on a
  `MidiMessageSystemExclusive`.
- The channel is never range-checked by the code. Here the channel type itself
  is 0..15.
- `GetName` derives its name lists from the enum's member names. The model
  keeps that derivation and proves it equal to two fixed 12-entry tables.

## Model

| member | source | states |
|---|---|---|
| Basics.At | RtMidi.Net/Clients/MidiInputClient.cs:81-129 | indexing the received list gives the element below its length and throws `IndexOutOfRange` at or past it |
| MidiMessageTypes.FromCode | RtMidi.Net/Enums/MidiMessageType.cs:9-40 | the cast from a byte finds only a member whose value is that byte |
| MidiMessageTypes.FromCodeOfCode | RtMidi.Net/Enums/MidiMessageType.cs:9-40 | every member is found again from its value |
| MidiMessageTypes.CodeInjective | RtMidi.Net/Enums/MidiMessageType.cs:9-40 | the member values are pairwise distinct, so byte → type is injective |
| MidiMessageTypes.UnknownIsNotAStatusByte | RtMidi.Net/Enums/MidiMessageType.cs:11 | `Unknown` is 0, the only member with the high bit clear |
| MidiMessageTypes.ChannelVoiceCodes | RtMidi.Net/Enums/MidiMessageType.cs:13-19 | the seven channel voice types are exactly the members in 0x80..0xEF with low nibble 0 |
| MidiMessageTypes.SystemCodesCoverTopRow | RtMidi.Net/Enums/MidiMessageType.cs:22-39 | each byte 0xF0..0xFF is the value of exactly one member, a system type |
| MidiMessageTypes.SystemCodes | RtMidi.Net/Enums/MidiMessageType.cs:22-39 | a member is a system type iff its value is at least 0xF0 |
| MidiMessageTypes.DefinedBytes | RtMidi.Net/Clients/MidiInputClient.cs:110 | `IsDefined`, the `Enum.IsDefined` test the decoder makes: it accepts 0, 0x80, 0x90, …, 0xE0 and 0xF0..0xFF, and no other byte |
| MusicNotes.AngloSaxonMemberValues | RtMidi.Net/Enums/MusicNote.cs:5-16 | the names C..B come first and take 0..11 in semitone order |
| MusicNotes.LatinMemberValues | RtMidi.Net/Enums/MusicNote.cs:18-29 | the Latin names Do..Si follow and take 0..11 in the same order |
| MusicNotes.LatinAliasValues | RtMidi.Net/Enums/MusicNote.cs:18-29 | each Latin alias has its Anglo-Saxon counterpart's value |
| MusicNotes.MemberNamesDistinct | RtMidi.Net/Enums/MusicNote.cs:3-30 | the 24 member names are distinct, two for each of the 12 values |
| MusicNotes.SharpPositions | RtMidi.Net/Enums/MusicNote.cs:6-15 | the sharps are exactly the values 1, 3, 6, 8, 10 |
| MusicNotes.SharpNames | RtMidi.Net/Enums/MusicNote.cs:5-29 | a member name contains "Sharp" exactly when its value is 1, 3, 6, 8 or 10, in both namings |
| MidiNotes.FromByte | RtMidi.Net/MidiNote.cs:21-26 | a byte above 127 throws; otherwise the pair is in range (octave ≤ 10) and note + 12·octave is the byte |
| MidiNotes.ByteRoundTrip | RtMidi.Net/MidiNote.cs:21-46 | `ByteRepresentation` (`GetByteRepresentation`) inverts `MidiNote(byte)`: `new MidiNote(v).GetByteRepresentation() == v` for every v ≤ 127 |
| MidiNotes.NoteRoundTrip | RtMidi.Net/MidiNote.cs:33-46 | the two-argument constructor `MidiNote(note, octave)` with `GetByteRepresentation`: a pair comes back from its byte exactly when it names a note 0..127 |
| MidiNotes.PairUnique | RtMidi.Net/MidiNote.cs:24-25 | two in-range pairs with the same number are equal, so `%12` and `/12` give the only such pair |
| MidiNotes.ByteRepresentationWraps | RtMidi.Net/MidiNote.cs:33-46 | the two-argument constructor `MidiNote(note, octave)` checks nothing, and `GetByteRepresentation` then wraps modulo 256: C of octave 22 is sent as 8, B of octave 10 as 131 |
| MidiNotes.GetNameIsLookup | RtMidi.Net/MidiNote.cs:53-78 | `GetName`: for any order `Enum.GetNames` gives equal-valued names, the name is the table entry of the pitch class followed by the decimal octave |
| MidiNotes.GetNamesResultExists | RtMidi.Net/MidiNote.cs:55 | `Enum.GetNames<MusicNote>()`: the list with each Anglo-Saxon name followed by its Latin alias meets the contract `GetName` takes for it |
| MidiNotes.NameListsInDeclarationOrder | RtMidi.Net/MidiNote.cs:55-75 | the filtered Anglo-Saxon list and the `Except` Latin list each hold one name per value 0..11, at the index of that value |
| MidiNotes.NoteNameRendered | RtMidi.Net/MidiNote.cs:77 | replacing "Sharp" with "#" turns each member name into its table entry |
| MidiNotes.SharpSigns | RtMidi.Net/MidiNote.cs:77 | a printed note name holds '#' exactly when its pitch class is a sharp |
| MidiNotes.NoteOf60 | RtMidi.Net/MidiNote.cs:21-26 | byte 60 is C of octave 5 |
| MidiNotes.GetNameOf60 | RtMidi.Net/MidiNote.cs:53-78 | C of octave 5 is printed "C5" |
| MidiNotes.NoteOf61 | RtMidi.Net/MidiNote.cs:21-26 | byte 61 is C#/Do# of octave 5 |
| MidiNotes.GetNameOf61 | RtMidi.Net/MidiNote.cs:67-77 | Do# of octave 5 is printed "Do#5" in the Latin naming |
| MidiMessages.DefaultKinds | RtMidi.Net/MidiMessages.cs:6-19 | the `MidiMessage` datatype, one constructor per record: each record with a default `Type` gets its own status constant, and `MidiMessageUnknown` gets `Unknown` |
| MidiInput.Decode | RtMidi.Net/Clients/MidiInputClient.cs:81-129 | the decoder never reaches the channel voice `default` arm's exception |
| MidiInput.DecodeChannelVoice | RtMidi.Net/Clients/MidiInputClient.cs:90-107 | a decoded channel voice record keeps the channel and the type it was given |
| MidiInput.DecodeSystem | RtMidi.Net/Clients/MidiInputClient.cs:115-128 | a decoded system record carries the type of its status byte and no channel |
| MidiOutput.DefaultMessage | RtMidi.Net/Clients/MidiOutputClient.cs:103-106 | the one-byte frame whose byte is the record's type |
| MidiOutput.Encode | RtMidi.Net/Clients/MidiOutputClient.cs:26-107 | the only exception the encoder throws is the catch-all's |
| MidiOutput.EncodeAccepts | RtMidi.Net/Clients/MidiOutputClient.cs:28-93 | the encoder succeeds iff `Type` is a single-byte system type, or the record is the one the arm for its `Type` tests for |
| MidiOutput.NibbleSplit | RtMidi.Net/Clients/MidiOutputClient.cs:98-101 | `ByteFrom`: for a channel voice type and a channel ≤ 15, `type` OR-ed with `channel` has the type as high nibble and the channel as low nibble |
| MidiOutput.ByteFromInjective | RtMidi.Net/Clients/MidiOutputClient.cs:98-101 | the status byte determines the (type, channel) pair |
| MidiOutput.NibbleJoin | RtMidi.Net/Clients/MidiInputClient.cs:85-88 | every byte 0x80..0xEF is `type` OR-ed with `channel` of its own high and low nibble |
| MidiOutput.EncodeLength | RtMidi.Net/Clients/MidiOutputClient.cs:28-94 | frames are 3 bytes, 2 for ProgramChange, ChannelPressure and SongSelect, 1 for single-byte types; stored buffers come out unchanged |
| MidiOutput.EncodedStatusByte | RtMidi.Net/Clients/MidiOutputClient.cs:31-92 | each frame the encoder builds starts with a byte that has the high bit set and names the record's type (and channel) |
| MidiCodec.FrameLength | RtMidi.Net/Clients/MidiInputClient.cs:81-129 | the decoder reads 1 to 3 bytes, or keeps the whole buffer |
| MidiCodec.DecodeSucceeds | RtMidi.Net/Clients/MidiInputClient.cs:81-129 | decoding succeeds iff the frame is non-empty, not led by 0xF1, long enough for its type, and any note byte is ≤ 127 |
| MidiCodec.DecodeErrors | RtMidi.Net/Clients/MidiInputClient.cs:81-129 | the exact inputs for each exception: 0xF1 throws NotImplemented, a note byte > 127 NoteOutOfRange, a short frame IndexOutOfRange, and nothing else throws |
| MidiCodec.DecodedChannelAndType | RtMidi.Net/Clients/MidiInputClient.cs:85-88 | for a status byte 0x80..0xEF the channel is `status & 0x0F`, the type `status & 0xF0`, and `type` OR-ed with `channel` rebuilds the byte |
| MidiCodec.DecodeUndefined | RtMidi.Net/Clients/MidiInputClient.cs:110-113 | the result is `MidiMessageUnknown` iff the lead byte is 0x01..0x7F, and then it holds the whole input |
| MidiCodec.DecodeBareType | RtMidi.Net/Clients/MidiInputClient.cs:126-127 | 0x00 and every single-byte system type decode to the bare type with no data read |
| MidiCodec.DecodeCanonical | RtMidi.Net/Clients/MidiInputClient.cs:81-129 | decoded records carry the types the decoder gives them and in-range notes, except `MidiMessage(Unknown)` for 0x00 |
| MidiCodec.DecodeThenEncode | RtMidi.Net/Clients/MidiOutputClient.cs:26-107 | for a frame the decoder accepts and not led by 0x00, encoding the result gives back the bytes the decoder read |
| MidiCodec.EncodeThenDecode | RtMidi.Net/Clients/MidiOutputClient.cs:26-107 | a message of the shape the decoder produces encodes, and decoding the frame gives the message back |
| MidiCodec.ZeroLeadByte | RtMidi.Net/Clients/MidiOutputClient.cs:93 | a frame led by 0x00 decodes to `MidiMessage(Unknown)`, which the encoder refuses |
| MidiCodec.TimeCodeQuarterFrameOneWay | RtMidi.Net/Clients/MidiOutputClient.cs:67 | a `MidiMessageUnknown` typed TimeCodeQuarterFrame passes through the encoder, but the decoder refuses 0xF1 |
| MidiCodec.NoteOnFrame | RtMidi.Net/Clients/MidiInputClient.cs:92-94 | [0x91, 0x3C, 0x64] is NoteOn, channel 1, C of octave 5, velocity 100, in both directions |
| MidiCodec.ProgramChangeFrame | RtMidi.Net/Clients/MidiInputClient.cs:97-98 | [0xC2, 0x05] is ProgramChange on channel 2 to program 5, in both directions |
| MidiCodec.SongSelectFrame | RtMidi.Net/Clients/MidiInputClient.cs:122-123 | [0xF3, 0x07] is SongSelect 7, in both directions |
| MidiCodec.StartFrame | RtMidi.Net/Clients/MidiInputClient.cs:126-127 | [0xFA] is the bare Start type, in both directions |
| MidiCodec.UndefinedReservedFrame | RtMidi.Net/Clients/MidiInputClient.cs:126-127 | [0xF5, 1, 2] decodes to the bare UndefinedReserved2 type and encodes back to [0xF5] |
| MidiCodec.DataByteFrame | RtMidi.Net/Clients/MidiInputClient.cs:110-113 | a frame led by the data byte 0x42 is kept whole and sent back unchanged |
| MidiCodec.BadNoteBeforeShortFrame | RtMidi.Net/Clients/MidiInputClient.cs:92-94 | [0x90, 200] throws on the note before the missing velocity; [0x90, 60] and [] run past the end |

## Left out

- Transport: opening ports, sending, the receive callback, timestamps, device
  enumeration and the native rtmidi binding. These are I/O and foreign calls
  into the native library.
- `MidiChannel` and `MusicOctave`: their declarations are not part of this
  model. The channel is a byte 0..15, the low nibble the decoder extracts. The
  octave is any byte, so the wrap-around of `GetByteRepresentation` shows.
- Enum values outside the declared members: a cast such as `(MusicNote)200` or
  a record whose `Type` is `(MidiMessageType)0x42`. `MusicNote` is 0..11 and
  `MessageType` has only its 24 members.
- MidiNotes.GetName: `Enum.GetNames<MusicNote>()` is the parameter
  `enumNames`. Its contract is that the list holds every member name once,
  ordered by value. The runtime's order of the two names that share a value is
  not fixed, and the proofs hold for either order.
- Culture: `StartsWith`, `Replace` and the octave's decimal text are modelled
  as ordinal, character-by-character operations on a non-negative number.
  `string.StartsWith(string)` compares under the current culture, but the
  member names are plain ASCII letters, for which both comparisons agree.
  Culture-dependent comparison and formatting are not modelled.
- Reference semantics: records compare their byte arrays by reference, and
  `message.ToArray()` copies the received list. Both are modelled as sequence
  values.
- The exception types are one constructor each. `IndexOutOfRange` stands for
  whatever the list indexer throws past the end.
- MidiOutput.Encode: its own contract states only which exception it throws.
  What succeeds and what it produces are stated by `EncodeAccepts`,
  `EncodeLength`, `EncodedStatusByte` and the round-trip lemmas.
