/**
  `MidiNote`: a note number 0..127 viewed as a pitch class and an octave,
  its byte form for the wire, and its printable name.
 */
module MidiNotes {
  import opened Basics
  import opened MusicNotes
  import opened DotNet

  /**
    A `MusicOctave`. Its declaration is not part of this model; it is taken
    to be byte-wide, so any byte may be stored, and notes built from a MIDI
    byte have octaves 0..10.
   */
  type Octave = byte

  /** The two-argument constructor `MidiNote(note, octave)`: no validation. */
  datatype MidiNote = MidiNote(note: MusicNote, octave: Octave)

  /**
    A pair that names a note of the MIDI range 0..127. The octave bound
    keeps the byte arithmetic below from wrapping.
   */
  predicate InRange(n: MidiNote) {
    n.octave <= 10 && n.note + n.octave * 12 <= 127
  }

  /**
    The constructor `MidiNote(byte)`: a byte above 127 throws; otherwise the
    result is the pair in range whose number note + 12 * octave is b.
   */
  function FromByte(b: byte): (r: Result<MidiNote>)
    ensures r.Ok? <==> b <= 127
    ensures r.Throw? ==> r.error == NoteOutOfRange
    ensures r.Ok? ==> InRange(r.value) && r.value.note + r.value.octave * 12 == b
  {
    if b > 127 then Throw(NoteOutOfRange)
    else Ok(MidiNote(b % 12, b / 12))
  }

  /**
    `GetByteRepresentation`: (byte)(note + (byte)(octave * 12)). Byte
    arithmetic wraps modulo 256 exactly as the two truncating casts do.
   */
  function ByteRepresentation(n: MidiNote): byte {
    n.note + n.octave * 12
  }

  /** Every note byte 0..127 survives the trip through the pair. */
  lemma ByteRoundTrip(b: byte)
    requires b <= 127
    ensures FromByte(b).Ok? && ByteRepresentation(FromByte(b).value) == b
  {
  }

  /**
    The pair survives the trip through the byte exactly when it names a note
    of the MIDI range; any other pair comes back different or not at all.
   */
  lemma {:induction false} NoteRoundTrip(n: MidiNote)
    ensures FromByte(ByteRepresentation(n)) == Ok(n) <==> InRange(n)
  {
    var b := ByteRepresentation(n);
    if InRange(n) {
      PairUnique(FromByte(b).value, n);
    }
  }

  /** Two pairs in range with the same number are the same pair. */
  lemma PairUnique(m: MidiNote, n: MidiNote)
    requires InRange(m) && InRange(n)
    requires m.note + m.octave * 12 == n.note + n.octave * 12
    ensures m == n
  {
  }

  /**
    The two-argument constructor does not validate, and the byte form
    truncates: octave 22 of C is 264, sent as 8; B of octave 10 is 131.
   */
  lemma ByteRepresentationWraps()
    ensures !InRange(MidiNote(C, 22)) && ByteRepresentation(MidiNote(C, 22)) == 8
    ensures !InRange(MidiNote(B, 10)) && ByteRepresentation(MidiNote(B, 10)) == 131
  {
  }

  /** The member-name filter `GetName` uses to pick the Anglo-Saxon names. */
  predicate IsAngloSaxonName(name: string) {
    |name| == 1 || StartsWith(name, "CS") || StartsWith(name, "DS")
    || StartsWith(name, "FS") || StartsWith(name, "GS") || StartsWith(name, "AS")
  }

  predicate NotAngloSaxonName(name: string) {
    !IsAngloSaxonName(name)
  }


  /**
    What `Enum.GetNames<MusicNote>()` promises: every member name once,
    ordered by value. The order of two names with one value is left open.
   */
  predicate IsGetNamesResult(names: seq<string>) {
    multiset(names) == multiset(DeclaredNames) && NonDecreasingBy(names, ValueOf)
  }

  /**
    A list `Enum.GetNames<MusicNote>()` may return: each Anglo-Saxon name
    followed by its Latin alias, so the contract above can be met.
   */
  lemma GetNamesResultExists()
    ensures IsGetNamesResult(Interleave(DeclaredNames[..12], DeclaredNames[12..]))
  {
    var w := Interleave(DeclaredNames[..12], DeclaredNames[12..]);
    PairedNamesMultiset();
    PairedNamesValues();
    HalfIndexOrdered(w, ValueOf);
  }

  lemma PairedNamesMultiset()
    ensures multiset(Interleave(DeclaredNames[..12], DeclaredNames[12..]))
            == multiset(DeclaredNames)
  {
    InterleaveHalvesMultiset(DeclaredNames, 12);
  }

  lemma PairedNamesValues()
    ensures |Interleave(DeclaredNames[..12], DeclaredNames[12..])| == 24
    ensures forall i :: 0 <= i < 24 ==>
      ValueOf(Interleave(DeclaredNames[..12], DeclaredNames[12..])[i]) == i / 2
  {
    var a, b := DeclaredNames[..12], DeclaredNames[12..];
    AngloSaxonMemberValues();
    LatinMemberValues();
    forall i | 0 <= i < 24
      ensures ValueOf(Interleave(a, b)[i]) == i / 2
    {
      InterleaveIndex(a, b, i);
      if i % 2 == 0 {
        assert a[i / 2] == DeclaredNames[i / 2];
      } else {
        assert b[i / 2] == DeclaredNames[12 + i / 2];
      }
    }
  }

  /** The reference tables: one printable name per pitch class. */
  const AngloSaxonTable: seq<string> :=
    ["C", "C#", "D", "D#", "E", "F", "F#", "G", "G#", "A", "A#", "B"]
  const LatinTable: seq<string> :=
    ["Do", "Do#", "Re", "Re#", "Mi", "Fa", "Fa#", "Sol", "Sol#", "La", "La#", "Si"]

  /** The entry for a pitch class in the chosen table. */
  function TableName(v: MusicNote, useLatinName: bool): string {
    if useLatinName then LatinTable[v] else AngloSaxonTable[v]
  }

  /**
    `GetName(useLatinName)`: the member names are split by the Anglo-Saxon
    filter, the Latin list is the rest by `Except`, the list is indexed by
    the pitch class, "Sharp" becomes "#" and the octave number follows.
    Whatever order `Enum.GetNames` gives same-valued names, the result is a
    lookup in a fixed 12-entry table.
   */
  function GetName(n: MidiNote, useLatinName: bool, enumNames: seq<string>): string
    requires IsGetNamesResult(enumNames)
  {
    var angloSaxonNames := Filter(enumNames, IsAngloSaxonName);
    NameListsInDeclarationOrder(enumNames);
    var noteName :=
      if useLatinName then Except(enumNames, angloSaxonNames)[n.note]
      else angloSaxonNames[n.note];
    Replace(noteName, "Sharp", "#") + DecimalString(n.octave as nat)
  }

  lemma GetNameIsLookup(n: MidiNote, useLatinName: bool, enumNames: seq<string>)
    requires IsGetNamesResult(enumNames)
    ensures GetName(n, useLatinName, enumNames)
            == TableName(n.note, useLatinName) + DecimalString(n.octave as nat)
  {
    var angloSaxonNames := Filter(enumNames, IsAngloSaxonName);
    NameListsInDeclarationOrder(enumNames);
    var noteName :=
      if useLatinName then Except(enumNames, angloSaxonNames)[n.note]
      else angloSaxonNames[n.note];
    NoteNameRendered(noteName, n.note, useLatinName);
    var rendered := Replace(noteName, "Sharp", "#");
    var octaveText := DecimalString(n.octave as nat);
    assert GetName(n, useLatinName, enumNames) == rendered + octaveText;
  }

  /** Byte 60 decodes to C of octave 5. */
  lemma NoteOf60()
    ensures FromByte(60) == Ok(MidiNote(C, 5))
  {
  }

  /** Byte 61 decodes to C# (Do#) of octave 5. */
  lemma NoteOf61()
    ensures FromByte(61) == Ok(MidiNote(DoSharp, 5))
  {
  }

  lemma NameOfC5()
    ensures TableName(C, false) + DecimalString(5) == "C5"
  {
    assert DecimalString(5) == "5";
    assert TableName(C, false) == "C";
  }

  lemma NameOfDoSharp5()
    ensures TableName(DoSharp, true) + DecimalString(5) == "Do#5"
  {
    assert DecimalString(5) == "5";
    assert TableName(DoSharp, true) == "Do#";
  }

  /** Note 60 (C of octave 5) is printed "C5". */
  lemma GetNameOf60(enumNames: seq<string>)
    requires IsGetNamesResult(enumNames)
    ensures GetName(MidiNote(C, 5), false, enumNames) == "C5"
  {
    GetNameIsLookup(MidiNote(C, 5), false, enumNames);
    NameOfC5();
  }

  /** Note 61 (Do# of octave 5) is printed "Do#5" in the Latin naming. */
  lemma GetNameOf61(enumNames: seq<string>)
    requires IsGetNamesResult(enumNames)
    ensures GetName(MidiNote(DoSharp, 5), true, enumNames) == "Do#5"
  {
    GetNameIsLookup(MidiNote(DoSharp, 5), true, enumNames);
    NameOfDoSharp5();
  }

  /**
    In either naming, "Sharp" is printed as "#": a name holds a '#' exactly
    when its pitch class is a sharp, and never the word itself.
   */
  lemma SharpSigns(v: MusicNote, useLatinName: bool)
    ensures '#' in TableName(v, useLatinName) <==> IsSharp(v)
    ensures |TableName(v, useLatinName)| <= 4
  {
  }

  /** The name picked from either list renders as the table entry. */
  lemma NoteNameRendered(noteName: string, v: MusicNote, useLatinName: bool)
    requires noteName == (if useLatinName then DeclaredNames[12..] else DeclaredNames[..12])[v]
    ensures Replace(noteName, "Sharp", "#") == TableName(v, useLatinName)
  {
    RenderedNames(v);
  }

  /**
    Both lists `GetName` builds hold one name per pitch class, at the index
    of its value: the Anglo-Saxon list is the first twelve declared names,
    the Latin list the last twelve.
   */
  lemma NameListsInDeclarationOrder(names: seq<string>)
    requires IsGetNamesResult(names)
    ensures Filter(names, IsAngloSaxonName) == DeclaredNames[..12]
    ensures Except(names, Filter(names, IsAngloSaxonName)) == DeclaredNames[12..]
  {
    AngloSaxonList(names);
    LatinList(names);
  }

  lemma AngloSaxonList(names: seq<string>)
    requires IsGetNamesResult(names)
    ensures Filter(names, IsAngloSaxonName) == DeclaredNames[..12]
  {
    AngloSaxonFilterOfDeclared();
    FilterMultiset(names, DeclaredNames, IsAngloSaxonName);
    FilterKeepsOrder(names, IsAngloSaxonName, ValueOf);
    OrderedUnique(Filter(names, IsAngloSaxonName), DeclaredNames[..12], ValueOf);
  }

  /** `Except` on a list without duplicates keeps exactly the non-Anglo-Saxon names. */
  lemma LatinList(names: seq<string>)
    requires IsGetNamesResult(names)
    ensures Except(names, Filter(names, IsAngloSaxonName)) == DeclaredNames[12..]
  {
    MemberNamesDistinct();
    NoDuplicatesShared(names, DeclaredNames);
    var excluded := set x | x in Filter(names, IsAngloSaxonName);
    ExceptIsFilter(names, excluded);
    forall i | 0 <= i < |names|
      ensures (names[i] !in excluded) == NotAngloSaxonName(names[i])
    {
      FilterMember(names, IsAngloSaxonName, names[i]);
    }
    FilterAgree(names, x => x !in excluded, NotAngloSaxonName);
    LatinNamesInOrder(names);
  }

  lemma LatinNamesInOrder(names: seq<string>)
    requires IsGetNamesResult(names)
    ensures Filter(names, NotAngloSaxonName) == DeclaredNames[12..]
  {
    LatinFilterOfDeclared();
    FilterMultiset(names, DeclaredNames, NotAngloSaxonName);
    FilterKeepsOrder(names, NotAngloSaxonName, ValueOf);
    OrderedUnique(Filter(names, NotAngloSaxonName), DeclaredNames[12..], ValueOf);
  }

  /** In declaration order, the filter keeps the first twelve names, in value order. */
  lemma AngloSaxonFilterOfDeclared()
    ensures Filter(DeclaredNames, IsAngloSaxonName) == DeclaredNames[..12]
    ensures IncreasingBy(DeclaredNames[..12], ValueOf)
  {
    AngloSaxonNamesFirst();
    LatinNamesLast();
    FilterPrefix(DeclaredNames, IsAngloSaxonName, 12);
    AngloSaxonNamesIncreasing();
  }

  /** In declaration order, the rest are the last twelve names, in value order. */
  lemma LatinFilterOfDeclared()
    ensures Filter(DeclaredNames, NotAngloSaxonName) == DeclaredNames[12..]
    ensures IncreasingBy(DeclaredNames[12..], ValueOf)
  {
    AngloSaxonNamesFirst();
    LatinNamesLast();
    FilterSuffix(DeclaredNames, NotAngloSaxonName, 12);
    LatinNamesIncreasing();
  }

  lemma AngloSaxonNamesIncreasing()
    ensures IncreasingBy(DeclaredNames[..12], ValueOf)
  {
    var names := DeclaredNames[..12];
    AngloSaxonMemberValues();
    assert forall i :: 0 <= i < 12 ==> ValueOf(names[i]) == i;
  }

  lemma LatinNamesIncreasing()
    ensures IncreasingBy(DeclaredNames[12..], ValueOf)
  {
    var names := DeclaredNames[12..];
    LatinMemberValues();
    assert forall i :: 0 <= i < 12 ==> names[i] == DeclaredNames[12 + i];
    assert forall i :: 0 <= i < 12 ==> ValueOf(names[i]) == i;
  }

  /** The filter accepts the first twelve declared names ... */
  lemma AngloSaxonNamesFirst()
    ensures forall i :: 0 <= i < 12 ==> IsAngloSaxonName(DeclaredNames[i])
  {
  }

  /** ... and rejects the last twelve. */
  lemma LatinNamesLast()
    ensures forall i :: 12 <= i < |DeclaredNames| ==> NotAngloSaxonName(DeclaredNames[i])
  {
  }

  /** Replacing "Sharp" by "#" turns each declared name into its table entry. */
  lemma RenderedNames(v: MusicNote)
    ensures Replace(DeclaredNames[v], "Sharp", "#") == AngloSaxonTable[v]
    ensures Replace(DeclaredNames[12 + v as int], "Sharp", "#") == LatinTable[v]
  {
    RenderedAngloSaxonNames();
    RenderedLatinNames();
  }

  lemma RenderedAngloSaxonNames()
    ensures forall i :: 0 <= i < 12 ==> Replace(DeclaredNames[i], "Sharp", "#") == AngloSaxonTable[i]
  {
  }

  lemma RenderedLatinNames()
    ensures forall i :: 0 <= i < 12 ==> Replace(DeclaredNames[12 + i], "Sharp", "#") == LatinTable[i]
  {
    RenderedLatinNaturals();
    RenderedLatinSharps();
  }

  lemma RenderedLatinNaturals()
    ensures forall i :: i in {0, 2, 4, 5, 7, 9, 11} ==>
      Replace(DeclaredNames[12 + i], "Sharp", "#") == LatinTable[i]
  {
  }

  lemma RenderedLatinSharps()
    ensures forall i :: i in {1, 3, 6, 8, 10} ==>
      Replace(DeclaredNames[12 + i], "Sharp", "#") == LatinTable[i]
  {
    RenderedLatinLowSharps();
    RenderedLatinHighSharps();
  }

  lemma RenderedLatinLowSharps()
    ensures forall i :: i in {1, 3} ==>
      Replace(DeclaredNames[12 + i], "Sharp", "#") == LatinTable[i]
  {
  }

  lemma RenderedLatinHighSharps()
    ensures forall i :: i in {6, 8, 10} ==>
      Replace(DeclaredNames[12 + i], "Sharp", "#") == LatinTable[i]
  {
  }
}
