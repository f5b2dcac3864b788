/**
  The `MusicNote` enumeration: the twelve pitch classes of an octave, each
  declared under an Anglo-Saxon name and again under a Latin alias.
 */
module MusicNotes {
  import opened Basics
  import opened DotNet

  /** A pitch class, 0 = C up to 11 = B in semitone steps (a byte enum). */
  type MusicNote = v: byte | v < 12

  const C: MusicNote := 0
  const CSharp: MusicNote := 1
  const D: MusicNote := 2
  const DSharp: MusicNote := 3
  const E: MusicNote := 4
  const F: MusicNote := 5
  const FSharp: MusicNote := 6
  const G: MusicNote := 7
  const GSharp: MusicNote := 8
  const A: MusicNote := 9
  const ASharp: MusicNote := 10
  const B: MusicNote := 11

  const Do: MusicNote := C
  const DoSharp: MusicNote := CSharp
  const Re: MusicNote := D
  const ReSharp: MusicNote := DSharp
  const Mi: MusicNote := E
  const Fa: MusicNote := F
  const FaSharp: MusicNote := FSharp
  const Sol: MusicNote := G
  const SolSharp: MusicNote := GSharp
  const La: MusicNote := A
  const LaSharp: MusicNote := ASharp
  const Si: MusicNote := B

  /** The member names in declaration order, as reflection reports them. */
  const DeclaredNames: seq<string> := [
    "C", "CSharp", "D", "DSharp", "E", "F", "FSharp", "G", "GSharp", "A", "ASharp", "B",
    "Do", "DoSharp", "Re", "ReSharp", "Mi", "Fa", "FaSharp", "Sol", "SolSharp", "La", "LaSharp", "Si"
  ]

  /** The value of the member with the given name (12 for a non-member). */
  function ValueOf(name: string): int {
    match name
    case "C" | "Do" => 0
    case "CSharp" | "DoSharp" => 1
    case "D" | "Re" => 2
    case "DSharp" | "ReSharp" => 3
    case "E" | "Mi" => 4
    case "F" | "Fa" => 5
    case "FSharp" | "FaSharp" => 6
    case "G" | "Sol" => 7
    case "GSharp" | "SolSharp" => 8
    case "A" | "La" => 9
    case "ASharp" | "LaSharp" => 10
    case "B" | "Si" => 11
    case _ => 12
  }

  /** The sharps sit at 1, 3, 6, 8 and 10, the naturals at the other seven. */
  predicate IsSharp(n: MusicNote) {
    n in {CSharp, DSharp, FSharp, GSharp, ASharp}
  }

  /** The twelve Anglo-Saxon names come first and take 0..11 in semitone order. */
  lemma AngloSaxonMemberValues()
    ensures |DeclaredNames| == 24
    ensures forall i :: 0 <= i < 12 ==> ValueOf(DeclaredNames[i]) == i
  {
  }

  /** The twelve Latin aliases follow and take 0..11 in the same order. */
  lemma LatinMemberValues()
    ensures forall i :: 12 <= i < 24 ==> ValueOf(DeclaredNames[i]) == i - 12
  {
  }

  /** Each Latin alias has its Anglo-Saxon counterpart's value (Do = C ... Si = B). */
  lemma LatinAliasValues()
    ensures forall i :: 12 <= i < 24 ==> ValueOf(DeclaredNames[i]) == ValueOf(DeclaredNames[i - 12])
  {
    AngloSaxonMemberValues();
    LatinMemberValues();
  }

  /** No name is declared twice, so each value 0..11 has exactly two names. */
  lemma MemberNamesDistinct()
    ensures forall i, j :: 0 <= i < j < |DeclaredNames| ==> DeclaredNames[i] != DeclaredNames[j]
  {
  }

  lemma SharpPositions(n: MusicNote)
    ensures IsSharp(n) <==> n == 1 || n == 3 || n == 6 || n == 8 || n == 10
  {
  }

  /**
    The declared names spell out the sharps: a member name contains "Sharp"
    exactly when its value is 1, 3, 6, 8 or 10, in both namings.
   */
  lemma SharpNames()
    ensures forall i :: 0 <= i < |DeclaredNames| ==>
      (Contains(DeclaredNames[i], "Sharp") <==> ValueOf(DeclaredNames[i]) in {1, 3, 6, 8, 10})
  {
    SharpNamesC();
    SharpNamesE();
    SharpNamesGSharp();
    SharpNamesDo();
    SharpNamesMi();
    SharpNamesSolSharp();
  }

  lemma SharpNamesC()
    ensures forall i :: 0 <= i < 4 ==>
      (Contains(DeclaredNames[i], "Sharp") <==> ValueOf(DeclaredNames[i]) in {1, 3, 6, 8, 10})
  {
  }

  lemma SharpNamesE()
    ensures forall i :: 4 <= i < 8 ==>
      (Contains(DeclaredNames[i], "Sharp") <==> ValueOf(DeclaredNames[i]) in {1, 3, 6, 8, 10})
  {
  }

  lemma SharpNamesGSharp()
    ensures forall i :: 8 <= i < 12 ==>
      (Contains(DeclaredNames[i], "Sharp") <==> ValueOf(DeclaredNames[i]) in {1, 3, 6, 8, 10})
  {
  }

  lemma SharpNamesDo()
    ensures forall i :: 12 <= i < 16 ==>
      (Contains(DeclaredNames[i], "Sharp") <==> ValueOf(DeclaredNames[i]) in {1, 3, 6, 8, 10})
  {
  }

  lemma SharpNamesMi()
    ensures forall i :: 16 <= i < 20 ==>
      (Contains(DeclaredNames[i], "Sharp") <==> ValueOf(DeclaredNames[i]) in {1, 3, 6, 8, 10})
  {
  }

  lemma SharpNamesSolSharp()
    ensures forall i :: 20 <= i < 24 ==>
      (Contains(DeclaredNames[i], "Sharp") <==> ValueOf(DeclaredNames[i]) in {1, 3, 6, 8, 10})
  {
  }
}
