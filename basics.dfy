/**
  Shared vocabulary of the model: the byte type, the exceptions the C# code
  throws, and a Result type that stands for "returns a value or throws".
 */
module Basics {

  /** A .NET `byte`: eight bits, arithmetic wraps modulo 256. */
  type byte = bv8

  /** The exceptions the codec can raise, one constructor per throw site. */
  datatype Exception =
    | IndexOutOfRange      // reading past the end of the received byte list
    | NoteOutOfRange       // `new MidiNote(byte)` with a value above 127
    | TypeOutOfRange       // the decoder's channel-voice `default` arm
    | NotImplemented       // the decoder on TimeCodeQuarterFrame
    | MessageTypeUnknown   // the encoder's catch-all arm

  /** Either a value or the exception that was thrown instead. */
  datatype Result<+T> = Ok(value: T) | Throw(error: Exception) {
    predicate IsFailure() { Throw? }

    function PropagateFailure<U>(): Result<U>
      requires Throw?
    {
      Throw(error)
    }

    function Extract(): T
      requires Ok?
    {
      value
    }
  }

  datatype Option<+T> = None | Some(value: T)

  /** `list[i]` on a read-only list: the element, or IndexOutOfRange. */
  function At(s: seq<byte>, i: nat): (r: Result<byte>)
    ensures r.Ok? <==> i < |s|
    ensures r.Ok? ==> r.value == s[i]
    ensures r.Throw? ==> r.error == IndexOutOfRange
  {
    if i < |s| then Ok(s[i]) else Throw(IndexOutOfRange)
  }
}
