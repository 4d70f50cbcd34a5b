/** Types shared by every part of the model. */
module Common {

  datatype Option<+T> = None | Some(value: T) {
    predicate IsFailure() {
      None?
    }

    function PropagateFailure<U>(): Option<U>
      requires None?
    {
      None
    }

    function Extract(): T
      requires Some?
    {
      value
    }
  }

  datatype Result<+T, +E> = Ok(value: T) | Err(error: E) {
    predicate IsFailure() {
      Err?
    }

    function PropagateFailure<U>(): Result<U, E>
      requires Err?
    {
      Err(error)
    }

    function Extract(): T
      requires Ok?
    {
      value
    }
  }

  type Byte = x: int | 0 <= x < 256

  /** A Rust `String` is its UTF-8 bytes, so texts are byte sequences too. */
  type Bytes = seq<Byte>

  const U16_MAX := 0xFFFF
  const U32_MAX := 0xFFFF_FFFF
  const U64_MAX := 0xFFFF_FFFF_FFFF_FFFF

  /** BLAKE3 hashes and peer identities are both 32 raw bytes. */
  type Key32 = b: Bytes | |b| == 32 witness seq(32, _ => 0)
  type Hash = Key32
  type PeerId = Key32

  datatype BlobFormat = Raw | HashSeq

  predicate IsAscii(text: Bytes) {
    forall i :: 0 <= i < |text| ==> text[i] < 128
  }
}
