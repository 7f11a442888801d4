/** Types shared by every module of the firmware model. */
module Common {
  /** A byte as the peripherals' 8-bit data registers hold it. */
  type byte = bv8

  datatype Option<T> = None | Some(value: T)

  /** Identifies a callback function pointer registered by application code. */
  type CallbackId = nat

  /** Bytes read as the characters of C text, one character per byte. */
  function Chars(data: seq<byte>): (s: string)
    ensures |s| == |data| && forall i :: 0 <= i < |data| ==> s[i] as int == data[i] as int
  {
    seq(|data|, i requires 0 <= i < |data| => (data[i] as int) as char)
  }
}
