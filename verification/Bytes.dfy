/** Bytes, little-endian numbers and the outcome of decoding. */
module Bytes {
  type byte = bv8

  type u16 = n: nat | n < 0x1_0000

  datatype DecodeError =
    | FrameLength | FrameHeader | FrameChecksum | FrameTail
    | CtrlField | InfoFieldSize | AddressLength | AppDataLength | UnknownAfn | WrongFn | DataLength | IdFormat

  /** `Fault` stands for an evaluation the program does not survive: an index outside a
      slice or an arithmetic overflow, which panic, or a loop without end. */
  datatype Decoded<+T> = Good(value: T) | Bad(error: DecodeError) | Fault

  /** The byte of value `n`, by counting: the solver follows this far more easily than a
      conversion of an integer to bits. */
  function ToByte(n: nat): (b: byte)
    requires n < 256
    ensures b as nat == n
  {
    if n == 0 then 0 else ToByte(n - 1) + 1
  }

  lemma SameByte(a: byte, b: byte)
    requires a as nat == b as nat
    ensures a == b
  {
  }

  function Le16(lo: byte, hi: byte): u16 {
    (hi as nat) * 256 + lo as nat
  }

  function ToLe16(n: u16): (bytes: seq<byte>)
    ensures |bytes| == 2 && Le16(bytes[0], bytes[1]) == n
  {
    [ToByte(n % 256), ToByte(n / 256)]
  }

  lemma Le16Inverse(lo: byte, hi: byte)
    ensures ToLe16(Le16(lo, hi)) == [lo, hi]
  {
    var bytes := ToLe16(Le16(lo, hi));
    SameByte(bytes[0], lo);
    SameByte(bytes[1], hi);
  }

  /** The low byte comes first. */
  lemma LowFirst(n: u16)
    ensures ToLe16(n)[0] as nat == n % 256 && ToLe16(n)[1] as nat == n / 256
    ensures ToLe16(n)[0] as nat + 256 * ToLe16(n)[1] as nat == n
  {
  }
}
