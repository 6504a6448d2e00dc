/** Machine integer widths, bytes and Option, shared by the other modules. */
module Common {

  /** A byte of a UUID or of application-area data; a bit-vector so that the UUID check bytes can be XORed. Title, which does arithmetic on its bytes, uses `uint8` instead. */
  type byte = bv8

  type uint8 = x: int | 0 <= x < 0x100
  type uint16 = x: int | 0 <= x < 0x1_0000
  type uint32 = x: int | 0 <= x < 0x1_0000_0000
  type uint64 = x: int | 0 <= x < 0x1_0000_0000_0000_0000
  type int32 = x: int | -0x8000_0000 <= x < 0x8000_0000
  type int64 = x: int | -0x8000_0000_0000_0000 <= x < 0x8000_0000_0000_0000

  /** A C# unchecked cast `(uint)x`: the value modulo 2^32. */
  function ToUInt32(x: int): (r: uint32)
    ensures 0 <= x < 0x1_0000_0000 ==> r == x
    ensures (r - x) % 0x1_0000_0000 == 0
  {
    x % 0x1_0000_0000
  }

  /** A C# unchecked cast `(ushort)x`. */
  function ToUInt16(x: int): (r: uint16)
    ensures 0 <= x < 0x1_0000 ==> r == x
    ensures (r - x) % 0x1_0000 == 0
  {
    x % 0x1_0000
  }

  /** A C# unchecked cast `(byte)x`. */
  function ToUInt8(x: int): (r: uint8)
    ensures 0 <= x < 0x100 ==> r == x
    ensures (r - x) % 0x100 == 0
  {
    x % 0x100
  }

  /** A reference that may be null, or a value that may be absent. */
  datatype Option<T> = None | Some(value: T)

  /** `Array.Reverse` on a sequence. */
  function Reverse<T>(s: seq<T>): (r: seq<T>)
    ensures |r| == |s|
    decreases |s|
  {
    if s == [] then [] else Reverse(s[1..]) + [s[0]]
  }
}
