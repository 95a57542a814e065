/** What several components share: optional values, bytes, and machine word sizes. */
module Common {
  datatype Option<+T> = None | Some(value: T)

  type byte = x: int | 0 <= x < 256

  const TWO32: nat := 0x1_0000_0000
  const TWO64: nat := 0x1_0000_0000_0000_0000

  function Pow256(k: nat): (p: nat)
    ensures p > 0
  {
    if k == 0 then 1 else 256 * Pow256(k - 1)
  }

  predicate Is(b: byte, c: char) { b == c as int }

  // A text ends with a NUL; to look further gives a NUL again.
  function Peek(s: seq<byte>, k: nat): byte {
    if k < |s| then s[k] else 0
  }

  predicate IsHex(b: byte) {
    '0' as int <= b <= '9' as int || 'a' as int <= b <= 'f' as int || 'A' as int <= b <= 'F' as int
  }
}
