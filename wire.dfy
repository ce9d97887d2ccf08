/**
 * The two TLV wire formats. Every header field is a big-endian unsigned
 * 32-bit word (Ruby's `unpack('N')`).
 *
 *   version 1 (IOS XR 6.0): [length][type][inner length][payload]
 *   version 2 (IOS XR 6.1): [type][flags][length][payload]
 */
module Wire {
  import opened Values

  /** Bytes awaited for a version 1 header, and first for every stream. */
  const HeaderLengthV1: nat := 4
  /** Bytes awaited for a version 2 header. */
  const HeaderLengthV2: nat := 12

  const TypeCompressorReset: nat := 1
  const TypeJson: nat := 2
  const TypeGpbCompact: nat := 3
  const TypeGpbKv: nat := 4

  const Word: nat := 0x1_0000_0000
  type U32 = n: nat | n < Word

  /** `unpack('N')` of the first four bytes. */
  function ReadU32(b: Bytes): (n: U32)
    requires |b| >= 4
  {
    (((b[0] as nat) * 0x100 + b[1] as nat) * 0x100 + b[2] as nat) * 0x100 + b[3] as nat
  }

  /** `[n].pack('N')` */
  function WriteU32(n: U32): (b: Bytes)
    ensures |b| == 4
  {
    var n1 := n / 0x100;
    var n2 := n1 / 0x100;
    [(n2 / 0x100) as byte, (n2 % 0x100) as byte, (n1 % 0x100) as byte, (n % 0x100) as byte]
  }

  lemma DivMod256(q: nat, r: nat)
    requires r < 0x100
    ensures (q * 0x100 + r) / 0x100 == q && (q * 0x100 + r) % 0x100 == r
  {
  }

  lemma ReadWriteU32(n: U32)
    ensures ReadU32(WriteU32(n)) == n
  {
    var n1 := n / 0x100;
    var n2 := n1 / 0x100;
    assert n == n1 * 0x100 + n % 0x100;
    assert n1 == n2 * 0x100 + n1 % 0x100;
    assert n2 == (n2 / 0x100) * 0x100 + n2 % 0x100;
  }

  lemma WriteReadU32(b: Bytes)
    requires |b| == 4
    ensures WriteU32(ReadU32(b)) == b
  {
    var n2 := (b[0] as nat) * 0x100 + b[1] as nat;
    var n1 := n2 * 0x100 + b[2] as nat;
    var n := n1 * 0x100 + b[3] as nat;
    DivMod256(n1, b[3] as nat);
    DivMod256(n2, b[2] as nat);
    DivMod256(b[0] as nat, b[1] as nat);
    assert ReadU32(b) == n;
  }

  /** Reading a word looks only at the first four bytes. */
  lemma ReadU32Prefix(b: Bytes, rest: Bytes)
    requires |b| >= 4
    ensures ReadU32(b + rest) == ReadU32(b)
  {
    assert (b + rest)[..4] == b[..4];
  }

  /** A version 2 frame. */
  function V2Frame(msgType: U32, flags: U32, payload: Bytes): (f: Bytes)
    requires |payload| < Word
    ensures |f| == HeaderLengthV2 + |payload|
  {
    WriteU32(msgType) + WriteU32(flags) + WriteU32(|payload|) + payload
  }

  /**
   * A version 1 frame. Its leading length counts the inner type and inner
   * length words, the payload and any trailing bytes of the block.
   */
  function V1Frame(msgType: U32, payload: Bytes, trailer: Bytes): (f: Bytes)
    requires 8 + |payload| + |trailer| < Word && |payload| < Word
    ensures |f| == HeaderLengthV1 + 8 + |payload| + |trailer|
  {
    WriteU32(8 + |payload| + |trailer|) + WriteU32(msgType) + WriteU32(|payload|) + payload + trailer
  }
}
