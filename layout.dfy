/** The layout assembler: walks the 32 nibbles of 16 pseudo-random bytes and
    packs them into a version-4, RFC 4122 variant UUID, forcing the version
    nibble at output position 12 and the variant nibble at position 16. */
module Layout {

  /** Raw nibble k of the buffer: byte k / 2, low nibble first. */
  function RawNibble(b: seq<bv8>, k: nat): (n: bv8)
    requires |b| == 16 && k < 32
    ensures n < 16
  {
    if k % 2 == 0 then b[k / 2] & 0xF else b[k / 2] >> 4
  }

  /** The raw-nibble cursor at the start of output step t: it advances on
      every step except step 12. */
  function Cursor(t: nat): nat
  {
    if t <= 12 then t else t - 1
  }

  /** Output nibble t of the walk. */
  function OutNibble(b: seq<bv8>, t: nat): (n: bv8)
    requires |b| == 16 && t < 32
  {
    if t == 12 then 4
    else if t == 16 then (RawNibble(b, Cursor(t)) & 0x3) + 8
    else RawNibble(b, Cursor(t))
  }

  /** The 16 UUID bytes: output nibbles 2k and 2k + 1 packed high nibble first. */
  function Assemble(b: seq<bv8>): (u: seq<bv8>)
    requires |b| == 16
    ensures |u| == 16
  {
    seq(16, k requires 0 <= k < 16 => OutNibble(b, 2 * k) * 16 + OutNibble(b, 2 * k + 1))
  }

  /** Nibble t of a 16-byte value: byte t / 2, high nibble first. */
  function UuidNibble(u: seq<bv8>, t: nat): (n: bv8)
    requires |u| == 16 && t < 32
    ensures n < 16
  {
    if t % 2 == 0 then u[t / 2] >> 4 else u[t / 2] & 0xF
  }

  lemma PackUnpack(hi: bv8, lo: bv8)
    requires hi < 16 && lo < 16
    ensures (hi * 16 + lo) >> 4 == hi && (hi * 16 + lo) & 0xF == lo
  {
  }

  /** Reading the assembled bytes back nibble by nibble, high nibble first,
      gives raw nibble t before the version nibble, the version 4 at 12, the
      variant nibble built from raw nibble 15 at 16, and raw nibble t - 1 at
      every other position after 12. */
  lemma {:induction false} NibblesOfAssemble(b: seq<bv8>, t: nat)
    requires |b| == 16 && t < 32
    ensures UuidNibble(Assemble(b), t) ==
      if t < 12 then RawNibble(b, t)
      else if t == 12 then 4
      else if t == 16 then (RawNibble(b, 15) & 0x3) + 8
      else RawNibble(b, t - 1)
  {
    var k := t / 2;
    PackUnpack(OutNibble(b, 2 * k), OutNibble(b, 2 * k + 1));
  }

  /** Byte 6 carries the version: its high nibble is 4. */
  lemma VersionNibble(b: seq<bv8>)
    requires |b| == 16
    ensures Assemble(b)[6] >> 4 == 4
  {
    NibblesOfAssemble(b, 12);
  }

  /** Byte 8 carries the RFC 4122 variant: its two top bits are 10, and the
      next two bits are the low bits of raw nibble 15. */
  lemma VariantBits(b: seq<bv8>)
    requires |b| == 16
    ensures Assemble(b)[8] >> 6 == 2
    ensures (Assemble(b)[8] >> 4) & 0x3 == RawNibble(b, 15) & 0x3
    ensures 0x80 <= Assemble(b)[8] <= 0xBF
  {
    NibblesOfAssemble(b, 16);
  }

  /** Two buffers agree on every raw bit the walk keeps: raw nibbles 0..30
      except nibble 15, of which only the two low bits are kept. */
  predicate KeptBitsAgree(b: seq<bv8>, c: seq<bv8>)
    requires |b| == 16 && |c| == 16
  {
    (forall k :: 0 <= k < 31 && k != 15 ==> RawNibble(b, k) == RawNibble(c, k)) &&
    RawNibble(b, 15) & 0x3 == RawNibble(c, 15) & 0x3
  }

  /** Two buffers give the same UUID exactly when they agree on the kept bits:
      the 122 kept bits pass through unchanged, and raw nibble 31 (the high
      nibble of byte 15) and the top two bits of raw nibble 15 are dropped. */
  lemma {:induction false} SameUuidIff(b: seq<bv8>, c: seq<bv8>)
    requires |b| == 16 && |c| == 16
    ensures Assemble(b) == Assemble(c) <==> KeptBitsAgree(b, c)
  {
    if Assemble(b) == Assemble(c) {
      forall k | 0 <= k < 31 && k != 15
        ensures RawNibble(b, k) == RawNibble(c, k)
      {
        var t := if k < 12 then k else k + 1;
        NibblesOfAssemble(b, t);
        NibblesOfAssemble(c, t);
      }
      NibblesOfAssemble(b, 16);
      NibblesOfAssemble(c, 16);
      assert (RawNibble(b, 15) & 0x3) + 8 == (RawNibble(c, 15) & 0x3) + 8;
    }
    if KeptBitsAgree(b, c) {
      forall k | 0 <= k < 16
        ensures Assemble(b)[k] == Assemble(c)[k]
      {
        assert OutNibble(b, 2 * k) == OutNibble(c, 2 * k);
        assert OutNibble(b, 2 * k + 1) == OutNibble(c, 2 * k + 1);
      }
    }
  }

  /** The high nibble of the last buffer byte (raw nibble 31) never reaches
      the UUID. */
  lemma LastNibbleIgnored(b: seq<bv8>, x: bv8)
    requires |b| == 16 && x < 16
    ensures Assemble(b[15 := (b[15] & 0xF) | (x << 4)]) == Assemble(b)
  {
    var c := b[15 := (b[15] & 0xF) | (x << 4)];
    forall k | 0 <= k < 31 && k != 15
      ensures RawNibble(b, k) == RawNibble(c, k)
    {
      if k / 2 == 15 {
        assert k == 30;
      }
    }
    SameUuidIff(b, c);
  }

  /** Builds the UUID in uuid from the 16 bytes of buffer, always succeeding. */
  method Generate(uuid: array<bv8>, buffer: array<bv8>) returns (ok: bool)
    requires uuid.Length == 16 && buffer.Length == 16 && uuid != buffer
    modifies uuid
    ensures ok
    ensures uuid[..] == Assemble(buffer[..])
  {
    var i := 0;
    var n: bv8 := 0;
    var c1: bv8 := 0;
    var c2: bv8 := 0;
    for t := 0 to 32
      invariant i == Cursor(t) && i <= t
      invariant 0 < t ==> c1 == OutNibble(buffer[..], t - 1)
      invariant forall k :: 0 <= k < t / 2 ==> uuid[k] == Assemble(buffer[..])[k]
    {
      n := buffer[i / 2];
      n := if i % 2 == 1 then n >> 4 else n & 0xF;
      if t == 16 {
        c2 := (n & 0x3) + 8;
        i := i + 1;
      } else if t == 12 {
        c2 := 4;
      } else {
        c2 := n;
        i := i + 1;
      }
      if t % 2 == 1 {
        uuid[t / 2] := c1 * 16 + c2;
      }
      c1 := c2;
    }
    return true;
  }
}
