# Version-4 UUID generation (tbox `hash/uuid.c`)

This project models the UUID generator of the tbox C library in Dafny and
proves its properties. The generator makes a version-4 UUID, as in section
4.4 of RFC 4122, in four steps:

1. **Xorshift128+ step** (`Xorshift`). A two-word 64-bit state is advanced
   in place, and each advance returns a wrapping 64-bit sum.
2. **Seeding** (`Uuid.NameWords`, `Uuid.AmbientWords`).
   - With a name, the 16-byte MD5 digest of the name is viewed as a generator
     state and advanced twice.
   - Without a name, a process-wide ambient state is used. It is filled from
     the clock only while both of its words are zero. Each call advances it
     twice and stores each result back into it.
   - The two results are the seed, viewed as 16 bytes through a union.
3. **Nibble walk** (`Layout.Generate`). The 32 nibbles of the seed bytes are
   walked into the UUID bytes:
   - the version nibble 4 is forced at output position 12;
   - the variant nibble `10xx` is forced at position 16;
   - a separate raw-nibble cursor skips the version position, so the high
     nibble of the last seed byte is never used.
4. **Canonical text** (`Canonical.Render`, `Uuid.WriteCstr`). The UUID is
   rendered as 36 characters: upper-case hexadecimal digits, high nibble
   first, hyphens at offsets 8, 13, 18 and 23, then a NUL terminator.

The entry points are:
- `Uuid.Make4` and `Uuid.MakeCstr4`, which model `tb_uuid4_make` and
  `tb_uuid4_make_cstr`;
- `Uuid.Make` and `Uuid.MakeCstr`, the generic wrappers that delegate to them.

Modules:
- `Wrappers`: `Option`, which stands for a C pointer that may be null.
- `Xorshift`: the generator step, as a class `State` with two `bv64` fields.
- `Layout`: the nibble walk as an array method, and its specification
  `Assemble` with lemmas on the version, variant and kept bits.
- `Canonical`: the rendering as a function, and a parser `Parse` that is its
  inverse.
- `Uuid`:
  - the little-endian union view;
  - the two seeding modes, with the ambient state as an `Xorshift.State`
    object and the clock as a `Clock` object;
  - the entry points.

## Model

| member | source | states |
|---|---|---|
| Xorshift.State.Advance | src/tbox/hash/uuid.c:38-46 | s[0] becomes the old s[1]. s[1] becomes the old s[0] shifted and folded with the old s[1]. The result is the new s[1] plus the old s[1], wrapping at 2^64. Nothing but the two state words changes. |
| Xorshift.MixZero | src/tbox/hash/uuid.c:43-44 | When the old s[1] is zero, the new s[1] is zero only if the old s[0] was zero. |
| Xorshift.NextNonZero | src/tbox/hash/uuid.c:38-46 | A state that is not all zero is still not all zero after an advance. |
| Layout.RawNibble | src/tbox/hash/uuid.c:61-62 | The nibble read at cursor i is below 16: the low nibble of byte i/2 for even i, the high nibble for odd i. |
| Layout.PackUnpack | src/tbox/hash/uuid.c:74 | Packing two nibbles as c1*16+c2 and splitting the byte again gives back c1 as the high nibble and c2 as the low nibble. |
| Layout.Generate | src/tbox/hash/uuid.c:47-78 | Always returns true and leaves uuid equal to Assemble(buffer). The loop invariant keeps the cursor i at Cursor(t): it advances on every step except t == 12 and ends at 31, so every buffer read is in range. |
| Layout.NibblesOfAssemble | src/tbox/hash/uuid.c:61-75 | Output nibble t of the UUID is: raw nibble t for t < 12; 4 at t == 12; (raw nibble 15 & 3) + 8 at t == 16; raw nibble t-1 for the other t > 12. |
| Layout.VersionNibble | src/tbox/hash/uuid.c:68-74 | For every buffer, byte 6 of the UUID has high nibble 4. |
| Layout.VariantBits | src/tbox/hash/uuid.c:63-74 | For every buffer, byte 8 of the UUID has top bits 10 and lies in 0x80..0xBF. Its next two bits are the low two bits of raw nibble 15. |
| Layout.SameUuidIff | src/tbox/hash/uuid.c:59-75 | Two buffers give the same UUID exactly when they agree on raw nibbles 0..30 other than 15, and on the low two bits of raw nibble 15. |
| Layout.LastNibbleIgnored | src/tbox/hash/uuid.c:59-72 | Changing the high nibble of buffer byte 15 (raw nibble 31) never changes the UUID. |
| Canonical.DigitValue | src/tbox/hash/uuid.c:135 | A character has a value exactly when it is one of "0123456789ABCDEF". That value is below 16 and indexes the character in the digit table. |
| Canonical.Hex | src/tbox/hash/uuid.c:135-193 | The digit-table character of a nibble reads back as that nibble. |
| Canonical.NibbleOf | src/tbox/hash/uuid.c:137-193 | Nibble t of the bytes, high nibble first, is below 16. |
| Canonical.HexDigits | src/tbox/hash/uuid.c:137-193 | The digits of n bytes are 2n characters, and every one is a digit-table character. |
| Canonical.ParseDigits | src/tbox/hash/uuid.c:135-193 | Reading an even-length digit string gives, on success, half as many bytes. |
| Canonical.DigitOffset | src/tbox/hash/uuid.c:137-193 | Digit j of the 32 sits below offset 36 and not at a hyphen offset. Leaving out the hyphens before it gives back j. |
| Canonical.Render | src/tbox/hash/uuid.c:137-193 | The text has 36 characters. The character at k is '-' exactly when k is 8, 13, 18 or 23. Every other character is a digit, and digit j reads back as nibble j of the bytes, high nibble first. |
| Canonical.RenderAt | src/tbox/hash/uuid.c:137-193 | A non-hyphen offset of the text holds the digit of its nibble. |
| Canonical.RenderByte | src/tbox/hash/uuid.c:137-193 | Byte j appears as two digits at the offsets of digits 2j and 2j+1: the high nibble, then the low nibble. |
| Canonical.HexDigitsAt | src/tbox/hash/uuid.c:137-193 | Digit j of HexDigits(u) is the digit of nibble j. |
| Canonical.ParseHexDigits | src/tbox/hash/uuid.c:137-193 | Reading back the digits of any bytes gives those bytes. |
| Canonical.HexDigitsOfParse | src/tbox/hash/uuid.c:137-193 | Any digit string that reads back as some bytes is exactly the digits of those bytes. |
| Canonical.UngroupRender | src/tbox/hash/uuid.c:137-193 | With its hyphens left out, the text is the 32 digits of the bytes in order. |
| Canonical.ParseRender | src/tbox/hash/uuid.c:135-195 | Reading the text of any 16 bytes gives back those 16 bytes. |
| Canonical.UngroupInjective | src/tbox/hash/uuid.c:150-171 | Two texts with hyphens at 8, 13, 18 and 23 are equal when their digits are equal. |
| Canonical.RenderParse | src/tbox/hash/uuid.c:135-195 | Every string that reads back as bytes is the text of those bytes, so each UUID has exactly one text. |
| Uuid.LeWordOfBytes | src/tbox/hash/uuid.c:97-105 | Reading the little-endian bytes of a word back as a word gives that word. |
| Uuid.BytesOfLeWord | src/tbox/hash/uuid.c:97-105 | Writing the word read from 8 bytes gives back those 8 bytes. The union's two views agree. |
| Uuid.NameWords | src/tbox/hash/uuid.c:98-106 | The seed words in name mode are NameSeed(md5(name)): the digest, viewed as a state, advanced twice, keeping both results. |
| Uuid.AmbientWords | src/tbox/hash/uuid.c:107-120 | Both state words are read from the clock, first s[0] then s[1], only when both words were zero; otherwise the clock is not read. The state then takes two advance-and-store steps, and the seed words are the new state. |
| Uuid.AmbientAdvanceNonZero | src/tbox/hash/uuid.c:116-117 | An ambient state that is not all zero is still not all zero after a call. |
| Uuid.AmbientNeverResets | src/tbox/hash/uuid.c:110-117 | Once the ambient state is not all zero, a call reads no clock and leaves the state not all zero. |
| Uuid.AmbientKeepsMixedWord | src/tbox/hash/uuid.c:116-117 | From the state (0, 1), the first result is 2, but s[0] ends up holding 1: the word the second advance moved there, not the first result. |
| Uuid.Draw | src/tbox/hash/uuid.c:97-123 | The UUID is the walk of the seed's 16-byte view, and the walk succeeds. |
| Uuid.Make4 | src/tbox/hash/uuid.c:91-124 | A null uuid gives false and changes nothing. With a name, the UUID depends only on the name's digest, and neither the ambient state nor the clock changes. Without a name, the ambient state and the clock follow AmbientCall, and the UUID is the walk of the new ambient state. |
| Uuid.WriteCstr | src/tbox/hash/uuid.c:134-194 | The first 36 characters are the canonical text of the 16 bytes, and character 36 is NUL. |
| Uuid.MakeCstr4 | src/tbox/hash/uuid.c:125-196 | A null buffer gives null and changes nothing. Otherwise the buffer itself is returned, holding a NUL-terminated canonical text of the UUID Make4 makes, with the same effects on the ambient state and the clock. |
| Uuid.RenderedMarkers | src/tbox/hash/uuid.c:150-160 | In the text of every UUID from the walk, offset 14 is '4' and offset 19 is one of 8, 9, A or B. |
| Uuid.Make | src/tbox/hash/uuid.c:83-86 | Delegates to Make4, with the same contract. |
| Uuid.MakeCstr | src/tbox/hash/uuid.c:87-90 | Delegates to MakeCstr4, with the same contract. |

## Left out

- MD5 (`tb_md5_make`) is a function parameter `md5` from bytes to a 16-byte digest; src/tbox/hash/md5.c is not part of this model.
- The clock (`tb_uclock`) is a `Clock` object that returns its n-th reading, already cast to an unsigned 64-bit word.
- The static `s_seed` is an `Xorshift.State` object passed to each call; its byte view is never used and is not modelled.
- The name is modelled as its bytes, with `None` for a null name. `tb_strlen` and NUL termination of the name are not modelled.
- Host byte order is fixed as little-endian for the union of 16 bytes and two 64-bit words; big-endian hosts are not modelled.
- Concurrency: the unguarded static state is modelled single-threaded.
- Debug builds: `tb_assert_and_check_return_val` is modelled only by its check-and-return behaviour; the debug-build abort is not.
- Statistical quality of the generator and non-repetition of UUIDs are probabilistic and not stated.
- Xorshift.State.Advance: the generator is not shown to be invertible; only the preservation of a non-zero state is proved.
- Layout.Generate: the counters `i`, `n`, `c1` and `c2` are `int` in C. Here `n`, `c1` and `c2` are `bv8`, which gives the same value as the `(tb_byte_t)` cast at the store. `i >> 1`, `i & 1`, `t >> 1` and `t & 1` are written as division and remainder by 2, which is the same for the non-negative values they take.
- Uuid.WriteCstr: the 36 single-character stores are one parallel assignment, so their order is not modelled. The source masks the shifted high nibble with 15, which changes nothing for a byte, so the model writes `Hex(NibbleOf(...))` for it.
- Uuid.MakeCstr4: the source returns null when making the bytes fails. Make4 cannot fail on a buffer of its own, so that branch has no counterpart.
- src/tbox/platform/file.c (`tb_file_is_same`, `tb_file_fscase` and the platform stubs) is file I/O outside the UUID generator and is not part of this model.
