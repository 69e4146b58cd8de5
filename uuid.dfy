/** Making a version-4 UUID: seeding the bit generator from a name's digest or
    from the process-wide ambient state, drawing 16 bytes, laying them out and
    rendering them. */
module Uuid {

  import opened Wrappers
  import Xorshift
  import Layout
  import Canonical

  /** A 16-byte digest, as produced by the hash of a name. */
  type Digest = d: seq<bv8> | |d| == 16 witness seq(16, _ => 0)

  // The seed is a union of 16 bytes and two 64-bit words; the byte view of a
  // word is taken little-endian.

  /** The word whose little-endian bytes are b0 .. b7. */
  function WordOf(b0: bv8, b1: bv8, b2: bv8, b3: bv8, b4: bv8, b5: bv8, b6: bv8, b7: bv8): bv64
  {
    (b0 as bv64) | ((b1 as bv64) << 8) | ((b2 as bv64) << 16) | ((b3 as bv64) << 24) |
    ((b4 as bv64) << 32) | ((b5 as bv64) << 40) | ((b6 as bv64) << 48) | ((b7 as bv64) << 56)
  }

  /** The word whose little-endian bytes are b. */
  function LeWord(b: seq<bv8>): bv64
    requires |b| == 8
  {
    WordOf(b[0], b[1], b[2], b[3], b[4], b[5], b[6], b[7])
  }

  /** The little-endian bytes of a word. */
  function WordBytes(w: bv64): (b: seq<bv8>)
    ensures |b| == 8
  {
    [(w & 0xFF) as bv8, ((w >> 8) & 0xFF) as bv8, ((w >> 16) & 0xFF) as bv8, ((w >> 24) & 0xFF) as bv8,
     ((w >> 32) & 0xFF) as bv8, ((w >> 40) & 0xFF) as bv8, ((w >> 48) & 0xFF) as bv8, ((w >> 56) & 0xFF) as bv8]
  }

  /** The byte view of the two seed words. */
  function SeedBytes(w0: bv64, w1: bv64): (b: seq<bv8>)
    ensures |b| == 16
  {
    WordBytes(w0) + WordBytes(w1)
  }

  lemma WordOfBytes(w: bv64)
    ensures WordOf((w & 0xFF) as bv8, ((w >> 8) & 0xFF) as bv8, ((w >> 16) & 0xFF) as bv8, ((w >> 24) & 0xFF) as bv8,
      ((w >> 32) & 0xFF) as bv8, ((w >> 40) & 0xFF) as bv8, ((w >> 48) & 0xFF) as bv8, ((w >> 56) & 0xFF) as bv8) == w
  {
  }

  lemma BytesOfWordOf(b0: bv8, b1: bv8, b2: bv8, b3: bv8, b4: bv8, b5: bv8, b6: bv8, b7: bv8)
    ensures WordBytes(WordOf(b0, b1, b2, b3, b4, b5, b6, b7)) == [b0, b1, b2, b3, b4, b5, b6, b7]
  {
  }

  /** Reading a word's bytes back gives the word. */
  lemma LeWordOfBytes(w: bv64)
    ensures LeWord(WordBytes(w)) == w
  {
    var x0, x1, x2, x3 := (w & 0xFF) as bv8, ((w >> 8) & 0xFF) as bv8, ((w >> 16) & 0xFF) as bv8, ((w >> 24) & 0xFF) as bv8;
    var x4, x5, x6, x7 := ((w >> 32) & 0xFF) as bv8, ((w >> 40) & 0xFF) as bv8, ((w >> 48) & 0xFF) as bv8, ((w >> 56) & 0xFF) as bv8;
    assert WordBytes(w) == [x0, x1, x2, x3, x4, x5, x6, x7];
    WordOfBytes(w);
  }

  /** Writing a word read from 8 bytes gives the bytes back: the two views of
      the union agree. */
  lemma BytesOfLeWord(b: seq<bv8>)
    requires |b| == 8
    ensures WordBytes(LeWord(b)) == b
  {
    BytesOfWordOf(b[0], b[1], b[2], b[3], b[4], b[5], b[6], b[7]);
  }

  /** The two seed words in name mode: the digest, viewed as the state
      (s[0], s[1]), advanced twice; the words are the two returned values. */
  function NameSeed(d: Digest): (bv64, bv64)
  {
    var a0, a1 := LeWord(d[..8]), LeWord(d[8..]);
    var m1 := Xorshift.Mix(a0, a1);
    (Xorshift.Add(m1, a1), Xorshift.Add(Xorshift.Mix(a1, m1), m1))
  }

  /** The UUID that name mode makes from a digest. */
  function FromDigest(d: Digest): (u: seq<bv8>)
    ensures |u| == 16
  {
    var (w0, w1) := NameSeed(d);
    Layout.Assemble(SeedBytes(w0, w1))
  }

  /** The ambient state after one no-name call that starts from (w0, w1):
      advance and store the result in s[0], then advance and store the result
      in s[1].  The second advance leaves in s[0] the word it moved there from
      s[1], so s[0] ends up holding the first mixed word, not the first result. */
  function AmbientAdvance(w0: bv64, w1: bv64): (bv64, bv64)
  {
    var m1 := Xorshift.Mix(w0, w1);
    var r1 := Xorshift.Add(m1, w1);
    (m1, Xorshift.Add(Xorshift.Mix(r1, m1), m1))
  }

  /** How one no-name call changes the ambient state and the clock: the clock
      is read twice, to fill both words, only when both words are zero; then
      the state takes two advance-and-store steps. */
  predicate AmbientCall(w0: bv64, w1: bv64, taken: nat, reading: nat -> bv64,
                        w0': bv64, w1': bv64, taken': nat)
  {
    var lazy := w0 == 0 && w1 == 0;
    var start := if lazy then (reading(taken), reading(taken + 1)) else (w0, w1);
    (w0', w1') == AmbientAdvance(start.0, start.1) &&
    taken' == taken + (if lazy then 2 else 0)
  }

  lemma AddZero(a: bv64, b: bv64)
    requires a == 0
    ensures Xorshift.Add(a, b) == b && Xorshift.Add(b, a) == b
  {
  }

  /** An ambient state that is not all zero is still not all zero after a call. */
  lemma AmbientAdvanceNonZero(w0: bv64, w1: bv64)
    requires w0 != 0 || w1 != 0
    ensures AmbientAdvance(w0, w1) != (0, 0)
  {
    var m1 := Xorshift.Mix(w0, w1);
    var r1 := Xorshift.Add(m1, w1);
    var m2 := Xorshift.Mix(r1, m1);
    if m1 == 0 && Xorshift.Add(m2, m1) == 0 {
      AddZero(m1, w1);
      AddZero(m1, m2);
      Xorshift.MixZero(r1, m1);
      Xorshift.MixZero(w0, w1);
    }
  }

  /** The ambient call keeps in s[0] the word the second advance moved there,
      not the first result: from the state (0, 1) the first result is 2, but
      s[0] ends up holding 1. */
  lemma AmbientKeepsMixedWord()
    ensures Xorshift.Add(Xorshift.Mix(0, 1), 1) == 2
    ensures AmbientAdvance(0, 1).0 == 1
  {
  }

  /** Once the ambient state is not all zero it is never reset: later calls
      do not read the clock, and leave the state not all zero. */
  lemma AmbientNeverResets(w0: bv64, w1: bv64, taken: nat, reading: nat -> bv64,
                           w0': bv64, w1': bv64, taken': nat)
    requires w0 != 0 || w1 != 0
    requires AmbientCall(w0, w1, taken, reading, w0', w1', taken')
    ensures taken' == taken
    ensures w0' != 0 || w1' != 0
  {
    AmbientAdvanceNonZero(w0, w1);
  }

  /** A clock source: the value of the n-th reading, as an unsigned 64-bit
      word, and the number of readings taken so far. */
  class Clock {
    const Reading: nat -> bv64
    var taken: nat

    constructor (reading: nat -> bv64)
      ensures Reading == reading && taken == 0
    {
      Reading := reading;
      taken := 0;
    }

    /** Takes the next reading. */
    method Now() returns (t: bv64)
      modifies this
      ensures taken == old(taken) + 1 && t == Reading(old(taken))
    {
      t := Reading(taken);
      taken := taken + 1;
    }
  }

  /** The two seed words in name mode: the digest of the name, viewed as a
      generator state, advanced twice. */
  method NameWords(name: seq<bv8>, md5: seq<bv8> -> Digest) returns (w0: bv64, w1: bv64)
    ensures (w0, w1) == NameSeed(md5(name))
  {
    var digest := md5(name);
    var seed := new Xorshift.State(LeWord(digest[..8]), LeWord(digest[8..]));
    w0 := seed.Advance();
    w1 := seed.Advance();
  }

  /** The two seed words in ambient mode: the ambient state, filled from the
      clock if it is all zero, advances twice, storing each result back. */
  method AmbientWords(ambient: Xorshift.State, clock: Clock) returns (w0: bv64, w1: bv64)
    modifies ambient, clock
    ensures AmbientCall(old(ambient.word0), old(ambient.word1), old(clock.taken), clock.Reading,
                        ambient.word0, ambient.word1, clock.taken)
    ensures w0 == ambient.word0 && w1 == ambient.word1
  {
    if ambient.word0 == 0 && ambient.word1 == 0 {
      ambient.word0 := clock.Now();
      ambient.word1 := clock.Now();
    }
    ambient.word0 := ambient.Advance();
    ambient.word1 := ambient.Advance();
    w0, w1 := ambient.word0, ambient.word1;
  }

  /** Lays out the UUID drawn from the seed words: the seed, viewed as its
      16 bytes, is walked into uuid. */
  method Draw(uuid: array<bv8>, w0: bv64, w1: bv64) returns (ok: bool)
    requires uuid.Length == 16
    modifies uuid
    ensures ok && uuid[..] == Layout.Assemble(SeedBytes(w0, w1))
  {
    var seedBytes := SeedBytes(w0, w1);
    var b := new bv8[16](k requires 0 <= k < 16 => seedBytes[k]);
    assert b[..] == seedBytes;
    ok := Layout.Generate(uuid, b);
  }

  /** Makes a UUID in uuid.  A null uuid is refused.  With a name, the UUID is
      drawn from the name's digest alone and nothing else changes; without
      one, it is drawn from the ambient state, which the call advances. */
  method Make4(uuid: array?<bv8>, name: Option<seq<bv8>>, md5: seq<bv8> -> Digest,
              ambient: Xorshift.State, clock: Clock) returns (ok: bool)
    requires uuid != null ==> uuid.Length == 16
    modifies uuid, ambient, clock
    ensures ok <==> uuid != null
    ensures uuid == null || name.Some? ==> unchanged(ambient, clock)
    ensures uuid != null && name.Some? ==> uuid[..] == FromDigest(md5(name.value))
    ensures uuid != null && name.None? ==>
      AmbientCall(old(ambient.word0), old(ambient.word1), old(clock.taken), clock.Reading,
                  ambient.word0, ambient.word1, clock.taken) &&
      uuid[..] == Layout.Assemble(SeedBytes(ambient.word0, ambient.word1))
  {
    if uuid == null {
      return false;
    }
    var w0: bv64, w1: bv64;
    match name {
      case Some(n) =>
        w0, w1 := NameWords(n, md5);
      case None =>
        w0, w1 := AmbientWords(ambient, clock);
    }
    ok := Draw(uuid, w0, w1);
  }

  /** Writes the canonical text of the 16 bytes of uuid into s: two upper-case
      hexadecimal digits per byte, high nibble first, a hyphen at offsets 8,
      13, 18 and 23, and a terminating NUL at offset 36.  The source's 36
      single-character stores are one parallel assignment here. */
  method WriteCstr(s: array<char>, uuid: array<bv8>)
    requires s.Length == 37 && uuid.Length == 16
    modifies s
    ensures s[..36] == Canonical.Render(uuid[..]) && s[36] == '\0'
  {
    var u := uuid[..];
    forall k | 0 <= k < 36 {
      s[k] := if Canonical.IsHyphenOffset(k) then '-'
              else Canonical.Hex(Canonical.NibbleOf(u, k - Canonical.HyphensBefore(k)));
    }
    s[36] := '\0';
  }

  /** Makes a UUID as in Make4 and writes its canonical text into cstr,
      which is returned; a null cstr is refused with null. */
  method MakeCstr4(cstr: array?<char>, name: Option<seq<bv8>>, md5: seq<bv8> -> Digest,
                  ambient: Xorshift.State, clock: Clock) returns (r: array?<char>)
    requires cstr != null ==> cstr.Length == 37
    modifies cstr, ambient, clock
    ensures r == cstr
    ensures cstr == null || name.Some? ==> unchanged(ambient, clock)
    ensures cstr != null ==> cstr[36] == '\0'
    ensures cstr != null && name.Some? ==>
      cstr[..36] == Canonical.Render(FromDigest(md5(name.value)))
    ensures cstr != null && name.None? ==>
      AmbientCall(old(ambient.word0), old(ambient.word1), old(clock.taken), clock.Reading,
                  ambient.word0, ambient.word1, clock.taken) &&
      cstr[..36] == Canonical.Render(Layout.Assemble(SeedBytes(ambient.word0, ambient.word1)))
  {
    if cstr == null {
      return null;
    }
    var uuid := new bv8[16];
    // Make cannot fail on a buffer of its own, so the source's early return
    // of null after a failed make has no counterpart here.
    var _ := Make4(uuid, name, md5, ambient, clock);
    WriteCstr(cstr, uuid);
    r := cstr;
  }

  /** The rendering of an assembled UUID shows the version digit 4 at offset
      14 and a variant digit 8, 9, A or B at offset 19. */
  lemma RenderedMarkers(b: seq<bv8>)
    requires |b| == 16
    ensures Canonical.Render(Layout.Assemble(b))[14] == '4'
    ensures Canonical.Render(Layout.Assemble(b))[19] in {'8', '9', 'A', 'B'}
  {
    var u := Layout.Assemble(b);
    Canonical.RenderByte(u, 6);
    Canonical.RenderByte(u, 8);
    Layout.VersionNibble(b);
    Layout.VariantBits(b);
    var v := u[8] >> 4;
    assert v == 8 || v == 9 || v == 10 || v == 11;
  }

  /** The generic entry point: makes a version-4 UUID, as Make4. */
  method Make(uuid: array?<bv8>, name: Option<seq<bv8>>, md5: seq<bv8> -> Digest,
              ambient: Xorshift.State, clock: Clock) returns (ok: bool)
    requires uuid != null ==> uuid.Length == 16
    modifies uuid, ambient, clock
    ensures ok <==> uuid != null
    ensures uuid == null || name.Some? ==> unchanged(ambient, clock)
    ensures uuid != null && name.Some? ==> uuid[..] == FromDigest(md5(name.value))
    ensures uuid != null && name.None? ==>
      AmbientCall(old(ambient.word0), old(ambient.word1), old(clock.taken), clock.Reading,
                  ambient.word0, ambient.word1, clock.taken) &&
      uuid[..] == Layout.Assemble(SeedBytes(ambient.word0, ambient.word1))
  {
    ok := Make4(uuid, name, md5, ambient, clock);
  }

  /** The generic entry point: makes the canonical text of a version-4 UUID,
      as MakeCstr4. */
  method MakeCstr(cstr: array?<char>, name: Option<seq<bv8>>, md5: seq<bv8> -> Digest,
                  ambient: Xorshift.State, clock: Clock) returns (r: array?<char>)
    requires cstr != null ==> cstr.Length == 37
    modifies cstr, ambient, clock
    ensures r == cstr
    ensures cstr == null || name.Some? ==> unchanged(ambient, clock)
    ensures cstr != null ==> cstr[36] == '\0'
    ensures cstr != null && name.Some? ==>
      cstr[..36] == Canonical.Render(FromDigest(md5(name.value)))
    ensures cstr != null && name.None? ==>
      AmbientCall(old(ambient.word0), old(ambient.word1), old(clock.taken), clock.Reading,
                  ambient.word0, ambient.word1, clock.taken) &&
      cstr[..36] == Canonical.Render(Layout.Assemble(SeedBytes(ambient.word0, ambient.word1)))
  {
    r := MakeCstr4(cstr, name, md5, ambient, clock);
  }
}
