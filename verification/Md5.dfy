/**
 md5.c: streaming MD5. The compression function of one 64-byte block is a parameter; what is proved
 is the buffering, the two-word bit counter and the padding of sections 3.1 to 3.5 of RFC 1321.
 */
module Md5 {
  import opened Bytes

  newtype Word32 = w: int | 0 <= w < 0x1_0000_0000

  const WORD := 0x1_0000_0000
  const WORD2 := 0x1_0000_0000_0000_0000

  datatype Abcd = Abcd(a: Word32, b: Word32, c: Word32, d: Word32)

  type Compression = (Abcd, seq<Byte>) -> Abcd

  const INITIAL := Abcd(0x67452301, 0xefcdab89, 0x98badcfe, 0x10325476)

  // ----- What MD5 is -----

  /** The compression function folded over the blocks of a padded message. */
  function Fold(f: Compression, s: seq<Byte>): Abcd
    requires |s| % 64 == 0
  {
    if s == [] then INITIAL else f(Fold(f, s[..|s| - 64]), s[|s| - 64..])
  }

  /** Byte k of a word, low-order byte first. */
  function WordByte(w: Word32, k: nat): Byte
    requires k < 4
  {
    var shift := if k == 0 then 1 else if k == 1 then 0x100 else if k == 2 then 0x1_0000 else 0x100_0000;
    ((w as int / shift) % 256) as Byte
  }

  function FourBytes(w: Word32): (s: seq<Byte>)
    ensures |s| == 4
  {
    [WordByte(w, 0), WordByte(w, 1), WordByte(w, 2), WordByte(w, 3)]
  }

  /** A 64-bit number, low-order byte first. */
  function LongBytes(n: nat): (s: seq<Byte>)
    requires n < WORD2
    ensures |s| == 8
  {
    FourBytes((n % WORD) as Word32) + FourBytes((n / WORD) as Word32)
  }

  function Zeros(n: nat): (s: seq<Byte>)
    ensures |s| == n
  {
    seq(n, _ => 0 as Byte)
  }

  /** Section 3.1: a one bit, then the fewest zero bits that bring the length to 448 modulo 512 bits. */
  function Padding(length: nat): (s: seq<Byte>)
    ensures (length + |s|) % 64 == 56 && 1 <= |s| <= 64
  {
    [0x80 as Byte] + Zeros((55 - length) % 64)
  }

  /** Sections 3.1 and 3.2: the padding, then the length in bits modulo 2^64. */
  lemma EndOfBlock(n: nat)
    requires n % 64 == 56
    ensures (n + 8) % 64 == 0
  {
  }

  function Padded(s: seq<Byte>): (r: seq<Byte>)
    ensures |r| % 64 == 0
  {
    var length := LongBytes((8 * |s|) % WORD2);
    var padding := Padding(|s|);
    EndOfBlock(|s| + |padding|);
    s + padding + length
  }

  /** Section 3.5. */
  function Output(h: Abcd): (s: seq<Byte>)
    ensures |s| == 16
  {
    FourBytes(h.a) + FourBytes(h.b) + FourBytes(h.c) + FourBytes(h.d)
  }

  function Digest(f: Compression, s: seq<Byte>): (r: seq<Byte>)
    ensures |r| == 16
  {
    Output(Fold(f, Padded(s)))
  }

  // ----- The same, told of the bytes -----

  /** The number that bytes stand for, low-order byte first. */
  function LowFirst(s: seq<Byte>): nat {
    if s == [] then 0 else s[0] as nat + 256 * LowFirst(s[1..])
  }

  /**
   Sections 3.1 and 3.2: r is s, a one bit, zero bits, and the length of s in bits as eight bytes, and no
   shorter text of that kind consists of whole blocks.
   */
  predicate IsPadded(r: seq<Byte>, s: seq<Byte>) {
    && |r| % 64 == 0 && |s| + 9 <= |r| < |s| + 9 + 64
    && s <= r && r[|s|] == 128
    && (forall i :: |s| < i < |r| - 8 ==> r[i] == 0)
    && LowFirst(r[|r| - 8..]) == 8 * |s| % 0x1_0000_0000_0000_0000
  }

  /** Sections 3.3 and 3.4: hs are the registers before the first block, and after each block of r; h is the last. */
  ghost predicate Compresses(f: Compression, r: seq<Byte>, hs: seq<Abcd>, h: Abcd) {
    && |r| == 64 * (|hs| - 1) && hs[|hs| - 1] == h
    && hs[0] == Abcd(0x67452301, 0xefcdab89, 0x98badcfe, 0x10325476)
    && forall k :: 0 < k < |hs| ==> hs[k] == f(hs[k - 1], r[64 * (k - 1)..64 * k])
  }

  /** h is what MD5 leaves in the registers for the message s. */
  ghost predicate Leaves(f: Compression, s: seq<Byte>, h: Abcd) {
    exists r, hs :: IsPadded(r, s) && Compresses(f, r, hs, h)
  }

  /** Section 3.5: the four registers, low-order byte first. */
  predicate Writes(h: Abcd, digest: seq<Byte>) {
    && |digest| == 16
    && LowFirst(digest[..4]) == h.a as nat && LowFirst(digest[4..8]) == h.b as nat
    && LowFirst(digest[8..12]) == h.c as nat && LowFirst(digest[12..]) == h.d as nat
  }

  /** As many bytes that stand for the same number are the same bytes. */
  lemma {:induction false} LowFirstInjective(s: seq<Byte>, t: seq<Byte>)
    requires |s| == |t| && LowFirst(s) == LowFirst(t)
    ensures s == t
  {
    if s != [] {
      assert LowFirst(s) % 256 == s[0] as nat && LowFirst(t) % 256 == t[0] as nat;
      LowFirstInjective(s[1..], t[1..]);
      assert s == [s[0]] + s[1..] && t == [t[0]] + t[1..];
    }
  }

  lemma WordFromBytes(w: Word32)
    ensures WordByte(w, 0) as int + 0x100 * (WordByte(w, 1) as int) + 0x1_0000 * (WordByte(w, 2) as int)
            + 0x100_0000 * (WordByte(w, 3) as int) == w as int
  {
  }

  lemma LowFirstOfFour(a: Byte, b: Byte, c: Byte, d: Byte, t: seq<Byte>)
    ensures LowFirst([a, b, c, d] + t)
         == a as nat + 0x100 * (b as nat) + 0x1_0000 * (c as nat) + 0x100_0000 * (d as nat) + WORD * LowFirst(t)
  {
    assert ([a, b, c, d] + t)[1..] == [b, c, d] + t && ([b, c, d] + t)[1..] == [c, d] + t;
    assert ([c, d] + t)[1..] == [d] + t && ([d] + t)[1..] == t;
    assert LowFirst([d] + t) == d as nat + 256 * LowFirst(t);
    assert LowFirst([c, d] + t) == c as nat + 256 * LowFirst([d] + t);
    assert LowFirst([b, c, d] + t) == b as nat + 256 * LowFirst([c, d] + t);
  }

  lemma FourBytesValue(w: Word32, t: seq<Byte>)
    ensures LowFirst(FourBytes(w) + t) == w as nat + WORD * LowFirst(t)
    ensures LowFirst(FourBytes(w)) == w as nat
  {
    hide LowFirst, WordByte;
    WordFromBytes(w);
    LowFirstOfFour(WordByte(w, 0), WordByte(w, 1), WordByte(w, 2), WordByte(w, 3), t);
    LowFirstOfFour(WordByte(w, 0), WordByte(w, 1), WordByte(w, 2), WordByte(w, 3), []);
    assert FourBytes(w) + [] == FourBytes(w);
    LowFirstOfNone();
  }

  lemma LowFirstOfNone()
    ensures LowFirst([]) == 0
  {
  }

  lemma LongBytesValue(n: nat)
    requires n < WORD2
    ensures LowFirst(LongBytes(n)) == n
  {
    hide FourBytes, LowFirst;
    var low, high := (n % WORD) as Word32, (n / WORD) as Word32;
    FourBytesValue(high, []);
    FourBytesValue(low, FourBytes(high));
  }

  lemma PaddedIs(s: seq<Byte>)
    ensures IsPadded(Padded(s), s)
  {
    hide LongBytes, LowFirst;
    var length := LongBytes((8 * |s|) % WORD2);
    LongBytesValue((8 * |s|) % WORD2);
    assert Padded(s)[|Padded(s)| - 8..] == length;
  }

  lemma SameMultiple(x: nat, y: nat)
    requires x % 64 == 0 == y % 64 && x < y + 64 && y < x + 64
    ensures x == y
  {
  }

  /** There is only one such text. */
  lemma PaddedUnique(r: seq<Byte>, t: seq<Byte>, s: seq<Byte>)
    requires IsPadded(r, s) && IsPadded(t, s)
    ensures r == t
  {
    hide LowFirst;
    SameMultiple(|r|, |t|);
    LowFirstInjective(r[|r| - 8..], t[|t| - 8..]);
    forall i | 0 <= i < |r|
      ensures r[i] == t[i]
    {
      if i < |s| {
        assert r[i] == s[i] == t[i];
      } else if i >= |r| - 8 {
        assert r[i] == r[|r| - 8..][i - (|r| - 8)] == t[|t| - 8..][i - (|t| - 8)];
      }
    }
  }

  lemma {:induction false} FoldCompresses(f: Compression, r: seq<Byte>) returns (hs: seq<Abcd>)
    requires |r| % 64 == 0
    ensures Compresses(f, r, hs, Fold(f, r))
  {
    if r == [] {
      hs := [INITIAL];
    } else {
      var init := r[..|r| - 64];
      var before := FoldCompresses(f, init);
      hs := before + [Fold(f, r)];
      assert r[64 * (|before| - 1)..64 * |before|] == r[|r| - 64..];
      forall k | 0 < k < |before|
        ensures r[64 * (k - 1)..64 * k] == init[64 * (k - 1)..64 * k]
      {
      }
    }
  }

  lemma {:induction false} CompressesFold(f: Compression, r: seq<Byte>, hs: seq<Abcd>, h: Abcd)
    requires Compresses(f, r, hs, h)
    ensures |r| % 64 == 0 && h == Fold(f, r)
  {
    if |hs| > 1 {
      var n := |hs| - 1;
      var init := r[..|r| - 64];
      forall k | 0 < k < n
        ensures r[64 * (k - 1)..64 * k] == init[64 * (k - 1)..64 * k]
      {
      }
      CompressesFold(f, init, hs[..n], hs[n - 1]);
      assert r[64 * (n - 1)..64 * n] == r[|r| - 64..];
    }
  }

  /** What MD5 leaves in the registers is the fold over the padded message, and nothing else. */
  lemma LeavesIff(f: Compression, s: seq<Byte>, h: Abcd)
    ensures Leaves(f, s, h) <==> h == Fold(f, Padded(s))
  {
    hide Padded, Fold, IsPadded, Compresses;
    PaddedIs(s);
    var hs := FoldCompresses(f, Padded(s));
    if Leaves(f, s, h) {
      var r, gs :| IsPadded(r, s) && Compresses(f, r, gs, h);
      PaddedUnique(r, Padded(s), s);
      CompressesFold(f, r, gs, h);
    }
  }

  lemma OutputWrites(h: Abcd)
    ensures Writes(h, Output(h))
  {
    hide FourBytes, LowFirst;
    var s := Output(h);
    assert s[..4] == FourBytes(h.a) && s[4..8] == FourBytes(h.b);
    assert s[8..12] == FourBytes(h.c) && s[12..] == FourBytes(h.d);
    FourBytesValue(h.a, []);
    FourBytesValue(h.b, []);
    FourBytesValue(h.c, []);
    FourBytesValue(h.d, []);
  }

  /** The digest of a message is what its registers write, and these are determined by the message. */
  lemma DigestIs(f: Compression, s: seq<Byte>)
    ensures exists h :: Leaves(f, s, h) && Writes(h, Digest(f, s))
    ensures forall h | Leaves(f, s, h) :: Writes(h, Digest(f, s))
  {
    hide Padded, Fold, Leaves, Writes;
    var h := Fold(f, Padded(s));
    LeavesIff(f, s, h);
    OutputWrites(h);
    forall g | Leaves(f, s, g)
      ensures Writes(g, Digest(f, s))
    {
      LeavesIff(f, s, g);
    }
  }

  // ----- The 64-bit counter in two words -----

  lemma SmallMultiple(d: int, m: int)
    requires -m < d * m < m
    ensures d == 0
  {
    assert d >= 1 ==> d * m >= m;
    assert d <= -1 ==> d * m <= -m;
  }

  lemma ModIs(a: int, m: int, q: int, r: int)
    requires m > 0 && a == q * m + r && 0 <= r < m
    ensures a % m == r && a / m == q
  {
    var q', r' := a / m, a % m;
    assert (q - q') * m == r' - r;
    SmallMultiple(q - q', m);
  }

  /** The low word gives the number of bytes in the buffer. */
  lemma OffsetOfCount(count0: Word32, count1: Word32, length: nat)
    requires count0 as int + WORD * count1 as int == (8 * length) % WORD2
    ensures (count0 as int / 8) % 64 == length % 64
  {
    var q := (8 * length) / WORD2;
    assert 8 * length == q * WORD2 + WORD * (count1 as int) + count0 as int;
    var k := length / 64;
    assert count0 as int == 8 * (length - q * 0x2000_0000_0000_0000 - 0x2000_0000 * (count1 as int));
    var bytes := length - q * 0x2000_0000_0000_0000 - 0x2000_0000 * (count1 as int);
    assert count0 as int / 8 == bytes;
    ModIs(bytes, 64, k - q * 0x80_0000_0000_0000 - 0x80_0000 * (count1 as int), length % 64);
  }

  /** Adding n bytes to the counter, with the carry from the low word. */
  function AddCount(count0: Word32, count1: Word32, n: nat): (Word32, Word32) {
    var nbits := (8 * n) % WORD;
    var high := (count1 as int + n / 0x2000_0000) % WORD;
    var low := (count0 as int + nbits) % WORD;
    (low as Word32, (if low < nbits then (high + 1) % WORD else high) as Word32)
  }

  lemma IncrementWord(x: nat)
    ensures (x % WORD + 1) % WORD == (x + 1) % WORD
  {
    if x % WORD == WORD - 1 {
      ModIs(x + 1, WORD, x / WORD + 1, 0);
    } else {
      ModIs(x + 1, WORD, x / WORD, x % WORD + 1);
    }
  }

  lemma BitsOf(n: nat)
    ensures 8 * n == (n / 0x2000_0000) * WORD + (8 * n) % WORD
  {
    ModIs(8 * n, WORD, n / 0x2000_0000, 8 * (n % 0x2000_0000));
  }

  lemma CountAfter(count0: Word32, count1: Word32, length: nat, n: nat)
    requires count0 as int + WORD * count1 as int == (8 * length) % WORD2
    ensures var (low, high) := AddCount(count0, count1, n);
            low as int + WORD * high as int == (8 * (length + n)) % WORD2
  {
    var c0, c1 := count0 as int, count1 as int;
    var nbits, up := (8 * n) % WORD, n / 0x2000_0000;
    BitsOf(n);
    var low := (c0 + nbits) % WORD;
    var carry := if low < nbits then 1 else 0;
    assert c0 + nbits == carry * WORD + low;
    var sum := c1 + up + carry;
    var high := sum % WORD;
    assert AddCount(count0, count1, n) == (low as Word32, high as Word32) by {
      IncrementWord(c1 + up);
    }
    ModIs(8 * (length + n), WORD2, (8 * length) / WORD2 + sum / WORD, low + WORD * high);
  }

  // ----- The streaming implementation -----

  lemma {:induction false} FoldNext(f: Compression, s: seq<Byte>, block: seq<Byte>)
    requires |s| % 64 == 0 && |block| == 64
    ensures Fold(f, s + block) == f(Fold(f, s), block)
  {
    assert (s + block)[..|s + block| - 64] == s;
    assert (s + block)[|s + block| - 64..] == block;
  }

  /** The number of bytes in complete blocks. */
  function Whole(length: nat): (n: nat)
    ensures n <= length && n % 64 == 0 && length - n == length % 64
  {
    length / 64 * 64
  }

  lemma WholeIs(length: nat, n: nat)
    requires n <= length < n + 64 && n % 64 == 0
    ensures n == Whole(length)
  {
  }

  lemma NextBlock(f: Compression, s: seq<Byte>, n: nat)
    requires n % 64 == 0 && n + 64 <= |s|
    ensures (n + 64) % 64 == 0 && Fold(f, s[..n + 64]) == f(Fold(f, s[..n]), s[n..n + 64])
  {
    hide Fold;
    FoldNext(f, s[..n], s[n..n + 64]);
    assert s[..n] + s[n..n + 64] == s[..n + 64];
  }

  class State {
    const process: Compression
    var count0: Word32
    var count1: Word32
    var abcd: Abcd
    const buf: array<Byte>
    ghost var message: seq<Byte>   // everything appended so far

    ghost predicate Counted()
      reads this
    {
      count0 as int + WORD * count1 as int == (8 * |message|) % WORD2
    }

    ghost predicate Valid()
      reads this, buf
    {
      && buf.Length == 64 && Counted()
      && abcd == Fold(process, message[..Whole(|message|)])
      && buf[..|message| % 64] == message[Whole(|message|)..]
    }

    /** md5_init */
    constructor (process: Compression)
      ensures Valid() && message == [] && this.process == process && fresh(buf)
    {
      this.process := process;
      count0, count1, abcd := 0, 0, INITIAL;
      buf := new Byte[64];
      message := [];
    }

    /** memcpy into the block buffer. */
    method Store(offset: nat, bytes: seq<Byte>)
      requires buf.Length == 64 && offset + |bytes| <= 64
      modifies buf
      ensures buf[..offset + |bytes|] == old(buf[..offset]) + bytes
    {
      forall i | 0 <= i < |bytes| {
        buf[offset + i] := bytes[i];
      }
    }

    /** Whole blocks straight from the data. */
    method Blocks(data: seq<Byte>, from: nat) returns (p: nat)
      requires from <= |data| && |message| >= |data| && message[|message| - |data|..] == data
      requires (|message| - |data| + from) % 64 == 0
      requires abcd == Fold(process, message[..|message| - |data| + from])
      modifies this`abcd
      ensures from <= p <= |data| && |message| - |data| + p == Whole(|message|)
      ensures abcd == Fold(process, message[..Whole(|message|)])
    {
      hide Whole, Fold;
      p := from;
      ghost var base := |message| - |data|;
      while |data| - p >= 64
        invariant from <= p <= |data| && (base + p) % 64 == 0
        invariant abcd == Fold(process, message[..base + p])
      {
        NextBlock(process, message, base + p);
        assert data[p..p + 64] == message[base + p..base + p + 64];
        abcd := process(abcd, data[p..p + 64]);
        p := p + 64;
      }
      WholeIs(|message|, base + p);
    }

    /** The registers and the buffer account for the message. */
    ghost predicate Absorbed()
      reads this, buf
    {
      && buf.Length == 64
      && abcd == Fold(process, message[..Whole(|message|)])
      && buf[..|message| % 64] == message[Whole(|message|)..]
    }

    /** The initial partial block: completed and processed, or still partial. */
    method FillBlock(data: seq<Byte>, offset: nat, ghost before: seq<Byte>) returns (partial: bool, p: nat)
      requires buf.Length == 64 && message == before + data && 0 < offset == |before| % 64
      requires abcd == Fold(process, before[..Whole(|before|)])
      requires buf[..offset] == before[Whole(|before|)..]
      modifies this`abcd, buf
      ensures partial ==> Absorbed()
      ensures !partial ==> p <= |data| && (|before| + p) % 64 == 0 && abcd == Fold(process, message[..|before| + p])
    {
      hide Fold, Whole;
      var copy := if offset + |data| > 64 then 64 - offset else |data|;
      Store(offset, data[..copy]);
      if offset + copy < 64 {
        PartialBlock(before, data);
        return true, 0;
      }
      FirstBlock(before, data, copy);
      FoldNext(process, before[..Whole(|before|)], before[Whole(|before|)..] + data[..copy]);
      assert buf[..] == buf[..64];
      abcd := process(abcd, buf[..]);
      return false, copy;
    }

    /** Full blocks, then a final partial block. */
    method Rest(data: seq<Byte>, from: nat, ghost before: seq<Byte>)
      requires buf.Length == 64 && message == before + data
      requires from <= |data| && (|before| + from) % 64 == 0
      requires abcd == Fold(process, message[..|before| + from])
      modifies this`abcd, buf
      ensures Absorbed()
    {
      hide Fold, Whole;
      assert message[|message| - |data|..] == data;
      var p := Blocks(data, from);
      if |data| - p > 0 {
        Store(0, data[p..]);
      }
      assert message[Whole(|message|)..] == data[p..];
    }

    /** md5_append; the length is an int, and so must be the length plus what is buffered. */
    method Append(data: seq<Byte>)
      requires Valid() && |message| % 64 + |data| < 0x8000_0000
      modifies this`count0, this`count1, this`abcd, this`message, buf
      ensures Valid() && message == old(message) + data
    {
      hide Fold, AddCount, Whole;
      if |data| == 0 {
        assert message + data == message;
        return;
      }
      OffsetOfCount(count0, count1, |message|);
      CountAfter(count0, count1, |message|, |data|);
      var offset := (count0 as int / 8) % 64;
      var (low, high) := AddCount(count0, count1, |data|);
      count0, count1 := low, high;
      ghost var before := message;
      message := message + data;
      var partial, p := false, 0;
      if offset != 0 {
        partial, p := FillBlock(data, offset, before);
        if partial {
          return;
        }
      } else {
        WholeIs(|before|, |before|);
        assert message[..|before|] == before[..|before|];
      }
      Rest(data, p, before);
    }

    /** Data that does not complete the buffered block. */
    lemma PartialBlock(before: seq<Byte>, data: seq<Byte>)
      requires |before| % 64 + |data| < 64
      ensures var m := before + data;
              && Whole(|m|) == Whole(|before|) && |m| % 64 == |before| % 64 + |data|
              && m[..Whole(|m|)] == before[..Whole(|before|)]
              && m[Whole(|m|)..] == before[Whole(|before|)..] + data
    {
    }

    /** Data that completes it with its first copy bytes. */
    lemma FirstBlock(before: seq<Byte>, data: seq<Byte>, copy: nat)
      requires copy <= |data| && |before| % 64 + copy == 64
      ensures var m := before + data;
              && (|before| + copy) % 64 == 0
              && m[..|before| + copy] == before[..Whole(|before|)] + (before[Whole(|before|)..] + data[..copy])
    {
    }

    /** md5_finish */
    method Finish() returns (digest: seq<Byte>)
      requires Valid()
      modifies this`count0, this`count1, this`abcd, this`message, buf
      ensures digest == Digest(process, old(message))
      ensures exists h :: Leaves(process, old(message), h) && Writes(h, digest)
      ensures Valid() && message == Padded(old(message)) && |message| % 64 == 0
    {
      hide Leaves, Writes;
      ghost var text := message;
      DigestIs(process, text);
      var length := FourBytes(count0) + FourBytes(count1);
      assert length == LongBytes((8 * |text|) % WORD2) by {
        ModIs((8 * |text|) % WORD2, WORD, count1 as int, count0 as int);
      }
      OffsetOfCount(count0, count1, |text|);
      var n := (55 - (count0 as int / 8)) % 64 + 1;
      var pad := [0x80 as Byte] + Zeros(63);
      assert pad[..n] == Padding(|text|) by {
        PadLength(count0 as int / 8, |text|);
      }
      Append(pad[..n]);
      Append(length);
      assert message[..|message|] == message;
      digest := Output(abcd);
    }

    lemma PadLength(x: int, y: int)
      requires x % 64 == y % 64
      ensures (55 - x) % 64 == (55 - y) % 64
    {
      ModIs(55 - x, 64, (55 - y) / 64 + y / 64 - x / 64, (55 - y) % 64);
    }
  }

  /** A message handed over in pieces has the digest of the whole. */
  method DigestOfPieces(process: Compression, pieces: seq<seq<Byte>>) returns (digest: seq<Byte>)
    requires forall k | 0 <= k < |pieces| :: |pieces[k]| + 64 <= 0x8000_0000
    ensures digest == Digest(process, Joined(pieces))
    ensures exists h :: Leaves(process, Joined(pieces), h) && Writes(h, digest)
  {
    hide Digest, Joined, State.Counted, State.Valid, Leaves, Writes;
    var state := new State(process);
    NothingJoined();
    for i := 0 to |pieces|
      invariant state.Valid() && state.process == process && fresh(state) && fresh(state.buf)
      invariant state.message == Joined(pieces[..i])
    {
      state.Append(pieces[i]);
      OneMoreJoined(pieces, i);
    }
    assert pieces[..|pieces|] == pieces;
    digest := state.Finish();
  }

  lemma OneMoreJoined(pieces: seq<seq<Byte>>, i: nat)
    requires i < |pieces|
    ensures Joined(pieces[..i + 1]) == Joined(pieces[..i]) + pieces[i]
  {
    assert pieces[..i + 1] == pieces[..i] + [pieces[i]];
    JoinedConcat(pieces[..i], [pieces[i]]);
    OneJoined(pieces[i]);
  }

  /** Ketama_md5_digest: the digest of a string in one piece. */
  method Md5Digest(process: Compression, s: seq<Byte>) returns (digest: seq<Byte>)
    requires |s| < 0x8000_0000
    ensures digest == Digest(process, s)
    ensures forall h | Leaves(process, s, h) :: Writes(h, digest)
  {
    DigestIs(process, s);
    var state := new State(process);
    state.Append(s);
    assert [] + s == s;
    digest := state.Finish();
  }
}
