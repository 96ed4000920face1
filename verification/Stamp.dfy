/** The content-stamp hasher: rotate, xor, multiply modulo 2^64, one word at a time. */
module Stamp {

  /** `wrapping_mul` by the odd seed, and by its inverse modulo 2^64. */
  function Scale(x: bv64): bv64 { x * 0x517cc1b727220a95 }

  function Unscale(x: bv64): bv64 { x * 0x2040003d780970bd }

  function Rotate(x: bv64): bv64 { x.RotateLeft(5) }

  function Unrotate(x: bv64): bv64 { x.RotateRight(5) }

  function Xor(x: bv64, y: bv64): bv64 { x ^ y }

  /** `add`: the state after folding in one word. */
  function Mix(state: bv64, word: bv64): bv64 {
    Scale(Xor(Rotate(state), word))
  }

  lemma UnscaleProduct(x: bv64)
    ensures Unscale(x * 0x517cc1b727220a95) == x
  {
  }

  lemma ScaleInverts(x: bv64)
    ensures Unscale(Scale(x)) == x
  {
    hide Unscale;
    UnscaleProduct(x);
  }

  lemma XorInverts(x: bv64, y: bv64)
    ensures Xor(Xor(x, y), y) == x && Xor(Xor(x, y), x) == y
  {
  }

  lemma RotateInverts(x: bv64)
    ensures Unrotate(Rotate(x)) == x
  {
  }

  /** Each step is a bijection of the state for a fixed word and of the word for a fixed state. */
  lemma MixInverts(state: bv64, word: bv64)
    ensures Unrotate(Xor(Unscale(Mix(state, word)), word)) == state
    ensures Xor(Unscale(Mix(state, word)), Rotate(state)) == word
  {
    hide Scale, Unscale, Rotate, Unrotate, Xor;
    ScaleInverts(Xor(Rotate(state), word));
    XorInverts(Rotate(state), word);
    RotateInverts(state);
  }

  lemma MixInjective(s: bv64, t: bv64, v: bv64, w: bv64)
    ensures s != t ==> Mix(s, v) != Mix(t, v)
    ensures v != w ==> Mix(s, v) != Mix(s, w)
  {
    hide Mix, Unscale, Rotate, Unrotate, Xor;
    MixInverts(s, v);
    MixInverts(t, v);
    MixInverts(s, w);
  }

  /** The stamp after a sequence of words. */
  function Fold(state: bv64, words: seq<bv64>): bv64
    decreases |words|
  {
    if words == [] then state else Fold(Mix(state, words[0]), words[1..])
  }

  lemma {:induction false} FoldInjective(s: bv64, t: bv64, words: seq<bv64>)
    requires s != t
    ensures Fold(s, words) != Fold(t, words)
    decreases |words|
  {
    if words != [] {
      MixInjective(s, t, words[0], words[0]);
      hide Mix;
      FoldInjective(Mix(s, words[0]), Mix(t, words[0]), words[1..]);
    }
  }

  /** Two word sequences that differ in exactly one position never end with the same stamp. */
  lemma {:induction false} OneWordChangesStamp(state: bv64, a: seq<bv64>, b: seq<bv64>, k: nat)
    requires |a| == |b| && k < |a| && a[k] != b[k]
    requires forall i :: 0 <= i < |a| && i != k ==> a[i] == b[i]
    ensures Fold(state, a) != Fold(state, b)
    decreases k
  {
    hide Mix;
    if k == 0 {
      MixInjective(state, state, a[0], b[0]);
      assert a[1..] == b[1..];
      FoldInjective(Mix(state, a[0]), Mix(state, b[0]), a[1..]);
    } else {
      OneWordChangesStamp(Mix(state, a[0]), a[1..], b[1..], k - 1);
    }
  }

  lemma {:induction false} FoldAppend(state: bv64, a: seq<bv64>, w: bv64)
    ensures Fold(state, a + [w]) == Mix(Fold(state, a), w)
    decreases |a|
  {
    hide Mix;
    if a != [] {
      FoldAppend(Mix(state, a[0]), a[1..], w);
      assert (a + [w])[1..] == a[1..] + [w];
    }
  }

  // ---------- Byte runs ----------

  type Chunk = c: seq<bv8> | |c| == 8 witness [0, 0, 0, 0, 0, 0, 0, 0]

  function Join(b0: bv8, b1: bv8, b2: bv8, b3: bv8, b4: bv8, b5: bv8, b6: bv8, b7: bv8): bv64 {
    (b0 as bv64) | (b1 as bv64 << 8) | (b2 as bv64 << 16) | (b3 as bv64 << 24)
    | (b4 as bv64 << 32) | (b5 as bv64 << 40) | (b6 as bv64 << 48) | (b7 as bv64 << 56)
  }

  /** `from_le_bytes`. */
  function Word(c: Chunk): bv64 {
    Join(c[0], c[1], c[2], c[3], c[4], c[5], c[6], c[7])
  }

  function Widen(b: bv8): bv64 { b as bv64 }

  function ByteOf(w: bv64, i: nat): bv64
    requires i < 8
  {
    match i
    case 0 => w & 0xff
    case 1 => (w >> 8) & 0xff
    case 2 => (w >> 16) & 0xff
    case 3 => (w >> 24) & 0xff
    case 4 => (w >> 32) & 0xff
    case 5 => (w >> 40) & 0xff
    case 6 => (w >> 48) & 0xff
    case _ => (w >> 56) & 0xff
  }

  lemma JoinBytes(b0: bv8, b1: bv8, b2: bv8, b3: bv8, b4: bv8, b5: bv8, b6: bv8, b7: bv8)
    ensures var w := Join(b0, b1, b2, b3, b4, b5, b6, b7);
            && ByteOf(w, 0) == Widen(b0) && ByteOf(w, 1) == Widen(b1)
            && ByteOf(w, 2) == Widen(b2) && ByteOf(w, 3) == Widen(b3)
            && ByteOf(w, 4) == Widen(b4) && ByteOf(w, 5) == Widen(b5)
            && ByteOf(w, 6) == Widen(b6) && ByteOf(w, 7) == Widen(b7)
  {
  }

  lemma ByteWidens(x: bv8, y: bv8)
    ensures Widen(x) == Widen(y) ==> x == y
  {
  }

  lemma WordInjective(c: Chunk, d: Chunk)
    ensures Word(c) == Word(d) ==> c == d
  {
    hide Join, ByteOf, Widen;
    if Word(c) == Word(d) {
      JoinBytes(c[0], c[1], c[2], c[3], c[4], c[5], c[6], c[7]);
      JoinBytes(d[0], d[1], d[2], d[3], d[4], d[5], d[6], d[7]);
      ByteWidens(c[0], d[0]);
      ByteWidens(c[1], d[1]);
      ByteWidens(c[2], d[2]);
      ByteWidens(c[3], d[3]);
      ByteWidens(c[4], d[4]);
      ByteWidens(c[5], d[5]);
      ByteWidens(c[6], d[6]);
      ByteWidens(c[7], d[7]);
    }
  }

  function Pad(rest: seq<bv8>): Chunk
    requires |rest| <= 8
  {
    rest + seq(8 - |rest|, _ => 0)
  }

  /** A short rest read as a little-endian word: its own bytes, then zeros. */
  lemma RestWord(rest: seq<bv8>, i: nat)
    requires |rest| <= 8 && i < 8
    ensures ByteOf(Word(Pad(rest)), i) == if i < |rest| then Widen(rest[i]) else 0
  {
    var c := Pad(rest);
    hide Join, ByteOf;
    JoinBytes(c[0], c[1], c[2], c[3], c[4], c[5], c[6], c[7]);
  }

  /** The chunks of a byte run, the last one padded with zeros. */
  function Chunks(bytes: seq<bv8>): seq<bv64>
    decreases |bytes|
  {
    if bytes == [] then []
    else if |bytes| < 8 then [Word(Pad(bytes))]
    else [Word(bytes[..8])] + Chunks(bytes[8..])
  }

  function Pow256(k: nat): (r: nat)
    ensures r > 0
  {
    if k == 0 then 1 else 256 * Pow256(k - 1)
  }

  function Halved(n: nat, i: nat): nat { if i == 0 then n else Halved(n, i - 1) / 2 }

  /** The `i`-th bit of a number. */
  predicate Bit(n: nat, i: nat) { Halved(n, i) % 2 == 1 }

  function BitAt(b: bool, value: bv8): bv8 { if b then value else 0 }

  function OfBits(b0: bool, b1: bool, b2: bool, b3: bool, b4: bool, b5: bool, b6: bool, b7: bool): bv8 {
    BitAt(b0, 1) | BitAt(b1, 2) | BitAt(b2, 4) | BitAt(b3, 8) | BitAt(b4, 16) | BitAt(b5, 32) | BitAt(b6, 64)
    | BitAt(b7, 128)
  }

  /** The byte of a number's eight low bits. */
  function LowByte(n: nat): bv8 {
    OfBits(Bit(n, 0), Bit(n, 1), Bit(n, 2), Bit(n, 3), Bit(n, 4), Bit(n, 5), Bit(n, 6), Bit(n, 7))
  }

  /** The `k` low bytes of a number, least significant first. */
  function LowBytes(n: nat, k: nat): (r: seq<bv8>)
    ensures |r| == k
  {
    if k == 0 then [] else [LowByte(n)] + LowBytes(n / 256, k - 1)
  }

  /** A length as a word. */
  function LengthWord(n: nat): bv64
    requires n < 0x1_0000_0000_0000_0000
  {
    Word(LowBytes(n, 8))
  }

  /** The words one `write` folds in: its chunks, then its length. */
  function WrittenWords(bytes: seq<bv8>): seq<bv64>
    requires |bytes| < 0x1_0000_0000_0000_0000
  {
    Chunks(bytes) + [LengthWord(|bytes|)]
  }

  /** Two equal-length runs whose differences all lie in one aligned 8-byte chunk. */
  ghost predicate DifferInChunk(a: seq<bv8>, b: seq<bv8>, k: nat) {
    && |a| == |b| && a != b
    && forall i :: 0 <= i < |a| && i / 8 != k ==> a[i] == b[i]
  }

  lemma {:induction false} ChunksAgree(a: seq<bv8>, b: seq<bv8>, k: nat)
    requires DifferInChunk(a, b, k)
    ensures |Chunks(a)| == |Chunks(b)| && k < |Chunks(a)| && Chunks(a)[k] != Chunks(b)[k]
    ensures forall i :: 0 <= i < |Chunks(a)| && i != k ==> Chunks(a)[i] == Chunks(b)[i]
    decreases |a|
  {
    hide Word, DifferInChunk;
    if |a| < 8 {
      OneShortChunk(a, b, k);
    } else if k == 0 {
      FirstChunkOnly(a, b);
    } else {
      LaterChunk(a, b, k);
      ChunksAgree(a[8..], b[8..], k - 1);
    }
  }

  lemma OneShortChunk(a: seq<bv8>, b: seq<bv8>, k: nat)
    requires DifferInChunk(a, b, k) && |a| < 8
    ensures a != [] && |b| == |a| && k == 0 && Word(Pad(a)) != Word(Pad(b))
  {
    hide Word;
    var i :| 0 <= i < |a| && a[i] != b[i];
    assert Pad(a)[i] == a[i] && Pad(b)[i] == b[i];
    WordInjective(Pad(a), Pad(b));
  }

  lemma FirstChunkOnly(a: seq<bv8>, b: seq<bv8>)
    requires DifferInChunk(a, b, 0) && |a| >= 8
    ensures |b| == |a| && a[8..] == b[8..] && Word(a[..8]) != Word(b[..8])
  {
    hide Word;
    forall i | 0 <= i < |a| - 8 ensures a[8..][i] == b[8..][i] {
      assert a[8..][i] == a[i+8] && b[8..][i] == b[i+8];
    }
    assert a == a[..8] + a[8..] && b == b[..8] + b[8..];
    var x: Chunk, y: Chunk := a[..8], b[..8];
    WordInjective(x, y);
  }

  lemma LaterChunk(a: seq<bv8>, b: seq<bv8>, k: nat)
    requires DifferInChunk(a, b, k) && |a| >= 8 && k > 0
    ensures |b| == |a| && a[..8] == b[..8] && DifferInChunk(a[8..], b[8..], k - 1)
  {
    var c, d := a[8..], b[8..];
    assert a[..8] == b[..8];
    assert a == a[..8] + c && b == b[..8] + d;
    forall i | 0 <= i < |c| && i / 8 != k - 1 ensures c[i] == d[i] {
      assert c[i] == a[i+8] && d[i] == b[i+8] && (i + 8) / 8 == i / 8 + 1;
    }
  }

  /** Equal-length writes that differ within one chunk leave different stamps. */
  lemma OneChunkChangesStamp(state: bv64, a: seq<bv8>, b: seq<bv8>, k: nat)
    requires |a| < 0x1_0000_0000_0000_0000 && DifferInChunk(a, b, k)
    ensures Fold(state, WrittenWords(a)) != Fold(state, WrittenWords(b))
  {
    hide Mix, Word, Fold, Chunks, LengthWord;
    ChunksAgree(a, b, k);
    OneWordChangesStamp(state, WrittenWords(a), WrittenWords(b), k);
  }

  // ---------- What the length word is for ----------

  lemma OfBitsBack(b0: bool, b1: bool, b2: bool, b3: bool, b4: bool, b5: bool, b6: bool, b7: bool)
    ensures var x := OfBits(b0, b1, b2, b3, b4, b5, b6, b7);
      && (b0 <==> x & 1 != 0) && (b1 <==> x & 2 != 0) && (b2 <==> x & 4 != 0) && (b3 <==> x & 8 != 0)
      && (b4 <==> x & 16 != 0) && (b5 <==> x & 32 != 0) && (b6 <==> x & 64 != 0) && (b7 <==> x & 128 != 0)
  {
  }

  function BitValue(n: nat, i: nat): nat { if Bit(n, i) then 1 else 0 }

  lemma HalvedStep(n: nat, i: nat)
    ensures Halved(n, i) == 2 * Halved(n, i + 1) + BitValue(n, i)
  {
  }

  /** The eight low bits decide a number's remainder modulo 256. */
  lemma LowBits(n: nat)
    ensures n == 256 * Halved(n, 8) + 128 * BitValue(n, 7) + 64 * BitValue(n, 6) + 32 * BitValue(n, 5)
                 + 16 * BitValue(n, 4) + 8 * BitValue(n, 3) + 4 * BitValue(n, 2) + 2 * BitValue(n, 1) + BitValue(n, 0)
  {
    hide Bit, BitValue;
    assert Halved(n, 0) == n;
    hide Halved;
    HalvedStep(n, 0);
    HalvedStep(n, 1);
    HalvedStep(n, 2);
    HalvedStep(n, 3);
    HalvedStep(n, 4);
    HalvedStep(n, 5);
    HalvedStep(n, 6);
    HalvedStep(n, 7);
  }

  lemma SameBits(m: nat, n: nat)
    requires LowByte(m) == LowByte(n)
    ensures forall i :: 0 <= i < 8 ==> BitValue(m, i) == BitValue(n, i)
  {
    hide OfBits, Bit;
    OfBitsBack(Bit(m, 0), Bit(m, 1), Bit(m, 2), Bit(m, 3), Bit(m, 4), Bit(m, 5), Bit(m, 6), Bit(m, 7));
    OfBitsBack(Bit(n, 0), Bit(n, 1), Bit(n, 2), Bit(n, 3), Bit(n, 4), Bit(n, 5), Bit(n, 6), Bit(n, 7));
  }

  lemma LowByteInjective(m: nat, n: nat)
    requires LowByte(m) == LowByte(n)
    ensures m % 256 == n % 256
  {
    SameBits(m, n);
    hide BitValue, LowByte, Halved;
    LowBits(m);
    LowBits(n);
    assert BitValue(m, 0) == BitValue(n, 0) && BitValue(m, 1) == BitValue(n, 1) && BitValue(m, 2) == BitValue(n, 2);
    assert BitValue(m, 3) == BitValue(n, 3) && BitValue(m, 4) == BitValue(n, 4) && BitValue(m, 5) == BitValue(n, 5);
    assert BitValue(m, 6) == BitValue(n, 6) && BitValue(m, 7) == BitValue(n, 7);
    assert m - n == 256 * (Halved(m, 8) - Halved(n, 8));
    SameRemainder(m, n, Halved(m, 8) - Halved(n, 8));
  }

  lemma SameRemainder(m: nat, n: nat, k: int)
    requires m - n == 256 * k
    ensures m % 256 == n % 256
  {
  }

  lemma {:induction false} LowBytesInjective(m: nat, n: nat, k: nat)
    requires m < Pow256(k) && n < Pow256(k) && LowBytes(m, k) == LowBytes(n, k)
    ensures m == n
  {
    hide LowByte;
    if k > 0 {
      assert LowBytes(m, k)[0] == LowByte(m) && LowBytes(n, k)[0] == LowByte(n);
      assert LowBytes(m, k)[1..] == LowBytes(m / 256, k - 1) && LowBytes(n, k)[1..] == LowBytes(n / 256, k - 1);
      LowByteInjective(m, n);
      LowBytesInjective(m / 256, n / 256, k - 1);
      assert m == 256 * (m / 256) + m % 256 && n == 256 * (n / 256) + n % 256;
    }
  }

  lemma LengthInjective(m: nat, n: nat)
    requires m < 0x1_0000_0000_0000_0000 && n < 0x1_0000_0000_0000_0000 && LengthWord(m) == LengthWord(n)
    ensures m == n
  {
    hide Word, LowBytes;
    assert Pow256(4) == 0x1_0000_0000 && Pow256(8) == 0x1_0000_0000_0000_0000 by {
      assert Pow256(2) == 0x1_0000;
      assert Pow256(4) == 0x1_0000_0000;
      assert Pow256(6) == 0x1_0000_0000_0000;
    }
    WordInjective(LowBytes(m, 8), LowBytes(n, 8));
    LowBytesInjective(m, n, 8);
  }

  /** Runs that differ only in how far their last chunk was padded leave different stamps. */
  lemma LengthChangesStamp(state: bv64, a: seq<bv8>, b: seq<bv8>)
    requires |a| < 0x1_0000_0000_0000_0000 && |b| < 0x1_0000_0000_0000_0000
    requires Chunks(a) == Chunks(b) && |a| != |b|
    ensures Fold(state, WrittenWords(a)) != Fold(state, WrittenWords(b))
  {
    hide Mix, Chunks, LengthWord, Fold;
    FoldAppend(state, Chunks(a), LengthWord(|a|));
    FoldAppend(state, Chunks(b), LengthWord(|b|));
    if LengthWord(|a|) == LengthWord(|b|) { LengthInjective(|a|, |b|); }
    var t := Fold(state, Chunks(a));
    MixInjective(t, t, LengthWord(|a|), LengthWord(|b|));
  }

  lemma {:induction false} ChunkCount(bytes: seq<bv8>)
    ensures |Chunks(bytes)| == (|bytes| + 7) / 8
    decreases |bytes|
  {
    hide Word;
    if |bytes| >= 8 { ChunkCount(bytes[8..]); }
  }

  /** Chunks and a length determine the bytes. */
  lemma {:induction false} ChunksInjective(a: seq<bv8>, b: seq<bv8>)
    requires |a| == |b| && Chunks(a) == Chunks(b)
    ensures a == b
    decreases |a|
  {
    hide Word;
    if a == [] {
    } else if |a| < 8 {
      assert Chunks(a)[0] == Word(Pad(a)) && Chunks(b)[0] == Word(Pad(b));
      WordInjective(Pad(a), Pad(b));
      assert a == Pad(a)[..|a|] && b == Pad(b)[..|a|];
    } else {
      assert Chunks(a)[0] == Word(a[..8]) && Chunks(b)[0] == Word(b[..8]);
      var c: Chunk, d: Chunk := a[..8], b[..8];
      WordInjective(c, d);
      assert Chunks(a)[1..] == Chunks(a[8..]) && Chunks(b)[1..] == Chunks(b[8..]);
      ChunksInjective(a[8..], b[8..]);
      assert a == a[..8] + a[8..] && b == b[..8] + b[8..];
    }
  }

  ghost predicate AllShort(runs: seq<seq<bv8>>) {
    forall i :: 0 <= i < |runs| ==> |runs[i]| < 0x1_0000_0000_0000_0000
  }

  /** The words of several writes, one after another. */
  function AllWritten(runs: seq<seq<bv8>>): seq<bv64>
    requires AllShort(runs)
  {
    if runs == [] then [] else AllWritten(runs[..|runs|-1]) + WrittenWords(runs[|runs|-1])
  }

  lemma LastWritten(a: seq<seq<bv8>>)
    requires AllShort(a) && a != []
    ensures var x, words := a[|a|-1], AllWritten(a);
      && words != [] && words[|words|-1] == LengthWord(|x|) && |Chunks(x)| < |words|
      && words[..|words|-1] == AllWritten(a[..|a|-1]) + Chunks(x)
  {
    hide LengthWord, Chunks;
    var x, before := a[|a|-1], AllWritten(a[..|a|-1]);
    assert AllWritten(a) == before + (Chunks(x) + [LengthWord(|x|)]);
    assert AllWritten(a) == (before + Chunks(x)) + [LengthWord(|x|)];
  }

  lemma SplitEnd(p: seq<bv64>, c: seq<bv64>, q: seq<bv64>, d: seq<bv64>)
    requires p + c == q + d && |c| == |d|
    ensures p == q && c == d
  {
    assert (p + c)[..|p|] == p && (q + d)[..|p|] == q && (p + c)[|p|..] == c && (q + d)[|p|..] == d;
  }

  lemma SameLast(a: seq<seq<bv8>>, b: seq<seq<bv8>>)
    requires AllShort(a) && AllShort(b) && a != [] && b != [] && AllWritten(a) == AllWritten(b)
    ensures a[|a|-1] == b[|b|-1]
    ensures AllShort(a[..|a|-1]) && AllShort(b[..|b|-1]) && AllWritten(a[..|a|-1]) == AllWritten(b[..|b|-1])
  {
    var x, y := a[|a|-1], b[|b|-1];
    LastWritten(a);
    LastWritten(b);
    hide AllWritten, LengthWord, Chunks;
    LengthInjective(|x|, |y|);
    ChunkCount(x);
    ChunkCount(y);
    SplitEnd(AllWritten(a[..|a|-1]), Chunks(x), AllWritten(b[..|b|-1]), Chunks(y));
    ChunksInjective(x, y);
  }

  lemma NothingWritten(a: seq<seq<bv8>>)
    requires AllShort(a)
    ensures AllWritten(a) == [] <==> a == []
  {
    hide LengthWord, Chunks;
    if a != [] { LastWritten(a); }
  }

  lemma Whole<T>(s: seq<T>)
    requires s != []
    ensures s == s[..|s|-1] + [s[|s|-1]]
  {
  }

  /** Adjacent byte runs cannot alias: different sequences of writes fold in different words. */
  lemma {:induction false} RunsCannotAlias(a: seq<seq<bv8>>, b: seq<seq<bv8>>)
    requires AllShort(a) && AllShort(b) && AllWritten(a) == AllWritten(b)
    ensures a == b
    decreases |a|
  {
    hide *;
    NothingWritten(a);
    NothingWritten(b);
    if a != [] && b != [] {
      SameLast(a, b);
      RunsCannotAlias(a[..|a|-1], b[..|b|-1]);
      Whole(a);
      Whole(b);
    }
  }

  class StampHasher {
    var state: bv64

    constructor ()
      ensures state == 0
    {
      state := 0;
    }

    method Add(word: bv64)
      modifies this
      ensures state == Mix(old(state), word)
    {
      hide Scale, Xor, Rotate;
      state := Scale(Xor(Rotate(state), word));
    }

    /** Folds in every full chunk, the zero-padded rest if there is one, and the length. */
    method Write(bytes: seq<bv8>)
      requires |bytes| < 0x1_0000_0000_0000_0000
      modifies this
      ensures state == Fold(old(state), WrittenWords(bytes))
    {
      hide Mix, Word, LengthWord;
      var full := |bytes| / 8;
      ghost var start := state;
      for k := 0 to full
        invariant Fold(start, Chunks(bytes)) == Fold(state, Chunks(bytes[8*k..]))
      {
        assert bytes[8*k..][..8] == bytes[8*k..8*k+8];
        assert bytes[8*k..][8..] == bytes[8*(k+1)..];
        Add(Word(bytes[8*k..8*k+8]));
      }
      var rest := bytes[8*full..];
      if rest != [] {
        var tail := Pad(rest);
        Add(Word(tail));
      }
      assert state == Fold(start, Chunks(bytes));
      FoldAppend(start, Chunks(bytes), LengthWord(|bytes|));
      Add(LengthWord(|bytes|));
    }
  }
}
