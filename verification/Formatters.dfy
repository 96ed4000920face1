/** The integer and byte-string formatters, with the decoders that undo them. */
module Formatters {
  import opened Common
  import opened SlotBytes
  import opened SlotModel
  import opened StrSlot

  // ---------- Integers ----------

  const MIN_I64: int := -0x8000_0000_0000_0000
  const MAX_I64: int := 0x7FFF_FFFF_FFFF_FFFF

  /** Decimal digits of `n`, none for zero. */
  function Digits(n: nat): Bytes {
    if n == 0 then [] else Digits(n / 10) + [48 + n % 10]
  }

  /** The decimal numeral of an integer. */
  function Numeral(v: int): Bytes {
    if v == 0 then [48] else if v < 0 then [45] + Digits(-v) else Digits(v)
  }

  function ReadDigits(s: Bytes): int {
    if s == [] then 0 else 10 * ReadDigits(s[..|s|-1]) + (s[|s|-1] as int - 48)
  }

  function ReadNumeral(s: Bytes): int {
    if s != [] && s[0] == 45 then -ReadDigits(s[1..]) else ReadDigits(s)
  }

  /** No leading zero, no sign on zero, digits only. */
  predicate CanonicalDigits(s: Bytes) {
    |s| > 0 && 49 <= s[0] <= 57 && forall i :: 0 <= i < |s| ==> 48 <= s[i] <= 57
  }

  predicate Canonical(s: Bytes) {
    s == [48] || CanonicalDigits(s) || (s != [] && s[0] == 45 && CanonicalDigits(s[1..]))
  }

  function Pow10(n: nat): (r: nat)
    ensures r > 0
  {
    if n == 0 then 1 else 10 * Pow10(n - 1)
  }

  lemma ReadLast(s: Bytes, d: Byte)
    ensures ReadDigits(s + [d]) == 10 * ReadDigits(s) + (d as int - 48)
  {
    assert (s + [d])[..|s|] == s;
  }

  lemma CanonicalMore(s: Bytes, d: Byte)
    requires 48 <= d <= 57 && (if s == [] then d > 48 else CanonicalDigits(s))
    ensures CanonicalDigits(s + [d])
  {
    assert forall i :: 0 <= i < |s| ==> (s + [d])[i] == s[i];
  }

  lemma {:induction false} DigitsFacts(n: nat)
    ensures ReadDigits(Digits(n)) == n
    ensures n > 0 ==> CanonicalDigits(Digits(n))
  {
    if n > 0 {
      var init, d: Byte := Digits(n / 10), 48 + n % 10;
      assert Digits(n) == init + [d];
      DigitsFacts(n / 10);
      ReadLast(init, d);
      assert n < 10 ==> init == [];
      hide ReadDigits, CanonicalDigits, Digits;
      CanonicalMore(init, d);
    }
  }

  lemma {:induction false} DigitsLength(n: nat, k: nat)
    requires n < Pow10(k)
    ensures |Digits(n)| <= k
  {
    if n > 0 { DigitsLength(n / 10, k - 1); }
  }

  lemma {:induction false} DigitsUnique(s: Bytes)
    requires CanonicalDigits(s)
    ensures ReadDigits(s) > 0 && Digits(ReadDigits(s)) == s
  {
    var last := s[|s|-1] as int - 48;
    if |s| == 1 {
      assert s[..0] == [] && ReadDigits(s) == last;
      assert Digits(last) == Digits(0) + [48 + last] == s;
    } else {
      var init := s[..|s|-1];
      DigitsUnique(init);
      var n := ReadDigits(s);
      assert n == 10 * ReadDigits(init) + last;
      assert n / 10 == ReadDigits(init) && n % 10 == last;
      assert s == init + [s[|s|-1]];
    }
  }

  lemma Pow10Constants()
    ensures Pow10(19) == 10_000_000_000_000_000_000
  {
    assert Pow10(5) == 100_000;
    assert Pow10(10) == 10_000_000_000;
    assert Pow10(15) == 1_000_000_000_000_000;
  }

  /** The numeral of a 64-bit integer is canonical, reads back, and has at most 20 bytes. */
  lemma NumeralRoundTrip(v: int)
    ensures Canonical(Numeral(v)) && ReadNumeral(Numeral(v)) == v
    ensures MIN_I64 <= v <= MAX_I64 ==> |Numeral(v)| <= 20
  {
    var n := if v < 0 then -v else v;
    DigitsFacts(n);
    Pow10Constants();
    if MIN_I64 <= v <= MAX_I64 { DigitsLength(n, 19); }
    if v < 0 { assert Numeral(v)[1..] == Digits(n); }
  }

  /** A canonical numeral is the numeral of the integer it denotes. */
  lemma NumeralUnique(s: Bytes)
    requires Canonical(s)
    ensures Numeral(ReadNumeral(s)) == s
  {
    if CanonicalDigits(s) {
      DigitsUnique(s);
    } else if s != [48] {
      DigitsUnique(s[1..]);
      assert s == [45] + s[1..];
    } else {
      assert s[..|s|-1] == [] && ReadDigits(s) == 0;
    }
  }

  /** `value as u64`. */
  function AsU64(v: int): nat
    requires MIN_I64 <= v <= MAX_I64
  {
    if v < 0 then v + TWO_64 else v
  }

  /** Negating in 64 bits gives the magnitude, the least integer's included. */
  lemma Magnitude(v: int)
    requires MIN_I64 <= v <= MAX_I64
    ensures (if v < 0 then (TWO_64 - AsU64(v)) % TWO_64 else AsU64(v)) == if v < 0 then -v else v
    ensures (if v < 0 then -v else v) < Pow10(19)
  {
    Pow10Constants();
    hide Pow10;
  }

  lemma DigitsStep(n: nat, k: nat)
    requires 0 < n < Pow10(k)
    ensures k > 0 && n / 10 < Pow10(k - 1) && Digits(n) == Digits(n / 10) + [48 + n % 10]
  {
  }

  lemma NoDigits()
    ensures Digits(0) == [] && Pow10(0) == 1
  {
  }

  /** The digit loop: fills the buffer from the back, `0` included. */
  method FillDigits(buf: array<Byte>, magnitude: nat) returns (pos: nat)
    requires buf.Length == 32 && magnitude < Pow10(19)
    modifies buf
    ensures 13 <= pos <= 31 && buf[pos..] == if magnitude == 0 then [48] else Digits(magnitude)
  {
    hide Digits, Pow10;
    NoDigits();
    var n: nat := magnitude;
    pos := 32;
    if n == 0 {
      buf[31] := 48;
      assert buf[31..] == [48];
      return 31;
    }
    assert Digits(n) + buf[32..] == Digits(n);
    while n > 0
      invariant 0 <= n
      invariant 13 <= pos <= 32 && n < Pow10(pos - 13) && (n < magnitude || pos == 32) && (pos == 32 ==> n > 0)
      invariant Digits(magnitude) == Digits(n) + buf[pos..]
    {
      DigitsStep(n, pos - 13);
      ghost var tail := buf[pos..];
      pos := pos - 1;
      buf[pos] := 48 + n % 10;
      assert buf[pos..] == [48 + n % 10] + tail;
      n := n / 10;
    }
  }

  /** `ryo_int_to_str`: the result is always inline, so releasing it touches no allocation. */
  method IntToStr(rt: Runtime, out: array<Byte>, value: int)
    requires MIN_I64 <= value <= MAX_I64 && out.Length == SLOT_SIZE
    modifies rt`heap, rt`requests, out
    ensures Effect(old(rt.heap), {}, rt.heap, out[..], rt.rodata, Numeral(value))
    ensures InlineSlot(out[..]) && Owned(out[..]) == {} && rt.heap == old(rt.heap)
  {
    hide Effect, Digits, Pow10, InlineSlot, Owned, Canonical, rt.Denied;
    var numeral := Render(value);
    NumeralRoundTrip(value);
    hide Numeral;
    var ok := rt.WriteStrSlot(out, numeral);
    InlineOwnsNothing(out[..]);
  }

  /** The filled part of the 32-byte buffer, with its sign. */
  method Render(value: int) returns (numeral: Bytes)
    requires MIN_I64 <= value <= MAX_I64
    ensures numeral == Numeral(value)
  {
    hide Digits, Pow10;
    Magnitude(value);
    hide AsU64;
    var buf := new Byte[32](_ => 0);
    var negative := value < 0;
    var n: nat := if negative then (TWO_64 - AsU64(value)) % TWO_64 else AsU64(value);
    var pos := FillDigits(buf, n);
    if negative {
      ghost var digits := buf[pos..];
      pos := pos - 1;
      buf[pos] := 45;
      assert buf[pos..] == [45] + digits;
    }
    numeral := buf[pos..];
  }

  lemma InlineOwnsNothing(s: Slot)
    requires InlineSlot(s)
    ensures Owned(s) == {}
  {
    TagIsLastByte(s);
  }

  // ---------- Escaped byte strings ----------

  function HexDigit(n: nat): Byte
    requires n < 16
  {
    if n < 10 then 48 + n else 87 + n
  }

  /** The rendering of one byte inside `b"..."`. */
  function Escape(b: Byte): (r: Bytes)
    ensures 0 < |r| <= 4
  {
    if b == 10 then [92, 110]
    else if b == 9 then [92, 116]
    else if b == 13 then [92, 114]
    else if b == 0 then [92, 48]
    else if b == 92 then [92, 92]
    else if b == 34 then [92, 34]
    else if 0x20 <= b <= 0x7e then [b]
    else [92, 120, HexDigit(b / 16), HexDigit(b % 16)]
  }

  function EscapeAll(bs: Bytes): Bytes {
    if bs == [] then [] else Escape(bs[0]) + EscapeAll(bs[1..])
  }

  function Repr(bs: Bytes): Bytes { [98, 34] + EscapeAll(bs) + [34] }

  datatype Decoded = Bad | Ok(bytes: Bytes)

  function HexValue(c: Byte): int {
    if 48 <= c <= 57 then c - 48 else if 97 <= c <= 102 then c - 87 else -1
  }

  /** Bytes with no shorter rendering than two hexadecimal digits. */
  predicate OnlyHex(v: int) { (0 <= v < 0x20 || 0x7e < v < 256) && v != 0 && v != 9 && v != 10 && v != 13 }

  function Prepend(b: Byte, d: Decoded): Decoded {
    match d case Bad => Bad case Ok(bs) => Ok([b] + bs)
  }

  /** Reads the inside of a rendering back, refusing anything the renderer cannot produce. */
  function DecodeBody(s: Bytes): Decoded {
    if s == [] then Ok([])
    else if s[0] != 92 then
      if s[0] == 34 || s[0] < 0x20 || s[0] > 0x7e then Bad else Prepend(s[0], DecodeBody(s[1..]))
    else if |s| < 2 then Bad
    else if s[1] == 110 then Prepend(10, DecodeBody(s[2..]))
    else if s[1] == 116 then Prepend(9, DecodeBody(s[2..]))
    else if s[1] == 114 then Prepend(13, DecodeBody(s[2..]))
    else if s[1] == 48 then Prepend(0, DecodeBody(s[2..]))
    else if s[1] == 92 then Prepend(92, DecodeBody(s[2..]))
    else if s[1] == 34 then Prepend(34, DecodeBody(s[2..]))
    else if s[1] == 120 && |s| >= 4 && HexValue(s[2]) >= 0 && HexValue(s[3]) >= 0
            && OnlyHex(16 * HexValue(s[2]) + HexValue(s[3])) then
      Prepend(16 * HexValue(s[2]) + HexValue(s[3]), DecodeBody(s[4..]))
    else Bad
  }

  function Decode(s: Bytes): Decoded {
    if |s| >= 3 && s[0] == 98 && s[1] == 34 && s[|s|-1] == 34 then DecodeBody(s[2..|s|-1]) else Bad
  }

  /** The byte that a backslash and one more character stand for. */
  function Meaning(c: Byte): Byte {
    if c == 110 then 10 else if c == 116 then 9 else if c == 114 then 13 else if c == 48 then 0 else c
  }

  lemma DecodeTwo(c: Byte, rest: Bytes)
    requires c == 110 || c == 116 || c == 114 || c == 48 || c == 92 || c == 34
    ensures DecodeBody([92, c] + rest) == Prepend(Meaning(c), DecodeBody(rest))
  {
    hide Prepend;
    var s := [92, c] + rest;
    assert s[2..] == rest && s[0] == 92 && s[1] == c && |s| >= 2;
  }

  lemma DecodeFour(hi: Byte, lo: Byte, rest: Bytes)
    requires HexValue(hi) >= 0 && HexValue(lo) >= 0 && OnlyHex(16 * HexValue(hi) + HexValue(lo))
    ensures DecodeBody([92, 120, hi, lo] + rest) == Prepend(16 * HexValue(hi) + HexValue(lo), DecodeBody(rest))
  {
    hide Prepend, HexValue, OnlyHex;
    var s := [92, 120, hi, lo] + rest;
    assert s[4..] == rest && s[0] == 92 && s[1] == 120 && s[2] == hi && s[3] == lo;
  }

  lemma DecodeEscape(b: Byte, rest: Bytes)
    ensures DecodeBody(Escape(b) + rest) == Prepend(b, DecodeBody(rest))
  {
    hide Prepend;
    if b == 10 || b == 9 || b == 13 || b == 0 || b == 92 || b == 34 {
      hide DecodeBody;
      DecodeTwo(Escape(b)[1], rest);
    } else if 0x20 <= b <= 0x7e {
      assert (Escape(b) + rest)[1..] == rest;
    } else {
      hide DecodeBody;
      assert HexValue(HexDigit(b / 16)) == b / 16 && HexValue(HexDigit(b % 16)) == b % 16;
      DecodeFour(HexDigit(b / 16), HexDigit(b % 16), rest);
    }
  }

  lemma {:induction false} DecodeEscapeAll(bs: Bytes)
    ensures DecodeBody(EscapeAll(bs)) == Ok(bs)
  {
    if bs != [] {
      DecodeEscapeAll(bs[1..]);
      DecodeEscape(bs[0], EscapeAll(bs[1..]));
      assert bs == [bs[0]] + bs[1..];
    }
  }

  /** Every byte string is recovered from its rendering. */
  lemma ReprRoundTrip(bs: Bytes)
    ensures Decode(Repr(bs)) == Ok(bs)
  {
    var s := Repr(bs);
    assert s[2..|s|-1] == EscapeAll(bs);
    DecodeEscapeAll(bs);
  }

  lemma HexBack(c: Byte)
    requires HexValue(c) >= 0
    ensures HexValue(c) < 16 && HexDigit(HexValue(c)) == c
  {
  }

  lemma EscapedFirst(b: Byte, rest: Bytes, s: Bytes, tail: Bytes)
    requires Escape(b) + tail == s && EscapeAll(rest) == tail
    ensures EscapeAll([b] + rest) == s
  {
    hide Escape;
    assert ([b] + rest)[1..] == rest;
  }

  /** What the decoder accepts is what the renderer writes. */
  lemma {:induction false} DecodedIsEscaped(s: Bytes)
    requires DecodeBody(s).Ok?
    ensures EscapeAll(DecodeBody(s).bytes) == s
    decreases |s|
  {
    hide EscapeAll;
    if s == [] {
      NoneEscaped();
    } else {
      var n := if s[0] != 92 then 1 else if s[1] == 120 then 4 else 2;
      var b := DecodeBody(s).bytes[0];
      DecodedIsEscaped(s[n..]);
      assert Escape(b) == s[..n] by { FirstEscaped(s, n, b); }
      assert s[..n] + s[n..] == s;
      assert DecodeBody(s).bytes == [b] + DecodeBody(s[n..]).bytes;
      EscapedFirst(b, DecodeBody(s[n..]).bytes, s, s[n..]);
    }
  }

  lemma FirstEscaped(s: Bytes, n: nat, b: Byte)
    requires s != [] && DecodeBody(s).Ok? && DecodeBody(s).bytes != [] && b == DecodeBody(s).bytes[0]
    requires n == (if s[0] != 92 then 1 else if |s| > 1 && s[1] == 120 then 4 else 2) <= |s|
    ensures Escape(b) == s[..n]
  {
    hide EscapeAll, Decode;
    if n == 4 {
      FirstHex(s, b);
    } else if n == 2 {
      assert s[..2] == [s[0], s[1]];
    } else {
      assert s[..1] == [s[0]];
    }
  }

  lemma FirstHex(s: Bytes, b: Byte)
    requires |s| >= 4 && s[0] == 92 && s[1] == 120
    requires DecodeBody(s).Ok? && DecodeBody(s).bytes != [] && b == DecodeBody(s).bytes[0]
    ensures Escape(b) == s[..4]
  {
    var hi, lo := s[2], s[3];
    assert HexValue(hi) >= 0 && HexValue(lo) >= 0 && b == 16 * HexValue(hi) + HexValue(lo) && OnlyHex(b);
    hide DecodeBody, HexValue;
    HexBack(hi);
    HexBack(lo);
    assert b / 16 == HexValue(hi) && b % 16 == HexValue(lo);
    assert s[..4] == [92, 120, hi, lo];
  }

  /** Only renderings are accepted, so each byte string has one rendering and no other spelling is read. */
  lemma ReprUnique(s: Bytes)
    requires Decode(s).Ok?
    ensures Repr(Decode(s).bytes) == s
  {
    hide DecodeBody, EscapeAll;
    DecodedIsEscaped(s[2..|s|-1]);
    assert s == [98, 34] + s[2..|s|-1] + [34];
  }

  lemma {:induction false} EscapeAllFacts(bs: Bytes)
    ensures |EscapeAll(bs)| <= 4 * |bs|
    ensures forall i :: 0 <= i < |EscapeAll(bs)| ==> 0x20 <= EscapeAll(bs)[i] <= 0x7e
  {
    if bs != [] { EscapeAllFacts(bs[1..]); }
  }

  /** A rendering is printable ASCII and fits the worst-case buffer. */
  lemma ReprFits(bs: Bytes)
    ensures |Repr(bs)| <= 4 * |bs| + 3
    ensures forall i :: 0 <= i < |Repr(bs)| ==> 0x20 <= Repr(bs)[i] <= 0x7e
  {
    EscapeAllFacts(bs);
  }

  lemma NoneEscaped()
    ensures EscapeAll([]) == []
  {
  }

  lemma {:induction false} EscapeAllAppend(bs: Bytes, b: Byte)
    ensures EscapeAll(bs + [b]) == EscapeAll(bs) + Escape(b)
  {
    hide Escape;
    if bs == [] {
      assert bs + [b] == [b] && EscapeAll([b]) == Escape(b) + EscapeAll([b][1..]);
    } else {
      EscapeAllAppend(bs[1..], b);
      assert (bs + [b])[1..] == bs[1..] + [b];
    }
  }

  /** Appends one byte to the part of the buffer written so far. */
  method Emit(rt: Runtime, buf: nat, w: nat, b: Byte) returns (w': nat)
    requires buf in rt.heap && w < |rt.heap[buf]|
    modifies rt`heap
    ensures w' == w + 1 && buf in rt.heap && rt.heap == old(rt.heap)[buf := rt.heap[buf]]
    ensures |rt.heap[buf]| == |old(rt.heap)[buf]| && rt.heap[buf][..w'] == old(rt.heap)[buf][..w] + [b]
  {
    rt.Store(buf, w, [b]);
    w' := w + 1;
    assert rt.heap[buf][..w'] == rt.heap[buf][..w] + rt.heap[buf][w..w'];
  }

  method EmitEscaped(rt: Runtime, buf: nat, w: nat, byte: Byte) returns (w': nat)
    requires buf in rt.heap && w + 4 <= |rt.heap[buf]|
    modifies rt`heap
    ensures w' == w + |Escape(byte)| && buf in rt.heap && rt.heap == old(rt.heap)[buf := rt.heap[buf]]
    ensures |rt.heap[buf]| == |old(rt.heap)[buf]| && rt.heap[buf][..w'] == old(rt.heap)[buf][..w] + Escape(byte)
  {
    if byte == 10 || byte == 9 || byte == 13 || byte == 0 || byte == 92 || byte == 34 {
      w' := Emit(rt, buf, w, 92);
      w' := Emit(rt, buf, w', if byte == 10 then 110 else if byte == 9 then 116 else if byte == 13 then 114
                              else if byte == 0 then 48 else byte);
    } else if 0x20 <= byte <= 0x7e {
      w' := Emit(rt, buf, w, byte);
    } else {
      w' := Emit(rt, buf, w, 92);
      w' := Emit(rt, buf, w', 120);
      w' := Emit(rt, buf, w', HexDigit(byte / 16));
      w' := Emit(rt, buf, w', HexDigit(byte % 16));
    }
  }

  /** The loop over the input bytes. */
  method EmitAll(rt: Runtime, buf: nat, start: nat, bytes: Bytes) returns (w: nat)
    requires buf in rt.heap && start + 4 * |bytes| <= |rt.heap[buf]|
    modifies rt`heap
    ensures w == start + |EscapeAll(bytes)| <= start + 4 * |bytes|
    ensures buf in rt.heap && rt.heap == old(rt.heap)[buf := rt.heap[buf]] && |rt.heap[buf]| == |old(rt.heap)[buf]|
    ensures rt.heap[buf][..w] == old(rt.heap)[buf][..start] + EscapeAll(bytes)
  {
    hide Escape, EscapeAll;
    ghost var h := rt.heap;
    ghost var before := h[buf][..start];
    w := start;
    assert EscapeAll(bytes[..0]) == [] by { NoneEscaped(); }
    for i := 0 to |bytes|
      invariant buf in rt.heap && rt.heap == h[buf := rt.heap[buf]] && |rt.heap[buf]| == |h[buf]|
      invariant w == start + |EscapeAll(bytes[..i])| <= start + 4 * i
      invariant rt.heap[buf][..w] == before + EscapeAll(bytes[..i])
    {
      EscapeAllAppend(bytes[..i], bytes[i]);
      assert bytes[..i+1] == bytes[..i] + [bytes[i]];
      w := EmitEscaped(rt, buf, w, bytes[i]);
      assert before + EscapeAll(bytes[..i]) + Escape(bytes[i]) == before + EscapeAll(bytes[..i+1]);
    }
    assert bytes[..|bytes|] == bytes;
  }

  /** `__ryo_bytes_repr`: writes in place into a worst-case buffer and reports its real size. */
  method BytesRepr(rt: Runtime, out: array<Byte>, bytes: Bytes) returns (ok: bool)
    requires out.Length == SLOT_SIZE
    modifies rt`heap, rt`requests, out
    ensures !ok ==> 4 * |bytes| + 3 >= TWO_55 || rt.Denied(old(rt.requests))
    ensures ok ==> Effect(old(rt.heap), {}, rt.heap, out[..], rt.rodata, Repr(bytes))
    ensures ok ==> HeapSlot(out[..], rt.heap) && CapWord(out[..]) == 4 * |bytes| + 3
  {
    hide Effect, HeapSlot, CapWord, Escape, EscapeAll;
    var cap := 4 * |bytes| + 3;
    if cap >= TWO_64 { return false; }
    var buf;
    ok, buf := rt.Malloc(cap);
    if !ok { return; }
    var w := Emit(rt, buf, 0, 98);
    w := Emit(rt, buf, w, 34);
    w := EmitAll(rt, buf, w, bytes);
    w := Emit(rt, buf, w, 34);
    StoreTriple(out, buf, w, cap);
    assert rt.heap[buf][..w] == Repr(bytes);
    HeapTriple(old(rt.heap), rt.heap, {}, buf, w, cap, rt.rodata, Repr(bytes));
    TripleWords(buf, w, cap);
  }
}
