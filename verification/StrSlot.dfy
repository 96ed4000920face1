/** The tagged small-string runtime: one 24-byte slot that is inline bytes, a heap buffer or a
    static sentinel, and the operations that move between the three. */
module SlotBytes {
  import opened Common

  const INLINE_CAP: nat := 23
  const SLOT_SIZE: nat := 24
  const TWO_54: nat := 0x40_0000_0000_0000
  const TWO_55: nat := 0x80_0000_0000_0000
  const TWO_56: nat := 0x100_0000_0000_0000
  const TWO_64: nat := 0x1_0000_0000_0000_0000

  /** Little-endian value of a byte string. */
  function Value(b: Bytes): nat {
    if b == [] then 0 else b[0] + 256 * Value(b[1..])
  }

  /** The `n` low bytes of `v`, little-endian. */
  function Encode(v: nat, n: nat): (r: Bytes)
    ensures |r| == n
  {
    if n == 0 then [] else [v % 256] + Encode(v / 256, n - 1)
  }

  function Pow256(n: nat): (r: nat)
    ensures r > 0
  {
    if n == 0 then 1 else 256 * Pow256(n - 1)
  }

  lemma {:induction false} EncodeRoundTrip(v: nat, n: nat)
    requires v < Pow256(n)
    ensures Value(Encode(v, n)) == v
  {
    if n > 0 {
      EncodeRoundTrip(v / 256, n - 1);
      assert Encode(v, n)[1..] == Encode(v / 256, n - 1);
    }
  }

  lemma {:induction false} ValueBound(b: Bytes)
    ensures Value(b) < Pow256(|b|)
  {
    if b != [] { ValueBound(b[1..]); }
  }

  lemma {:induction false} ValueSplit(a: Bytes, b: Bytes)
    ensures Value(a + b) == Value(a) + Pow256(|a|) * Value(b)
  {
    if a == [] {
      assert a + b == b;
    } else {
      ValueSplit(a[1..], b);
      assert (a + b)[1..] == a[1..] + b;
      assert Value(a + b) == a[0] + 256 * (Value(a[1..]) + Pow256(|a| - 1) * Value(b));
      assert 256 * (Pow256(|a| - 1) * Value(b)) == (256 * Pow256(|a| - 1)) * Value(b);
    }
  }

  lemma Pow256Constants()
    ensures Pow256(7) == TWO_56 && Pow256(8) == TWO_64
  {
    assert Pow256(3) == 0x100_0000;
    assert Pow256(6) == 0x1_0000_0000_0000;
  }

  // ---------- Words of a slot ----------

  type Slot = s: Bytes | |s| == SLOT_SIZE witness seq(24, _ => 0)

  function PtrWord(s: Slot): nat { Value(s[0..8]) }
  function LenWord(s: Slot): nat { Value(s[8..16]) }
  function CapWord(s: Slot): nat { Value(s[16..24]) }

  /** The slot holding three machine words. */
  function Triple(ptr: nat, len: nat, cap: nat): Slot {
    Encode(ptr, 8) + Encode(len, 8) + Encode(cap, 8)
  }

  lemma TripleWords(ptr: nat, len: nat, cap: nat)
    requires ptr < TWO_64 && len < TWO_64 && cap < TWO_64
    ensures PtrWord(Triple(ptr, len, cap)) == ptr
    ensures LenWord(Triple(ptr, len, cap)) == len
    ensures CapWord(Triple(ptr, len, cap)) == cap
  {
    var s := Triple(ptr, len, cap);
    Pow256Constants();
    EncodeRoundTrip(ptr, 8);
    EncodeRoundTrip(len, 8);
    EncodeRoundTrip(cap, 8);
    assert s[0..8] == Encode(ptr, 8) && s[8..16] == Encode(len, 8) && s[16..24] == Encode(cap, 8);
  }

  /** `(cap >> 56) & 0x80 != 0` and `(cap >> 56) & 0x7f`. */
  predicate IsInline(cap: nat) { (cap / TWO_56) / 128 % 2 == 1 }

  function InlineLen(cap: nat): nat { (cap / TWO_56) % 128 }

  /** `(0x80 | len) << 56`, kept as the byte it puts at offset 23. */
  function InlineTag(len: nat): Byte
    requires len <= INLINE_CAP
  {
    128 + len
  }

  /** The tag tests read byte 23 and nothing else, whatever data bytes 16 to 22 hold. */
  lemma TagIsLastByte(s: Slot)
    ensures CapWord(s) < TWO_64 && CapWord(s) / TWO_56 == s[23]
    ensures IsInline(CapWord(s)) <==> s[23] >= 128
    ensures InlineLen(CapWord(s)) == s[23] % 128
    ensures PtrWord(s) < TWO_64 && LenWord(s) < TWO_64
  {
    Pow256Constants();
    var low, top := s[16..23], s[23..24];
    assert s[16..24] == low + top;
    ValueSplit(low, top);
    ValueBound(low);
    assert top[1..] == [] && Value(top) == s[23];
    ValueBound(s[0..8]);
    ValueBound(s[8..16]);
    var v := Value(low);
    assert CapWord(s) == v + TWO_56 * s[23] && v < TWO_56;
    assert (v + TWO_56 * s[23]) / TWO_56 == s[23];
  }
}

/** The slot's meaning and its ledger entry, over the allocations that are live. */
module SlotModel {
  import opened Common
  import opened SlotBytes
  import opened Layout

  type Heap = map<nat, Bytes>

  /** The tag byte says inline. */
  ghost predicate InlineSlot(s: Slot) { 128 <= s[23] <= 128 + INLINE_CAP }

  /** A heap triple: the pointer is a live allocation of exactly `cap` bytes holding the text. */
  ghost predicate HeapSlot(s: Slot, heap: Heap) {
    && s[23] < 128 && 0 < CapWord(s) < TWO_55
    && PtrWord(s) != 0 && PtrWord(s) in heap && |heap[PtrWord(s)]| == CapWord(s) && LenWord(s) <= CapWord(s)
  }

  /** The `cap == 0` sentinel over read-only storage. */
  ghost predicate StaticSlot(s: Slot, rodata: Heap) {
    && CapWord(s) == 0
    && (LenWord(s) == 0 || (PtrWord(s) in rodata && LenWord(s) <= |rodata[PtrWord(s)]|))
  }

  ghost predicate Valid(s: Slot, heap: Heap, rodata: Heap) {
    InlineSlot(s) || HeapSlot(s, heap) || StaticSlot(s, rodata)
  }

  ghost function Content(s: Slot, heap: Heap, rodata: Heap): Bytes
    requires Valid(s, heap, rodata)
  {
    if InlineSlot(s) then s[..s[23] - 128]
    else if CapWord(s) > 0 then heap[PtrWord(s)][..LenWord(s)]
    else if LenWord(s) == 0 then []
    else rodata[PtrWord(s)][..LenWord(s)]
  }

  /** What `ryo_str_free` leaves of the live allocations. */
  function Freed(heap: Heap, ptr: nat, cap: nat): Heap {
    if IsInline(cap) || ptr == 0 || cap == 0 then heap else heap - {ptr}
  }

  /** The allocation a slot owns: its buffer when heap-tagged, none otherwise. */
  ghost function Owned(s: Slot): set<nat> {
    if !IsInline(CapWord(s)) && CapWord(s) > 0 then {PtrWord(s)} else {}
  }

  /** The one contract of every operation on a slot: what it owned (`given`) is gone or still
      its own, it owns only that or a fresh allocation, and every other allocation is untouched. */
  ghost predicate Effect(heap: Heap, given: set<nat>, heap': Heap, s': Slot, rodata: Heap, content: Bytes) {
    && Valid(s', heap', rodata)
    && Content(s', heap', rodata) == content
    && heap'.Keys == (heap.Keys - given) + Owned(s')
    && Owned(s') !! (heap.Keys - given)
    && forall p :: p in heap && p !in given ==> heap'[p] == heap[p]
  }

  /** A heap slot over an allocation that was not there before. */
  ghost predicate FreshHeap(heap: Heap, heap': Heap, s': Slot, len: nat, cap: nat) {
    HeapSlot(s', heap') && PtrWord(s') !in heap && LenWord(s') == len && CapWord(s') == cap
  }

  // ---------- Building each representation ----------

  lemma InlineEffect(heap: Heap, s': Slot, rodata: Heap, content: Bytes)
    requires |content| <= INLINE_CAP && s'[23] == InlineTag(|content|) && s'[..|content|] == content
    ensures Effect(heap, {}, heap, s', rodata, content) && Owned(s') == {}
  {
    TagIsLastByte(s');
  }

  lemma HeapTriple(heap: Heap, heap': Heap, given: set<nat>, ptr: nat, len: nat, cap: nat, rodata: Heap, content: Bytes)
    requires 0 < ptr < TWO_64 && len <= cap < TWO_55 && cap > 0
    requires ptr !in heap.Keys - given && heap'.Keys == (heap.Keys - given) + {ptr}
    requires |heap'[ptr]| == cap && heap'[ptr][..len] == content
    requires forall p :: p in heap && p !in given ==> heap'[p] == heap[p]
    ensures Effect(heap, given, heap', Triple(ptr, len, cap), rodata, content)
    ensures Owned(Triple(ptr, len, cap)) == {ptr} && HeapSlot(Triple(ptr, len, cap), heap')
  {
    TripleWords(ptr, len, cap);
    TagIsLastByte(Triple(ptr, len, cap));
  }

  lemma StaticTriple(heap: Heap, ptr: nat, len: nat, rodata: Heap, content: Bytes)
    requires ptr < TWO_64 && len < TWO_64
    requires if len == 0 then content == [] else ptr in rodata && len <= |rodata[ptr]| && content == rodata[ptr][..len]
    ensures Effect(heap, {}, heap, Triple(ptr, len, 0), rodata, content)
  {
    TripleWords(ptr, len, 0);
    TagIsLastByte(Triple(ptr, len, 0));
  }

  /** The three representations never overlap, and each is told apart by the cap word alone. */
  lemma KindsDisjoint(s: Slot, heap: Heap, rodata: Heap)
    requires Valid(s, heap, rodata)
    ensures IsInline(CapWord(s)) <==> InlineSlot(s)
    ensures InlineSlot(s) ==> InlineLen(CapWord(s)) == s[23] - 128 == |Content(s, heap, rodata)| && Owned(s) == {}
    ensures !IsInline(CapWord(s)) && CapWord(s) > 0 <==> HeapSlot(s, heap)
    ensures HeapSlot(s, heap) ==> Owned(s) == {PtrWord(s)} && Owned(s) <= heap.Keys
    ensures !IsInline(CapWord(s)) && CapWord(s) == 0 <==> StaticSlot(s, rodata)
    ensures StaticSlot(s, rodata) ==> Owned(s) == {}
    ensures !IsInline(CapWord(s)) ==> |Content(s, heap, rodata)| == LenWord(s)
  {
    TagIsLastByte(s);
  }

  /** Freeing a valid slot releases exactly what it owns. */
  lemma FreedIsOwned(s: Slot, heap: Heap, rodata: Heap)
    requires Valid(s, heap, rodata)
    ensures Freed(heap, PtrWord(s), CapWord(s)) == heap - Owned(s)
    ensures Owned(s) <= heap.Keys && 0 !in Owned(s)
    ensures !IsInline(CapWord(s)) && CapWord(s) != 0 ==> PtrWord(s) in heap
  {
    KindsDisjoint(s, heap, rodata);
  }

  /** The words and the text of each kind of slot. */
  lemma SlotText(s: Slot, heap: Heap, rodata: Heap)
    requires Valid(s, heap, rodata)
    ensures InlineSlot(s) ==> var n := InlineLen(CapWord(s)); n <= INLINE_CAP && Content(s, heap, rodata) == s[..n]
    ensures HeapSlot(s, heap) ==>
        LenWord(s) <= |heap[PtrWord(s)]| && Content(s, heap, rodata) == heap[PtrWord(s)][..LenWord(s)]
    ensures StaticSlot(s, rodata) ==>
      Content(s, heap, rodata) == if LenWord(s) == 0 then [] else rodata[PtrWord(s)][..LenWord(s)]
    ensures HeapSlot(s, heap) ==> 0 < PtrWord(s) < TWO_64 && PtrWord(s) in heap
                                  && |heap[PtrWord(s)]| == CapWord(s) && LenWord(s) <= CapWord(s) < TWO_55
                                       && CapWord(s) > 0
  {
    KindsDisjoint(s, heap, rodata);
    TagIsLastByte(s);
  }

  /** Two operations in a row on one slot. */
  lemma EffectThen(heap: Heap, given: set<nat>, heap1: Heap, s1: Slot, heap2: Heap, s2: Slot, rodata: Heap,
      text1: Bytes, text2: Bytes)
    requires Effect(heap, given, heap1, s1, rodata, text1) && Effect(heap1, Owned(s1), heap2, s2, rodata, text2)
    ensures Effect(heap, given, heap2, s2, rodata, text2)
  {
    hide Valid, Content, Owned;
  }

  // ---------- Capacity policy ----------

  /** The least doubling of `p` that reaches `n`. */
  function DoubleUntil(p: nat, n: nat): (r: nat)
    requires p > 0
    ensures r >= n && r >= p && (r == p || r < 2 * n)
    decreases if p >= n then 0 else n - p
  {
    if p >= n then p else DoubleUntil(2 * p, n)
  }

  lemma {:induction false} DoubleUntilLeast(j: nat, n: nat, k: nat)
    requires Pow2(k) >= n && k >= j
    ensures DoubleUntil(Pow2(j), n) <= Pow2(k) && exists i: nat :: i >= j && DoubleUntil(Pow2(j), n) == Pow2(i)
    decreases k - j
  {
    Pow2Divides(j, k);
    if Pow2(j) < n {
      assert Pow2(j + 1) == 2 * Pow2(j) && k != j;
      DoubleUntilLeast(j + 1, n, k);
    }
  }

  lemma {:induction false} Pow2Reaches(n: nat)
    ensures exists k: nat :: Pow2(k) >= n
  {
    if n == 0 {
      assert Pow2(0) >= n;
    } else {
      Pow2Reaches(n - 1);
      var k: nat :| Pow2(k) >= n - 1;
      assert Pow2(k + 1) == 2 * Pow2(k) && Pow2(k) >= 1;
      assert Pow2(k + 1) >= n;
    }
  }

  /** The capacity given to `min` bytes is the least power of two that holds them and is at least 16. */
  lemma GrowthCapLeast(min: nat)
    ensures IsPow2(GrowthCap(min)) && GrowthCap(min) >= Max(min, 16)
    ensures forall k: nat :: Pow2(k) >= Max(min, 16) ==> GrowthCap(min) <= Pow2(k)
  {
    Pow2Reaches(min);
    var m: nat :| Pow2(m) >= min;
    assert Pow2(0) == 1 && Pow2(4) == 16;
    DoubleUntilLeast(0, min, m);
    forall k: nat | Pow2(k) >= Max(min, 16) ensures GrowthCap(min) <= Pow2(k) {
      DoubleUntilLeast(0, min, k);
    }
  }

  /** `growth_cap`: next power of two, floor 16. */
  function GrowthCap(min: nat): (r: nat)
    ensures r >= min && r >= 16 && (r == 16 || r < 2 * min)
  {
    Max(DoubleUntil(1, min), 16)
  }

  function Doubled(cap: nat): nat { if 2 * cap >= TWO_64 then TWO_64 - 1 else 2 * cap }
}

module StrSlot {
  import opened Common
  import opened SlotBytes
  import opened SlotModel

  /** The process memory: live allocations by base address, and read-only storage. */
  class Runtime {
    var heap: Heap
    const rodata: Heap
    /** Whether the allocator is going to refuse its `k`-th request. */
    const refuses: nat -> bool
    var requests: nat
    /** Bytes moved by reallocations so far. */
    ghost var moved: nat

    /** The allocator refused a request made since `since`, or no address is left. */
    ghost predicate Denied(since: nat)
      reads this
    {
      (exists k :: since <= k < requests && refuses(k)) || forall p: nat :: 0 < p < TWO_64 ==> p in heap
    }

    /** The allocator: refuses, or hands out a new non-null address. No request of 2^55 bytes
        or more is ever granted. */
    method Malloc(size: nat) returns (ok: bool, ptr: nat)
      requires size > 0
      modifies `heap, `requests
      ensures old(requests) <= requests
      ensures !ok ==> heap == old(heap) && (size >= TWO_55 || Denied(old(requests)))
      ensures ok ==> size < TWO_55 && 0 < ptr < TWO_64 && ptr !in old(heap)
      ensures ok ==> heap.Keys == old(heap).Keys + {ptr} && |heap[ptr]| == size
      ensures forall p :: p in old(heap) ==> p in heap && heap[p] == old(heap)[p]
    {
      ok, ptr := false, 0;
      var request := requests;
      requests := requests + 1;
      if refuses(request) || size >= TWO_55 { return; }
      if p: nat :| 0 < p < TWO_64 && p !in heap {
        assert |seq<Byte>(size, _ => 0)| == size;
        var garbage: Bytes :| |garbage| == size;
        ok, ptr := true, p;
        heap := heap[p := garbage];
      }
    }

    /** What was refused later was refused since earlier. */
    lemma DeniedEarlier(since: nat, later: nat)
      requires since <= later
      ensures Denied(later) ==> Denied(since)
    {
    }

    /** `realloc`: keeps the bytes both sizes share; the old address is released. */
    method CRealloc(oldPtr: nat, size: nat) returns (ok: bool, ptr: nat)
      requires oldPtr in heap && size > 0
      modifies `heap, `requests
      ensures old(requests) <= requests
      ensures !ok ==> heap == old(heap) && (size >= TWO_55 || Denied(old(requests)))
      ensures ok ==> size < TWO_55 && 0 < ptr < TWO_64 && ptr !in old(heap).Keys - {oldPtr}
      ensures ok ==> heap.Keys == (old(heap).Keys - {oldPtr}) + {ptr} && |heap[ptr]| == size
      ensures ok ==> var kept := Min(|old(heap)[oldPtr]|, size); heap[ptr][..kept] == old(heap)[oldPtr][..kept]
      ensures forall p :: p in old(heap) && p != oldPtr ==> p in heap && heap[p] == old(heap)[p]
    {
      ok, ptr := Malloc(size);
      if ok {
        var kept := Min(|heap[oldPtr]|, size);
        heap := heap[ptr := heap[oldPtr][..kept] + heap[ptr][kept..]] - {oldPtr};
      }
    }

    method CFree(ptr: nat)
      requires ptr in heap
      modifies `heap
      ensures heap == old(heap) - {ptr}
    {
      heap := heap - {ptr};
    }

    /** `ryo_str_alloc`: a zero capacity is the null pointer. */
    method StrAlloc(cap: nat) returns (ok: bool, ptr: nat)
      modifies `heap, `requests
      ensures old(requests) <= requests
      ensures !ok ==> heap == old(heap) && (cap >= TWO_55 || Denied(old(requests)))
      ensures cap == 0 ==> ok && ptr == 0 && heap == old(heap)
      ensures ok && cap > 0 ==> cap < TWO_55 && 0 < ptr < TWO_64 && ptr !in old(heap)
      ensures ok && cap > 0 ==> heap.Keys == old(heap).Keys + {ptr} && |heap[ptr]| == cap
      ensures forall p :: p in old(heap) ==> p in heap && heap[p] == old(heap)[p]
    {
      if cap == 0 { return true, 0; }
      ok, ptr := Malloc(cap);
    }

    /** `ryo_str_realloc`: allocates when there is nothing to move, frees when nothing is wanted, and
        otherwise moves the allocation, keeping the bytes both sizes share. */
    method Realloc(oldPtr: nat, oldCap: nat, newCap: nat) returns (ok: bool, ptr: nat)
      requires oldPtr != 0 && oldCap != 0 ==> !IsInline(oldCap) && oldPtr in heap && |heap[oldPtr]| == oldCap
      modifies `heap, `requests, `moved
      ensures old(requests) <= requests
      ensures var given := if oldPtr != 0 && oldCap != 0 then {oldPtr} else {};
        && (!ok ==> heap == old(heap) && moved == old(moved) && (newCap >= TWO_55 || Denied(old(requests))))
        && (ok && newCap == 0 ==> ptr == 0 && heap == old(heap) - given && moved == old(moved))
        && (ok && newCap > 0 ==>
              && newCap < TWO_55 && 0 < ptr < TWO_64 && ptr !in old(heap).Keys - given
              && heap.Keys == (old(heap).Keys - given) + {ptr} && |heap[ptr]| == newCap
              && (given == {} ==> moved == old(moved))
              && (given != {} ==> var kept := Min(oldCap, newCap);
                    heap[ptr][..kept] == old(heap)[oldPtr][..kept] && moved == old(moved) + kept))
        && (forall p :: p in old(heap) && p !in given ==> p in heap && heap[p] == old(heap)[p])
    {
      if oldPtr == 0 || oldCap == 0 {
        ok, ptr := StrAlloc(newCap);
      } else if newCap == 0 {
        StrFree(oldPtr, oldCap);
        return true, 0;
      } else {
        ok, ptr := CRealloc(oldPtr, newCap);
        if ok { moved := moved + Min(oldCap, newCap); }
      }
    }

    /** Writes `bytes` at offset `off` of an allocation. */
    method Store(ptr: nat, off: nat, bytes: Bytes)
      requires ptr in heap && off + |bytes| <= |heap[ptr]|
      modifies `heap
      ensures ptr in heap && heap == old(heap)[ptr := heap[ptr]] && |heap[ptr]| == |old(heap)[ptr]|
      ensures heap[ptr][..off] == old(heap)[ptr][..off]
      ensures heap[ptr][off..off+|bytes|] == bytes
    {
      heap := heap[ptr := heap[ptr][..off] + bytes + heap[ptr][off+|bytes|..]];
    }

    /** `ryo_str_free`: one release for a heap slot, nothing for inline and static slots. */
    method StrFree(ptr: nat, cap: nat)
      requires !IsInline(cap) && ptr != 0 && cap != 0 ==> ptr in heap
      modifies `heap
      ensures heap == Freed(old(heap), ptr, cap)
    {
      if IsInline(cap) || ptr == 0 || cap == 0 { return; }
      heap := heap - {ptr};
    }

    /** Short text written over the slot's own storage. */
    method FillInline(out: array<Byte>, l: Bytes, r: Bytes)
      requires out.Length == SLOT_SIZE && |l| + |r| <= INLINE_CAP
      modifies out
      ensures InlineSlot(out[..]) && Effect(heap, {}, heap, out[..], rodata, l + r)
    {
      CopyIn(out, 0, l);
      CopyIn(out, |l|, r);
      WriteInlineTag(out, |l| + |r|);
      assert out[..][..|l| + |r|] == l + r;
      InlineEffect(heap, out[..], rodata, l + r);
    }

    /** Text written into a fresh buffer, and the slot made its triple. */
    method FillHeap(out: array<Byte>, l: Bytes, r: Bytes, cap: nat) returns (ok: bool)
      requires out.Length == SLOT_SIZE && |l| + |r| <= cap && cap > 0
      modifies `heap, `requests, out
      ensures old(requests) <= requests
      ensures !ok ==> cap >= TWO_55 || Denied(old(requests))
      ensures ok ==> FreshHeap(old(heap), heap, out[..], |l| + |r|, cap) && !InlineSlot(out[..])
      ensures ok ==> Effect(old(heap), {}, heap, out[..], rodata, l + r)
    {
      hide Effect, HeapSlot, InlineSlot, LenWord, CapWord, Denied, Triple, Owned;
      var ptr;
      ok, ptr := StrAlloc(cap);
      if ok {
        Store(ptr, 0, l);
        Store(ptr, |l|, r);
        StoreTriple(out, ptr, |l| + |r|, cap);
        Glue(heap[ptr], l, r);
        HeapTriple(old(heap), heap, {}, ptr, |l| + |r|, cap, rodata, l + r);
        TripleWords(ptr, |l| + |r|, cap);
        TripleIsHeap(out[..], heap, rodata);
      }
    }

    /** `write_str_slot`: the producer behind every slot-out function. */
    method WriteStrSlot(out: array<Byte>, bytes: Bytes) returns (ok: bool)
      requires out.Length == SLOT_SIZE
      modifies `heap, `requests, out
      ensures old(requests) <= requests
      ensures ok ==> Effect(old(heap), {}, heap, out[..], rodata, bytes)
      ensures !ok ==> |bytes| >= TWO_54 || Denied(old(requests))
      ensures |bytes| < SLOT_SIZE ==> ok && heap == old(heap) && InlineSlot(out[..])
      ensures ok && |bytes| >= SLOT_SIZE ==> FreshHeap(old(heap), heap, out[..], |bytes|, GrowthCap(|bytes|))
    {
      hide Effect, HeapSlot, InlineSlot;
      assert bytes + [] == bytes;
      if |bytes| <= INLINE_CAP {
        FillInline(out, bytes, []);
        ok := true;
      } else {
        ok := FillHeap(out, bytes, [], GrowthCap(|bytes|));
      }
    }

    /** `ryo_str_concat`: an empty result is the all-zero static sentinel. */
    method StrConcat(out: array<Byte>, l: Bytes, r: Bytes) returns (ok: bool)
      requires out.Length == SLOT_SIZE
      modifies `heap, `requests, out
      ensures old(requests) <= requests
      ensures ok ==> Effect(old(heap), {}, heap, out[..], rodata, l + r)
      ensures !ok ==> |l| + |r| >= TWO_54 || Denied(old(requests))
      ensures ok && |l| + |r| == 0 ==> out[..] == Triple(0, 0, 0) && heap == old(heap)
      ensures ok && 0 < |l| + |r| <= INLINE_CAP ==> InlineSlot(out[..]) && heap == old(heap)
      ensures ok && |l| + |r| > INLINE_CAP ==> FreshHeap(old(heap), heap, out[..], |l| + |r|, GrowthCap(|l| + |r|))
    {
      hide Effect, HeapSlot, InlineSlot, FreshHeap, Triple;
      var total := |l| + |r|;
      if total >= TWO_64 { return false; }
      ok := true;
      if total == 0 {
        StoreTriple(out, 0, 0, 0);
        StaticTriple(heap, 0, 0, rodata, l + r);
      } else if total <= INLINE_CAP {
        FillInline(out, l, r);
      } else {
        ok := FillHeap(out, l, r, GrowthCap(total));
      }
    }

    /** `__ryo_str_push`. */
    method StrPush(slot: array<Byte>, suffix: Bytes) returns (ok: bool)
      requires slot.Length == SLOT_SIZE && Valid(slot[..], heap, rodata)
      modifies `heap, `requests, `moved, slot
      ensures old(requests) <= requests
      ensures !ok ==> old(|Content(slot[..], heap, rodata)|) + |suffix| >= TWO_54 || Denied(old(requests))
      ensures ok ==> Effect(old(heap), old(Owned(slot[..])), heap, slot[..], rodata,
                            old(Content(slot[..], heap, rodata)) + suffix)
      ensures ok && old(HeapSlot(slot[..], heap)) ==>
                HeapSlot(slot[..], heap)
                && (LenWord(slot[..]), CapWord(slot[..]), moved) ==
                   GrowStep(old(LenWord(slot[..])), old(CapWord(slot[..])), old(moved), |suffix|)
      ensures ok && !old(HeapSlot(slot[..], heap)) ==> moved == old(moved)
      ensures ok && !old(HeapSlot(slot[..], heap)) ==>
                var len := old(|Content(slot[..], heap, rodata)|) + |suffix|;
                if len <= INLINE_CAP then InlineSlot(slot[..]) && heap == old(heap)
                else
                  FreshHeap(old(heap), heap, slot[..], len, if old(InlineSlot(slot[..])) then GrowthCap(len) else len)
    {
      KindsDisjoint(slot[..], heap, rodata);
      hide Effect, HeapSlot, InlineSlot, StaticSlot, Content, Owned, IsInline, CapWord, LenWord, PtrWord;
      hide Valid, Denied, GrowStep;
      var cap := CapWord(slot[..]);
      if IsInline(cap) {
        ok := PushInline(slot, suffix);
      } else if cap == 0 {
        ok := PushStatic(slot, suffix);
      } else {
        ok := PushHeap(slot, suffix);
      }
    }

    /** The inline branches of push: stay inline, or promote through a temporary copy. */
    method PushInline(slot: array<Byte>, suffix: Bytes) returns (ok: bool)
      requires slot.Length == SLOT_SIZE && InlineSlot(slot[..]) && Valid(slot[..], heap, rodata)
      modifies `heap, `requests, slot
      ensures old(requests) <= requests
      ensures !ok ==> old(|Content(slot[..], heap, rodata)|) + |suffix| >= TWO_54 || Denied(old(requests))
      ensures ok ==> Effect(old(heap), {}, heap, slot[..], rodata, old(Content(slot[..], heap, rodata)) + suffix)
      ensures var len := old(|Content(slot[..], heap, rodata)|) + |suffix|;
        ok ==> if len <= INLINE_CAP then InlineSlot(slot[..]) && heap == old(heap)
               else FreshHeap(old(heap), heap, slot[..], len, GrowthCap(len))
    {
      SlotText(slot[..], heap, rodata);
      hide Effect, HeapSlot, InlineSlot, Content, CapWord, Valid, Denied, FreshHeap;
      ghost var before := Content(slot[..], heap, rodata);
      var ilen := InlineLen(CapWord(slot[..]));
      var newLen := ilen + |suffix|;
      if newLen >= TWO_64 { return false; }
      if newLen <= INLINE_CAP {
        AppendInline(slot, ilen, suffix);
        ok := true;
      } else {
        var tmp := slot[..ilen];
        assert tmp == before;
        ok := FillHeap(slot, tmp, suffix, GrowthCap(newLen));
      }
    }

    /** The short result of an inline push: only the new bytes and the tag are written. */
    method AppendInline(slot: array<Byte>, ilen: nat, suffix: Bytes)
      requires slot.Length == SLOT_SIZE && ilen + |suffix| <= INLINE_CAP
      modifies slot
      ensures InlineSlot(slot[..]) && Effect(heap, {}, heap, slot[..], rodata, old(slot[..][..ilen]) + suffix)
    {
      ghost var before := slot[..][..ilen];
      CopyIn(slot, ilen, suffix);
      WriteInlineTag(slot, ilen + |suffix|);
      assert slot[..][..ilen + |suffix|] == before + suffix;
      InlineEffect(heap, slot[..], rodata, before + suffix);
    }

    /** The static branches of push: copy off read-only storage into the slot when the result is
        short, else into a fresh buffer of exactly the result's length. */
    method PushStatic(slot: array<Byte>, suffix: Bytes) returns (ok: bool)
      requires slot.Length == SLOT_SIZE && StaticSlot(slot[..], rodata) && Valid(slot[..], heap, rodata)
      modifies `heap, `requests, slot
      ensures old(requests) <= requests
      ensures !ok ==> old(|Content(slot[..], heap, rodata)|) + |suffix| >= TWO_54 || Denied(old(requests))
      ensures ok ==> Effect(old(heap), {}, heap, slot[..], rodata, old(Content(slot[..], heap, rodata)) + suffix)
      ensures var len := old(|Content(slot[..], heap, rodata)|) + |suffix|;
        ok ==> if len <= INLINE_CAP then InlineSlot(slot[..]) && heap == old(heap)
               else FreshHeap(old(heap), heap, slot[..], len, len)
    {
      var tmp := StaticBytes(slot);
      hide Effect, HeapSlot, InlineSlot, StaticSlot, Content, Valid, Denied, FreshHeap;
      var newLen := |tmp| + |suffix|;
      if newLen >= TWO_64 { return false; }
      if newLen <= INLINE_CAP {
        FillInline(slot, tmp, suffix);
        ok := true;
      } else {
        ok := FillHeap(slot, tmp, suffix, newLen);
      }
    }

    /** The bytes a static slot points at. */
    method StaticBytes(slot: array<Byte>) returns (bytes: Bytes)
      requires slot.Length == SLOT_SIZE && StaticSlot(slot[..], rodata) && Valid(slot[..], heap, rodata)
      ensures bytes == Content(slot[..], heap, rodata)
    {
      SlotText(slot[..], heap, rodata);
      hide Content, CapWord, IsInline;
      var ptr, len := PtrWord(slot[..]), LenWord(slot[..]);
      bytes := if len > 0 then rodata[ptr][..len] else [];
    }

    /** The heap branches of push: reuse the buffer when it fits, else at least double it. */
    method PushHeap(slot: array<Byte>, suffix: Bytes) returns (ok: bool)
      requires slot.Length == SLOT_SIZE && HeapSlot(slot[..], heap) && Valid(slot[..], heap, rodata)
      requires !IsInline(CapWord(slot[..])) && Owned(slot[..]) == {PtrWord(slot[..])}
      modifies `heap, `requests, `moved, slot
      ensures old(requests) <= requests
      ensures !ok ==> old(|Content(slot[..], heap, rodata)|) + |suffix| >= TWO_54 || Denied(old(requests))
      ensures ok ==> Effect(old(heap), old(Owned(slot[..])), heap, slot[..], rodata,
                            old(Content(slot[..], heap, rodata)) + suffix)
      ensures ok ==> HeapSlot(slot[..], heap)
                     && (LenWord(slot[..]), CapWord(slot[..]), moved) ==
                        GrowStep(old(LenWord(slot[..])), old(CapWord(slot[..])), old(moved), |suffix|)
    {
      SlotText(slot[..], heap, rodata);
      hide Content, Effect, Valid, HeapSlot, PtrWord, LenWord, CapWord, Owned, IsInline, StaticSlot;
      hide InlineSlot, Denied, GrowStep;
      ghost var before := Content(slot[..], heap, rodata);
      var ptr, len, cap := PtrWord(slot[..]), LenWord(slot[..]), CapWord(slot[..]);
      var newLen := len + |suffix|;
      if newLen >= TWO_64 { return false; }
      var buf, newCap;
      ok, buf, newCap := GrowBuffer(ptr, len, cap, newLen);
      if !ok { return; }
      Store(buf, len, suffix);
      StoreTriple(slot, buf, newLen, newCap);
      assert heap[buf][..newLen] == before + suffix by { Glue(heap[buf], before, suffix); }
      HeapTriple(old(heap), heap, {ptr}, buf, newLen, newCap, rodata, before + suffix);
      TripleWords(buf, newLen, newCap);
    }

    /** The buffer for `newLen` bytes: the same one, or a reallocation to at least twice its size. */
    method GrowBuffer(ptr: nat, len: nat, cap: nat, newLen: nat) returns (ok: bool, buf: nat, newCap: nat)
      requires ptr in heap && 0 < ptr < TWO_64 && |heap[ptr]| == cap && !IsInline(cap)
      requires 0 < cap < TWO_55 && len <= cap && len <= newLen < TWO_64
      modifies `heap, `requests, `moved
      ensures old(requests) <= requests
      ensures !ok ==> newLen >= TWO_54 || Denied(old(requests))
      ensures ok ==> 0 < buf < TWO_64 && buf !in old(heap).Keys - {ptr} && heap.Keys == (old(heap).Keys - {ptr}) + {buf}
      ensures ok ==> |heap[buf]| == newCap && newLen <= newCap < TWO_55
      ensures ok ==> heap[buf][..len] == old(heap)[ptr][..len]
      ensures ok ==> (newLen, newCap, moved) == GrowStep(len, cap, old(moved), newLen - len)
      ensures forall p :: p in old(heap) && p != ptr ==> p in heap && heap[p] == old(heap)[p]
    {
      ok, buf, newCap := true, ptr, cap;
      if newLen > cap {
        newCap := Max(Doubled(cap), newLen);
        ok, buf := Realloc(ptr, cap, newCap);
        if ok {
          assert heap[buf][..len] == heap[buf][..cap][..len];
        }
      }
    }

    /** `__ryo_str_ensure_heap`: an inline slot becomes a heap slot with the same text. */
    method EnsureHeap(slot: array<Byte>) returns (ok: bool)
      requires slot.Length == SLOT_SIZE && Valid(slot[..], heap, rodata)
      modifies `heap, `requests, slot
      ensures old(requests) <= requests
      ensures !ok ==> Denied(old(requests))
      ensures ok ==> Effect(old(heap), old(Owned(slot[..])), heap, slot[..], rodata,
          old(Content(slot[..], heap, rodata)))
      ensures ok && old(InlineSlot(slot[..])) ==>
                var len := old(|Content(slot[..], heap, rodata)|);
                FreshHeap(old(heap), heap, slot[..], len, GrowthCap(len))
      ensures ok && !old(InlineSlot(slot[..])) ==> slot[..] == old(slot[..]) && heap == old(heap)
    {
      KindsDisjoint(slot[..], heap, rodata);
      SlotText(slot[..], heap, rodata);
      NoEffect(slot[..], heap, rodata);
      hide Effect, HeapSlot, InlineSlot, StaticSlot, Content, Owned, IsInline, CapWord, Valid, Denied, FreshHeap;
      ghost var before := Content(slot[..], heap, rodata);
      var cap := CapWord(slot[..]);
      if !IsInline(cap) { return true; }
      var tmp := slot[..InlineLen(cap)];
      assert tmp == before && tmp + [] == tmp;
      ok := FillHeap(slot, tmp, [], GrowthCap(|tmp|));
    }

    /** Releasing a valid slot: the code's free, which discharges exactly what the slot owned. */
    method FreeSlot(slot: array<Byte>)
      requires slot.Length == SLOT_SIZE && Valid(slot[..], heap, rodata)
      modifies `heap
      ensures heap == Freed(old(heap), PtrWord(slot[..]), CapWord(slot[..]))
      ensures heap == old(heap) - old(Owned(slot[..]))
    {
      FreedIsOwned(slot[..], heap, rodata);
      hide Owned, PtrWord, CapWord, IsInline, Valid;
      StrFree(PtrWord(slot[..]), CapWord(slot[..]));
    }

    /** A run of pushes onto one slot: the texts follow one another, and what all reallocations moved
        is less than twice the final length, or nothing. */
    method PushAll(slot: array<Byte>, suffixes: seq<Bytes>) returns (ok: bool)
      requires slot.Length == SLOT_SIZE && Valid(slot[..], heap, rodata)
      modifies `heap, `requests, `moved, slot
      ensures old(requests) <= requests
      ensures !ok ==> old(|Content(slot[..], heap, rodata)|) + |Flat(suffixes)| >= TWO_54 || Denied(old(requests))
      ensures ok ==> Effect(old(heap), old(Owned(slot[..])), heap, slot[..], rodata,
                            old(Content(slot[..], heap, rodata)) + Flat(suffixes))
      ensures ok ==> old(moved) <= moved
                     && (moved == old(moved) || moved - old(moved) < 2 * |Content(slot[..], heap, rodata)|)
      ensures ok && old(HeapSlot(slot[..], heap)) ==>
                (LenWord(slot[..]), CapWord(slot[..]), moved) ==
                GrowRun(old(LenWord(slot[..])), old(CapWord(slot[..])), old(moved), Lengths(suffixes))
    {
      RunStarts(slot[..], heap, rodata, moved, suffixes);
      hide Effect, HeapSlot, Content, Owned, CapWord, LenWord, Valid, Denied, GrowStep, GrowRun, Flat, Lengths, Pushed;
      ok := true;
      ghost var first := SlotNow(slot[..], heap, moved);
      ghost var firstCap := CapWord(slot[..]);
      for i := 0 to |suffixes|
        invariant slot.Length == SLOT_SIZE && old(requests) <= requests
        invariant Pushed(rodata, first, SlotNow(slot[..], heap, moved), suffixes, i, firstCap)
      {
        ghost var before := SlotNow(slot[..], heap, moved);
        ghost var earlier := requests;
        PushedValid(rodata, first, before, suffixes, i, firstCap);
        ok := StrPush(slot, suffixes[i]);
        if !ok {
          FlatPart(suffixes, i);
          DeniedEarlier(old(requests), earlier);
          return;
        }
        firstCap := PushedMore(rodata, first, before, SlotNow(slot[..], heap, moved), suffixes, i, firstCap);
      }
      PushedAll(rodata, first, SlotNow(slot[..], heap, moved), suffixes, firstCap);
    }
  }

  /** Copies bytes into the slot's storage. */
  method CopyIn(out: array<Byte>, off: nat, bytes: Bytes)
    requires off + |bytes| <= out.Length
    modifies out
    ensures out[..] == old(out[..off]) + bytes + old(out[off+|bytes|..])
  {
    forall i | 0 <= i < |bytes| {
      out[off + i] := bytes[i];
    }
  }

  /** The byte-23 store that leaves data bytes 16 to 22 alone. */
  method WriteInlineTag(out: array<Byte>, len: nat)
    requires out.Length == SLOT_SIZE && len <= INLINE_CAP
    modifies out
    ensures out[..] == old(out[..])[23 := InlineTag(len)]
  {
    out[23] := InlineTag(len);
  }

  /** The whole-struct store of a pointer, length and capacity. */
  method StoreTriple(out: array<Byte>, ptr: nat, len: nat, cap: nat)
    requires out.Length == SLOT_SIZE
    modifies out
    ensures out[..] == Triple(ptr, len, cap)
  {
    CopyIn(out, 0, Triple(ptr, len, cap));
  }

  lemma Glue(buf: Bytes, l: Bytes, r: Bytes)
    requires |l| + |r| <= |buf| && buf[..|l|] == l && buf[|l|..|l|+|r|] == r
    ensures buf[..|l|+|r|] == l + r
  {
    assert buf[..|l|+|r|] == buf[..|l|] + buf[|l|..|l|+|r|];
  }

  /** A triple with a capacity is no inline slot. */
  lemma TripleIsHeap(s: Slot, heap: Heap, rodata: Heap)
    requires HeapSlot(s, heap)
    ensures !InlineSlot(s)
  {
  }

  lemma NoEffect(s: Slot, heap: Heap, rodata: Heap)
    requires Valid(s, heap, rodata)
    ensures Effect(heap, Owned(s), heap, s, rodata, Content(s, heap, rodata))
  {
    KindsDisjoint(s, heap, rodata);
  }

  lemma EffectText(heap: Heap, given: set<nat>, heap': Heap, s: Slot, rodata: Heap, text: Bytes)
    requires Effect(heap, given, heap', s, rodata, text)
    ensures Valid(s, heap', rodata) && Content(s, heap', rodata) == text
  {
  }

  // ---------- Amortised growth ----------

  /** Length, capacity and bytes moved after pushing `add` bytes onto a heap slot. */
  function GrowStep(len: nat, cap: nat, moved: nat, add: nat): (nat, nat, nat) {
    var newLen := len + add;
    if newLen <= cap then (newLen, cap, moved) else (newLen, Max(Doubled(cap), newLen), moved + cap)
  }

  function GrowRun(len: nat, cap: nat, moved: nat, adds: seq<nat>): (nat, nat, nat)
    decreases |adds|
  {
    if adds == [] then (len, cap, moved)
    else var (l, c, m) := GrowStep(len, cap, moved, adds[0]); GrowRun(l, c, m, adds[1..])
  }

  /** Over any run of pushes onto a heap slot, all reallocations together move fewer than twice
      the final length, or nothing at all. */
  lemma {:induction false} AmortisedGrowth(len: nat, cap: nat, adds: seq<nat>)
    requires len <= cap && cap > 0 && GrowRun(len, cap, 0, adds).0 < TWO_55
    ensures var (l, c, m) := GrowRun(len, cap, 0, adds); m == 0 || m < 2 * l
  {
    GrowRunBound(len, cap, 0, cap, adds);
  }

  lemma {:induction false} RunGrows(len: nat, cap: nat, moved: nat, adds: seq<nat>)
    ensures GrowRun(len, cap, moved, adds).0 >= len
    decreases |adds|
  {
    if adds != [] {
      var (l, c, m) := GrowStep(len, cap, moved, adds[0]);
      RunGrows(l, c, m, adds[1..]);
    }
  }

  /** What a run of pushes keeps, `firstCap` being the capacity it started with: the bytes moved are
      within the capacity gained, and less than twice the length. */
  predicate Amortised(len: nat, cap: nat, moved: int, firstCap: nat) {
    len <= cap && 0 < firstCap <= cap && 0 <= moved <= cap - firstCap && (moved == 0 || moved < 2 * len)
  }

  lemma AmortisedStep(len: nat, cap: nat, moved: nat, firstCap: nat, add: nat, offset: nat)
    requires Amortised(len, cap, moved, firstCap)
    ensures var (l, c, m) := GrowStep(len, cap, moved + offset, add);
            c < TWO_55 ==> m >= offset && Amortised(l, c, m - offset, firstCap)
  {
  }

  lemma {:induction false} GrowRunBound(len: nat, cap: nat, moved: nat, firstCap: nat, adds: seq<nat>)
    requires Amortised(len, cap, moved, firstCap)
    requires GrowRun(len, cap, moved, adds).0 < TWO_55
    ensures var (l, c, m) := GrowRun(len, cap, moved, adds); m == 0 || m < 2 * l
    decreases |adds|
  {
    if adds != [] {
      var (l, c, m) := GrowStep(len, cap, moved, adds[0]);
      RunGrows(l, c, m, adds[1..]);
      GrowRunBound(l, c, m, firstCap, adds[1..]);
    }
  }

  /** One byte string after another. */
  function Flat(parts: seq<Bytes>): Bytes { if parts == [] then [] else parts[0] + Flat(parts[1..]) }

  function Lengths(parts: seq<Bytes>): seq<nat> { if parts == [] then [] else [|parts[0]|] + Lengths(parts[1..]) }

  lemma {:induction false} FlatAppend(parts: seq<Bytes>, part: Bytes)
    ensures Flat(parts + [part]) == Flat(parts) + part
  {
    if parts == [] {
      assert [part][1..] == [] && parts + [part] == [part];
    } else {
      assert (parts + [part])[1..] == parts[1..] + [part];
      FlatAppend(parts[1..], part);
    }
  }

  lemma FlatNext(start: Bytes, parts: seq<Bytes>, i: nat)
    requires i < |parts|
    ensures start + Flat(parts[..i+1]) == start + Flat(parts[..i]) + parts[i]
  {
    assert parts[..i+1] == parts[..i] + [parts[i]];
    FlatAppend(parts[..i], parts[i]);
  }

  lemma {:induction false} FlatPart(parts: seq<Bytes>, i: nat)
    requires i < |parts|
    ensures |Flat(parts[..i])| + |parts[i]| <= |Flat(parts)|
  {
    if i == 0 {
      assert parts[..0] == [];
    } else {
      FlatPart(parts[1..], i - 1);
      assert parts[..i][0] == parts[0] && parts[..i][1..] == parts[1..][..i-1];
    }
  }

  /** A slot, the live allocations and the bytes moved so far. */
  datatype SlotNow = SlotNow(slot: Slot, heap: Heap, moved: nat)

  /** Where a run of pushes that began at `a` is after `i` of them. */
  ghost predicate Pushed(rodata: Heap, a: SlotNow, b: SlotNow, suffixes: seq<Bytes>, i: nat, firstCap: nat) {
    && i <= |suffixes| && Valid(a.slot, a.heap, rodata) && Valid(b.slot, b.heap, rodata) && a.moved <= b.moved
    && Effect(a.heap, Owned(a.slot), b.heap, b.slot, rodata, Content(a.slot, a.heap, rodata) + Flat(suffixes[..i]))
    && (HeapSlot(a.slot, a.heap) ==>
          && HeapSlot(b.slot, b.heap)
          && GrowRun(LenWord(a.slot), CapWord(a.slot), a.moved, Lengths(suffixes))
             == GrowRun(LenWord(b.slot), CapWord(b.slot), b.moved, Lengths(suffixes[i..])))
    && (if HeapSlot(b.slot, b.heap) then Amortised(LenWord(b.slot), CapWord(b.slot), b.moved - a.moved, firstCap)
         else b.moved == a.moved)
  }

  lemma RunStarts(s: Slot, heap: Heap, rodata: Heap, moved: nat, suffixes: seq<Bytes>)
    requires Valid(s, heap, rodata)
    ensures Pushed(rodata, SlotNow(s, heap, moved), SlotNow(s, heap, moved), suffixes, 0, CapWord(s))
  {
    NoEffect(s, heap, rodata);
    SlotText(s, heap, rodata);
    assert suffixes[..0] == [] && suffixes[0..] == suffixes;
    assert Content(s, heap, rodata) + [] == Content(s, heap, rodata);
  }

  lemma PushedValid(rodata: Heap, a: SlotNow, b: SlotNow, suffixes: seq<Bytes>, i: nat, firstCap: nat)
    requires Pushed(rodata, a, b, suffixes, i, firstCap)
    ensures Valid(a.slot, a.heap, rodata) && Valid(b.slot, b.heap, rodata)
    ensures Content(b.slot, b.heap, rodata) == Content(a.slot, a.heap, rodata) + Flat(suffixes[..i])
  {
    hide Valid, Content, GrowRun, Flat, Lengths, HeapSlot;
  }

  /** One more push, on the contract of `StrPush`. */
  lemma PushedMore(rodata: Heap, a: SlotNow, b: SlotNow, c: SlotNow, suffixes: seq<Bytes>, i: nat, firstCap: nat)
      returns (cap: nat)
    requires Pushed(rodata, a, b, suffixes, i, firstCap) && i < |suffixes| && Valid(b.slot, b.heap, rodata)
    requires Effect(b.heap, Owned(b.slot), c.heap, c.slot, rodata, Content(b.slot, b.heap, rodata) + suffixes[i])
    requires HeapSlot(b.slot, b.heap) ==>
               HeapSlot(c.slot, c.heap)
               && (LenWord(c.slot), CapWord(c.slot), c.moved) ==
                    GrowStep(LenWord(b.slot), CapWord(b.slot), b.moved, |suffixes[i]|)
    requires !HeapSlot(b.slot, b.heap) ==> c.moved == b.moved
    ensures Pushed(rodata, a, c, suffixes, i + 1, cap)
  {
    cap := if HeapSlot(b.slot, b.heap) then firstCap else CapWord(c.slot);
    hide Valid, Owned, InlineSlot, StaticSlot, HeapSlot, CapWord, LenWord, PtrWord, Effect, Content, GrowStep;
    hide GrowRun, Flat, Lengths;
    var text := Content(b.slot, b.heap, rodata);
    EffectText(a.heap, Owned(a.slot), b.heap, b.slot, rodata, Content(a.slot, a.heap, rodata) + Flat(suffixes[..i]));
    EffectText(b.heap, Owned(b.slot), c.heap, c.slot, rodata, text + suffixes[i]);
    EffectThen(a.heap, Owned(a.slot), b.heap, b.slot, c.heap, c.slot, rodata, text, text + suffixes[i]);
    FlatNext(Content(a.slot, a.heap, rodata), suffixes, i);
    SlotText(c.slot, c.heap, rodata);
    if HeapSlot(b.slot, b.heap) {
      AmortisedStep(LenWord(b.slot), CapWord(b.slot), b.moved - a.moved, firstCap, |suffixes[i]|, a.moved);
      RunNext(LenWord(b.slot), CapWord(b.slot), b.moved, suffixes, i);
    }
  }

  lemma PushedAll(rodata: Heap, a: SlotNow, b: SlotNow, suffixes: seq<Bytes>, firstCap: nat)
    requires Pushed(rodata, a, b, suffixes, |suffixes|, firstCap)
    ensures Valid(a.slot, a.heap, rodata) && Valid(b.slot, b.heap, rodata)
    ensures Effect(a.heap, Owned(a.slot), b.heap, b.slot, rodata, Content(a.slot, a.heap, rodata) + Flat(suffixes))
    ensures a.moved <= b.moved && (b.moved == a.moved || b.moved - a.moved < 2 * |Content(b.slot, b.heap, rodata)|)
    ensures HeapSlot(a.slot, a.heap) ==>
              (LenWord(b.slot), CapWord(b.slot), b.moved) ==
                  GrowRun(LenWord(a.slot), CapWord(a.slot), a.moved, Lengths(suffixes))
  {
    hide Owned, InlineSlot, StaticSlot, HeapSlot, CapWord, LenWord, PtrWord, Effect, Content, GrowRun, Flat, Lengths;
    assert suffixes[..|suffixes|] == suffixes && suffixes[|suffixes|..] == [];
    SlotText(b.slot, b.heap, rodata);
    RunDone(LenWord(b.slot), CapWord(b.slot), b.moved);
  }

  lemma RunNext(len: nat, cap: nat, moved: nat, suffixes: seq<Bytes>, i: nat)
    requires i < |suffixes|
    ensures var (l, c, m) := GrowStep(len, cap, moved, |suffixes[i]|);
            GrowRun(len, cap, moved, Lengths(suffixes[i..])) == GrowRun(l, c, m, Lengths(suffixes[i+1..]))
  {
    hide GrowStep;
    var rest := suffixes[i..];
    assert rest[0] == suffixes[i] && rest[1..] == suffixes[i+1..];
    assert Lengths(rest) == [|rest[0]|] + Lengths(rest[1..]);
    assert Lengths(rest)[1..] == Lengths(rest[1..]);
  }

  lemma RunDone(len: nat, cap: nat, moved: nat)
    ensures GrowRun(len, cap, moved, Lengths([])) == (len, cap, moved)
  {
  }
}

/** Whole runs over any number of slots: the plain byte strings the slots stand for, and the
    ledger of live allocations. */
module SlotLedger {
  import opened Common
  import opened SlotBytes
  import opened SlotModel
  import opened StrSlot

  type Id = nat

  /** The live slots and the live allocations. */
  datatype World = World(heap: Heap, slots: map<Id, Slot>)

  datatype Op =
    | Produce(dst: Id, bytes: Bytes)
    | Concat(dst: Id, l: Bytes, r: Bytes)
    | StaticLiteral(dst: Id, ptr: nat, len: nat)
    | Push(dst: Id, suffix: Bytes)
    | EnsureHeap(dst: Id)
    | Free(dst: Id)

  /** `w'` differs from `w` in the slot `dst` only, through one operation with contract `Effect`. */
  ghost predicate SlotStep(rodata: Heap, w: World, dst: Id, given: set<nat>, content: Bytes, w': World) {
    && dst in w'.slots
    && w'.slots == w.slots[dst := w'.slots[dst]]
    && Effect(w.heap, given, w'.heap, w'.slots[dst], rodata, content)
  }

  ghost predicate Step(rodata: Heap, w: World, op: Op, w': World)
    requires Inv(rodata, w)
  {
    match op
    case Produce(dst, bytes) => dst !in w.slots && SlotStep(rodata, w, dst, {}, bytes, w')
    case Concat(dst, l, r) => dst !in w.slots && SlotStep(rodata, w, dst, {}, l + r, w')
    case StaticLiteral(dst, ptr, len) =>
      dst !in w.slots && ptr in rodata && ptr < TWO_64 && len <= |rodata[ptr]| && len < TWO_64
      && w' == World(w.heap, w.slots[dst := Triple(ptr, len, 0)])
    case Push(dst, suffix) =>
      dst in w.slots
      && SlotStep(rodata, w, dst, Owned(w.slots[dst]), Content(w.slots[dst], w.heap, rodata) + suffix, w')
    case EnsureHeap(dst) =>
      && dst in w.slots
      && SlotStep(rodata, w, dst, Owned(w.slots[dst]), Content(w.slots[dst], w.heap, rodata), w')
      && (InlineSlot(w.slots[dst]) ==>
            var len := |Content(w.slots[dst], w.heap, rodata)|;
            FreshHeap(w.heap, w'.heap, w'.slots[dst], len, GrowthCap(len)))
      && (!InlineSlot(w.slots[dst]) ==> w' == w)
    case Free(dst) =>
      dst in w.slots && w' == World(Freed(w.heap, PtrWord(w.slots[dst]), CapWord(w.slots[dst])), w.slots - {dst})
  }

  /** Every slot is well formed, no allocation has two owners, and none has no owner. */
  ghost predicate Inv(rodata: Heap, w: World) {
    && (forall i :: i in w.slots ==> Valid(w.slots[i], w.heap, rodata))
    && (forall i, j :: i in w.slots && j in w.slots && i != j ==> Owned(w.slots[i]) !! Owned(w.slots[j]))
    && (forall p :: p in w.heap ==> exists i :: i in w.slots && p in Owned(w.slots[i]))
  }

  ghost function Contents(rodata: Heap, w: World): map<Id, Bytes>
    requires Inv(rodata, w)
  {
    map i | i in w.slots :: Content(w.slots[i], w.heap, rodata)
  }

  /** The same operation on plain byte strings. */
  ghost function SpecStep(rodata: Heap, m: map<Id, Bytes>, op: Op): map<Id, Bytes> {
    match op
    case Produce(dst, bytes) => m[dst := bytes]
    case Concat(dst, l, r) => m[dst := l + r]
    case StaticLiteral(dst, ptr, len) =>
      if ptr in rodata && len <= |rodata[ptr]| then m[dst := rodata[ptr][..len]] else m
    case Push(dst, suffix) => if dst in m then m[dst := m[dst] + suffix] else m
    case EnsureHeap(_) => m
    case Free(dst) => m - {dst}
  }

  /** A slot not touched by a step keeps its representation, its text and its allocation. */
  lemma OthersUnchanged(rodata: Heap, heap: Heap, given: set<nat>, heap': Heap, s: Slot)
    requires Valid(s, heap, rodata) && Owned(s) !! given
    requires forall p :: p in heap && p !in given ==> p in heap' && heap'[p] == heap[p]
    ensures Valid(s, heap', rodata) && Content(s, heap', rodata) == Content(s, heap, rodata)
    ensures Owned(s) <= heap.Keys - given
  {
    KindsDisjoint(s, heap, rodata);
  }

  lemma SlotStepOthers(rodata: Heap, w: World, dst: Id, given: set<nat>, content: Bytes, w': World, i: Id)
    requires Inv(rodata, w) && SlotStep(rodata, w, dst, given, content, w')
    requires given == if dst in w.slots then Owned(w.slots[dst]) else {}
    requires i in w.slots && i != dst
    ensures i in w'.slots && w'.slots[i] == w.slots[i] && Valid(w.slots[i], w'.heap, rodata)
    ensures Content(w.slots[i], w'.heap, rodata) == Content(w.slots[i], w.heap, rodata)
    ensures Owned(w.slots[i]) <= w.heap.Keys - given
  {
    hide Valid, Content, Owned;
    assert Owned(w.slots[i]) !! given;
    OthersUnchanged(rodata, w.heap, given, w'.heap, w.slots[i]);
  }

  lemma SlotStepInv(rodata: Heap, w: World, dst: Id, given: set<nat>, content: Bytes, w': World)
    requires Inv(rodata, w) && SlotStep(rodata, w, dst, given, content, w')
    requires given == if dst in w.slots then Owned(w.slots[dst]) else {}
    ensures Inv(rodata, w') && Contents(rodata, w') == Contents(rodata, w)[dst := content]
  {
    hide Valid, Content, Owned;
    forall i | i in w'.slots ensures Valid(w'.slots[i], w'.heap, rodata) {
      if i != dst { SlotStepOthers(rodata, w, dst, given, content, w', i); }
    }
    forall i, j | i in w'.slots && j in w'.slots && i != j ensures Owned(w'.slots[i]) !! Owned(w'.slots[j]) {
      if i != dst { SlotStepOthers(rodata, w, dst, given, content, w', i); }
      if j != dst { SlotStepOthers(rodata, w, dst, given, content, w', j); }
    }
    forall p | p in w'.heap ensures exists i :: i in w'.slots && p in Owned(w'.slots[i]) {
      if p !in Owned(w'.slots[dst]) {
        var i :| i in w.slots && p in Owned(w.slots[i]);
        SlotStepOthers(rodata, w, dst, given, content, w', i);
      }
    }
    SlotStepContents(rodata, w, dst, given, content, w');
  }

  lemma SlotStepContents(rodata: Heap, w: World, dst: Id, given: set<nat>, content: Bytes, w': World)
    requires Inv(rodata, w) && SlotStep(rodata, w, dst, given, content, w') && Inv(rodata, w')
    requires given == if dst in w.slots then Owned(w.slots[dst]) else {}
    ensures Contents(rodata, w') == Contents(rodata, w)[dst := content]
  {
    hide Valid, Content, Owned, Inv;
    var m, m' := Contents(rodata, w)[dst := content], Contents(rodata, w');
    forall i | i in m ensures i in m' && m'[i] == m[i] {
      if i != dst { SlotStepOthers(rodata, w, dst, given, content, w', i); }
    }
  }

  lemma FreeOthers(rodata: Heap, w: World, dst: Id, w': World, i: Id)
    requires Inv(rodata, w) && Step(rodata, w, Free(dst), w')
    requires i in w'.slots
    ensures i in w.slots && w'.slots[i] == w.slots[i] && Valid(w.slots[i], w'.heap, rodata)
    ensures Content(w.slots[i], w'.heap, rodata) == Content(w.slots[i], w.heap, rodata)
  {
    FreedIsOwned(w.slots[dst], w.heap, rodata);
    hide Valid, Content, Owned, Freed;
    OthersUnchanged(rodata, w.heap, Owned(w.slots[dst]), w'.heap, w.slots[i]);
  }

  lemma FreeInv(rodata: Heap, w: World, dst: Id, w': World)
    requires Inv(rodata, w) && Step(rodata, w, Free(dst), w')
    ensures Inv(rodata, w')
  {
    FreedIsOwned(w.slots[dst], w.heap, rodata);
    hide Valid, Content, Owned, Freed;
    forall i | i in w'.slots ensures Valid(w'.slots[i], w'.heap, rodata) {
      FreeOthers(rodata, w, dst, w', i);
    }
    forall p | p in w'.heap ensures exists i :: i in w'.slots && p in Owned(w'.slots[i]) {
      var i :| i in w.slots && p in Owned(w.slots[i]);
      assert i != dst;
      assert i in w'.slots && w'.slots[i] == w.slots[i];
    }
  }

  /** Freeing a slot removes its text and exactly the allocations it owned. */
  lemma FreeDischarges(rodata: Heap, w: World, dst: Id, w': World)
    requires Inv(rodata, w) && Step(rodata, w, Free(dst), w')
    requires Inv(rodata, w')
    ensures Contents(rodata, w') == Contents(rodata, w) - {dst}
    ensures |w'.heap| == |w.heap| - |Owned(w.slots[dst])|
  {
    FreedIsOwned(w.slots[dst], w.heap, rodata);
    hide Valid, Content, Owned, Freed;
    FreeContents(rodata, w, dst, w');
    KeysDischarged(w.heap, Owned(w.slots[dst]), w'.heap);
  }

  lemma FreeContents(rodata: Heap, w: World, dst: Id, w': World)
    requires Inv(rodata, w) && Step(rodata, w, Free(dst), w')
    requires Inv(rodata, w')
    ensures Contents(rodata, w') == Contents(rodata, w) - {dst}
  {
    hide Valid, Content, Owned, Inv;
    var m, m' := Contents(rodata, w), Contents(rodata, w');
    forall i | i in m' ensures i in m && m'[i] == m[i] {
      FreeOthers(rodata, w, dst, w', i);
    }
    assert m'.Keys == m.Keys - {dst};
  }

  lemma KeysDischarged(heap: Heap, given: set<nat>, heap': Heap)
    requires given <= heap.Keys && heap' == heap - given
    ensures |heap'| == |heap| - |given|
  {
    assert heap'.Keys == heap.Keys - given;
    assert heap.Keys == heap'.Keys + given;
    assert |heap.Keys| == |heap'.Keys| + |given|;
    assert |heap'.Keys| == |heap'| && |heap.Keys| == |heap|;
  }

  /** One step keeps the ledger and does to the texts what it says. */
  lemma StepRefines(rodata: Heap, w: World, op: Op, w': World)
    requires Inv(rodata, w) && Step(rodata, w, op, w')
    ensures Inv(rodata, w')
    ensures Contents(rodata, w') == SpecStep(rodata, Contents(rodata, w), op)
  {
    match op
    case Produce(dst, bytes) =>
      hide Valid, Content, Owned, Effect, Inv, Triple;
      SlotStepInv(rodata, w, dst, {}, bytes, w');
    case Concat(dst, l, r) =>
      hide Valid, Content, Owned, Effect, Inv, Triple;
      SlotStepInv(rodata, w, dst, {}, l + r, w');
    case StaticLiteral(dst, ptr, len) => LiteralRefines(rodata, w, dst, ptr, len, w');
    case Push(dst, suffix) => PushRefines(rodata, w, dst, suffix, w');
    case EnsureHeap(dst) => EnsureHeapRefines(rodata, w, dst, w');
    case Free(dst) =>
      FreeInv(rodata, w, dst, w');
      FreeDischarges(rodata, w, dst, w');
  }

  lemma LiteralRefines(rodata: Heap, w: World, dst: Id, ptr: nat, len: nat, w': World)
    requires Inv(rodata, w) && Step(rodata, w, StaticLiteral(dst, ptr, len), w')
    ensures Inv(rodata, w')
    ensures Contents(rodata, w') == SpecStep(rodata, Contents(rodata, w), StaticLiteral(dst, ptr, len))
  {
    hide Valid, Content, Owned, Effect, Inv, Triple;
    StaticTriple(w.heap, ptr, len, rodata, rodata[ptr][..len]);
    SlotStepInv(rodata, w, dst, {}, rodata[ptr][..len], w');
  }

  lemma PushRefines(rodata: Heap, w: World, dst: Id, suffix: Bytes, w': World)
    requires Inv(rodata, w) && Step(rodata, w, Push(dst, suffix), w')
    ensures Inv(rodata, w')
    ensures Contents(rodata, w') == SpecStep(rodata, Contents(rodata, w), Push(dst, suffix))
  {
    hide Valid, Content, Owned, Effect;
    var text := Content(w.slots[dst], w.heap, rodata);
    assert dst in Contents(rodata, w) && Contents(rodata, w)[dst] == text;
    SlotStepInv(rodata, w, dst, Owned(w.slots[dst]), text + suffix, w');
  }

  lemma EnsureHeapRefines(rodata: Heap, w: World, dst: Id, w': World)
    requires Inv(rodata, w) && Step(rodata, w, EnsureHeap(dst), w')
    ensures Inv(rodata, w')
    ensures Contents(rodata, w') == SpecStep(rodata, Contents(rodata, w), EnsureHeap(dst))
  {
    hide Valid, Content, Owned, Effect;
    var m, text := Contents(rodata, w), Content(w.slots[dst], w.heap, rodata);
    assert dst in m && m[dst] == text;
    SlotStepInv(rodata, w, dst, Owned(w.slots[dst]), text, w');
    assert m[dst := text] == m;
  }

  ghost predicate Run(rodata: Heap, ws: seq<World>, ops: seq<Op>)
    decreases |ops|
  {
    |ws| == |ops| + 1 && Inv(rodata, ws[0]) &&
    (ops != [] ==> Step(rodata, ws[0], ops[0], ws[1]) && Run(rodata, ws[1..], ops[1..]))
  }

  ghost function SpecRun(rodata: Heap, m: map<Id, Bytes>, ops: seq<Op>): map<Id, Bytes>
    decreases |ops|
  {
    if ops == [] then m else SpecRun(rodata, SpecStep(rodata, m, ops[0]), ops[1..])
  }

  /** Over any run the slots stand for the byte strings the operations describe; an allocation
      is live exactly while one slot owns it, so once every slot is freed nothing is left. */
  lemma {:induction false} RunRefines(rodata: Heap, ws: seq<World>, ops: seq<Op>)
    requires Run(rodata, ws, ops)
    ensures Inv(rodata, ws[|ops|])
    ensures Contents(rodata, ws[|ops|]) == SpecRun(rodata, Contents(rodata, ws[0]), ops)
    ensures ws[|ops|].slots == map[] ==> ws[|ops|].heap == map[]
    decreases |ops|
  {
    if ops != [] {
      StepRefines(rodata, ws[0], ops[0], ws[1]);
      RunRefines(rodata, ws[1..], ops[1..]);
    }
  }

  lemma {:induction false} SpecRunNext(rodata: Heap, m: map<Id, Bytes>, ops: seq<Op>, op: Op)
    ensures SpecRun(rodata, m, ops + [op]) == SpecStep(rodata, SpecRun(rodata, m, ops), op)
    decreases |ops|
  {
    hide SpecStep;
    if ops == [] {
      assert ops + [op] == [op] && [op][1..] == [];
      assert SpecRun(rodata, m, [op]) == SpecRun(rodata, SpecStep(rodata, m, op), [op][1..]);
    } else {
      assert (ops + [op])[0] == ops[0] && (ops + [op])[1..] == ops[1..] + [op];
      SpecRunNext(rodata, SpecStep(rodata, m, ops[0]), ops[1..], op);
    }
  }

  /** The text that an operation is to produce reaches 2^54 bytes. */
  ghost predicate TooLong(rodata: Heap, m: map<Id, Bytes>, op: Op) {
    var after := SpecStep(rodata, m, op);
    op.dst in after && |after[op.dst]| >= TWO_54
  }

  /** A new slot's bytes, and the allocations, as the operation leaves them. */
  ghost predicate FilledBy(rodata: Heap, heap: Heap, heap': Heap, s: Slot, op: Op) {
    match op
    case Produce(_, bytes) => Effect(heap, {}, heap', s, rodata, bytes)
    case Concat(_, l, r) => Effect(heap, {}, heap', s, rodata, l + r)
    case StaticLiteral(_, ptr, len) => heap' == heap && s == Triple(ptr, len, 0)
    case _ => false
  }

  lemma FilledStep(rodata: Heap, w: World, op: Op, heap: Heap, s: Slot)
    requires Inv(rodata, w) && Allowed(rodata, w.slots.Keys, op) && FilledBy(rodata, w.heap, heap, s, op)
    ensures Step(rodata, w, op, World(heap, w.slots[op.dst := s]))
  {
    hide Inv, Effect, Triple;
    assert w.slots[op.dst := s][op.dst] == s;
  }

  // ---------- Programs over real slots ----------

  /** What a caller may do next, given the slots it has. */
  ghost predicate Allowed(rodata: Heap, ids: set<Id>, op: Op) {
    match op
    case Produce(dst, _) => dst !in ids
    case Concat(dst, _, _) => dst !in ids
    case StaticLiteral(dst, ptr, len) => dst !in ids && ptr in rodata && ptr < TWO_64 && len <= |rodata[ptr]|
        && len < TWO_64
    case Push(dst, _) => dst in ids
    case EnsureHeap(dst) => dst in ids
    case Free(dst) => dst in ids
  }

  /** Every step that the ledger has is allowed. */
  lemma StepsAreAllowed(rodata: Heap, w: World, op: Op, w': World)
    requires Inv(rodata, w) && Step(rodata, w, op, w')
    ensures Allowed(rodata, w.slots.Keys, op)
  {
    hide SlotStep, Inv;
  }

  lemma NewId(rodata: Heap, ids: set<Id>, op: Op)
    requires Allowed(rodata, ids, op) && (op.Produce? || op.Concat? || op.StaticLiteral?)
    ensures op.dst !in ids
  {
  }

  function IdsAfter(ids: set<Id>, op: Op): set<Id> { if op.Free? then ids - {op.dst} else ids + {op.dst} }

  ghost predicate AllAllowed(rodata: Heap, ids: set<Id>, ops: seq<Op>)
    decreases |ops|
  {
    ops == [] || (Allowed(rodata, ids, ops[0]) && AllAllowed(rodata, IdsAfter(ids, ops[0]), ops[1..]))
  }

  /** A program's string variables, each in its own slot, over one runtime. */
  class Session {
    const rt: Runtime
    var slots: map<Id, array<Byte>>

    constructor (rt: Runtime)
      requires rt.heap == map[]
      ensures this.rt == rt && slots == map[] && Ready() && Now() == World(map[], map[])
    {
      this.rt, slots := rt, map[];
    }

    ghost predicate Shape()
      reads this
    {
      && (forall i :: i in slots ==> slots[i].Length == SLOT_SIZE)
      && (forall i, j :: i in slots && j in slots && i != j ==> slots[i] != slots[j])
    }

    ghost function Now(): World
      reads this, rt, slots.Values
      requires Shape()
    {
      World(rt.heap, map i | i in slots :: slots[i][..])
    }

    ghost predicate Ready()
      reads this, rt, slots.Values
    {
      Shape() && Inv(rt.rodata, Now())
    }

    /** Puts a new slot in the table. */
    method Enter(dst: Id, slot: array<Byte>)
      requires Shape() && dst !in slots && slot.Length == SLOT_SIZE && forall i :: i in slots ==> slots[i] != slot
      modifies `slots
      ensures Shape() && slots == old(slots)[dst := slot]
      ensures Now() == World(rt.heap, old(Now()).slots[dst := slot[..]])
    {
      ghost var before := Now().slots;
      slots := slots[dst := slot];
      assert Now().slots == before[dst := slot[..]];
    }

    /** A slot filled by `write_str_slot`, `ryo_str_concat` or with a literal's triple. */
    method Fill(op: Op, slot: array<Byte>) returns (ok: bool)
      requires slot.Length == SLOT_SIZE && (op.Produce? || op.Concat? || op.StaticLiteral?)
      modifies rt, slot
      ensures old(rt.requests) <= rt.requests
      ensures !ok ==> rt.Denied(old(rt.requests)) || forall m: map<Id, Bytes> :: TooLong(rt.rodata, m, op)
      ensures ok ==> FilledBy(rt.rodata, old(rt.heap), rt.heap, slot[..], op)
    {
      hide Effect, Triple, InlineSlot, rt.Denied;
      ok := true;
      match op {
        case Produce(_, bytes) => ok := rt.WriteStrSlot(slot, bytes);
        case Concat(_, l, r) => ok := rt.StrConcat(slot, l, r);
        case StaticLiteral(_, ptr, len) => StoreTriple(slot, ptr, len, 0);
      }
    }

    /** A fresh slot, filled and put in the table. */
    method DoNew(op: Op) returns (ok: bool)
      requires Ready() && Allowed(rt.rodata, slots.Keys, op) && (op.Produce? || op.Concat? || op.StaticLiteral?)
      modifies this, rt
      ensures old(rt.requests) <= rt.requests
      ensures !ok ==> rt.Denied(old(rt.requests)) || TooLong(rt.rodata, Contents(rt.rodata, old(Now())), op)
      ensures ok ==> Shape() && Step(rt.rodata, old(Now()), op, Now()) && slots.Keys == old(slots.Keys) + {op.dst}
      ensures forall i :: i in slots ==> slots[i] in old(slots.Values) || fresh(slots[i])
    {
      hide FilledBy, TooLong, Step, Inv, Contents, rt.Denied, Allowed;
      ghost var w := Now();
      var slot := new Byte[SLOT_SIZE](_ => 0);
      ok := Fill(op, slot);
      if !ok { return; }
      assert Now().slots == w.slots;
      assert Allowed(rt.rodata, w.slots.Keys, op) by { assert w.slots.Keys == slots.Keys; }
      FilledStep(rt.rodata, w, op, rt.heap, slot[..]);
      assert op.dst !in slots by { NewId(rt.rodata, slots.Keys, op); }
      Enter(op.dst, slot);
    }

    method DoExisting(op: Op) returns (ok: bool)
      requires Ready() && Allowed(rt.rodata, slots.Keys, op) && (op.Push? || op.EnsureHeap?)
      modifies rt, slots[op.dst]
      ensures old(rt.requests) <= rt.requests
      ensures !ok ==> rt.Denied(old(rt.requests)) || TooLong(rt.rodata, Contents(rt.rodata, old(Now())), op)
      ensures ok ==> Shape() && Step(rt.rodata, old(Now()), op, Now()) && slots.Keys == IdsAfter(slots.Keys, op)
    {
      hide Valid, Content, Owned, Effect, Triple, Freed, InlineSlot, HeapSlot, GrowStep, rt.Denied;
      ghost var w := Now();
      assert w.slots[op.dst] == slots[op.dst][..];
      match op {
        case Push(dst, suffix) => ok := rt.StrPush(slots[dst], suffix);
        case EnsureHeap(dst) => ok := rt.EnsureHeap(slots[dst]);
      }
      assert Now().slots == w.slots[op.dst := slots[op.dst][..]];
    }

    method DoFree(dst: Id)
      requires Ready() && dst in slots
      modifies this, rt
      ensures rt.requests == old(rt.requests)
      ensures Shape() && Step(rt.rodata, old(Now()), Free(dst), Now())
          && slots.Keys == IdsAfter(old(slots.Keys), Free(dst))
      ensures forall i :: i in slots ==> slots[i] in old(slots.Values)
    {
      hide Valid, Content, Owned, Effect, Triple, Freed;
      ghost var w := Now();
      assert w.slots[dst] == slots[dst][..];
      rt.FreeSlot(slots[dst]);
      slots := slots - {dst};
      assert Now().slots == w.slots - {dst};
    }

    /** Runs one operation on the real slots: it is a step of the ledger. */
    method Do(op: Op) returns (ok: bool)
      requires Ready() && Allowed(rt.rodata, slots.Keys, op)
      modifies this, rt, slots.Values
      ensures old(rt.requests) <= rt.requests
      ensures !ok ==> rt.Denied(old(rt.requests)) || TooLong(rt.rodata, Contents(rt.rodata, old(Now())), op)
      ensures ok ==> Ready() && slots.Keys == IdsAfter(old(slots.Keys), op)
      ensures ok ==> Step(rt.rodata, old(Now()), op, Now())
      ensures forall i :: i in slots ==> slots[i] in old(slots.Values) || fresh(slots[i])
    {
      ghost var w := Now();
      hide Step, Inv, Contents, Now, IdsAfter, Allowed, Shape, TooLong, rt.Denied;
      if op.Free? {
        DoFree(op.dst);
        ok := true;
      } else if op.Push? || op.EnsureHeap? {
        ok := DoExisting(op);
      } else {
        ok := DoNew(op);
      }
      if ok { StepRefines(rt.rodata, w, op, Now()); }
    }

    /** Runs a program: its slots end up standing for the byte strings the program describes, and when
        it has freed every slot no allocation is left. It gives up only where an allocation is refused or
        the text to produce reaches 2^54 bytes. */
    method RunAll(ops: seq<Op>) returns (ok: bool)
      requires Ready() && AllAllowed(rt.rodata, slots.Keys, ops)
      modifies this, rt, slots.Values
      ensures !ok ==>
                rt.Denied(old(rt.requests))
                || exists i :: 0 <= i < |ops|
                     && TooLong(rt.rodata, SpecRun(rt.rodata, Contents(rt.rodata, old(Now())), ops[..i]), ops[i])
      ensures ok ==> Ready() && Contents(rt.rodata, Now()) == SpecRun(rt.rodata, Contents(rt.rodata, old(Now())), ops)
      ensures ok && slots == map[] ==> rt.heap == map[]
    {
      ghost var start := Now();
      LedgerStarts(rt.rodata, start, ops);
      hide Step, SpecStep, SpecRun, Contents, Inv, TooLong, rt.Denied, AllAllowed, RanTo, IdsAfter, Allowed, Now, Shape;
      ok := true;
      for i := 0 to |ops|
        invariant Ready() && AllAllowed(rt.rodata, slots.Keys, ops[i..]) && old(rt.requests) <= rt.requests
        invariant RanTo(rt.rodata, start, ops, i, Now())
        invariant forall k :: k in slots ==> slots[k] in old(slots.Values) || fresh(slots[k])
      {
        AllowedNext(rt.rodata, slots.Keys, ops, i);
        ghost var w, earlier := Now(), rt.requests;
        ok := Do(ops[i]);
        if !ok {
          rt.DeniedEarlier(old(rt.requests), earlier);
          RanToTexts(rt.rodata, start, ops, i, w);
          return;
        }
        RanNext(rt.rodata, start, ops, i, w, Now());
      }
      LedgerEnds(rt.rodata, start, ops, Now());
      assert slots == map[] ==> Now().slots == map[] by { NoSlots(); }
    }

    lemma NoSlots()
      requires Shape()
      ensures slots == map[] ==> Now().slots == map[]
    {
    }
  }

  /** After `i` operations of a run from `start` the slots are those of `w`. */
  ghost predicate RanTo(rodata: Heap, start: World, ops: seq<Op>, i: nat, w: World) {
    && i <= |ops| && Inv(rodata, start) && Inv(rodata, w)
    && Contents(rodata, w) == SpecRun(rodata, Contents(rodata, start), ops[..i])
  }

  lemma LedgerStarts(rodata: Heap, start: World, ops: seq<Op>)
    requires Inv(rodata, start)
    ensures RanTo(rodata, start, ops, 0, start) && ops[0..] == ops
  {
    hide Inv, Contents;
  }

  lemma AllowedNext(rodata: Heap, ids: set<Id>, ops: seq<Op>, i: nat)
    requires i < |ops| && AllAllowed(rodata, ids, ops[i..])
    ensures Allowed(rodata, ids, ops[i]) && AllAllowed(rodata, IdsAfter(ids, ops[i]), ops[i+1..])
  {
    hide Allowed, IdsAfter;
    assert ops[i..][0] == ops[i] && ops[i..][1..] == ops[i+1..];
  }

  lemma RanToTexts(rodata: Heap, start: World, ops: seq<Op>, i: nat, w: World)
    requires RanTo(rodata, start, ops, i, w)
    ensures i <= |ops| && Inv(rodata, start) && Inv(rodata, w)
    ensures Contents(rodata, w) == SpecRun(rodata, Contents(rodata, start), ops[..i])
  {
    hide Inv, Contents, SpecRun;
  }

  lemma RanNext(rodata: Heap, start: World, ops: seq<Op>, i: nat, w: World, w': World)
    requires RanTo(rodata, start, ops, i, w) && i < |ops| && Inv(rodata, w) && Step(rodata, w, ops[i], w')
    ensures RanTo(rodata, start, ops, i + 1, w')
  {
    hide Inv, Contents, SpecRun, SpecStep, Step;
    StepRefines(rodata, w, ops[i], w');
    assert ops[..i+1] == ops[..i] + [ops[i]];
    SpecRunNext(rodata, Contents(rodata, start), ops[..i], ops[i]);
  }

  lemma LedgerEnds(rodata: Heap, start: World, ops: seq<Op>, w: World)
    requires RanTo(rodata, start, ops, |ops|, w)
    ensures Inv(rodata, start) && Inv(rodata, w)
    ensures Contents(rodata, w) == SpecRun(rodata, Contents(rodata, start), ops)
    ensures w.slots == map[] ==> w.heap == map[]
  {
    hide Contents, SpecRun;
    assert ops[..|ops|] == ops;
    NothingLeft(rodata, w);
  }

  lemma NothingLeft(rodata: Heap, w: World)
    requires Inv(rodata, w)
    ensures w.slots == map[] ==> w.heap == map[]
  {
  }
}
