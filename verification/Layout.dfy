/** Natural-alignment layout of structs and of enum payloads behind a 4-byte tag. */
module Layout {
  import opened Common

  const TAG_SIZE: nat := 4

  function Pow2(k: nat): (r: nat)
    ensures r > 0
  {
    if k == 0 then 1 else 2 * Pow2(k - 1)
  }

  ghost predicate IsPow2(a: nat) { exists k: nat :: a == Pow2(k) }

  /** `a` divides `b`. */
  ghost predicate Divides(a: nat, b: nat) { exists k: nat :: b == k * a }

  lemma DividesTransitive(a: nat, b: nat, c: nat)
    requires Divides(a, b) && Divides(b, c)
    ensures Divides(a, c)
  {
    var j: nat :| b == j * a;
    var k: nat :| c == k * b;
    assert c == (k * j) * a by { assert k * (j * a) == (k * j) * a; }
  }

  lemma DividesSum(a: nat, b: nat, c: nat)
    requires Divides(a, b) && Divides(a, c)
    ensures Divides(a, b + c)
  {
    var j: nat :| b == j * a;
    var k: nat :| c == k * a;
    assert b + c == (j + k) * a;
  }

  lemma {:induction false} Pow2Divides(j: nat, k: nat)
    requires j <= k
    ensures Pow2(j) <= Pow2(k) && Divides(Pow2(j), Pow2(k))
  {
    if j == k {
      assert Pow2(k) == 1 * Pow2(j);
    } else {
      Pow2Divides(j, k - 1);
      assert Pow2(k) == 2 * Pow2(k - 1);
      assert Divides(Pow2(k - 1), Pow2(k));
      DividesTransitive(Pow2(j), Pow2(k - 1), Pow2(k));
    }
  }

  /** Of two powers of two the smaller divides the larger. */
  lemma AlignsNest(a: nat, b: nat)
    requires IsPow2(a) && IsPow2(b) && a <= b
    ensures Divides(a, b)
  {
    var j: nat :| a == Pow2(j);
    var k: nat :| b == Pow2(k);
    if j <= k {
      Pow2Divides(j, k);
    } else {
      Pow2Divides(k, j);
      assert a == 1 * b;
    }
  }

  /** `next_multiple_of`, which leaves the offset alone when there is no alignment. */
  function Up(x: nat, a: nat): (r: nat) {
    if a == 0 || x % a == 0 then x else x + (a - x % a)
  }

  lemma UpFacts(x: nat, a: nat)
    requires a > 0
    ensures x <= Up(x, a) < x + a && Divides(a, Up(x, a))
  {
    var q, r := x / a, x % a;
    assert x == q * a + r;
    if r == 0 {
      assert Up(x, a) == q * a;
    } else {
      assert Up(x, a) == (q + 1) * a;
    }
  }

  // ---------- Structs ----------

  /** Size and alignment of a type. */
  datatype Shape = Shape(size: nat, align: nat)

  /** A shape the pool hands out: power-of-two alignment and a size that is a multiple of it, or the
      empty error set's, which is nothing at all. */
  ghost predicate GoodShape(s: Shape) { s == Shape(0, 0) || (IsPow2(s.align) && Divides(s.align, s.size)) }

  /** `x` is a multiple of `align`, or there is no alignment to keep. */
  ghost predicate Aligned(align: nat, x: nat) { align == 0 || Divides(align, x) }

  ghost predicate GoodShapes(shapes: seq<Shape>) { forall i :: 0 <= i < |shapes| ==> GoodShape(shapes[i]) }

  /** End of the last field placed. */
  function End(shapes: seq<Shape>): nat {
    if shapes == [] then 0
    else
      var last := shapes[|shapes|-1];
      Up(End(shapes[..|shapes|-1]), last.align) + last.size
  }

  function MaxAlign(shapes: seq<Shape>): (r: nat)
    ensures r >= 1
  {
    if shapes == [] then 1 else Max(MaxAlign(shapes[..|shapes|-1]), shapes[|shapes|-1].align)
  }

  function Offset(shapes: seq<Shape>, i: nat): nat
    requires i < |shapes|
  {
    Up(End(shapes[..i]), shapes[i].align)
  }

  function StructShape(shapes: seq<Shape>): Shape {
    Shape(Up(End(shapes), MaxAlign(shapes)), MaxAlign(shapes))
  }

  lemma {:induction false} EndGrows(shapes: seq<Shape>, i: nat)
    requires i < |shapes|
    ensures Offset(shapes, i) + shapes[i].size == End(shapes[..i+1])
    ensures End(shapes[..i+1]) <= End(shapes)
    decreases |shapes| - i
  {
    var prefix := shapes[..i+1];
    assert prefix[..i] == shapes[..i];
    if i + 1 < |shapes| {
      EndGrows(shapes, i + 1);
      UpMonotone(End(prefix), shapes[i+1].align);
    } else {
      assert prefix == shapes;
    }
  }

  lemma UpMonotone(x: nat, a: nat)
    ensures x <= Up(x, a)
  {
    if a > 0 { UpFacts(x, a); }
  }

  lemma UpAligned(x: nat, a: nat)
    ensures x <= Up(x, a) < x + Max(a, 1) && Aligned(a, Up(x, a))
  {
    if a > 0 { UpFacts(x, a); }
  }

  lemma {:induction false} MaxAlignFacts(shapes: seq<Shape>)
    requires GoodShapes(shapes)
    ensures IsPow2(MaxAlign(shapes))
    ensures forall i :: 0 <= i < |shapes| ==> shapes[i].align <= MaxAlign(shapes)
    ensures forall i :: 0 <= i < |shapes| && shapes[i].align > 0 ==> Divides(shapes[i].align, MaxAlign(shapes))
  {
    if shapes == [] {
      assert Pow2(0) == 1;
    } else {
      var init, last := shapes[..|shapes|-1], shapes[|shapes|-1];
      MaxAlignFacts(init);
      assert forall i :: 0 <= i < |init| ==> init[i] == shapes[i];
      var m := MaxAlign(shapes);
      if last.align > MaxAlign(init) {
        AlignsNest(MaxAlign(init), m);
        assert m == 1 * m;
        forall i | 0 <= i < |init| && shapes[i].align > 0 ensures Divides(shapes[i].align, m) {
          DividesTransitive(shapes[i].align, MaxAlign(init), m);
        }
      } else if last.align > 0 {
        AlignsNest(last.align, m);
      }
    }
  }

  /** The bytes between a field and the end of the one before it, or the start of the struct. */
  function Padding(shapes: seq<Shape>, i: nat): int
    requires i < |shapes|
  {
    Offset(shapes, i) - (if i == 0 then 0 else Offset(shapes, i - 1) + shapes[i-1].size)
  }

  lemma FieldPlaced(shapes: seq<Shape>, i: nat)
    requires i < |shapes|
    ensures Aligned(shapes[i].align, Offset(shapes, i)) && Offset(shapes, i) + shapes[i].size <= End(shapes)
    ensures Padding(shapes, i) < Max(shapes[i].align, 1)
  {
    hide Up, Aligned, End;
    UpAligned(End(shapes[..i]), shapes[i].align);
    EndGrows(shapes, i);
    if i > 0 {
      EndGrows(shapes, i - 1);
    } else {
      NoEnd(shapes);
    }
  }

  lemma NoEnd(shapes: seq<Shape>)
    ensures End(shapes[..0]) == 0
  {
  }

  lemma FieldsApart(shapes: seq<Shape>, i: nat, j: nat)
    requires i < j < |shapes|
    ensures Offset(shapes, i) + shapes[i].size <= Offset(shapes, j)
  {
    hide Up, End;
    var prefix := shapes[..j];
    assert prefix[..i+1] == shapes[..i+1] && prefix[..i] == shapes[..i];
    EndGrows(prefix, i);
    UpMonotone(End(prefix), shapes[j].align);
  }

  /** Fields are aligned, keep their order without overlapping, waste less padding than their
      alignment, and end inside the struct, whose own shape is again good. */
  lemma StructLayoutSound(shapes: seq<Shape>)
    requires GoodShapes(shapes)
    ensures GoodShape(StructShape(shapes))
    ensures forall i :: 0 <= i < |shapes| ==> Aligned(shapes[i].align, Offset(shapes, i))
    ensures forall i, j :: 0 <= i < j < |shapes| ==> Offset(shapes, i) + shapes[i].size <= Offset(shapes, j)
    ensures forall i :: 0 <= i < |shapes| ==> Offset(shapes, i) + shapes[i].size <= StructShape(shapes).size
    ensures forall i :: 0 <= i < |shapes| ==> Padding(shapes, i) < Max(shapes[i].align, 1)
  {
    MaxAlignFacts(shapes);
    UpFacts(End(shapes), MaxAlign(shapes));
    hide Up, Aligned, End, Offset, Padding, MaxAlign, IsPow2;
    forall i | 0 <= i < |shapes|
      ensures Aligned(shapes[i].align, Offset(shapes, i))
      ensures Offset(shapes, i) + shapes[i].size <= StructShape(shapes).size
      ensures Padding(shapes, i) < Max(shapes[i].align, 1)
    {
      FieldPlaced(shapes, i);
    }
    forall i, j | 0 <= i < j < |shapes| ensures Offset(shapes, i) + shapes[i].size <= Offset(shapes, j) {
      FieldsApart(shapes, i, j);
    }
  }

  /** A field of 24 bytes before one of 8. */
  lemma WideThenWord()
    ensures var s := [Shape(24, 8), Shape(8, 8)];
      Offset(s, 0) == 0 && Offset(s, 1) == 24 && StructShape(s) == Shape(32, 8)
  {
    var s := [Shape(24, 8), Shape(8, 8)];
    assert s[..0] == [] && s[..1] == [Shape(24, 8)] && s[..1][..0] == [] && s[..2] == s;
    assert End([]) == 0 && MaxAlign([]) == 1;
    assert End(s[..1]) == 24 && MaxAlign(s[..1]) == 8;
    assert End(s) == 32 && MaxAlign(s) == 8;
  }

  // ---------- Enums ----------

  /** Where a variant's payload starts: right after the tag, at its natural alignment. */
  function PayloadOffset(shapes: seq<Shape>): nat { Up(TAG_SIZE, MaxAlign(shapes)) }

  function PayloadEnd(variants: seq<seq<Shape>>): nat {
    if variants == [] then TAG_SIZE
    else
      var last := variants[|variants|-1];
      Max(PayloadEnd(variants[..|variants|-1]), PayloadOffset(last) + StructShape(last).size)
  }

  function EnumAlign(variants: seq<seq<Shape>>): (r: nat)
    ensures r >= TAG_SIZE
  {
    if variants == [] then TAG_SIZE
    else Max(EnumAlign(variants[..|variants|-1]), MaxAlign(variants[|variants|-1]))
  }

  function EnumShape(variants: seq<seq<Shape>>): Shape {
    Shape(Up(PayloadEnd(variants), EnumAlign(variants)), EnumAlign(variants))
  }

  /** The shape of any type with variants; with none, the empty error set, it is nothing at all. */
  function TaggedShape(variants: seq<seq<Shape>>): Shape {
    if variants == [] then Shape(0, 0) else EnumShape(variants)
  }

  /** Offset of a payload field from the start of the enum. */
  function VariantOffset(shapes: seq<Shape>, i: nat): nat
    requires i < |shapes|
  {
    PayloadOffset(shapes) + Offset(shapes, i)
  }

  /** The bytes between a payload field and the end of the one before it, or the end of the tag. */
  function VariantPadding(shapes: seq<Shape>, i: nat): int
    requires i < |shapes|
  {
    VariantOffset(shapes, i) - (if i == 0 then TAG_SIZE else VariantOffset(shapes, i - 1) + shapes[i-1].size)
  }

  ghost predicate GoodVariants(variants: seq<seq<Shape>>) {
    forall v :: 0 <= v < |variants| ==> GoodShapes(variants[v])
  }

  lemma {:induction false} EnumAccumulates(variants: seq<seq<Shape>>)
    requires GoodVariants(variants)
    ensures IsPow2(EnumAlign(variants)) && PayloadEnd(variants) >= TAG_SIZE
    ensures forall v :: 0 <= v < |variants| ==>
              PayloadOffset(variants[v]) + StructShape(variants[v]).size <= PayloadEnd(variants)
              && MaxAlign(variants[v]) <= EnumAlign(variants)
  {
    if variants == [] {
      assert Pow2(2) == 4;
    } else {
      var init, last := variants[..|variants|-1], variants[|variants|-1];
      EnumAccumulates(init);
      MaxAlignFacts(last);
      assert forall v :: 0 <= v < |init| ==> init[v] == variants[v];
    }
  }

  /** One payload: its fields are aligned, follow the tag and each other, and end inside it. A field
      after the first wastes less than its alignment; the first wastes less than the payload's. */
  ghost predicate PayloadSound(s: seq<Shape>, size: nat) {
    && (forall i :: 0 <= i < |s| ==> Aligned(s[i].align, VariantOffset(s, i)))
    && (forall i :: 0 <= i < |s| ==> TAG_SIZE <= VariantOffset(s, i) && VariantOffset(s, i) + s[i].size <= size)
    && (forall i, j :: 0 <= i < j < |s| ==> VariantOffset(s, i) + s[i].size <= VariantOffset(s, j))
    && (forall i :: 0 < i < |s| ==> VariantPadding(s, i) < Max(s[i].align, 1))
    && (s != [] ==> VariantPadding(s, 0) < MaxAlign(s))
    && (s != [] ==> (VariantPadding(s, 0) < Max(s[0].align, 1) <==> TightFirst(s)))
  }

  /** When the first payload field wastes less than its own alignment: no field needs more than the
      tag's alignment, or the first one needs the most. */
  predicate TightFirst(s: seq<Shape>)
    requires s != []
  {
    MaxAlign(s) <= TAG_SIZE || s[0].align == MaxAlign(s)
  }

  /** The payload fields of every variant are laid out soundly inside the enum, whose own shape is
      again good. */
  lemma EnumLayoutSound(variants: seq<seq<Shape>>)
    requires GoodVariants(variants)
    ensures GoodShape(TaggedShape(variants)) && (variants != [] ==> TaggedShape(variants).size >= TAG_SIZE)
    ensures forall v :: 0 <= v < |variants| ==> PayloadSound(variants[v], TaggedShape(variants).size)
  {
    hide PayloadSound, GoodShapes, StructShape;
    EnumAccumulates(variants);
    UpFacts(PayloadEnd(variants), EnumAlign(variants));
    forall v | 0 <= v < |variants| ensures PayloadSound(variants[v], EnumShape(variants).size) {
      VariantSound(variants[v], EnumShape(variants).size);
    }
  }

  lemma VariantAligned(s: seq<Shape>, i: nat)
    requires GoodShapes(s) && i < |s|
    ensures Aligned(s[i].align, VariantOffset(s, i))
  {
    StructLayoutSound(s);
    MaxAlignFacts(s);
    PayloadStart(s);
    hide GoodShape, StructShape, Offset, MaxAlign, Divides, PayloadOffset, Padding;
    if s[i].align > 0 {
      DividesTransitive(s[i].align, MaxAlign(s), PayloadOffset(s));
      DividesSum(s[i].align, PayloadOffset(s), Offset(s, i));
    }
  }

  lemma VariantSound(s: seq<Shape>, size: nat)
    requires GoodShapes(s) && PayloadOffset(s) + StructShape(s).size <= size
    ensures PayloadSound(s, size)
  {
    hide GoodShape, GoodShapes, StructShape, Offset, MaxAlign, Divides, PayloadOffset, Aligned, Up, IsPow2, TightFirst;
    StructLayoutSound(s);
    PayloadStart(s);
    forall i | 0 <= i < |s| ensures Aligned(s[i].align, VariantOffset(s, i)) {
      VariantAligned(s, i);
    }
    if s != [] {
      FirstOffset(s);
      FirstPadding(s);
    }
  }

  lemma PayloadStart(s: seq<Shape>)
    ensures TAG_SIZE <= PayloadOffset(s) < TAG_SIZE + MaxAlign(s) && Divides(MaxAlign(s), PayloadOffset(s))
  {
    UpFacts(TAG_SIZE, MaxAlign(s));
  }

  lemma FirstOffset(s: seq<Shape>)
    requires s != []
    ensures Offset(s, 0) == 0
  {
    assert s[..0] == [];
  }

  /** A power of two is at least twice any smaller one. */
  lemma NextPow2(a: nat, m: nat)
    requires IsPow2(a) && IsPow2(m) && a < m
    ensures 2 * a <= m
  {
    AlignsNest(a, m);
    var k: nat :| m == k * a;
    TwiceAtMost(k, a, m);
  }

  lemma TwiceAtMost(k: nat, a: nat, m: nat)
    requires m == k * a && a < m
    ensures 2 * a <= m
  {
    if k >= 2 { assert k * a == (k - 2) * a + 2 * a; }
  }

  lemma FirstPadding(s: seq<Shape>)
    requires GoodShapes(s) && s != []
    ensures VariantPadding(s, 0) < Max(s[0].align, 1) <==> TightFirst(s)
  {
    hide Divides, IsPow2;
    var m, a := MaxAlign(s), s[0].align;
    MaxAlignFacts(s);
    FirstOffset(s);
    SmallPow2();
    if m <= TAG_SIZE {
      SmallAlign(m);
    } else {
      NextPow2(TAG_SIZE, m);
      assert PayloadOffset(s) == m;
      if 0 < a < m { NextPow2(a, m); }
    }
  }

  lemma SmallPow2()
    ensures IsPow2(1) && IsPow2(2) && IsPow2(4) && IsPow2(8)
  {
    assert Pow2(0) == 1 && Pow2(1) == 2 && Pow2(2) == 4 && Pow2(3) == 8;
  }

  lemma SmallAlign(m: nat)
    requires IsPow2(m) && m <= 4
    ensures Up(TAG_SIZE, m) == TAG_SIZE
  {
    SmallPow2();
    if m == 3 { NextPow2(2, 3); }
  }

  /** A `bool` before an `int` in a payload leaves four bytes between the tag and the `bool`. */
  lemma TagPaddingWitness()
    ensures var s := [Shape(1, 1), Shape(8, 8)]; GoodShapes(s) && VariantPadding(s, 0) == 4 && !TightFirst(s)
  {
    var s := [Shape(1, 1), Shape(8, 8)];
    SmallPow2();
    assert 1 == 1 * 1 && 8 == 1 * 8;
    assert Divides(1, 1) && Divides(8, 8);
    assert s[..1] == [s[0]] && s[..1][..0] == [];
    assert MaxAlign(s[..1]) == 1 && MaxAlign(s) == 8;
    FirstOffset(s);
  }

  // ---------- The least layout ----------

  /** One way to place fields in order: aligned, apart, and inside a size that suits every alignment. */
  ghost predicate Placement(shapes: seq<Shape>, offsets: seq<nat>, size: nat) {
    && |offsets| == |shapes|
    && (forall i :: 0 <= i < |shapes| ==> Aligned(shapes[i].align, offsets[i]) && offsets[i] + shapes[i].size <= size)
    && (forall i, j :: 0 <= i < j < |shapes| ==> offsets[i] + shapes[i].size <= offsets[j])
    && (forall i :: 0 <= i < |shapes| ==> Aligned(shapes[i].align, size))
  }

  lemma UpLeast(x: nat, a: nat, y: nat)
    requires x <= y && Aligned(a, y)
    ensures Up(x, a) <= y
  {
    if a > 0 && x % a != 0 {
      var q, r := x / a, x % a;
      var k: nat :| y == k * a;
      assert x == q * a + r;
      if k <= q {
        MulMonotone(k, q, a);
      } else {
        MulMonotone(q + 1, k, a);
        assert (q + 1) * a == q * a + a;
      }
    }
  }

  lemma MulMonotone(j: nat, k: nat, a: nat)
    requires j <= k
    ensures j * a <= k * a
  {
  }

  lemma {:induction false} MaxAlignAttained(shapes: seq<Shape>)
    ensures MaxAlign(shapes) == 1 || exists i :: 0 <= i < |shapes| && shapes[i].align == MaxAlign(shapes)
  {
    if shapes != [] {
      var init := shapes[..|shapes|-1];
      MaxAlignAttained(init);
      assert forall i :: 0 <= i < |init| ==> init[i] == shapes[i];
      if MaxAlign(shapes) != 1 {
        var i: nat :| i < |shapes| && shapes[i].align == MaxAlign(shapes);
      }
    }
  }

  lemma OneDivides(x: nat)
    ensures Divides(1, x)
  {
    assert x == x * 1;
  }

  lemma {:induction false} LeastOffset(shapes: seq<Shape>, offsets: seq<nat>, size: nat, i: nat)
    requires Placement(shapes, offsets, size) && i < |shapes|
    ensures Offset(shapes, i) <= offsets[i]
  {
    hide Up, Aligned, End;
    if i == 0 {
      NoEnd(shapes);
    } else {
      LeastOffset(shapes, offsets, size, i - 1);
      EndGrows(shapes, i - 1);
    }
    UpLeast(End(shapes[..i]), shapes[i].align, offsets[i]);
  }

  /** No placement of the fields in this order starts a field earlier or ends sooner. */
  lemma StructLayoutLeast(shapes: seq<Shape>, offsets: seq<nat>, size: nat)
    requires Placement(shapes, offsets, size)
    ensures forall i :: 0 <= i < |shapes| ==> Offset(shapes, i) <= offsets[i]
    ensures StructShape(shapes).size <= size
  {
    hide Up, Offset;
    forall i | 0 <= i < |shapes| ensures Offset(shapes, i) <= offsets[i] {
      LeastOffset(shapes, offsets, size, i);
    }
    if shapes == [] {
      assert End(shapes) == 0;
    } else {
      EndGrows(shapes, |shapes| - 1);
      assert shapes[..|shapes|] == shapes;
    }
    MaxAlignAttained(shapes);
    OneDivides(size);
    UpLeast(End(shapes), MaxAlign(shapes), size);
  }

  /** An enum of this size has room for its tag, then for every payload at its own alignment, and its
      size suits the tag and every payload. */
  ghost predicate EnumFits(variants: seq<seq<Shape>>, bases: seq<nat>, size: nat) {
    && |bases| == |variants| && TAG_SIZE <= size && Divides(TAG_SIZE, size)
    && (forall v :: 0 <= v < |variants| ==>
          && TAG_SIZE <= bases[v] && Divides(MaxAlign(variants[v]), bases[v])
          && bases[v] + StructShape(variants[v]).size <= size && Divides(MaxAlign(variants[v]), size))
  }

  /** No enum with these payloads starts one earlier or is smaller. */
  lemma {:induction false} EnumLayoutLeast(variants: seq<seq<Shape>>, bases: seq<nat>, size: nat)
    requires EnumFits(variants, bases, size)
    ensures forall v :: 0 <= v < |variants| ==> PayloadOffset(variants[v]) <= bases[v]
    ensures PayloadEnd(variants) <= size && Divides(EnumAlign(variants), size)
    ensures TaggedShape(variants).size <= size
  {
    hide Up, Divides, MaxAlign, StructShape;
    forall v | 0 <= v < |variants| ensures PayloadOffset(variants[v]) <= bases[v] {
      UpLeast(TAG_SIZE, MaxAlign(variants[v]), bases[v]);
    }
    if variants != [] {
      var init := variants[..|variants|-1];
      assert forall v :: 0 <= v < |init| ==> init[v] == variants[v];
      EnumLayoutLeast(init, bases[..|init|], size);
    }
    UpLeast(PayloadEnd(variants), EnumAlign(variants), size);
  }
}
