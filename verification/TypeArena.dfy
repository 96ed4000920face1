/** Hash tables that store only handles and recover the keys from an arena. */
module HandleTable {
  import opened Common

  /** Open hashing; the buckets hold handles, never keys. */
  datatype Table = Table(buckets: seq<seq<nat>>)

  ghost function Handles(t: Table): set<nat> {
    set b, h | 0 <= b < |t.buckets| && h in t.buckets[b] :: h
  }

  /** Every handle sits in the bucket that its key, read back from the arena, hashes to. */
  ghost predicate Hashed(t: Table, rehash: nat -> nat) {
    |t.buckets| > 0 && forall b, h :: 0 <= b < |t.buckets| && h in t.buckets[b] ==> rehash(h) % |t.buckets| == b
  }

  const EMPTY: Table := Table([[]])

  lemma EmptyTable(rehash: nat -> nat)
    ensures Handles(EMPTY) == {} && Hashed(EMPTY, rehash)
  {
  }

  /** Scans the one bucket of `hash`. */
  method Find(t: Table, hash: nat, eq: nat -> bool, ghost rehash: nat -> nat) returns (r: Option<nat>)
    requires Hashed(t, rehash)
    ensures r.Some? ==> r.value in Handles(t) && eq(r.value)
    ensures r.None? ==> forall h :: h in Handles(t) && rehash(h) == hash ==> !eq(h)
  {
    var b := hash % |t.buckets|;
    var bucket := t.buckets[b];
    for i := 0 to |bucket|
      invariant forall j :: 0 <= j < i ==> !eq(bucket[j])
    {
      assert bucket[i] in t.buckets[b];
      if eq(bucket[i]) { return Some(bucket[i]); }
    }
    return None;
  }

  function Place(t: Table, hash: nat, id: nat): Table
    requires |t.buckets| > 0
  {
    var b := hash % |t.buckets|;
    Table(t.buckets[b := t.buckets[b] + [id]])
  }

  lemma PlaceFacts(t: Table, hash: nat, id: nat, rehash: nat -> nat)
    requires Hashed(t, rehash) && rehash(id) == hash
    ensures Hashed(Place(t, hash, id), rehash) && Handles(Place(t, hash, id)) == Handles(t) + {id}
  {
    var t', b := Place(t, hash, id), hash % |t.buckets|;
    assert t'.buckets[b] == t.buckets[b] + [id];
    forall h ensures h in Handles(t') <==> h in Handles(t) || h == id {
      if h in Handles(t) {
        var c :| 0 <= c < |t.buckets| && h in t.buckets[c];
        assert h in t'.buckets[c];
      }
      if h == id { assert id in t'.buckets[b]; }
    }
  }

  /** Rebuilds the table with `n` buckets, hashing every handle again through the arena. */
  method Resize(t: Table, n: nat, rehash: nat -> nat) returns (r: Table)
    requires n > 0
    ensures Hashed(r, rehash) && Handles(r) == Handles(t)
  {
    r := Table(seq(n, _ => []));
    assert Handles(r) == {};
    for b := 0 to |t.buckets|
      invariant Hashed(r, rehash)
      invariant Handles(r) == set c, h | 0 <= c < b && h in t.buckets[c] :: h
    {
      ghost var before := Handles(r);
      for i := 0 to |t.buckets[b]|
        invariant Hashed(r, rehash)
        invariant Handles(r) == before + set h | h in t.buckets[b][..i]
      {
        var id := t.buckets[b][i];
        PlaceFacts(r, rehash(id), id, rehash);
        r := Place(r, rehash(id), id);
        assert t.buckets[b][..i+1] == t.buckets[b][..i] + [id];
      }
      assert t.buckets[b][..|t.buckets[b]|] == t.buckets[b];
    }
  }

  /** `insert_unique`: may resize first, whatever the growth policy. */
  method InsertUnique(t: Table, hash: nat, id: nat, rehash: nat -> nat) returns (r: Table)
    requires Hashed(t, rehash) && rehash(id) == hash
    ensures Hashed(r, rehash) && Handles(r) == Handles(t) + {id}
  {
    r := t;
    var grow: bool := *;
    if grow { r := Resize(t, 2 * |t.buckets|, rehash); }
    PlaceFacts(r, hash, id, rehash);
    r := Place(r, hash, id);
  }

  /** A handle's place depends only on its own key, so a table survives changes elsewhere. */
  lemma HashedStable(t: Table, f: nat -> nat, g: nat -> nat)
    requires Hashed(t, f) && forall h :: h in Handles(t) ==> f(h) == g(h)
    ensures Hashed(t, g)
  {
    forall b, h | 0 <= b < |t.buckets| && h in t.buckets[b] ensures g(h) % |t.buckets| == b {
      assert h in Handles(t);
    }
  }
}

/** The type arena: fixed-size items, word blocks behind them, and the queries that read both. */
module TypeArena {
  import opened Common
  import opened Layout
  import Slots = SlotBytes

  type StrId = nat
  type TypeId = nat

  /** `u32::MAX`: declared but not yet defined. */
  const UNDEFINED: nat := 0xFFFF_FFFF

  datatype Tag =
    | Void | Bool | Int | Str | Float | Error | Never | View | Bytes
    | AnonStruct | Struct | Enum | DeclaredError | ErrorSet | ErrorUnion

  /** Types laid out as a tag and the payload of one variant. */
  predicate EnumShaped(tag: Tag) { tag.Enum? || tag.DeclaredError? || tag.ErrorSet? || tag.ErrorUnion? }

  datatype Item = Item(tag: Tag, data: nat)

  const PRIMITIVES: seq<Item> := [
    Item(Void, 0), Item(Bool, 0), Item(Int, 0), Item(Str, 0), Item(Float, 0),
    Item(Error, 0), Item(Never, 0), Item(View, 0), Item(Bytes, 0), Item(View, 1)]

  datatype Field = Field(name: StrId, ty: TypeId)

  datatype StructField = StructField(name: StrId, ty: TypeId, offset: nat, idx: nat)

  datatype Flags = Flags(deriveEq: bool, reprC: bool)

  datatype VariantDef = VariantDef(name: StrId, kind: nat, fields: seq<Field>)

  datatype VariantView = VariantView(name: StrId, kind: nat, offset: nat, fields: seq<StructField>)

  datatype Arena = Arena(items: seq<Item>, extra: seq<nat>, enumFields: seq<StructField>)

  /** What a defined type was defined as, with the shapes its fields had then. */
  datatype Def =
    | StructDef(name: StrId, fields: seq<Field>, flags: Flags, copy: bool, shapes: seq<Shape>)
    | EnumDef(name: StrId, variants: seq<VariantDef>, flags: Flags, copy: bool, variantShapes: seq<seq<Shape>>)

  type Defs = map<TypeId, Def>

  function Pack(flags: Flags, copy: bool): nat {
    (if copy then 1 else 0) + (if flags.deriveEq then 2 else 0) + (if flags.reprC then 4 else 0)
  }

  function Unpack(word: nat): (bool, Flags) {
    (word % 2 == 1, Flags(word / 2 % 2 == 1, word / 4 % 2 == 1))
  }

  // ---------- Blocks as words ----------

  /** Three words per struct field, in written order. */
  function FieldWords(fields: seq<Field>, shapes: seq<Shape>, n: nat): (r: seq<nat>)
    requires n <= |fields| == |shapes|
    ensures |r| == 3 * n
  {
    if n == 0 then [] else FieldWords(fields, shapes, n - 1) + [fields[n-1].name, fields[n-1].ty, Offset(shapes, n - 1)]
  }

  function StructWords(d: Def): (r: seq<nat>)
    requires d.StructDef? && |d.fields| == |d.shapes|
    ensures |r| == 5 + 3 * |d.fields|
  {
    var shape := StructShape(d.shapes);
    [d.name, |d.fields|, shape.size, shape.align, Pack(d.flags, d.copy)] + FieldWords(d.fields, d.shapes, |d.fields|)
  }

  function PairWords(fields: seq<Field>): (r: seq<nat>)
    ensures |r| == 2 * |fields|
  {
    if fields == [] then [] else [fields[0].name, fields[0].ty] + PairWords(fields[1..])
  }

  function VariantWords(v: VariantDef, shapes: seq<Shape>): (r: seq<nat>)
    ensures |r| == 4 + 2 * |v.fields|
  {
    [v.name, v.kind, PayloadOffset(shapes), |v.fields|] + PairWords(v.fields)
  }

  function VariantsWords(vs: seq<VariantDef>, shapes: seq<seq<Shape>>): seq<nat>
    requires |vs| == |shapes|
  {
    if vs == [] then [] else VariantWords(vs[0], shapes[0]) + VariantsWords(vs[1..], shapes[1..])
  }

  /** The decoded payload fields of one variant, offsets from the enum base. */
  function PayloadFields(v: VariantDef, shapes: seq<Shape>): (r: seq<StructField>)
    requires |v.fields| == |shapes|
    ensures |r| == |v.fields|
  {
    seq(|v.fields|, i requires 0 <= i < |v.fields| =>
      StructField(v.fields[i].name, v.fields[i].ty, VariantOffset(shapes, i), i))
  }

  function AllPayloadFields(vs: seq<VariantDef>, shapes: seq<seq<Shape>>): seq<StructField>
    requires |vs| == |shapes| && Matched(vs, shapes)
  {
    if vs == [] then [] else PayloadFields(vs[0], shapes[0]) + AllPayloadFields(vs[1..], shapes[1..])
  }

  predicate Matched(vs: seq<VariantDef>, shapes: seq<seq<Shape>>)
    requires |vs| == |shapes|
  {
    forall v :: 0 <= v < |vs| ==> |vs[v].fields| == |shapes[v]|
  }

  predicate WellShaped(d: Def) {
    match d
    case StructDef(_, fields, _, _, shapes) => |fields| == |shapes|
    case EnumDef(_, vs, _, _, shapes) => |vs| == |shapes| && Matched(vs, shapes)
  }

  function EnumHeader(d: Def, fieldsBase: nat): (r: seq<nat>)
    requires d.EnumDef?
    ensures |r| == 6
  {
    var shape := TaggedShape(d.variantShapes);
    [d.name, |d.variants|, shape.size, shape.align, Pack(d.flags, d.copy), fieldsBase]
  }

  ghost predicate SliceAt<T>(s: seq<T>, at: nat, part: seq<T>) {
    at + |part| <= |s| && s[at..at+|part|] == part
  }

  lemma SliceStays<T>(s: seq<T>, more: seq<T>, at: nat, part: seq<T>)
    requires SliceAt(s, at, part)
    ensures SliceAt(s + more, at, part)
  {
    assert (s + more)[at..at+|part|] == s[at..at+|part|];
  }

  lemma SliceSplit<T>(s: seq<T>, at: nat, a: seq<T>, b: seq<T>)
    requires SliceAt(s, at, a + b)
    ensures SliceAt(s, at, a) && SliceAt(s, at + |a|, b)
  {
    var all := s[at..at+|a + b|];
    assert s[at..at+|a|] == all[..|a|] && s[at+|a|..at+|a|+|b|] == all[|a|..];
    assert (a + b)[..|a|] == a && (a + b)[|a|..] == b;
  }

  lemma SliceIndex<T>(s: seq<T>, at: nat, part: seq<T>, i: nat)
    requires SliceAt(s, at, part) && i < |part|
    ensures s[at + i] == part[i]
  {
    assert s[at..at+|part|][i] == s[at + i];
  }

  // ---------- The arena invariant ----------

  /** Types with a layout: primitives other than the two sentinels, and defined types. */
  ghost predicate Known(defs: Defs, ty: TypeId) { (ty < 10 && ty != 5 && ty != 6) || ty in defs }

  /** Nesting rank: the index of a type's layout block, primitives first. */
  function Rank(a: Arena, ty: TypeId): nat {
    if ty < 10 || ty >= |a.items| then 0 else a.items[ty].data + 1
  }

  function PrimShape(ty: TypeId): Shape
    requires ty < 10
  {
    if ty == 0 then Shape(0, 1) else if ty == 1 then Shape(1, 1)
    else if ty == 2 || ty == 4 then Shape(8, 8) else if ty == 3 || ty == 8 then Shape(24, 8) else Shape(16, 8)
  }

  function ShapeOfDef(d: Def): Shape
    requires WellShaped(d)
  {
    if d.StructDef? then StructShape(d.shapes) else TaggedShape(d.variantShapes)
  }

  /** The shape a type was given, and whether its values are copied. */
  function ShapeOf(defs: Defs, ty: TypeId): Shape
    requires ty < 10 || (ty in defs && WellShaped(defs[ty]))
  {
    if ty < 10 then PrimShape(ty) else ShapeOfDef(defs[ty])
  }

  predicate CopyOf(defs: Defs, ty: TypeId)
    requires ty < 10 || ty in defs
  {
    if ty < 10 then ty == 1 || ty == 2 || ty == 4 || ty == 7 || ty == 9 else defs[ty].copy
  }

  /** A field list as it was when its owner was defined. */
  ghost predicate FieldsFit(a: Arena, defs: Defs, fields: seq<Field>, shapes: seq<Shape>, data: nat) {
    && |fields| == |shapes|
    && forall i :: 0 <= i < |fields| ==>
         var ty := fields[i].ty;
         && Known(defs, ty) && Rank(a, ty) <= data
         && (ty >= 10 ==> WellShaped(defs[ty]))
         && ShapeOf(defs, ty) == shapes[i]
  }

  ghost predicate AllCopy(defs: Defs, fields: seq<Field>) {
    forall i :: 0 <= i < |fields| ==> Known(defs, fields[i].ty) && CopyOf(defs, fields[i].ty)
  }

  /** The words and records at `data` are the block of `d`. */
  ghost predicate BlockAt(a: Arena, defs: Defs, data: nat, d: Def) {
    WellShaped(d) && match d
      case StructDef(_, fields, _, copy, shapes) =>
        && SliceAt(a.extra, data, StructWords(d))
        && FieldsFit(a, defs, fields, shapes, data)
        && (copy <==> AllCopy(defs, fields))
      case EnumDef(_, vs, _, copy, shapes) =>
        && (exists base :: EnumBlockAt(a, data, d, base))
        && (forall v :: 0 <= v < |vs| ==> FieldsFit(a, defs, vs[v].fields, shapes[v], data))
        && (copy <==> forall v :: 0 <= v < |vs| ==> AllCopy(defs, vs[v].fields))
  }

  ghost predicate EnumBlockAt(a: Arena, data: nat, d: Def, base: nat)
    requires d.EnumDef? && WellShaped(d)
  {
    && SliceAt(a.extra, data, EnumHeader(d, base) + VariantsWords(d.variants, d.variantShapes))
    && SliceAt(a.enumFields, base, AllPayloadFields(d.variants, d.variantShapes))
  }

  /** Which definitions a tag takes: errors have one variant, unions `Ok` and `Err` with one field each,
      and only error sets may be empty. */
  ghost predicate TagFits(tag: Tag, d: Def) {
    match d
    case StructDef(_, _, _, _, _) => tag.Struct? || tag.AnonStruct?
    case EnumDef(_, vs, _, _, _) =>
      && EnumShaped(tag)
      && (vs == [] ==> tag.ErrorSet?)
      && (tag.DeclaredError? ==> |vs| == 1)
      && (tag.ErrorUnion? ==> |vs| == 2 && |vs[0].fields| == 1 && |vs[1].fields| == 1)
  }

  ghost predicate ArenaInv(a: Arena, defs: Defs) {
    && |a.items| >= 10 && a.items[..10] == PRIMITIVES
    && (forall id :: 10 <= id < |a.items| ==>
          var it := a.items[id];
          (it.tag.AnonStruct? || it.tag.Struct? || EnumShaped(it.tag))
          && (it.data != UNDEFINED ==> id in defs) && (it.tag.AnonStruct? ==> id in defs)
          && (id in defs && !it.tag.AnonStruct? && !it.tag.ErrorSet? ==> it.data != UNDEFINED))
    && (forall id :: id in defs ==>
          10 <= id < |a.items| && TagFits(a.items[id].tag, defs[id]) && BlockAt(a, defs, a.items[id].data, defs[id]))
  }

  // ---------- Queries as written ----------

  /** `size_align`. */
  function SizeAlign(a: Arena, ghost defs: Defs, ty: TypeId): (r: Shape)
    requires ArenaInv(a, defs) && Known(defs, ty)
    ensures ty in defs ==> WellShaped(defs[ty])
    ensures r == ShapeOf(defs, ty)
  {
    BlockHeader(a, defs, ty);
    match a.items[ty].tag
    case Void => Shape(0, 1)
    case Bool => Shape(1, 1)
    case Int | Float => Shape(8, 8)
    case Str | Bytes => Shape(24, 8)
    case View => Shape(16, 8)
    case _ => Shape(a.extra[a.items[ty].data + 2], a.extra[a.items[ty].data + 3])
  }

  /** The primitives at their fixed ids are as large as what the runtime keeps for them: a `str` and a `bytes` are a
      whole slot, a view is a pointer and a length, an `int` and a `float` are one word, a `bool` is one byte and
      `void` is nothing. */
  lemma RuntimeExtents(a: Arena, defs: Defs, ptr: nat, len: nat, cap: nat)
    requires ArenaInv(a, defs)
    ensures a.items[0].tag.Void? && SizeAlign(a, defs, 0) == Shape(0, 1)
    ensures a.items[1].tag.Bool? && SizeAlign(a, defs, 1) == Shape(|Slots.Encode(0, 1)|, 1)
    ensures a.items[2].tag.Int? && a.items[4].tag.Float?
    ensures SizeAlign(a, defs, 2) == SizeAlign(a, defs, 4) == Shape(|Slots.Encode(ptr, 8)|, |Slots.Encode(ptr, 8)|)
    ensures a.items[3].tag.Str? && a.items[8].tag.Bytes?
    ensures SizeAlign(a, defs, 3) == SizeAlign(a, defs, 8)
         == Shape(|Slots.Triple(ptr, len, cap)|, |Slots.Encode(ptr, 8)|)
    ensures SizeAlign(a, defs, 3).size == Slots.SLOT_SIZE
    ensures a.items[7].tag.View? && a.items[9].tag.View?
    ensures SizeAlign(a, defs, 7) == SizeAlign(a, defs, 9)
         == Shape(|Slots.Encode(ptr, 8) + Slots.Encode(len, 8)|, |Slots.Encode(ptr, 8)|)
  {
    hide SizeAlign, Slots.Encode;
    forall id | id == 0 || id == 1 || id == 2 || id == 3 || id == 4 || id == 7 || id == 8 || id == 9
      ensures a.items[id] == PRIMITIVES[id]
    {
      PrimItem(a, defs, id);
    }
  }

  /** A struct of a `str` and an `int`: the integer lies behind the whole slot. */
  lemma StrThenInt(a: Arena, defs: Defs, ty: TypeId)
    requires ArenaInv(a, defs) && ty in defs && defs[ty].StructDef? && |defs[ty].fields| == 2
    requires defs[ty].fields[0].ty == 3 && defs[ty].fields[1].ty == 2
    ensures WellShaped(defs[ty]) && Offset(defs[ty].shapes, 0) == 0 && Offset(defs[ty].shapes, 1) == 24
    ensures SizeAlign(a, defs, ty) == Shape(32, 8)
  {
    hide ArenaInv, SliceAt, StructWords, AllCopy, SizeAlign, Offset, StructShape;
    BlockOf(a, defs, ty);
    var shapes := defs[ty].shapes;
    assert shapes == [Shape(24, 8), Shape(8, 8)];
    WideThenWord();
  }

  /** `is_copy`. */
  predicate IsCopy(a: Arena, ghost defs: Defs, ty: TypeId)
    requires ArenaInv(a, defs) && Known(defs, ty)
    ensures IsCopy(a, defs, ty) <==> CopyOf(defs, ty)
  {
    BlockHeader(a, defs, ty);
    match a.items[ty].tag
    case Int | Float | Bool | View => true
    case Struct | AnonStruct | Enum | DeclaredError | ErrorSet | ErrorUnion => Unpack(a.extra[a.items[ty].data + 4]).0
    case _ => false
  }

  lemma PrimItem(a: Arena, defs: Defs, ty: TypeId)
    requires ArenaInv(a, defs) && ty < 10
    ensures ty < |a.items| && a.items[ty] == PRIMITIVES[ty]
  {
    assert a.items[..10][ty] == a.items[ty];
  }

  lemma BlockOf(a: Arena, defs: Defs, id: TypeId)
    requires ArenaInv(a, defs) && id in defs
    ensures 10 <= id < |a.items| && WellShaped(defs[id]) && TagFits(a.items[id].tag, defs[id])
    ensures BlockAt(a, defs, a.items[id].data, defs[id])
  {
    hide FieldsFit, AllCopy, StructWords, SliceAt, EnumBlockAt;
  }

  /** The five header words shared by every block. */
  lemma BlockHeader(a: Arena, defs: Defs, ty: TypeId)
    requires ArenaInv(a, defs) && Known(defs, ty)
    ensures ty < |a.items|
    ensures ty < 10 ==> a.items[ty] == PRIMITIVES[ty]
    ensures ty >= 10 ==>
      var d, data := defs[ty], a.items[ty].data;
      && WellShaped(d) && data + 5 <= |a.extra|
      && a.extra[data] == d.name
      && a.extra[data + 1] == (if d.StructDef? then |d.fields| else |d.variants|)
      && a.extra[data + 2] == ShapeOfDef(d).size && a.extra[data + 3] == ShapeOfDef(d).align
      && Unpack(a.extra[data + 4]) == (d.copy, d.flags)
      && !a.items[ty].tag.Void? && !a.items[ty].tag.Bool? && !a.items[ty].tag.Int? && !a.items[ty].tag.Float?
      && !a.items[ty].tag.Str? && !a.items[ty].tag.Bytes? && !a.items[ty].tag.View?
  {
    hide ArenaInv, BlockAt, ShapeOfDef, Unpack;
    if ty < 10 {
      PrimItem(a, defs, ty);
    } else {
      BlockOf(a, defs, ty);
      HeaderWords(a, defs, a.items[ty].data, defs[ty]);
    }
  }

  lemma HeaderWords(a: Arena, defs: Defs, data: nat, d: Def)
    requires BlockAt(a, defs, data, d)
    ensures data + 5 <= |a.extra|
    ensures a.extra[data] == d.name && a.extra[data + 1] == (if d.StructDef? then |d.fields| else |d.variants|)
    ensures a.extra[data + 2] == ShapeOfDef(d).size && a.extra[data + 3] == ShapeOfDef(d).align
    ensures Unpack(a.extra[data + 4]) == (d.copy, d.flags)
  {
    hide FieldsFit, AllCopy, SliceAt, StructShape, TaggedShape, FieldWords, VariantsWords, AllPayloadFields;
    hide Pack, Unpack;
    var words;
    if d.StructDef? {
      words := StructWords(d);
    } else {
      var base :| EnumBlockAt(a, data, d, base);
      words := EnumHeader(d, base) + VariantsWords(d.variants, d.variantShapes);
    }
    HeaderAt(a.extra, data, words);
    PackRoundTrip(d.flags, d.copy);
  }

  lemma HeaderAt(s: seq<nat>, at: nat, words: seq<nat>)
    requires SliceAt(s, at, words) && |words| >= 5
    ensures at + 5 <= |s| && s[at] == words[0] && s[at+1] == words[1] && s[at+2] == words[2] && s[at+3] == words[3]
        && s[at+4] == words[4]
  {
    SliceIndex(s, at, words, 0);
    SliceIndex(s, at, words, 1);
    SliceIndex(s, at, words, 2);
    SliceIndex(s, at, words, 3);
    SliceIndex(s, at, words, 4);
  }

  lemma PackRoundTrip(flags: Flags, copy: bool)
    ensures Unpack(Pack(flags, copy)) == (copy, flags)
  {
  }

  // ---------- Arenas only grow ----------

  /** Later arenas: word and record arenas extended, defined types kept as they were. */
  ghost predicate Extends(a: Arena, defs: Defs, a': Arena, defs': Defs) {
    && a.extra <= a'.extra && a.enumFields <= a'.enumFields
    && |a.items| <= |a'.items|
    && (forall id :: 0 <= id < |a.items| && (id < 10 || id in defs) ==> a'.items[id] == a.items[id])
    && (forall id :: id in defs ==> id in defs' && defs'[id] == defs[id])
  }

  lemma ExtendsTransitive(a: Arena, d: Defs, b: Arena, e: Defs, c: Arena, f: Defs)
    requires Extends(a, d, b, e) && Extends(b, e, c, f)
    ensures Extends(a, d, c, f)
  {
  }

  lemma FieldsFitStay(a: Arena, defs: Defs, a': Arena, defs': Defs, fields: seq<Field>, shapes: seq<Shape>, data: nat)
    requires Extends(a, defs, a', defs') && FieldsFit(a, defs, fields, shapes, data)
    requires forall id :: id in defs ==> id < |a.items|
    ensures FieldsFit(a', defs', fields, shapes, data)
    ensures AllCopy(defs, fields) <==> AllCopy(defs', fields)
  {
    forall i | 0 <= i < |fields|
      ensures var ty := fields[i].ty;
              && Known(defs', ty) && Rank(a', ty) <= data && (ty >= 10 ==> WellShaped(defs'[ty]))
              && (ty >= 10 ==> ty in defs && ty in defs')
              && ShapeOf(defs', ty) == shapes[i] && (CopyOf(defs', ty) <==> CopyOf(defs, ty))
    {
      assert Known(defs, fields[i].ty);
      if fields[i].ty < 10 {
        assert ShapeOf(defs', fields[i].ty) == PrimShape(fields[i].ty);
      }
    }
    if AllCopy(defs, fields) {
      forall i | 0 <= i < |fields| ensures Known(defs', fields[i].ty) && CopyOf(defs', fields[i].ty) {
        assert CopyOf(defs, fields[i].ty);
      }
    }
    if AllCopy(defs', fields) {
      forall i | 0 <= i < |fields| ensures Known(defs, fields[i].ty) && CopyOf(defs, fields[i].ty) {
        assert CopyOf(defs', fields[i].ty);
      }
    }
  }

  lemma BlockStays(a: Arena, defs: Defs, a': Arena, defs': Defs, data: nat, d: Def)
    requires Extends(a, defs, a', defs') && BlockAt(a, defs, data, d)
    requires forall id :: id in defs ==> id < |a.items|
    ensures BlockAt(a', defs', data, d)
  {
    var more, moreFields := a'.extra[|a.extra|..], a'.enumFields[|a.enumFields|..];
    assert a'.extra == a.extra + more && a'.enumFields == a.enumFields + moreFields;
    match d
    case StructDef(_, fields, _, _, shapes) =>
      SliceStays(a.extra, more, data, StructWords(d));
      FieldsFitStay(a, defs, a', defs', fields, shapes, data);
    case EnumDef(_, vs, _, _, shapes) =>
      var base :| EnumBlockAt(a, data, d, base);
      SliceStays(a.extra, more, data, EnumHeader(d, base) + VariantsWords(vs, shapes));
      SliceStays(a.enumFields, moreFields, base, AllPayloadFields(vs, shapes));
      assert EnumBlockAt(a', data, d, base);
      forall v | 0 <= v < |vs|
        ensures FieldsFit(a', defs', vs[v].fields, shapes[v], data)
        ensures AllCopy(defs, vs[v].fields) <==> AllCopy(defs', vs[v].fields)
      {
        FieldsFitStay(a, defs, a', defs', vs[v].fields, shapes[v], data);
      }
  }

  /** Declaring a type adds an undefined item. */
  lemma DeclareKeeps(a: Arena, defs: Defs, tag: Tag)
    requires ArenaInv(a, defs) && (tag.Struct? || EnumShaped(tag))
    ensures var a' := a.(items := a.items + [Item(tag, UNDEFINED)]);
            ArenaInv(a', defs) && Extends(a, defs, a', defs)
  {
    var a' := a.(items := a.items + [Item(tag, UNDEFINED)]);
    assert a'.items[..10] == a.items[..10];
    forall id | id in defs
      ensures id < |a'.items| && TagFits(a'.items[id].tag, defs[id]) && BlockAt(a', defs, a'.items[id].data, defs[id])
    {
      BlockStays(a, defs, a', defs, a.items[id].data, defs[id]);
    }
  }

  /** Defining a type: its block at the end of the word arena, its item pointing there. The item
      is an undefined one, or a new one at the end: an anonymous struct or the empty error set. */
  lemma DefineKeeps(a: Arena, defs: Defs, a': Arena, id: TypeId, d: Def)
    requires ArenaInv(a, defs) && id !in defs && 10 <= id <= |a.items|
    requires |a.extra| < UNDEFINED || (id == |a.items| && |a.extra| == UNDEFINED)
    requires id < |a.items| ==>
        TagFits(a.items[id].tag, d) && a'.items == a.items[id := Item(a.items[id].tag, |a.extra|)]
    requires id == |a.items| ==> (if d.StructDef? then a'.items == a.items + [Item(AnonStruct, |a.extra|)]
                                  else d.variants == [] && a'.items == a.items + [Item(ErrorSet, |a.extra|)])
    requires a.extra <= a'.extra && a.enumFields <= a'.enumFields
    requires BlockAt(a', defs, |a.extra|, d)
    ensures ArenaInv(a', defs[id := d]) && Extends(a, defs, a', defs[id := d])
  {
    hide BlockAt;
    var defs' := defs[id := d];
    assert a'.items[..10] == a.items[..10];
    assert Extends(a, defs, a', defs');
    assert Extends(a', defs, a', defs');
    forall e | e in defs'
      ensures 10 <= e < |a'.items| && TagFits(a'.items[e].tag, defs'[e])
          && BlockAt(a', defs', a'.items[e].data, defs'[e])
    {
      if e == id {
        BlockStays(a', defs, a', defs', |a.extra|, d);
      } else {
        BlockStays(a, defs, a', defs', a.items[e].data, defs[e]);
      }
    }
  }

  // ---------- Every layout is sound ----------

  lemma PrimShapeGood(ty: TypeId)
    requires ty < 10
    ensures GoodShape(PrimShape(ty))
  {
    assert Pow2(0) == 1 && Pow2(3) == 8;
    assert IsPow2(1) && IsPow2(8);
    assert 0 == 0 * 1 && 1 == 1 * 1 && 8 == 1 * 8 && 24 == 3 * 8 && 16 == 2 * 8;
  }

  /** A known type's shape has a power-of-two alignment that divides its size, to any depth. */
  lemma {:induction false} KnownShapeGood(a: Arena, defs: Defs, ty: TypeId)
    requires ArenaInv(a, defs) && Known(defs, ty)
    ensures ty in defs ==> WellShaped(defs[ty])
    ensures GoodShape(ShapeOf(defs, ty))
    decreases Rank(a, ty), 2
  {
    if ty < 10 {
      PrimShapeGood(ty);
    } else {
      DefShapesGood(a, defs, ty);
      var d := defs[ty];
      if d.StructDef? { StructLayoutSound(d.shapes); } else { EnumLayoutSound(d.variantShapes); }
    }
  }

  lemma {:induction false} DefShapesGood(a: Arena, defs: Defs, ty: TypeId)
    requires ArenaInv(a, defs) && ty in defs
    ensures WellShaped(defs[ty])
    ensures defs[ty].StructDef? ==> GoodShapes(defs[ty].shapes)
    ensures defs[ty].EnumDef? ==> GoodVariants(defs[ty].variantShapes)
    decreases Rank(a, ty), 1
  {
    var d, data := defs[ty], a.items[ty].data;
    assert BlockAt(a, defs, data, d);
    if d.StructDef? {
      FieldShapesGood(a, defs, d.fields, d.shapes, data);
    } else {
      forall v | 0 <= v < |d.variants| ensures GoodShapes(d.variantShapes[v]) {
        FieldShapesGood(a, defs, d.variants[v].fields, d.variantShapes[v], data);
      }
    }
  }

  lemma {:induction false} FieldShapesGood(a: Arena, defs: Defs, fields: seq<Field>, shapes: seq<Shape>, data: nat)
    requires ArenaInv(a, defs) && FieldsFit(a, defs, fields, shapes, data)
    ensures GoodShapes(shapes)
    decreases data + 1, 0
  {
    forall i | 0 <= i < |shapes| ensures GoodShape(shapes[i]) {
      var ty := fields[i].ty;
      assert Known(defs, ty) && Rank(a, ty) <= data && ShapeOf(defs, ty) == shapes[i];
      KnownShapeGood(a, defs, ty);
    }
  }

  /** Struct fields: aligned, disjoint, inside the struct, with bounded padding. Payloads of enums and
      errors: also clear of the tag. */
  lemma DefinedLayoutSound(a: Arena, defs: Defs, ty: TypeId)
    requires ArenaInv(a, defs) && ty in defs
    ensures WellShaped(defs[ty]) && GoodShape(ShapeOfDef(defs[ty]))
    ensures defs[ty].StructDef? ==>
      var s := defs[ty].shapes;
      && (forall i :: 0 <= i < |s| ==>
           Aligned(s[i].align, Offset(s, i)) && Offset(s, i) + s[i].size <= StructShape(s).size)
      && (forall i, j :: 0 <= i < j < |s| ==> Offset(s, i) + s[i].size <= Offset(s, j))
      && (forall i :: 0 <= i < |s| ==> Padding(s, i) < Max(s[i].align, 1))
    ensures defs[ty].EnumDef? ==>
      forall v :: 0 <= v < |defs[ty].variantShapes| ==>
          PayloadSound(defs[ty].variantShapes[v], ShapeOfDef(defs[ty]).size)
  {
    hide ArenaInv, GoodShapes, GoodVariants, StructShape, TaggedShape, PayloadSound, Offset, Padding, Aligned;
    DefShapesGood(a, defs, ty);
    if defs[ty].StructDef? { StructLayoutSound(defs[ty].shapes); } else { EnumLayoutSound(defs[ty].variantShapes); }
  }

  // ---------- Reading blocks back ----------

  /** The fields a struct reads back with. */
  function StructFields(d: Def): (r: seq<StructField>)
    requires d.StructDef? && WellShaped(d)
    ensures |r| == |d.fields|
  {
    seq(|d.fields|, i requires 0 <= i < |d.fields| =>
        StructField(d.fields[i].name, d.fields[i].ty, Offset(d.shapes, i), i))
  }

  /** The variants an enum reads back with. */
  function EnumViews(vs: seq<VariantDef>, shapes: seq<seq<Shape>>): (r: seq<VariantView>)
    requires |vs| == |shapes| && Matched(vs, shapes)
    ensures |r| == |vs|
  {
    seq(|vs|, v requires 0 <= v < |vs| =>
        VariantView(vs[v].name, vs[v].kind, PayloadOffset(shapes[v]), PayloadFields(vs[v], shapes[v])))
  }

  lemma {:induction false} FieldWordsAt(fields: seq<Field>, shapes: seq<Shape>, n: nat, i: nat)
    requires i < n <= |fields| == |shapes|
    ensures var w := FieldWords(fields, shapes, n);
            w[3*i] == fields[i].name && w[3*i+1] == fields[i].ty && w[3*i+2] == Offset(shapes, i)
  {
    if i < n - 1 { FieldWordsAt(fields, shapes, n - 1, i); }
  }

  lemma StructWordsAt(a: Arena, defs: Defs, id: TypeId, i: nat)
    requires ArenaInv(a, defs) && id in defs && defs[id].StructDef? && WellShaped(defs[id]) && i < |defs[id].fields|
    ensures var base := a.items[id].data + 5 + 3 * i;
            && base + 3 <= |a.extra|
            && StructFields(defs[id])[i] == StructField(a.extra[base], a.extra[base+1], a.extra[base+2], i)
  {
    hide FieldsFit, AllCopy, StructShape, FieldWords, Pack, Offset, ArenaInv;
    BlockOf(a, defs, id);
    var d, data := defs[id], a.items[id].data;
    FieldWordsAt(d.fields, d.shapes, |d.fields|, i);
    var shape, fields := StructShape(d.shapes), FieldWords(d.fields, d.shapes, |d.fields|);
    SliceSplit(a.extra, data, [d.name, |d.fields|, shape.size, shape.align, Pack(d.flags, d.copy)], fields);
    SliceIndex(a.extra, data + 5, fields, 3*i);
    SliceIndex(a.extra, data + 5, fields, 3*i + 1);
    SliceIndex(a.extra, data + 5, fields, 3*i + 2);
  }

  /** `EnumView::variants`: two cursors, one into the directory and one into the record arena. */
  function DecodeVariants(a: Arena, vcur: nat, fcur: nat, n: nat): seq<VariantView>
    decreases n
  {
    if n == 0 || vcur + 4 > |a.extra| then []
    else
      var nf := a.extra[vcur + 3];
      if fcur + nf > |a.enumFields| then []
      else [VariantView(a.extra[vcur], a.extra[vcur+1], a.extra[vcur+2], a.enumFields[fcur..fcur+nf])]
           + DecodeVariants(a, vcur + 4 + 2 * nf, fcur + nf, n - 1)
  }

  lemma {:induction false} DecodeExact(a: Arena, vcur: nat, fcur: nat, vs: seq<VariantDef>, shapes: seq<seq<Shape>>)
    requires |vs| == |shapes| && Matched(vs, shapes)
    requires SliceAt(a.extra, vcur, VariantsWords(vs, shapes))
        && SliceAt(a.enumFields, fcur, AllPayloadFields(vs, shapes))
    ensures DecodeVariants(a, vcur, fcur, |vs|) == EnumViews(vs, shapes)
    decreases |vs|
  {
    hide EnumViews, VariantWords, PayloadFields, SliceAt, DecodeVariants, VariantsWords, AllPayloadFields;
    hide PayloadOffset, Matched;
    if vs == [] {
      NoneToDecode(a, vcur, fcur);
    } else {
      DecodeStep(a, vcur, fcur, vs, shapes);
      DecodeExact(a, vcur + 4 + 2 * |vs[0].fields|, fcur + |vs[0].fields|, vs[1..], shapes[1..]);
      ViewsHead(vs, shapes);
    }
  }

  lemma NoneToDecode(a: Arena, vcur: nat, fcur: nat)
    ensures DecodeVariants(a, vcur, fcur, 0) == EnumViews([], []) == []
  {
  }

  lemma DecodeStep(a: Arena, vcur: nat, fcur: nat, vs: seq<VariantDef>, shapes: seq<seq<Shape>>)
    requires |vs| == |shapes| && Matched(vs, shapes) && vs != []
    requires SliceAt(a.extra, vcur, VariantsWords(vs, shapes))
        && SliceAt(a.enumFields, fcur, AllPayloadFields(vs, shapes))
    ensures Matched(vs[1..], shapes[1..]) && |vs[0].fields| == |shapes[0]|
    ensures SliceAt(a.extra, vcur + 4 + 2 * |vs[0].fields|, VariantsWords(vs[1..], shapes[1..]))
    ensures SliceAt(a.enumFields, fcur + |vs[0].fields|, AllPayloadFields(vs[1..], shapes[1..]))
    ensures DecodeVariants(a, vcur, fcur, |vs|)
         == [VariantView(vs[0].name, vs[0].kind, PayloadOffset(shapes[0]), PayloadFields(vs[0], shapes[0]))]
            + DecodeVariants(a, vcur + 4 + 2 * |vs[0].fields|, fcur + |vs[0].fields|, |vs| - 1)
  {
    hide VariantWords, PayloadFields, SliceAt, DecodeVariants, VariantsWords, AllPayloadFields, PayloadOffset;
    BlockHead(vs, shapes);
    SliceSplit(a.extra, vcur, VariantWords(vs[0], shapes[0]), VariantsWords(vs[1..], shapes[1..]));
    SliceSplit(a.enumFields, fcur, PayloadFields(vs[0], shapes[0]), AllPayloadFields(vs[1..], shapes[1..]));
    DecodeHead(a, vcur, fcur, vs[0], shapes[0], |vs|);
  }

  lemma BlockHead(vs: seq<VariantDef>, shapes: seq<seq<Shape>>)
    requires |vs| == |shapes| && Matched(vs, shapes) && vs != []
    ensures Matched(vs[1..], shapes[1..])
    ensures VariantsWords(vs, shapes) == VariantWords(vs[0], shapes[0]) + VariantsWords(vs[1..], shapes[1..])
    ensures AllPayloadFields(vs, shapes) == PayloadFields(vs[0], shapes[0]) + AllPayloadFields(vs[1..], shapes[1..])
  {
  }

  lemma DecodeHead(a: Arena, vcur: nat, fcur: nat, v: VariantDef, shapes: seq<Shape>, n: nat)
    requires |v.fields| == |shapes| && n > 0
    requires SliceAt(a.extra, vcur, VariantWords(v, shapes)) && SliceAt(a.enumFields, fcur, PayloadFields(v, shapes))
    ensures DecodeVariants(a, vcur, fcur, n)
         == [VariantView(v.name, v.kind, PayloadOffset(shapes), PayloadFields(v, shapes))]
            + DecodeVariants(a, vcur + 4 + 2 * |v.fields|, fcur + |v.fields|, n - 1)
  {
    hide PayloadOffset;
    var head := VariantWords(v, shapes);
    SliceIndex(a.extra, vcur, head, 0);
    SliceIndex(a.extra, vcur, head, 1);
    SliceIndex(a.extra, vcur, head, 2);
    SliceIndex(a.extra, vcur, head, 3);
    assert a.enumFields[fcur..fcur+|v.fields|] == PayloadFields(v, shapes);
  }

  lemma ViewsHead(vs: seq<VariantDef>, shapes: seq<seq<Shape>>)
    requires |vs| == |shapes| && Matched(vs, shapes) && vs != []
    ensures EnumViews(vs, shapes) ==
            [VariantView(vs[0].name, vs[0].kind, PayloadOffset(shapes[0]), PayloadFields(vs[0], shapes[0]))]
                + EnumViews(vs[1..], shapes[1..])
  {
  }

  /** What `EnumView::variants` yields for a defined enum. */
  function ReadVariants(a: Arena, ghost defs: Defs, id: TypeId): (r: seq<VariantView>)
    requires ArenaInv(a, defs) && id in defs && defs[id].EnumDef?
    ensures WellShaped(defs[id]) && r == EnumViews(defs[id].variants, defs[id].variantShapes)
  {
    EnumBlockRead(a, defs, id);
    var data := a.items[id].data;
    DecodeVariants(a, data + 6, a.extra[data + 5], a.extra[data + 1])
  }

  lemma EnumBlockRead(a: Arena, defs: Defs, id: TypeId)
    requires ArenaInv(a, defs) && id in defs && defs[id].EnumDef?
    ensures id < |a.items| && a.items[id].data + 6 <= |a.extra| && WellShaped(defs[id])
    ensures DecodeVariants(a, a.items[id].data + 6, a.extra[a.items[id].data + 5], a.extra[a.items[id].data + 1])
         == EnumViews(defs[id].variants, defs[id].variantShapes)
  {
    hide FieldsFit, AllCopy, DecodeVariants, EnumViews, VariantsWords, AllPayloadFields, TaggedShape, Pack;
    var d, data := defs[id], a.items[id].data;
    assert BlockAt(a, defs, data, d);
    var base :| EnumBlockAt(a, data, d, base);
    var header := EnumHeader(d, base);
    SliceSplit(a.extra, data, header, VariantsWords(d.variants, d.variantShapes));
    SliceIndex(a.extra, data, header, 1);
    SliceIndex(a.extra, data, header, 5);
    DecodeExact(a, data + 6, base, d.variants, d.variantShapes);
  }

  // ---------- Drop and copy ----------

  lemma PayloadsBelow(a: Arena, defs: Defs, id: TypeId)
    requires ArenaInv(a, defs) && id in defs
    ensures WellShaped(defs[id])
    ensures defs[id].StructDef? ==> forall i :: 0 <= i < |defs[id].fields| ==>
              Known(defs, defs[id].fields[i].ty) && Rank(a, defs[id].fields[i].ty) < Rank(a, id)
    ensures defs[id].EnumDef? ==>
        forall v, i :: 0 <= v < |defs[id].variants| && 0 <= i < |defs[id].variants[v].fields| ==>
              Known(defs, defs[id].variants[v].fields[i].ty) && Rank(a, defs[id].variants[v].fields[i].ty) < Rank(a, id)
  {
    var d := defs[id];
    assert BlockAt(a, defs, a.items[id].data, d);
    if d.EnumDef? {
      forall v, i | 0 <= v < |d.variants| && 0 <= i < |d.variants[v].fields|
        ensures Known(defs, d.variants[v].fields[i].ty) && Rank(a, d.variants[v].fields[i].ty) < Rank(a, id)
      {
        assert FieldsFit(a, defs, d.variants[v].fields, d.variantShapes[v], a.items[id].data);
      }
    }
  }

  /** `needs_drop`: a flag for structs, a walk over every payload for enums. Terminates because a
      field's block lies below its owner's. */
  predicate NeedsDrop(a: Arena, ghost defs: Defs, ty: TypeId)
    requires ArenaInv(a, defs) && Known(defs, ty)
    decreases Rank(a, ty)
  {
    hide ArenaInv, BlockAt, ShapeOfDef, Unpack;
    BlockHeader(a, defs, ty);
    match a.items[ty].tag
    case Str | Bytes => true
    case Struct | AnonStruct => !Unpack(a.extra[a.items[ty].data + 4]).0
    case Enum | DeclaredError | ErrorSet | ErrorUnion =>
      BlockOf(a, defs, ty);
      PayloadsBelow(a, defs, ty);
      var views := ReadVariants(a, defs, ty);
      exists v, i :: 0 <= v < |views| && 0 <= i < |views[v].fields| && NeedsDrop(a, defs, views[v].fields[i].ty)
    case _ => false
  }

  /** Some part of the type, at any depth, is a `str` or `bytes`. */
  ghost predicate OwnsHeap(a: Arena, defs: Defs, ty: TypeId)
    requires ArenaInv(a, defs) && Known(defs, ty)
    decreases Rank(a, ty)
  {
    if ty < 10 then ty == 3 || ty == 8
    else
      PayloadsBelow(a, defs, ty);
      match defs[ty]
      case StructDef(_, fields, _, _, _) => exists i :: 0 <= i < |fields| && OwnsHeap(a, defs, fields[i].ty)
      case EnumDef(_, vs, _, _, _) =>
        exists v, i :: 0 <= v < |vs| && 0 <= i < |vs[v].fields| && OwnsHeap(a, defs, vs[v].fields[i].ty)
  }

  /** No part of the type is `void`. */
  ghost predicate VoidFree(a: Arena, defs: Defs, ty: TypeId)
    requires ArenaInv(a, defs) && Known(defs, ty)
    decreases Rank(a, ty)
  {
    if ty < 10 then ty != 0
    else
      PayloadsBelow(a, defs, ty);
      match defs[ty]
      case StructDef(_, fields, _, _, _) => forall i :: 0 <= i < |fields| ==> VoidFree(a, defs, fields[i].ty)
      case EnumDef(_, vs, _, _, _) =>
        forall v, i :: 0 <= v < |vs| && 0 <= i < |vs[v].fields| ==> VoidFree(a, defs, vs[v].fields[i].ty)
  }

  /** `f` is the type of a field or payload field of `d`. */
  ghost predicate HasPart(d: Def, f: TypeId) {
    match d
    case StructDef(_, fields, _, _, _) => exists i :: 0 <= i < |fields| && fields[i].ty == f
    case EnumDef(_, vs, _, _, _) => exists v, i :: 0 <= v < |vs| && 0 <= i < |vs[v].fields| && vs[v].fields[i].ty == f
  }

  lemma StructCopyFlag(a: Arena, defs: Defs, ty: TypeId)
    requires ArenaInv(a, defs) && ty in defs && defs[ty].StructDef?
    ensures TagFits(a.items[ty].tag, defs[ty]) && (defs[ty].copy <==> AllCopy(defs, defs[ty].fields))
  {
    BlockOf(a, defs, ty);
  }

  lemma EnumCopyFlag(a: Arena, defs: Defs, ty: TypeId)
    requires ArenaInv(a, defs) && ty in defs && defs[ty].EnumDef?
    ensures TagFits(a.items[ty].tag, defs[ty])
    ensures defs[ty].copy <==> forall v :: 0 <= v < |defs[ty].variants| ==> AllCopy(defs, defs[ty].variants[v].fields)
  {
    BlockOf(a, defs, ty);
  }

  /** A struct's queries in terms of its fields'. */
  lemma StructLevel(a: Arena, defs: Defs, ty: TypeId)
    requires ArenaInv(a, defs) && ty in defs && defs[ty].StructDef?
    ensures forall f: TypeId :: HasPart(defs[ty], f) ==> Known(defs, f) && Rank(a, f) < Rank(a, ty)
    ensures ty >= 10
    ensures OwnsHeap(a, defs, ty) <==>
        exists f: TypeId :: HasPart(defs[ty], f) && Known(defs, f) && OwnsHeap(a, defs, f)
    ensures VoidFree(a, defs, ty) <==> forall f: TypeId :: HasPart(defs[ty], f) && Known(defs, f) ==>
        VoidFree(a, defs, f)
    ensures IsCopy(a, defs, ty) <==> forall f: TypeId :: HasPart(defs[ty], f) && Known(defs, f) ==> IsCopy(a, defs, f)
    ensures NeedsDrop(a, defs, ty) <==> !IsCopy(a, defs, ty)
  {
    hide ArenaInv, ShapeOfDef, Unpack, Rank;
    BlockOf(a, defs, ty);
    BlockHeader(a, defs, ty);
    PayloadsBelow(a, defs, ty);
    StructCopyFlag(a, defs, ty);
    var fields := defs[ty].fields;
    forall i | 0 <= i < |fields| ensures HasPart(defs[ty], fields[i].ty) {
    }
  }

  /** The same for types with variants. */
  lemma EnumLevel(a: Arena, defs: Defs, ty: TypeId)
    requires ArenaInv(a, defs) && ty in defs && defs[ty].EnumDef?
    ensures forall f: TypeId :: HasPart(defs[ty], f) ==> Known(defs, f) && Rank(a, f) < Rank(a, ty)
    ensures ty >= 10
    ensures OwnsHeap(a, defs, ty) <==>
        exists f: TypeId :: HasPart(defs[ty], f) && Known(defs, f) && OwnsHeap(a, defs, f)
    ensures VoidFree(a, defs, ty) <==> forall f: TypeId :: HasPart(defs[ty], f) && Known(defs, f) ==>
        VoidFree(a, defs, f)
    ensures IsCopy(a, defs, ty) <==> forall f: TypeId :: HasPart(defs[ty], f) && Known(defs, f) ==> IsCopy(a, defs, f)
    ensures NeedsDrop(a, defs, ty) <==>
        exists f: TypeId :: HasPart(defs[ty], f) && Known(defs, f) && NeedsDrop(a, defs, f)
  {
    EnumParts(a, defs, ty);
    EnumDrops(a, defs, ty);
    EnumCopies(a, defs, ty);
    hide ArenaInv, ShapeOfDef, Unpack, Rank, NeedsDrop, IsCopy, Known;
    PayloadsBelow(a, defs, ty);
    var vs := defs[ty].variants;
    forall v, i | 0 <= v < |vs| && 0 <= i < |vs[v].fields| ensures HasPart(defs[ty], vs[v].fields[i].ty) {
    }
  }

  lemma EnumParts(a: Arena, defs: Defs, ty: TypeId)
    requires ArenaInv(a, defs) && ty in defs && defs[ty].EnumDef?
    ensures forall f: TypeId :: HasPart(defs[ty], f) ==> Known(defs, f) && Rank(a, f) < Rank(a, ty)
    ensures ty >= 10
  {
    hide ArenaInv, Rank;
    BlockOf(a, defs, ty);
    PayloadsBelow(a, defs, ty);
  }

  lemma EnumCopies(a: Arena, defs: Defs, ty: TypeId)
    requires ArenaInv(a, defs) && ty in defs && defs[ty].EnumDef?
    ensures IsCopy(a, defs, ty) <==> forall f: TypeId :: HasPart(defs[ty], f) && Known(defs, f) ==> IsCopy(a, defs, f)
  {
    EnumParts(a, defs, ty);
    EnumCopyFlag(a, defs, ty);
    hide ArenaInv, Rank, IsCopy, Known;
    var vs := defs[ty].variants;
    assert IsCopy(a, defs, ty) <==> CopyOf(defs, ty);
    if IsCopy(a, defs, ty) {
      forall f: TypeId | HasPart(defs[ty], f) && Known(defs, f) ensures IsCopy(a, defs, f) {
        var v, i :| 0 <= v < |vs| && 0 <= i < |vs[v].fields| && vs[v].fields[i].ty == f;
        assert AllCopy(defs, vs[v].fields);
      }
    }
    if forall f: TypeId :: HasPart(defs[ty], f) && Known(defs, f) ==> IsCopy(a, defs, f) {
      forall v, i | 0 <= v < |vs| && 0 <= i < |vs[v].fields|
        ensures Known(defs, vs[v].fields[i].ty) && CopyOf(defs, vs[v].fields[i].ty)
      {
        assert HasPart(defs[ty], vs[v].fields[i].ty);
        assert IsCopy(a, defs, vs[v].fields[i].ty);
      }
    }
  }

  lemma EnumDrops(a: Arena, defs: Defs, ty: TypeId)
    requires ArenaInv(a, defs) && ty in defs && defs[ty].EnumDef?
    ensures NeedsDrop(a, defs, ty) <==>
        exists f: TypeId :: HasPart(defs[ty], f) && Known(defs, f) && NeedsDrop(a, defs, f)
  {
    EnumParts(a, defs, ty);
    ViewTypes(a, defs, ty);
    DropViews(a, defs, ty);
    hide ArenaInv, NeedsDrop, ReadVariants, Known;
    var d, views := defs[ty], ReadVariants(a, defs, ty);
    if NeedsDrop(a, defs, ty) {
      var v, i :| 0 <= v < |views| && 0 <= i < |views[v].fields| && Known(defs, views[v].fields[i].ty)
          && NeedsDrop(a, defs, views[v].fields[i].ty);
      assert HasPart(d, views[v].fields[i].ty);
    }
    if f: TypeId :| HasPart(d, f) && Known(defs, f) && NeedsDrop(a, defs, f) {
      var v, i :| 0 <= v < |d.variants| && 0 <= i < |d.variants[v].fields| && d.variants[v].fields[i].ty == f;
      assert views[v].fields[i].ty == f;
    }
  }

  /** The views carry the declared field types. */
  lemma ViewTypes(a: Arena, defs: Defs, ty: TypeId)
    requires ArenaInv(a, defs) && ty in defs && defs[ty].EnumDef?
    ensures var vs, views := defs[ty].variants, ReadVariants(a, defs, ty);
      && |views| == |vs|
      && (forall v :: 0 <= v < |vs| ==> |views[v].fields| == |vs[v].fields|)
      && forall v, i :: 0 <= v < |vs| && 0 <= i < |vs[v].fields| ==> views[v].fields[i].ty == vs[v].fields[i].ty
  {
    hide ArenaInv, VariantOffset, PayloadOffset;
    var d := defs[ty];
    var views := ReadVariants(a, defs, ty);
    assert views == EnumViews(d.variants, d.variantShapes);
    assert forall v :: 0 <= v < |d.variants| ==> views[v].fields == PayloadFields(d.variants[v], d.variantShapes[v]);
  }

  lemma DropViews(a: Arena, defs: Defs, ty: TypeId)
    requires ArenaInv(a, defs) && ty in defs && defs[ty].EnumDef?
    ensures var views := ReadVariants(a, defs, ty);
      NeedsDrop(a, defs, ty) <==>
      exists v, i :: 0 <= v < |views| && 0 <= i < |views[v].fields| && Known(defs, views[v].fields[i].ty)
          && NeedsDrop(a, defs, views[v].fields[i].ty)
  {
    hide ArenaInv, ShapeOfDef, Unpack, EnumViews, BlockAt, ReadVariants, Rank, EnumHeader, VariantsWords;
    hide AllPayloadFields, TaggedShape, CopyOf, StructWords;
    BlockOf(a, defs, ty);
    BlockHeader(a, defs, ty);
    ViewTypes(a, defs, ty);
    PayloadsBelow(a, defs, ty);
  }

  /** A type is copied exactly when nothing in it, at any depth, is `void`, `str` or `bytes`. */
  lemma {:induction false} CopyExact(a: Arena, defs: Defs, ty: TypeId)
    requires ArenaInv(a, defs) && Known(defs, ty)
    ensures IsCopy(a, defs, ty) <==> VoidFree(a, defs, ty) && !OwnsHeap(a, defs, ty)
    decreases Rank(a, ty)
  {
    hide ArenaInv, Rank, HasPart;
    if ty < 10 {
      KnownPrimitive(a, defs, ty);
    } else {
      if defs[ty].StructDef? { StructLevel(a, defs, ty); } else { EnumLevel(a, defs, ty); }
      forall f: TypeId | HasPart(defs[ty], f)
          ensures IsCopy(a, defs, f) <==> VoidFree(a, defs, f) && !OwnsHeap(a, defs, f) {
        CopyExact(a, defs, f);
      }
    }
  }

  /** `part` is `ty` itself or sits in it under types with variants only. */
  ghost predicate EnumOpens(a: Arena, defs: Defs, ty: TypeId, part: TypeId)
    decreases Rank(a, ty)
  {
    ty == part ||
    (ty in defs && defs[ty].EnumDef? &&
      exists f: TypeId :: HasPart(defs[ty], f) && Rank(a, f) < Rank(a, ty) && EnumOpens(a, defs, f, part))
  }

  /** A `str`, a `bytes`, or a struct with anything in it that is not copied. */
  ghost predicate Droppable(a: Arena, defs: Defs, p: TypeId)
    requires ArenaInv(a, defs) && Known(defs, p)
  {
    p == 3 || p == 8 || (p >= 10 && defs[p].StructDef? && (OwnsHeap(a, defs, p) || !VoidFree(a, defs, p)))
  }

  ghost predicate OpensDroppable(a: Arena, defs: Defs, ty: TypeId)
    requires ArenaInv(a, defs)
  {
    exists p: TypeId :: EnumOpens(a, defs, ty, p) && Known(defs, p) && Droppable(a, defs, p)
  }

  lemma OpensInto(a: Arena, defs: Defs, ty: TypeId)
    requires ArenaInv(a, defs) && Known(defs, ty)
    ensures Droppable(a, defs, ty) ==> OpensDroppable(a, defs, ty)
    ensures ty >= 10 && defs[ty].EnumDef? ==>
      (OpensDroppable(a, defs, ty) <==>
          exists f: TypeId :: HasPart(defs[ty], f) && Known(defs, f) && OpensDroppable(a, defs, f))
    ensures !(ty >= 10 && defs[ty].EnumDef?) ==> (OpensDroppable(a, defs, ty) <==> Droppable(a, defs, ty))
  {
    hide ArenaInv, Rank, HasPart, OwnsHeap, VoidFree;
    assert EnumOpens(a, defs, ty, ty);
    if ty < 10 { KnownPrimitive(a, defs, ty); }
    if ty >= 10 && defs[ty].EnumDef? {
      EnumLevel(a, defs, ty);
      if OpensDroppable(a, defs, ty) {
        var p: TypeId :| EnumOpens(a, defs, ty, p) && Known(defs, p) && Droppable(a, defs, p);
        var f: TypeId :| HasPart(defs[ty], f) && Rank(a, f) < Rank(a, ty) && EnumOpens(a, defs, f, p);
        assert OpensDroppable(a, defs, f);
      }
      if f: TypeId :| HasPart(defs[ty], f) && Known(defs, f) && OpensDroppable(a, defs, f) {
        var p: TypeId :| EnumOpens(a, defs, f, p) && Known(defs, p) && Droppable(a, defs, p);
        assert EnumOpens(a, defs, ty, p);
      }
    }
  }

  lemma KnownPrimitive(a: Arena, defs: Defs, ty: TypeId)
    requires ArenaInv(a, defs) && ty < 10
    ensures ty !in defs
  {
  }

  /** A type needs dropping exactly when opening enums and errors meets a `str`, a `bytes`, or a struct
      that is not copied. */
  lemma {:induction false} NeedsDropParts(a: Arena, defs: Defs, ty: TypeId)
    requires ArenaInv(a, defs) && Known(defs, ty)
    ensures NeedsDrop(a, defs, ty) <==> OpensDroppable(a, defs, ty)
    decreases Rank(a, ty)
  {
    hide ArenaInv, Rank, HasPart, EnumOpens, OpensDroppable;
    BlockHeader(a, defs, ty);
    OpensInto(a, defs, ty);
    if ty >= 10 && defs[ty].StructDef? {
      StructLevel(a, defs, ty);
      CopyExact(a, defs, ty);
    } else if ty >= 10 {
      EnumLevel(a, defs, ty);
      forall f: TypeId | HasPart(defs[ty], f) ensures NeedsDrop(a, defs, f) <==> OpensDroppable(a, defs, f) {
        NeedsDropParts(a, defs, f);
      }
    }
  }

  /** What owns heap storage is dropped, and what is dropped is not copied, for every type. */
  lemma {:induction false} DropBetween(a: Arena, defs: Defs, ty: TypeId)
    requires ArenaInv(a, defs) && Known(defs, ty)
    ensures OwnsHeap(a, defs, ty) ==> NeedsDrop(a, defs, ty)
    ensures NeedsDrop(a, defs, ty) ==> !IsCopy(a, defs, ty)
    decreases Rank(a, ty)
  {
    hide ArenaInv, Rank, HasPart;
    BlockHeader(a, defs, ty);
    if ty >= 10 && defs[ty].StructDef? {
      StructLevel(a, defs, ty);
      CopyExact(a, defs, ty);
    } else if ty >= 10 {
      EnumLevel(a, defs, ty);
      forall f: TypeId | HasPart(defs[ty], f)
        ensures OwnsHeap(a, defs, f) ==> NeedsDrop(a, defs, f)
        ensures NeedsDrop(a, defs, f) ==> !IsCopy(a, defs, f)
      {
        DropBetween(a, defs, f);
      }
    }
  }

  /** Without a droppable part, what is not copied is a `void` under enums and errors only. */
  lemma {:induction false} OnlyVoidLeft(a: Arena, defs: Defs, ty: TypeId)
    requires ArenaInv(a, defs) && Known(defs, ty) && !OpensDroppable(a, defs, ty)
    ensures IsCopy(a, defs, ty) <==> !EnumOpens(a, defs, ty, 0)
    decreases Rank(a, ty)
  {
    hide ArenaInv, Rank, HasPart, OpensDroppable;
    BlockHeader(a, defs, ty);
    OpensInto(a, defs, ty);
    if ty < 10 {
      KnownPrimitive(a, defs, ty);
    } else if defs[ty].StructDef? {
      CopyExact(a, defs, ty);
    } else {
      EnumLevel(a, defs, ty);
      forall f: TypeId | HasPart(defs[ty], f) ensures IsCopy(a, defs, f) <==> !EnumOpens(a, defs, f, 0) {
        OnlyVoidLeft(a, defs, f);
      }
    }
  }

  /** Exactly when "needs drop" is "not Copy": a `void` under enums and errors only is neither, unless
      some other part makes the type droppable. */
  lemma DropIsNotCopyIff(a: Arena, defs: Defs, ty: TypeId)
    requires ArenaInv(a, defs) && Known(defs, ty)
    ensures (NeedsDrop(a, defs, ty) <==> !IsCopy(a, defs, ty)) <==>
        (OpensDroppable(a, defs, ty) || !EnumOpens(a, defs, ty, 0))
  {
    hide *;
    NeedsDropParts(a, defs, ty);
    DropBetween(a, defs, ty);
    if !OpensDroppable(a, defs, ty) { OnlyVoidLeft(a, defs, ty); }
  }

  /** Every struct met by opening enums and errors is free of `void`. */
  ghost predicate StructsVoidFree(a: Arena, defs: Defs, ty: TypeId)
    requires ArenaInv(a, defs)
  {
    forall p: TypeId :: EnumOpens(a, defs, ty, p) && Known(defs, p) && p >= 10 && defs[p].StructDef? ==>
        VoidFree(a, defs, p)
  }

  /** Exactly when "needs drop" is "owns heap storage": a struct with a `void` in it counts as not copied
      and so as dropped, even if nothing in the type owns anything. */
  lemma DropIsHeapIff(a: Arena, defs: Defs, ty: TypeId)
    requires ArenaInv(a, defs) && Known(defs, ty)
    ensures (NeedsDrop(a, defs, ty) <==> OwnsHeap(a, defs, ty)) <==>
        (OwnsHeap(a, defs, ty) || StructsVoidFree(a, defs, ty))
  {
    hide ArenaInv, Rank, HasPart, OwnsHeap, VoidFree, EnumOpens, NeedsDrop;
    NeedsDropParts(a, defs, ty);
    DropBetween(a, defs, ty);
    forall p: TypeId | EnumOpens(a, defs, ty, p) && Known(defs, p) && OwnsHeap(a, defs, p)
        ensures OwnsHeap(a, defs, ty) {
      HeapUnder(a, defs, ty, p);
    }
    PrimitiveHeap(a, defs);
  }

  lemma PrimitiveHeap(a: Arena, defs: Defs)
    requires ArenaInv(a, defs)
    ensures OwnsHeap(a, defs, 3) && OwnsHeap(a, defs, 8)
  {
  }

  lemma {:induction false} HeapUnder(a: Arena, defs: Defs, ty: TypeId, p: TypeId)
    requires ArenaInv(a, defs) && Known(defs, ty) && Known(defs, p) && EnumOpens(a, defs, ty, p)
    ensures OwnsHeap(a, defs, p) ==> OwnsHeap(a, defs, ty)
    ensures VoidFree(a, defs, ty) ==> VoidFree(a, defs, p)
    decreases Rank(a, ty)
  {
    hide ArenaInv, Rank, HasPart;
    if ty != p {
      EnumLevel(a, defs, ty);
      var f: TypeId :| HasPart(defs[ty], f) && Rank(a, f) < Rank(a, ty) && EnumOpens(a, defs, f, p);
      HeapUnder(a, defs, f, p);
    }
  }

  /** A type with no `void` in it needs dropping exactly when it owns heap storage, and exactly when it is
      not copied. */
  lemma NeedsDropExact(a: Arena, defs: Defs, ty: TypeId)
    requires ArenaInv(a, defs) && Known(defs, ty) && VoidFree(a, defs, ty)
    ensures NeedsDrop(a, defs, ty) <==> OwnsHeap(a, defs, ty)
    ensures NeedsDrop(a, defs, ty) <==> !IsCopy(a, defs, ty)
  {
    hide *;
    CopyExact(a, defs, ty);
    DropBetween(a, defs, ty);
  }

  // ---------- Equality ----------

  lemma AnonField(a: Arena, defs: Defs, ty: TypeId, i: nat)
    requires ArenaInv(a, defs) && ty in defs && ty < |a.items| && a.items[ty].tag.AnonStruct?
    ensures defs[ty].StructDef? && a.items[ty].data + 5 <= |a.extra|
    ensures a.extra[a.items[ty].data + 1] == |defs[ty].fields|
    ensures i < |defs[ty].fields| ==>
              var at := a.items[ty].data + 5 + 3 * i + 1;
              && at < |a.extra| && a.extra[at] == defs[ty].fields[i].ty
              && Known(defs, a.extra[at]) && Rank(a, a.extra[at]) < Rank(a, ty)
  {
    hide ArenaInv, StructShape, Offset, FieldWords, StructWords, ShapeOfDef, Unpack, Rank;
    BlockOf(a, defs, ty);
    BlockHeader(a, defs, ty);
    PayloadsBelow(a, defs, ty);
    if i < |defs[ty].fields| { StructWordsAt(a, defs, ty, i); }
  }

  /** The number of fields of an anonymous struct, read from its block. */
  function FieldCount(a: Arena, ghost defs: Defs, ty: TypeId): (r: nat)
    requires ArenaInv(a, defs) && ty in defs && ty < |a.items| && a.items[ty].tag.AnonStruct?
    ensures defs[ty].StructDef? && r == |defs[ty].fields|
  {
    hide ArenaInv, Rank, Known;
    AnonField(a, defs, ty, 0);
    a.extra[a.items[ty].data + 1]
  }

  /** The type of one field, read from the block. */
  function FieldType(a: Arena, ghost defs: Defs, ty: TypeId, i: nat): (r: TypeId)
    requires ArenaInv(a, defs) && ty in defs && ty < |a.items| && a.items[ty].tag.AnonStruct?
    requires i < FieldCount(a, defs, ty)
    ensures r == defs[ty].fields[i].ty && Known(defs, r) && Rank(a, r) < Rank(a, ty)
  {
    hide ArenaInv, Rank, Known;
    AnonField(a, defs, ty, i);
    a.extra[a.items[ty].data + 5 + 3 * i + 1]
  }

  /** `is_eq_capable`: a flag on nominal types, every field of an anonymous struct. */
  predicate IsEqCapable(a: Arena, ghost defs: Defs, ty: TypeId)
    requires ArenaInv(a, defs) && Known(defs, ty)
    decreases Rank(a, ty)
  {
    hide ArenaInv, ShapeOfDef, Unpack;
    BlockHeader(a, defs, ty);
    match a.items[ty].tag
    case Int | Float | Bool | Str | Bytes => true
    case Struct | Enum => Unpack(a.extra[a.items[ty].data + 4]).1.deriveEq
    case AnonStruct => forall i :: 0 <= i < FieldCount(a, defs, ty) ==> IsEqCapable(a, defs, FieldType(a, defs, ty, i))
    case _ => false
  }

  /** `part` is `ty` itself or sits in it under anonymous structs only. */
  ghost predicate Opens(a: Arena, defs: Defs, ty: TypeId, part: TypeId)
    requires ArenaInv(a, defs) && Known(defs, ty)
    decreases Rank(a, ty)
  {
    hide ArenaInv;
    BlockHeader(a, defs, ty);
    ty == part ||
    (a.items[ty].tag.AnonStruct?
     && exists i :: 0 <= i < FieldCount(a, defs, ty) && Opens(a, defs, FieldType(a, defs, ty, i), part))
  }

  /** An anonymous struct, or a part compared as a whole: a scalar, or a nominal type that derives equality. */
  ghost predicate Comparable(a: Arena, defs: Defs, ty: TypeId) {
    if ty < 10 then ty == 1 || ty == 2 || ty == 3 || ty == 4 || ty == 8
    else
      && ty in defs && ty < |a.items|
      && (a.items[ty].tag.AnonStruct?
          || ((a.items[ty].tag.Struct? || a.items[ty].tag.Enum?) && defs[ty].flags.deriveEq))
  }

  /** A type can be compared exactly when every part left after opening anonymous structs can. */
  lemma {:induction false} EqCapableExact(a: Arena, defs: Defs, ty: TypeId)
    requires ArenaInv(a, defs) && Known(defs, ty)
    ensures IsEqCapable(a, defs, ty) <==> forall p: TypeId :: Opens(a, defs, ty, p) ==> Comparable(a, defs, p)
    decreases Rank(a, ty)
  {
    hide ArenaInv, Rank;
    BlockHeader(a, defs, ty);
    if ty >= 10 && a.items[ty].tag.AnonStruct? {
      forall i | 0 <= i < FieldCount(a, defs, ty)
        ensures var f := FieldType(a, defs, ty, i);
                IsEqCapable(a, defs, f) <==> forall p: TypeId :: Opens(a, defs, f, p) ==> Comparable(a, defs, p)
        ensures forall p: TypeId :: Opens(a, defs, FieldType(a, defs, ty, i), p) ==> Opens(a, defs, ty, p)
      {
        EqCapableExact(a, defs, FieldType(a, defs, ty, i));
      }
    } else {
      if ty >= 10 { BlockOf(a, defs, ty); }
      assert Opens(a, defs, ty, ty);
    }
  }
}
