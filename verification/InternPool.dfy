/** Interned types and strings: append-only arenas, handle tables over them, two-phase definitions. */
module Pool {
  import opened Common
  import opened HandleTable
  import opened Layout
  import opened TypeArena

  /** Largest index, length or size the pool can store. */
  const U32_MAX: nat := 0xFFFF_FFFF

  datatype Span = Span(offset: nat, len: nat)

  // ---------- Strings ----------

  /** `str_bytes`: the bytes behind an id. */
  function Payload(strings: seq<Span>, bytes: seq<bv8>, id: StrId): seq<bv8> {
    if id < |strings| && strings[id].offset + strings[id].len <= |bytes|
    then bytes[strings[id].offset..strings[id].offset + strings[id].len]
    else []
  }

  function StrRehash(hash: seq<bv8> -> nat, strings: seq<Span>, bytes: seq<bv8>): nat -> nat {
    id => hash(Payload(strings, bytes, id))
  }

  /** Spans stay inside the byte arena; the table holds every id; no two ids spell the same bytes. */
  ghost predicate StringsInv(hash: seq<bv8> -> nat, strings: seq<Span>, bytes: seq<bv8>, table: Table) {
    && |strings| <= U32_MAX + 1
    && (forall id :: 0 <= id < |strings| ==> strings[id].offset + strings[id].len <= |bytes|)
    && (forall id: nat :: id in Handles(table) <==> id < |strings|)
    && Hashed(table, StrRehash(hash, strings, bytes))
    && (forall i, j :: 0 <= i < j < |strings| ==> Payload(strings, bytes, i) != Payload(strings, bytes, j))
  }

  lemma PayloadStays(strings: seq<Span>, bytes: seq<bv8>, s: seq<bv8>, span: Span)
    requires forall id :: 0 <= id < |strings| ==> strings[id].offset + strings[id].len <= |bytes|
    requires span == Span(|bytes|, |s|)
    ensures forall id :: 0 <= id < |strings| ==>
              Payload(strings + [span], bytes + s, id) == Payload(strings, bytes, id)
    ensures Payload(strings + [span], bytes + s, |strings|) == s
  {
    forall id | 0 <= id < |strings|
      ensures Payload(strings + [span], bytes + s, id) == Payload(strings, bytes, id)
    {
      var at := strings[id];
      assert (strings + [span])[id] == at;
      assert (bytes + s)[at.offset..at.offset + at.len] == bytes[at.offset..at.offset + at.len];
    }
    assert (strings + [span])[|strings|] == span;
    assert (bytes + s)[|bytes|..|bytes| + |s|] == s;
  }

  // ---------- Anonymous structs ----------

  /** The name and type words of stored three-word records. */
  function StoredKey(stored: seq<nat>): seq<nat> {
    if |stored| < 3 then [] else [stored[0], stored[1]] + StoredKey(stored[3..])
  }

  /** `anon_extra_slice`: the field words of an anonymous struct. */
  function FieldSlice(a: Arena, id: TypeId): Option<seq<nat>> {
    if id >= |a.items| || !a.items[id].tag.AnonStruct? then None
    else
      var start := a.items[id].data;
      if start + 2 > |a.extra| || start + 5 + 3 * a.extra[start + 1] > |a.extra| then None
      else Some(a.extra[start + 5..start + 5 + 3 * a.extra[start + 1]])
  }

  /** `anon_eq`: names and types word by word; offsets follow from them. */
  predicate AnonEq(a: Arena, id: TypeId, query: seq<Field>) {
    var stored := FieldSlice(a, id);
    && stored.Some? && |stored.value| == 3 * |query|
    && forall i :: 0 <= i < |query| ==> stored.value[3*i] == query[i].name && stored.value[3*i + 1] == query[i].ty
  }

  /** `anon_hash`. */
  function AnonHash(hash: seq<nat> -> nat, a: Arena, id: TypeId): nat {
    var stored := FieldSlice(a, id);
    if stored.Some? then hash(StoredKey(stored.value)) else 0
  }

  function AnonRehash(hash: seq<nat> -> nat, a: Arena): nat -> nat {
    id => AnonHash(hash, a, id)
  }

  ghost predicate IsAnon(a: Arena, id: TypeId) { id < |a.items| && a.items[id].tag.AnonStruct? }

  ghost predicate AnonDef(defs: Defs, id: TypeId, fields: seq<Field>) {
    id in defs && defs[id].StructDef? && defs[id].fields == fields
  }

  /** The table holds every anonymous struct, and no two have the same field list. */
  ghost predicate AnonInv(hash: seq<nat> -> nat, a: Arena, defs: Defs, table: Table) {
    && (forall id: nat :: id in Handles(table) <==> IsAnon(a, id))
    && Hashed(table, AnonRehash(hash, a))
    && (forall i, j, fields :: IsAnon(a, i) && IsAnon(a, j) && AnonDef(defs, i, fields) && AnonDef(defs, j, fields) ==>
         i == j)
  }

  lemma {:induction false} StoredKeySnoc(s: seq<nat>, w: seq<nat>)
    requires |s| % 3 == 0 && |w| == 3
    ensures StoredKey(s + w) == StoredKey(s) + [w[0], w[1]]
  {
    if s == [] {
      assert s + w == w;
    } else {
      assert (s + w)[3..] == s[3..] + w;
      StoredKeySnoc(s[3..], w);
    }
  }

  lemma {:induction false} PairWordsSnoc(fields: seq<Field>, f: Field)
    ensures PairWords(fields + [f]) == PairWords(fields) + [f.name, f.ty]
  {
    if fields == [] {
      assert fields + [f] == [f];
    } else {
      assert (fields + [f])[1..] == fields[1..] + [f];
      PairWordsSnoc(fields[1..], f);
    }
  }

  /** Rehashing what was stored reads the same words as hashing the query. */
  lemma {:induction false} StoredKeyExact(fields: seq<Field>, shapes: seq<Shape>, n: nat)
    requires n <= |fields| == |shapes|
    ensures StoredKey(FieldWords(fields, shapes, n)) == PairWords(fields[..n])
  {
    hide StoredKey, PairWords, Offset;
    if n == 0 {
      EmptyKey(fields, shapes);
    } else {
      StoredKeyExact(fields, shapes, n - 1);
      StoredKeySnoc(FieldWords(fields, shapes, n - 1), [fields[n-1].name, fields[n-1].ty, Offset(shapes, n - 1)]);
      PairWordsSnoc(fields[..n-1], fields[n-1]);
      assert fields[..n] == fields[..n-1] + [fields[n-1]];
    }
  }

  lemma EmptyKey(fields: seq<Field>, shapes: seq<Shape>)
    requires |fields| == |shapes|
    ensures StoredKey(FieldWords(fields, shapes, 0)) == PairWords(fields[..0]) == []
  {
  }

  lemma AnonBlock(a: Arena, defs: Defs, id: TypeId)
    requires ArenaInv(a, defs) && IsAnon(a, id)
    ensures id >= 10 && id in defs && defs[id].StructDef? && WellShaped(defs[id])
    ensures SliceAt(a.extra, a.items[id].data, StructWords(defs[id]))
  {
    hide FieldsFit, AllCopy, StructWords, SliceAt;
    if id < 10 { PrimItem(a, defs, id); }
    assert BlockAt(a, defs, a.items[id].data, defs[id]);
  }

  lemma FieldSliceExact(a: Arena, defs: Defs, id: TypeId)
    requires ArenaInv(a, defs) && IsAnon(a, id)
    ensures id in defs && defs[id].StructDef? && WellShaped(defs[id])
    ensures FieldSlice(a, id) == Some(FieldWords(defs[id].fields, defs[id].shapes, |defs[id].fields|))
  {
    hide ArenaInv, StructShape, FieldWords, Pack;
    AnonBlock(a, defs, id);
    var d, data := defs[id], a.items[id].data;
    var shape := StructShape(d.shapes);
    var header := [d.name, |d.fields|, shape.size, shape.align, Pack(d.flags, d.copy)];
    SliceSplit(a.extra, data, header, FieldWords(d.fields, d.shapes, |d.fields|));
    SliceIndex(a.extra, data, header, 1);
  }

  /** A candidate compares equal exactly when its definition has the queried field list. */
  lemma AnonEqExact(a: Arena, defs: Defs, id: TypeId, query: seq<Field>)
    requires ArenaInv(a, defs) && IsAnon(a, id)
    ensures AnonEq(a, id, query) <==> AnonDef(defs, id, query)
  {
    FieldSliceExact(a, defs, id);
    var d := defs[id];
    forall i | 0 <= i < |d.fields|
      ensures var w := FieldWords(d.fields, d.shapes, |d.fields|);
        w[3*i] == d.fields[i].name && w[3*i+1] == d.fields[i].ty
    {
      FieldWordsAt(d.fields, d.shapes, |d.fields|, i);
    }
    hide ArenaInv, FieldWords, BlockAt;
    if AnonEq(a, id, query) {
      assert forall i :: 0 <= i < |query| ==> d.fields[i] == query[i];
      assert d.fields == query;
    }
  }

  lemma AnonRehashExact(hash: seq<nat> -> nat, a: Arena, defs: Defs, id: TypeId)
    requires ArenaInv(a, defs) && IsAnon(a, id)
    ensures id in defs && defs[id].StructDef? && AnonRehash(hash, a)(id) == hash(PairWords(defs[id].fields))
  {
    FieldSliceExact(a, defs, id);
    var d := defs[id];
    StoredKeyExact(d.fields, d.shapes, |d.fields|);
    assert d.fields[..|d.fields|] == d.fields;
  }

  /** Operations that add no anonymous struct leave the table right. */
  lemma AnonInvStays(hash: seq<nat> -> nat, a: Arena, defs: Defs, a': Arena, defs': Defs, table: Table)
    requires ArenaInv(a, defs) && ArenaInv(a', defs') && Extends(a, defs, a', defs') && AnonInv(hash, a, defs, table)
    requires forall id :: IsAnon(a', id) <==> IsAnon(a, id)
    ensures AnonInv(hash, a', defs', table)
  {
    hide ArenaInv, AnonRehash, AnonHash, FieldSlice, PairWords, Hashed;
    forall h | h in Handles(table) ensures h in defs && AnonRehash(hash, a)(h) == AnonRehash(hash, a')(h) {
      AnonRehashExact(hash, a, defs, h);
      AnonRehashExact(hash, a', defs', h);
    }
    HashedStable(table, AnonRehash(hash, a), AnonRehash(hash, a'));
    forall i, j, fields | IsAnon(a', i) && IsAnon(a', j) && AnonDef(defs', i, fields) && AnonDef(defs', j, fields)
        ensures i == j {
      assert i in Handles(table) && j in Handles(table);
      assert AnonDef(defs, i, fields) && AnonDef(defs, j, fields);
    }
  }

  // ---------- The whole pool ----------

  /** The tables that map declared names, member lists and (set, success) pairs to types. */
  datatype Names = Names(
    structs: map<StrId, TypeId>, enums: map<StrId, TypeId>, errors: map<StrId, TypeId>,
    sets: map<seq<TypeId>, TypeId>, unions: map<(TypeId, TypeId), TypeId>)

  datatype State = State(
    arena: Arena, defs: Defs, typeDedup: Table,
    strings: seq<Span>, stringBytes: seq<bv8>, stringDedup: Table, names: Names)

  /** Nominal identity: a name table maps different names to different types of its kind. */
  ghost predicate NamesInv(a: Arena, names: map<StrId, TypeId>, tag: Tag) {
    && (forall n :: n in names ==> 10 <= names[n] < |a.items| && a.items[names[n]].tag == tag)
    && (forall m, n :: m in names && n in names && names[m] == names[n] ==> m == n)
  }

  ghost predicate Increasing(key: seq<TypeId>) { forall i, j :: 0 <= i < j < |key| ==> key[i] < key[j] }

  /** Where the member words of an error set start. */
  ghost function MembersStart(a: Arena, defs: Defs, id: TypeId): nat
    requires id < |a.items| && id in defs && defs[id].EnumDef? && WellShaped(defs[id])
  {
    a.items[id].data + 6 + |VariantsWords(defs[id].variants, defs[id].variantShapes)|
  }

  /** `id` is the error set of the increasing list `key`: one variant per member, the member's own,
      and the members themselves behind the directory. */
  ghost predicate SetAt(a: Arena, defs: Defs, id: TypeId, key: seq<TypeId>) {
    && Increasing(key) && |key| != 1
    && id < |a.items| && a.items[id].tag.ErrorSet? && id in defs && defs[id].EnumDef? && WellShaped(defs[id])
    && defs[id].flags == Flags(false, false)
    && |defs[id].variants| == |key| && SliceAt(a.extra, MembersStart(a, defs, id), key)
    && forall i :: 0 <= i < |key| ==>
         && key[i] < |a.items| && a.items[key[i]].tag.DeclaredError? && key[i] in defs && defs[key[i]].EnumDef?
         && defs[key[i]].variants == [defs[id].variants[i]]
  }

  ghost predicate UnionAt(a: Arena, defs: Defs, id: TypeId, errorSet: TypeId, success: TypeId) {
    && id < |a.items| && a.items[id].tag.ErrorUnion? && id in defs && defs[id].EnumDef?
    && |defs[id].variants| == 2 && |defs[id].variants[0].fields| == 1 && |defs[id].variants[1].fields| == 1
    && defs[id].variants[0].fields[0].ty == success && defs[id].variants[1].fields[0].ty == errorSet
  }

  ghost predicate NamesOk(a: Arena, defs: Defs, names: Names) {
    && NamesInv(a, names.structs, Struct) && NamesInv(a, names.enums, Enum) && NamesInv(a, names.errors, DeclaredError)
    && (forall key :: key in names.sets ==> SetAt(a, defs, names.sets[key], key))
    && (forall key :: key in names.unions ==> UnionAt(a, defs, names.unions[key], key.0, key.1))
  }

  ghost predicate PoolInv(s: State, hashBytes: seq<bv8> -> nat, hashWords: seq<nat> -> nat) {
    && ArenaInv(s.arena, s.defs)
    && StringsInv(hashBytes, s.strings, s.stringBytes, s.stringDedup)
    && AnonInv(hashWords, s.arena, s.defs, s.typeDedup)
    && NamesOk(s.arena, s.defs, s.names)
  }

  ghost predicate TagsKept(a: Arena, b: Arena) {
    forall id :: 0 <= id < |a.items| ==> id < |b.items| && b.items[id].tag == a.items[id].tag
  }

  ghost predicate Grown<K(!new), V(!new)>(m: map<K, V>, n: map<K, V>) { forall k :: k in m ==> k in n && n[k] == m[k] }

  /** What every operation keeps: all blocks, definitions, strings and names. */
  ghost predicate Later(s: State, t: State) {
    && Extends(s.arena, s.defs, t.arena, t.defs) && TagsKept(s.arena, t.arena)
    && s.strings <= t.strings && s.stringBytes <= t.stringBytes
    && Grown(s.names.structs, t.names.structs) && Grown(s.names.enums, t.names.enums)
         && Grown(s.names.errors, t.names.errors)
    && Grown(s.names.sets, t.names.sets) && Grown(s.names.unions, t.names.unions)
  }

  lemma LaterTransitive(s: State, t: State, u: State)
    requires Later(s, t) && Later(t, u)
    ensures Later(s, u)
  {
    ExtendsTransitive(s.arena, s.defs, t.arena, t.defs, u.arena, u.defs);
  }

  /** Interning is canonical across any run of later operations, whatever the hash function: an id
      obtained then and an id obtained now are the same exactly when the keys are. */
  lemma CanonicalOverTime(s: State, t: State, hashBytes: seq<bv8> -> nat, hashWords: seq<nat> -> nat)
    requires PoolInv(s, hashBytes, hashWords) && PoolInv(t, hashBytes, hashWords) && Later(s, t)
    ensures forall i, j :: 0 <= i < |s.strings| && 0 <= j < |t.strings| ==>
              (i == j <==> Payload(s.strings, s.stringBytes, i) == Payload(t.strings, t.stringBytes, j))
    ensures forall i, j, f, g ::
              IsAnon(s.arena, i) && AnonDef(s.defs, i, f) && IsAnon(t.arena, j) && AnonDef(t.defs, j, g) ==>
                (i == j <==> f == g)
    ensures forall m, n :: m in s.names.structs && n in t.names.structs ==>
        (m == n <==> s.names.structs[m] == t.names.structs[n])
    ensures forall m, n :: m in s.names.enums && n in t.names.enums ==>
        (m == n <==> s.names.enums[m] == t.names.enums[n])
    ensures forall m, n :: m in s.names.errors && n in t.names.errors ==>
        (m == n <==> s.names.errors[m] == t.names.errors[n])
    ensures forall k, l :: k in s.names.sets && l in t.names.sets ==> (k == l <==> s.names.sets[k] == t.names.sets[l])
    ensures forall k, l :: k in s.names.unions && l in t.names.unions ==>
        (k == l <==> s.names.unions[k] == t.names.unions[l])
  {
    hide ArenaInv, StringsInv, AnonInv, SetAt, Extends, Payload;
    StringsOverTime(s, t, hashBytes, hashWords);
    AnonOverTime(s, t, hashBytes, hashWords);
    forall k, l | k in s.names.sets && l in t.names.sets && s.names.sets[k] == t.names.sets[l] ensures k == l {
      SameSet(t.arena, t.defs, t.names.sets[l], k, l);
    }
  }

  /** A set's id determines its members. */
  lemma SameSet(a: Arena, defs: Defs, id: TypeId, k: seq<TypeId>, l: seq<TypeId>)
    requires SetAt(a, defs, id, k) && SetAt(a, defs, id, l)
    ensures k == l
  {
    hide VariantsWords;
    var at := MembersStart(a, defs, id);
    assert k == a.extra[at..at+|k|] && l == a.extra[at..at+|l|];
  }

  lemma StringsOverTime(s: State, t: State, hashBytes: seq<bv8> -> nat, hashWords: seq<nat> -> nat)
    requires PoolInv(s, hashBytes, hashWords) && PoolInv(t, hashBytes, hashWords) && Later(s, t)
    ensures forall i, j :: 0 <= i < |s.strings| && 0 <= j < |t.strings| ==>
              (i == j <==> Payload(s.strings, s.stringBytes, i) == Payload(t.strings, t.stringBytes, j))
  {
    hide ArenaInv, AnonInv, NamesOk, Extends;
    forall i, j | 0 <= i < |s.strings| && 0 <= j < |t.strings|
      ensures i == j <==> Payload(s.strings, s.stringBytes, i) == Payload(t.strings, t.stringBytes, j)
    {
      assert s.strings[i] == t.strings[i];
      assert Payload(s.strings, s.stringBytes, i) == Payload(t.strings, t.stringBytes, i);
    }
  }

  lemma AnonOverTime(s: State, t: State, hashBytes: seq<bv8> -> nat, hashWords: seq<nat> -> nat)
    requires PoolInv(s, hashBytes, hashWords) && PoolInv(t, hashBytes, hashWords) && Later(s, t)
    ensures forall i, j, f, g ::
              IsAnon(s.arena, i) && AnonDef(s.defs, i, f) && IsAnon(t.arena, j) && AnonDef(t.defs, j, g) ==>
                (i == j <==> f == g)
  {
    hide ArenaInv, StringsInv, NamesOk;
    forall i, j, f, g | IsAnon(s.arena, i) && AnonDef(s.defs, i, f) && IsAnon(t.arena, j) && AnonDef(t.defs, j, g)
      ensures i == j <==> f == g
    {
      assert IsAnon(t.arena, i) && AnonDef(t.defs, i, f);
    }
  }

  // ---------- Growing directories ----------

  lemma {:induction false} VariantsSnoc(vs: seq<VariantDef>, shapes: seq<seq<Shape>>, v: VariantDef, s: seq<Shape>)
    requires |vs| == |shapes| && Matched(vs, shapes) && |v.fields| == |s|
    ensures Matched(vs + [v], shapes + [s])
    ensures VariantsWords(vs + [v], shapes + [s]) == VariantsWords(vs, shapes) + VariantWords(v, s)
    ensures AllPayloadFields(vs + [v], shapes + [s]) == AllPayloadFields(vs, shapes) + PayloadFields(v, s)
    decreases |vs|
  {
    hide VariantWords, PayloadFields, VariantsWords, AllPayloadFields;
    NoVariants();
    if vs == [] {
      assert vs + [v] == [v] && shapes + [s] == [s];
      BlockHead([v], [s]);
    } else {
      BlockHead(vs, shapes);
      VariantsSnoc(vs[1..], shapes[1..], v, s);
      BlockHead(vs + [v], shapes + [s]);
      assert (vs + [v])[1..] == vs[1..] + [v] && (shapes + [s])[1..] == shapes[1..] + [s];
    }
  }

  /** The shapes of a field list now. */
  ghost function ShapesOf(a: Arena, defs: Defs, fields: seq<Field>): (r: seq<Shape>)
    requires ArenaInv(a, defs) && AllKnown(defs, fields)
    ensures |r| == |fields|
  {
    seq(|fields|, i requires 0 <= i < |fields| => SizeAlign(a, defs, fields[i].ty))
  }

  ghost predicate AllKnown(defs: Defs, fields: seq<Field>) {
    forall i :: 0 <= i < |fields| ==> Known(defs, fields[i].ty)
  }

  // ---------- One lemma per operation ----------

  lemma StringAdded(hash: seq<bv8> -> nat, strings: seq<Span>, bytes: seq<bv8>, table: Table, s: seq<bv8>)
    requires StringsInv(hash, strings, bytes, table)
    requires forall id :: 0 <= id < |strings| ==> Payload(strings, bytes, id) != s
    ensures var rehash := StrRehash(hash, strings + [Span(|bytes|, |s|)], bytes + s);
            Hashed(table, rehash) && rehash(|strings|) == hash(s)
    ensures var all := strings + [Span(|bytes|, |s|)];
            && (forall id :: 0 <= id < |strings| ==> Payload(all, bytes + s, id) == Payload(strings, bytes, id))
            && Payload(all, bytes + s, |strings|) == s
            && (forall i, j :: 0 <= i < j < |all| ==> Payload(all, bytes + s, i) != Payload(all, bytes + s, j))
  {
    var all := strings + [Span(|bytes|, |s|)];
    PayloadStays(strings, bytes, s, Span(|bytes|, |s|));
    HashedStable(table, StrRehash(hash, strings, bytes), StrRehash(hash, all, bytes + s));
  }

  /** A new anonymous struct keeps the table canonical. */
  lemma AnonAdded(hash: seq<nat> -> nat, a: Arena, defs: Defs, table: Table, a': Arena, d: Def)
    requires ArenaInv(a, defs) && AnonInv(hash, a, defs, table) && d.StructDef?
    requires var id := |a.items|;
      && a'.items == a.items + [Item(AnonStruct, |a.extra|)] && id !in defs
      && ArenaInv(a', defs[id := d]) && Extends(a, defs, a', defs[id := d])
    requires forall id :: IsAnon(a, id) ==> !AnonDef(defs, id, d.fields)
    ensures var rehash, id := AnonRehash(hash, a'), |a.items|;
            && Hashed(table, rehash) && rehash(id) == hash(PairWords(d.fields))
            && forall t :: Handles(t) == Handles(table) + {id} && Hashed(t, rehash) ==>
                 AnonInv(hash, a', defs[id := d], t)
  {
    hide ArenaInv, AnonRehash, AnonHash, FieldSlice, PairWords, Hashed, Handles;
    var id, defs' := |a.items|, defs[|a.items| := d];
    forall i ensures IsAnon(a', i) <==> IsAnon(a, i) || i == id {
    }
    forall h | h in Handles(table) ensures h in defs && AnonRehash(hash, a)(h) == AnonRehash(hash, a')(h) {
      assert IsAnon(a, h);
      AnonRehashExact(hash, a, defs, h);
      AnonRehashExact(hash, a', defs', h);
    }
    HashedStable(table, AnonRehash(hash, a), AnonRehash(hash, a'));
    AnonRehashExact(hash, a', defs', id);
    forall i, j, f | IsAnon(a', i) && IsAnon(a', j) && AnonDef(defs', i, f) && AnonDef(defs', j, f) ensures i == j {
      if i != id { assert i in Handles(table) && AnonDef(defs, i, f); }
      if j != id { assert j in Handles(table) && AnonDef(defs, j, f); }
    }
  }

  lemma NamesStay(a: Arena, defs: Defs, a': Arena, defs': Defs, names: Names)
    requires NamesOk(a, defs, names) && Extends(a, defs, a', defs') && TagsKept(a, a')
    ensures NamesOk(a', defs', names)
  {
    hide Extends, SetAt, UnionAt;
    forall key | key in names.sets ensures SetAt(a', defs', names.sets[key], key) {
      SetStays(a, defs, a', defs', names.sets[key], key);
    }
    forall key | key in names.unions ensures UnionAt(a', defs', names.unions[key], key.0, key.1) {
      UnionStays(a, defs, a', defs', names.unions[key], key.0, key.1);
    }
  }

  lemma SetStays(a: Arena, defs: Defs, a': Arena, defs': Defs, id: TypeId, key: seq<TypeId>)
    requires SetAt(a, defs, id, key) && Extends(a, defs, a', defs') && TagsKept(a, a')
    ensures SetAt(a', defs', id, key)
  {
    hide VariantsWords, WellShaped, Increasing;
    var more := a'.extra[|a.extra|..];
    assert a'.extra == a.extra + more;
    SliceStays(a.extra, more, MembersStart(a, defs, id), key);
  }

  lemma UnionStays(a: Arena, defs: Defs, a': Arena, defs': Defs, id: TypeId, errorSet: TypeId, success: TypeId)
    requires UnionAt(a, defs, id, errorSet, success) && Extends(a, defs, a', defs') && TagsKept(a, a')
    ensures UnionAt(a', defs', id, errorSet, success)
  {
  }

  /** A new item takes a new name. */
  lemma NameEntered(a: Arena, a': Arena, names: map<StrId, TypeId>, tag: Tag, name: StrId, id: TypeId)
    requires NamesInv(a, names, tag) && NamesInv(a', names, tag) && name !in names
    requires 10 <= id == |a.items| && |a'.items| == id + 1 && a'.items[id].tag == tag
    ensures NamesInv(a', names[name := id], tag) && Grown(names, names[name := id])
  {
  }

  lemma GrownSelf<K(!new), V(!new)>(m: map<K, V>)
    ensures Grown(m, m)
  {
  }

  /** Fields whose types are laid out now fit any block written at the end of the word arena. */
  lemma FieldsFitNow(a: Arena, defs: Defs, a': Arena, fields: seq<Field>)
    requires ArenaInv(a, defs) && AllKnown(defs, fields)
    requires |a.items| <= |a'.items| && forall id :: 0 <= id < |a.items| && (id < 10 || id in defs) ==>
        a'.items[id] == a.items[id]
    ensures FieldsFit(a', defs, fields, ShapesOf(a, defs, fields), |a.extra|)
  {
    hide ArenaInv, ShapeOfDef, WellShaped;
    forall i | 0 <= i < |fields|
      ensures var ty := fields[i].ty;
              && Known(defs, ty) && Rank(a', ty) <= |a.extra| && (ty >= 10 ==> WellShaped(defs[ty]))
              && ShapeOf(defs, ty) == ShapesOf(a, defs, fields)[i]
    {
      BlockHeader(a, defs, fields[i].ty);
    }
  }

  lemma SliceAtEnd<T>(s: seq<T>, part: seq<T>)
    ensures SliceAt(s + part, |s|, part)
  {
  }

  /** Writing a struct's block, as `define_struct` and `anon_struct` do. */
  lemma StructDefined(a: Arena, defs: Defs, id: TypeId, d: Def, a': Arena)
    requires ArenaInv(a, defs) && id !in defs && (|a.extra| < UNDEFINED || (id == |a.items| && |a.extra| == UNDEFINED))
    requires d.StructDef? && AllKnown(defs, d.fields)
    requires d.shapes == ShapesOf(a, defs, d.fields) && (d.copy <==> AllCopy(defs, d.fields))
    requires a'.extra == a.extra + StructWords(d) && a'.enumFields == a.enumFields
    requires || (10 <= id < |a.items| && a.items[id].tag.Struct? && a'.items == a.items[id := Item(Struct, |a.extra|)])
             || (id == |a.items| && a'.items == a.items + [Item(AnonStruct, |a.extra|)])
    ensures ArenaInv(a', defs[id := d]) && Extends(a, defs, a', defs[id := d])
  {
    hide FieldsFit, AllCopy, StructWords, SliceAt, AllKnown, ShapesOf;
    BelowTen(a, defs);
    FieldsFitNow(a, defs, a', d.fields);
    SliceAtEnd(a.extra, StructWords(d));
    assert BlockAt(a', defs, |a.extra|, d);
    DefineKeeps(a, defs, a', id, d);
  }

  lemma BelowTen(a: Arena, defs: Defs)
    requires ArenaInv(a, defs)
    ensures |a.items| >= 10 && forall id :: 0 <= id < 10 ==> !a.items[id].tag.Struct? && !EnumShaped(a.items[id].tag)
    ensures forall id :: id in defs ==> 10 <= id < |a.items|
  {
    forall id | 0 <= id < 10 ensures !a.items[id].tag.Struct? && !EnumShaped(a.items[id].tag) {
      PrimItem(a, defs, id);
    }
  }

  ghost predicate AllVariantsKnown(defs: Defs, variants: seq<VariantDef>) {
    forall v :: 0 <= v < |variants| ==> AllKnown(defs, variants[v].fields)
  }

  ghost function VariantShapesOf(a: Arena, defs: Defs, variants: seq<VariantDef>): (r: seq<seq<Shape>>)
    requires ArenaInv(a, defs) && AllVariantsKnown(defs, variants)
    ensures |r| == |variants| && Matched(variants, r)
  {
    seq(|variants|, v requires 0 <= v < |variants| => ShapesOf(a, defs, variants[v].fields))
  }

  ghost predicate AllVariantsCopy(defs: Defs, variants: seq<VariantDef>) {
    forall v :: 0 <= v < |variants| ==> AllCopy(defs, variants[v].fields)
  }

  /** Writing the header and directory of a type with variants, and its payload records. */
  lemma EnumDefined(a: Arena, defs: Defs, id: TypeId, d: Def, a': Arena)
    requires ArenaInv(a, defs) && id !in defs && (|a.extra| < UNDEFINED || (id == |a.items| && |a.extra| == UNDEFINED))
    requires d.EnumDef? && AllVariantsKnown(defs, d.variants)
    requires d.variantShapes == VariantShapesOf(a, defs, d.variants) && (d.copy <==> AllVariantsCopy(defs, d.variants))
    requires a'.extra == a.extra + (EnumHeader(d, |a.enumFields|) + VariantsWords(d.variants, d.variantShapes))
    requires a'.enumFields == a.enumFields + AllPayloadFields(d.variants, d.variantShapes)
    requires || (10 <= id < |a.items| && TagFits(a.items[id].tag, d)
        && a'.items == a.items[id := Item(a.items[id].tag, |a.extra|)])
             || (id == |a.items| && d.variants == [] && a'.items == a.items + [Item(Tag.ErrorSet, |a.extra|)])
    ensures ArenaInv(a', defs[id := d]) && Extends(a, defs, a', defs[id := d])
  {
    hide FieldsFit, AllCopy, EnumHeader, VariantsWords, AllPayloadFields, SliceAt, AllKnown, ShapesOf;
    var vs, shapes := d.variants, d.variantShapes;
    BelowTen(a, defs);
    forall v | 0 <= v < |vs| ensures FieldsFit(a', defs, vs[v].fields, shapes[v], |a.extra|) {
      FieldsFitNow(a, defs, a', vs[v].fields);
    }
    SliceAtEnd(a.extra, EnumHeader(d, |a.enumFields|) + VariantsWords(vs, shapes));
    SliceAtEnd(a.enumFields, AllPayloadFields(vs, shapes));
    assert EnumBlockAt(a', |a.extra|, d, |a.enumFields|);
    assert BlockAt(a', defs, |a.extra|, d);
    DefineKeeps(a, defs, a', id, d);
  }

  /** A declaration changes no definition and no table of anonymous structs. */
  lemma Declared(a: Arena, defs: Defs, tag: Tag, table: Table, hash: seq<nat> -> nat)
    requires ArenaInv(a, defs) && AnonInv(hash, a, defs, table) && (tag.Struct? || EnumShaped(tag))
    ensures var a' := a.(items := a.items + [Item(tag, UNDEFINED)]);
            ArenaInv(a', defs) && Extends(a, defs, a', defs) && TagsKept(a, a') && AnonInv(hash, a', defs, table)
  {
    hide ArenaInv;
    DeclareKeeps(a, defs, tag);
    AnonInvStays(hash, a, defs, a.(items := a.items + [Item(tag, UNDEFINED)]), defs, table);
  }

  lemma InRange(s: State, hashBytes: seq<bv8> -> nat, hashWords: seq<nat> -> nat)
    requires PoolInv(s, hashBytes, hashWords)
    ensures ArenaInv(s.arena, s.defs)
  {
  }

  /** Only the name tables differ, and they grow consistently. */
  lemma Renamed(s: State, t: State, hashBytes: seq<bv8> -> nat, hashWords: seq<nat> -> nat)
    requires PoolInv(s, hashBytes, hashWords) && NamesOk(t.arena, t.defs, t.names) && t == s.(names := t.names)
    requires Grown(s.names.structs, t.names.structs) && Grown(s.names.enums, t.names.enums)
        && Grown(s.names.errors, t.names.errors)
    requires Grown(s.names.sets, t.names.sets) && Grown(s.names.unions, t.names.unions)
    ensures PoolInv(t, hashBytes, hashWords) && Later(s, t)
  {
    hide ArenaInv, StringsInv, AnonInv, NamesOk, Grown;
  }

  lemma LaterSelf(s: State, hashBytes: seq<bv8> -> nat, hashWords: seq<nat> -> nat)
    requires PoolInv(s, hashBytes, hashWords)
    ensures Later(s, s)
  {
  }

  lemma Inserted(defs: Defs, id: TypeId, fields: seq<Field>)
    requires id in defs && defs[id].StructDef? && defs[id].fields == fields
    ensures AnonDef(defs, id, fields)
  {
  }

  lemma SameFields(defs: Defs, id: TypeId, fields: seq<Field>)
    ensures AnonDef(defs, id, fields) ==> id in defs && defs[id].StructDef? && defs[id].fields == fields
  {
  }

  /** The words a struct view is decoded from. */
  lemma ReadsBack(a: Arena, defs: Defs, id: TypeId)
    requires ArenaInv(a, defs) && id in defs && defs[id].StructDef?
    ensures 10 <= id < |a.items| && WellShaped(defs[id])
    ensures var d, start, shape := defs[id], a.items[id].data, StructShape(defs[id].shapes);
            && |StructFields(d)| == |d.fields|
            && start + 5 + 3 * |d.fields| <= |a.extra|
            && a.extra[start] == d.name && a.extra[start+1] == |d.fields| && a.extra[start+2] == shape.size
            && a.extra[start+3] == shape.align && Unpack(a.extra[start+4]) == (d.copy, d.flags)
            && forall i, base :: 0 <= i < |d.fields| && base == start + 5 + 3 * i ==>
                 StructFields(d)[i] == StructField(a.extra[base], a.extra[base+1], a.extra[base+2], i)
  {
    hide ArenaInv, StructFields, StructShape;
    BelowTen(a, defs);
    BlockHeader(a, defs, id);
    forall i | 0 <= i < |defs[id].fields| { StructWordsAt(a, defs, id, i); }
    if defs[id].fields != [] { StructWordsAt(a, defs, id, |defs[id].fields| - 1); }
  }

  ghost predicate DistinctNames(variants: seq<VariantDef>) {
    forall u, v :: 0 <= u < v < |variants| ==> variants[u].name != variants[v].name
  }

  predicate CountsFit(variants: seq<VariantDef>) {
    |variants| <= U32_MAX && forall v :: 0 <= v < |variants| ==> |variants[v].fields| <= U32_MAX
  }

  /** Payload offsets, and field offsets relative to them. */
  ghost predicate Offsets(offsets: seq<nat>, fieldOffsets: seq<seq<nat>>, shapes: seq<seq<Shape>>) {
    && |offsets| == |fieldOffsets| == |shapes|
    && forall v :: 0 <= v < |shapes| ==>
         && offsets[v] == PayloadOffset(shapes[v]) && |fieldOffsets[v]| == |shapes[v]|
         && forall i :: 0 <= i < |shapes[v]| ==> fieldOffsets[v][i] == Offset(shapes[v], i)
  }

  lemma UndefinedItem(a: Arena, defs: Defs, id: TypeId)
    requires ArenaInv(a, defs) && 10 <= id < |a.items|
    requires a.items[id].tag.AnonStruct? || a.items[id].tag.ErrorSet? ==> id !in defs
    ensures id in defs <==> a.items[id].data != UNDEFINED
  {
  }

  lemma OneVariant(a: Arena, defs: Defs, v: VariantDef)
    requires ArenaInv(a, defs) && AllKnown(defs, v.fields)
    ensures AllVariantsKnown(defs, [v]) && VariantShapesOf(a, defs, [v]) == [ShapesOf(a, defs, v.fields)]
    ensures AllVariantsCopy(defs, [v]) <==> AllCopy(defs, v.fields)
    ensures DistinctNames([v]) && (CountsFit([v]) <==> |v.fields| <= U32_MAX)
  {
    hide ArenaInv, AllKnown, AllCopy;
    assert [v][0] == v;
  }

  const OK: seq<bv8> := [79, 107]
  const ERR: seq<bv8> := [69, 114, 114]
  const ZERO: seq<bv8> := [48]

  /** `VariantKind::Tuple`. */
  const UNIT: nat := 0
  const TUPLE: nat := 1

  /** The payload shapes of a union. */
  ghost function UnionShapes(a: Arena, defs: Defs, errorSet: TypeId, success: TypeId): seq<seq<Shape>>
    requires ArenaInv(a, defs) && Known(defs, errorSet) && Known(defs, success)
  {
    [[SizeAlign(a, defs, success)], [SizeAlign(a, defs, errorSet)]]
  }

  lemma UnionThere(a: Arena, defs: Defs, names: Names, errorSet: TypeId, success: TypeId)
    requires NamesOk(a, defs, names) && (errorSet, success) in names.unions
    ensures UnionAt(a, defs, names.unions[(errorSet, success)], errorSet, success)
  {
  }

  lemma UnionVariants(a: Arena, a': Arena, defs: Defs, errorSet: TypeId, success: TypeId, variants: seq<VariantDef>)
    requires ArenaInv(a, defs) && ArenaInv(a', defs) && Known(defs, errorSet) && Known(defs, success)
    requires |variants| == 2 && variants[0].name != variants[1].name
    requires exists f :: variants[0].fields == [Field(f, success)] && variants[1].fields == [Field(f, errorSet)]
    ensures AllVariantsKnown(defs, variants) && DistinctNames(variants) && CountsFit(variants)
    ensures VariantShapesOf(a', defs, variants) == UnionShapes(a, defs, errorSet, success)
  {
    hide ArenaInv;
    assert ShapesOf(a', defs, variants[0].fields) == [SizeAlign(a', defs, success)] == [SizeAlign(a, defs, success)];
    assert ShapesOf(a', defs, variants[1].fields) == [SizeAlign(a', defs, errorSet)] == [SizeAlign(a, defs, errorSet)];
  }

  lemma UnionMade(a: Arena, defs: Defs, id: TypeId, errorSet: TypeId, success: TypeId)
    requires id < |a.items| && a.items[id].tag.ErrorUnion? && id in defs && defs[id].EnumDef?
    requires |defs[id].variants| == 2
    requires exists f ::
               defs[id].variants[0].fields == [Field(f, success)] && defs[id].variants[1].fields == [Field(f, errorSet)]
    ensures UnionAt(a, defs, id, errorSet, success)
  {
  }

  /** A union's block: no name, no flags, and the variants `Ok` and `Err`, each with one field `0`. */
  ghost predicate UnionNamed(s: State, id: TypeId, errorSet: TypeId, success: TypeId) {
    exists name: StrId, ok: StrId, err: StrId, field: StrId ::
      UnionBlock(s.defs, id, errorSet, success, name, ok, err, field) && UnionTexts(s, name, ok, err, field)
  }

  ghost predicate UnionBlock(defs: Defs, id: TypeId, errorSet: TypeId, success: TypeId, name: StrId, ok: StrId,
      err: StrId, field: StrId) {
    && id in defs && defs[id].EnumDef? && defs[id].name == name && defs[id].flags == Flags(false, false)
    && defs[id].variants ==
         [VariantDef(ok, 1, [Field(field, success)]), VariantDef(err, 1, [Field(field, errorSet)])]
  }

  ghost predicate UnionTexts(s: State, name: StrId, ok: StrId, err: StrId, field: StrId) {
    && name < |s.strings| && ok < |s.strings| && err < |s.strings| && field < |s.strings|
    && Payload(s.strings, s.stringBytes, name) == [] && Spells(Payload(s.strings, s.stringBytes, field), "0")
    && Spells(Payload(s.strings, s.stringBytes, ok), "Ok") && Spells(Payload(s.strings, s.stringBytes, err), "Err")
  }

  /** The bytes are these ASCII characters. */
  predicate Spells(bytes: seq<bv8>, text: string) {
    |bytes| == |text| && forall i :: 0 <= i < |bytes| ==> bytes[i] as int == text[i] as int
  }

  /** The strings that the pool interns for itself. */
  lemma FixedTexts()
    ensures Spells(OK, "Ok") && Spells(ERR, "Err") && Spells(ZERO, "0")
    ensures Spells(DERIVE, "derive") && Spells(EQ, "Eq") && Spells(REPR, "repr") && Spells(C, "C")
  {
  }

  lemma UnionIsNamed(s: State, id: TypeId, errorSet: TypeId, success: TypeId, name: StrId, ok: StrId, err: StrId,
      field: StrId)
    requires UnionBlock(s.defs, id, errorSet, success, name, ok, err, field) && UnionTexts(s, name, ok, err, field)
    ensures UnionNamed(s, id, errorSet, success)
  {
  }

  lemma TextsStay(s: State, t: State, name: StrId, ok: StrId, err: StrId, field: StrId, hashBytes: seq<bv8> -> nat,
      hashWords: seq<nat> -> nat)
    requires PoolInv(s, hashBytes, hashWords) && PoolInv(t, hashBytes, hashWords) && Later(s, t)
    requires UnionTexts(s, name, ok, err, field)
    ensures UnionTexts(t, name, ok, err, field)
  {
    hide PoolInv, Spells;
    StringsOverTime(s, t, hashBytes, hashWords);
    assert |s.strings| <= |t.strings|;
  }

  /** Unions keep their names and their variants, whatever comes later. */
  lemma UnionKeepsNames(s: State, t: State, id: TypeId, errorSet: TypeId, success: TypeId, hashBytes: seq<bv8> -> nat,
      hashWords: seq<nat> -> nat)
    requires PoolInv(s, hashBytes, hashWords) && PoolInv(t, hashBytes, hashWords) && Later(s, t)
    requires UnionNamed(s, id, errorSet, success)
    ensures UnionNamed(t, id, errorSet, success)
  {
    hide PoolInv, UnionTexts;
    var name: StrId, ok: StrId, err: StrId, field: StrId :|
      UnionBlock(s.defs, id, errorSet, success, name, ok, err, field) && UnionTexts(s, name, ok, err, field);
    TextsStay(s, t, name, ok, err, field, hashBytes, hashWords);
    assert UnionBlock(t.defs, id, errorSet, success, name, ok, err, field);
  }

  lemma UnionEntered(s: State, t: State, errorSet: TypeId, success: TypeId, id: TypeId, hashBytes: seq<bv8> -> nat,
      hashWords: seq<nat> -> nat)
    requires PoolInv(s, hashBytes, hashWords) && UnionAt(s.arena, s.defs, id, errorSet, success)
    requires (errorSet, success) !in s.names.unions
    requires t == s.(names := s.names.(unions := s.names.unions[(errorSet, success) := id]))
    ensures PoolInv(t, hashBytes, hashWords) && Later(s, t)
  {
    hide ArenaInv, StringsInv, AnonInv, SetAt, UnionAt;
  }

  ghost function Elems(key: seq<TypeId>): set<TypeId> { set m | m in key }

  /** The type that `error_set` gives for these members. */
  ghost predicate IsErrorSet(s: State, id: TypeId, members: set<TypeId>) {
    || (members == {id} && id < |s.arena.items| && s.arena.items[id].tag.DeclaredError?)
    || (exists key :: key in s.names.sets && s.names.sets[key] == id && Elems(key) == members)
  }

  lemma NoElems(key: seq<TypeId>)
    ensures Elems(key) == {} ==> key == []
  {
    assert key != [] ==> key[0] in Elems(key);
  }

  /** Increasing lists with the same members are the same. */
  lemma {:induction false} IncreasingUnique(k: seq<TypeId>, l: seq<TypeId>)
    requires Increasing(k) && Increasing(l) && Elems(k) == Elems(l)
    ensures k == l
    decreases |k|
  {
    if k == [] {
      NoElems(l);
    } else {
      assert k[0] in Elems(l) && l != [];
      assert l[0] in Elems(k);
      assert k[0] == l[0];
      forall m ensures m in Elems(k[1..]) <==> m in Elems(k) && m != k[0] {
        assert k == [k[0]] + k[1..];
      }
      forall m ensures m in Elems(l[1..]) <==> m in Elems(l) && m != l[0] {
        assert l == [l[0]] + l[1..];
      }
      IncreasingUnique(k[1..], l[1..]);
    }
  }

  lemma Spliced(key: seq<TypeId>, at: nat, member: TypeId)
    requires Increasing(key) && at <= |key| && (forall i :: 0 <= i < at ==> key[i] < member)
        && (at < |key| ==> member < key[at])
    ensures var r := key[..at] + [member] + key[at..]; Increasing(r) && Elems(r) == Elems(key) + {member}
  {
    var l, r := key[..at], key[at..];
    assert key == l + r;
    IncreasingJoin(l, [member]);
    IncreasingJoin(l + [member], r);
    assert Elems(l + [member] + r) == Elems(l) + {member} + Elems(r) == Elems(key) + {member};
  }

  lemma IncreasingJoin(l: seq<TypeId>, r: seq<TypeId>)
    requires Increasing(l) && Increasing(r)
    requires forall i, j :: 0 <= i < |l| && 0 <= j < |r| ==> l[i] < r[j]
    ensures Increasing(l + r)
  {
    forall i, j | 0 <= i < j < |l + r| ensures (l + r)[i] < (l + r)[j] {
      if j < |l| {
        assert (l + r)[i] == l[i] && (l + r)[j] == l[j];
      } else {
        assert (l + r)[j] == r[j-|l|] && (l + r)[i] == if i < |l| then l[i] else r[i-|l|];
      }
    }
  }

  lemma NoSingleton(key: seq<TypeId>, m: TypeId)
    requires Increasing(key) && Elems(key) == {m}
    ensures key == [m]
  {
    IncreasingUnique(key, [m]);
  }

  /** Error sets are canonical over time: two calls give the same type exactly for the same members. */
  lemma ErrorSetsCanonical(s: State, t: State, i: TypeId, j: TypeId, k: set<TypeId>, l: set<TypeId>,
                           hashBytes: seq<bv8> -> nat, hashWords: seq<nat> -> nat)
    requires PoolInv(s, hashBytes, hashWords) && PoolInv(t, hashBytes, hashWords) && Later(s, t)
    requires IsErrorSet(s, i, k) && IsErrorSet(t, j, l)
    ensures i == j <==> k == l
  {
    hide ArenaInv, StringsInv, AnonInv, Extends, MembersStart, Elems;
    StillErrorSet(s, t, i, k);
    ErrorSetsDiffer(t, i, j, k, l, hashBytes, hashWords);
  }

  lemma StillErrorSet(s: State, t: State, i: TypeId, k: set<TypeId>)
    requires Later(s, t) && IsErrorSet(s, i, k)
    ensures IsErrorSet(t, i, k)
  {
    hide Extends, Elems;
    if key :| key in s.names.sets && s.names.sets[key] == i && Elems(key) == k {
      assert key in t.names.sets && t.names.sets[key] == i;
    }
  }

  lemma ErrorSetsDiffer(t: State, i: TypeId, j: TypeId, k: set<TypeId>, l: set<TypeId>, hashBytes: seq<bv8> -> nat,
      hashWords: seq<nat> -> nat)
    requires PoolInv(t, hashBytes, hashWords) && IsErrorSet(t, i, k) && IsErrorSet(t, j, l)
    ensures i == j <==> k == l
  {
    hide ArenaInv, StringsInv, AnonInv, MembersStart, Elems, WellShaped;
    if key :| key in t.names.sets && t.names.sets[key] == i && Elems(key) == k {
      assert SetAt(t.arena, t.defs, i, key);
      if other :| other in t.names.sets && t.names.sets[other] == j && Elems(other) == l {
        assert SetAt(t.arena, t.defs, j, other);
        if i == j { SameSet(t.arena, t.defs, i, key, other); }
        if k == l { IncreasingUnique(key, other); }
      } else if k == l {
        NoSingleton(key, j);
      }
    } else if other :| other in t.names.sets && t.names.sets[other] == j && Elems(other) == l {
      assert SetAt(t.arena, t.defs, j, other);
      if k == l { NoSingleton(other, i); }
    }
  }

  /** A set that is known is found under its increasing list. */
  lemma KnownSets(s: State, hashBytes: seq<bv8> -> nat, hashWords: seq<nat> -> nat, key: seq<TypeId>)
    requires PoolInv(s, hashBytes, hashWords) && Increasing(key)
    ensures (exists i: TypeId :: IsErrorSet(s, i, Elems(key))) ==> |key| == 1 || key in s.names.sets
    ensures (exists i: TypeId :: IsErrorSet(s, i, Elems(key))) ==>
              forall m :: m in key ==> m < |s.arena.items| && s.arena.items[m].tag.DeclaredError?
    ensures forall m :: m in key && Elems(key) == {m} ==> |key| == 1
  {
    hide ArenaInv, StringsInv, AnonInv, MembersStart, WellShaped;
    forall m | m in key && Elems(key) == {m} ensures |key| == 1 {
      NoSingleton(key, m);
    }
    if i: TypeId :| IsErrorSet(s, i, Elems(key)) {
      if Elems(key) == {i} && i < |s.arena.items| && s.arena.items[i].tag.DeclaredError? {
        NoSingleton(key, i);
      } else {
        var other :| other in s.names.sets && s.names.sets[other] == i && Elems(other) == Elems(key);
        assert SetAt(s.arena, s.defs, i, other);
        IncreasingUnique(key, other);
      }
    }
  }

  lemma NotKnown(s: State, hashBytes: seq<bv8> -> nat, hashWords: seq<nat> -> nat, key: seq<TypeId>)
    requires PoolInv(s, hashBytes, hashWords) && Increasing(key) && |key| != 1 && key !in s.names.sets
    ensures forall i: TypeId :: !IsErrorSet(s, i, Elems(key))
  {
    hide PoolInv, IsErrorSet;
    KnownSets(s, hashBytes, hashWords, key);
  }

  lemma SetFound(s: State, key: seq<TypeId>, id: TypeId)
    requires (key in s.names.sets && s.names.sets[key] == id) ||
             (key == [id] && id < |s.arena.items| && s.arena.items[id].tag.DeclaredError?)
    ensures IsErrorSet(s, id, Elems(key))
  {
  }

  lemma SetEntered(s: State, t: State, key: seq<TypeId>, id: TypeId, hashBytes: seq<bv8> -> nat,
      hashWords: seq<nat> -> nat)
    requires PoolInv(s, hashBytes, hashWords) && SetAt(s.arena, s.defs, id, key) && key !in s.names.sets
    requires t == s.(names := s.names.(sets := s.names.sets[key := id]))
    ensures PoolInv(t, hashBytes, hashWords) && Later(s, t)
  {
    hide ArenaInv, StringsInv, AnonInv, SetAt, UnionAt;
  }

  lemma EmptySetDefined(a: Arena, defs: Defs, d: Def, a': Arena)
    requires ArenaInv(a, defs) && |a.extra| <= UNDEFINED && d.EnumDef? && d.variants == [] && d.variantShapes == []
    requires d.flags == Flags(false, false) && d.copy
    requires a'.extra == a.extra + [d.name, 0, 0, 0, Pack(d.flags, true), |a.enumFields|]
    requires a'.enumFields == a.enumFields && a'.items == a.items + [Item(Tag.ErrorSet, |a.extra|)]
    ensures |a.items| !in defs && ArenaInv(a', defs[|a.items| := d]) && Extends(a, defs, a', defs[|a.items| := d])
  {
    hide ArenaInv;
    BelowTen(a, defs);
    NoVariants();
    assert EnumHeader(d, |a.enumFields|) + VariantsWords(d.variants, d.variantShapes) == EnumHeader(d, |a.enumFields|);
    assert a.enumFields + AllPayloadFields(d.variants, d.variantShapes) == a.enumFields;
    EnumDefined(a, defs, |a.items|, d, a');
  }

  lemma ErrorDefinition(a: Arena, defs: Defs, id: TypeId)
    requires ArenaInv(a, defs) && id in defs && id < |a.items| && a.items[id].tag.DeclaredError?
    ensures defs[id].EnumDef? && |defs[id].variants| == 1 && AllKnown(defs, defs[id].variants[0].fields)
  {
    hide ArenaInv;
    BlockOf(a, defs, id);
    PayloadsBelow(a, defs, id);
  }

  /** A variant is what its view says. */
  lemma ViewRebuilds(variants: seq<VariantDef>, shapes: seq<seq<Shape>>, fields: seq<Field>)
    requires |variants| == |shapes| == 1 && Matched(variants, shapes)
    requires var view := EnumViews(variants, shapes)[0];
             |fields| == |view.fields| && forall k :: 0 <= k < |fields| ==>
                 fields[k] == Field(view.fields[k].name, view.fields[k].ty)
    ensures var view := EnumViews(variants, shapes)[0]; variants == [VariantDef(view.name, view.kind, fields)]
  {
    hide VariantOffset, PayloadOffset;
    assert fields == variants[0].fields;
  }

  /** The variants that a set of these members would have. */
  ghost function MemberDefs(defs: Defs, key: seq<TypeId>): (r: seq<VariantDef>)
    ensures |r| == |key|
  {
    seq(|key|, i requires 0 <= i < |key| =>
      if key[i] in defs && defs[key[i]].EnumDef? && defs[key[i]].variants != [] then defs[key[i]].variants[0]
          else VariantDef(0, 0, []))
  }

  /** Members whose variants cannot make one type: a repeated name, too many of something, or too large. */
  ghost predicate Unbuildable(a: Arena, defs: Defs, key: seq<TypeId>)
    requires ArenaInv(a, defs)
  {
    var vs := MemberDefs(defs, key);
    !DistinctNames(vs) || !CountsFit(vs)
        || (AllVariantsKnown(defs, vs) && EnumShape(VariantShapesOf(a, defs, vs)).size > U32_MAX)
  }

  lemma MembersAre(defs: Defs, key: seq<TypeId>, variants: seq<VariantDef>)
    requires |variants| == |key|
    requires forall i :: 0 <= i < |key| ==>
        key[i] in defs && defs[key[i]].EnumDef? && defs[key[i]].variants == [variants[i]]
    ensures variants == MemberDefs(defs, key)
  {
  }

  /** Shapes depend on the definitions only. */
  lemma SameShapes(a: Arena, a': Arena, defs: Defs, vs: seq<VariantDef>)
    requires ArenaInv(a, defs) && ArenaInv(a', defs) && AllVariantsKnown(defs, vs)
    ensures VariantShapesOf(a, defs, vs) == VariantShapesOf(a', defs, vs)
  {
    hide ArenaInv;
    forall v | 0 <= v < |vs| ensures ShapesOf(a, defs, vs[v].fields) == ShapesOf(a', defs, vs[v].fields) {
      forall i | 0 <= i < |vs[v].fields|
          ensures SizeAlign(a, defs, vs[v].fields[i].ty) == SizeAlign(a', defs, vs[v].fields[i].ty) {
      }
    }
  }

  lemma SetReady(a: Arena, defs: Defs, a': Arena, defs': Defs, id: TypeId, key: seq<TypeId>, variants: seq<VariantDef>)
    requires ArenaInv(a, defs) && ArenaInv(a', defs') && |variants| == |key| > 1 && Increasing(key)
    requires forall i :: 0 <= i < |key| ==> key[i] < |a.items| && a.items[key[i]].tag.DeclaredError? && key[i] in defs
    requires forall i :: 0 <= i < |key| ==> defs[key[i]].EnumDef? && defs[key[i]].variants == [variants[i]]
    requires TagsKept(a, a') && Extends(a, defs, a', defs')
    requires id < |a'.items| && a'.items[id].tag.ErrorSet? && id in defs' && defs'[id].EnumDef?
        && defs'[id].variants == variants && defs'[id].flags == Flags(false, false)
    ensures SetBut(a', defs', id, key)
  {
    hide ArenaInv, Increasing, WellShaped;
    BlockOf(a', defs', id);
  }

  /** The member words behind a set's directory disturb nothing and make it that set. */
  lemma MembersWritten(s: State, t: State, id: TypeId, key: seq<TypeId>, hashBytes: seq<bv8> -> nat,
      hashWords: seq<nat> -> nat)
    requires PoolInv(s, hashBytes, hashWords) && t == s.(arena := s.arena.(extra := s.arena.extra + key))
    requires SetBut(s.arena, s.defs, id, key) && |s.arena.extra| == MembersStart(s.arena, s.defs, id)
    ensures PoolInv(t, hashBytes, hashWords) && Later(s, t) && SetAt(t.arena, t.defs, id, key)
  {
    hide ArenaInv, StringsInv, NamesOk, AnonInv, VariantsWords, WellShaped, Increasing;
    WordsAppended(s, t.arena, hashBytes, hashWords);
    SliceAtEnd(s.arena.extra, key);
  }

  /** An error set whose member words are still to be written. */
  ghost predicate SetBut(a: Arena, defs: Defs, id: TypeId, key: seq<TypeId>) {
    && Increasing(key) && |key| != 1
    && id < |a.items| && a.items[id].tag.ErrorSet? && id in defs && defs[id].EnumDef? && WellShaped(defs[id])
    && defs[id].flags == Flags(false, false)
    && |defs[id].variants| == |key|
    && forall i :: 0 <= i < |key| ==>
         && key[i] < |a.items| && a.items[key[i]].tag.DeclaredError? && key[i] in defs && defs[key[i]].EnumDef?
         && defs[key[i]].variants == [defs[id].variants[i]]
  }

  lemma ArenaAppended(a: Arena, defs: Defs, a': Arena)
    requires ArenaInv(a, defs) && a'.items == a.items && a.extra <= a'.extra && a.enumFields <= a'.enumFields
    ensures ArenaInv(a', defs) && Extends(a, defs, a', defs)
  {
    hide BlockAt;
    forall id | id in defs ensures BlockAt(a', defs, a'.items[id].data, defs[id]) {
      BlockStays(a, defs, a', defs, a.items[id].data, defs[id]);
    }
  }

  /** Words and records behind everything else disturb nothing. */
  lemma WordsAppended(s: State, a': Arena, hashBytes: seq<bv8> -> nat, hashWords: seq<nat> -> nat)
    requires PoolInv(s, hashBytes, hashWords)
    requires a'.items == s.arena.items && s.arena.extra <= a'.extra && s.arena.enumFields <= a'.enumFields
    ensures PoolInv(s.(arena := a'), hashBytes, hashWords) && Later(s, s.(arena := a'))
  {
    hide ArenaInv, StringsInv, NamesOk, AnonInv;
    ArenaAppended(s.arena, s.defs, a');
    AnonInvStays(hashWords, s.arena, s.defs, a', s.defs, s.typeDedup);
    NamesStay(s.arena, s.defs, a', s.defs, s.names);
  }

  /** Where the `v`-th entry of a directory starts, and how many fields it says it has. */
  lemma DirectoryAt(a: Arena, defs: Defs, id: TypeId, v: nat)
    requires ArenaInv(a, defs) && id in defs && id < |a.items| && defs[id].EnumDef? && WellShaped(defs[id])
        && v < |defs[id].variants|
    requires var vs, shapes := defs[id].variants, defs[id].variantShapes; Matched(vs[..v], shapes[..v])
    ensures var vs, shapes := defs[id].variants, defs[id].variantShapes;
      && Matched(vs[..v+1], shapes[..v+1])
      && var at := a.items[id].data + 6 + |VariantsWords(vs[..v], shapes[..v])|;
         && at + 4 <= |a.extra| && a.extra[at + 3] == |vs[v].fields|
         && |VariantsWords(vs[..v+1], shapes[..v+1])| == |VariantsWords(vs[..v], shapes[..v])| + 4 + 2 * |vs[v].fields|
  {
    hide ArenaInv, FieldsFit, AllCopy, VariantsWords, AllPayloadFields, TaggedShape, Pack, VariantWords;
    var d, data := defs[id], a.items[id].data;
    var vs, shapes := d.variants, d.variantShapes;
    BlockOf(a, defs, id);
    var base :| EnumBlockAt(a, data, d, base);
    SliceSplit(a.extra, data, EnumHeader(d, base), VariantsWords(vs, shapes));
    DirectorySplit(vs, shapes, v);
    SliceSplit(a.extra, data + 6, VariantsWords(vs[..v], shapes[..v]) + VariantWords(vs[v], shapes[v]),
        VariantsWords(vs[v+1..], shapes[v+1..]));
    SliceSplit(a.extra, data + 6, VariantsWords(vs[..v], shapes[..v]), VariantWords(vs[v], shapes[v]));
    EntryCount(a.extra, data + 6 + |VariantsWords(vs[..v], shapes[..v])|, vs[v], shapes[v]);
    assert vs[..v+1] == vs[..v] + [vs[v]] && shapes[..v+1] == shapes[..v] + [shapes[v]];
    VariantsSnoc(vs[..v], shapes[..v], vs[v], shapes[v]);
  }

  lemma EntryCount(words: seq<nat>, at: nat, v: VariantDef, shapes: seq<Shape>)
    requires SliceAt(words, at, VariantWords(v, shapes))
    ensures at + 4 <= |words| && words[at + 3] == |v.fields|
  {
    SliceIndex(words, at, VariantWords(v, shapes), 3);
  }

  lemma {:induction false} DirectorySplit(vs: seq<VariantDef>, shapes: seq<seq<Shape>>, v: nat)
    requires |vs| == |shapes| && Matched(vs, shapes) && v < |vs|
    ensures Matched(vs[..v], shapes[..v]) && Matched(vs[v+1..], shapes[v+1..])
    ensures VariantsWords(vs, shapes)
         == VariantsWords(vs[..v], shapes[..v]) + VariantWords(vs[v], shapes[v])
             + VariantsWords(vs[v+1..], shapes[v+1..])
  {
    hide VariantWords, VariantsWords, AllPayloadFields;
    if v == |vs| - 1 {
      var init, last := vs[..v], vs[v];
      assert vs == init + [last] && shapes == shapes[..v] + [shapes[v]];
      assert vs[v+1..] == [] && shapes[v+1..] == [];
      VariantsSnoc(init, shapes[..v], last, shapes[v]);
      NoVariants();
      assert VariantsWords(vs, shapes) + [] == VariantsWords(vs, shapes);
    } else {
      MatchedFront(vs, shapes);
      var n := |vs| - 1;
      VariantsSnoc(vs[..n], shapes[..n], vs[n], shapes[n]);
      DirectorySplit(vs[..n], shapes[..n], v);
      assert vs[..n][..v] == vs[..v] && shapes[..n][..v] == shapes[..v];
      assert vs[..n][v+1..] + [vs[n]] == vs[v+1..] && shapes[..n][v+1..] + [shapes[n]] == shapes[v+1..];
      VariantsSnoc(vs[..n][v+1..], shapes[..n][v+1..], vs[n], shapes[n]);
      Assoc(VariantsWords(vs[..v], shapes[..v]) + VariantWords(vs[v], shapes[v]),
          VariantsWords(vs[..n][v+1..], shapes[..n][v+1..]), VariantWords(vs[n], shapes[n]));
    }
  }

  lemma Assoc(a: seq<nat>, b: seq<nat>, c: seq<nat>)
    ensures a + b + c == a + (b + c)
  {
  }

  lemma MatchedFront(vs: seq<VariantDef>, shapes: seq<seq<Shape>>)
    requires |vs| == |shapes| && Matched(vs, shapes) && vs != []
    ensures var n := |vs| - 1;
      && Matched(vs[..n], shapes[..n]) && |vs[n].fields| == |shapes[n]|
      && vs[..n] + [vs[n]] == vs && shapes[..n] + [shapes[n]] == shapes
  {
  }

  lemma TenOrMore(a: Arena, defs: Defs, id: TypeId)
    requires ArenaInv(a, defs) && id < |a.items| && EnumShaped(a.items[id].tag)
    ensures id >= 10 && !a.items[id].tag.AnonStruct?
  {
    BelowTen(a, defs);
  }

  lemma NoMatch()
    ensures Matched([], [])
  {
  }

  lemma NoVariants()
    ensures VariantsWords([], []) == [] && AllPayloadFields([], []) == []
  {
  }

  lemma AlignOf(s: seq<Shape>)
    ensures PayloadOffset(s) == Up(TAG_SIZE, StructShape(s).align) && MaxAlign(s) == StructShape(s).align
  {
  }

  lemma VariantShapesAt(a: Arena, defs: Defs, variants: seq<VariantDef>, v: nat)
    requires ArenaInv(a, defs) && AllVariantsKnown(defs, variants) && v < |variants|
    ensures AllKnown(defs, variants[v].fields)
    ensures VariantShapesOf(a, defs, variants)[v] == ShapesOf(a, defs, variants[v].fields)
  {
    hide ArenaInv;
  }

  /** One turn of the variant iterator, while it still has enough to decode. */
  lemma DecodeTurn(a: Arena, vcur: nat, fcur: nat, n: nat)
    requires |DecodeVariants(a, vcur, fcur, n)| == n > 0
    ensures vcur + 4 <= |a.extra| && fcur + a.extra[vcur+3] <= |a.enumFields|
    ensures var nf := a.extra[vcur+3];
            && DecodeVariants(a, vcur, fcur, n)
               == [VariantView(a.extra[vcur], a.extra[vcur+1], a.extra[vcur+2], a.enumFields[fcur..fcur+nf])]
                  + DecodeVariants(a, vcur + 4 + 2 * nf, fcur + nf, n - 1)
  {
  }

  lemma NoneLeft(a: Arena)
    ensures forall vcur: nat, fcur: nat :: DecodeVariants(a, vcur, fcur, 0) == []
  {
  }

  lemma CopyNone(defs: Defs)
    ensures AllVariantsCopy(defs, [])
  {
  }

  lemma CopyAdded(defs: Defs, variants: seq<VariantDef>, v: nat)
    requires v < |variants|
    ensures AllVariantsCopy(defs, variants[..v+1]) <==>
        AllVariantsCopy(defs, variants[..v]) && AllCopy(defs, variants[v].fields)
  {
    assert variants[..v+1] == variants[..v] + [variants[v]];
  }

  lemma OnlyTag()
    ensures PayloadEnd([]) == EnumAlign([]) == TAG_SIZE && Offsets([], [], [])
  {
  }

  lemma EnumShapeIs(shapes: seq<seq<Shape>>)
    ensures EnumShape(shapes) == Shape(Up(PayloadEnd(shapes), EnumAlign(shapes)), EnumAlign(shapes))
  {
  }

  lemma VariantAdded(shapes: seq<seq<Shape>>, v: nat)
    requires v < |shapes|
    ensures shapes[..v+1] == shapes[..v] + [shapes[v]]
    ensures PayloadEnd(shapes[..v+1]) ==
        Max(PayloadEnd(shapes[..v]), PayloadOffset(shapes[v]) + StructShape(shapes[v]).size)
    ensures EnumAlign(shapes[..v+1]) == Max(EnumAlign(shapes[..v]), MaxAlign(shapes[v]))
  {
    hide StructShape, PayloadOffset, MaxAlign;
    assert shapes[..v+1][..v] == shapes[..v];
  }

  lemma OffsetAdded(offsets: seq<nat>, fieldOffsets: seq<seq<nat>>, shapes: seq<seq<Shape>>, offset: nat,
      relative: seq<nat>, s: seq<Shape>)
    requires Offsets(offsets, fieldOffsets, shapes) && offset == PayloadOffset(s) && |relative| == |s|
    requires forall i :: 0 <= i < |s| ==> relative[i] == Offset(s, i)
    ensures Offsets(offsets + [offset], fieldOffsets + [relative], shapes + [s])
  {
  }

  /** An enum is at least as large as the end of any of its payloads. */
  lemma {:induction false} PayloadCounted(shapes: seq<seq<Shape>>, v: nat)
    requires v < |shapes|
    ensures PayloadOffset(shapes[v]) + StructShape(shapes[v]).size <= PayloadEnd(shapes) <= EnumShape(shapes).size
    decreases |shapes|
  {
    UpMonotone(PayloadEnd(shapes), EnumAlign(shapes));
    var init := shapes[..|shapes|-1];
    if v < |init| { PayloadCounted(init, v); }
  }

  lemma NoFields(defs: Defs)
    ensures End([]) == 0 && MaxAlign([]) == 1 && AllCopy(defs, [])
  {
  }

  lemma StructShapeIs(shapes: seq<Shape>)
    ensures StructShape(shapes) == Shape(Up(End(shapes), MaxAlign(shapes)), MaxAlign(shapes))
  {
  }

  lemma ShapeAt(a: Arena, defs: Defs, fields: seq<Field>, i: nat)
    requires ArenaInv(a, defs) && AllKnown(defs, fields) && i < |fields|
    ensures Known(defs, fields[i].ty) && ShapesOf(a, defs, fields)[i] == SizeAlign(a, defs, fields[i].ty)
  {
    hide ArenaInv;
  }

  lemma FieldAdded(defs: Defs, fields: seq<Field>, shapes: seq<Shape>, i: nat)
    requires i < |fields| == |shapes| && Known(defs, fields[i].ty)
    ensures Offset(shapes, i) == Up(End(shapes[..i]), shapes[i].align)
    ensures End(shapes[..i+1]) == Offset(shapes, i) + shapes[i].size
    ensures MaxAlign(shapes[..i+1]) == Max(MaxAlign(shapes[..i]), shapes[i].align)
    ensures AllCopy(defs, fields[..i+1]) <==> AllCopy(defs, fields[..i]) && CopyOf(defs, fields[i].ty)
  {
    assert shapes[..i+1][..i] == shapes[..i] && fields[..i+1] == fields[..i] + [fields[i]];
  }

  const NO_NAMES: Names := Names(map[], map[], map[], map[], map[])

  lemma EmptyPool(hashBytes: seq<bv8> -> nat, hashWords: seq<nat> -> nat)
    ensures PoolInv(State(Arena(PRIMITIVES, [], []), map[], EMPTY, [], [], EMPTY, NO_NAMES), hashBytes, hashWords)
  {
    var a := Arena(PRIMITIVES, [], []);
    forall id | 0 <= id < |PRIMITIVES| ensures !IsAnon(a, id) {
      assert id == 0 || id == 1 || id == 2 || id == 3 || id == 4 || id == 5 || id == 6 || id == 7 || id == 8 || id == 9;
    }
    assert PRIMITIVES[..10] == PRIMITIVES;
    var none: seq<Span> := [];
    EmptyTable(StrRehash(hashBytes, none, []));
    EmptyTable(AnonRehash(hashWords, a));
    assert |none| == 0 && Handles(EMPTY) == {};
    assert StringsInv(hashBytes, none, [], EMPTY);
  }

  // ---------- Where drop, copy and heap part ----------

  const FLAGS: Flags := Flags(false, false)
  const NOTHING: Arena := Arena(PRIMITIVES, [], [])

  lemma NothingIsArena()
    ensures ArenaInv(NOTHING, map[]) && ArenaInv(NOTHING.(items := PRIMITIVES + [Item(Enum, UNDEFINED)]), map[])
  {
    EmptyPool(_ => 0, _ => 0);
    DeclareKeeps(NOTHING, map[], Enum);
  }

  lemma VoidIsNothing(a: Arena, defs: Defs)
    requires ArenaInv(a, defs)
    ensures Known(defs, 0) && !NeedsDrop(a, defs, 0) && !IsCopy(a, defs, 0) && !OwnsHeap(a, defs, 0)
  {
    BlockHeader(a, defs, 0);
  }

  lemma {:induction false} FewWords(vs: seq<VariantDef>, shapes: seq<seq<Shape>>)
    requires |vs| == |shapes| && forall v :: 0 <= v < |vs| ==> |vs[v].fields| <= 1
    ensures |VariantsWords(vs, shapes)| <= 6 * |vs|
  {
    hide VariantWords;
    if |vs| > 0 {
      assert |vs| > 1 ==> vs[1..][0] == vs[1];
      FewWords(vs[1..], shapes[1..]);
    }
  }

  /** A new type with one or two variants, behind all others. */
  lemma AddTagged(a: Arena, defs: Defs, tag: Tag, vs: seq<VariantDef>) returns (a': Arena, d: Def)
    requires ArenaInv(a, defs) && |a.extra| < UNDEFINED && AllVariantsKnown(defs, vs)
    requires (tag.DeclaredError? && |vs| == 1 && |vs[0].fields| <= 1)
             || (tag.ErrorUnion? && |vs| == 2 && |vs[0].fields| == |vs[1].fields| == 1)
    ensures d.EnumDef? && d.variants == vs
    ensures ArenaInv(a', defs[|a.items| := d]) && |a'.extra| <= |a.extra| + 18
    ensures |a'.items| == |a.items| + 1 && a'.items[..|a.items|] == a.items && a'.items[|a.items|].tag == tag
  {
    hide ArenaInv;
    DeclareKeeps(a, defs, tag);
    BelowTen(a, defs);
    var before, id := a.(items := a.items + [Item(tag, UNDEFINED)]), |a.items|;
    var shapes := VariantShapesOf(before, defs, vs);
    d := EnumDef(0, vs, FLAGS, AllVariantsCopy(defs, vs), shapes);
    a' := Arena(before.items[id := Item(tag, |a.extra|)],
                a.extra + (EnumHeader(d, |a.enumFields|) + VariantsWords(vs, shapes)),
                a.enumFields + AllPayloadFields(vs, shapes));
    FewWords(vs, shapes);
    EnumDefined(before, defs, id, d, a');
  }

  /** With an error `E` of no payload at 10, `E!void` at 11. */
  ghost predicate VoidUnion(a: Arena, defs: Defs) {
    && ArenaInv(a, defs) && UnionAt(a, defs, 11, 10, 0)
    && a.items[10].tag.DeclaredError? && 10 in defs && defs[10].EnumDef? && |defs[10].variants| == 1
    && defs[10].variants[0].fields == []
  }

  lemma VoidUnionExists() returns (a: Arena, defs: Defs)
    ensures VoidUnion(a, defs) && |a.items| == 12 && |a.extra| < UNDEFINED && 12 !in defs
  {
    NothingIsArena();
    hide ArenaInv;
    var vs := [VariantDef(1, UNIT, [])];
    var d;
    a, d := AddTagged(NOTHING, map[], DeclaredError, vs);
    defs := map[10 := d];
    assert map[][10 := d] == defs;
    var us := [VariantDef(2, TUPLE, [Field(0, 0)]), VariantDef(3, TUPLE, [Field(0, 10)])];
    var a0 := a;
    a, d := AddTagged(a0, defs, Tag.ErrorUnion, us);
    defs := defs[11 := d];
    assert a.items[10] == a.items[..11][10];
  }

  /** `E!void` is neither copied nor dropped, and owns nothing. */
  lemma VoidUnionIsNothing(a: Arena, defs: Defs)
    requires VoidUnion(a, defs)
    ensures Known(defs, 11) && !NeedsDrop(a, defs, 11) && !IsCopy(a, defs, 11) && !OwnsHeap(a, defs, 11)
  {
    hide ArenaInv, NeedsDrop, IsCopy, OwnsHeap, VoidFree, Rank;
    EnumLevel(a, defs, 10);
    EnumLevel(a, defs, 11);
    VoidIsNothing(a, defs);
    assert forall f: TypeId :: !HasPart(defs[10], f);
    assert forall f: TypeId :: HasPart(defs[11], f) ==> f == 0 || f == 10;
    assert defs[11].variants[0].fields[0].ty == 0 && HasPart(defs[11], 0);
  }

  /** `E!void` for an error with no payload: a `void` met under unions only is neither copied nor dropped. */
  lemma VoidPayloadWitness() returns (a: Arena, defs: Defs)
    ensures VoidUnion(a, defs) && Known(defs, 11)
    ensures !NeedsDrop(a, defs, 11) && !IsCopy(a, defs, 11)
  {
    a, defs := VoidUnionExists();
    VoidUnionIsNothing(a, defs);
  }

  /** With a struct of one `E!void` field at 12. */
  lemma VoidStructExists() returns (a: Arena, defs: Defs)
    ensures VoidUnion(a, defs) && 12 in defs && defs[12].StructDef? && defs[12].fields == [Field(0, 11)]
  {
    var b, before := VoidUnionExists();
    hide ArenaInv;
    var fields := [Field(0, 11)];
    var d := StructDef(0, fields, FLAGS, AllCopy(before, fields), ShapesOf(b, before, fields));
    a := Arena(b.items + [Item(AnonStruct, |b.extra|)], b.extra + StructWords(d), b.enumFields);
    defs := before[12 := d];
    hide StructWords, ShapesOf, AllCopy;
    StructDefined(b, before, 12, d, a);
  }

  /** A struct whose one field is an `E!void` is dropped although nothing in it owns anything. */
  lemma VoidFieldWitness() returns (a: Arena, defs: Defs)
    ensures VoidUnion(a, defs) && 12 in defs && defs[12].StructDef? && defs[12].fields == [Field(0, 11)]
    ensures NeedsDrop(a, defs, 12) && !OwnsHeap(a, defs, 12)
  {
    a, defs := VoidStructExists();
    hide ArenaInv, NeedsDrop, IsCopy, OwnsHeap, VoidFree, Rank, VoidUnion;
    assert ArenaInv(a, defs) by { VoidUnionIsArena(a, defs); }
    VoidUnionIsNothing(a, defs);
    StructLevel(a, defs, 12);
    assert defs[12].fields[0].ty == 11 && HasPart(defs[12], 11);
    assert forall f: TypeId :: HasPart(defs[12], f) ==> f == 11;
  }

  lemma VoidUnionIsArena(a: Arena, defs: Defs)
    requires VoidUnion(a, defs)
    ensures ArenaInv(a, defs)
  {
  }

  // ---------- The pool itself ----------

  const DERIVE: seq<bv8> := [100, 101, 114, 105, 118, 101]
  const EQ: seq<bv8> := [69, 113]
  const REPR: seq<bv8> := [114, 101, 112, 114]
  const C: seq<bv8> := [67]

  datatype StructView = StructView(name: StrId, fields: seq<StructField>, size: nat, align: nat, isCopy: bool,
      flags: Flags)

  /** Out-parameter `ok` is false where the original panics. */
  class InternPool {
    var items: seq<Item>
    var extra: seq<nat>
    var enumFields: seq<StructField>
    var typeDedup: Table
    var strings: seq<Span>
    var stringBytes: seq<bv8>
    var stringDedup: Table
    var structNames: map<StrId, TypeId>
    var enumNames: map<StrId, TypeId>
    var errorNames: map<StrId, TypeId>
    var errorSets: map<seq<TypeId>, TypeId>
    var errorUnions: map<(TypeId, TypeId), TypeId>
    const hashBytes: seq<bv8> -> nat
    const hashWords: seq<nat> -> nat
    ghost var defs: Defs

    function ArenaNow(): Arena reads this { Arena(items, extra, enumFields) }

    ghost function Now(): State reads this {
      State(ArenaNow(), defs, typeDedup, strings, stringBytes, stringDedup, NamesNow())
    }

    ghost function NamesNow(): Names reads this { Names(structNames, enumNames, errorNames, errorSets, errorUnions) }

    ghost predicate Valid() reads this { PoolInv(Now(), hashBytes, hashWords) }

    /** `new`: the primitives, and the attribute words at their fixed ids. */
    constructor (hashBytes: seq<bv8> -> nat, hashWords: seq<nat> -> nat)
      ensures Valid() && items == PRIMITIVES && defs == map[] && NamesNow() == NO_NAMES
      ensures |strings| == 4 && Payload(strings, stringBytes, 0) == DERIVE && Payload(strings, stringBytes, 1) == EQ
      ensures Payload(strings, stringBytes, 2) == REPR && Payload(strings, stringBytes, 3) == C
    {
      this.hashBytes, this.hashWords := hashBytes, hashWords;
      items, extra, enumFields, typeDedup := PRIMITIVES, [], [], EMPTY;
      strings, stringBytes, stringDedup := [], [], EMPTY;
      structNames, enumNames, errorNames, errorSets, errorUnions, defs := map[], map[], map[], map[], map[], map[];
      new;
      hide ArenaInv, StringsInv, AnonInv, NamesOk, Payload;
      EmptyPool(hashBytes, hashWords);
      var ok, id := InternBytes(DERIVE);
      assert id == 0 && |DERIVE| == 6 && |EQ| == 2 && |REPR| == 4 && |C| == 1;
      ok, id := InternBytes(EQ);
      assert id == 1;
      ok, id := InternBytes(REPR);
      assert id == 2;
      ok, id := InternBytes(C);
      assert id == 3;
    }

    /** `intern_bytes`: the id of these bytes, old if they were ever interned, otherwise the next. */
    method InternBytes(s: seq<bv8>) returns (ok: bool, id: StrId)
      requires Valid()
      modifies this`strings, this`stringBytes, this`stringDedup
      ensures var isNew := forall i :: 0 <= i < old(|strings|) ==> Payload(old(strings), old(stringBytes), i) != s;
              && (isNew && (old(|stringBytes|) > U32_MAX || |s| > U32_MAX || old(|strings|) > U32_MAX) ==> !ok)
              && (!ok ==> old(|stringBytes|) > U32_MAX || (isNew && (|s| > U32_MAX || old(|strings|) > U32_MAX)))
      ensures ok ==> Valid() && Later(old(Now()), Now())
      ensures ok ==> id < |strings| && Payload(strings, stringBytes, id) == s
      ensures ok ==> forall i :: 0 <= i < old(|strings|) ==>
                Payload(strings, stringBytes, i) == Payload(old(strings), old(stringBytes), i)
      ensures ok && id < old(|strings|) ==> Now() == old(Now())
      ensures ok && id >= old(|strings|) ==>
          id == old(|strings|) && |strings| == id + 1 && stringBytes == old(stringBytes) + s
    {
      hide PoolInv, Payload, Later;
      LaterSelf(Now(), hashBytes, hashWords);
      if |stringBytes| > U32_MAX {
        // The last string ends past what a span can address: comparing with it panics.
        var compares: bool := *;
        if compares { return false, 0; }
      }
      var found := FindString(s);
      if found.Some? { return true, found.value; }
      if |stringBytes| > U32_MAX || |s| > U32_MAX || |strings| > U32_MAX { return false, 0; }
      id := AddString(s);
      return true, id;
    }

    /** The probe of `intern_bytes`. */
    method FindString(s: seq<bv8>) returns (r: Option<StrId>)
      requires Valid()
      ensures r.Some? ==> r.value < |strings| && Payload(strings, stringBytes, r.value) == s
      ensures r.None? ==> forall i :: 0 <= i < |strings| ==> Payload(strings, stringBytes, i) != s
    {
      hide ArenaInv, AnonInv, NamesOk, Hashed, Payload;
      var spans, bytes := strings, stringBytes;
      r := Find(stringDedup, hashBytes(s), (candidate: nat) =>
          Payload(spans, bytes, candidate) == s, StrRehash(hashBytes, spans, bytes));
      forall i | 0 <= i < |spans| && r.None? ensures Payload(spans, bytes, i) != s {
        assert i in Handles(stringDedup);
        assert StrRehash(hashBytes, spans, bytes)(i) == hashBytes(Payload(spans, bytes, i));
      }
    }

    /** The insertion of `intern_bytes`. */
    method AddString(s: seq<bv8>) returns (id: StrId)
      requires Valid() && |strings| <= U32_MAX && forall i :: 0 <= i < |strings| ==>
          Payload(strings, stringBytes, i) != s
      modifies this`strings, this`stringBytes, this`stringDedup
      ensures Valid() && Later(old(Now()), Now())
      ensures id == old(|strings|) && |strings| == id + 1 && stringBytes == old(stringBytes) + s
          && Payload(strings, stringBytes, id) == s
      ensures forall i :: 0 <= i < id ==> Payload(strings, stringBytes, i) == Payload(old(strings), old(stringBytes), i)
    {
      hide ArenaInv, AnonInv, NamesOk, Hashed, Payload;
      LaterSelf(Now(), hashBytes, hashWords);
      StringAdded(hashBytes, strings, stringBytes, stringDedup, s);
      id := |strings|;
      strings, stringBytes := strings + [Span(|stringBytes|, |s|)], stringBytes + s;
      stringDedup := InsertUnique(stringDedup, hashBytes(s), id, StrRehash(hashBytes, strings, stringBytes));
    }

    /** `bytes_payload`: panics for a string that ends past 32 bits, which only the last one can. */
    method BytesPayload(id: StrId) returns (ok: bool, bytes: seq<bv8>)
      requires Valid() && id < |strings|
      ensures ok <==> strings[id].offset + strings[id].len <= U32_MAX
      ensures |stringBytes| <= U32_MAX ==> ok
      ensures ok ==> bytes == Payload(strings, stringBytes, id)
    {
      hide ArenaInv, AnonInv, NamesOk, Hashed, Handles;
      var span := strings[id];
      ok, bytes := span.offset + span.len <= U32_MAX, [];
      if ok { bytes := stringBytes[span.offset..span.offset + span.len]; }
    }

    /** Written-order layout and Copy inference of one field list. */
    method LayOut(fields: seq<Field>) returns (ok: bool, offsets: seq<nat>, size: nat, align: nat, copy: bool)
      requires Valid() && AllKnown(defs, fields)
      ensures var shapes := ShapesOf(ArenaNow(), defs, fields);
              && (ok <==> StructShape(shapes).size <= U32_MAX)
              && (ok ==> |offsets| == |fields| && (forall i :: 0 <= i < |fields| ==> offsets[i] == Offset(shapes, i))
                         && Shape(size, align) == StructShape(shapes) && (copy <==> AllCopy(defs, fields)))
    {
      var a, end: nat := ArenaNow(), 0;
      ghost var shapes := ShapesOf(a, defs, fields);
      hide PoolInv, ArenaInv, ShapeOf, CopyOf, Offset, End, MaxAlign, AllCopy, AllKnown, ShapesOf, Up, Max, StructShape;
      NoFields(defs);
      offsets, align, copy := [], 1, true;
      for i := 0 to |fields|
        invariant |offsets| == i && forall j :: 0 <= j < i ==> offsets[j] == Offset(shapes, j)
        invariant end == End(shapes[..i]) <= U32_MAX && align == MaxAlign(shapes[..i])
        invariant copy <==> AllCopy(defs, fields[..i])
      {
        ShapeAt(a, defs, fields, i);
        var shape := SizeAlign(a, defs, fields[i].ty);
        FieldAdded(defs, fields, shapes, i);
        var offset := Up(end, shape.align);
        offsets := offsets + [offset];
        end := offset + shape.size;
        align := Max(align, shape.align);
        copy := copy && IsCopy(a, defs, fields[i].ty);
        if end > U32_MAX {
          EndGrows(shapes, i);
          StructShapeIs(shapes);
          UpMonotone(End(shapes), MaxAlign(shapes));
          return false, offsets, 0, align, copy;
        }
      }
      assert shapes[..|fields|] == shapes && fields[..|fields|] == fields;
      StructShapeIs(shapes);
      size := Up(end, align);
      return size <= U32_MAX, offsets, size, align, copy;
    }

    /** Appends the block of a struct to the word arena. */
    method WriteStruct(name: StrId, fields: seq<Field>, flags: Flags, copy: bool, offsets: seq<nat>, shape: Shape,
        ghost shapes: seq<Shape>)
      requires |fields| == |offsets| == |shapes| && shape == StructShape(shapes)
      requires forall i :: 0 <= i < |fields| ==> offsets[i] == Offset(shapes, i)
      modifies this`extra
      ensures extra == old(extra) + StructWords(StructDef(name, fields, flags, copy, shapes))
    {
      extra := extra + [name, |fields|, shape.size, shape.align, Pack(flags, copy)];
      ghost var header := extra;
      for i := 0 to |fields|
        invariant extra == header + FieldWords(fields, shapes, i)
      {
        extra := extra + [fields[i].name, fields[i].ty, offsets[i]];
      }
    }

    /** The anonymous struct with this ordered field list, if there is one. */
    method FindAnon(fields: seq<Field>) returns (r: Option<TypeId>)
      requires Valid()
      ensures r.Some? ==> IsAnon(ArenaNow(), r.value) && AnonDef(defs, r.value, fields)
      ensures r.None? ==> forall i :: IsAnon(ArenaNow(), i) ==> !AnonDef(defs, i, fields)
    {
      hide ArenaInv, StringsInv, NamesOk, AnonEq, AnonHash, AnonDef, PairWords, Hashed, Handles;
      var a, hash := ArenaNow(), hashWords(PairWords(fields));
      r := Find(typeDedup, hash, (candidate: nat) => AnonEq(a, candidate, fields), AnonRehash(hashWords, a));
      forall i | IsAnon(a, i)
        ensures AnonEq(a, i, fields) <==> AnonDef(defs, i, fields)
        ensures r.None? ==> !AnonDef(defs, i, fields)
      {
        assert i in Handles(typeDedup);
        AnonEqExact(a, defs, i, fields);
        AnonRehashExact(hashWords, a, defs, i);
        SameFields(defs, i, fields);
      }
    }

    /** Writes a new anonymous struct's block and item, and enters it in the table. */
    method InsertAnon(hash: nat, name: StrId, fields: seq<Field>, copy: bool, offsets: seq<nat>, shape: Shape,
        ghost shapes: seq<Shape>)
      returns (id: TypeId)
      requires Valid() && AllKnown(defs, fields) && |extra| <= UNDEFINED && hash == hashWords(PairWords(fields))
      requires shapes == ShapesOf(ArenaNow(), defs, fields) && shape == StructShape(shapes)
          && (copy <==> AllCopy(defs, fields))
      requires |offsets| == |fields| && forall i :: 0 <= i < |fields| ==> offsets[i] == Offset(shapes, i)
      requires forall i :: IsAnon(ArenaNow(), i) ==> !AnonDef(defs, i, fields)
      modifies this`items, this`extra, this`typeDedup, this`defs
      ensures Valid() && Later(old(Now()), Now())
      ensures id == old(|items|) && |items| == id + 1 && items[id].tag.AnonStruct?
      ensures defs == old(defs)[id := StructDef(name, fields, Flags(false, false), copy, shapes)]
    {
      hide ArenaInv, AnonInv, StringsInv, NamesOk, Hashed, Handles, PairWords, StructWords, StructShape;
      hide AllCopy, ShapesOf, AnonHash;
      ghost var a, d := ArenaNow(), StructDef(name, fields, Flags(false, false), copy, shapes);
      BelowTen(a, defs);
      var data := |extra|;
      WriteStruct(name, fields, Flags(false, false), copy, offsets, shape, shapes);
      id := |items|;
      items := items + [Item(Tag.AnonStruct, data)];
      StructDefined(a, defs, id, d, ArenaNow());
      AnonAdded(hashWords, a, defs, typeDedup, ArenaNow(), d);
      typeDedup := InsertUnique(typeDedup, hash, id, AnonRehash(hashWords, ArenaNow()));
      NamesStay(a, defs, ArenaNow(), defs[id := d], NamesNow());
      defs := defs[id := d];
    }

    /** `anon_struct`: the id of this ordered field list, old if it was ever interned. */
    method AnonStruct(fields: seq<Field>) returns (ok: bool, id: TypeId)
      requires Valid() && AllKnown(defs, fields)
      modifies this
      ensures var isNew := forall i :: IsAnon(old(ArenaNow()), i) ==> !AnonDef(old(defs), i, fields);
              var full := StructShape(ShapesOf(old(ArenaNow()), old(defs), fields)).size > U32_MAX || |fields| > U32_MAX
                          || old(|extra|) > U32_MAX || old(|items|) > U32_MAX
                          || ((old(|strings|) > U32_MAX || old(|stringBytes|) > U32_MAX)
                              && forall i :: 0 <= i < old(|strings|) ==>
                                   Payload(old(strings), old(stringBytes), i) != []);
              (isNew && full ==> !ok) && (!ok ==> isNew && (full || old(|stringBytes|) > U32_MAX))
      ensures ok ==> Valid() && Later(old(Now()), Now())
      ensures ok ==> IsAnon(ArenaNow(), id) && AnonDef(defs, id, fields)
      ensures ok && id < old(|items|) ==> Now() == old(Now())
      ensures ok && id >= old(|items|) ==>
                && id == old(|items|) && |items| == id + 1 && defs == old(defs)[id := defs[id]]
                && Payload(strings, stringBytes, defs[id].name) == [] && defs[id].flags == Flags(false, false)
                && defs[id].shapes == ShapesOf(old(ArenaNow()), old(defs), fields)
    {
      hide PoolInv, ArenaInv, AllCopy, ShapesOf, Payload, StructShape, PairWords, Later, AnonDef;
      ghost var s := Now();
      InRange(s, hashBytes, hashWords);
      LaterSelf(s, hashBytes, hashWords);
      var found := FindAnon(fields);
      if found.Some? { return true, found.value; }
      var hash := hashWords(PairWords(fields));
      var fits, offsets, size, align, copy := LayOut(fields);
      if !fits { return false, 0; }
      var interned, name := InternBytes([]);
      if !interned || |extra| > U32_MAX || |fields| > U32_MAX || |items| > U32_MAX { return false, 0; }
      ghost var t := Now();
      id := InsertAnon(hash, name, fields, copy, offsets, Shape(size, align), ShapesOf(ArenaNow(), defs, fields));
      LaterTransitive(s, t, Now());
      Inserted(defs, id, fields);
      return true, id;
    }

    /** `declare_struct`: one undefined item per name. */
    method DeclareStruct(name: StrId) returns (ok: bool, id: TypeId)
      requires Valid()
      modifies this`items, this`structNames
      ensures ok <==> name in old(structNames) || old(|items|) <= U32_MAX
      ensures ok ==> Valid() && Later(old(Now()), Now()) && name in structNames && structNames[name] == id
      ensures ok && name in old(structNames) ==> Now() == old(Now())
      ensures ok && name !in old(structNames) ==>
                id == old(|items|) && items == old(items) + [Item(Struct, UNDEFINED)]
                    && structNames == old(structNames)[name := id]
    {
      hide ArenaInv, StringsInv, AnonInv, NamesInv, SetAt, UnionAt, Later, Grown;
      BelowTen(ArenaNow(), defs);
      LaterSelf(Now(), hashBytes, hashWords);
      if name in structNames { return true, structNames[name]; }
      if |items| > U32_MAX { return false, 0; }
      ghost var s := Now();
      id := PushItem(Tag.Struct);
      ghost var t := Now();
      NameEntered(s.arena, t.arena, structNames, Tag.Struct, name, id);
      structNames := structNames[name := id];
      GrownSelf(structNames);
      GrownSelf(enumNames);
      GrownSelf(errorNames);
      GrownSelf(errorSets);
      GrownSelf(errorUnions);
      Renamed(t, Now(), hashBytes, hashWords);
      LaterTransitive(s, t, Now());
      return true, id;
    }

    /** `declare_enum`. */
    method DeclareEnum(name: StrId) returns (ok: bool, id: TypeId)
      requires Valid()
      modifies this`items, this`enumNames
      ensures ok <==> name in old(enumNames) || old(|items|) <= U32_MAX
      ensures ok ==> Valid() && Later(old(Now()), Now()) && name in enumNames && enumNames[name] == id
      ensures ok && name in old(enumNames) ==> Now() == old(Now())
      ensures ok && name !in old(enumNames) ==>
                id == old(|items|) && items == old(items) + [Item(Enum, UNDEFINED)]
                    && enumNames == old(enumNames)[name := id]
    {
      hide ArenaInv, StringsInv, AnonInv, NamesInv, SetAt, UnionAt, Later, Grown;
      BelowTen(ArenaNow(), defs);
      LaterSelf(Now(), hashBytes, hashWords);
      if name in enumNames { return true, enumNames[name]; }
      if |items| > U32_MAX { return false, 0; }
      ghost var s := Now();
      id := PushItem(Tag.Enum);
      ghost var t := Now();
      NameEntered(s.arena, t.arena, enumNames, Tag.Enum, name, id);
      enumNames := enumNames[name := id];
      GrownSelf(structNames);
      GrownSelf(enumNames);
      GrownSelf(errorNames);
      GrownSelf(errorSets);
      GrownSelf(errorUnions);
      Renamed(t, Now(), hashBytes, hashWords);
      LaterTransitive(s, t, Now());
      return true, id;
    }

    /** `define_struct`: fills a declared struct once every field type is laid out. */
    method DefineStruct(id: TypeId, name: StrId, fields: seq<Field>, flags: Flags) returns (ok: bool)
      requires Valid() && id < |items| && items[id].tag.Struct? && id !in defs && AllKnown(defs, fields)
      modifies this`items, this`extra, this`defs
      ensures ok <==> StructShape(ShapesOf(old(ArenaNow()), old(defs), fields)).size <= U32_MAX && |fields| <= U32_MAX
                      && old(|extra|) <= U32_MAX
      ensures ok ==> Valid() && Later(old(Now()), Now())
      ensures ok && old(|extra|) < UNDEFINED ==>
                var shapes := ShapesOf(old(ArenaNow()), old(defs), fields);
                defs == old(defs)[id := StructDef(name, fields, flags, AllCopy(old(defs), fields), shapes)]
      ensures ok && old(|extra|) == UNDEFINED ==> defs == old(defs) && items == old(items)
    {
      hide ArenaInv, StringsInv, AnonInv, NamesOk, StructWords, StructShape, AllCopy, AllKnown, ShapesOf;
      ghost var a := ArenaNow();
      var fits, offsets, size, align, copy := LayOut(fields);
      if !fits || |extra| > U32_MAX || |fields| > U32_MAX { return false; }
      ghost var shapes := ShapesOf(a, defs, fields);
      ghost var d := StructDef(name, fields, flags, copy, shapes);
      var data := |extra|;
      WriteStruct(name, fields, flags, copy, offsets, Shape(size, align), shapes);
      items := items[id := Item(Struct, data)];
      BelowTen(a, defs);
      if data == UNDEFINED {
        UndefinedItem(a, defs, id);
        WordsAppended(Now().(arena := a), ArenaNow(), hashBytes, hashWords);
        return true;
      }
      StructDefined(a, defs, id, d, ArenaNow());
      AnonInvStays(hashWords, a, defs, ArenaNow(), defs[id := d], typeDedup);
      NamesStay(a, defs, ArenaNow(), defs[id := d], NamesNow());
      defs := defs[id := d];
      return true;
    }

    /** `struct_view`: reads a block back word by word. */
    method ReadStruct(id: TypeId) returns (v: StructView)
      requires Valid() && id in defs && defs[id].StructDef?
      ensures WellShaped(defs[id])
      ensures var d := defs[id]; var shape := StructShape(d.shapes);
              v == StructView(d.name, StructFields(d), shape.size, shape.align, d.copy, d.flags)
    {
      hide ArenaInv, StringsInv, AnonInv, NamesOk, ShapeOfDef, StructFields;
      ghost var a := ArenaNow();
      ReadsBack(a, defs, id);
      var start := items[id].data;
      var n := extra[start + 1];
      var fields := [];
      for i := 0 to n
        invariant |fields| == i && fields == StructFields(defs[id])[..i]
      {
        var base := start + 5 + 3 * i;
        fields := fields + [StructField(extra[base], extra[base+1], extra[base+2], i)];
      }
      var (copy, flags) := Unpack(extra[start + 4]);
      return StructView(extra[start], fields, extra[start + 2], extra[start + 3], copy, flags);
    }

    /** Panics in the original when a variant name repeats. */
    method Distinct(variants: seq<VariantDef>) returns (ok: bool)
      ensures ok <==> DistinctNames(variants)
    {
      var seen := {};
      for v := 0 to |variants|
        invariant seen == set u | 0 <= u < v :: variants[u].name
        invariant DistinctNames(variants[..v])
      {
        if variants[v].name in seen { return false; }
        seen := seen + {variants[v].name};
      }
      assert variants[..|variants|] == variants;
      return true;
    }

    /** One payload: struct rules, placed behind the tag. */
    method LayOutPayload(fields: seq<Field>)
        returns (ok: bool, offset: nat, relative: seq<nat>, end: nat, align: nat, copy: bool)
      requires Valid() && AllKnown(defs, fields)
      ensures var s := ShapesOf(ArenaNow(), defs, fields);
              && (ok <==> PayloadOffset(s) + StructShape(s).size <= U32_MAX)
              && (ok ==> |relative| == |fields| && (forall i :: 0 <= i < |fields| ==> relative[i] == Offset(s, i))
                         && offset == PayloadOffset(s) && end == offset + StructShape(s).size && align == MaxAlign(s)
                         && (copy <==> AllCopy(defs, fields)))
    {
      var fits, size;
      fits, relative, size, align, copy := LayOut(fields);
      AlignOf(ShapesOf(ArenaNow(), defs, fields));
      offset := Up(TAG_SIZE, align);
      end := offset + size;
      ok := fits && end <= U32_MAX;
    }

    /** Every payload's layout, and the size and alignment of the whole enum. */
    method LayOutVariants(variants: seq<VariantDef>)
      returns (ok: bool, offsets: seq<nat>, fieldOffsets: seq<seq<nat>>, size: nat, align: nat, copy: bool)
      requires Valid() && AllVariantsKnown(defs, variants)
      ensures var shapes := VariantShapesOf(ArenaNow(), defs, variants);
              && (ok <==> EnumShape(shapes).size <= U32_MAX)
              && (ok ==> Offsets(offsets, fieldOffsets, shapes) && Shape(size, align) == EnumShape(shapes)
                         && (copy <==> AllVariantsCopy(defs, variants)))
    {
      var a, end := ArenaNow(), TAG_SIZE;
      ghost var shapes := VariantShapesOf(a, defs, variants);
      hide PoolInv, ArenaInv, StructShape, PayloadOffset, AllCopy, AllKnown, Offset, ShapesOf, PayloadEnd, EnumAlign,
          Offsets, EnumShape,
           Max, MaxAlign, Up, Matched, VariantShapesOf, AllVariantsKnown, AllVariantsCopy;
      OnlyTag();
      CopyNone(defs);
      offsets, fieldOffsets, align, copy := [], [], TAG_SIZE, true;
      for v := 0 to |variants|
        invariant Offsets(offsets, fieldOffsets, shapes[..v])
        invariant end == PayloadEnd(shapes[..v]) <= U32_MAX && align == EnumAlign(shapes[..v])
        invariant copy <==> AllVariantsCopy(defs, variants[..v])
      {
        VariantShapesAt(a, defs, variants, v);
        var fits, offset, relative, payloadEnd, payloadAlign, payloadCopy := LayOutPayload(variants[v].fields);
        ghost var s := shapes[v];
        PayloadCounted(shapes, v);
        if !fits { return false, offsets, fieldOffsets, 0, align, copy; }
        VariantAdded(shapes, v);
        CopyAdded(defs, variants, v);
        end := Max(end, payloadEnd);
        align := Max(align, payloadAlign);
        copy := copy && payloadCopy;
        OffsetAdded(offsets, fieldOffsets, shapes[..v], offset, relative, s);
        offsets, fieldOffsets := offsets + [offset], fieldOffsets + [relative];
      }
      assert shapes[..|variants|] == shapes && variants[..|variants|] == variants;
      EnumShapeIs(shapes);
      size := Up(end, align);
      return size <= U32_MAX, offsets, fieldOffsets, size, align, copy;
    }

    /** `define_enum_layout`: fills a declared type with variants. */
    method DefineVariants(id: TypeId, name: StrId, variants: seq<VariantDef>, flags: Flags) returns (ok: bool)
      requires Valid() && id < |items| && EnumShaped(items[id].tag) && AllVariantsKnown(defs, variants)
      requires items[id].tag.DeclaredError? ==> |variants| == 1
      requires items[id].tag.ErrorSet? ==> id !in defs
      requires items[id].tag.ErrorUnion? ==> |variants| == 2 && |variants[0].fields| == 1 && |variants[1].fields| == 1
      modifies this`items, this`extra, this`enumFields, this`defs
      ensures ok <==> id !in old(defs) && variants != [] && DistinctNames(variants)
                      && EnumShape(VariantShapesOf(old(ArenaNow()), old(defs), variants)).size <= U32_MAX
                      && old(|extra|) <= U32_MAX && old(|enumFields|) <= U32_MAX && CountsFit(variants)
      ensures ok ==> Valid() && Later(old(Now()), Now()) && |items| == old(|items|)
      ensures ok && old(|extra|) == UNDEFINED ==> defs == old(defs) && items == old(items)
      ensures ok && old(|extra|) < UNDEFINED ==>
                     var shapes := VariantShapesOf(old(ArenaNow()), old(defs), variants);
                     defs == old(defs)[id := EnumDef(name, variants, flags, AllVariantsCopy(old(defs), variants),
                         shapes)]
      ensures ok ==> items[id] == Item(old(items[id].tag), old(|extra|))
                     && |extra| == old(|extra|) + 6
                          + |VariantsWords(variants, VariantShapesOf(old(ArenaNow()), old(defs), variants))|
    {
      hide ArenaInv, StringsInv, AnonInv, NamesOk, EnumHeader, VariantsWords, AllPayloadFields, EnumShape,
          AllVariantsKnown,
           AllVariantsCopy, VariantShapesOf, DistinctNames, Offsets, EnumShaped;
      ghost var a := ArenaNow();
      TenOrMore(a, defs, id);
      UndefinedItem(a, defs, id);
      if items[id].data != UNDEFINED || variants == [] { return false; }
      var distinct := Distinct(variants);
      if !distinct { return false; }
      var fits, offsets, fieldOffsets, size, align, copy := LayOutVariants(variants);
      if !fits || |extra| > U32_MAX || |enumFields| > U32_MAX || !CountsFit(variants) { return false; }
      ghost var shapes := VariantShapesOf(a, defs, variants);
      ghost var d := EnumDef(name, variants, flags, copy, shapes);
      var data, base := |extra|, |enumFields|;
      WriteEnum(name, variants, flags, copy, offsets, fieldOffsets, Shape(size, align), shapes);
      items := items[id := Item(items[id].tag, data)];
      if data == UNDEFINED {
        WordsAppended(Now().(arena := a), ArenaNow(), hashBytes, hashWords);
        return true;
      }
      EnumDefined(a, defs, id, d, ArenaNow());
      AnonInvStays(hashWords, a, defs, ArenaNow(), defs[id := d], typeDedup);
      NamesStay(a, defs, ArenaNow(), defs[id := d], NamesNow());
      defs := defs[id := d];
      return true;
    }

    /** `define_enum`. */
    method DefineEnum(id: TypeId, name: StrId, variants: seq<VariantDef>, flags: Flags) returns (ok: bool)
      requires Valid() && id < |items| && items[id].tag.Enum? && AllVariantsKnown(defs, variants)
      modifies this`items, this`extra, this`enumFields, this`defs
      ensures ok <==> id !in old(defs) && variants != [] && DistinctNames(variants)
                      && EnumShape(VariantShapesOf(old(ArenaNow()), old(defs), variants)).size <= U32_MAX
                      && old(|extra|) <= U32_MAX && old(|enumFields|) <= U32_MAX && CountsFit(variants)
      ensures ok ==> Valid() && Later(old(Now()), Now())
      ensures ok && old(|extra|) == UNDEFINED ==> defs == old(defs) && items == old(items)
      ensures ok && old(|extra|) < UNDEFINED ==>
                     var shapes := VariantShapesOf(old(ArenaNow()), old(defs), variants);
                     defs == old(defs)[id := EnumDef(name, variants, flags, AllVariantsCopy(old(defs), variants),
                         shapes)]
    {
      hide PoolInv, AllVariantsKnown, VariantShapesOf, DistinctNames, EnumShape, AllVariantsCopy, Later;
      ok := DefineVariants(id, name, variants, flags);
    }

    /** Header, then a directory entry and payload records per variant. */
    method WriteEnum(name: StrId, variants: seq<VariantDef>, flags: Flags, copy: bool, offsets: seq<nat>,
        fieldOffsets: seq<seq<nat>>,
                     shape: Shape, ghost shapes: seq<seq<Shape>>)
      requires |variants| == |shapes| && Matched(variants, shapes) && variants != [] && shape == EnumShape(shapes)
      requires Offsets(offsets, fieldOffsets, shapes)
      modifies this`extra, this`enumFields
      ensures var d := EnumDef(name, variants, flags, copy, shapes);
              && extra == old(extra) + (EnumHeader(d, old(|enumFields|)) + VariantsWords(variants, shapes))
              && enumFields == old(enumFields) + AllPayloadFields(variants, shapes)
    {
      hide EnumShape, VariantsWords, AllPayloadFields, Offset, PayloadOffset;
      NoVariants();
      var base := |enumFields|;
      extra := extra + [name, |variants|, shape.size, shape.align, Pack(flags, copy), base];
      ghost var words, records := extra, enumFields;
      for v := 0 to |variants|
        invariant Matched(variants[..v], shapes[..v])
        invariant extra == words + VariantsWords(variants[..v], shapes[..v])
        invariant enumFields == records + AllPayloadFields(variants[..v], shapes[..v])
      {
        WriteVariant(variants[v], offsets[v], fieldOffsets[v], shapes[v]);
        VariantsSnoc(variants[..v], shapes[..v], variants[v], shapes[v]);
        assert variants[..v+1] == variants[..v] + [variants[v]] && shapes[..v+1] == shapes[..v] + [shapes[v]];
      }
      assert variants[..|variants|] == variants && shapes[..|variants|] == shapes;
    }

    method WriteVariant(variant: VariantDef, offset: nat, relative: seq<nat>, ghost shapes: seq<Shape>)
      requires |variant.fields| == |relative| == |shapes| && offset == PayloadOffset(shapes)
      requires forall i :: 0 <= i < |shapes| ==> relative[i] == Offset(shapes, i)
      modifies this`extra, this`enumFields
      ensures extra == old(extra) + VariantWords(variant, shapes)
      ensures enumFields == old(enumFields) + PayloadFields(variant, shapes)
    {
      hide Offset, PayloadOffset;
      var fields := variant.fields;
      extra := extra + [variant.name, variant.kind, offset, |fields|];
      ghost var words, records := extra, enumFields;
      for i := 0 to |fields|
        invariant extra == words + PairWords(fields[..i])
        invariant enumFields == records + PayloadFields(variant, shapes)[..i]
      {
        PairWordsSnoc(fields[..i], fields[i]);
        assert fields[..i+1] == fields[..i] + [fields[i]];
        extra := extra + [fields[i].name, fields[i].ty];
        enumFields := enumFields + [StructField(fields[i].name, fields[i].ty, offset + relative[i], i)];
      }
      assert fields[..|fields|] == fields;
    }

    /** `EnumView::variants`: the directory walked with two cursors. */
    method EnumVariants(id: TypeId) returns (views: seq<VariantView>)
      requires Valid() && id in defs && defs[id].EnumDef?
      ensures WellShaped(defs[id]) && views == EnumViews(defs[id].variants, defs[id].variantShapes)
    {
      hide ArenaInv, StringsInv, AnonInv, NamesOk, EnumViews, DecodeVariants, ShapeOfDef, Unpack;
      NoneLeft(ArenaNow());
      ghost var a := ArenaNow();
      BelowTen(a, defs);
      EnumBlockRead(a, defs, id);
      BlockHeader(a, defs, id);
      var start := items[id].data;
      var n := extra[start + 1];
      var vcur: nat, fcur: nat := start + 6, extra[start + 5];
      ghost var whole := DecodeVariants(a, vcur, fcur, n);
      views := [];
      for k := 0 to n
        invariant whole == views + DecodeVariants(a, vcur, fcur, n - k)
        invariant |views| == k && |whole| == n
      {
        DecodeTurn(a, vcur, fcur, n - k);
        var count := extra[vcur + 3];
        views := views + [VariantView(extra[vcur], extra[vcur + 1], extra[vcur + 2], enumFields[fcur..fcur + count])];
        vcur, fcur := vcur + 4 + 2 * count, fcur + count;
      }
    }

    // ---------- Errors, error sets and error unions ----------

    /** `declare_error`. */
    method DeclareError(name: StrId) returns (ok: bool, id: TypeId)
      requires Valid()
      modifies this`items, this`errorNames
      ensures ok <==> name in old(errorNames) || old(|items|) <= U32_MAX
      ensures ok ==> Valid() && Later(old(Now()), Now()) && name in errorNames && errorNames[name] == id
      ensures ok && name in old(errorNames) ==> Now() == old(Now())
      ensures ok && name !in old(errorNames) ==>
                id == old(|items|) && items == old(items) + [Item(DeclaredError, UNDEFINED)]
                    && errorNames == old(errorNames)[name := id]
    {
      hide ArenaInv, StringsInv, AnonInv, NamesInv, SetAt, UnionAt, Later, Grown;
      BelowTen(ArenaNow(), defs);
      LaterSelf(Now(), hashBytes, hashWords);
      if name in errorNames { return true, errorNames[name]; }
      if |items| > U32_MAX { return false, 0; }
      ghost var s := Now();
      id := PushItem(Tag.DeclaredError);
      ghost var t := Now();
      NameEntered(s.arena, t.arena, errorNames, Tag.DeclaredError, name, id);
      errorNames := errorNames[name := id];
      GrownSelf(structNames);
      GrownSelf(enumNames);
      GrownSelf(errorNames);
      GrownSelf(errorSets);
      GrownSelf(errorUnions);
      Renamed(t, Now(), hashBytes, hashWords);
      LaterTransitive(s, t, Now());
      return true, id;
    }

    /** `push_error_item` for a type that is defined later. */
    method PushItem(tag: Tag) returns (id: TypeId)
      requires Valid() && (tag.Struct? || EnumShaped(tag))
      modifies this`items
      ensures Valid() && Later(old(Now()), Now())
      ensures id == old(|items|) && items == old(items) + [Item(tag, UNDEFINED)] && id !in defs
    {
      BelowTen(ArenaNow(), defs);
      ghost var a := ArenaNow();
      id := |items|;
      items := items + [Item(tag, UNDEFINED)];
      Declared(a, defs, tag, typeDedup, hashWords);
      NamesStay(a, defs, ArenaNow(), defs, NamesNow());
    }

    /** `define_error`: an error is laid out as a type with one variant, itself. */
    method DefineError(id: TypeId, payload: VariantDef) returns (ok: bool)
      requires Valid() && id < |items| && items[id].tag.DeclaredError? && AllKnown(defs, payload.fields)
      modifies this`items, this`extra, this`enumFields, this`defs
      ensures ok <==> id !in old(defs)
                      && EnumShape([ShapesOf(old(ArenaNow()), old(defs), payload.fields)]).size <= U32_MAX
                      && old(|extra|) <= U32_MAX && old(|enumFields|) <= U32_MAX && |payload.fields| <= U32_MAX
      ensures ok ==> Valid() && Later(old(Now()), Now())
      ensures ok && old(|extra|) == UNDEFINED ==> defs == old(defs) && items == old(items)
      ensures ok && old(|extra|) < UNDEFINED ==>
                     defs == old(defs)[id := EnumDef(payload.name, [payload], Flags(false, false),
                         AllCopy(old(defs), payload.fields),
                                                     [ShapesOf(old(ArenaNow()), old(defs), payload.fields)])]
    {
      hide ArenaInv, StringsInv, AnonInv, NamesOk, EnumShape, AllCopy, AllKnown, ShapesOf, Later;
      OneVariant(ArenaNow(), defs, payload);
      ok := DefineVariants(id, payload.name, [payload], Flags(false, false));
    }

    /** The strings a union's block needs. */
    method UnionNames() returns (ok: bool, name: StrId, okName: StrId, errName: StrId, field: StrId)
      requires Valid()
      modifies this`strings, this`stringBytes, this`stringDedup
      ensures !ok ==> old(|strings|) + 3 > U32_MAX || old(|stringBytes|) + 6 > U32_MAX
      ensures ok ==> Valid() && Later(old(Now()), Now())
      ensures ok ==> okName != errName
                     && Payload(strings, stringBytes, okName) == OK && Payload(strings, stringBytes, errName) == ERR
                     && Payload(strings, stringBytes, name) == [] && Payload(strings, stringBytes, field) == ZERO
      ensures ok ==> UnionTexts(Now(), name, okName, errName, field)
    {
      hide PoolInv, Payload, Later, Spells;
      FixedTexts();
      name, okName, errName, field := 0, 0, 0, 0;
      ghost var s := Now();
      assert |OK| == 2 && |ERR| == 3 && |ZERO| == 1;
      ok, name := InternBytes([]);
      if !ok { return; }
      ghost var t := Now();
      ok, okName := InternBytes(OK);
      if !ok { return; }
      LaterTransitive(s, t, Now());
      t := Now();
      ok, errName := InternBytes(ERR);
      if !ok { return; }
      LaterTransitive(s, t, Now());
      t := Now();
      ok, field := InternBytes(ZERO);
      if !ok { return; }
      LaterTransitive(s, t, Now());
    }

    /** `error_union`: one union per error set and success type, laid out as `Ok` and `Err`. */
    method ErrorUnion(errorSet: TypeId, success: TypeId) returns (ok: bool, id: TypeId)
      requires Valid() && errorSet < |items| && Known(defs, success)
      requires items[errorSet].tag.DeclaredError? || items[errorSet].tag.ErrorSet? ==> errorSet in defs
      modifies this
      ensures ok ==> old(items[errorSet].tag.DeclaredError? || items[errorSet].tag.ErrorSet?)
      ensures ok ==> Valid() && Later(old(Now()), Now())
      ensures ok ==> (errorSet, success) in errorUnions && errorUnions[(errorSet, success)] == id
      ensures ok ==> UnionAt(ArenaNow(), defs, id, errorSet, success)
      ensures ok && (errorSet, success) !in old(errorUnions) ==> UnionNamed(Now(), id, errorSet, success)
      ensures (errorSet, success) in old(errorUnions) ==>
                Now() == old(Now()) && (ok <==>
                    old(items[errorSet].tag.DeclaredError? || items[errorSet].tag.ErrorSet?))
      ensures !ok ==> var tag := old(items[errorSet].tag);
                      || !(tag.DeclaredError? || tag.ErrorSet?)
                      || old(|strings|) + 3 > U32_MAX || old(|stringBytes|) + 6 > U32_MAX
                      || old(|items|) > U32_MAX || old(|extra|) >= UNDEFINED || old(|enumFields|) > U32_MAX
                      || EnumShape(UnionShapes(old(ArenaNow()), old(defs), errorSet, success)).size > U32_MAX
    {
      hide ArenaInv, StringsInv, AnonInv, NamesOk, Later, Payload, UnionAt, UnionShapes, EnumShape, Known;
      ghost var s := Now();
      LaterSelf(s, hashBytes, hashWords);
      var tag := items[errorSet].tag;
      if !tag.DeclaredError? && !tag.ErrorSet? { return false, 0; }
      if (errorSet, success) in errorUnions {
        id := errorUnions[(errorSet, success)];
        UnionThere(ArenaNow(), defs, NamesNow(), errorSet, success);
        return true, id;
      }
      ok, id := NewUnion(errorSet, success);
    }

    /** A union that was not there: its strings, then its item, variants and entry. */
    method NewUnion(errorSet: TypeId, success: TypeId) returns (ok: bool, id: TypeId)
      requires Valid() && errorSet < |items| && Known(defs, success)
      requires items[errorSet].tag.DeclaredError? || items[errorSet].tag.ErrorSet?
      requires errorSet in defs && (errorSet, success) !in errorUnions
      modifies this
      ensures ok ==> Valid() && Later(old(Now()), Now())
      ensures ok ==> (errorSet, success) in errorUnions && errorUnions[(errorSet, success)] == id
      ensures ok ==> UnionAt(ArenaNow(), defs, id, errorSet, success) && UnionNamed(Now(), id, errorSet, success)
      ensures !ok ==> || old(|strings|) + 3 > U32_MAX || old(|stringBytes|) + 6 > U32_MAX
                      || old(|items|) > U32_MAX || old(|extra|) >= UNDEFINED || old(|enumFields|) > U32_MAX
                      || EnumShape(UnionShapes(old(ArenaNow()), old(defs), errorSet, success)).size > U32_MAX
    {
      hide ArenaInv, StringsInv, AnonInv, NamesOk, NamesInv, Later, Payload, UnionAt, UnionShapes, EnumShape, Known;
      hide UnionBlock, UnionTexts, UnionNamed, PoolInv;
      ghost var s := Now();
      var name, okName, errName, field;
      ok, name, okName, errName, field := UnionNames();
      if !ok || |items| > U32_MAX || |extra| >= UNDEFINED { return false, 0; }
      ghost var t := Now();
      assert t.arena == s.arena && t.defs == s.defs;
      ok, id := MakeUnion(errorSet, success, name, okName, errName, field);
      if ok {
        LaterTransitive(s, t, Now());
        TextsStay(t, Now(), name, okName, errName, field, hashBytes, hashWords);
        UnionIsNamed(Now(), id, errorSet, success, name, okName, errName, field);
      }
    }

    /** The item, the two variants and the entry of a new union. */
    method MakeUnion(errorSet: TypeId, success: TypeId, name: StrId, okName: StrId, errName: StrId, field: StrId)
      returns (ok: bool, id: TypeId)
      requires Valid() && errorSet < |items| <= U32_MAX && Known(defs, success) && |extra| < UNDEFINED
      requires items[errorSet].tag.DeclaredError? || items[errorSet].tag.ErrorSet?
      requires errorSet in defs && (errorSet, success) !in errorUnions
      requires okName != errName && Payload(strings, stringBytes, okName) == OK
          && Payload(strings, stringBytes, errName) == ERR
      requires Payload(strings, stringBytes, name) == [] && Payload(strings, stringBytes, field) == ZERO
      modifies this
      ensures ok ==> Valid() && Later(old(Now()), Now())
      ensures ok ==> (errorSet, success) in errorUnions && errorUnions[(errorSet, success)] == id
      ensures ok ==> UnionAt(ArenaNow(), defs, id, errorSet, success)
      ensures ok ==> UnionBlock(defs, id, errorSet, success, name, okName, errName, field)
      ensures !ok ==> old(|enumFields|) > U32_MAX
                      || EnumShape(UnionShapes(old(ArenaNow()), old(defs), errorSet, success)).size > U32_MAX
    {
      hide ArenaInv, StringsInv, AnonInv, NamesOk, Later, Payload, UnionAt, UnionShapes, EnumShape, VariantShapesOf;
      hide AllVariantsKnown, DistinctNames;
      ghost var s := Now();
      var variants := [VariantDef(okName, TUPLE, [Field(field, success)]),
          VariantDef(errName, TUPLE, [Field(field, errorSet)])];
      id := PushItem(Tag.ErrorUnion);
      ghost var t := Now();
      UnionVariants(s.arena, ArenaNow(), defs, errorSet, success, variants);
      ok := DefineVariants(id, name, variants, Flags(false, false));
      if !ok { return; }
      LaterTransitive(s, t, Now());
      t := Now();
      UnionMade(ArenaNow(), defs, id, errorSet, success);
      errorUnions := errorUnions[(errorSet, success) := id];
      UnionEntered(t, Now(), errorSet, success, id, hashBytes, hashWords);
      LaterTransitive(s, t, Now());
    }

    /** Sorted by id, without repeats. */
    method Canonical(members: seq<TypeId>) returns (key: seq<TypeId>)
      ensures Increasing(key) && Elems(key) == Elems(members)
    {
      key := [];
      for i := 0 to |members|
        invariant Increasing(key) && Elems(key) == Elems(members[..i])
      {
        key := InsertMember(key, members[i]);
        assert members[..i+1] == members[..i] + [members[i]];
      }
      assert members[..|members|] == members;
    }

    method InsertMember(key: seq<TypeId>, member: TypeId) returns (r: seq<TypeId>)
      requires Increasing(key)
      ensures Increasing(r) && Elems(r) == Elems(key) + {member}
    {
      var at := 0;
      while at < |key| && key[at] < member
        invariant at <= |key| && forall i :: 0 <= i < at ==> key[i] < member
      {
        at := at + 1;
      }
      if at < |key| && key[at] == member {
        r := key;
        assert member in Elems(key);
      } else {
        Spliced(key, at, member);
        r := key[..at] + [member] + key[at..];
      }
    }

    /** The variant of each member, read back from its block. */
    method MemberVariants(key: seq<TypeId>) returns (variants: seq<VariantDef>)
      requires Valid() && forall i :: 0 <= i < |key| ==>
          key[i] < |items| && items[key[i]].tag.DeclaredError? && key[i] in defs
      ensures |variants| == |key| && AllVariantsKnown(defs, variants)
      ensures forall i :: 0 <= i < |key| ==> defs[key[i]].EnumDef? && defs[key[i]].variants == [variants[i]]
    {
      hide ArenaInv, StringsInv, AnonInv, NamesOk, AllKnown;
      variants := [];
      for i := 0 to |key|
        invariant |variants| == i && AllVariantsKnown(defs, variants)
        invariant forall j :: 0 <= j < i ==> defs[key[j]].EnumDef? && defs[key[j]].variants == [variants[j]]
      {
        ErrorDefinition(ArenaNow(), defs, key[i]);
        var views := EnumVariants(key[i]);
        var view := views[0];
        var fields := seq(|view.fields|, k requires 0 <= k < |view.fields| =>
            Field(view.fields[k].name, view.fields[k].ty));
        ViewRebuilds(defs[key[i]].variants, defs[key[i]].variantShapes, fields);
        variants := variants + [VariantDef(view.name, view.kind, fields)];
      }
    }

    /** `error_set`: the single member, or the one set of these members, whatever their order and repeats. */
    method ErrorSet(members: seq<TypeId>) returns (ok: bool, id: TypeId)
      requires Valid() && forall m :: m in members ==> m < |items| && (items[m].tag.DeclaredError? ==> m in defs)
      modifies this
      ensures ok ==> forall m :: m in members ==> old(items)[m].tag.DeclaredError?
      ensures ok ==> Valid() && Later(old(Now()), Now()) && IsErrorSet(Now(), id, Elems(members))
      ensures (exists m: TypeId :: m in members && old(items)[m].tag.DeclaredError? && Elems(members) == {m}) ==>
          ok && Now() == old(Now())
      ensures (exists i: TypeId :: IsErrorSet(old(Now()), i, Elems(members))) ==> ok && Now() == old(Now())
      ensures !ok ==> (exists m: TypeId :: m in members && !old(items)[m].tag.DeclaredError?)
                      || old(|extra|) >= UNDEFINED || old(|enumFields|) > U32_MAX || old(|items|) > U32_MAX
                          || old(|strings|) > U32_MAX
                      || old(|stringBytes|) > U32_MAX
                      || exists key :: Increasing(key) && Elems(key) == Elems(members)
                          && Unbuildable(old(ArenaNow()), old(defs), key)
    {
      hide ArenaInv, StringsInv, AnonInv, NamesOk, Later, IsErrorSet, Payload, Unbuildable;
      ghost var s := Now();
      LaterSelf(s, hashBytes, hashWords);
      var key := Canonical(members);
      KnownSets(s, hashBytes, hashWords, key);
      forall i | 0 <= i < |key| ensures key[i] in members {
        assert key[i] in Elems(key);
      }
      for i := 0 to |key|
        invariant forall j :: 0 <= j < i ==> items[key[j]].tag.DeclaredError?
      {
        if !items[key[i]].tag.DeclaredError? { return false, 0; }
      }
      forall m | m in members ensures old(items)[m].tag.DeclaredError? {
        assert m in Elems(key);
      }
      if |key| == 1 {
        id := key[0];
        assert key == [id];
        SetFound(s, key, id);
        return true, id;
      }
      if key in errorSets {
        id := errorSets[key];
        SetFound(s, key, id);
        return true, id;
      }
      NotKnown(s, hashBytes, hashWords, key);
      ok, id := NewErrorSet(key);
    }

    /** A set that was not there: the empty one is nothing at all, any other has its members' variants. */
    method NewErrorSet(key: seq<TypeId>) returns (ok: bool, id: TypeId)
      requires Valid() && Increasing(key) && |key| != 1 && key !in errorSets
      requires forall i :: 0 <= i < |key| ==> key[i] < |items| && items[key[i]].tag.DeclaredError? && key[i] in defs
      modifies this
      ensures ok ==> Valid() && Later(old(Now()), Now()) && key in errorSets && errorSets[key] == id
      ensures ok ==> IsErrorSet(Now(), id, Elems(key))
      ensures !ok ==> (|key| > 1 && Unbuildable(old(ArenaNow()), old(defs), key)) || old(|extra|) >= UNDEFINED
                      || old(|enumFields|) > U32_MAX || old(|items|) > U32_MAX || old(|strings|) > U32_MAX
                          || old(|stringBytes|) > U32_MAX
    {
      hide Later, IsErrorSet, Payload, SetAt, Increasing, ArenaInv, AnonInv, StringsInv, NamesOk, Unbuildable;
      InRange(Now(), hashBytes, hashWords);
      ghost var s := Now();
      var name;
      ok, name := InternBytes([]);
      if !ok || |items| > U32_MAX || |extra| > U32_MAX || (key != [] && |extra| == UNDEFINED)
          || |enumFields| > U32_MAX { return false, 0; }
      ghost var t := Now();
      if key == [] {
        id := EmptyErrorSet(name);
      } else {
        ok, id := FullErrorSet(name, key);
        if !ok { return; }
      }
      LaterTransitive(s, t, Now());
      t := Now();
      errorSets := errorSets[key := id];
      SetEntered(t, Now(), key, id, hashBytes, hashWords);
      LaterTransitive(s, t, Now());
      SetFound(Now(), key, id);
    }

    /** The block of a set: its members' variants, then the members. */
    method FullErrorSet(name: StrId, key: seq<TypeId>) returns (ok: bool, id: TypeId)
      requires Valid() && Increasing(key) && |key| > 1 && |extra| < UNDEFINED
      requires forall i :: 0 <= i < |key| ==> key[i] < |items| && items[key[i]].tag.DeclaredError? && key[i] in defs
      modifies this`items, this`extra, this`enumFields, this`defs
      ensures ok ==> Valid() && Later(old(Now()), Now()) && SetAt(ArenaNow(), defs, id, key)
      ensures !ok ==> Unbuildable(old(ArenaNow()), old(defs), key)
                      || old(|extra|) >= UNDEFINED || old(|enumFields|) > U32_MAX
    {
      hide ArenaInv, StringsInv, AnonInv, NamesOk, Later, SetAt, SetBut, Increasing, AllVariantsKnown, DistinctNames,
          CountsFit, EnumShape,
           VariantsWords, VariantShapesOf, MemberDefs;
      ghost var s, a0, defs0 := Now(), ArenaNow(), defs;
      var variants := MemberVariants(key);
      MembersAre(defs, key, variants);
      id := PushItem(Tag.ErrorSet);
      ghost var t := Now();
      SameShapes(a0, ArenaNow(), defs, variants);
      ok := DefineVariants(id, name, variants, Flags(false, false));
      if !ok { return; }
      LaterTransitive(s, t, Now());
      t := Now();
      SetReady(a0, defs0, t.arena, defs, id, key, variants);
      extra := extra + key;
      MembersWritten(t, Now(), id, key, hashBytes, hashWords);
      LaterTransitive(s, t, Now());
    }

    /** The block of the empty error set: no variants, no size, no alignment. */
    method EmptyErrorSet(name: StrId) returns (id: TypeId)
      requires Valid() && |extra| <= UNDEFINED
      modifies this`items, this`extra, this`defs
      ensures Valid() && Later(old(Now()), Now()) && SetAt(ArenaNow(), defs, id, [])
      ensures id in defs && WellShaped(defs[id]) && ShapeOfDef(defs[id]) == Shape(0, 0)
    {
      hide ArenaInv, StringsInv, AnonInv, NamesOk;
      ghost var a, d := ArenaNow(), EnumDef(name, [], Flags(false, false), true, []);
      var data := |extra|;
      extra := extra + [name, 0, 0, 0, Pack(Flags(false, false), true), |enumFields|];
      id := |items|;
      items := items + [Item(Tag.ErrorSet, data)];
      EmptySetDefined(a, defs, d, ArenaNow());
      AnonInvStays(hashWords, a, defs, ArenaNow(), defs[id := d], typeDedup);
      NamesStay(a, defs, ArenaNow(), defs[id := d], NamesNow());
      defs := defs[id := d];
    }

    /** `error_set_view` of a set: past the directory, one word per member. */
    method ErrorSetMembers(id: TypeId, ghost key: seq<TypeId>) returns (members: seq<TypeId>)
      requires Valid() && SetAt(ArenaNow(), defs, id, key)
      ensures members == key
    {
      hide ArenaInv, StringsInv, AnonInv, NamesOk, ShapeOfDef, Unpack, VariantsWords, Matched;
      ghost var a, d := ArenaNow(), defs[id];
      BelowTen(a, defs);
      BlockHeader(a, defs, id);
      var start := items[id].data;
      var n := extra[start + 1];
      var cursor := start + 6;
      NoVariants();
      assert d.variants[..0] == [] && d.variantShapes[..0] == [] && Matched([], []) by { NoMatch(); }
      for v := 0 to n
        invariant Matched(d.variants[..v], d.variantShapes[..v])
            && cursor == start + 6 + |VariantsWords(d.variants[..v], d.variantShapes[..v])|
      {
        DirectoryAt(a, defs, id, v);
        cursor := cursor + 4 + 2 * extra[cursor + 3];
      }
      assert d.variants[..n] == d.variants && d.variantShapes[..n] == d.variantShapes;
      members := extra[cursor..cursor + n];
    }
  }
}
