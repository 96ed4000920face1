/** The nominal-type definer: one depth-first search over structs, enums, errors and
    error families that orders definitions and refuses by-value containment cycles. */
module TypeDefiner {

  type Name = nat

  datatype Prim = PInt | PStr | PStrView | PBytes | PBytesView | PBool | PFloat

  // ---------- Declarations ----------

  datatype TypeExpr =
    | Named(name: Name, isView: bool)
    | Anon(names: seq<Name>, elems: seq<TypeExpr>)
    | Positional(elems: seq<TypeExpr>)
    | ErrorUnion(errorSet: seq<TypeExpr>, success: TypeExpr, inferred: bool)

  datatype FieldDecl = FieldDecl(name: Name, ty: TypeExpr)

  datatype Variant = Variant(name: Name, fields: seq<FieldDecl>)

  datatype Decl =
    | StructDecl(fields: seq<FieldDecl>)
    | EnumDecl(variants: seq<Variant>)
    | ErrorDecl(fields: seq<FieldDecl>)
    | FamilyDecl(members: seq<Name>)

  /** Everything the definer reads and never changes; `digits` are the interned strings "0", "1" and so on. */
  datatype Program = Program(decls: map<Name, Decl>, prims: map<Name, Prim>, voidName: Name, neverName: Name,
                             digits: nat -> Name) {
    /** The members of an error family are declared errors, and no two numbers have one string. */
    ghost predicate WellFormed() {
      && (forall f, m :: f in decls && decls[f].FamilyDecl? && m in decls[f].members ==>
            m in decls && decls[m].ErrorDecl?)
      && forall i, j :: digits(i) == digits(j) ==> i == j
    }
  }

  // ---------- Resolved types ----------

  datatype Ty =
    | TyError
    | TyVoid
    | TyNever
    | TyPrim(prim: Prim)
    | TyNominal(name: Name)
    | TyAnon(names: seq<Name>, types: seq<Ty>)
    | TyErrorSet(members: set<Name>)
    | TyUnion(errors: set<Name>, success: Ty)

  predicate HasLayout(ty: Ty, laid: set<Name>) {
    match ty
    case TyError | TyNever => false
    case TyNominal(n) => n in laid
    case _ => true
  }

  /** Every nominal type nested anywhere in `ty` is in `laid`, and no error sentinel is. */
  ghost predicate FullyLaid(ty: Ty, laid: set<Name>) {
    match ty
    case TyError | TyNever => false
    case TyVoid | TyPrim(_) => true
    case TyNominal(n) => n in laid
    case TyAnon(_, types) => forall i :: 0 <= i < |types| ==> FullyLaid(types[i], laid)
    case TyErrorSet(members) => members <= laid
    case TyUnion(errors, success) => FullyLaid(success, laid) && errors <= laid
  }

  predicate Distinct(names: seq<Name>) {
    forall i, j :: 0 <= i < j < |names| ==> names[i] != names[j]
  }

  function FieldNames(fields: seq<FieldDecl>): seq<Name> {
    seq(|fields|, i requires 0 <= i < |fields| => fields[i].name)
  }

  /** `resolve_type` for a field: `laid` are the nominal types whose layout the pool has. */
  function Resolve(prog: Program, t: TypeExpr, laid: set<Name>): Ty
    decreases t, 0
  {
    match t
    case Named(n, isView) => if isView then TyError else ResolveName(prog, n, laid)
    case Anon(names, elems) =>
      if !Distinct(names) then TyError else AnonType(names, ResolveList(prog, elems, laid), laid)
    case Positional(elems) => AnonType(Numbered(prog, |elems|), ResolveList(prog, elems, laid), laid)
    case ErrorUnion(es, s, inferred) =>
      if inferred || es == [] then TyError else
      var members := ResolveList(prog, es, laid);
      var success := ResolveSuccess(prog, s, laid);
      if (exists i :: 0 <= i < |members| && !UnionMemberOk(prog, members[i], laid)) || success.TyError?
      then TyError else TyUnion(Expanded(members), success)
  }

  /** The field names of a positional type. */
  function Numbered(prog: Program, n: nat): seq<Name> {
    seq<Name>(n, i requires 0 <= i < n => prog.digits(i))
  }

  /** The errors of a union's members, families taken apart. */
  function Expanded(members: seq<Ty>): set<Name> {
    if members == [] then {}
    else
      (match members[0] case TyNominal(n) => {n} case TyErrorSet(ms) => ms case _ => {}) + Expanded(members[1..])
  }

  function ResolveList(prog: Program, ts: seq<TypeExpr>, laid: set<Name>): seq<Ty>
    decreases ts, 0
  {
    seq(|ts|, i requires 0 <= i < |ts| => Resolve(prog, ts[i], laid))
  }

  function AnonType(names: seq<Name>, types: seq<Ty>, laid: set<Name>): Ty {
    if exists i :: 0 <= i < |types| && !HasLayout(types[i], laid) then TyError else TyAnon(names, types)
  }

  /** `error_set` of a family: a single member is that error itself. */
  function FamilyType(members: seq<Name>): Ty {
    if members != [] && forall m :: m in members ==> m == members[0] then TyNominal(members[0])
    else TyErrorSet(set m | m in members)
  }

  function ResolveName(prog: Program, n: Name, laid: set<Name>): Ty {
    if n in prog.prims then TyPrim(prog.prims[n])
    else if n !in prog.decls then TyError
    else match prog.decls[n]
      case FamilyDecl(members) => if forall m :: m in members ==> m in laid then FamilyType(members) else TyError
      case _ => TyNominal(n)
  }

  predicate UnionMemberOk(prog: Program, ty: Ty, laid: set<Name>) {
    match ty
    case TyNominal(n) => n in prog.decls && prog.decls[n].ErrorDecl? && n in laid
    case TyErrorSet(members) => members <= laid
    case _ => false
  }

  function ResolveSuccess(prog: Program, s: TypeExpr, laid: set<Name>): Ty
    decreases s, 1
  {
    var ty := if s.Named? && !s.isView && s.name == prog.voidName then TyVoid
              else if s.Named? && !s.isView && s.name == prog.neverName then TyNever
              else Resolve(prog, s, laid);
    match ty
    case TyPrim(p) => if p.PStrView? || p.PBytesView? then TyError else ty
    case TyNominal(n) => if (n in prog.decls && prog.decls[n].ErrorDecl?) || n !in laid then TyError else ty
    case TyErrorSet(_) | TyUnion(_, _) | TyNever => TyError
    case _ => ty
  }

  // ---------- The containment graph ----------

  datatype Ref = Ref(name: Name, isView: bool)

  /** `named_refs_in`: the named references of a type expression, left to right. */
  function NamedRefs(t: TypeExpr): seq<Ref>
    decreases t, 0
  {
    match t
    case Named(n, v) => [Ref(n, v)]
    case Anon(_, elems) => RefsOfList(elems)
    case Positional(elems) => RefsOfList(elems)
    case ErrorUnion(es, s, _) => RefsOfList(es) + NamedRefs(s)
  }

  function RefsOfList(ts: seq<TypeExpr>): seq<Ref>
    decreases ts, 0
  {
    if ts == [] then [] else NamedRefs(ts[0]) + RefsOfList(ts[1..])
  }

  /** A reference the order walk follows: neither a view, nor primitive, nor unknown. */
  predicate Follows(prog: Program, r: Ref) {
    !r.isView && r.name !in prog.prims && r.name in prog.decls
  }

  ghost predicate TypeRefersTo(prog: Program, t: TypeExpr, v: Name) {
    Ref(v, false) in NamedRefs(t) && Follows(prog, Ref(v, false))
  }

  ghost predicate FieldsReferTo(prog: Program, fields: seq<FieldDecl>, v: Name) {
    exists i :: 0 <= i < |fields| && TypeRefersTo(prog, fields[i].ty, v)
  }

  ghost predicate VariantsReferTo(prog: Program, variants: seq<Variant>, v: Name) {
    exists i :: 0 <= i < |variants| && FieldsReferTo(prog, variants[i].fields, v)
  }

  /** `u` contains `v` by value through a field or payload. */
  ghost predicate FieldEdge(prog: Program, u: Name, v: Name) {
    u in prog.decls && match prog.decls[u]
      case StructDecl(fields) => FieldsReferTo(prog, fields, v)
      case EnumDecl(variants) => VariantsReferTo(prog, variants, v)
      case ErrorDecl(fields) => FieldsReferTo(prog, fields, v)
      case FamilyDecl(_) => false
  }

  ghost predicate NamesField(prog: Program, fields: seq<FieldDecl>, f: Name, v: Name) {
    exists i :: 0 <= i < |fields| && fields[i].name == f && TypeRefersTo(prog, fields[i].ty, v)
  }

  /** `u` declares a field, or a payload field, named `f` whose type contains `v` by value. */
  ghost predicate FieldRef(prog: Program, u: Name, f: Name, v: Name) {
    u in prog.decls && match prog.decls[u]
      case StructDecl(fields) => NamesField(prog, fields, f, v)
      case EnumDecl(variants) => exists w :: 0 <= w < |variants| && NamesField(prog, variants[w].fields, f, v)
      case ErrorDecl(fields) => NamesField(prog, fields, f, v)
      case FamilyDecl(_) => false
  }

  /** A field edge is a field of the owner, by name. */
  lemma FieldEdgeIsField(prog: Program, u: Name, v: Name)
    ensures FieldEdge(prog, u, v) <==> exists f :: FieldRef(prog, u, f, v)
  {
    if FieldEdge(prog, u, v) {
      match prog.decls[u]
      case EnumDecl(variants) =>
        var w :| 0 <= w < |variants| && FieldsReferTo(prog, variants[w].fields, v);
        var i :| 0 <= i < |variants[w].fields| && TypeRefersTo(prog, variants[w].fields[i].ty, v);
        assert NamesField(prog, variants[w].fields, variants[w].fields[i].name, v);
        assert FieldRef(prog, u, variants[w].fields[i].name, v);
      case StructDecl(fields) =>
        var i :| 0 <= i < |fields| && TypeRefersTo(prog, fields[i].ty, v);
        assert FieldRef(prog, u, fields[i].name, v);
      case ErrorDecl(fields) =>
        var i :| 0 <= i < |fields| && TypeRefersTo(prog, fields[i].ty, v);
        assert FieldRef(prog, u, fields[i].name, v);
    }
  }

  ghost predicate MemberEdge(prog: Program, u: Name, v: Name) {
    u in prog.decls && prog.decls[u].FamilyDecl? && v in prog.decls[u].members
  }

  ghost predicate Edge(prog: Program, u: Name, v: Name) {
    FieldEdge(prog, u, v) || MemberEdge(prog, u, v)
  }

  ghost predicate Walk(prog: Program, p: seq<Name>) {
    |p| > 0 && forall i, j :: 0 <= i < j < |p| && j == i + 1 ==> Edge(prog, p[i], p[j])
  }

  ghost predicate Reach(prog: Program, a: Name, b: Name) {
    exists p :: Walk(prog, p) && p[0] == a && p[|p|-1] == b
  }

  ghost predicate OnCycle(prog: Program, n: Name) {
    exists m :: Edge(prog, n, m) && Reach(prog, m, n)
  }

  /** Local well-formedness: resolves as soon as every declared name has a layout. */
  ghost predicate FieldsOk(prog: Program, fields: seq<FieldDecl>) {
    forall i :: 0 <= i < |fields| ==> !Resolve(prog, fields[i].ty, prog.decls.Keys).TyError?
  }

  ghost predicate LocallyOk(prog: Program, n: Name) {
    n in prog.decls && match prog.decls[n]
      case StructDecl(fields) => FieldsOk(prog, fields)
      case EnumDecl(variants) =>
        && variants != []
        && Distinct(VariantNames(variants))
        && forall i :: 0 <= i < |variants| ==> FieldsOk(prog, variants[i].fields)
      case ErrorDecl(fields) => Distinct(FieldNames(fields)) && FieldsOk(prog, fields)
      case FamilyDecl(_) => true
  }

  function VariantNames(variants: seq<Variant>): seq<Name> {
    seq(|variants|, i requires 0 <= i < |variants| => variants[i].name)
  }

  /** Definable: nothing reachable by value lies on a cycle or is locally ill-formed. */
  ghost predicate Good(prog: Program, n: Name) {
    forall m :: Reach(prog, n, m) ==> !OnCycle(prog, m) && LocallyOk(prog, m)
  }

  // ---------- Graph lemmas ----------

  lemma ReachRefl(prog: Program, a: Name)
    ensures Reach(prog, a, a)
  {
    assert Walk(prog, [a]);
  }

  lemma ReachStep(prog: Program, a: Name, b: Name, c: Name)
    requires Edge(prog, a, b) && Reach(prog, b, c)
    ensures Reach(prog, a, c)
  {
    var p :| Walk(prog, p) && p[0] == b && p[|p|-1] == c;
    var q := [a] + p;
    forall i, j | 0 <= i < j < |q| && j == i + 1 ensures Edge(prog, q[i], q[j]) {
      if i > 0 { assert q[i] == p[i-1] && q[j] == p[i]; }
    }
    assert Walk(prog, q) && q[0] == a && q[|q|-1] == c;
  }

  lemma BadPropagates(prog: Program, u: Name, v: Name)
    requires Edge(prog, u, v) && !Good(prog, v)
    ensures !Good(prog, u)
  {
    var m :| Reach(prog, v, m) && (OnCycle(prog, m) || !LocallyOk(prog, m));
    ReachStep(prog, u, v, m);
  }

  lemma CycleIsBad(prog: Program, u: Name, v: Name)
    requires Edge(prog, u, v) && Reach(prog, v, u)
    ensures !Good(prog, u)
  {
    ReachRefl(prog, u);
    assert OnCycle(prog, u);
  }

  // ---------- What the pool is told ----------

  /** A field, and a payload, as a pool define call receives them. */
  datatype PoolField = PoolField(name: Name, ty: Ty)

  datatype PoolVariant = PoolVariant(name: Name, fields: seq<PoolField>)

  /** The declared fields with their types resolved as when every declared name is laid out. */
  function PoolFields(prog: Program, fields: seq<FieldDecl>): (r: seq<PoolField>)
    ensures |r| == |fields|
  {
    seq(|fields|, i requires 0 <= i < |fields| =>
        PoolField(fields[i].name, Resolve(prog, fields[i].ty, prog.decls.Keys)))
  }

  function PoolVariants(prog: Program, variants: seq<Variant>): (r: seq<PoolVariant>)
    ensures |r| == |variants|
  {
    seq(|variants|, i requires 0 <= i < |variants| =>
        PoolVariant(variants[i].name, PoolFields(prog, variants[i].fields)))
  }

  /** The whole argument of the define call of `n`; structs and errors count as one variant. */
  function PoolDef(prog: Program, n: Name): seq<PoolVariant>
    requires n in prog.decls
  {
    match prog.decls[n]
    case StructDecl(fields) => [PoolVariant(n, PoolFields(prog, fields))]
    case EnumDecl(variants) => PoolVariants(prog, variants)
    case ErrorDecl(fields) => [PoolVariant(n, PoolFields(prog, fields))]
    case FamilyDecl(_) => []
  }

  ghost predicate FieldsLaid(fields: seq<PoolField>, laid: set<Name>) {
    forall k :: 0 <= k < |fields| ==> FullyLaid(fields[k].ty, laid)
  }

  ghost predicate AllLaid(variants: seq<PoolVariant>, laid: set<Name>) {
    forall v :: 0 <= v < |variants| ==> FieldsLaid(variants[v].fields, laid)
  }

  lemma AllLaidMonotone(variants: seq<PoolVariant>, a: set<Name>, b: set<Name>)
    requires AllLaid(variants, a) && a <= b
    ensures AllLaid(variants, b)
  {
    forall v, k | 0 <= v < |variants| && 0 <= k < |variants[v].fields| ensures FullyLaid(variants[v].fields[k].ty, b) {
      FullyLaidMonotone(variants[v].fields[k].ty, a, b);
    }
  }

  // ---------- The search state ----------

  datatype DefState = Pending | InProgress | Defined | Failed

  /** An `InfiniteSize` diagnostic: field `field` of `owner` names `target` by value. */
  datatype Diag = InfiniteSize(owner: Name, field: Name, target: Name)

  /** One state of the definer. `layouts` lists the pool define calls in order, `resolved` the
      fields handed to each, and `rank` numbers the names in the order they were settled. */
  datatype Search = Search(states: map<Name, DefState>, layouts: seq<Name>, resolved: map<Name, seq<PoolVariant>>,
                           diags: seq<Diag>, rank: map<Name, nat>)

  ghost predicate Reported(diags: seq<Diag>, u: Name, v: Name) {
    exists i :: 0 <= i < |diags| && diags[i].owner == u && diags[i].target == v
  }

  ghost predicate IsDefined(s: Search, n: Name) {
    n in s.states && s.states[n].Defined?
  }

  /** The reference `u -> v` has been dealt with: reported, or its target is settled. */
  ghost predicate Handled(s: Search, u: Name, v: Name) {
    Reported(s.diags, u, v) || v in s.rank
  }

  function Elems(s: seq<Name>): set<Name> {
    set n | n in s
  }

  /** The names on the search stack, innermost last, joined by containment edges. */
  ghost predicate StackInv(prog: Program, s: Search, stack: seq<Name>) {
    && s.states.Keys == prog.decls.Keys
    && (forall n :: n in stack ==> n in s.states)
    && (forall n :: n in s.states ==> (s.states[n].InProgress? <==> n in stack))
    && (forall i, j :: 0 <= i < j < |stack| ==> stack[i] != stack[j])
    && (forall i, j :: 0 <= i < j < |stack| && j == i + 1 ==> Edge(prog, stack[i], stack[j]))
  }

  /** Every field edge of a settled name was reported or leads to a name settled earlier, and
      a defined name contains only names defined earlier. */
  ghost predicate RankInv(prog: Program, s: Search) {
    && (forall n :: n in s.rank <==> n in s.states && (s.states[n].Defined? || s.states[n].Failed?))
    && (forall n :: n in s.rank ==> s.rank[n] < |s.rank|)
    && (forall u, v :: u in s.rank && FieldEdge(prog, u, v) ==>
         Reported(s.diags, u, v) || (v in s.rank && s.rank[v] < s.rank[u]))
    && (forall u, v :: IsDefined(s, u) && Edge(prog, u, v) ==>
          IsDefined(s, v) && u in s.rank && v in s.rank && s.rank[v] < s.rank[u])
  }

  ghost predicate VerdictInv(prog: Program, s: Search) {
    && (forall n :: n in s.states && s.states[n].Failed? ==> !Good(prog, n))
    && (forall n :: IsDefined(s, n) ==> LocallyOk(prog, n))
    && (forall d :: d in s.diags ==>
          && FieldRef(prog, d.owner, d.field, d.target) && FieldEdge(prog, d.owner, d.target)
          && Reach(prog, d.target, d.owner))
  }

  /** One pool define call per defined struct, enum or error, made in the order of `rank` and with
      the declared fields, each when every nominal part of every field type already had its layout. */
  ghost predicate LayoutInv(prog: Program, s: Search) {
    && (forall n :: n in s.layouts <==> IsDefined(s, n) && n in prog.decls && !prog.decls[n].FamilyDecl?)
    && (forall i, j :: 0 <= i < j < |s.layouts| ==> s.layouts[i] != s.layouts[j])
    && (forall i :: 0 <= i < |s.layouts| ==> s.layouts[i] in s.resolved && s.layouts[i] in s.rank)
    && (forall i, j :: 0 <= i < j < |s.layouts| ==> s.rank[s.layouts[i]] < s.rank[s.layouts[j]])
    && (forall i :: 0 <= i < |s.layouts| ==> s.resolved[s.layouts[i]] == PoolDef(prog, s.layouts[i]))
    && (forall i :: 0 <= i < |s.layouts| ==> AllLaid(PoolDef(prog, s.layouts[i]), Elems(s.layouts[..i])))
  }

  ghost predicate Inv(prog: Program, s: Search, stack: seq<Name>) {
    && prog.WellFormed()
    && StackInv(prog, s, stack)
    && RankInv(prog, s)
    && VerdictInv(prog, s)
    && LayoutInv(prog, s)
  }

  ghost function PendingNames(s: Search): set<Name> {
    set n | n in s.states && s.states[n].Pending?
  }

  /** What no step undoes: verdicts, settling order, diagnostics and pool definitions only grow. */
  ghost predicate Grows(s: Search, t: Search, except: set<Name>) {
    && s.states.Keys == t.states.Keys
    && (forall n :: n in s.states && !s.states[n].Pending? && n !in except ==> t.states[n] == s.states[n])
    && (forall n :: n in s.rank ==> n in t.rank && t.rank[n] == s.rank[n])
    && s.diags <= t.diags
    && s.layouts <= t.layouts
    && PendingNames(t) <= PendingNames(s)
  }

  // ---------- Resolution against the layouts so far ----------

  /** A followed name whose layout, or whose members' layouts, the pool has. */
  ghost predicate Laid(prog: Program, laid: set<Name>, v: Name) {
    v in prog.decls && match prog.decls[v]
      case FamilyDecl(members) => forall m :: m in members ==> m in laid
      case _ => v in laid
  }

  ghost predicate RefsLaid(prog: Program, t: TypeExpr, laid: set<Name>) {
    forall v :: TypeRefersTo(prog, t, v) ==> Laid(prog, laid, v)
  }

  lemma {:induction false} ListRefsIncluded(ts: seq<TypeExpr>, i: nat, r: Ref)
    requires i < |ts| && r in NamedRefs(ts[i])
    ensures r in RefsOfList(ts)
  {
    if i > 0 { ListRefsIncluded(ts[1..], i - 1, r); }
  }

  /** The union's error set takes families apart. */
  lemma {:induction false} ExpandedExact(members: seq<Ty>, n: Name)
    ensures n in Expanded(members) <==> exists i :: 0 <= i < |members| && NamesError(members[i], n)
  {
    if members != [] {
      ExpandedExact(members[1..], n);
      if n in Expanded(members[1..]) {
        var i :| 0 <= i < |members[1..]| && NamesError(members[1..][i], n);
        assert NamesError(members[i+1], n);
      }
      if i :| 0 <= i < |members| && NamesError(members[i], n) {
        assert i > 0 ==> NamesError(members[1..][i-1], n);
      }
    }
  }

  /** `n` is the error `ty`, or a member of the error set `ty`. */
  predicate NamesError(ty: Ty, n: Name) {
    ty == TyNominal(n) || (ty.TyErrorSet? && n in ty.members)
  }

  /** A union's errors are laid out when its members passed their check. */
  lemma ExpandedLaid(prog: Program, members: seq<Ty>, laid: set<Name>)
    requires forall i :: 0 <= i < |members| ==> UnionMemberOk(prog, members[i], laid)
    ensures Expanded(members) <= laid
  {
    forall n | n in Expanded(members) ensures n in laid {
      ExpandedExact(members, n);
    }
  }

  /** Once every followed name is laid out, resolution no longer depends on what else is, and
      a type that resolves has all its nominal parts laid out. */
  lemma {:induction false} ResolveStable(prog: Program, t: TypeExpr, laid: set<Name>)
    requires prog.WellFormed() && laid <= prog.decls.Keys && RefsLaid(prog, t, laid)
    ensures Resolve(prog, t, laid) == Resolve(prog, t, prog.decls.Keys)
    ensures !Resolve(prog, t, laid).TyError? ==> FullyLaid(Resolve(prog, t, laid), laid)
    decreases t, 0
  {
    match t
    case Named(n, isView) =>
      if Follows(prog, Ref(n, isView)) {
        assert TypeRefersTo(prog, t, n);
      }
    case Anon(names, elems) =>
      ListStable(prog, t, elems, laid);
    case Positional(elems) =>
      ListStable(prog, t, elems, laid);
    case ErrorUnion(es, s, inferred) =>
      ListStable(prog, t, es, laid);
      forall v | TypeRefersTo(prog, s, v) ensures Laid(prog, laid, v) {
        assert TypeRefersTo(prog, t, v);
      }
      ResolveStable(prog, s, laid);
      UnionStable(prog, es, s, inferred, laid);
  }

  lemma UnionStable(prog: Program, es: seq<TypeExpr>, s: TypeExpr, inferred: bool, laid: set<Name>)
    requires laid <= prog.decls.Keys
    requires ResolveList(prog, es, laid) == ResolveList(prog, es, prog.decls.Keys)
    requires forall ty :: ty in ResolveList(prog, es, laid) && !ty.TyError? ==> FullyLaid(ty, laid)
    requires Resolve(prog, s, laid) == Resolve(prog, s, prog.decls.Keys)
    requires !Resolve(prog, s, laid).TyError? ==> FullyLaid(Resolve(prog, s, laid), laid)
    ensures var t := ErrorUnion(es, s, inferred);
      && Resolve(prog, t, laid) == Resolve(prog, t, prog.decls.Keys)
      && (!Resolve(prog, t, laid).TyError? ==> FullyLaid(Resolve(prog, t, laid), laid))
  {
    hide Expanded;
    var members := ResolveList(prog, es, laid);
    forall i | 0 <= i < |members|
      ensures UnionMemberOk(prog, members[i], laid) <==> UnionMemberOk(prog, members[i], prog.decls.Keys)
    {
      assert members[i] in members;
    }
    if forall i :: 0 <= i < |members| ==> UnionMemberOk(prog, members[i], laid) { ExpandedLaid(prog, members, laid); }
  }


  lemma {:induction false} ListStable(prog: Program, t: TypeExpr, ts: seq<TypeExpr>, laid: set<Name>)
    requires prog.WellFormed() && laid <= prog.decls.Keys && RefsLaid(prog, t, laid)
    requires forall r :: r in RefsOfList(ts) ==> r in NamedRefs(t)
    ensures ResolveList(prog, ts, laid) == ResolveList(prog, ts, prog.decls.Keys)
    ensures forall ty :: ty in ResolveList(prog, ts, laid) && !ty.TyError? ==> FullyLaid(ty, laid)
    decreases ts, 0
  {
    forall i | 0 <= i < |ts|
      ensures ResolveList(prog, ts, laid)[i] == ResolveList(prog, ts, prog.decls.Keys)[i]
      ensures var ty := ResolveList(prog, ts, laid)[i]; !ty.TyError? ==> FullyLaid(ty, laid)
    {
      forall v | TypeRefersTo(prog, ts[i], v) ensures Laid(prog, laid, v) {
        ListRefsIncluded(ts, i, Ref(v, false));
        assert TypeRefersTo(prog, t, v);
      }
      ResolveStable(prog, ts[i], laid);
    }
  }

  /** Whatever is laid out, a type that resolves is a bare name or has a layout down to its parts: what reaches
      an anonymous struct, which is laid out at once, never lacks one. */
  lemma {:induction false} ResolvedIsLaid(prog: Program, t: TypeExpr, laid: set<Name>)
    ensures var ty := Resolve(prog, t, laid); ty.TyError? || ty.TyNominal? || FullyLaid(ty, laid)
    decreases t, 0
  {
    match t
    case Named(_, _) =>
    case Anon(_, elems) => ListLaid(prog, elems, laid);
    case Positional(elems) => ListLaid(prog, elems, laid);
    case ErrorUnion(es, s, _) =>
      ListLaid(prog, es, laid);
      ResolvedIsLaid(prog, s, laid);
      var members := ResolveList(prog, es, laid);
      if forall i :: 0 <= i < |members| ==> UnionMemberOk(prog, members[i], laid) { ExpandedLaid(prog, members, laid); }
  }

  lemma {:induction false} ListLaid(prog: Program, ts: seq<TypeExpr>, laid: set<Name>)
    ensures forall ty :: ty in ResolveList(prog, ts, laid) ==> ty.TyError? || ty.TyNominal? || FullyLaid(ty, laid)
    decreases ts, 0
  {
    forall i | 0 <= i < |ts|
      ensures var ty := ResolveList(prog, ts, laid)[i]; ty.TyError? || ty.TyNominal? || FullyLaid(ty, laid)
    {
      ResolvedIsLaid(prog, ts[i], laid);
    }
  }

  // ---------- What a type expression means ----------

  /** What a name stands for; a family is the error set of its members. */
  ghost predicate NameMeans(prog: Program, n: Name, ty: Ty) {
    if n in prog.prims then ty == TyPrim(prog.prims[n])
    else n in prog.decls && match prog.decls[n]
      case FamilyDecl(ms) => forall m :: NamesError(ty, m) <==> m in ms
      case _ => ty == TyNominal(n)
  }

  /** The type that `t` stands for, part by part. */
  ghost predicate Means(prog: Program, t: TypeExpr, ty: Ty)
    decreases t
  {
    match t
    case Named(n, isView) => !isView && NameMeans(prog, n, ty)
    case Anon(names, elems) =>
      && ty.TyAnon? && ty.names == names && Distinct(names) && |ty.types| == |elems|
      && forall i :: 0 <= i < |elems| ==> Means(prog, elems[i], ty.types[i])
    case Positional(elems) =>
      && ty.TyAnon? && |ty.names| == |ty.types| == |elems|
      && (forall i :: 0 <= i < |elems| ==> ty.names[i] == prog.digits(i))
      && forall i :: 0 <= i < |elems| ==> Means(prog, elems[i], ty.types[i])
    case ErrorUnion(es, success, inferred) =>
      && ty.TyUnion? && !inferred
      && (forall n :: n in ty.errors <==> exists i :: 0 <= i < |es| && ErrorNamed(prog, es[i], n))
      && if success == Named(prog.voidName, false) then ty.success == TyVoid else Means(prog, success, ty.success)
  }

  /** `n` is the error that `t` names, or a member of the family it names. */
  ghost predicate ErrorNamed(prog: Program, t: TypeExpr, n: Name) {
    t.Named? && t.name in prog.decls && match prog.decls[t.name]
      case ErrorDecl(_) => n == t.name
      case FamilyDecl(ms) => n in ms
      case _ => false
  }

  /** `t` is a bare name and not the one of a type that still lacks its layout. */
  ghost predicate NameLaid(prog: Program, t: TypeExpr, laid: set<Name>) {
    t.Named? && t.name !in prog.prims && t.name in prog.decls && !prog.decls[t.name].FamilyDecl? ==> t.name in laid
  }

  ghost predicate NamesErrors(prog: Program, t: TypeExpr, laid: set<Name>) {
    && t.Named? && !t.isView && t.name !in prog.prims && t.name in prog.decls
    && match prog.decls[t.name]
       case ErrorDecl(_) => t.name in laid
       case FamilyDecl(ms) => forall m :: m in ms ==> m in laid
       case _ => false
  }

  /** `t` can be what an error union succeeds with: owned, no error, and with a layout. */
  ghost predicate CanSucceed(prog: Program, t: TypeExpr, laid: set<Name>) {
    && !t.ErrorUnion? && NameLaid(prog, t, laid)
    && (t.Named? ==>
          && t.name != prog.neverName
          && (t.name in prog.prims ==> !prog.prims[t.name].PStrView? && !prog.prims[t.name].PBytesView?)
          && (t.name !in prog.prims && t.name in prog.decls ==>
                !prog.decls[t.name].ErrorDecl? && !prog.decls[t.name].FamilyDecl?))
  }

  /** When a type expression is a type at all, given the layouts so far. */
  ghost predicate Resolvable(prog: Program, t: TypeExpr, laid: set<Name>)
    decreases t
  {
    match t
    case Named(n, isView) =>
      && !isView && (n in prog.prims || n in prog.decls)
      && (n !in prog.prims && prog.decls[n].FamilyDecl? ==> forall m :: m in prog.decls[n].members ==> m in laid)
    case Anon(names, elems) =>
      Distinct(names) &&
      forall i :: 0 <= i < |elems| ==> Resolvable(prog, elems[i], laid) && NameLaid(prog, elems[i], laid)
    case Positional(elems) =>
      forall i :: 0 <= i < |elems| ==> Resolvable(prog, elems[i], laid) && NameLaid(prog, elems[i], laid)
    case ErrorUnion(es, success, inferred) =>
      && !inferred && es != [] && (forall i :: 0 <= i < |es| ==> NamesErrors(prog, es[i], laid))
      && (success == Named(prog.voidName, false)
          || (Resolvable(prog, success, laid) && CanSucceed(prog, success, laid)))
  }

  /** Resolution succeeds exactly on the resolvable expressions, and gives the type they stand for. */
  lemma {:induction false} ResolveMeans(prog: Program, t: TypeExpr, laid: set<Name>)
    requires prog.WellFormed()
    ensures var ty := Resolve(prog, t, laid);
      && (!ty.TyError? <==> Resolvable(prog, t, laid))
      && (!ty.TyError? ==> Means(prog, t, ty))
    decreases t, 1
  {
    match t
    case Named(n, isView) =>
    case Anon(names, elems) => ElemsMean(prog, t, names, elems, laid);
    case Positional(elems) => ElemsMean(prog, t, Numbered(prog, |elems|), elems, laid);
    case ErrorUnion(es, success, inferred) =>
      ErrorsMean(prog, es, laid);
      ResolveMeans(prog, success, laid);
      SuccessMeans(prog, success, laid);
  }

  /** The elements of an anonymous type: each has a type with a layout, or the whole has none. */
  lemma {:induction false} ElemsMean(prog: Program, t: TypeExpr, names: seq<Name>, elems: seq<TypeExpr>,
                                     laid: set<Name>)
    requires prog.WellFormed() && forall i :: 0 <= i < |elems| ==> (t decreases to elems[i])
    ensures var ty := AnonType(names, ResolveList(prog, elems, laid), laid);
      && (ty.TyError? <==>
            exists i :: 0 <= i < |elems| && !(Resolvable(prog, elems[i], laid) && NameLaid(prog, elems[i], laid)))
      && (!ty.TyError? ==>
            && ty.TyAnon? && ty.names == names && |ty.types| == |elems|
            && forall i :: 0 <= i < |elems| ==> Means(prog, elems[i], ty.types[i]))
    decreases t, 0
  {
    var types := ResolveList(prog, elems, laid);
    forall i | 0 <= i < |elems|
      ensures HasLayout(types[i], laid) <==> Resolvable(prog, elems[i], laid) && NameLaid(prog, elems[i], laid)
      ensures HasLayout(types[i], laid) ==> Means(prog, elems[i], types[i])
    {
      ResolveMeans(prog, elems[i], laid);
      LayoutOfName(prog, elems[i], laid);
    }
  }

  /** Only a bare name can resolve to a type without a layout. */
  lemma LayoutOfName(prog: Program, t: TypeExpr, laid: set<Name>)
    requires prog.WellFormed()
    ensures var ty := Resolve(prog, t, laid); !ty.TyError? ==> (HasLayout(ty, laid) <==> NameLaid(prog, t, laid))
  {
  }

  lemma ErrorsMean(prog: Program, es: seq<TypeExpr>, laid: set<Name>)
    requires prog.WellFormed()
    ensures var members := ResolveList(prog, es, laid);
      && (forall i :: 0 <= i < |es| ==> (UnionMemberOk(prog, members[i], laid) <==> NamesErrors(prog, es[i], laid)))
      && ((forall i :: 0 <= i < |es| ==> NamesErrors(prog, es[i], laid)) ==>
            forall n :: n in Expanded(members) <==> exists i :: 0 <= i < |es| && ErrorNamed(prog, es[i], n))
  {
    var members := ResolveList(prog, es, laid);
    forall i | 0 <= i < |es|
      ensures UnionMemberOk(prog, members[i], laid) <==> NamesErrors(prog, es[i], laid)
      ensures NamesErrors(prog, es[i], laid) ==> forall n :: NamesError(members[i], n) <==> ErrorNamed(prog, es[i], n)
    {
      OneErrorMeans(prog, es[i], laid);
    }
    if forall i :: 0 <= i < |es| ==> NamesErrors(prog, es[i], laid) {
      forall n ensures n in Expanded(members) <==> exists i :: 0 <= i < |es| && ErrorNamed(prog, es[i], n) {
        ExpandedExact(members, n);
        if i :| 0 <= i < |es| && ErrorNamed(prog, es[i], n) {
          assert NamesError(members[i], n);
        }
      }
    }
  }

  lemma OneErrorMeans(prog: Program, t: TypeExpr, laid: set<Name>)
    requires prog.WellFormed()
    ensures var ty := Resolve(prog, t, laid);
      && (UnionMemberOk(prog, ty, laid) <==> NamesErrors(prog, t, laid))
      && (NamesErrors(prog, t, laid) ==> forall n :: NamesError(ty, n) <==> ErrorNamed(prog, t, n))
  {
  }

  lemma SuccessMeans(prog: Program, s: TypeExpr, laid: set<Name>)
    requires prog.WellFormed()
    requires !Resolve(prog, s, laid).TyError? <==> Resolvable(prog, s, laid)
    requires !Resolve(prog, s, laid).TyError? ==> Means(prog, s, Resolve(prog, s, laid))
    ensures var ty := ResolveSuccess(prog, s, laid);
      && (!ty.TyError? <==>
            s == Named(prog.voidName, false) || (Resolvable(prog, s, laid) && CanSucceed(prog, s, laid)))
      && (!ty.TyError? ==>
            if s == Named(prog.voidName, false) then ty == TyVoid else Means(prog, s, ty))
  {
    LayoutOfName(prog, s, laid);
  }

  /** A positional type is the anonymous type with the fields "0", "1" and so on. */
  lemma PositionalIsAnon(prog: Program, elems: seq<TypeExpr>, laid: set<Name>)
    requires prog.WellFormed()
    ensures Resolve(prog, Positional(elems), laid) == Resolve(prog, Anon(Numbered(prog, |elems|), elems), laid)
  {
  }

  lemma FullyLaidMonotone(ty: Ty, a: set<Name>, b: set<Name>)
    requires FullyLaid(ty, a) && a <= b
    ensures FullyLaid(ty, b)
  {
  }

  // ---------- Steps of the search ----------

  lemma ReportsPersist(before: seq<Diag>, after: seq<Diag>)
    requires before <= after
    ensures forall u, v :: Reported(before, u, v) ==> Reported(after, u, v)
  {
    forall u, v | Reported(before, u, v) ensures Reported(after, u, v) {
      var i :| 0 <= i < |before| && before[i].owner == u && before[i].target == v;
      assert after[i] == before[i];
    }
  }

  lemma GrowsTransitive(s: Search, t: Search, r: Search, except: set<Name>)
    requires Grows(s, t, except) && Grows(t, r, {})
    ensures Grows(s, r, except)
    ensures forall u, v :: Handled(s, u, v) ==> Handled(t, u, v)
    ensures forall u, v :: Handled(t, u, v) ==> Handled(r, u, v)
    ensures forall n :: IsDefined(t, n) ==> IsDefined(r, n)
    ensures Elems(t.layouts) <= Elems(r.layouts)
  {
    ReportsPersist(s.diags, t.diags);
    ReportsPersist(t.diags, r.diags);
    assert forall n :: n in t.layouts ==> n in r.layouts;
  }

  lemma StackPush(prog: Program, s: Search, t: Search, stack: seq<Name>, n: Name)
    requires StackInv(prog, s, stack) && n in s.states && s.states[n].Pending?
    requires stack != [] ==> Edge(prog, stack[|stack|-1], n)
    requires t.states == s.states[n := InProgress]
    ensures StackInv(prog, t, stack + [n])
  {
    hide Edge;
    assert n !in stack;
    assert forall m :: m in stack + [n] <==> m in stack || m == n;
  }

  lemma StackPop(prog: Program, s: Search, t: Search, stack: seq<Name>, n: Name, verdict: DefState)
    requires StackInv(prog, s, stack + [n]) && (verdict.Failed? || verdict.Defined?)
    requires t.states == s.states[n := verdict]
    ensures StackInv(prog, t, stack) && n in s.states && s.states[n].InProgress?
    ensures PendingNames(t) <= PendingNames(s)
  {
    hide Edge;
    var full := stack + [n];
    assert full[|stack|] == n && n in full;
    forall m | m in stack ensures m != n {
      var i :| 0 <= i < |stack| && stack[i] == m;
      assert full[i] != full[|stack|];
    }
    assert forall m :: m in full <==> m in stack || m == n;
    assert forall i :: 0 <= i < |stack| ==> stack[i] == full[i];
  }

  /** Moving a name between `Pending` and `InProgress` disturbs no verdict. */
  lemma SameVerdicts(prog: Program, s: Search, t: Search)
    requires RankInv(prog, s) && VerdictInv(prog, s) && LayoutInv(prog, s)
    requires t == s.(states := t.states) && t.states.Keys == s.states.Keys
    requires forall n :: n in s.states ==>
        (s.states[n].Defined? <==> t.states[n].Defined?) && (s.states[n].Failed? <==> t.states[n].Failed?)
    ensures RankInv(prog, t) && VerdictInv(prog, t) && LayoutInv(prog, t)
  {
    hide FieldEdge, Edge, Good, LocallyOk, AllLaid, PoolDef, Reach;
    assert forall m :: IsDefined(t, m) <==> IsDefined(s, m);
  }

  lemma RankSettle(prog: Program, s: Search, t: Search, n: Name, verdict: DefState)
    requires RankInv(prog, s) && (verdict.Failed? || verdict.Defined?) && n in s.states && s.states[n].InProgress?
    requires forall v :: FieldEdge(prog, n, v) ==> Handled(s, n, v)
    requires verdict.Defined? ==> forall v :: Edge(prog, n, v) ==> IsDefined(s, v)
    requires t.states == s.states[n := verdict] && t.rank == s.rank[n := |s.rank|] && t.diags == s.diags
    ensures RankInv(prog, t)
    ensures forall m :: IsDefined(t, m) <==> IsDefined(s, m) || (m == n && verdict.Defined?)
  {
    hide FieldEdge, Edge, Reported;
    assert n !in s.rank && |t.rank| == |s.rank| + 1;
    assert forall m :: IsDefined(t, m) <==> IsDefined(s, m) || (m == n && verdict.Defined?);
    forall u, v | u in t.rank && FieldEdge(prog, u, v)
      ensures Reported(t.diags, u, v) || (v in t.rank && t.rank[v] < t.rank[u])
    {
      if u == n { assert Handled(s, n, v); }
    }
  }

  lemma EnterStep(prog: Program, s: Search, t: Search, stack: seq<Name>, n: Name)
    requires Inv(prog, s, stack) && n in s.states && s.states[n].Pending?
    requires stack != [] ==> Edge(prog, stack[|stack|-1], n)
    requires t == s.(states := s.states[n := InProgress])
    ensures Inv(prog, t, stack + [n]) && Grows(s, t, {}) && n !in PendingNames(t) && n in PendingNames(s)
  {
    hide StackInv, RankInv, VerdictInv, LayoutInv, Edge;
    StackPush(prog, s, t, stack, n);
    SameVerdicts(prog, s, t);
  }

  lemma FailStep(prog: Program, s: Search, t: Search, stack: seq<Name>, n: Name)
    requires Inv(prog, s, stack + [n]) && !Good(prog, n)
    requires forall v :: FieldEdge(prog, n, v) ==> Handled(s, n, v)
    requires t == s.(states := s.states[n := Failed], rank := s.rank[n := |s.rank|])
    ensures Inv(prog, t, stack) && Grows(s, t, {n})
  {
    hide StackInv, RankInv, FieldEdge, Edge, Good, LocallyOk, AllLaid, PoolDef, Reach;
    StackPop(prog, s, t, stack, n, Failed);
    RankSettle(prog, s, t, n, Failed);
    RankFresh(prog, s, n);
  }

  lemma RankFresh(prog: Program, s: Search, n: Name)
    requires RankInv(prog, s) && n in s.states && s.states[n].InProgress?
    ensures n !in s.rank
  {
  }

  lemma CompleteStep(prog: Program, s: Search, t: Search, stack: seq<Name>, n: Name)
    requires Inv(prog, s, stack + [n]) && n in prog.decls && LocallyOk(prog, n) && !prog.decls[n].FamilyDecl?
    requires forall v :: Edge(prog, n, v) ==> IsDefined(s, v) && Handled(s, n, v)
    requires AllLaid(PoolDef(prog, n), Elems(s.layouts))
    requires t == Search(s.states[n := Defined], s.layouts + [n], s.resolved[n := PoolDef(prog, n)], s.diags,
        s.rank[n := |s.rank|])
    ensures Inv(prog, t, stack) && Grows(s, t, {n})
  {
    hide StackInv, RankInv, FieldEdge, Good, LocallyOk, AllLaid, PoolDef, Reach, LayoutInv;
    StackPop(prog, s, t, stack, n, Defined);
    RankSettle(prog, s, t, n, Defined);
    RankFresh(prog, s, n);
    LayoutAppend(prog, s, t, n);
    assert VerdictInv(prog, t) by { hide Edge; }
  }

  lemma LayoutAppend(prog: Program, s: Search, t: Search, n: Name)
    requires LayoutInv(prog, s) && RankInv(prog, s) && n in prog.decls && !prog.decls[n].FamilyDecl?
    requires !IsDefined(s, n) && n !in s.rank
    requires forall m :: IsDefined(t, m) <==> IsDefined(s, m) || m == n
    requires AllLaid(PoolDef(prog, n), Elems(s.layouts))
    requires t.layouts == s.layouts + [n] && t.resolved == s.resolved[n := PoolDef(prog, n)]
        && t.rank == s.rank[n := |s.rank|]
    ensures LayoutInv(prog, t)
  {
    hide AllLaid, PoolDef, IsDefined, Elems, FieldEdge, Edge, Reported;
    assert n !in s.layouts;
    forall i | 0 <= i < |t.layouts|
      ensures t.layouts[i] in t.resolved && t.layouts[i] in t.rank
          && t.resolved[t.layouts[i]] == PoolDef(prog, t.layouts[i])
      ensures AllLaid(PoolDef(prog, t.layouts[i]), Elems(t.layouts[..i]))
      ensures i < |s.layouts| ==>
          t.layouts[i] == s.layouts[i] && t.rank[t.layouts[i]] == s.rank[s.layouts[i]] < |s.rank|
    {
      assert t.layouts[..i] == s.layouts[..i];
      if i < |s.layouts| {
        assert t.layouts[i] == s.layouts[i];
      } else {
        assert s.layouts[..i] == s.layouts;
      }
    }
  }

  lemma CompleteFamilyStep(prog: Program, s: Search, t: Search, stack: seq<Name>, n: Name)
    requires Inv(prog, s, stack + [n]) && n in prog.decls && prog.decls[n].FamilyDecl?
    requires forall v :: MemberEdge(prog, n, v) ==> IsDefined(s, v)
    requires t == s.(states := s.states[n := Defined], rank := s.rank[n := |s.rank|])
    ensures Inv(prog, t, stack) && Grows(s, t, {n})
  {
    hide StackInv, RankInv, Good, AllLaid, PoolDef, Reach;
    assert forall v :: !FieldEdge(prog, n, v);
    StackPop(prog, s, t, stack, n, Defined);
    RankSettle(prog, s, t, n, Defined);
    RankFresh(prog, s, n);
    hide FieldEdge, LocallyOk;
    assert VerdictInv(prog, t) by { hide LayoutInv; }
  }

  lemma ReportAdded(before: seq<Diag>, d: Diag)
    ensures Reported(before + [d], d.owner, d.target)
    ensures forall u, v :: Reported(before, u, v) ==> Reported(before + [d], u, v)
  {
    assert (before + [d])[|before|] == d;
    ReportsPersist(before, before + [d]);
  }

  lemma ReportStep(prog: Program, s: Search, t: Search, stack: seq<Name>, d: Diag)
    requires Inv(prog, s, stack) && FieldEdge(prog, d.owner, d.target) && Reach(prog, d.target, d.owner)
    requires FieldRef(prog, d.owner, d.field, d.target)
    requires t == s.(diags := s.diags + [d])
    ensures Inv(prog, t, stack) && Grows(s, t, {}) && Reported(t.diags, d.owner, d.target)
  {
    hide FieldEdge, FieldRef, Edge, Reach, Good, LocallyOk, AllLaid, PoolDef, Reported;
    ReportAdded(s.diags, d);
    assert forall m :: IsDefined(t, m) <==> IsDefined(s, m);
    assert StackInv(prog, t, stack) && LayoutInv(prog, t) by { hide RankInv, VerdictInv; }
    assert RankInv(prog, t) by { hide VerdictInv, StackInv, LayoutInv; }
    assert VerdictInv(prog, t) by { hide RankInv, StackInv, LayoutInv; }
  }

  /** A name on the search stack reaches its top. */
  lemma StackReaches(prog: Program, s: Search, stack: seq<Name>, n: Name)
    requires Inv(prog, s, stack) && n in s.states && s.states[n].InProgress?
    ensures stack != [] && Reach(prog, n, stack[|stack|-1])
  {
    var k :| 0 <= k < |stack| && stack[k] == n;
    var p := stack[k..];
    assert Walk(prog, p) && p[0] == n && p[|p|-1] == stack[|stack|-1];
  }

  lemma SettledFacts(prog: Program, s: Search, stack: seq<Name>, n: Name)
    requires Inv(prog, s, stack) && n in prog.decls
    ensures n in s.states
    ensures s.states[n].Defined? || s.states[n].Failed? ==> n in s.rank
    ensures s.states[n].Failed? ==> !Good(prog, n)
  {
  }

  lemma DefinedAreLaid(prog: Program, s: Search, stack: seq<Name>, t: TypeExpr)
    requires Inv(prog, s, stack)
    requires forall v :: TypeRefersTo(prog, t, v) ==> IsDefined(s, v)
    ensures prog.WellFormed() && RefsLaid(prog, t, Elems(s.layouts)) && Elems(s.layouts) <= prog.decls.Keys
  {
    hide FieldEdge, Good, LocallyOk, FullyLaid, Reach, TypeRefersTo;
    forall v | TypeRefersTo(prog, t, v) ensures Laid(prog, Elems(s.layouts), v) {
      if prog.decls[v].FamilyDecl? {
        forall m | m in prog.decls[v].members ensures m in s.layouts {
          assert MemberEdge(prog, v, m);
        }
      }
    }
  }

  lemma SplitRefs(prog: Program, fields: seq<FieldDecl>, f: FieldDecl)
    ensures forall v :: FieldsReferTo(prog, fields + [f], v) <==>
        FieldsReferTo(prog, fields, v) || TypeRefersTo(prog, f.ty, v)
  {
    var all := fields + [f];
    assert all[|fields|] == f;
    assert forall i :: 0 <= i < |fields| ==> all[i] == fields[i];
  }

  lemma SplitVariantRefs(prog: Program, variants: seq<Variant>, w: Variant)
    ensures forall v :: VariantsReferTo(prog, variants + [w], v) <==>
        VariantsReferTo(prog, variants, v) || FieldsReferTo(prog, w.fields, v)
  {
    var all := variants + [w];
    assert all[|variants|] == w;
    assert forall i :: 0 <= i < |variants| ==> all[i] == variants[i];
  }

  lemma VariantNamesAppend(variants: seq<Variant>, i: nat)
    requires i < |variants|
    ensures VariantNames(variants[..i+1]) == VariantNames(variants[..i]) + [variants[i].name]
    ensures variants[i].name in VariantNames(variants[..i]) ==> !Distinct(VariantNames(variants))
    ensures Distinct(VariantNames(variants[..i])) && variants[i].name !in VariantNames(variants[..i])
            ==> Distinct(VariantNames(variants[..i+1]))
  {
    DistinctAt(VariantNames(variants), i);
    assert VariantNames(variants)[..i] == VariantNames(variants[..i]);
    assert VariantNames(variants)[..i+1] == VariantNames(variants[..i+1]);
  }

  lemma FieldNamesAppend(fields: seq<FieldDecl>, i: nat)
    requires i < |fields|
    ensures FieldNames(fields[..i+1]) == FieldNames(fields[..i]) + [fields[i].name]
    ensures fields[i].name in FieldNames(fields[..i]) ==> !Distinct(FieldNames(fields))
    ensures Distinct(FieldNames(fields[..i])) && fields[i].name !in FieldNames(fields[..i])
            ==> Distinct(FieldNames(fields[..i+1]))
  {
    DistinctAt(FieldNames(fields), i);
    assert FieldNames(fields)[..i] == FieldNames(fields[..i]);
    assert FieldNames(fields)[..i+1] == FieldNames(fields[..i+1]);
  }

  lemma DistinctAt(s: seq<Name>, i: nat)
    requires i < |s|
    ensures s[..i+1] == s[..i] + [s[i]]
    ensures s[i] in s[..i] ==> !Distinct(s)
    ensures Distinct(s[..i]) && s[i] !in s[..i] ==> Distinct(s[..i+1])
  {
  }

  // ---------- What a finished search means ----------

  ghost predicate AllSettled(prog: Program, s: Search) {
    forall n :: n in prog.decls ==> n in s.states && (s.states[n].Defined? || s.states[n].Failed?)
  }

  /** From a defined name every walk stays among defined names and only goes down in rank. */
  lemma {:induction false} WalkStaysDefined(prog: Program, s: Search, p: seq<Name>)
    requires RankInv(prog, s) && Walk(prog, p) && IsDefined(s, p[0])
    ensures IsDefined(s, p[|p|-1]) && p[|p|-1] in s.rank && p[0] in s.rank
    ensures s.rank[p[|p|-1]] <= s.rank[p[0]]
  {
    if |p| > 1 {
      assert Edge(prog, p[0], p[1]);
      WalkStaysDefined(prog, s, p[1..]);
    }
  }

  lemma DefinedIsGood(prog: Program, s: Search, n: Name)
    requires Inv(prog, s, []) && IsDefined(s, n)
    ensures Good(prog, n)
  {
    forall m | Reach(prog, n, m) ensures !OnCycle(prog, m) && LocallyOk(prog, m) {
      var p :| Walk(prog, p) && p[0] == n && p[|p|-1] == m;
      WalkStaysDefined(prog, s, p);
      if OnCycle(prog, m) {
        var k :| Edge(prog, m, k) && Reach(prog, k, m);
        var q :| Walk(prog, q) && q[0] == k && q[|q|-1] == m;
        WalkStaysDefined(prog, s, q);
        assert false;
      }
    }
  }

  lemma FinalVerdicts(prog: Program, s: Search)
    requires Inv(prog, s, []) && AllSettled(prog, s)
    ensures forall n :: n in prog.decls ==> (IsDefined(s, n) <==> Good(prog, n))
  {
    forall n | n in prog.decls ensures IsDefined(s, n) <==> Good(prog, n) {
      if IsDefined(s, n) { DefinedIsGood(prog, s, n); }
    }
  }

  lemma LayoutFacts(prog: Program, s: Search)
    requires Inv(prog, s, [])
    ensures s.states.Keys == prog.decls.Keys
    ensures forall n :: n in prog.decls ==> (n in s.layouts <==> IsDefined(s, n) && !prog.decls[n].FamilyDecl?)
    ensures forall n :: n in s.layouts ==> n in prog.decls
    ensures |Elems(s.layouts)| == |s.layouts|
  {
    hide RankInv, VerdictInv;
    DistinctCard(s.layouts);
  }

  /** The outcome does not depend on the order in which declarations are visited. */
  lemma OrderIndependence(prog: Program, s: Search, t: Search)
    requires Inv(prog, s, []) && AllSettled(prog, s)
    requires Inv(prog, t, []) && AllSettled(prog, t)
    ensures s.states == t.states
    ensures Elems(s.layouts) == Elems(t.layouts) && |s.layouts| == |t.layouts|
    ensures forall n :: n in s.layouts ==> n in s.resolved && n in t.resolved && s.resolved[n] == t.resolved[n]
  {
    hide Inv, Good;
    FinalVerdicts(prog, s);
    FinalVerdicts(prog, t);
    LayoutFacts(prog, s);
    LayoutFacts(prog, t);
    forall n | n in prog.decls ensures s.states[n] == t.states[n] {
      assert IsDefined(s, n) <==> IsDefined(t, n);
    }
    forall n | n in s.layouts ensures n in s.resolved && n in t.resolved && s.resolved[n] == t.resolved[n] {
      assert n in Elems(t.layouts);
      CallIs(prog, s, n);
      CallIs(prog, t, n);
    }
  }

  lemma CallIs(prog: Program, s: Search, n: Name)
    requires Inv(prog, s, []) && n in s.layouts
    ensures n in prog.decls && n in s.resolved && s.resolved[n] == PoolDef(prog, n)
  {
    hide RankInv, VerdictInv, AllLaid, PoolDef;
    var i :| 0 <= i < |s.layouts| && s.layouts[i] == n;
  }

  /** Each define call carries the declared fields, comes after the define calls of every nominal
      type nested in them, and after those of everything the declaration contains by value. */
  lemma FieldsLaidFirst(prog: Program, s: Search, i: nat)
    requires Inv(prog, s, []) && i < |s.layouts|
    ensures var n, before := s.layouts[i], Elems(s.layouts[..i]);
      && n in prog.decls && n in s.resolved && s.resolved[n] == PoolDef(prog, n)
      && AllLaid(PoolDef(prog, n), before)
      && forall v :: FieldEdge(prog, n, v) ==> Laid(prog, before, v)
  {
    hide AllLaid, PoolDef, FieldEdge, Good, LocallyOk, Reach, StackInv;
    var n := s.layouts[i];
    forall v | FieldEdge(prog, n, v) ensures Laid(prog, Elems(s.layouts[..i]), v) {
      EdgeDeclared(prog, n, v);
      assert Edge(prog, n, v) && IsDefined(s, n);
      assert IsDefined(s, v) && s.rank[v] < s.rank[n];
      if prog.decls[v].FamilyDecl? {
        forall m | m in prog.decls[v].members ensures m in Elems(s.layouts[..i]) {
          assert MemberEdge(prog, v, m) && Edge(prog, v, m);
          LaidBefore(prog, s, i, m);
        }
      } else {
        LaidBefore(prog, s, i, v);
      }
    }
  }

  lemma EdgeDeclared(prog: Program, u: Name, v: Name)
    ensures FieldEdge(prog, u, v) ==> v in prog.decls
  {
  }

  /** What was settled before the `i`-th define call was defined by an earlier one. */
  lemma LaidBefore(prog: Program, s: Search, i: nat, v: Name)
    requires LayoutInv(prog, s) && i < |s.layouts| && s.layouts[i] in s.rank
    requires IsDefined(s, v) && v in prog.decls && !prog.decls[v].FamilyDecl? && v in s.rank
        && s.rank[v] < s.rank[s.layouts[i]]
    ensures v in Elems(s.layouts[..i])
  {
    hide AllLaid, PoolDef;
    var j :| 0 <= j < |s.layouts| && s.layouts[j] == v;
    assert j < i;
    assert s.layouts[..i][j] == v;
  }

  lemma {:induction false} DistinctCard(s: seq<Name>)
    requires Distinct(s)
    ensures |Elems(s)| == |s|
  {
    if s != [] {
      var rest := s[..|s|-1];
      DistinctCard(rest);
      assert Elems(s) == Elems(rest) + {s[|s|-1]};
    }
  }

  /** A cycle of fields and payloads, written as a closed walk. */
  ghost predicate FieldCycle(prog: Program, p: seq<Name>) {
    |p| >= 2 && p[0] == p[|p|-1] && forall i, j :: 0 <= i < j < |p| && j == i + 1 ==> FieldEdge(prog, p[i], p[j])
  }

  ghost predicate ReportedAlong(s: Search, p: seq<Name>) {
    exists i, j :: 0 <= i < j < |p| && j == i + 1 && Reported(s.diags, p[i], p[j])
  }

  lemma {:induction false} UnreportedDescends(prog: Program, s: Search, p: seq<Name>, k: nat)
    requires RankInv(prog, s) && k < |p| && p[0] in s.rank && !ReportedAlong(s, p)
    requires forall i, j :: 0 <= i < j < |p| && j == i + 1 ==> FieldEdge(prog, p[i], p[j])
    ensures p[k] in s.rank && s.rank[p[k]] + k <= s.rank[p[0]]
  {
    if k > 0 {
      UnreportedDescends(prog, s, p, k - 1);
      assert FieldEdge(prog, p[k-1], p[k]);
      assert !Reported(s.diags, p[k-1], p[k]);
    }
  }

  /** Every by-value containment cycle has one of its own edges reported. */
  lemma EveryFieldCycleReported(prog: Program, s: Search, p: seq<Name>)
    requires Inv(prog, s, []) && AllSettled(prog, s) && FieldCycle(prog, p)
    ensures ReportedAlong(s, p)
  {
    if !ReportedAlong(s, p) {
      assert FieldEdge(prog, p[0], p[1]);
      UnreportedDescends(prog, s, p, |p| - 1);
    }
  }

  lemma FieldWalkClosesCycle(prog: Program, u: Name, v: Name)
    requires forall f :: f in prog.decls ==> !prog.decls[f].FamilyDecl?
    requires FieldEdge(prog, u, v) && Reach(prog, v, u)
    ensures exists p :: FieldCycle(prog, p) && p[0] == u && p[1] == v
  {
    var q :| Walk(prog, q) && q[0] == v && q[|q|-1] == u;
    var p := [u] + q;
    forall i, j | 0 <= i < j < |p| && j == i + 1 ensures FieldEdge(prog, p[i], p[j]) {
      if i > 0 { assert Edge(prog, q[i-1], q[j-1]); }
    }
    assert FieldCycle(prog, p);
  }

  /** Without error families, `InfiniteSize` is reported exactly when some containment cycle
      exists, and then only on edges of cycles. */
  lemma InfiniteSizeIffCycle(prog: Program, s: Search)
    requires Inv(prog, s, []) && AllSettled(prog, s)
    requires forall f :: f in prog.decls ==> !prog.decls[f].FamilyDecl?
    ensures s.diags != [] <==> exists p :: FieldCycle(prog, p)
    ensures forall d :: d in s.diags ==> exists p :: FieldCycle(prog, p) && p[0] == d.owner && p[1] == d.target
    ensures forall d :: d in s.diags ==> FieldRef(prog, d.owner, d.field, d.target)
  {
    forall d | d in s.diags ensures exists p :: FieldCycle(prog, p) && p[0] == d.owner && p[1] == d.target {
      FieldWalkClosesCycle(prog, d.owner, d.target);
    }
    if s.diags != [] {
      assert s.diags[0] in s.diags;
    }
    if p :| FieldCycle(prog, p) {
      EveryFieldCycleReported(prog, s, p);
    }
  }

  /** With error families as well: a report is always about a field edge that closes a containment
      cycle, so an acyclic program gets none. */
  lemma ReportsCloseCycles(prog: Program, s: Search)
    requires Inv(prog, s, [])
    ensures forall d :: d in s.diags ==> FieldRef(prog, d.owner, d.field, d.target) && OnCycle(prog, d.owner)
    ensures (forall n :: !OnCycle(prog, n)) ==> s.diags == []
  {
    forall d | d in s.diags ensures FieldRef(prog, d.owner, d.field, d.target) && OnCycle(prog, d.owner) {
      assert Edge(prog, d.owner, d.target);
    }
    if s.diags != [] { assert s.diags[0] in s.diags; }
  }

  /** The compiler-known error contains nothing nominal. */
  lemma BuiltinFacts(prog: Program, builtin: Name, zero: Name, str: Name)
    requires builtin in prog.decls && str in prog.prims
    requires prog.decls[builtin] == ErrorDecl([FieldDecl(zero, Named(str, false))])
    ensures forall v :: !Edge(prog, builtin, v)
    ensures LocallyOk(prog, builtin)
    ensures PoolDef(prog, builtin) == [PoolVariant(builtin, [PoolField(zero, TyPrim(prog.prims[str]))])]
    ensures AllLaid(PoolDef(prog, builtin), {})
  {
    assert PoolDef(prog, builtin)[0].fields == [PoolField(zero, TyPrim(prog.prims[str]))];
  }

  lemma StartInv(prog: Program, builtin: Name, zero: Name, str: Name, s: Search)
    requires prog.WellFormed() && builtin in prog.decls
    requires prog.decls[builtin] == ErrorDecl([FieldDecl(zero, Named(str, false))]) && str in prog.prims
    requires s.states == (map n | n in prog.decls :: if n == builtin then Defined else Pending)
    requires s.layouts == [builtin] && s.diags == [] && s.rank == map[builtin := 0]
    requires s.resolved == map[builtin := [PoolVariant(builtin, [PoolField(zero, TyPrim(prog.prims[str]))])]]
    ensures Inv(prog, s, [])
  {
    BuiltinFacts(prog, builtin, zero, str);
    hide FieldEdge, LocallyOk, PoolDef, AllLaid, Good, Reach, Elems;
    assert forall n :: IsDefined(s, n) <==> n == builtin;
    assert RankInv(prog, s) by {
      assert forall v :: !Edge(prog, builtin, v);
      assert forall v :: !FieldEdge(prog, builtin, v);
    }
    assert Elems(s.layouts[..0]) == {} by { NoElems(); }
  }

  lemma NoElems()
    ensures Elems([]) == {}
  {
  }

  // ---------- The definer ----------

  class TypeDefiner {
    const prog: Program
    var states: map<Name, DefState>
    var layouts: seq<Name>
    var resolved: map<Name, seq<PoolVariant>>
    var diags: seq<Diag>
    ghost var rank: map<Name, nat>

    ghost function St(): Search
      reads this
    {
      Search(states, layouts, resolved, diags, rank)
    }

    /** Everything pending except the compiler-known error `builtin`, whose one payload field `zero`
        is a `str` and whose layout the pool already has. */
    constructor (prog: Program, builtin: Name, zero: Name, str: Name)
      requires prog.WellFormed() && builtin in prog.decls && str in prog.prims && prog.prims[str].PStr?
      requires prog.decls[builtin] == ErrorDecl([FieldDecl(zero, Named(str, false))])
      ensures this.prog == prog && Inv(prog, St(), []) && diags == [] && layouts == [builtin]
      ensures forall n :: n in prog.decls && n != builtin ==> states[n].Pending?
    {
      hide Inv;
      this.prog := prog;
      states := map n | n in prog.decls :: if n == builtin then Defined else Pending;
      layouts := [builtin];
      resolved := map[builtin := [PoolVariant(builtin, [PoolField(zero, TyPrim(PStr))])]];
      diags := [];
      rank := map[builtin := 0];
      new;
      StartInv(prog, builtin, zero, str, St());
    }

    /** The driver loop: whatever the order, every declared name ends up settled, and defined
        exactly when nothing it contains by value is on a cycle or ill-formed. */
    method DefineAll(order: seq<Name>)
      requires Inv(prog, St(), [])
      requires forall n :: n in order ==> n in prog.decls
      requires forall n :: n in prog.decls && n in states && states[n].Pending? ==> n in order
      modifies this
      ensures Inv(prog, St(), []) && AllSettled(prog, St())
      ensures forall n :: n in prog.decls ==> (IsDefined(St(), n) <==> Good(prog, n))
      ensures forall n :: n in prog.decls && !prog.decls[n].FamilyDecl? ==> (n in layouts <==> Good(prog, n))
      ensures forall n :: n in layouts ==> n in resolved && n in prog.decls && resolved[n] == PoolDef(prog, n)
      ensures old(layouts) <= layouts && old(diags) <= diags
    {
      hide Inv, Good, Grows, PoolDef;
      GrowsReflexive(St());
      for i := 0 to |order|
        invariant Inv(prog, St(), []) && Grows(old(St()), St(), {})
        invariant forall k :: 0 <= k < i ==> order[k] !in PendingNames(St())
      {
        ghost var s := St();
        Define(order[i], []);
        GrowsTransitive(old(St()), s, St(), {});
        GrowsShrinks(s, St(), {});
      }
      AllVisited(prog, old(St()), St(), order);
      FinalVerdicts(prog, St());
      LayoutFacts(prog, St());
      forall n | n in layouts ensures n in resolved && n in prog.decls && resolved[n] == PoolDef(prog, n) {
        CallIs(prog, St(), n);
      }
    }

    /** Defines one name in dependency order; it is settled on return unless it was on the stack. */
    method Define(name: Name, ghost stack: seq<Name>)
      requires Inv(prog, St(), stack) && name in prog.decls
      requires stack != [] ==> Edge(prog, stack[|stack|-1], name)
      modifies this
      ensures Inv(prog, St(), stack) && Grows(old(St()), St(), {})
      ensures name in states && !states[name].Pending?
      ensures name in old(states) && old(states)[name].Pending? ==> states[name].Defined? || states[name].Failed?
      decreases PendingNames(St()), 0
    {
      hide Inv;
      SettledFacts(prog, St(), stack, name);
      if !states[name].Pending? { return; }
      ghost var s := St();
      states := states[name := InProgress];
      ghost var t := St();
      EnterStep(prog, s, t, stack, name);
      match prog.decls[name] {
        case StructDecl(_) => DefineStruct(name, stack);
        case EnumDecl(_) => DefineEnum(name, stack);
        case FamilyDecl(_) => DefineErrorFamily(name, stack);
        case ErrorDecl(_) => DefineError(name, stack);
      }
      EnterGrows(s, t, St(), name);
    }

    /** True when the reference makes `owner` undefinable; an unknown name is left to resolution. */
    method OrderRef(owner: Name, field: Name, target: Name, ghost stack: seq<Name>) returns (bad: bool)
      requires Inv(prog, St(), stack) && stack != [] && stack[|stack|-1] == owner
      requires target in prog.decls ==> FieldEdge(prog, owner, target) && FieldRef(prog, owner, field, target)
      modifies this
      ensures Inv(prog, St(), stack) && Grows(old(St()), St(), {})
      ensures target in prog.decls && target in old(states) && old(states)[target].InProgress? ==>
                diags == old(diags) + [InfiniteSize(owner, field, target)]
      ensures target in prog.decls && target in old(states)
              && (old(states)[target].Defined? || old(states)[target].Failed?) ==>
                diags == old(diags)
      ensures bad ==> !Good(prog, owner)
      ensures target in prog.decls ==> Handled(St(), owner, target)
      ensures target in prog.decls && !bad ==> IsDefined(St(), target)
      decreases PendingNames(St()), 1
    {
      hide Inv, FieldEdge, FieldRef, Good;
      if target !in prog.decls { return false; }
      SettledFacts(prog, St(), stack, target);
      match states[target]
      case InProgress =>
        StackReaches(prog, St(), stack, target);
        CycleIsBad(prog, owner, target);
        ghost var s := St();
        diags := diags + [InfiniteSize(owner, field, target)];
        ReportStep(prog, s, St(), stack, InfiniteSize(owner, field, target));
        bad := true;
      case Pending =>
        Define(target, stack);
        SettledFacts(prog, St(), stack, target);
        bad := !states[target].Defined?;
        if bad { BadPropagates(prog, owner, target); }
      case Defined =>
        bad := false;
      case Failed =>
        BadPropagates(prog, owner, target);
        bad := true;
    }

    /** Orders the followed references of one field, in written order. */
    method OrderRefs(owner: Name, field: FieldDecl, ghost stack: seq<Name>) returns (bad: bool)
      requires Inv(prog, St(), stack) && stack != [] && stack[|stack|-1] == owner
      requires forall v :: TypeRefersTo(prog, field.ty, v) ==>
                 FieldEdge(prog, owner, v) && FieldRef(prog, owner, field.name, v)
      modifies this
      ensures Inv(prog, St(), stack) && Grows(old(St()), St(), {})
      ensures bad ==> !Good(prog, owner)
      ensures forall v :: TypeRefersTo(prog, field.ty, v) ==> Handled(St(), owner, v)
      ensures !bad ==> forall v :: TypeRefersTo(prog, field.ty, v) ==> IsDefined(St(), v)
      decreases PendingNames(St()), 2
    {
      hide Inv, FieldEdge, FieldRef, Good, Grows, Handled, IsDefined;
      var refs := NamedRefs(field.ty);
      bad := false;
      GrowsReflexive(St());
      for i := 0 to |refs|
        invariant Inv(prog, St(), stack) && Grows(old(St()), St(), {})
        invariant bad ==> !Good(prog, owner)
        invariant forall v :: Ref(v, false) in refs[..i] && Follows(prog, Ref(v, false)) ==> Handled(St(), owner, v)
        invariant !bad ==> forall v :: Ref(v, false) in refs[..i] && Follows(prog, Ref(v, false)) ==> IsDefined(St(), v)
      {
        var r := refs[i];
        assert refs[..i+1] == refs[..i] + [r];
        if !r.isView && r.name !in prog.prims {
          assert r == Ref(r.name, false);
          assert r.name in prog.decls ==> TypeRefersTo(prog, field.ty, r.name);
          GrowsShrinks(old(St()), St(), {});
          ghost var s := St();
          var b := OrderRef(owner, field.name, r.name, stack);
          GrowsTransitive(old(St()), s, St(), {});
          bad := bad || b;
        }
      }
      assert refs[..|refs|] == refs;
    }

    /** Orders every reference of the field list, then resolves each field type against the
        layouts the pool has by then. */
    method ResolveFieldList(owner: Name, fields: seq<FieldDecl>, ghost stack: seq<Name>)
      returns (resolvedFields: seq<PoolField>, failed: bool)
      requires Inv(prog, St(), stack) && stack != [] && stack[|stack|-1] == owner
      requires forall v :: FieldsReferTo(prog, fields, v) ==> FieldEdge(prog, owner, v)
      requires forall f, v :: NamesField(prog, fields, f, v) ==> FieldRef(prog, owner, f, v)
      modifies this
      ensures Inv(prog, St(), stack) && Grows(old(St()), St(), {})
      ensures forall v :: FieldsReferTo(prog, fields, v) ==> Handled(St(), owner, v)
      ensures failed ==> !Good(prog, owner) || !FieldsOk(prog, fields)
      ensures !failed ==> FieldsOk(prog, fields)
      ensures !failed ==> forall v :: FieldsReferTo(prog, fields, v) ==> IsDefined(St(), v)
      ensures !failed ==> resolvedFields == PoolFields(prog, fields) && FieldsLaid(resolvedFields, Elems(layouts))
      decreases PendingNames(St()), 3
    {
      hide Inv, FieldEdge, Good, Grows, Handled, IsDefined, FullyLaid, Resolve, FieldsReferTo, TypeRefersTo, Elems;
      resolvedFields, failed := [], false;
      GrowsReflexive(St());
      NoFieldRefs(prog);
      for i := 0 to |fields|
        invariant Inv(prog, St(), stack) && Grows(old(St()), St(), {}) && |resolvedFields| == i
        invariant forall v :: FieldsReferTo(prog, fields[..i], v) ==> Handled(St(), owner, v)
        invariant failed ==> !Good(prog, owner) || !FieldsOk(prog, fields)
        invariant !failed ==> FieldsOk(prog, fields[..i])
        invariant !failed ==> forall v :: FieldsReferTo(prog, fields[..i], v) ==> IsDefined(St(), v)
        invariant !failed ==>
                    resolvedFields == PoolFields(prog, fields[..i]) && FieldsLaid(resolvedFields, Elems(layouts))
      {
        var field := fields[i];
        assert fields[..i+1] == fields[..i] + [field];
        FieldRefsAt(prog, fields, i);
        SplitRefs(prog, fields[..i], field);
        GrowsShrinks(old(St()), St(), {});
        ghost var s := St();
        var bad := OrderRefs(owner, field, stack);
        GrowsTransitive(old(St()), s, St(), {});
        forall k | 0 <= k < i && !failed ensures FullyLaid(resolvedFields[k].ty, Elems(layouts)) {
          FullyLaidMonotone(resolvedFields[k].ty, Elems(s.layouts), Elems(layouts));
        }
        var ty := Resolve(prog, field.ty, Elems(layouts));
        if !bad {
          DefinedAreLaid(prog, St(), stack, field.ty);
          ResolveStable(prog, field.ty, Elems(layouts));
        }
        resolvedFields := resolvedFields + [PoolField(field.name, ty)];
        failed := failed || bad || ty.TyError?;
      }
      assert fields[..|fields|] == fields;
    }

    method DefineStruct(name: Name, ghost stack: seq<Name>)
      requires Inv(prog, St(), stack + [name]) && name in prog.decls && prog.decls[name].StructDecl?
      modifies this
      ensures Inv(prog, St(), stack) && Grows(old(St()), St(), {name})
      ensures name in states && (states[name].Defined? || states[name].Failed?)
      decreases PendingNames(St()), 4
    {
      hide Inv, Good, Grows, Handled, IsDefined, FullyLaid, FieldsOk, FieldsLaid;
      var fields, failed := ResolveFieldList(name, prog.decls[name].fields, stack + [name]);
      if failed {
        LocalVerdict(prog, name);
      }
      Settle(name, [PoolVariant(name, fields)], !failed, stack, old(St()));
    }

    method DefineEnum(name: Name, ghost stack: seq<Name>)
      requires Inv(prog, St(), stack + [name]) && name in prog.decls && prog.decls[name].EnumDecl?
      modifies this
      ensures Inv(prog, St(), stack) && Grows(old(St()), St(), {name})
      ensures name in states && (states[name].Defined? || states[name].Failed?)
      decreases PendingNames(St()), 4
    {
      hide Inv, Good, Grows, Handled, IsDefined, FieldsLaid, FieldsOk, FieldsReferTo, Elems, PoolFields;
      var variants := prog.decls[name].variants;
      ghost var full := stack + [name];
      GrowsReflexive(St());
      if variants == [] {
        LocalVerdict(prog, name);
        Settle(name, [], false, stack, old(St()));
        return;
      }
      var failed, payloads, seen := false, [], [];
      for i := 0 to |variants|
        invariant Inv(prog, St(), full) && Grows(old(St()), St(), {})
        invariant failed ==> !Good(prog, name) || !LocallyOk(prog, name)
        invariant !failed ==> seen == VariantNames(variants[..i]) && Distinct(seen)
        invariant forall v :: VariantsReferTo(prog, variants[..i], v) ==> Handled(St(), name, v)
        invariant !failed ==> forall j :: 0 <= j < i ==> FieldsOk(prog, variants[j].fields)
        invariant !failed ==> forall v :: VariantsReferTo(prog, variants[..i], v) ==> IsDefined(St(), v)
        invariant !failed ==> payloads == PoolVariants(prog, variants[..i]) && AllLaid(payloads, Elems(layouts))
      {
        assert variants[..i+1] == variants[..i] + [variants[i]];
        VariantNamesAppend(variants, i);
        if variants[i].name in seen {
          failed := true;
        } else {
          seen := seen + [variants[i].name];
        }
        SplitVariantRefs(prog, variants[..i], variants[i]);
        VariantRefsAt(prog, variants, i);
        GrowsShrinks(old(St()), St(), {});
        ghost var s := St();
        var fields, f := ResolveFieldList(name, variants[i].fields, full);
        GrowsTransitive(old(St()), s, St(), {});
        if !failed { AllLaidMonotone(payloads, Elems(s.layouts), Elems(layouts)); }
        payloads := payloads + [PoolVariant(variants[i].name, fields)];
        failed := failed || f;
      }
      assert variants[..|variants|] == variants;
      if failed {
        LocalVerdict(prog, name);
      }
      Settle(name, payloads, !failed, stack, old(St()));
    }

    method DefineError(name: Name, ghost stack: seq<Name>)
      requires Inv(prog, St(), stack + [name]) && name in prog.decls && prog.decls[name].ErrorDecl?
      modifies this
      ensures Inv(prog, St(), stack) && Grows(old(St()), St(), {name})
      ensures name in states && (states[name].Defined? || states[name].Failed?)
      decreases PendingNames(St()), 4
    {
      hide Inv, Good, Grows, Handled, IsDefined, FullyLaid, FieldsOk, FieldsLaid;
      var fields := prog.decls[name].fields;
      var failed := false;
      var seen := [];
      for i := 0 to |fields|
        invariant St() == old(St())
        invariant failed ==> !Distinct(FieldNames(fields))
        invariant !failed ==> seen == FieldNames(fields[..i]) && Distinct(seen)
      {
        FieldNamesAppend(fields, i);
        if fields[i].name in seen {
          failed := true;
        } else {
          seen := seen + [fields[i].name];
        }
      }
      assert fields[..|fields|] == fields;
      GrowsReflexive(St());
      var payload, f := ResolveFieldList(name, fields, stack + [name]);
      if failed || f {
        LocalVerdict(prog, name);
      }
      Settle(name, [PoolVariant(name, payload)], !failed && !f, stack, old(St()));
    }

    /** Records the verdict on the name at the top of the search stack; a success is the pool
        define call for it, with the declared fields and all their types laid out. */
    method Settle(name: Name, variants: seq<PoolVariant>, ok: bool, ghost stack: seq<Name>, ghost start: Search)
      requires Inv(prog, St(), stack + [name]) && name in prog.decls && !prog.decls[name].FamilyDecl?
      requires Grows(start, St(), {})
      requires forall v :: FieldEdge(prog, name, v) ==> Handled(St(), name, v)
      requires !ok ==> !Good(prog, name)
      requires ok ==> LocallyOk(prog, name) && forall v :: FieldEdge(prog, name, v) ==> IsDefined(St(), v)
      requires ok ==> variants == PoolDef(prog, name) && AllLaid(variants, Elems(layouts))
      modifies this
      ensures Inv(prog, St(), stack) && Grows(start, St(), {name})
      ensures states == old(states)[name := if ok then Defined else Failed]
      ensures layouts == if ok then old(layouts) + [name] else old(layouts)
      ensures resolved == if ok then old(resolved)[name := PoolDef(prog, name)] else old(resolved)
      ensures diags == old(diags)
    {
      hide Inv, Good, Grows, Handled, IsDefined, AllLaid, FieldEdge;
      ghost var s := St();
      rank := rank[name := |rank|];
      if ok {
        states := states[name := Defined];
        layouts := layouts + [name];
        resolved := resolved[name := variants];
        CompleteStep(prog, s, St(), stack, name);
      } else {
        states := states[name := Failed];
        FailStep(prog, s, St(), stack, name);
      }
      GrowsThen(start, s, St(), name);
    }

    /** A family is as good as its members; a member still in progress fails it silently. */
    method DefineErrorFamily(name: Name, ghost stack: seq<Name>)
      requires Inv(prog, St(), stack + [name]) && name in prog.decls && prog.decls[name].FamilyDecl?
      modifies this
      ensures Inv(prog, St(), stack) && Grows(old(St()), St(), {name})
      ensures name in states && (states[name].Defined? || states[name].Failed?)
      decreases PendingNames(St()), 4
    {
      hide Inv, Good, Grows, Handled;
      var members := prog.decls[name].members;
      ghost var full := stack + [name];
      var defined := true;
      GrowsReflexive(St());
      MembersDeclared(prog, St(), full, name);
      for i := 0 to |members|
        invariant Inv(prog, St(), full) && Grows(old(St()), St(), {})
        invariant !defined ==> !Good(prog, name)
        invariant defined ==> forall k :: 0 <= k < i ==> IsDefined(St(), members[k])
      {
        var m := members[i];
        assert MemberEdge(prog, name, m);
        GrowsShrinks(old(St()), St(), {});
        ghost var s := St();
        Define(m, full);
        GrowsTransitive(old(St()), s, St(), {});
        SettledFacts(prog, St(), full, m);
        if states[m].InProgress? {
          StackReaches(prog, St(), full, m);
          CycleIsBad(prog, name, m);
        } else if states[m].Failed? {
          BadPropagates(prog, name, m);
        }
        defined := defined && states[m].Defined?;
      }
      ghost var s := St();
      states := states[name := if defined then Defined else Failed];
      rank := rank[name := |rank|];
      if defined {
        CompleteFamilyStep(prog, s, St(), stack, name);
      } else {
        FailStep(prog, s, St(), stack, name);
      }
      GrowsThen(old(St()), s, St(), name);
    }
  }

  // ---------- Proof support for the definer ----------

  lemma EnterGrows(s: Search, t: Search, r: Search, n: Name)
    requires n in s.states && s.states[n].Pending?
    requires Grows(s, t, {}) && Grows(t, r, {n})
    ensures Grows(s, r, {})
  {
  }

  lemma GrowsThen(s: Search, t: Search, r: Search, n: Name)
    requires Grows(s, t, {}) && Grows(t, r, {n})
    ensures Grows(s, r, {n})
  {
  }

  lemma GrowsReflexive(s: Search)
    ensures Grows(s, s, {})
  {
  }

  lemma GrowsShrinks(s: Search, t: Search, except: set<Name>)
    requires Grows(s, t, except)
    ensures PendingNames(t) <= PendingNames(s)
  {
  }

  lemma AllVisited(prog: Program, s: Search, t: Search, order: seq<Name>)
    requires Inv(prog, t, []) && Grows(s, t, {})
    requires forall n :: n in prog.decls && n in s.states && s.states[n].Pending? ==> n in order
    requires forall k :: 0 <= k < |order| ==> order[k] !in PendingNames(t)
    ensures AllSettled(prog, t) && s.diags <= t.diags && s.layouts <= t.layouts
  {
    hide RankInv, VerdictInv, LayoutInv;
  }

  lemma LocalVerdict(prog: Program, n: Name)
    ensures !LocallyOk(prog, n) ==> !Good(prog, n)
  {
    ReachRefl(prog, n);
  }

  lemma MembersDeclared(prog: Program, s: Search, stack: seq<Name>, f: Name)
    requires Inv(prog, s, stack) && f in prog.decls && prog.decls[f].FamilyDecl?
    ensures forall m :: m in prog.decls[f].members ==> m in prog.decls
  {
  }

  lemma NoFieldRefs(prog: Program)
    ensures forall v :: !FieldsReferTo(prog, [], v)
  {
  }

  lemma FieldRefsAt(prog: Program, fields: seq<FieldDecl>, i: nat)
    requires i < |fields|
    ensures forall v :: TypeRefersTo(prog, fields[i].ty, v) ==> FieldsReferTo(prog, fields, v)
  {
  }

  lemma VariantRefsAt(prog: Program, variants: seq<Variant>, i: nat)
    requires i < |variants|
    ensures forall v :: FieldsReferTo(prog, variants[i].fields, v) ==> VariantsReferTo(prog, variants, v)
  {
  }
}
