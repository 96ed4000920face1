/** What the printer draws: the tree of every expression, written down apart from the printer, and the proof that
    the printed text is its drawing and is read back as it. */
module AstTrees {
  import opened Common
  import opened AstPretty
  import D = Drawing

  type Tree = D.Tree

  function Marked(last: bool): D.Mark { if last then D.Last else D.Later }

  function Spanned(caption: string, name: string, span: string): string { caption + name + " (" + span + ")" }

  function Of(name: string, detail: string): string { name + "(" + detail + ")" }

  // ---------- The trees ----------

  function Name(kind: Kind): string {
    match kind
    case Literal(text) => Of("Literal", text)
    case Ident(name) => Of("Ident", name)
    case BinaryOp(_, op, _) => Of("BinaryOp", op)
    case UnaryOp(op, _) => Of("UnaryOp", op)
    case Call(name, _) => Of("Call", name)
    case MethodCall(_, name, _) => Of("MethodCall", "." + name)
    case Borrow(_) => "Borrow"
    case Slice(_, _, _) => "Slice"
    case Index(_, _) => "Index"
    case StructLiteral(None, _) => "StructLiteral(anonymous)"
    case StructLiteral(Some(name), _) => Of("StructLiteral", name)
    case FieldAccess(_, field) => Of("FieldAccess", "." + field)
    case VariantConstruct(enumName, variant, _) => Of("VariantConstruct", enumName + "." + variant)
    case Match(_, _) => "Match"
    case ErrorConstruct(error, _) => Of("ErrorConstruct", error)
    case Try(_) => "Try"
    case Catch(_, None, _) => "Catch"
    case Catch(_, Some(name), _) => Of("Catch", "as " + name)
  }

  /** An expression's node; its children are its operands in source order, each with its role as a caption. */
  function ExprTree(e: Expr, last: bool, caption: string): Tree
    decreases e, 3
  {
    D.Tree(Marked(last), Spanned(caption, Name(e.kind), e.span), Operands(e))
  }

  function Operands(e: Expr): seq<Tree>
    decreases e, 2
  {
    match e.kind
    case Literal(_) => []
    case Ident(_) => []
    case BinaryOp(lhs, _, rhs) => [ExprTree(lhs, false, ""), ExprTree(rhs, true, "")]
    case UnaryOp(_, operand) => [ExprTree(operand, true, "")]
    case Call(_, args) => ExprTrees(args)
    case MethodCall(receiver, _, args) => [ExprTree(receiver, args == [], "recv: ")] + ExprTrees(args)
    case Borrow(inner) => [ExprTree(inner, true, "")]
    case Slice(base, from, to) =>
      [ExprTree(base, false, "base: "),
       if from.Some? then ExprTree(from.value, false, "start: ") else D.Tree(D.Later, "start: <none>", []),
       if to.Some? then ExprTree(to.value, true, "end: ") else D.Tree(D.Last, "end: <none>", [])]
    case Index(base, index) => [ExprTree(base, false, "base: "), ExprTree(index, true, "index: ")]
    case StructLiteral(_, inits) => InitTrees(inits)
    case FieldAccess(owner, _) => [ExprTree(owner, true, "object: ")]
    case VariantConstruct(_, _, payload) => PayloadTrees(payload)
    case Match(scrutinee, arms) => [ExprTree(scrutinee, arms == [], "scrut: ")] + ArmTrees(arms)
    case ErrorConstruct(_, payload) => PayloadTrees(payload)
    case Try(operand) => [ExprTree(operand, true, "operand: ")]
    case Catch(operand, _, Handler(Value(handler))) =>
      [ExprTree(operand, false, "operand: "), ExprTree(handler, true, "handler: ")]
    case Catch(operand, _, Handler(Stmts(stmts))) =>
      [ExprTree(operand, false, "operand: "), D.Tree(D.Last, "handler:", StmtTrees(stmts))]
    case Catch(operand, _, Arms(arms)) => [ExprTree(operand, arms == [], "operand: ")] + ArmTrees(arms)
  }

  function ExprTrees(args: seq<Expr>): seq<Tree>
    decreases args, 0
  {
    seq(|args|, i requires 0 <= i < |args| => ExprTree(args[i], i + 1 == |args|, ""))
  }

  function InitTrees(inits: seq<Init>): seq<Tree>
    decreases inits, 0
  {
    seq(|inits|, i requires 0 <= i < |inits| => ExprTree(inits[i].value, i + 1 == |inits|, inits[i].name + ": "))
  }

  function PayloadTrees(payload: Args): seq<Tree>
    decreases payload, 0
  {
    match payload
    case NoArgs => []
    case Positional(list) => ExprTrees(list)
    case Named(inits) => InitTrees(inits)
  }

  /** An arm's node, numbered from 0: its pattern, then its body. */
  function ArmTrees(arms: seq<Arm>): seq<Tree>
    decreases arms, 0
  {
    seq(|arms|, i requires 0 <= i < |arms| => ArmTree(arms[i], i, i + 1 == |arms|))
  }

  function ArmTree(arm: Arm, index: nat, last: bool): Tree
    decreases arm, 1
  {
    D.Tree(Marked(last), "arm[" + Decimal(index) + "]:",
           [PatternTree(arm.pattern, false, "pat: ")] + BodyTrees(arm.body))
  }

  function BodyTrees(body: ArmBody): seq<Tree>
    decreases body, 0
  {
    match body
    case Value(expr) => [ExprTree(expr, true, "body: ")]
    case Stmts(stmts) => StmtTrees(stmts)
  }

  function StmtTrees(stmts: seq<Stmt>): seq<Tree>
    decreases stmts, 0
  {
    seq(|stmts|, i requires 0 <= i < |stmts| => StmtTree(stmts[i], i + 1 == |stmts|))
  }

  /** A statement's node; below a title line, when there is one, its parts. */
  function StmtTree(stmt: Stmt, last: bool): Tree
    decreases stmt, 1
  {
    D.Tree(Marked(last), stmt.head,
           if stmt.title.Some? then [D.Tree(D.Title, stmt.title.value, PartTrees(stmt.parts))]
           else PartTrees(stmt.parts))
  }

  function PartTrees(parts: seq<Part>): seq<Tree>
    decreases parts, 0
  {
    seq(|parts|, i requires 0 <= i < |parts| => PartTree(parts[i]))
  }

  function PartTree(part: Part): Tree
    decreases part, 0
  {
    match part
    case Line(text, last) => D.Tree(Marked(last), text, [])
    case Piece(expr, last, caption) => ExprTree(expr, last, caption)
    case Under(heading, init) => D.Tree(D.Last, heading, [ExprTree(init, true, "")])
    case PatternPiece(pattern, last, caption) => PatternTree(pattern, last, caption)
    case Block(header, last, stmts) => D.Tree(Marked(last), header, StmtTrees(stmts))
  }

  function PatternLabel(kind: PatternKind): string {
    match kind
    case Wildcard => "Wildcard"
    case Bind(name) => Of("Bind", name)
    case LiteralPattern(text) => Of("Literal", text)
    case Anon(_) => "Anon"
    case Tuple(_) => "Positional"
    case Variant(None, variant, _) => Of("Variant", variant)
    case Variant(Some(enumName), variant, _) => Of("Variant", enumName + "." + variant)
  }

  function PatternTree(pattern: Pattern, last: bool, caption: string): Tree
    decreases pattern, 1
  {
    D.Tree(Marked(last), Spanned(caption, PatternLabel(pattern.kind), pattern.span), Params(pattern))
  }

  function Params(pattern: Pattern): seq<Tree>
    decreases pattern, 0
  {
    match pattern.kind
    case Wildcard => []
    case Bind(_) => []
    case LiteralPattern(_) => []
    case Anon(fields) => seq(|fields|, i requires 0 <= i < |fields| => FieldLeaf(fields[i], i + 1 == |fields|))
    case Tuple(elems) => seq(|elems|, i requires 0 <= i < |elems| => PatternTree(elems[i], i + 1 == |elems|, ""))
    case Variant(_, _, args) => ArgLeaves(args)
  }

  function FieldLeaf(field: PatternField, last: bool): Tree {
    match field
    case Pun(name) => D.Tree(Marked(last), ": " + name, [])
    case Rename(name, bind) => D.Tree(Marked(last), ": " + name + " = " + bind, [])
    case Equal(name, text) => D.Tree(Marked(last), ": " + name + " = " + text, [])
    case AnyField => D.Tree(Marked(last), ": _", [])
  }

  function ArgLeaves(args: seq<PatternArg>): seq<Tree> {
    seq(|args|, i requires 0 <= i < |args| => ArgLeaf(args[i], i + 1 == |args|))
  }

  function ArgLeaf(arg: PatternArg, last: bool): Tree {
    match arg
    case PatternArg(None, None) => D.Tree(Marked(last), ": _", [])
    case PatternArg(None, Some(bind)) => D.Tree(Marked(last), ": " + bind, [])
    case PatternArg(Some(name), None) => D.Tree(Marked(last), ": " + name + " = _", [])
    case PatternArg(Some(name), Some(bind)) => D.Tree(Marked(last), ": " + name + " = " + bind, [])
  }

  // ---------- The printer draws these trees ----------

  lemma {:induction false} ConcatDraws(texts: seq<string>, ts: seq<Tree>, p: string)
    requires |texts| == |ts| && forall i :: 0 <= i < |ts| ==> texts[i] == D.Draw(ts[i], p)
    ensures Concat(texts) == D.DrawAll(ts, p)
  {
    hide D.Draw;
    if texts != [] { ConcatDraws(texts[1..], ts[1..], p); }
  }

  lemma DrawFew(a: Tree, b: Tree, c: Tree, rest: seq<Tree>, p: string)
    ensures D.DrawAll([], p) == "" && D.DrawAll([a], p) == D.Draw(a, p)
    ensures D.DrawAll([a, b], p) == D.Draw(a, p) + D.Draw(b, p)
    ensures D.DrawAll([a, b, c], p) == D.Draw(a, p) + D.Draw(b, p) + D.Draw(c, p)
    ensures D.DrawAll([a] + rest, p) == D.Draw(a, p) + D.DrawAll(rest, p)
  {
    hide D.Draw;
    assert D.DrawAll([], p) == "" && [a][1..] == [] && [b][1..] == [] && [c][1..] == [];
    assert D.DrawAll([c], p) == D.Draw(c, p) && D.DrawAll([b], p) == D.Draw(b, p);
    assert [b, c][1..] == [c] && [a, b][1..] == [b] && [a, b, c][1..] == [b, c];
    assert D.DrawAll([b, c], p) == D.Draw(b, p) + D.Draw(c, p);
    assert ([a] + rest)[1..] == rest;
  }

  /** A node's own line, and where its children are drawn. */
  lemma NodeDraws(t: Tree, last: bool, p: string)
    requires t.mark == Marked(last)
    ensures D.Draw(t, p) == p + Connector(last) + t.text + "\n" + D.DrawAll(t.children, p + Continuation(last))
  {
    hide D.DrawAll;
  }

  lemma OfSplit(name: string, a: string, b: string)
    ensures Of(name, a + b) == (name + "(" + a) + b + ")"
  {
    assert name + "(" + (a + b) == (name + "(" + a) + b;
  }

  lemma NameAgrees(kind: Kind)
    ensures HeadName(kind) == Name(kind)
  {
    match kind
    case MethodCall(_, name, _) =>
      OfSplit("MethodCall", ".", name);
      assert "MethodCall" + "(" + "." == "MethodCall(.";
    case FieldAccess(_, field) =>
      OfSplit("FieldAccess", ".", field);
      assert "FieldAccess" + "(" + "." == "FieldAccess(.";
    case VariantConstruct(enumName, variant, _) => VariantNameAgrees(enumName, variant);
    case Catch(_, Some(name), _) =>
      OfSplit("Catch", "as ", name);
      assert "Catch" + "(" + "as " == "Catch(as ";
    case _ => PlainNameAgrees(kind);
  }

  lemma VariantNameAgrees(enumName: string, variant: string)
    ensures "VariantConstruct(" + enumName + "." + variant + ")" == Of("VariantConstruct", enumName + "." + variant)
  {
    OfSplit("VariantConstruct", enumName + ".", variant);
    assert "VariantConstruct" + "(" == "VariantConstruct(";
    assert "VariantConstruct(" + (enumName + ".") == "VariantConstruct(" + enumName + ".";
  }

  lemma PlainNameAgrees(kind: Kind)
    requires !kind.MethodCall? && !kind.FieldAccess? && !kind.VariantConstruct? && !(kind.Catch? && kind.binding.Some?)
    ensures HeadName(kind) == Name(kind)
  {
    assert "StructLiteral(" + "anonymous" + ")" == "StructLiteral(anonymous)";
    assert "StructLiteral" + "(" == "StructLiteral(" && "ErrorConstruct" + "(" == "ErrorConstruct(";
    assert "Literal" + "(" == "Literal(" && "Ident" + "(" == "Ident(" && "BinaryOp" + "(" == "BinaryOp(";
    assert "UnaryOp" + "(" == "UnaryOp(" && "Call" + "(" == "Call(";
  }

  lemma HeaderAgrees(e: Expr, p: string, last: bool, caption: string)
    ensures Header(e, p, last, caption) == p + Connector(last) + Spanned(caption, Name(e.kind), e.span) + "\n"
  {
    hide Name, HeadName, Connector;
    NameAgrees(e.kind);
  }

  /** What the printer writes for an expression is the drawing of its tree. */
  lemma {:induction false} RenderDraws(e: Expr, p: string, last: bool, caption: string)
    ensures Render(e, p, last, caption) == D.Draw(ExprTree(e, last, caption), p)
    decreases e, 4
  {
    hide RenderChildren, D.Draw, D.DrawAll, Operands, Header, Connector, Continuation, Spanned, Name;
    HeaderAgrees(e, p, last, caption);
    NodeDraws(ExprTree(e, last, caption), last, p);
    OperandsDraw(e, p + Continuation(last));
  }

  lemma NoneDraws(p: string, last: bool, caption: string)
    ensures NoneText(p, last, caption) == D.Draw(D.Tree(Marked(last), caption + "<none>", []), p)
  {
  }

  lemma {:induction false} OperandsDraw(e: Expr, p: string)
    ensures RenderChildren(e, p) == D.DrawAll(Operands(e), p)
    decreases e, 3
  {
    hide Render, RenderArm, RenderStmt, RenderPayload, Concat, NoneText, D.Draw, D.DrawAll, ExprTree;
    hide ExprTrees, InitTrees, PayloadTrees, ArmTrees, StmtTrees;
    var ts := Operands(e);
    match e.kind
    case Literal(_) => NothingDrawn(p);
    case Ident(_) => NothingDrawn(p);
    case BinaryOp(lhs, _, rhs) => TwoDraw(e, p, lhs, rhs, "", "");
    case UnaryOp(_, operand) => OneDraws(e, p, operand, "");
    case Call(_, args) => ExprsDraw(args, p);
    case MethodCall(receiver, _, args) =>
      RenderDraws(receiver, p, args == [], "recv: ");
      ExprsDraw(args, p);
      DrawFew(ts[0], ts[0], ts[0], ExprTrees(args), p);
    case Borrow(inner) => OneDraws(e, p, inner, "");
    case Slice(base, from, to) => SliceDraws(e, p);
    case Index(base, index) => TwoDraw(e, p, base, index, "base: ", "index: ");
    case StructLiteral(_, inits) => InitsDraw(inits, p);
    case FieldAccess(owner, _) => OneDraws(e, p, owner, "object: ");
    case VariantConstruct(_, _, payload) => PayloadDraws(payload, p);
    case Match(scrutinee, arms) =>
      RenderDraws(scrutinee, p, arms == [], "scrut: ");
      ArmsDraw(arms, p);
      DrawFew(ts[0], ts[0], ts[0], ArmTrees(arms), p);
    case ErrorConstruct(_, payload) => PayloadDraws(payload, p);
    case Try(operand) => OneDraws(e, p, operand, "operand: ");
    case Catch(_, _, _) => CatchDraws(e, p);
  }

  lemma NothingDrawn(p: string)
    ensures D.DrawAll([], p) == ""
  {
  }

  lemma {:induction false} OneDraws(e: Expr, p: string, operand: Expr, caption: string)
    requires e decreases to operand
    ensures D.DrawAll([ExprTree(operand, true, caption)], p) == Render(operand, p, true, caption)
    decreases e, 1
  {
    hide Render, D.Draw, D.DrawAll, ExprTree;
    RenderDraws(operand, p, true, caption);
    var t := ExprTree(operand, true, caption);
    DrawFew(t, t, t, [], p);
  }

  lemma {:induction false} TwoDraw(e: Expr, p: string, a: Expr, b: Expr, captionA: string, captionB: string)
    requires (e decreases to a) && (e decreases to b)
    ensures D.DrawAll([ExprTree(a, false, captionA), ExprTree(b, true, captionB)], p)
         == Render(a, p, false, captionA) + Render(b, p, true, captionB)
    decreases e, 1
  {
    hide Render, D.Draw, D.DrawAll, ExprTree;
    RenderDraws(a, p, false, captionA);
    RenderDraws(b, p, true, captionB);
    var s, t := ExprTree(a, false, captionA), ExprTree(b, true, captionB);
    DrawFew(s, t, t, [], p);
  }

  lemma {:induction false} SliceDraws(e: Expr, p: string)
    requires e.kind.Slice?
    ensures RenderChildren(e, p) == D.DrawAll(Operands(e), p)
    decreases e, 2
  {
    hide Render, NoneText, D.Draw, D.DrawAll, ExprTree;
    var ts := Operands(e);
    RenderDraws(e.kind.base, p, false, "base: ");
    if e.kind.from.Some? {
      RenderDraws(e.kind.from.value, p, false, "start: ");
    } else {
      NoneDraws(p, false, "start: ");
    }
    if e.kind.to.Some? { RenderDraws(e.kind.to.value, p, true, "end: "); } else { NoneDraws(p, true, "end: "); }
    DrawFew(ts[0], ts[1], ts[2], [], p);
    assert "start: " + "<none>" == "start: <none>" && "end: " + "<none>" == "end: <none>";
    assert ts == [ts[0], ts[1], ts[2]];
  }

  lemma {:induction false} CatchDraws(e: Expr, p: string)
    requires e.kind.Catch?
    ensures RenderChildren(e, p) == D.DrawAll(Operands(e), p)
    decreases e, 2
  {
    hide Render, RenderArm, RenderStmt, Concat, D.Draw, D.DrawAll;
    hide ExprTree, ArmTrees, StmtTrees, Connector, Continuation;
    var ts, operand := Operands(e), e.kind.operand;
    match e.kind.body
    case Handler(Value(handler)) => TwoDraw(e, p, operand, handler, "operand: ", "handler: ");
    case Handler(Stmts(stmts)) =>
      RenderDraws(operand, p, false, "operand: ");
      StmtsDraw(stmts, p + Continuation(true));
      NodeDraws(ts[1], true, p);
      DrawFew(ts[0], ts[1], ts[1], [], p);
    case Arms(arms) =>
      RenderDraws(operand, p, arms == [], "operand: ");
      ArmsDraw(arms, p);
      DrawFew(ts[0], ts[0], ts[0], ArmTrees(arms), p);
  }

  lemma {:induction false} ExprsDraw(args: seq<Expr>, p: string)
    ensures Concat(seq(|args|, i requires 0 <= i < |args| => Render(args[i], p, i == |args| - 1, "")))
         == D.DrawAll(ExprTrees(args), p)
    decreases args, 0
  {
    hide Render, Concat, D.Draw, D.DrawAll, ExprTree;
    forall i | 0 <= i < |args|
      ensures Render(args[i], p, i == |args| - 1, "") == D.Draw(ExprTrees(args)[i], p)
    {
      RenderDraws(args[i], p, i == |args| - 1, "");
    }
    ConcatDraws(seq(|args|, i requires 0 <= i < |args| => Render(args[i], p, i == |args| - 1, "")), ExprTrees(args), p);
  }

  lemma {:induction false} InitsDraw(inits: seq<Init>, p: string)
    ensures Concat(seq(|inits|, i requires 0 <= i < |inits| =>
              Render(inits[i].value, p, i == |inits| - 1, inits[i].name + ": ")))
         == D.DrawAll(InitTrees(inits), p)
    decreases inits, 0
  {
    hide Render, Concat, D.Draw, D.DrawAll, ExprTree;
    forall i | 0 <= i < |inits|
      ensures Render(inits[i].value, p, i == |inits| - 1, inits[i].name + ": ") == D.Draw(InitTrees(inits)[i], p)
    {
      RenderDraws(inits[i].value, p, i == |inits| - 1, inits[i].name + ": ");
    }
    ConcatDraws(seq(|inits|, i requires 0 <= i < |inits| =>
        Render(inits[i].value, p, i == |inits| - 1, inits[i].name + ": ")), InitTrees(inits), p);
  }

  lemma {:induction false} PayloadDraws(payload: Args, p: string)
    ensures RenderPayload(payload, p) == D.DrawAll(PayloadTrees(payload), p)
    decreases payload, 0
  {
    hide Render, Concat, D.DrawAll, ExprTrees, InitTrees;
    match payload
    case NoArgs => NothingDrawn(p);
    case Positional(list) => ExprsDraw(list, p);
    case Named(inits) => InitsDraw(inits, p);
  }

  lemma {:induction false} ArmsDraw(arms: seq<Arm>, p: string)
    ensures Concat(seq(|arms|, i requires 0 <= i < |arms| => RenderArm(arms[i], p, i, i == |arms| - 1)))
         == D.DrawAll(ArmTrees(arms), p)
    decreases arms, 0
  {
    hide RenderArm, Concat, D.Draw, D.DrawAll, ArmTree;
    forall i | 0 <= i < |arms| ensures RenderArm(arms[i], p, i, i == |arms| - 1) == D.Draw(ArmTrees(arms)[i], p) {
      ArmDraws(arms[i], p, i, i == |arms| - 1);
    }
    ConcatDraws(seq(|arms|, i requires 0 <= i < |arms| => RenderArm(arms[i], p, i, i == |arms| - 1)),
                ArmTrees(arms), p);
  }

  lemma {:induction false} ArmDraws(arm: Arm, p: string, index: nat, last: bool)
    ensures RenderArm(arm, p, index, last) == D.Draw(ArmTree(arm, index, last), p)
    decreases arm, 1
  {
    hide RenderPattern, RenderArmBody, D.Draw, D.DrawAll, PatternTree, BodyTrees, Connector, Continuation, Decimal;
    var t, q := ArmTree(arm, index, last), p + Continuation(last);
    NodeDraws(t, last, p);
    PatternDraws(arm.pattern, q, false, "pat: ");
    BodyDraws(arm.body, q);
    DrawFew(t.children[0], t, t, BodyTrees(arm.body), q);
  }

  lemma {:induction false} BodyDraws(body: ArmBody, q: string)
    ensures RenderArmBody(body, q) == D.DrawAll(BodyTrees(body), q)
    decreases body, 0
  {
    hide Render, RenderStmt, Concat, D.Draw, D.DrawAll, ExprTree, StmtTrees;
    match body
    case Value(expr) =>
      RenderDraws(expr, q, true, "body: ");
      var t := ExprTree(expr, true, "body: ");
      DrawFew(t, t, t, [], q);
    case Stmts(stmts) => StmtsDraw(stmts, q);
  }

  lemma {:induction false} StmtsDraw(stmts: seq<Stmt>, p: string)
    ensures Concat(seq(|stmts|, i requires 0 <= i < |stmts| => RenderStmt(stmts[i], p, i == |stmts| - 1)))
         == D.DrawAll(StmtTrees(stmts), p)
    decreases stmts, 0
  {
    hide RenderStmt, Concat, D.Draw, D.DrawAll, StmtTree;
    forall i | 0 <= i < |stmts| ensures RenderStmt(stmts[i], p, i == |stmts| - 1) == D.Draw(StmtTrees(stmts)[i], p) {
      StmtDraws(stmts[i], p, i == |stmts| - 1);
    }
    ConcatDraws(seq(|stmts|, i requires 0 <= i < |stmts| => RenderStmt(stmts[i], p, i == |stmts| - 1)),
                StmtTrees(stmts), p);
  }

  lemma {:induction false} StmtDraws(stmt: Stmt, p: string, last: bool)
    ensures RenderStmt(stmt, p, last) == D.Draw(StmtTree(stmt, last), p)
    decreases stmt, 1
  {
    hide RenderParts, D.Draw, D.DrawAll, PartTrees, Connector, Continuation;
    var t, q := StmtTree(stmt, last), p + Continuation(last);
    var line := p + Connector(last) + stmt.head + "\n";
    NodeDraws(t, last, p);
    PartsDraw(stmt.parts, Inner(stmt, q));
    var title := if stmt.title.Some? then q + stmt.title.value + "\n" else "";
    assert RenderStmt(stmt, p, last) == line + title + RenderParts(stmt.parts, Inner(stmt, q));
    if stmt.title.Some? {
      TitleDraws(stmt.title.value, PartTrees(stmt.parts), q);
      DrawFew(t.children[0], t, t, [], q);
      Concat3(line, title, D.DrawAll(PartTrees(stmt.parts), q + "  "));
    } else {
      assert line + "" == line;
    }
  }

  lemma Concat3(a: string, b: string, c: string)
    ensures a + (b + c) == a + b + c
  {
  }

  lemma TitleDraws(title: string, parts: seq<Tree>, q: string)
    ensures D.Draw(D.Tree(D.Title, title, parts), q) == q + title + "\n" + D.DrawAll(parts, q + "  ")
  {
    hide D.DrawAll;
  }

  lemma {:induction false} PartsDraw(parts: seq<Part>, p: string)
    ensures RenderParts(parts, p) == D.DrawAll(PartTrees(parts), p)
    decreases parts, 0
  {
    hide RenderPart, Concat, D.Draw, D.DrawAll, PartTree;
    var texts := seq(|parts|, i requires 0 <= i < |parts| => RenderPart(parts[i], p));
    forall i | 0 <= i < |parts| ensures texts[i] == D.Draw(PartTrees(parts)[i], p) {
      PartDraws(parts[i], p);
    }
    ConcatDraws(texts, PartTrees(parts), p);
  }

  lemma {:induction false} PartDraws(part: Part, p: string)
    ensures RenderPart(part, p) == D.Draw(PartTree(part), p)
    decreases part, 0
  {
    hide Render, RenderPattern, RenderStmt, Concat, D.Draw, D.DrawAll, ExprTree, PatternTree, StmtTrees;
    hide Connector, Continuation;
    var t := PartTree(part);
    match part
    case Line(text, last) =>
      NodeDraws(t, last, p);
      NothingDrawn(p + Continuation(last));
    case Piece(expr, last, caption) => RenderDraws(expr, p, last, caption);
    case Under(heading, init) =>
      NodeDraws(t, true, p);
      RenderDraws(init, p + Continuation(true), true, "");
      DrawFew(t.children[0], t, t, [], p + Continuation(true));
    case PatternPiece(pattern, last, caption) => PatternDraws(pattern, p, last, caption);
    case Block(header, last, stmts) =>
      NodeDraws(t, last, p);
      StmtsDraw(stmts, p + Continuation(last));
  }

  lemma PatternNameAgrees(kind: PatternKind)
    ensures PatternName(kind) == PatternLabel(kind)
  {
    assert "Bind" + "(" == "Bind(" && "Literal" + "(" == "Literal(" && "Variant" + "(" == "Variant(";
    if kind.Variant? {
      if kind.enumName.Some? {
        OfSplit("Variant", kind.enumName.value + ".", kind.variant);
      } else {
        assert "" + kind.variant == kind.variant;
        assert "Variant(" + "" == "Variant(";
      }
    }
  }

  /** What a pattern's own line is followed by. */
  function ParamsText(kind: PatternKind, q: string): string {
    match kind
    case Wildcard => ""
    case Bind(_) => ""
    case LiteralPattern(_) => ""
    case Anon(fields) => Concat(seq(|fields|, i requires 0 <= i < |fields| =>
        TargetLine(q, i == |fields| - 1, FieldTarget(fields[i]))))
    case Tuple(elems) => Concat(seq(|elems|, i requires 0 <= i < |elems| =>
        RenderPattern(elems[i], q, i == |elems| - 1, "")))
    case Variant(_, _, args) =>
        Concat(seq(|args|, i requires 0 <= i < |args| => TargetLine(q, i == |args| - 1, ArgTarget(args[i]))))
  }

  lemma PatternText(pattern: Pattern, p: string, last: bool, caption: string)
    ensures RenderPattern(pattern, p, last, caption)
         == p + Connector(last) + (caption + PatternName(pattern.kind) + " (" + pattern.span + ")") + "\n"
            + ParamsText(pattern.kind, p + Continuation(last))
  {
    hide Connector, Continuation, PatternName, TargetLine, FieldTarget, ArgTarget, Concat;
    var name := caption + PatternName(pattern.kind) + " (" + pattern.span + ")";
    assert p + Connector(last) + caption + PatternName(pattern.kind) + " (" + pattern.span + ")\n"
        == p + Connector(last) + name + "\n";
  }

  lemma {:induction false} PatternDraws(pattern: Pattern, p: string, last: bool, caption: string)
    ensures RenderPattern(pattern, p, last, caption) == D.Draw(PatternTree(pattern, last, caption), p)
    decreases pattern, 1
  {
    var t, q := PatternTree(pattern, last, caption), p + Continuation(last);
    PatternNameAgrees(pattern.kind);
    hide PatternName, PatternLabel, ParamsText, Params, RenderPattern, D.Draw, D.DrawAll, Connector, Continuation;
    NodeDraws(t, last, p);
    PatternText(pattern, p, last, caption);
    ParamsDraw(pattern, q);
  }

  /** The children of a pattern, kind by kind. */
  lemma {:induction false} ParamsDraw(pattern: Pattern, q: string)
    ensures ParamsText(pattern.kind, q) == D.DrawAll(Params(pattern), q)
    decreases pattern, 0, 1
  {
    hide D.Draw, D.DrawAll, Concat, RenderPattern, FieldLeaf, ArgLeaf, ArgLeaves, TargetLine, FieldTarget, ArgTarget;
    match pattern.kind
    case Wildcard => NothingDrawn(q);
    case Bind(_) => NothingDrawn(q);
    case LiteralPattern(_) => NothingDrawn(q);
    case Anon(fields) => FieldsDraw(fields, q);
    case Tuple(elems) => ElemsDraw(pattern, elems, q);
    case Variant(_, _, args) => ArgsDraw(args, q);
  }

  lemma FieldsDraw(fields: seq<PatternField>, q: string)
    ensures Concat(seq(|fields|, i requires 0 <= i < |fields| =>
              TargetLine(q, i == |fields| - 1, FieldTarget(fields[i]))))
         == D.DrawAll(seq(|fields|, i requires 0 <= i < |fields| => FieldLeaf(fields[i], i + 1 == |fields|)), q)
  {
    hide D.Draw, D.DrawAll, Concat, FieldLeaf, TargetLine, FieldTarget;
    var texts := seq(|fields|, i requires 0 <= i < |fields| =>
        TargetLine(q, i == |fields| - 1, FieldTarget(fields[i])));
    var ts := seq(|fields|, i requires 0 <= i < |fields| => FieldLeaf(fields[i], i + 1 == |fields|));
    forall i | 0 <= i < |fields| ensures texts[i] == D.Draw(ts[i], q) {
      FieldDraws(fields[i], q, i == |fields| - 1);
    }
    ConcatDraws(texts, ts, q);
  }

  lemma {:induction false} ElemsDraw(pattern: Pattern, elems: seq<Pattern>, q: string)
    requires forall i :: 0 <= i < |elems| ==> (pattern decreases to elems[i])
    ensures Concat(seq(|elems|, i requires 0 <= i < |elems| => RenderPattern(elems[i], q, i == |elems| - 1, "")))
         == D.DrawAll(seq(|elems|, i requires 0 <= i < |elems| => PatternTree(elems[i], i + 1 == |elems|, "")), q)
    decreases pattern, 0, 0
  {
    hide D.Draw, D.DrawAll, Concat, RenderPattern, PatternTree;
    var texts := seq(|elems|, i requires 0 <= i < |elems| => RenderPattern(elems[i], q, i == |elems| - 1, ""));
    var ts := seq(|elems|, i requires 0 <= i < |elems| => PatternTree(elems[i], i + 1 == |elems|, ""));
    forall i | 0 <= i < |elems| ensures texts[i] == D.Draw(ts[i], q) {
      PatternDraws(elems[i], q, i == |elems| - 1, "");
    }
    ConcatDraws(texts, ts, q);
  }

  lemma ArgsDraw(args: seq<PatternArg>, q: string)
    ensures Concat(seq(|args|, i requires 0 <= i < |args| => TargetLine(q, i == |args| - 1, ArgTarget(args[i]))))
         == D.DrawAll(ArgLeaves(args), q)
  {
    hide D.Draw, D.DrawAll, Concat, ArgLeaf, TargetLine, ArgTarget;
    var texts := seq(|args|, i requires 0 <= i < |args| => TargetLine(q, i == |args| - 1, ArgTarget(args[i])));
    forall i | 0 <= i < |args| ensures texts[i] == D.Draw(ArgLeaves(args)[i], q) {
      ArgDraws(args[i], q, i == |args| - 1);
    }
    ConcatDraws(texts, ArgLeaves(args), q);
  }

  lemma FieldDraws(field: PatternField, q: string, last: bool)
    ensures TargetLine(q, last, FieldTarget(field)) == D.Draw(FieldLeaf(field, last), q)
  {
    NodeDraws(FieldLeaf(field, last), last, q);
    NothingDrawn(q + Continuation(last));
    hide D.Draw, D.DrawAll, Connector, Continuation;
  }

  lemma ArgDraws(arg: PatternArg, q: string, last: bool)
    ensures TargetLine(q, last, ArgTarget(arg)) == D.Draw(ArgLeaf(arg, last), q)
  {
    NodeDraws(ArgLeaf(arg, last), last, q);
    NothingDrawn(q + Continuation(last));
    hide D.Draw, D.DrawAll, Connector, Continuation;
  }

  // ---------- Sibling marks ----------

  /** Every node but the last of its siblings is drawn as having a later one. */
  ghost predicate SiblingsMarked(ts: seq<Tree>) {
    forall i :: 0 <= i < |ts| ==> ts[i].mark == if i + 1 == |ts| then D.Last else D.Later
  }

  /** The connectors tell the truth about siblings at every node, but for the pattern of an arm whose block is
      empty: it is drawn as having a later sibling, and has none. */
  lemma ConnectorsTell(e: Expr, arm: Arm, index: nat, last: bool, pattern: Pattern, stmts: seq<Stmt>)
    ensures SiblingsMarked(Operands(e)) && SiblingsMarked(Params(pattern)) && SiblingsMarked(StmtTrees(stmts))
    ensures SiblingsMarked(ArmTree(arm, index, last).children) <==> arm.body != Stmts([])
  {
    hide *;
    ArmMarks(arm, index, last);
    OperandMarks(e);
    ParamMarks(pattern);
    StmtMarks(stmts);
  }

  lemma ListMarks(args: seq<Expr>, inits: seq<Init>, arms: seq<Arm>)
    ensures |ExprTrees(args)| == |args| && SiblingsMarked(ExprTrees(args))
    ensures |InitTrees(inits)| == |inits| && SiblingsMarked(InitTrees(inits))
    ensures |ArmTrees(arms)| == |arms| && SiblingsMarked(ArmTrees(arms))
  {
    hide Name, Spanned, Operands, PatternTree, BodyTrees, Decimal;
  }

  /** A first child before other marked ones. */
  lemma FirstMarked(t: Tree, ts: seq<Tree>)
    requires SiblingsMarked(ts) && t.mark == Marked(ts == [])
    ensures SiblingsMarked([t] + ts)
  {
  }

  lemma TreeMark(e: Expr, last: bool, caption: string)
    ensures ExprTree(e, last, caption).mark == Marked(last)
  {
    hide Name, Spanned, Operands;
  }

  lemma OperandMarks(e: Expr)
    ensures SiblingsMarked(Operands(e))
  {
    hide Name, Spanned, StmtTrees, ArmTrees, ExprTrees, InitTrees, ExprTree, SiblingsMarked;
    match e.kind
    case Call(_, args) => ListMarks(args, [], []);
    case MethodCall(receiver, _, args) =>
      ListMarks(args, [], []);
      TreeMark(receiver, args == [], "recv: ");
      FirstMarked(ExprTree(receiver, args == [], "recv: "), ExprTrees(args));
    case StructLiteral(_, inits) => ListMarks([], inits, []);
    case VariantConstruct(_, _, payload) => PayloadMarks(payload);
    case ErrorConstruct(_, payload) => PayloadMarks(payload);
    case Match(scrutinee, arms) =>
      ListMarks([], [], arms);
      TreeMark(scrutinee, arms == [], "scrut: ");
      FirstMarked(ExprTree(scrutinee, arms == [], "scrut: "), ArmTrees(arms));
    case Catch(operand, _, Arms(arms)) =>
      ListMarks([], [], arms);
      TreeMark(operand, arms == [], "operand: ");
      FirstMarked(ExprTree(operand, arms == [], "operand: "), ArmTrees(arms));
    case _ => FixedMarks(e);
  }

  lemma PayloadMarks(payload: Args)
    ensures SiblingsMarked(PayloadTrees(payload))
  {
    hide ExprTrees, InitTrees;
    match payload
    case NoArgs =>
    case Positional(list) => ListMarks(list, [], []);
    case Named(inits) => ListMarks([], inits, []);
  }

  /** The kinds with a fixed number of operands. */
  lemma FixedMarks(e: Expr)
    requires !e.kind.Call? && !e.kind.MethodCall? && !e.kind.StructLiteral? && !e.kind.VariantConstruct?
    requires !e.kind.ErrorConstruct? && !e.kind.Match? && !(e.kind.Catch? && e.kind.body.Arms?)
    ensures SiblingsMarked(Operands(e))
  {
    hide Name, Spanned, StmtTrees;
  }

  lemma ArmMarks(arm: Arm, index: nat, last: bool)
    ensures SiblingsMarked(ArmTree(arm, index, last).children) <==> arm.body != Stmts([])
  {
    hide Name, Spanned, Decimal, Operands, Params, StmtTrees;
    var first := PatternTree(arm.pattern, false, "pat: ");
    var ts := [first] + BodyTrees(arm.body);
    assert ArmTree(arm, index, last).children == ts && ts[0].mark == D.Later;
    match arm.body
    case Value(expr) =>
      TreeMark(expr, true, "body: ");
      assert BodyTrees(arm.body) == [ExprTree(expr, true, "body: ")];
      assert ts == [first, ExprTree(expr, true, "body: ")];
    case Stmts(stmts) =>
      StmtMarks(stmts);
      assert BodyTrees(arm.body) == StmtTrees(stmts);
      if stmts == [] {
        assert |ts| == 1;
      } else {
        FirstMarked(first, StmtTrees(stmts));
      }
  }

  lemma StmtMarks(stmts: seq<Stmt>)
    ensures |StmtTrees(stmts)| == |stmts| && SiblingsMarked(StmtTrees(stmts))
  {
    hide PartTrees;
  }

  lemma ParamMarks(pattern: Pattern)
    ensures SiblingsMarked(Params(pattern))
  {
    hide PatternLabel, Spanned;
  }

  // ---------- Arm numbers ----------

  function ReadDecimal(s: string): int {
    if s == "" then 0 else 10 * ReadDecimal(s[..|s|-1]) + (s[|s|-1] as int - '0' as int)
  }

  /** An arm's number is its decimal numeral, without leading zeros. */
  lemma {:induction false} DecimalReads(n: nat)
    ensures ReadDecimal(Decimal(n)) == n && Decimal(n) != ""
    ensures forall i :: 0 <= i < |Decimal(n)| ==> '0' <= Decimal(n)[i] <= '9'
    ensures Decimal(n)[0] == '0' ==> n == 0
  {
    var s := Decimal(n);
    if n >= 10 {
      DecimalReads(n / 10);
      assert s[..|s|-1] == Decimal(n / 10) && s[0] == Decimal(n / 10)[0];
    } else {
      assert s[..|s|-1] == "" && ReadDecimal("") == 0;
    }
  }

  // ---------- Reading the print-out ----------

  /** The printed text of an expression without line breaks in its texts is read back, line by line and then by
      columns alone, as the expression's tree. */
  lemma PrintReadsBack(e: Expr)
    requires D.Clean(ExprTree(e, true, ""))
    ensures D.ReadText(Render(e, "", true, "")) == D.Rows(ExprTree(e, true, ""), [], 0)
    ensures D.Build(D.ReadText(Render(e, "", true, ""))) == [ExprTree(e, true, "")]
  {
    hide *;
    RenderDraws(e, "", true, "");
    D.DrawingReads(ExprTree(e, true, ""));
  }
}
