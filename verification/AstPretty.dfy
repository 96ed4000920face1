/** The tree-drawing printer: an explicit task stack against the recursive definition. */
module AstPretty {
  import opened Common

  /** An expression with its span as printed. */
  datatype Expr = Expr(kind: Kind, span: string)

  datatype Kind =
    | Literal(text: string)
    | Ident(name: string)
    | BinaryOp(lhs: Expr, op: string, rhs: Expr)
    | UnaryOp(op: string, operand: Expr)
    | Call(name: string, args: seq<Expr>)
    | MethodCall(receiver: Expr, name: string, args: seq<Expr>)
    | Borrow(inner: Expr)
    | Slice(base: Expr, from: Option<Expr>, to: Option<Expr>)
    | Index(base: Expr, index: Expr)
    | StructLiteral(structName: Option<string>, inits: seq<Init>)
    | FieldAccess(owner: Expr, field: string)
    | VariantConstruct(enumName: string, variant: string, payload: Args)
    | Match(scrutinee: Expr, arms: seq<Arm>)
    | ErrorConstruct(error: string, payload: Args)
    | Try(operand: Expr)
    | Catch(operand: Expr, binding: Option<string>, body: CatchBody)

  datatype Init = Init(name: string, value: Expr)

  datatype Args = NoArgs | Positional(list: seq<Expr>) | Named(inits: seq<Init>)

  datatype CatchBody = Handler(handler: ArmBody) | Arms(arms: seq<Arm>)

  datatype ArmBody = Value(expr: Expr) | Stmts(stmts: seq<Stmt>)

  datatype Arm = Arm(pattern: Pattern, body: ArmBody)

  /** A destructuring pattern with its span as printed. */
  datatype Pattern = Pattern(kind: PatternKind, span: string)

  datatype PatternKind =
    | Wildcard
    | Bind(name: string)
    | LiteralPattern(text: string)
    | Anon(fields: seq<PatternField>)
    | Tuple(elems: seq<Pattern>)
    | Variant(enumName: Option<string>, variant: string, args: seq<PatternArg>)

  datatype PatternField =
    | Pun(name: string)
    | Rename(name: string, bind: string)
    | Equal(name: string, text: string)
    | AnyField

  /** A variant argument; without a binding it is a wildcard. */
  datatype PatternArg = PatternArg(name: Option<string>, bind: Option<string>)

  /** A statement: its own line, for most kinds a title line under it, and its parts in order, indented by
      two below a title. */
  datatype Stmt = Stmt(head: string, title: Option<string>, parts: seq<Part>)

  /** A text of its own, an expression, one under a heading, a pattern, or a block of statements. */
  datatype Part =
    | Line(text: string, last: bool)
    | Piece(expr: Expr, last: bool, caption: string)
    | Under(heading: string, init: Expr)
    | PatternPiece(pattern: Pattern, last: bool, caption: string)
    | Block(header: string, last: bool, stmts: seq<Stmt>)

  function Connector(last: bool): string { if last then "└── " else "├── " }

  function Continuation(last: bool): string { if last then "    " else "│   " }

  function HeadName(kind: Kind): string {
    match kind
    case Literal(text) => "Literal(" + text + ")"
    case Ident(name) => "Ident(" + name + ")"
    case BinaryOp(_, op, _) => "BinaryOp(" + op + ")"
    case UnaryOp(op, _) => "UnaryOp(" + op + ")"
    case Call(name, _) => "Call(" + name + ")"
    case MethodCall(_, name, _) => "MethodCall(." + name + ")"
    case Borrow(_) => "Borrow"
    case Slice(_, _, _) => "Slice"
    case Index(_, _) => "Index"
    case StructLiteral(name, _) => "StructLiteral(" + (if name.Some? then name.value else "anonymous") + ")"
    case FieldAccess(_, field) => "FieldAccess(." + field + ")"
    case VariantConstruct(enumName, variant, _) => "VariantConstruct(" + enumName + "." + variant + ")"
    case Match(_, _) => "Match"
    case ErrorConstruct(error, _) => "ErrorConstruct(" + error + ")"
    case Try(_) => "Try"
    case Catch(_, binding, _) => if binding.Some? then "Catch(as " + binding.value + ")" else "Catch"
  }

  /** A node's own line. */
  function Header(e: Expr, prefix: string, last: bool, caption: string): string {
    prefix + Connector(last) + caption + HeadName(e.kind) + " (" + e.span + ")\n"
  }

  function NoneText(prefix: string, last: bool, caption: string): string {
    prefix + Connector(last) + caption + "<none>\n"
  }

  function Concat(texts: seq<string>): string { if texts == [] then "" else texts[0] + Concat(texts[1..]) }

  // ---------- The recursive printer ----------

  /** The text of an expression tree. */
  function Render(e: Expr, prefix: string, last: bool, caption: string): string
    decreases e, 1
  {
    Header(e, prefix, last, caption) + RenderChildren(e, prefix + Continuation(last))
  }

  /** The text of a node's children, kind by kind. */
  function RenderChildren(e: Expr, p: string): string
    decreases e, 0
  {
    match e.kind
    case Literal(_) => ""
    case Ident(_) => ""
    case BinaryOp(lhs, _, rhs) => Render(lhs, p, false, "") + Render(rhs, p, true, "")
    case UnaryOp(_, operand) => Render(operand, p, true, "")
    case Call(_, args) => Concat(seq(|args|, i requires 0 <= i < |args| => Render(args[i], p, i == |args| - 1, "")))
    case MethodCall(receiver, _, args) =>
      Render(receiver, p, args == [], "recv: ")
      + Concat(seq(|args|, i requires 0 <= i < |args| => Render(args[i], p, i == |args| - 1, "")))
    case Borrow(inner) => Render(inner, p, true, "")
    case Slice(base, from, to) =>
      Render(base, p, false, "base: ")
      + (if from.Some? then Render(from.value, p, false, "start: ") else NoneText(p, false, "start: "))
      + (if to.Some? then Render(to.value, p, true, "end: ") else NoneText(p, true, "end: "))
    case Index(base, index) => Render(base, p, false, "base: ") + Render(index, p, true, "index: ")
    case StructLiteral(_, inits) =>
      Concat(seq(|inits|, i requires 0 <= i < |inits| =>
          Render(inits[i].value, p, i == |inits| - 1, inits[i].name + ": ")))
    case FieldAccess(owner, _) => Render(owner, p, true, "object: ")
    case VariantConstruct(_, _, payload) => RenderPayload(payload, p)
    case Match(scrutinee, arms) =>
      Render(scrutinee, p, arms == [], "scrut: ")
      + Concat(seq(|arms|, i requires 0 <= i < |arms| => RenderArm(arms[i], p, i, i == |arms| - 1)))
    case ErrorConstruct(_, payload) => RenderPayload(payload, p)
    case Try(operand) => Render(operand, p, true, "operand: ")
    case Catch(operand, _, body) =>
      (match body
       case Handler(Value(handler)) => Render(operand, p, false, "operand: ") + Render(handler, p, true, "handler: ")
       case Handler(Stmts(stmts)) =>
         Render(operand, p, false, "operand: ")
         + (p + Connector(true) + "handler:\n"
            + Concat(seq(|stmts|, i requires 0 <= i < |stmts| =>
                RenderStmt(stmts[i], p + Continuation(true), i == |stmts| - 1))))
       case Arms(arms) =>
         Render(operand, p, arms == [], "operand: ")
         + Concat(seq(|arms|, i requires 0 <= i < |arms| => RenderArm(arms[i], p, i, i == |arms| - 1))))
  }

  function RenderPayload(payload: Args, p: string): string
    decreases payload
  {
    match payload
    case NoArgs => ""
    case Positional(list) => Concat(seq(|list|, i requires 0 <= i < |list| => Render(list[i], p, i == |list| - 1, "")))
    case Named(inits) =>
      Concat(seq(|inits|, i requires 0 <= i < |inits| =>
          Render(inits[i].value, p, i == |inits| - 1, inits[i].name + ": ")))
  }

  function RenderArm(arm: Arm, p: string, index: nat, last: bool): string {
    var q := p + Continuation(last);
    p + Connector(last) + "arm[" + Decimal(index) + "]:\n"
    + RenderPattern(arm.pattern, q, false, "pat: ")
    + RenderArmBody(arm.body, q)
  }

  function PatternName(kind: PatternKind): string {
    match kind
    case Wildcard => "Wildcard"
    case Bind(name) => "Bind(" + name + ")"
    case LiteralPattern(text) => "Literal(" + text + ")"
    case Anon(_) => "Anon"
    case Tuple(_) => "Positional"
    case Variant(enumName, variant, _) =>
        "Variant(" + (if enumName.Some? then enumName.value + "." else "") + variant + ")"
  }

  function FieldTarget(field: PatternField): string {
    match field
    case Pun(name) => name
    case Rename(name, bind) => name + " = " + bind
    case Equal(name, text) => name + " = " + text
    case AnyField => "_"
  }

  function ArgTarget(arg: PatternArg): string {
    (if arg.name.Some? then arg.name.value + " = " else "") + (if arg.bind.Some? then arg.bind.value else "_")
  }

  /** A scalar child of a pattern, on a line of its own. */
  function TargetLine(p: string, last: bool, target: string): string { p + Connector(last) + ": " + target + "\n" }

  /** The text of a pattern tree. */
  function RenderPattern(pattern: Pattern, prefix: string, last: bool, caption: string): string {
    var q := prefix + Continuation(last);
    prefix + Connector(last) + caption + PatternName(pattern.kind) + " (" + pattern.span + ")\n"
    + match pattern.kind
      case Wildcard => ""
      case Bind(_) => ""
      case LiteralPattern(_) => ""
      case Anon(fields) => Concat(seq(|fields|, i requires 0 <= i < |fields| =>
          TargetLine(q, i == |fields| - 1, FieldTarget(fields[i]))))
      case Tuple(elems) => Concat(seq(|elems|, i requires 0 <= i < |elems| =>
          RenderPattern(elems[i], q, i == |elems| - 1, "")))
      case Variant(_, _, args) =>
          Concat(seq(|args|, i requires 0 <= i < |args| => TargetLine(q, i == |args| - 1, ArgTarget(args[i]))))
  }

  function RenderArmBody(body: ArmBody, q: string): string {
    match body
    case Value(expr) => Render(expr, q, true, "body: ")
    case Stmts(stmts) => Concat(seq(|stmts|, i requires 0 <= i < |stmts| => RenderStmt(stmts[i], q, i == |stmts| - 1)))
  }

  function RenderStmt(stmt: Stmt, prefix: string, last: bool): string {
    var q := prefix + Continuation(last);
    prefix + Connector(last) + stmt.head + "\n"
    + (if stmt.title.Some? then q + stmt.title.value + "\n" else "")
    + RenderParts(stmt.parts, Inner(stmt, q))
  }

  function RenderParts(parts: seq<Part>, p: string): string {
    Concat(seq(|parts|, i requires 0 <= i < |parts| => RenderPart(parts[i], p)))
  }

  function Inner(stmt: Stmt, q: string): string { if stmt.title.Some? then q + "  " else q }

  function RenderPart(part: Part, p: string): string {
    match part
    case Line(text, last) => p + Connector(last) + text + "\n"
    case Piece(expr, last, caption) => Render(expr, p, last, caption)
    case Under(heading, init) =>
      p + Connector(true) + heading + "\n" + Render(init, p + Continuation(true), true, "")
    case PatternPiece(pattern, last, caption) => RenderPattern(pattern, p, last, caption)
    case Block(header, last, stmts) =>
      p + Connector(last) + header + "\n"
      + Concat(seq(|stmts|, i requires 0 <= i < |stmts| =>
          RenderStmt(stmts[i], p + Continuation(last), i == |stmts| - 1)))
  }

  function Decimal(n: nat): string {
    if n < 10 then [('0' as int + n) as char] else Decimal(n / 10) + [('0' as int + n % 10) as char]
  }

  // ---------- Scheduled children ----------

  datatype Child = Node(expr: Expr, last: bool, caption: string) | Missing(last: bool, caption: string)

  /** Kinds whose children interleave text that is no expression's. */
  predicate Delegated(e: Expr) {
    e.kind.Match? || (e.kind.Catch? && (e.kind.body.Arms? || e.kind.body.handler.Stmts?))
  }

  function ArgChildren(args: seq<Expr>): (r: seq<Child>)
    ensures |r| == |args|
    ensures forall i :: 0 <= i < |r| ==> r[i] == Node(args[i], i == |args| - 1, "")
  {
    seq(|args|, i requires 0 <= i < |args| => Node(args[i], i == |args| - 1, ""))
  }

  function InitChildren(inits: seq<Init>): (r: seq<Child>)
    ensures |r| == |inits|
    ensures forall i :: 0 <= i < |r| ==> r[i] == Node(inits[i].value, i == |inits| - 1, inits[i].name + ": ")
  {
    seq(|inits|, i requires 0 <= i < |inits| => Node(inits[i].value, i == |inits| - 1, inits[i].name + ": "))
  }

  function PayloadChildren(payload: Args): seq<Child> {
    match payload
    case NoArgs => []
    case Positional(list) => ArgChildren(list)
    case Named(inits) => InitChildren(inits)
  }

  /** `push_expr_children`. */
  function ExprChildren(e: Expr): (r: seq<Child>)
    requires !Delegated(e)
    ensures forall c :: c in r && c.Node? ==> (e decreases to c.expr)
  {
    match e.kind
    case Literal(_) => []
    case Ident(_) => []
    case BinaryOp(lhs, _, rhs) => [Node(lhs, false, ""), Node(rhs, true, "")]
    case UnaryOp(_, operand) => [Node(operand, true, "")]
    case Call(_, args) => ArgChildren(args)
    case MethodCall(receiver, _, args) => [Node(receiver, args == [], "recv: ")] + ArgChildren(args)
    case Borrow(inner) => [Node(inner, true, "")]
    case Slice(base, from, to) =>
      [Node(base, false, "base: "),
       if from.Some? then Node(from.value, false, "start: ") else Missing(false, "start: "),
       if to.Some? then Node(to.value, true, "end: ") else Missing(true, "end: ")]
    case Index(base, index) => [Node(base, false, "base: "), Node(index, true, "index: ")]
    case StructLiteral(_, inits) => InitChildren(inits)
    case FieldAccess(owner, _) => [Node(owner, true, "object: ")]
    case VariantConstruct(_, _, payload) => PayloadChildren(payload)
    case ErrorConstruct(_, payload) => PayloadChildren(payload)
    case Try(operand) => [Node(operand, true, "operand: ")]
    case Catch(operand, _, body) => [Node(operand, false, "operand: "), Node(body.handler.expr, true, "handler: ")]
  }

  function RenderChild(c: Child, p: string): string {
    match c
    case Node(expr, last, caption) => Render(expr, p, last, caption)
    case Missing(last, caption) => NoneText(p, last, caption)
  }

  function RenderScheduled(children: seq<Child>, p: string): string {
    if children == [] then "" else RenderChild(children[0], p) + RenderScheduled(children[1..], p)
  }

  lemma FewScheduled(a: Child, b: Child, c: Child, p: string)
    ensures RenderScheduled([], p) == ""
    ensures RenderScheduled([a], p) == RenderChild(a, p)
    ensures RenderScheduled([a, b], p) == RenderChild(a, p) + RenderChild(b, p)
    ensures RenderScheduled([a, b, c], p) == RenderChild(a, p) + RenderChild(b, p) + RenderChild(c, p)
  {
    hide RenderChild;
    assert [a][1..] == [] && [a, b][1..] == [b] && [a, b, c][1..] == [b, c];
    assert RenderScheduled([], p) == "";
    assert RenderScheduled([a], p) == RenderChild(a, p);
    assert [b][1..] == [] && [b, c][1..] == [c] && [c][1..] == [];
    assert RenderScheduled([c], p) == RenderChild(c, p);
    assert RenderScheduled([b, c], p) == RenderChild(b, p) + RenderChild(c, p);
  }

  /** A schedule whose children spell `texts` spells their concatenation. */
  lemma {:induction false} ScheduledConcat(children: seq<Child>, p: string, texts: seq<string>)
    requires |texts| == |children| && forall i :: 0 <= i < |children| ==> RenderChild(children[i], p) == texts[i]
    ensures RenderScheduled(children, p) == Concat(texts)
  {
    hide RenderChild;
    if children != [] { ScheduledConcat(children[1..], p, texts[1..]); }
  }

  lemma ArgsAgree(args: seq<Expr>, p: string)
    ensures RenderScheduled(ArgChildren(args), p)
         == Concat(seq(|args|, i requires 0 <= i < |args| => Render(args[i], p, i == |args| - 1, "")))
  {
    hide Render;
    ScheduledConcat(ArgChildren(args), p,
        seq(|args|, i requires 0 <= i < |args| => Render(args[i], p, i == |args| - 1, "")));
  }

  lemma InitsAgree(inits: seq<Init>, p: string)
    ensures RenderScheduled(InitChildren(inits), p)
         == Concat(seq(|inits|, i requires 0 <= i < |inits| =>
             Render(inits[i].value, p, i == |inits| - 1, inits[i].name + ": ")))
  {
    hide Render;
    ScheduledConcat(InitChildren(inits), p,
      seq(|inits|, i requires 0 <= i < |inits| => Render(inits[i].value, p, i == |inits| - 1, inits[i].name + ": ")));
  }

  /** Scheduled children spell what the recursive printer writes for the children. */
  lemma ScheduleAgrees(e: Expr, p: string)
    requires !Delegated(e)
    ensures RenderScheduled(ExprChildren(e), p) == RenderChildren(e, p)
  {
    hide Render, RenderScheduled, RenderArm, RenderStmt, Concat, ArgChildren, InitChildren, NoneText;
    var kids := ExprChildren(e);
    match e.kind
    case Call(_, args) => ArgsAgree(args, p);
    case MethodCall(receiver, _, args) =>
      ArgsAgree(args, p);
      ScheduledFirst(kids[0], ArgChildren(args), p);
    case StructLiteral(_, inits) => InitsAgree(inits, p);
    case VariantConstruct(_, _, payload) => PayloadAgrees(e, payload, p);
    case ErrorConstruct(_, payload) => PayloadAgrees(e, payload, p);
    case Slice(_, _, _) => FewScheduled(kids[0], kids[1], kids[2], p);
    case BinaryOp(_, _, _) => FewScheduled(kids[0], kids[1], kids[1], p);
    case Index(_, _) => FewScheduled(kids[0], kids[1], kids[1], p);
    case Catch(_, _, _) => FewScheduled(kids[0], kids[1], kids[1], p);
    case Literal(_) => NoneScheduled(p);
    case Ident(_) => NoneScheduled(p);
    case UnaryOp(_, _) | Borrow(_) | FieldAccess(_, _) | Try(_) => FewScheduled(kids[0], kids[0], kids[0], p);
  }

  lemma NoneScheduled(p: string)
    ensures RenderScheduled([], p) == ""
  {
  }

  lemma ScheduledFirst(c: Child, rest: seq<Child>, p: string)
    ensures RenderScheduled([c] + rest, p) == RenderChild(c, p) + RenderScheduled(rest, p)
  {
    assert ([c] + rest)[1..] == rest;
  }

  lemma PayloadAgrees(e: Expr, payload: Args, p: string)
    requires (e.kind.VariantConstruct? || e.kind.ErrorConstruct?) && e.kind.payload == payload
    ensures RenderScheduled(PayloadChildren(payload), p) == RenderChildren(e, p)
  {
    hide Render, RenderScheduled, Concat, ArgChildren, InitChildren;
    match payload
    case NoArgs => NoneScheduled(p);
    case Positional(list) => ArgsAgree(list, p);
    case Named(inits) => InitsAgree(inits, p);
  }

  // ---------- The iterative printer ----------

  datatype Task =
    | Enter(expr: Expr, last: bool, caption: string)
    | NoneLine(last: bool, caption: string)
    | Leave(mark: nat)

  function TaskOf(c: Child): Task {
    match c
    case Node(expr, last, caption) => Enter(expr, last, caption)
    case Missing(last, caption) => NoneLine(last, caption)
  }

  /** `String::truncate`: no effect past the end. */
  function Truncate(s: string, mark: nat): string { if mark <= |s| then s[..mark] else s }

  /** What the tasks on the stack, top last, will still write from the current prefix. */
  function Pending(stack: seq<Task>, prefix: string): string {
    if stack == [] then ""
    else
      var rest := stack[..|stack|-1];
      match stack[|stack|-1]
      case Enter(expr, last, caption) => Render(expr, prefix, last, caption) + Pending(rest, prefix)
      case NoneLine(last, caption) => NoneText(prefix, last, caption) + Pending(rest, prefix)
      case Leave(mark) => Pending(rest, Truncate(prefix, mark))
  }

  function Sum(s: seq<nat>): nat { if s == [] then 0 else s[0] + Sum(s[1..]) }

  /** Turns of the driver's loop that a node takes. */
  function Turns(e: Expr): (r: nat)
    ensures r >= 2
  {
    if Delegated(e) then 2
    else
      var kids := ExprChildren(e);
      2 + Sum(seq(|kids|, i requires 0 <= i < |kids| => if kids[i].Node? then Turns(kids[i].expr) else 1))
  }

  function ChildTurns(c: Child): nat { if c.Node? then Turns(c.expr) else 1 }

  function TurnsOf(children: seq<Child>): nat {
    if children == [] then 0 else ChildTurns(children[0]) + TurnsOf(children[1..])
  }

  function StackTurns(stack: seq<Task>): nat {
    if stack == [] then 0
    else (if stack[|stack|-1].Enter? then Turns(stack[|stack|-1].expr) else 1) + StackTurns(stack[..|stack|-1])
  }

  lemma {:induction false} TurnsSum(children: seq<Child>, turns: seq<nat>)
    requires |turns| == |children| && forall i :: 0 <= i < |turns| ==> turns[i] == ChildTurns(children[i])
    ensures Sum(turns) == TurnsOf(children)
  {
    if children != [] { TurnsSum(children[1..], turns[1..]); }
  }

  lemma TurnsOfNode(e: Expr)
    requires !Delegated(e)
    ensures Turns(e) == 2 + TurnsOf(ExprChildren(e))
  {
    hide ExprChildren;
    var kids := ExprChildren(e);
    TurnsSum(kids, seq(|kids|, i requires 0 <= i < |kids| => if kids[i].Node? then Turns(kids[i].expr) else 1));
  }

  lemma Pushed(stack: seq<Task>, t: Task, prefix: string)
    ensures t.Enter? ==>
              Pending(stack + [t], prefix) == Render(t.expr, prefix, t.last, t.caption) + Pending(stack, prefix)
    ensures t.NoneLine? ==> Pending(stack + [t], prefix) == NoneText(prefix, t.last, t.caption) + Pending(stack, prefix)
    ensures t.Leave? ==> Pending(stack + [t], prefix) == Pending(stack, Truncate(prefix, t.mark))
    ensures StackTurns(stack + [t]) == (if t.Enter? then Turns(t.expr) else 1) + StackTurns(stack)
  {
    hide Render, Turns, NoneText;
    assert (stack + [t])[..|stack|] == stack;
  }

  class Sink {
    var text: string

    constructor ()
      ensures text == ""
    {
      text := "";
    }

    method Put(s: string)
      modifies this
      ensures text == old(text) + s
    {
      text := text + s;
    }
  }

  /** Where the stack is when the children from `i` on have been pushed over `below`. */
  ghost predicate Scheduled(stack: seq<Task>, below: seq<Task>, children: seq<Child>, i: nat, prefix: string) {
    && i <= |children|
    && Pending(stack, prefix) == RenderScheduled(children[i..], prefix) + Pending(below, prefix)
    && StackTurns(stack) == TurnsOf(children[i..]) + StackTurns(below)
    && forall t :: t in stack ==> t in below || exists c :: c in children && t == TaskOf(c)
  }

  lemma NoneScheduledYet(below: seq<Task>, children: seq<Child>, prefix: string)
    ensures Scheduled(below, below, children, |children|, prefix)
  {
    NoneScheduled(prefix);
    assert children[|children|..] == [];
    assert "" + Pending(below, prefix) == Pending(below, prefix);
  }

  lemma TurnsFirst(c: Child, rest: seq<Child>)
    ensures TurnsOf([c] + rest) == ChildTurns(c) + TurnsOf(rest)
  {
    assert ([c] + rest)[1..] == rest;
  }

  lemma ConcatAssociative(a: string, b: string, c: string)
    ensures a + (b + c) == (a + b) + c
  {
  }

  lemma OneMoreScheduled(stack: seq<Task>, below: seq<Task>, children: seq<Child>, i: nat, prefix: string)
    requires 0 < i && Scheduled(stack, below, children, i, prefix)
    ensures Scheduled(stack + [TaskOf(children[i-1])], below, children, i - 1, prefix)
  {
    hide Render, NoneText, Turns, RenderScheduled, Pending, StackTurns, TurnsOf;
    var c := children[i-1];
    var task := TaskOf(c);
    assert children[i-1..] == [c] + children[i..];
    ScheduledFirst(c, children[i..], prefix);
    TurnsFirst(c, children[i..]);
    Pushed(stack, task, prefix);
    ConcatAssociative(RenderChild(c, prefix), RenderScheduled(children[i..], prefix), Pending(below, prefix));
    forall t | t in stack + [task] ensures t in below || exists k :: k in children && t == TaskOf(k) {
      if t !in stack { assert c in children; }
    }
  }

  /** Schedules children so that the first is on top. */
  method Schedule(children: seq<Child>, below: seq<Task>, ghost prefix: string) returns (stack: seq<Task>)
    ensures Pending(stack, prefix) == RenderScheduled(children, prefix) + Pending(below, prefix)
    ensures StackTurns(stack) == TurnsOf(children) + StackTurns(below)
    ensures forall t :: t in stack ==> t in below || exists c :: c in children && t == TaskOf(c)
  {
    stack := below;
    NoneScheduledYet(below, children, prefix);
    var i := |children|;
    while i > 0
      invariant 0 <= i <= |children| && Scheduled(stack, below, children, i, prefix)
    {
      hide Scheduled;
      i := i - 1;
      OneMoreScheduled(stack, below, children, i + 1, prefix);
      stack := stack + [TaskOf(children[i])];
    }
    hide Render, NoneText, Turns, RenderScheduled, Pending, StackTurns, TurnsOf, TaskOf;
    assert children[0..] == children;
  }

  /** `write_expr`: the task-stack driver writes what the recursive printer does. */
  method WriteExpr(sink: Sink, expr: Expr, prefix: string, last: bool, caption: string)
    modifies sink
    ensures sink.text == old(sink.text) + Render(expr, prefix, last, caption)
    decreases expr, 5
  {
    hide Render, NoneText, Turns, Pending, StackTurns;
    var buf := prefix;
    var stack := [Enter(expr, last, caption)];
    StartsWith(Enter(expr, last, caption), buf);
    ghost var all := sink.text + Render(expr, prefix, last, caption);
    while stack != []
      invariant sink.text + Pending(stack, buf) == all
      invariant forall t :: t in stack && t.Enter? ==> (expr nonincreases to t.expr)
      decreases StackTurns(stack)
    {
      var task, rest := stack[|stack|-1], stack[..|stack|-1];
      assert stack == rest + [task];
      Pushed(rest, task, buf);
      stack := rest;
      match task
      case Leave(mark) => buf := Truncate(buf, mark);
      case NoneLine(last, caption) => sink.Put(NoneText(buf, last, caption));
      case Enter(e, last, caption) =>
        assert task in rest + [task];
        buf, stack := EnterNode(sink, e, buf, last, caption, rest);
    }
    StartsWith(Enter(expr, last, caption), buf);
  }

  /** One `Enter` task: the header line, the longer prefix with the `Leave` that undoes it, the children. */
  method EnterNode(sink: Sink, e: Expr, prefix: string, last: bool, caption: string, below: seq<Task>)
    returns (buf: string, stack: seq<Task>)
    modifies sink
    ensures sink.text + Pending(stack, buf) ==
        old(sink.text) + (Render(e, prefix, last, caption) + Pending(below, prefix))
    ensures StackTurns(stack) < Turns(e) + StackTurns(below)
    ensures forall t :: t in stack && t.Enter? ==> t in below || (e decreases to t.expr)
    decreases e, 4
  {
    hide Render, RenderChildren, NoneText, Header, Turns, ExprChildren, RenderScheduled, Pending, StackTurns, TurnsOf;
    sink.Put(Header(e, prefix, last, caption));
    buf := prefix + Continuation(last);
    stack := below + [Leave(|prefix|)];
    Entered(e, below, prefix, last, caption);
    if Delegated(e) {
      WriteExprChildren(sink, e, buf);
    } else {
      ScheduleAgrees(e, buf);
      TurnsOfNode(e);
      stack := Schedule(ExprChildren(e), stack, buf);
    }
  }

  lemma StartsWith(t: Task, prefix: string)
    ensures t.Enter? ==> Pending([t], prefix) == Render(t.expr, prefix, t.last, t.caption)
    ensures Pending([], prefix) == ""
  {
    hide Render;
    assert [t][..0] == [];
    assert Pending([], prefix) == "";
  }

  /** Entering a node: its header, then its children under the longer prefix, which `Leave` undoes. */
  lemma Entered(e: Expr, rest: seq<Task>, prefix: string, last: bool, caption: string)
    ensures Render(e, prefix, last, caption) ==
        Header(e, prefix, last, caption) + RenderChildren(e, prefix + Continuation(last))
    ensures Pending(rest + [Leave(|prefix|)], prefix + Continuation(last)) == Pending(rest, prefix)
    ensures StackTurns(rest + [Leave(|prefix|)]) == 1 + StackTurns(rest)
  {
    hide RenderChildren, Header;
    Pushed(rest, Leave(|prefix|), prefix + Continuation(last));
  }

  /** `write_expr_children`. */
  method WriteExprChildren(sink: Sink, e: Expr, p: string)
    modifies sink
    ensures sink.text == old(sink.text) + RenderChildren(e, p)
    decreases e, 3
  {
    hide Render, RenderArm, RenderStmt, RenderPayload, Concat, NoneText, Connector, Continuation;
    match e.kind
    case Literal(_) =>
    case Ident(_) =>
    case BinaryOp(lhs, _, rhs) =>
      WriteExpr(sink, lhs, p, false, "");
      WriteExpr(sink, rhs, p, true, "");
    case UnaryOp(_, operand) => WriteExpr(sink, operand, p, true, "");
    case Call(_, args) => WriteArgs(sink, args, p, e);
    case MethodCall(_, _, _) => WriteMethodCall(sink, e, p);
    case Borrow(inner) => WriteExpr(sink, inner, p, true, "");
    case Slice(_, _, _) => WriteSlice(sink, e, p);
    case Index(base, index) =>
      WriteExpr(sink, base, p, false, "base: ");
      WriteExpr(sink, index, p, true, "index: ");
    case StructLiteral(_, inits) => WriteInits(sink, inits, p, e);
    case FieldAccess(owner, _) => WriteExpr(sink, owner, p, true, "object: ");
    case VariantConstruct(_, _, payload) => WritePayload(sink, payload, p, e);
    case Match(_, _) => WriteMatch(sink, e, p);
    case ErrorConstruct(_, payload) => WritePayload(sink, payload, p, e);
    case Try(operand) => WriteExpr(sink, operand, p, true, "operand: ");
    case Catch(_, _, _) => WriteCatch(sink, e, p);
  }

  method WriteMethodCall(sink: Sink, e: Expr, p: string)
    requires e.kind.MethodCall?
    modifies sink
    ensures sink.text == old(sink.text) + RenderChildren(e, p)
    decreases e, 2
  {
    hide Render, Concat;
    WriteExpr(sink, e.kind.receiver, p, e.kind.args == [], "recv: ");
    WriteArgs(sink, e.kind.args, p, e);
  }

  method WriteSlice(sink: Sink, e: Expr, p: string)
    requires e.kind.Slice?
    modifies sink
    ensures sink.text == old(sink.text) + RenderChildren(e, p)
    decreases e, 2
  {
    hide Render, NoneText;
    WriteExpr(sink, e.kind.base, p, false, "base: ");
    WriteOptionalBound(sink, e.kind.from, p, false, "start: ", e);
    WriteOptionalBound(sink, e.kind.to, p, true, "end: ", e);
  }

  method WriteMatch(sink: Sink, e: Expr, p: string)
    requires e.kind.Match?
    modifies sink
    ensures sink.text == old(sink.text) + RenderChildren(e, p)
    decreases e, 2
  {
    hide Render, RenderArm, Concat;
    WriteExpr(sink, e.kind.scrutinee, p, e.kind.arms == [], "scrut: ");
    WriteMatchArms(sink, e.kind.arms, p, e);
  }

  method WriteCatch(sink: Sink, e: Expr, p: string)
    requires e.kind.Catch?
    modifies sink
    ensures sink.text == old(sink.text) + RenderChildren(e, p)
    decreases e, 2
  {
    hide Render, RenderArm, RenderStmt, Concat, Connector, Continuation;
    var body := e.kind.body;
    if body.Handler? {
      WriteExpr(sink, e.kind.operand, p, false, "operand: ");
      if body.handler.Value? {
        WriteExpr(sink, body.handler.expr, p, true, "handler: ");
      } else {
        WriteHandler(sink, body.handler.stmts, p, e);
      }
    } else {
      WriteExpr(sink, e.kind.operand, p, body.arms == [], "operand: ");
      WriteMatchArms(sink, body.arms, p, e);
    }
  }

  method WritePayload(sink: Sink, payload: Args, p: string, ghost parent: Expr)
    requires payload.Positional? ==> forall i :: 0 <= i < |payload.list| ==> (parent decreases to payload.list[i])
    requires payload.Named? ==> forall i :: 0 <= i < |payload.inits| ==> (parent decreases to payload.inits[i].value)
    modifies sink
    ensures sink.text == old(sink.text) + RenderPayload(payload, p)
    decreases parent, 2
  {
    hide Render, Concat;
    if payload.Positional? {
      WriteArgs(sink, payload.list, p, parent);
    } else if payload.Named? {
      WriteInits(sink, payload.inits, p, parent);
    }
  }

  /** The statements of a catch handler, under their own line. */
  method WriteHandler(sink: Sink, stmts: seq<Stmt>, p: string, ghost parent: Expr)
    requires parent decreases to stmts
    modifies sink
    ensures sink.text == old(sink.text) + (p + Connector(true) + "handler:\n"
            + Concat(seq(|stmts|, i requires 0 <= i < |stmts| =>
                RenderStmt(stmts[i], p + Continuation(true), i == |stmts| - 1))))
    decreases parent, 1
  {
    hide RenderStmt, Concat, Connector;
    sink.Put(p + Connector(true) + "handler:\n");
    WriteStmts(sink, stmts, p + Continuation(true));
  }

  lemma {:induction false} ConcatSnoc(texts: seq<string>, t: string)
    ensures Concat(texts + [t]) == Concat(texts) + t
  {
    if texts != [] {
      assert (texts + [t])[1..] == texts[1..] + [t];
      ConcatSnoc(texts[1..], t);
    }
  }

  lemma ConcatNext(texts: seq<string>, i: nat)
    requires i < |texts|
    ensures Concat(texts[..i+1]) == Concat(texts[..i]) + texts[i]
  {
    assert texts[..i+1] == texts[..i] + [texts[i]];
    ConcatSnoc(texts[..i], texts[i]);
  }

  /** `write_optional_bound`. */
  method WriteOptionalBound(sink: Sink, bound: Option<Expr>, p: string, last: bool, caption: string, ghost parent: Expr)
    requires bound.Some? ==> (parent decreases to bound.value)
    modifies sink
    ensures sink.text == old(sink.text)
        + (if bound.Some? then Render(bound.value, p, last, caption) else NoneText(p, last, caption))
    decreases parent, 1
  {
    if bound.Some? { WriteExpr(sink, bound.value, p, last, caption); } else { sink.Put(NoneText(p, last, caption)); }
  }

  /** `write_expr_args`. */
  method WriteArgs(sink: Sink, args: seq<Expr>, p: string, ghost parent: Expr)
    requires forall i :: 0 <= i < |args| ==> (parent decreases to args[i])
    modifies sink
    ensures sink.text == old(sink.text)
        + Concat(seq(|args|, i requires 0 <= i < |args| => Render(args[i], p, i == |args| - 1, "")))
    decreases parent, 1
  {
    hide Render, Concat;
    ghost var texts := seq(|args|, i requires 0 <= i < |args| => Render(args[i], p, i == |args| - 1, ""));
    ConcatNone();
    for i := 0 to |args|
      invariant sink.text == old(sink.text) + Concat(texts[..i])
    {
      ConcatNext(texts, i);
      WriteExpr(sink, args[i], p, i == |args| - 1, "");
    }
    assert texts[..|args|] == texts;
  }

  lemma ConcatNone()
    ensures Concat([]) == ""
  {
  }

  method WriteInits(sink: Sink, inits: seq<Init>, p: string, ghost parent: Expr)
    requires forall i :: 0 <= i < |inits| ==> (parent decreases to inits[i].value)
    modifies sink
    ensures sink.text == old(sink.text)
            + Concat(seq(|inits|, i requires 0 <= i < |inits| =>
                Render(inits[i].value, p, i == |inits| - 1, inits[i].name + ": ")))
    decreases parent, 1
  {
    hide Render, Concat;
    ghost var texts := seq(|inits|, i requires 0 <= i < |inits| =>
        Render(inits[i].value, p, i == |inits| - 1, inits[i].name + ": "));
    ConcatNone();
    for i := 0 to |inits|
      invariant sink.text == old(sink.text) + Concat(texts[..i])
    {
      ConcatNext(texts, i);
      WriteExpr(sink, inits[i].value, p, i == |inits| - 1, inits[i].name + ": ");
    }
    assert texts[..|inits|] == texts;
  }

  /** `write_match_arms`. */
  method WriteMatchArms(sink: Sink, arms: seq<Arm>, p: string, ghost parent: Expr)
    requires forall i :: 0 <= i < |arms| ==> (parent decreases to arms[i])
    modifies sink
    ensures sink.text == old(sink.text)
            + Concat(seq(|arms|, i requires 0 <= i < |arms| => RenderArm(arms[i], p, i, i == |arms| - 1)))
    decreases parent, 1
  {
    hide RenderArm, Concat;
    ghost var texts := seq(|arms|, i requires 0 <= i < |arms| => RenderArm(arms[i], p, i, i == |arms| - 1));
    ConcatNone();
    for i := 0 to |arms|
      invariant sink.text == old(sink.text) + Concat(texts[..i])
    {
      ConcatNext(texts, i);
      WriteArm(sink, arms[i], p, i, i == |arms| - 1);
    }
    assert texts[..|arms|] == texts;
  }

  method WriteArm(sink: Sink, arm: Arm, p: string, index: nat, last: bool)
    modifies sink
    ensures sink.text == old(sink.text) + RenderArm(arm, p, index, last)
    decreases arm
  {
    hide RenderArmBody, RenderPattern, Connector;
    var q := p + Continuation(last);
    sink.Put(p + Connector(last) + "arm[" + Decimal(index) + "]:\n");
    WritePattern(sink, arm.pattern, q, false, "pat: ");
    WriteArmBody(sink, arm.body, q);
  }

  /** `write_pattern`. */
  method WritePattern(sink: Sink, pattern: Pattern, prefix: string, last: bool, caption: string)
    modifies sink
    ensures sink.text == old(sink.text) + RenderPattern(pattern, prefix, last, caption)
    decreases pattern, 1
  {
    hide Concat, Connector, Continuation, PatternName;
    ConcatNone();
    sink.Put(prefix + Connector(last) + caption + PatternName(pattern.kind) + " (" + pattern.span + ")\n");
    var q := prefix + Continuation(last);
    match pattern.kind
    case Wildcard =>
    case Bind(_) =>
    case LiteralPattern(_) =>
    case Anon(fields) =>
      WriteTargets(sink, seq(|fields|, i requires 0 <= i < |fields| => FieldTarget(fields[i])), q);
      var targets := seq(|fields|, i requires 0 <= i < |fields| => FieldTarget(fields[i]));
      assert seq(|fields|, i requires 0 <= i < |fields| => TargetLine(q, i == |fields| - 1, FieldTarget(fields[i])))
          == seq(|targets|, i requires 0 <= i < |targets| => TargetLine(q, i == |targets| - 1, targets[i]));
    case Tuple(elems) => WriteElems(sink, elems, q, pattern);
    case Variant(_, _, args) =>
      WriteTargets(sink, seq(|args|, i requires 0 <= i < |args| => ArgTarget(args[i])), q);
      var targets := seq(|args|, i requires 0 <= i < |args| => ArgTarget(args[i]));
      assert seq(|args|, i requires 0 <= i < |args| => TargetLine(q, i == |args| - 1, ArgTarget(args[i])))
          == seq(|targets|, i requires 0 <= i < |targets| => TargetLine(q, i == |targets| - 1, targets[i]));
  }

  method WriteTargets(sink: Sink, targets: seq<string>, q: string)
    modifies sink
    ensures sink.text == old(sink.text)
            + Concat(seq(|targets|, i requires 0 <= i < |targets| => TargetLine(q, i == |targets| - 1, targets[i])))
  {
    hide Concat, TargetLine;
    ghost var lines := seq(|targets|, i requires 0 <= i < |targets| => TargetLine(q, i == |targets| - 1, targets[i]));
    ConcatNone();
    for i := 0 to |targets|
      invariant sink.text == old(sink.text) + Concat(lines[..i])
    {
      ConcatNext(lines, i);
      sink.Put(TargetLine(q, i == |targets| - 1, targets[i]));
    }
    assert lines[..|targets|] == lines;
  }

  method WriteElems(sink: Sink, elems: seq<Pattern>, q: string, ghost parent: Pattern)
    requires forall i :: 0 <= i < |elems| ==> (parent decreases to elems[i])
    modifies sink
    ensures sink.text == old(sink.text)
            + Concat(seq(|elems|, i requires 0 <= i < |elems| => RenderPattern(elems[i], q, i == |elems| - 1, "")))
    decreases parent, 0
  {
    hide Concat, RenderPattern;
    ghost var texts := seq(|elems|, i requires 0 <= i < |elems| => RenderPattern(elems[i], q, i == |elems| - 1, ""));
    ConcatNone();
    for i := 0 to |elems|
      invariant sink.text == old(sink.text) + Concat(texts[..i])
    {
      ConcatNext(texts, i);
      WritePattern(sink, elems[i], q, i == |elems| - 1, "");
    }
    assert texts[..|elems|] == texts;
  }

  method WriteArmBody(sink: Sink, body: ArmBody, q: string)
    modifies sink
    ensures sink.text == old(sink.text) + RenderArmBody(body, q)
    decreases body
  {
    hide Render, RenderStmt, Concat;
    match body
    case Value(expr) => WriteExpr(sink, expr, q, true, "body: ");
    case Stmts(stmts) =>
      ConcatNone();
      ghost var texts := seq(|stmts|, i requires 0 <= i < |stmts| => RenderStmt(stmts[i], q, i == |stmts| - 1));
      for i := 0 to |stmts|
        invariant sink.text == old(sink.text) + Concat(texts[..i])
      {
        ConcatNext(texts, i);
        WriteStmtTree(sink, stmts[i], q, i == |stmts| - 1);
      }
      assert texts[..|stmts|] == texts;
  }

  /** `write_stmt_tree`. */
  method WriteStmtTree(sink: Sink, stmt: Stmt, prefix: string, last: bool)
    modifies sink
    ensures sink.text == old(sink.text) + RenderStmt(stmt, prefix, last)
    decreases stmt
  {
    hide RenderParts, Inner, Connector, Continuation;
    var q := prefix + Continuation(last);
    sink.Put(prefix + Connector(last) + stmt.head + "\n");
    if stmt.title.Some? { sink.Put(q + stmt.title.value + "\n"); }
    WriteParts(sink, stmt.parts, Inner(stmt, q));
  }

  /** `write_stmt_children`. */
  method WriteParts(sink: Sink, parts: seq<Part>, p: string)
    modifies sink
    ensures sink.text == old(sink.text) + RenderParts(parts, p)
    decreases parts
  {
    hide RenderPart, Concat;
    ConcatNone();
    ghost var texts := seq(|parts|, i requires 0 <= i < |parts| => RenderPart(parts[i], p));
    for i := 0 to |parts|
      invariant sink.text == old(sink.text) + Concat(texts[..i])
    {
      ConcatNext(texts, i);
      WritePart(sink, parts[i], p);
    }
    assert texts[..|parts|] == texts;
  }

  method WritePart(sink: Sink, part: Part, p: string)
    modifies sink
    ensures sink.text == old(sink.text) + RenderPart(part, p)
    decreases part
  {
    hide Render, RenderStmt, RenderPattern, Concat, Connector, Continuation;
    match part
    case Line(text, last) => sink.Put(p + Connector(last) + text + "\n");
    case Piece(expr, last, caption) => WriteExpr(sink, expr, p, last, caption);
    case Under(heading, init) =>
      sink.Put(p + Connector(true) + heading + "\n");
      WriteExpr(sink, init, p + Continuation(true), true, "");
    case PatternPiece(pattern, last, caption) => WritePattern(sink, pattern, p, last, caption);
    case Block(header, last, stmts) =>
      sink.Put(p + Connector(last) + header + "\n");
      WriteStmts(sink, stmts, p + Continuation(last));
  }

  method WriteStmts(sink: Sink, stmts: seq<Stmt>, p: string)
    modifies sink
    ensures sink.text == old(sink.text)
            + Concat(seq(|stmts|, i requires 0 <= i < |stmts| => RenderStmt(stmts[i], p, i == |stmts| - 1)))
    decreases stmts
  {
    hide RenderStmt, Concat;
    ConcatNone();
    ghost var texts := seq(|stmts|, i requires 0 <= i < |stmts| => RenderStmt(stmts[i], p, i == |stmts| - 1));
    for i := 0 to |stmts|
      invariant sink.text == old(sink.text) + Concat(texts[..i])
    {
      ConcatNext(texts, i);
      WriteStmtTree(sink, stmts[i], p, i == |stmts| - 1);
    }
    assert texts[..|stmts|] == texts;
  }
}
