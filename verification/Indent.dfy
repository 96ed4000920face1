/** The offside-rule pre-processor: a stack of indentation levels turned into Indent and Dedent
    markers. */
module Indent {

  type Span = nat

  datatype Token = Newline(text: string) | Word(id: nat) | IndentMark | DedentMark

  datatype Spanned = Spanned(tok: Token, span: Span)

  datatype Error = SpaceIndent(span: Span) | BadCharacter(span: Span, c: char) | UnmatchedDedent(span: Span, level: nat)

  datatype Outcome = Ok(out: seq<Spanned>) | Err(error: Error)

  /** What the lexer delivers: no markers, and newline text starting with the line break. */
  predicate Lexed(t: Spanned) {
    match t.tok
    case Newline(text) => (|text| >= 1 && text[0] == '\n') || (|text| >= 2 && text[0] == '\r' && text[1] == '\n')
    case Word(_) => true
    case _ => false
  }

  predicate AllLexed(ts: seq<Spanned>) { forall i :: 0 <= i < |ts| ==> Lexed(ts[i]) }

  function Whitespace(text: string): string {
    if |text| >= 2 && text[0] == '\r' then text[2..] else if |text| >= 1 then text[1..] else ""
  }

  function Tabs(ws: string): nat {
    if ws == "" then 0 else (if ws[0] == '\t' then 1 else 0) + Tabs(ws[1..])
  }

  // ---------- The level stack ----------

  /** Strictly increasing from the base level 0. */
  ghost predicate Levels(stack: seq<nat>) {
    stack != [] && stack[0] == 0 && forall i, j :: 0 <= i < j < |stack| ==> stack[i] < stack[j]
  }

  function Top(stack: seq<nat>): nat
    requires stack != []
  {
    stack[|stack|-1]
  }

  /** Removes every level above `level`. */
  function PopTo(stack: seq<nat>, level: nat): (r: seq<nat>)
    ensures |r| <= |stack| && r == stack[..|r|]
  {
    if stack != [] && stack[|stack|-1] > level then PopTo(stack[..|stack|-1], level) else stack
  }

  function Repeat(t: Spanned, n: nat): (r: seq<Spanned>)
    ensures |r| == n
  {
    seq(n, _ => t)
  }

  // ---------- The pass as a function ----------

  /** The first bad character of an indentation. */
  function CheckIndent(ws: string, span: Span): Outcome {
    if ws == "" then Ok([])
    else if ws[0] == ' ' then Err(SpaceIndent(span))
    else if ws[0] != '\t' then Err(BadCharacter(span, ws[0]))
    else CheckIndent(ws[1..], span)
  }

  /** A newline counts when something other than another newline follows it. */
  predicate Measured(ts: seq<Spanned>) {
    |ts| > 1 && ts[0].tok.Newline? && !ts[1].tok.Newline?
  }

  /** Markers for moving to `level`, and the stack afterwards. */
  function MoveTo(stack: seq<nat>, level: nat, span: Span): (Outcome, seq<nat>)
    requires stack != []
  {
    if level > Top(stack) then (Ok([Spanned(IndentMark, span)]), stack + [level])
    else
      var popped := PopTo(stack, level);
      if popped == [] || Top(popped) != level then (Err(UnmatchedDedent(span, level)), stack)
      else (Ok(Repeat(Spanned(DedentMark, span), |stack| - |popped|)), popped)
  }

  function Prepend(ts: seq<Spanned>, o: Outcome): Outcome {
    match o case Ok(out) => Ok(ts + out) case Err(e) => Err(e)
  }

  function Process(ts: seq<Spanned>, stack: seq<nat>, eof: Span): Outcome
    requires stack != []
    decreases |ts|
  {
    if ts == [] then Ok(Repeat(Spanned(DedentMark, eof), |stack| - 1))
    else if Measured(ts) then
      var ws := Whitespace(ts[0].tok.text);
      var check := CheckIndent(ws, ts[0].span);
      if check.Err? then check else
      var (move, stack') := MoveTo(stack, Tabs(ws), ts[0].span);
      if move.Err? || stack' == [] then move
      else Prepend(move.out + [ts[0]], Process(ts[1..], stack', eof))
    else Prepend([ts[0]], Process(ts[1..], stack, eof))
  }

  function EofSpan(ts: seq<Spanned>): Span {
    if ts == [] then 0 else ts[|ts|-1].span
  }

  function ProcessAll(ts: seq<Spanned>): Outcome { Process(ts, [0], EofSpan(ts)) }

  // ---------- The stack keeps its shape ----------

  lemma {:induction false} PopToFacts(stack: seq<nat>, level: nat)
    requires Levels(stack)
    ensures Levels(PopTo(stack, level)) && Top(PopTo(stack, level)) <= level
    ensures forall i :: |PopTo(stack, level)| <= i < |stack| ==> stack[i] > level
    ensures level in stack <==> Top(PopTo(stack, level)) == level
  {
    if stack[|stack|-1] > level {
      PopToFacts(stack[..|stack|-1], level);
    }
  }

  lemma MoveToFacts(stack: seq<nat>, level: nat, span: Span)
    requires Levels(stack)
    ensures var (move, stack') := MoveTo(stack, level, span);
            && (move.Ok? <==> level > Top(stack) || level in stack)
            && (move.Ok? ==> Levels(stack') && Top(stack') == level)
            && (move.Err? ==> move.error == UnmatchedDedent(span, level) && stack' == stack)
  {
    PopToFacts(stack, level);
  }

  // ---------- Balance and erasure ----------

  function Erase(ts: seq<Spanned>): seq<Spanned> {
    if ts == [] then []
    else Kept(ts[0]) + Erase(ts[1..])
  }

  predicate IsMark(t: Spanned) { t.tok.IndentMark? || t.tok.DedentMark? }

  function Kept(t: Spanned): seq<Spanned> { if IsMark(t) then [] else [t] }

  /** Depth after the markers of `ts`, starting from `d`; below zero counts as -1 for good. */
  function Depth(ts: seq<Spanned>, d: int): int {
    if d < 0 then -1
    else if ts == [] then d
    else Depth(ts[1..], if ts[0].tok.IndentMark? then d + 1 else if ts[0].tok.DedentMark? then d - 1 else d)
  }

  lemma {:induction false} EraseConcat(a: seq<Spanned>, b: seq<Spanned>)
    ensures Erase(a + b) == Erase(a) + Erase(b)
  {
    hide Kept;
    if a == [] {
      assert a + b == b;
    } else {
      EraseConcat(a[1..], b);
      assert (a + b)[1..] == a[1..] + b;
    }
  }

  lemma {:induction false} DepthConcat(a: seq<Spanned>, b: seq<Spanned>, d: int)
    ensures Depth(a + b, d) == Depth(b, Depth(a, d))
  {
    if a == [] {
      assert a + b == b;
    } else if d >= 0 {
      DepthConcat(a[1..], b, if a[0].tok.IndentMark? then d + 1 else if a[0].tok.DedentMark? then d - 1 else d);
      assert (a + b)[1..] == a[1..] + b;
    }
  }

  lemma {:induction false} DedentRun(span: Span, n: nat, d: int)
    ensures Erase(Repeat(Spanned(DedentMark, span), n)) == []
    ensures d >= n ==> Depth(Repeat(Spanned(DedentMark, span), n), d) == d - n
  {
    var r := Repeat(Spanned(DedentMark, span), n);
    if n > 0 {
      assert r[1..] == Repeat(Spanned(DedentMark, span), n - 1);
      DedentRun(span, n - 1, d - 1);
    }
  }

  lemma OneIndent(span: Span, d: nat)
    ensures Erase([Spanned(IndentMark, span)]) == [] && Depth([Spanned(IndentMark, span)], d) == d + 1
  {
    assert [Spanned(IndentMark, span)][1..] == [];
  }

  lemma MoveMarks(stack: seq<nat>, level: nat, span: Span)
    requires Levels(stack) && MoveTo(stack, level, span).0.Ok?
    ensures var (move, stack') := MoveTo(stack, level, span);
            Erase(move.out) == [] && Depth(move.out, |stack| - 1) == |stack'| - 1
  {
    hide Erase, Depth, Levels, PopTo;
    PopToFacts(stack, level);
    var (move, stack') := MoveTo(stack, level, span);
    if level > Top(stack) {
      OneIndent(span, |stack| - 1);
    } else {
      DedentRun(span, |stack| - |stack'|, |stack| - 1);
    }
  }

  /** One step: the markers and the token it writes, and the stack it goes on with. */
  lemma OneStep(ts: seq<Spanned>, stack: seq<nat>, eof: Span) returns (head: seq<Spanned>, stack': seq<nat>)
    requires ts != [] && Lexed(ts[0]) && Levels(stack) && Process(ts, stack, eof).Ok?
    ensures Levels(stack') && Process(ts, stack, eof) == Prepend(head, Process(ts[1..], stack', eof))
    ensures Erase(head) == [ts[0]] && Depth(head, |stack| - 1) == |stack'| - 1
  {
    hide Erase, Depth, CheckIndent, MoveTo, Whitespace;
    head, stack' := [ts[0]], stack;
    OneToken(ts[0], |stack| - 1);
    if Measured(ts) {
      var level := Tabs(Whitespace(ts[0].tok.text));
      MoveToFacts(stack, level, ts[0].span);
      MoveMarks(stack, level, ts[0].span);
      var move := MoveTo(stack, level, ts[0].span);
      head, stack' := move.0.out + [ts[0]], move.1;
      EraseConcat(move.0.out, [ts[0]]);
      DepthConcat(move.0.out, [ts[0]], |stack| - 1);
      OneToken(ts[0], |stack'| - 1);
    }
  }

  lemma OneToken(t: Spanned, d: nat)
    requires Lexed(t)
    ensures Erase([t]) == [t] && Depth([t], d) == d
  {
    assert [t][1..] == [];
  }

  lemma AtEnd(stack: seq<nat>, eof: Span)
    requires stack != []
    ensures var out := Process([], stack, eof).out; Erase(out) == [] && Depth(out, |stack| - 1) == 0
  {
    DedentRun(eof, |stack| - 1, |stack| - 1);
  }

  /** Accepted output with its markers erased is the input, and its markers are balanced. */
  lemma {:induction false} OutputFaithful(ts: seq<Spanned>, stack: seq<nat>, eof: Span)
    requires AllLexed(ts) && Levels(stack) && Process(ts, stack, eof).Ok?
    ensures var out := Process(ts, stack, eof).out; Erase(out) == ts && Depth(out, |stack| - 1) == 0
    decreases |ts|
  {
    hide Process, Erase, Depth, Lexed;
    if ts == [] {
      AtEnd(stack, eof);
    } else {
      var head, stack' := OneStep(ts, stack, eof);
      var rest := Process(ts[1..], stack', eof);
      OutputFaithful(ts[1..], stack', eof);
      EraseConcat(head, rest.out);
      DepthConcat(head, rest.out, |stack| - 1);
    }
  }

  // ---------- Exactly when the pass fails ----------

  /** The level stack before token `i`, had every earlier line been accepted. */
  ghost function StackAt(ts: seq<Spanned>, i: nat): seq<nat>
    requires i <= |ts|
  {
    if i == 0 then [0]
    else if Measured(ts[i-1..]) then
      var level := Tabs(Whitespace(ts[i-1].tok.text));
      var before := StackAt(ts, i - 1);
      if before != [] && level <= Top(before) then PopTo(before, level) else before + [level]
    else StackAt(ts, i - 1)
  }

  ghost predicate TabsOnly(ws: string) { forall i :: 0 <= i < |ws| ==> ws[i] == '\t' }

  /** A counted newline is acceptable: tabs only, and deeper than the current level or back to a
      level on the stack. */
  ghost predicate LineOk(ts: seq<Spanned>, i: nat)
    requires i < |ts|
  {
    Measured(ts[i..]) ==>
      var ws := Whitespace(ts[i].tok.text);
      TabsOnly(ws) && StackAt(ts, i) != [] && (Tabs(ws) > Top(StackAt(ts, i)) || Tabs(ws) in StackAt(ts, i))
  }

  lemma {:induction false} CheckIndentExact(ws: string, span: Span)
    ensures CheckIndent(ws, span).Ok? <==> TabsOnly(ws)
  {
    if ws != "" {
      CheckIndentExact(ws[1..], span);
      assert TabsOnly(ws) <==> ws[0] == '\t' && TabsOnly(ws[1..]) by {
        assert forall i :: 0 < i < |ws| ==> ws[i] == ws[1..][i-1];
      }
    }
  }

  lemma {:induction false} FailsExactlyFrom(ts: seq<Spanned>, i: nat, eof: Span)
    requires i <= |ts| && Levels(StackAt(ts, i))
    ensures Process(ts[i..], StackAt(ts, i), eof).Ok? <==> forall k :: i <= k < |ts| ==> LineOk(ts, k)
    decreases |ts| - i
  {
    if i < |ts| {
      assert ts[i..][1..] == ts[i+1..];
      if Measured(ts[i..]) {
        var ws := Whitespace(ts[i].tok.text);
        CheckIndentExact(ws, ts[i].span);
        MoveToFacts(StackAt(ts, i), Tabs(ws), ts[i].span);
        PopToFacts(StackAt(ts, i), Tabs(ws));
        if LineOk(ts, i) {
          FailsExactlyFrom(ts, i + 1, eof);
        }
      } else {
        FailsExactlyFrom(ts, i + 1, eof);
      }
    }
  }

  /** The pass accepts exactly the token streams whose every counted newline is acceptable. */
  lemma AcceptsExactly(ts: seq<Spanned>)
    ensures ProcessAll(ts).Ok? <==> forall i :: 0 <= i < |ts| ==> LineOk(ts, i)
  {
    assert ts[0..] == ts;
    FailsExactlyFrom(ts, 0, EofSpan(ts));
  }

  // ---------- Which levels are open ----------

  function LevelAt(ts: seq<Spanned>, i: nat): nat
    requires i < |ts| && Measured(ts[i..])
  {
    Tabs(Whitespace(ts[i].tok.text))
  }

  /** Level `l` is open before token `i`: it is the base level, or an earlier counted line has it and no counted
      line since then is shallower. */
  ghost predicate Open(ts: seq<Spanned>, i: nat, l: nat)
    requires i <= |ts|
  {
    l == 0 || exists j: nat :: OpenedAt(ts, i, l, j)
  }

  ghost predicate OpenedAt(ts: seq<Spanned>, i: nat, l: nat, j: nat)
    requires i <= |ts|
  {
    && j < i && Measured(ts[j..]) && LevelAt(ts, j) == l
    && forall k :: j < k < i && Measured(ts[k..]) ==> LevelAt(ts, k) >= l
  }

  lemma MoveLevels(before: seq<nat>, level: nat, l: nat)
    requires Levels(before) && (level > Top(before) || level in before)
    ensures var after := if level <= Top(before) then PopTo(before, level) else before + [level];
      Levels(after) && (l in after <==> l == level || (l in before && l <= level))
  {
    PopToFacts(before, level);
  }

  lemma OpenStep(ts: seq<Spanned>, i: nat, l: nat)
    requires i < |ts|
    ensures !Measured(ts[i..]) ==> (Open(ts, i + 1, l) <==> Open(ts, i, l))
    ensures Measured(ts[i..]) ==>
              (Open(ts, i + 1, l) <==> l == 0 || l == LevelAt(ts, i) || (Open(ts, i, l) && l <= LevelAt(ts, i)))
  {
    hide Measured, LevelAt;
    if l != 0 && Open(ts, i, l) {
      var j: nat :| OpenedAt(ts, i, l, j);
      if Measured(ts[i..]) ==> l <= LevelAt(ts, i) { assert OpenedAt(ts, i + 1, l, j); }
    }
    if l != 0 && Open(ts, i + 1, l) {
      var j: nat :| OpenedAt(ts, i + 1, l, j);
      if j < i { assert OpenedAt(ts, i, l, j); }
    }
    if Measured(ts[i..]) && l == LevelAt(ts, i) { assert OpenedAt(ts, i + 1, l, i); }
  }

  /** After acceptable lines the stack holds exactly the open levels, so a line is acceptable exactly when it is
      deeper than the line above it in its block or back at an open level. */
  lemma {:induction false} StackHoldsOpen(ts: seq<Spanned>, i: nat, l: nat)
    requires i <= |ts| && forall k :: 0 <= k < i ==> LineOk(ts, k)
    ensures Levels(StackAt(ts, i)) && (l in StackAt(ts, i) <==> Open(ts, i, l))
  {
    hide *;
    if i == 0 {
      FirstStack(ts, l);
    } else {
      StackHoldsOpen(ts, i - 1, l);
      OpenStep(ts, i - 1, l);
      StackStep(ts, i - 1, l);
    }
  }

  lemma FirstStack(ts: seq<Spanned>, l: nat)
    ensures Levels(StackAt(ts, 0)) && (l in StackAt(ts, 0) <==> Open(ts, 0, l))
  {
    hide Measured;
  }

  lemma StackStep(ts: seq<Spanned>, i: nat, l: nat)
    requires i < |ts| && LineOk(ts, i) && Levels(StackAt(ts, i))
    ensures Levels(StackAt(ts, i + 1)) && 0 in StackAt(ts, i)
    ensures !Measured(ts[i..]) ==> StackAt(ts, i + 1) == StackAt(ts, i)
    ensures Measured(ts[i..]) ==>
              (l in StackAt(ts, i + 1) <==> l == LevelAt(ts, i) || (l in StackAt(ts, i) && l <= LevelAt(ts, i)))
  {
    hide TabsOnly, PopTo, Whitespace, Tabs;
    assert StackAt(ts, i)[0] == 0;
    if Measured(ts[i..]) { MoveLevels(StackAt(ts, i), LevelAt(ts, i), l); }
  }

  // ---------- Which error is reported ----------

  /** What is wrong with the white space of line `i`: its first character that is no tab, or a level that is not
      open. */
  ghost predicate Complaint(ts: seq<Spanned>, i: nat, e: Error)
    requires i < |ts| && ts[i].tok.Newline?
  {
    var ws := Whitespace(ts[i].tok.text);
    e.span == ts[i].span &&
    match e
    case SpaceIndent(_) => exists k: nat :: FirstNoTab(ws, k) && ws[k] == ' '
    case BadCharacter(_, c) => c != ' ' && exists k: nat :: FirstNoTab(ws, k) && ws[k] == c
    case UnmatchedDedent(_, level) => TabsOnly(ws) && level == |ws| && level !in StackAt(ts, i)
  }

  ghost predicate FirstNoTab(ws: string, k: nat) { k < |ws| && ws[k] != '\t' && TabsOnly(ws[..k]) }

  lemma {:induction false} CheckIndentFinds(ws: string, span: Span) returns (k: nat)
    requires CheckIndent(ws, span).Err?
    ensures FirstNoTab(ws, k)
    ensures CheckIndent(ws, span).error == if ws[k] == ' ' then SpaceIndent(span) else BadCharacter(span, ws[k])
  {
    if ws[0] != '\t' {
      k := 0;
    } else {
      k := CheckIndentFinds(ws[1..], span);
      k := k + 1;
    }
  }

  lemma {:induction false} TabsAll(ws: string)
    requires TabsOnly(ws)
    ensures Tabs(ws) == |ws|
  {
    if ws != "" { TabsAll(ws[1..]); }
  }

  lemma LineFails(ts: seq<Spanned>, i: nat, eof: Span)
    requires i < |ts| && Levels(StackAt(ts, i)) && !LineOk(ts, i)
    ensures Process(ts[i..], StackAt(ts, i), eof).Err? && ts[i].tok.Newline?
    ensures Complaint(ts, i, Process(ts[i..], StackAt(ts, i), eof).error)
  {
    var ws, span := Whitespace(ts[i].tok.text), ts[i].span;
    CheckIndentExact(ws, span);
    if CheckIndent(ws, span).Err? {
      var k := CheckIndentFinds(ws, span);
    } else {
      TabsAll(ws);
      MoveToFacts(StackAt(ts, i), Tabs(ws), span);
    }
  }

  lemma {:induction false} FailsAtFirst(ts: seq<Spanned>, i: nat, eof: Span) returns (bad: nat)
    requires i <= |ts| && Levels(StackAt(ts, i)) && Process(ts[i..], StackAt(ts, i), eof).Err?
    ensures i <= bad < |ts| && !LineOk(ts, bad) && ts[bad].tok.Newline? && forall k :: i <= k < bad ==> LineOk(ts, k)
    ensures Complaint(ts, bad, Process(ts[i..], StackAt(ts, i), eof).error)
    decreases |ts| - i
  {
    if !LineOk(ts, i) {
      LineFails(ts, i, eof);
      bad := i;
    } else {
      assert ts[i..][1..] == ts[i+1..];
      if Measured(ts[i..]) {
        var ws := Whitespace(ts[i].tok.text);
        CheckIndentExact(ws, ts[i].span);
        MoveToFacts(StackAt(ts, i), Tabs(ws), ts[i].span);
        PopToFacts(StackAt(ts, i), Tabs(ws));
      }
      hide Complaint;
      bad := FailsAtFirst(ts, i + 1, eof);
    }
  }

  /** A refusal names what is wrong with the first line that is not acceptable. */
  lemma RefusesFirst(ts: seq<Spanned>) returns (bad: nat)
    requires ProcessAll(ts).Err?
    ensures bad < |ts| && ts[bad].tok.Newline? && !LineOk(ts, bad) && forall k :: 0 <= k < bad ==> LineOk(ts, k)
    ensures Complaint(ts, bad, ProcessAll(ts).error)
  {
    assert ts[0..] == ts;
    bad := FailsAtFirst(ts, 0, EofSpan(ts));
  }

  // ---------- Where the markers stand ----------

  /** A marker stands before the line break that it belongs to, or another marker for it, and has its span; at the
      end of the input there are only Dedents, with span `eof`. */
  ghost predicate MarksPlaced(out: seq<Spanned>, eof: Span) {
    forall i :: 0 <= i < |out| && IsMark(out[i]) ==> MarkPlaced(out, i, eof)
  }

  ghost predicate MarkPlaced(out: seq<Spanned>, i: nat, eof: Span)
    requires i < |out|
  {
    if i + 1 == |out| then out[i] == Spanned(DedentMark, eof)
    else out[i].span == out[i+1].span && (out[i+1].tok.Newline? || (IsMark(out[i+1]) && out[i+1].tok == out[i].tok))
  }

  lemma PlacedConcat(a: seq<Spanned>, t: Spanned, b: seq<Spanned>, eof: Span)
    requires MarksPlaced(a + [t], eof) && !IsMark(t) && MarksPlaced(b, eof)
    ensures MarksPlaced(a + [t] + b, eof)
  {
    var head, out := a + [t], a + [t] + b;
    forall i | 0 <= i < |out| && IsMark(out[i]) ensures MarkPlaced(out, i, eof) {
      if i < |head| {
        assert IsMark(head[i]) && i < |a| && MarkPlaced(head, i, eof);
      } else {
        assert out[i] == b[i-|head|] && MarkPlaced(b, i - |head|, eof);
        assert i + 1 < |out| ==> out[i+1] == b[i-|head|+1];
      }
    }
  }

  lemma {:induction false} MarksWhere(ts: seq<Spanned>, stack: seq<nat>, eof: Span)
    requires AllLexed(ts) && Levels(stack) && Process(ts, stack, eof).Ok?
    ensures MarksPlaced(Process(ts, stack, eof).out, eof)
    decreases |ts|
  {
    hide MarksPlaced;
    if ts == [] {
      AllDedents(eof, |stack| - 1);
    } else {
      assert Lexed(ts[0]);
      var marks, stack' := [], stack;
      if Measured(ts) {
        var level := Tabs(Whitespace(ts[0].tok.text));
        MoveToFacts(stack, level, ts[0].span);
        marks, stack' := MoveTo(stack, level, ts[0].span).0.out, MoveTo(stack, level, ts[0].span).1;
      }
      MarksWhere(ts[1..], stack', eof);
      NoMarksFirst(ts[0], marks, eof);
      var rest := Process(ts[1..], stack', eof);
      PlacedConcat(marks, ts[0], rest.out, eof);
      assert Process(ts, stack, eof) == Prepend(marks + [ts[0]], rest) by { ProcessStep(ts, stack, eof); }
    }
  }

  /** For every accepted input each marker stands at its own line break, or at the end with the last token's span. */
  lemma MarkersStand(ts: seq<Spanned>)
    requires AllLexed(ts) && ProcessAll(ts).Ok?
    ensures if ts == [] then ProcessAll(ts).out == [] else MarksPlaced(ProcessAll(ts).out, ts[|ts|-1].span)
  {
    MarksWhere(ts, [0], EofSpan(ts));
  }

  lemma AllDedents(eof: Span, n: nat)
    ensures MarksPlaced(Repeat(Spanned(DedentMark, eof), n), eof)
  {
  }

  /** A line's own markers, then its line break. */
  lemma NoMarksFirst(t: Spanned, marks: seq<Spanned>, eof: Span)
    requires !IsMark(t)
    requires marks == [] || (t.tok.Newline? && marks == [Spanned(IndentMark, t.span)])
             || (t.tok.Newline? && marks == Repeat(Spanned(DedentMark, t.span), |marks|))
    ensures MarksPlaced(marks + [t], eof)
  {
  }

  // ---------- Layout round trip ----------

  /** A line: blank lines above it, its line break, its words, and the block nested under it. */
  datatype Line = Line(blanks: seq<Spanned>, crlf: bool, span: Span, words: seq<Spanned>, child: Block)

  datatype Block = NoBlock | Block(extra: nat, lines: Lines)

  datatype Lines = One(line: Line) | More(line: Line, rest: Lines)

  ghost predicate Words(ts: seq<Spanned>) { forall i :: 0 <= i < |ts| ==> ts[i].tok.Word? }

  ghost predicate Blanks(ts: seq<Spanned>) { forall i :: 0 <= i < |ts| ==> ts[i].tok.Newline? }

  ghost predicate ValidLine(l: Line) { Blanks(l.blanks) && Words(l.words) && l.words != [] && ValidBlock(l.child) }

  /** Nested blocks are indented by at least one more tab. */
  ghost predicate ValidBlock(b: Block) { b.NoBlock? || (b.extra >= 1 && ValidLines(b.lines)) }

  ghost predicate ValidLines(ls: Lines) { ValidLine(ls.line) && (ls.More? ==> ValidLines(ls.rest)) }

  function TabString(n: nat): string { seq(n, _ => '\t') }

  function LineBreak(l: Line, level: nat): Spanned {
    Spanned(Newline((if l.crlf then "\r\n" else "\n") + TabString(level)), l.span)
  }

  function RenderLine(l: Line, level: nat): seq<Spanned> {
    l.blanks + [LineBreak(l, level)] + l.words + RenderBlock(l.child, level)
  }

  function RenderBlock(b: Block, level: nat): seq<Spanned> {
    match b case NoBlock => [] case Block(extra, lines) => RenderLines(lines, level + extra)
  }

  function RenderLines(ls: Lines, level: nat): seq<Spanned> {
    RenderLine(ls.line, level) + (if ls.More? then RenderLines(ls.rest, level) else [])
  }

  /** A bracketing: words, the line breaks before them, and the brackets around nested blocks. */
  datatype Mark = In | De | Break | W(id: nat)

  function Bracketing(ts: seq<Spanned>): seq<Mark> {
    if ts == [] then []
    else Marks(ts) + Bracketing(ts[1..])
  }

  /** What the first token contributes; a newline does when a word follows it. */
  function Marks(ts: seq<Spanned>): seq<Mark>
    requires ts != []
  {
    match ts[0].tok
    case Newline(_) => if |ts| > 1 && ts[1].tok.Word? then [Break] else []
    case Word(id) => [W(id)]
    case IndentMark => [In]
    case DedentMark => [De]
  }

  function FlattenLine(l: Line): seq<Mark> { [Break] + Bracketing(l.words) + FlattenBlock(l.child) }

  function FlattenBlock(b: Block): seq<Mark> {
    match b case NoBlock => [] case Block(_, lines) => [In] + FlattenLines(lines) + [De]
  }

  function FlattenLines(ls: Lines): seq<Mark> {
    FlattenLine(ls.line) + (if ls.More? then FlattenLines(ls.rest) else [])
  }

  function Dedents(n: nat): seq<Mark> { seq(n, _ => De) }

  predicate NoWordFirst(ts: seq<Spanned>) { ts != [] ==> !ts[0].tok.Word? }

  /** Unless the second part starts with a word, its first part's newlines mean the same. */
  lemma BracketingStep(ts: seq<Spanned>)
    requires ts != []
    ensures Bracketing(ts) == Marks(ts) + Bracketing(ts[1..])
  {
  }

  lemma NoBracketing()
    ensures Bracketing([]) == []
  {
  }

  lemma MarksAssociative(a: seq<Mark>, b: seq<Mark>, c: seq<Mark>)
    ensures a + (b + c) == (a + b) + c
  {
  }

  lemma {:induction false} BracketingConcat(a: seq<Spanned>, b: seq<Spanned>)
    requires NoWordFirst(b) || (a != [] ==> !a[|a|-1].tok.Newline?)
    ensures Bracketing(a + b) == Bracketing(a) + Bracketing(b)
  {
    hide Marks, Bracketing, NoWordFirst;
    if a == [] {
      assert a + b == b;
      NoBracketing();
    } else {
      var rest := a[1..];
      assert rest != [] ==> rest[|rest|-1] == a[|a|-1];
      MarksConcat(a, b);
      BracketingConcat(rest, b);
      BracketingStep(a);
      BracketingStep(a + b);
      assert (a + b)[1..] == rest + b;
      MarksAssociative(Marks(a), Bracketing(rest), Bracketing(b));
    }
  }

  lemma MarksConcat(a: seq<Spanned>, b: seq<Spanned>)
    requires a != [] && (NoWordFirst(b) || !a[|a|-1].tok.Newline?)
    ensures Marks(a + b) == Marks(a)
  {
    if |a| > 1 {
      assert (a + b)[1] == a[1];
    } else if b != [] {
      assert (a + b)[1] == b[0];
    }
  }

  /** A line break and the words after it. */
  lemma BracketingLine(nl: Spanned, words: seq<Spanned>)
    requires nl.tok.Newline? && words != [] && Words(words)
    ensures Bracketing([nl] + words) == [Break] + Bracketing(words)
  {
    assert ([nl] + words)[1..] == words;
  }

  lemma {:induction false} BracketingDedents(span: Span, n: nat)
    ensures Bracketing(Repeat(Spanned(DedentMark, span), n)) == Dedents(n)
  {
    var r := Repeat(Spanned(DedentMark, span), n);
    if n > 0 {
      assert r[1..] == Repeat(Spanned(DedentMark, span), n - 1);
      BracketingDedents(span, n - 1);
      assert Dedents(n) == [De] + Dedents(n - 1);
    }
  }

  lemma {:induction false} BracketingBlanks(ts: seq<Spanned>)
    requires Blanks(ts)
    ensures Bracketing(ts) == []
  {
    if ts != [] { BracketingBlanks(ts[1..]); }
  }

  lemma {:induction false} TabsOfTabString(n: nat)
    ensures Tabs(TabString(n)) == n
  {
    if n > 0 {
      assert TabString(n)[1..] == TabString(n - 1);
      TabsOfTabString(n - 1);
    }
  }

  lemma LineBreakLevel(l: Line, level: nat)
    ensures Whitespace(LineBreak(l, level).tok.text) == TabString(level)
    ensures Tabs(TabString(level)) == level && CheckIndent(TabString(level), l.span).Ok?
    ensures Lexed(LineBreak(l, level))
  {
    TabsOfTabString(level);
    CheckIndentExact(TabString(level), l.span);
  }

  lemma PrependTwice(a: seq<Spanned>, b: seq<Spanned>, o: Outcome)
    ensures Prepend(a, Prepend(b, o)) == Prepend(a + b, o)
  {
    if o.Ok? { assert a + (b + o.out) == (a + b) + o.out; }
  }

  lemma {:induction false} ProcessWords(ws: seq<Spanned>, rest: seq<Spanned>, stack: seq<nat>, eof: Span)
    requires Words(ws) && stack != []
    ensures Process(ws + rest, stack, eof) == Prepend(ws, Process(rest, stack, eof))
  {
    if ws == [] {
      assert ws + rest == rest;
      assert Process(rest, stack, eof).Ok? ==> ws + Process(rest, stack, eof).out == Process(rest, stack, eof).out;
    } else {
      assert (ws + rest)[1..] == ws[1..] + rest;
      ProcessWords(ws[1..], rest, stack, eof);
      PrependTwice([ws[0]], ws[1..], Process(rest, stack, eof));
      assert [ws[0]] + ws[1..] == ws;
    }
  }

  /** Blank lines are not counted, whatever white space they hold. */
  lemma {:induction false} ProcessBlanks(bs: seq<Spanned>, rest: seq<Spanned>, stack: seq<nat>, eof: Span)
    requires Blanks(bs) && stack != [] && (rest == [] || rest[0].tok.Newline?)
    ensures Process(bs + rest, stack, eof) == Prepend(bs, Process(rest, stack, eof))
  {
    if bs == [] {
      assert bs + rest == rest;
      assert Process(rest, stack, eof).Ok? ==> bs + Process(rest, stack, eof).out == Process(rest, stack, eof).out;
    } else {
      var ts := bs + rest;
      assert ts[1..] == bs[1..] + rest;
      assert |ts| > 1 ==> ts[1] == (bs[1..] + rest)[0];
      assert !Measured(ts);
      ProcessBlanks(bs[1..], rest, stack, eof);
      PrependTwice([bs[0]], bs[1..], Process(rest, stack, eof));
      assert [bs[0]] + bs[1..] == bs;
    }
  }

  /** Where a line at `level` may start: one level deeper than everything on the stack, or back
      at a level on it. `base` is the stack once it has started. */
  ghost predicate StartsAt(stack: seq<nat>, level: nat, base: seq<nat>) {
    && Levels(stack) && Levels(base) && Top(base) == level
    && (base == stack + [level] || base <= stack)
  }

  function StartMarks(stack: seq<nat>, base: seq<nat>): seq<Mark> {
    if |base| > |stack| then [In] else Dedents(|stack| - |base|)
  }

  lemma SameLevel(stack: seq<nat>, i: nat, j: nat)
    requires Levels(stack) && i <= j < |stack| && stack[j] <= stack[i]
    ensures i == j
  {
  }

  lemma StartMove(stack: seq<nat>, level: nat, base: seq<nat>, span: Span)
    requires StartsAt(stack, level, base)
    ensures var (move, stack') := MoveTo(stack, level, span);
            move.Ok? && stack' == base && Bracketing(move.out) == StartMarks(stack, base) && NoWordFirst(move.out)
  {
    PopToFacts(stack, level);
    if base == stack + [level] {
      assert base[|stack|-1] < base[|stack|];
      assert [Spanned(IndentMark, span)][1..] == [];
    } else {
      assert stack[|base|-1] == level;
      var popped := PopTo(stack, level);
      assert |popped| >= |base|;
      SameLevel(stack, |base| - 1, |popped| - 1);
      BracketingDedents(span, |stack| - |popped|);
    }
  }

  /** Processing rendered lines from `stack` leaves a stack extending `base`; with the brackets
      still open closed, the output's bracketing is that of the lines. */
  lemma {:induction false} LinesRun(ls: Lines, level: nat, stack: seq<nat>, base: seq<nat>, rest: seq<Spanned>,
      eof: Span)
    returns (out: seq<Spanned>, end: seq<nat>)
    requires ValidLines(ls) && StartsAt(stack, level, base)
    ensures Levels(end) && base <= end
    ensures Process(RenderLines(ls, level) + rest, stack, eof) == Prepend(out, Process(rest, end, eof))
    ensures Bracketing(out) + Dedents(|end| - |base|) == StartMarks(stack, base) + FlattenLines(ls) && NoWordFirst(out)
    decreases ls, 0
  {
    hide Process, StartMarks, RenderLine, FlattenLine, Bracketing, Dedents, ValidLine;
    if ls.One? {
      out, end := LineRun(ls.line, level, stack, base, rest, eof);
      assert RenderLines(ls, level) == RenderLine(ls.line, level);
      assert FlattenLines(ls) == FlattenLine(ls.line);
    } else {
      var tail := RenderLines(ls.rest, level) + rest;
      var out1, mid := LineRun(ls.line, level, stack, base, tail, eof);
      NextStarts(mid, level, base);
      var out2, end2 := LinesRun(ls.rest, level, mid, base, rest, eof);
      assert RenderLines(ls, level) + rest == RenderLine(ls.line, level) + tail;
      PrependTwice(out1, out2, Process(rest, end2, eof));
      out, end := out1 + out2, end2;
      BracketingConcat(out1, out2);
      JoinMarks(Bracketing(out1), Bracketing(out2), |mid| - |base|, |end| - |base|,
                StartMarks(stack, base), FlattenLine(ls.line), FlattenLines(ls.rest));
    }
  }

  /** The next line starts back at a level on the stack. */
  lemma NextStarts(stack: seq<nat>, level: nat, base: seq<nat>)
    requires Levels(stack) && Levels(base) && base <= stack && Top(base) == level
    ensures StartsAt(stack, level, base) && StartMarks(stack, base) == Dedents(|stack| - |base|)
  {
    hide Levels, Dedents;
  }

  lemma JoinMarks(a: seq<Mark>, b: seq<Mark>, m: nat, n: nat, s: seq<Mark>, f: seq<Mark>, g: seq<Mark>)
    requires a + Dedents(m) == s + f
    requires b + Dedents(n) == Dedents(m) + g
    ensures a + b + Dedents(n) == s + (f + g)
  {
    assert a + b + Dedents(n) == a + (b + Dedents(n));
    assert a + (Dedents(m) + g) == a + Dedents(m) + g;
    assert s + f + g == s + (f + g);
  }

  /** The part of a line up to its last word. */
  lemma LineHead(l: Line, level: nat, stack: seq<nat>, base: seq<nat>, tail: seq<Spanned>, eof: Span)
    returns (out: seq<Spanned>)
    requires ValidLine(l) && StartsAt(stack, level, base)
    ensures Process(l.blanks + [LineBreak(l, level)] + l.words + tail, stack, eof) ==
        Prepend(out, Process(tail, base, eof))
    ensures Bracketing(out) == StartMarks(stack, base) + ([Break] + Bracketing(l.words))
    ensures out != [] && NoWordFirst(out)
  {
    hide Bracketing, MoveTo, ValidBlock, StartMarks;
    var nl := LineBreak(l, level);
    var body := [nl] + (l.words + tail);
    assert l.blanks + [nl] + l.words + tail == l.blanks + body;
    ProcessBlanks(l.blanks, body, stack, eof);
    StartMove(stack, level, base, l.span);
    var marks := MoveTo(stack, level, l.span).0.out;
    BreakStep(l, level, stack, base, tail, eof, marks);
    ProcessWords(l.words, tail, base, eof);
    var o := Process(tail, base, eof);
    PrependTwice(marks + [nl], l.words, o);
    PrependTwice(l.blanks, marks + [nl] + l.words, o);
    out := l.blanks + (marks + [nl] + l.words);
    assert marks + [nl] + l.words == marks + ([nl] + l.words);
    BracketingConcat(l.blanks, marks + ([nl] + l.words));
    BracketingConcat(marks, [nl] + l.words);
    BracketingLine(nl, l.words);
    BracketingBlanks(l.blanks);
  }

  lemma BreakStep(l: Line, level: nat, stack: seq<nat>, base: seq<nat>, tail: seq<Spanned>, eof: Span,
      marks: seq<Spanned>)
    requires ValidLine(l) && stack != [] && base != [] && MoveTo(stack, level, l.span) == (Ok(marks), base)
    ensures var nl := LineBreak(l, level);
            Process([nl] + (l.words + tail), stack, eof) == Prepend(marks + [nl], Process(l.words + tail, base, eof))
  {
    var nl := LineBreak(l, level);
    var body := [nl] + (l.words + tail);
    LineBreakLevel(l, level);
    assert body[1] == l.words[0] && body[1..] == l.words + tail && Measured(body);
  }

  lemma {:induction false} LineRun(l: Line, level: nat, stack: seq<nat>, base: seq<nat>, rest: seq<Spanned>, eof: Span)
    returns (out: seq<Spanned>, end: seq<nat>)
    requires ValidLine(l) && StartsAt(stack, level, base)
    ensures Levels(end) && base <= end
    ensures Process(RenderLine(l, level) + rest, stack, eof) == Prepend(out, Process(rest, end, eof))
    ensures Bracketing(out) + Dedents(|end| - |base|) == StartMarks(stack, base) + FlattenLine(l) && NoWordFirst(out)
    decreases l, 1
  {
    hide Process, Bracketing, StartMarks, Dedents, LineBreak, FlattenBlock, RenderBlock;
    var tail := RenderBlock(l.child, level) + rest;
    var head := LineHead(l, level, stack, base, tail, eof);
    assert RenderLine(l, level) + rest == l.blanks + [LineBreak(l, level)] + l.words + tail;
    var childOut, end' := BlockRun(l.child, level, base, rest, eof);
    end := end';
    PrependTwice(head, childOut, Process(rest, end, eof));
    out := head + childOut;
    BracketingConcat(head, childOut);
    CloseChild(StartMarks(stack, base), [Break] + Bracketing(l.words), Bracketing(childOut), Dedents(|end| - |base|));
  }

  lemma CloseChild(s: seq<Mark>, w: seq<Mark>, c: seq<Mark>, d: seq<Mark>)
    ensures (s + w) + c + d == s + (w + (c + d))
  {
  }

  lemma {:induction false} BlockRun(b: Block, level: nat, base: seq<nat>, rest: seq<Spanned>, eof: Span)
    returns (out: seq<Spanned>, end: seq<nat>)
    requires ValidBlock(b) && Levels(base) && Top(base) == level
    ensures Levels(end) && base <= end
    ensures Process(RenderBlock(b, level) + rest, base, eof) == Prepend(out, Process(rest, end, eof))
    ensures Bracketing(out) + Dedents(|end| - |base|) == FlattenBlock(b) && NoWordFirst(out)
    decreases b, 0
  {
    if b.NoBlock? {
      out, end := [], base;
      assert RenderBlock(b, level) + rest == rest;
      var o := Process(rest, base, eof);
      assert o.Ok? ==> [] + o.out == o.out;
    } else {
      var deeper := base + [level + b.extra];
      out, end := LinesRun(b.lines, level + b.extra, base, deeper, rest, eof);
      assert Dedents(|end| - |base|) == Dedents(|end| - |deeper|) + [De];
      assert Bracketing(out) + Dedents(|end| - |deeper|) + [De] == Bracketing(out) + Dedents(|end| - |base|);
    }
  }

  /** A source file: the words before any line break, a block under them, more lines at the top
      level, and trailing blank lines. */
  datatype File = File(first: seq<Spanned>, child: Block, hasLines: bool, lines: Lines, trailing: seq<Spanned>)

  ghost predicate ValidFile(f: File) {
    Words(f.first) && ValidBlock(f.child) && (f.hasLines ==> ValidLines(f.lines)) && Blanks(f.trailing)
  }

  function RenderFile(f: File): seq<Spanned> {
    f.first + (RenderBlock(f.child, 0) + ((if f.hasLines then RenderLines(f.lines, 0) else []) + f.trailing))
  }

  function FlattenFile(f: File): seq<Mark> {
    Bracketing(f.first) + (FlattenBlock(f.child) + (if f.hasLines then FlattenLines(f.lines) else []))
  }

  lemma TrailingRun(trailing: seq<Spanned>, stack: seq<nat>, eof: Span)
    requires Blanks(trailing) && stack != []
    ensures Process(trailing, stack, eof).Ok?
    ensures Bracketing(Process(trailing, stack, eof).out) == Dedents(|stack| - 1)
        && NoWordFirst(Process(trailing, stack, eof).out)
  {
    var close := Repeat(Spanned(DedentMark, eof), |stack| - 1);
    ProcessBlanks(trailing, [], stack, eof);
    assert trailing + [] == trailing;
    BracketingConcat(trailing, close);
    BracketingBlanks(trailing);
    BracketingDedents(eof, |stack| - 1);
  }

  /** Rendering any block tree and running the pass gives back the tree's lines and brackets. */
  lemma LayoutRoundTrip(f: File)
    requires ValidFile(f)
    ensures ProcessAll(RenderFile(f)).Ok?
    ensures Bracketing(ProcessAll(RenderFile(f)).out) == FlattenFile(f)
  {
    hide Process, Bracketing, Dedents, RenderBlock, RenderLines, FlattenBlock, FlattenLines, EofSpan;
    var eof := EofSpan(RenderFile(f));
    var lines := if f.hasLines then RenderLines(f.lines, 0) else [];
    var flat := if f.hasLines then FlattenLines(f.lines) else [];
    ProcessWords(f.first, RenderBlock(f.child, 0) + (lines + f.trailing), [0], eof);
    var out1, mid := BlockRun(f.child, 0, [0], lines + f.trailing, eof);
    var out2, end := TopLines(f, mid, eof);
    TrailingRun(f.trailing, end, eof);
    var out3 := Process(f.trailing, end, eof).out;
    BracketingConcat(f.first, out1 + (out2 + out3));
    BracketingConcat(out1, out2 + out3);
    BracketingConcat(out2, out3);
    JoinMarks(Bracketing(out1), Bracketing(out2), |mid| - 1, |end| - 1, [], FlattenBlock(f.child), flat);
    CloseFile(Bracketing(out1), Bracketing(out2), Bracketing(out3), FlattenBlock(f.child), flat);
  }

  lemma TopLines(f: File, mid: seq<nat>, eof: Span) returns (out: seq<Spanned>, end: seq<nat>)
    requires ValidFile(f) && Levels(mid)
    ensures Levels(end)
    ensures Process((if f.hasLines then RenderLines(f.lines, 0) else []) + f.trailing, mid, eof)
         == Prepend(out, Process(f.trailing, end, eof))
    ensures Bracketing(out) + Dedents(|end| - 1) ==
        Dedents(|mid| - 1) + (if f.hasLines then FlattenLines(f.lines) else [])
    ensures NoWordFirst(out)
  {
    hide Process, RenderLines, FlattenLines;
    if f.hasLines {
      out, end := LinesRun(f.lines, 0, mid, [0], f.trailing, eof);
    } else {
      out, end := [], mid;
      assert [] + f.trailing == f.trailing;
      EmptyPrefix(Process(f.trailing, mid, eof));
    }
  }

  lemma CloseFile(a: seq<Mark>, b: seq<Mark>, c: seq<Mark>, f: seq<Mark>, g: seq<Mark>)
    requires a + b + c == [] + (f + g)
    ensures a + (b + c) == f + g
  {
    assert a + (b + c) == a + b + c;
  }

  // ---------- The pass as written ----------

  method ValidateIndentation(ws: string, span: Span) returns (r: Outcome)
    ensures r == CheckIndent(ws, span)
  {
    for i := 0 to |ws|
      invariant CheckIndent(ws, span) == CheckIndent(ws[i..], span)
    {
      var ch := ws[i];
      assert ws[i..][1..] == ws[i+1..];
      if ch == ' ' { return Err(SpaceIndent(span)); }
      if ch != '\t' { return Err(BadCharacter(span, ch)); }
    }
    r := Ok([]);
  }

  /** Pops every level above `level`, one Dedent each. */
  method PopLevels(stack: seq<nat>, level: nat, span: Span, result: seq<Spanned>)
    returns (popped: seq<nat>, out: seq<Spanned>)
    requires Levels(stack)
    ensures popped == PopTo(stack, level) && Levels(popped)
    ensures out == result + Repeat(Spanned(DedentMark, span), |stack| - |popped|)
  {
    PopToFacts(stack, level);
    popped, out := stack, result;
    assert result + Repeat(Spanned(DedentMark, span), 0) == result;
    while popped[|popped|-1] > level
      invariant Levels(popped) && |popped| <= |stack| && PopTo(popped, level) == PopTo(stack, level)
      invariant out == result + Repeat(Spanned(DedentMark, span), |stack| - |popped|)
      decreases |popped|
    {
      popped := popped[..|popped|-1];
      out := out + [Spanned(DedentMark, span)];
    }
  }

  /** One counted newline: the markers it emits and the stack it leaves. */
  method CountedLine(stack: seq<nat>, t: Spanned, result: seq<Spanned>) returns (r: Outcome, stack': seq<nat>)
    requires Levels(stack) && t.tok.Newline?
    ensures CountedStep(stack, t).0.Err? ==> r == CountedStep(stack, t).0
    ensures CountedStep(stack, t).0.Ok? ==> r == Ok(result + CountedStep(stack, t).0.out)
    ensures stack' == CountedStep(stack, t).1 && Levels(stack')
  {
    hide CheckIndent;
    stack' := stack;
    var ws := Whitespace(t.tok.text);
    r := ValidateIndentation(ws, t.span);
    if r.Err? { return; }
    var level := Tabs(ws);
    MoveToFacts(stack, level, t.span);
    var out := result;
    if level > stack[|stack|-1] {
      stack' := stack + [level];
      out := result + [Spanned(IndentMark, t.span)];
    } else if level < stack[|stack|-1] {
      var popped;
      popped, out := PopLevels(stack, level, t.span, result);
      if popped[|popped|-1] != level { return Err(UnmatchedDedent(t.span, level)), stack; }
      stack' := popped;
    } else {
      assert PopTo(stack, level) == stack;
      assert result == result + Repeat(Spanned(DedentMark, t.span), 0);
    }
    r := Ok(out);
  }

  function CountedStep(stack: seq<nat>, t: Spanned): (Outcome, seq<nat>)
    requires stack != [] && t.tok.Newline?
  {
    var ws := Whitespace(t.tok.text);
    var check := CheckIndent(ws, t.span);
    if check.Err? then (check, stack) else MoveTo(stack, Tabs(ws), t.span)
  }

  lemma ProcessStep(ts: seq<Spanned>, stack: seq<nat>, eof: Span)
    requires Levels(stack) && ts != []
    ensures !Measured(ts) ==> Process(ts, stack, eof) == Prepend([ts[0]], Process(ts[1..], stack, eof))
    ensures Measured(ts) ==>
              var (move, stack') := CountedStep(stack, ts[0]);
              && (move.Err? ==> Process(ts, stack, eof) == move)
              && (move.Ok? ==>
                    && stack' != []
                    && Process(ts, stack, eof) == Prepend(move.out + [ts[0]], Process(ts[1..], stack', eof)))
  {
    hide CheckIndent;
    if Measured(ts) {
      MoveToFacts(stack, Tabs(Whitespace(ts[0].tok.text)), ts[0].span);
    }
  }

  /** `process`: the loop over the tokens, with the growing output and the level stack. */
  method ProcessTokens(tokens: seq<Spanned>) returns (r: Outcome)
    requires AllLexed(tokens)
    ensures r == ProcessAll(tokens)
    ensures r.Ok? ==> Erase(r.out) == tokens && Depth(r.out, 0) == 0
    ensures r.Ok? <==> forall i :: 0 <= i < |tokens| ==> LineOk(tokens, i)
  {
    hide LineOk, CountedStep, Erase, Depth, EofSpan, AllLexed;
    ghost var eof := EofSpan(tokens);
    AcceptsExactly(tokens);
    if ProcessAll(tokens).Ok? { OutputFaithful(tokens, [0], eof); }
    hide Process;
    var result: seq<Spanned>, stack: seq<nat> := [], [0];
    var i := 0;
    EmptyPrefix(Process(tokens, [0], eof));
    assert tokens[0..] == tokens;
    while i < |tokens|
      invariant 0 <= i <= |tokens| && Levels(stack)
      invariant ProcessAll(tokens) == Prepend(result, Process(tokens[i..], stack, eof))
    {
      var t := tokens[i];
      ghost var before := result;
      assert tokens[i..][1..] == tokens[i+1..];
      ProcessStep(tokens[i..], stack, eof);
      if t.tok.Newline? && i + 1 < |tokens| && !tokens[i+1].tok.Newline? {
        ghost var move := CountedStep(stack, t).0;
        var step;
        step, stack := CountedLine(stack, t, result);
        if step.Err? { return step; }
        result := step.out;
        PrependTwice(before, move.out + [t], Process(tokens[i+1..], stack, eof));
        assert before + (move.out + [t]) == result + [t];
      } else {
        PrependTwice(before, [t], Process(tokens[i+1..], stack, eof));
      }
      result := result + [t];
      i := i + 1;
    }
    var last := if tokens == [] then 0 else tokens[|tokens|-1].span;
    assert tokens[i..] == [];
    EndStep(stack, eof);
    assert last == eof by { LastSpan(tokens); }
    r := CloseAll(stack, last, result);
  }

  lemma LastSpan(ts: seq<Spanned>)
    ensures EofSpan(ts) == if ts == [] then 0 else ts[|ts|-1].span
  {
  }

  lemma EndStep(stack: seq<nat>, eof: Span)
    requires stack != []
    ensures Process([], stack, eof) == Ok(Repeat(Spanned(DedentMark, eof), |stack| - 1))
  {
  }

  /** The Dedents owed at the end of input. */
  method CloseAll(levels: seq<nat>, span: Span, result: seq<Spanned>) returns (r: Outcome)
    requires levels != []
    ensures r == Ok(result + Repeat(Spanned(DedentMark, span), |levels| - 1))
  {
    var stack, out := levels, result;
    assert out == result + Repeat(Spanned(DedentMark, span), 0);
    while |stack| > 1
      invariant 1 <= |stack| <= |levels|
      invariant out == result + Repeat(Spanned(DedentMark, span), |levels| - |stack|)
    {
      stack := stack[..|stack|-1];
      out := out + [Spanned(DedentMark, span)];
    }
    r := Ok(out);
  }

  lemma EmptyPrefix(o: Outcome)
    ensures Prepend([], o) == o
  {
    if o.Ok? { assert [] + o.out == o.out; }
  }
}
