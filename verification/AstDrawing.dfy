/** Trees drawn with box characters, one line per node, and the reader that takes the drawing apart. */
module Drawing {

  /** Whether a later sibling follows a node, or the node is a title line without a connector. */
  datatype Mark = Later | Last | Title

  datatype Tree = Tree(mark: Mark, text: string, children: seq<Tree>)

  function Draw(t: Tree, p: string): string
    decreases t
  {
    (match t.mark case Later => p + "├── " case Last => p + "└── " case Title => p) + t.text + "\n"
    + DrawAll(t.children, match t.mark case Later => p + "│   " case Last => p + "    " case Title => p + "  ")
  }

  function DrawAll(ts: seq<Tree>, p: string): string
    decreases ts
  {
    if ts == [] then "" else Draw(ts[0], p) + DrawAll(ts[1..], p)
  }

  // ---------- Reading a drawing ----------

  /** One line as read: the columns of its vertical bars, the column of its connector, and what follows. */
  datatype Row = Row(bars: seq<nat>, col: nat, mark: Mark, text: string)

  predicate Blank(c: char) { c == ' ' || c == '│' }

  function Blanks(line: string): (r: nat)
    ensures r <= |line|
  {
    if line != [] && Blank(line[0]) then 1 + Blanks(line[1..]) else 0
  }

  function BarsOf(p: string): seq<nat> {
    if p == [] then []
    else BarsOf(p[..|p|-1]) + if p[|p|-1] == '│' then [|p| - 1] else []
  }

  function ReadRow(line: string): Row {
    var col := Blanks(line);
    var rest, bars := line[col..], BarsOf(line[..col]);
    if "├── " <= rest then Row(bars, col, Later, rest[4..])
    else if "└── " <= rest then Row(bars, col, Last, rest[4..])
    else Row(bars, col, Title, rest)
  }

  function LineEnd(s: string): (r: nat)
    ensures r <= |s|
  {
    if s == [] || s[0] == '\n' then 0 else 1 + LineEnd(s[1..])
  }

  function ReadText(s: string): seq<Row>
    decreases |s|
  {
    if s == [] then []
    else
      var n := LineEnd(s);
      [ReadRow(s[..n])] + if n < |s| then ReadText(s[n+1..]) else []
  }

  function BarsBelow(t: Tree, bars: seq<nat>, col: nat): seq<nat> { if t.mark.Later? then bars + [col] else bars }

  function ColBelow(t: Tree, col: nat): (r: nat)
    ensures r > col
  {
    if t.mark.Title? then col + 2 else col + 4
  }

  /** The rows of a tree in source order: children start four columns further in, below a title two, and a bar
      stands at the column of every enclosing node that has a later sibling. */
  function Rows(t: Tree, bars: seq<nat>, col: nat): seq<Row>
    decreases t
  {
    [Row(bars, col, t.mark, t.text)] + RowsAll(t.children, BarsBelow(t, bars, col), ColBelow(t, col))
  }

  function RowsAll(ts: seq<Tree>, bars: seq<nat>, col: nat): seq<Row>
    decreases ts
  {
    if ts == [] then [] else Rows(ts[0], bars, col) + RowsAll(ts[1..], bars, col)
  }

  /** No text holds a line break, and a title cannot be taken for a connector or a bar. */
  predicate Clean(t: Tree)
    decreases t
  {
    && '\n' !in t.text
    && (t.mark.Title? ==> t.text != [] && !Blank(t.text[0]) && t.text[0] != '├' && t.text[0] != '└')
    && forall i :: 0 <= i < |t.children| ==> Clean(t.children[i])
  }

  predicate AllBlank(p: string) { forall i :: 0 <= i < |p| ==> Blank(p[i]) }

  lemma {:induction false} BlanksOf(p: string, rest: string)
    requires AllBlank(p) && (rest != [] ==> !Blank(rest[0]))
    ensures Blanks(p + rest) == |p|
  {
    if p == [] {
      assert p + rest == rest;
    } else {
      assert (p + rest)[1..] == p[1..] + rest;
      BlanksOf(p[1..], rest);
    }
  }

  lemma {:induction false} LineEndOf(line: string, rest: string)
    requires '\n' !in line
    ensures LineEnd(line + "\n" + rest) == |line|
  {
    if line == [] {
      assert line + "\n" + rest == "\n" + rest;
    } else {
      assert (line + "\n" + rest)[1..] == line[1..] + "\n" + rest;
      LineEndOf(line[1..], rest);
    }
  }

  lemma {:induction false} BarsAppend(p: string, q: string)
    requires |q| <= 4 && forall i :: 1 <= i < |q| ==> q[i] == ' '
    ensures BarsOf(p + q) == BarsOf(p) + if q != [] && q[0] == '│' then [|p|] else []
  {
    if q == [] {
      assert p + q == p;
    } else {
      var init := q[..|q|-1];
      assert (p + q)[..|p + q|-1] == p + init;
      BarsAppend(p, init);
    }
  }

  function Connected(mark: Mark): string {
    match mark case Later => "├── " case Last => "└── " case Title => ""
  }

  function Under(mark: Mark): string {
    match mark case Later => "│   " case Last => "    " case Title => "  "
  }

  lemma ReadRowOf(p: string, mark: Mark, text: string)
    requires AllBlank(p)
    requires mark.Title? ==> text != [] && !Blank(text[0]) && text[0] != '├' && text[0] != '└'
    ensures ReadRow(p + (Connected(mark) + text)) == Row(BarsOf(p), |p|, mark, text)
  {
    hide BarsOf, Blanks;
    var tail := Connected(mark) + text;
    BlanksOf(p, tail);
    assert (p + tail)[|p|..] == tail && (p + tail)[..|p|] == p;
    if mark.Title? {
      assert tail == text;
    } else {
      assert tail[..4] == Connected(mark) && tail[4..] == text;
    }
  }

  lemma Assoc(a: string, b: string, c: string)
    ensures a + b + c == a + (b + c)
  {
  }

  lemma ReadFirst(line: string, rest: string)
    requires '\n' !in line
    ensures ReadText(line + "\n" + rest) == [ReadRow(line)] + ReadText(rest)
  {
    hide ReadRow;
    LineEndOf(line, rest);
    var s := line + "\n" + rest;
    assert s[..|line|] == line && s[|line|+1..] == rest;
  }

  lemma NoBreak(p: string, mark: Mark, text: string)
    requires AllBlank(p) && '\n' !in text
    ensures '\n' !in p + (Connected(mark) + text)
  {
  }

  lemma ReadOne(p: string, mark: Mark, text: string, rest: string)
    requires AllBlank(p) && '\n' !in text
    requires mark.Title? ==> text != [] && !Blank(text[0]) && text[0] != '├' && text[0] != '└'
    ensures ReadText(p + Connected(mark) + text + "\n" + rest) == [Row(BarsOf(p), |p|, mark, text)] + ReadText(rest)
  {
    ReadRowOf(p, mark, text);
    NoBreak(p, mark, text);
    hide *;
    Assoc(p, Connected(mark), text);
    ReadFirst(p + (Connected(mark) + text), rest);
  }

  lemma RowsStep(t: Tree, bars: seq<nat>, col: nat)
    ensures Rows(t, bars, col)
         == [Row(bars, col, t.mark, t.text)] + RowsAll(t.children, BarsBelow(t, bars, col), ColBelow(t, col))
  {
  }

  lemma DrawStep(t: Tree, p: string)
    ensures Draw(t, p) == p + Connected(t.mark) + t.text + "\n" + DrawAll(t.children, p + Under(t.mark))
  {
    hide DrawAll;
    assert p + "" == p;
  }

  lemma RowsAssoc(a: seq<Row>, b: seq<Row>, c: seq<Row>)
    ensures a + b + c == a + (b + c)
  {
  }

  lemma {:induction false} ReadDraw(t: Tree, p: string, rest: string)
    requires AllBlank(p) && Clean(t)
    ensures ReadText(Draw(t, p) + rest) == Rows(t, BarsOf(p), |p|) + ReadText(rest)
    decreases t
  {
    hide ReadText, Draw, DrawAll, Rows, RowsAll, BarsOf;
    var below := p + Under(t.mark);
    var drawn := DrawAll(t.children, below);
    DrawStep(t, p);
    RowsStep(t, BarsOf(p), |p|);
    Assoc(p + Connected(t.mark) + t.text + "\n", drawn, rest);
    ReadOne(p, t.mark, t.text, drawn + rest);
    BarsAppend(p, Under(t.mark));
    assert BarsOf(p) + [] == BarsOf(p);
    assert BarsOf(below) == BarsBelow(t, BarsOf(p), |p|) && |below| == ColBelow(t, |p|);
    ReadDrawAll(t.children, below, rest);
    RowsAssoc([Row(BarsOf(p), |p|, t.mark, t.text)], RowsAll(t.children, BarsOf(below), |below|), ReadText(rest));
  }

  lemma {:induction false} ReadDrawAll(ts: seq<Tree>, p: string, rest: string)
    requires AllBlank(p) && forall i :: 0 <= i < |ts| ==> Clean(ts[i])
    ensures ReadText(DrawAll(ts, p) + rest) == RowsAll(ts, BarsOf(p), |p|) + ReadText(rest)
    decreases ts
  {
    hide ReadText, Draw, Rows, BarsOf;
    if ts == [] {
      assert "" + rest == rest;
    } else {
      var tail := DrawAll(ts[1..], p);
      Assoc(Draw(ts[0], p), tail, rest);
      ReadDraw(ts[0], p, tail + rest);
      ReadDrawAll(ts[1..], p, rest);
      RowsAssoc(Rows(ts[0], BarsOf(p), |p|), RowsAll(ts[1..], BarsOf(p), |p|), ReadText(rest));
    }
  }

  // ---------- From rows back to trees ----------

  /** How many rows from the first on stand further in than `col`. */
  function Deeper(rows: seq<Row>, col: nat): (r: nat)
    ensures r <= |rows|
  {
    if rows == [] || rows[0].col <= col then 0 else 1 + Deeper(rows[1..], col)
  }

  /** The trees that the rows depict, by their columns alone. */
  function Build(rows: seq<Row>): seq<Tree>
    decreases |rows|
  {
    if rows == [] then []
    else
      var n := Deeper(rows[1..], rows[0].col);
      [Tree(rows[0].mark, rows[0].text, Build(rows[1..][..n]))] + Build(rows[1..][n..])
  }

  lemma {:induction false} DeeperOf(inner: seq<Row>, rest: seq<Row>, col: nat)
    requires forall i :: 0 <= i < |inner| ==> inner[i].col > col
    requires rest != [] ==> rest[0].col <= col
    ensures Deeper(inner + rest, col) == |inner|
  {
    if inner == [] {
      assert inner + rest == rest;
    } else {
      assert (inner + rest)[1..] == inner[1..] + rest;
      DeeperOf(inner[1..], rest, col);
    }
  }

  lemma {:induction false} RowsInside(ts: seq<Tree>, bars: seq<nat>, col: nat)
    ensures forall i :: 0 <= i < |RowsAll(ts, bars, col)| ==> RowsAll(ts, bars, col)[i].col >= col
    ensures ts != [] ==> RowsAll(ts, bars, col) != [] && RowsAll(ts, bars, col)[0].col == col
    decreases ts
  {
    hide Rows;
    if ts != [] {
      RowsStep(ts[0], bars, col);
      RowsInside(ts[0].children, BarsBelow(ts[0], bars, col), ColBelow(ts[0], col));
      RowsInside(ts[1..], bars, col);
    }
  }

  lemma BuildStep(head: Row, inner: seq<Row>, rest: seq<Row>)
    requires forall i :: 0 <= i < |inner| ==> inner[i].col > head.col
    requires rest != [] ==> rest[0].col <= head.col
    ensures Build([head] + inner + rest) == [Tree(head.mark, head.text, Build(inner))] + Build(rest)
  {
    hide Deeper;
    var all := [head] + inner + rest;
    assert all[0] == head && all[1..] == inner + rest;
    DeeperOf(inner, rest, head.col);
    assert (inner + rest)[..|inner|] == inner && (inner + rest)[|inner|..] == rest;
  }

  /** The rows of a list of trees are taken apart into these trees. */
  lemma {:induction false} BuildRows(ts: seq<Tree>, bars: seq<nat>, col: nat)
    ensures Build(RowsAll(ts, bars, col)) == ts
    decreases ts
  {
    if ts != [] {
      var t := ts[0];
      RowsStep(t, bars, col);
      var bars', col' := BarsBelow(t, bars, col), ColBelow(t, col);
      var inner, rest := RowsAll(t.children, bars', col'), RowsAll(ts[1..], bars, col);
      assert RowsAll(ts, bars, col) == Rows(t, bars, col) + rest;
      hide Rows, RowsAll, Build;
      RowsInside(t.children, bars', col');
      RowsInside(ts[1..], bars, col);
      BuildStep(Row(bars, col, t.mark, t.text), inner, rest);
      BuildRows(t.children, bars', col');
      BuildRows(ts[1..], bars, col);
      assert ts == [t] + ts[1..];
    }
  }

  lemma OneTree(t: Tree)
    ensures DrawAll([t], "") == Draw(t, "") && RowsAll([t], [], 0) == Rows(t, [], 0)
  {
    assert [t][1..] == [];
    assert Draw(t, "") + "" == Draw(t, "") && Rows(t, [], 0) + [] == Rows(t, [], 0);
  }

  /** The drawing of a tree is read back as the tree, one line per node. */
  lemma DrawingReads(t: Tree)
    requires Clean(t)
    ensures ReadText(Draw(t, "")) == Rows(t, [], 0)
    ensures Build(ReadText(Draw(t, ""))) == [t]
  {
    hide Draw, Rows, Build, BarsOf;
    ReadDraw(t, "", "");
    assert Draw(t, "") + "" == Draw(t, "") && ReadText("") == [] && Rows(t, [], 0) + [] == Rows(t, [], 0);
    assert BarsOf("") == [] by { NoBars(); }
    OneTree(t);
    BuildRows([t], [], 0);
  }

  lemma NoBars()
    ensures BarsOf("") == []
  {
  }
}
