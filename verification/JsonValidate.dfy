/** The JSON validator: a recursive-descent recogniser over bytes, proved to accept exactly
    the JSON texts of sections 2 to 7 of RFC 8259. */
module JsonGrammar {
  import opened Common

  predicate IsWs(c: Byte) { c == 32 || c == 9 || c == 10 || c == 13 }

  predicate IsDigit(c: Byte) { 48 <= c <= 57 }

  predicate IsHex(c: Byte) { 48 <= c <= 57 || 65 <= c <= 70 || 97 <= c <= 102 }

  /** `ws` of section 2. */
  ghost predicate Ws(s: Bytes) { forall i :: 0 <= i < |s| ==> IsWs(s[i]) }

  ghost predicate Digits(s: Bytes) { forall i :: 0 <= i < |s| ==> IsDigit(s[i]) }

  /** `int` of section 6. */
  ghost predicate IntPart(s: Bytes) {
    s == [48] || (|s| >= 1 && 49 <= s[0] <= 57 && Digits(s))
  }

  ghost predicate FracPart(s: Bytes) { s == [] || (|s| >= 2 && s[0] == 46 && Digits(s[1..])) }

  ghost predicate ExpPart(s: Bytes) {
    s == [] ||
    (|s| >= 2 && (s[0] == 101 || s[0] == 69) &&
     (Digits(s[1..]) || (|s| >= 3 && (s[1] == 43 || s[1] == 45) && Digits(s[2..]))))
  }

  /** `number` of section 6: `[ minus ] int [ frac ] [ exp ]`. */
  ghost predicate NumberText(s: Bytes) {
    exists minus: Bytes, i: Bytes, f: Bytes, e: Bytes ::
      NumberParts(minus, i, f, e) && s == minus + i + f + e
  }

  ghost predicate NumberParts(minus: Bytes, i: Bytes, f: Bytes, e: Bytes) {
    (minus == [] || minus == [45]) && IntPart(i) && FracPart(f) && ExpPart(e)
  }

  predicate SimpleEscape(c: Byte) {
    c == 34 || c == 92 || c == 47 || c == 98 || c == 102 || c == 110 || c == 114 || c == 116
  }

  predicate HexEscape(s: Bytes) {
    |s| >= 6 && s[0] == 92 && s[1] == 117 && IsHex(s[2]) && IsHex(s[3]) && IsHex(s[4]) && IsHex(s[5])
  }

  /** `*char` of section 7, with `unescaped` read bytewise. */
  ghost predicate Chars(s: Bytes) {
    s == [] ||
    (s[0] >= 32 && s[0] != 34 && s[0] != 92 && Chars(s[1..])) ||
    (|s| >= 2 && s[0] == 92 && SimpleEscape(s[1]) && Chars(s[2..])) ||
    (HexEscape(s) && Chars(s[6..]))
  }

  /** `string` of section 7. */
  ghost predicate StringText(s: Bytes) {
    |s| >= 2 && s[0] == 34 && s[|s|-1] == 34 && Chars(s[1..|s|-1])
  }

  const TRUE_LIT: Bytes := [116, 114, 117, 101]
  const FALSE_LIT: Bytes := [102, 97, 108, 115, 101]
  const NULL_LIT: Bytes := [110, 117, 108, 108]

  /** The bytes of ASCII text. */
  function Ascii(text: string): Bytes {
    seq(|text|, i requires 0 <= i < |text| => text[i] as int % 256)
  }

  /** The byte classes and literals as the characters they stand for. */
  lemma Terminals(c: Byte)
    ensures IsWs(c) <==> c in Ascii(" \t\n\r")
    ensures IsDigit(c) <==> c in Ascii("0123456789")
    ensures IsHex(c) <==> c in Ascii("0123456789") + Ascii("abcdef") + Ascii("ABCDEF")
    ensures SimpleEscape(c) <==> c in Ascii("\"\\/bfnrt")
    ensures TRUE_LIT == Ascii("true") && FALSE_LIT == Ascii("false") && NULL_LIT == Ascii("null")
  {
    assert Ascii(" \t\n\r") == [32, 9, 10, 13];
    assert Ascii("0123456789") == [48, 49, 50, 51, 52, 53, 54, 55, 56, 57];
    assert Ascii("abcdef") == [97, 98, 99, 100, 101, 102];
    assert Ascii("ABCDEF") == [65, 66, 67, 68, 69, 70];
    assert Ascii("\"\\/bfnrt") == [34, 92, 47, 98, 102, 110, 114, 116];
  }

  /** Derivation trees of `value`; every value of a list carries the white space around it. */
  datatype Value =
    | Literal(text: Bytes)
    | Number(text: Bytes)
    | String(text: Bytes)
    | EmptyArray(pad: Bytes)
    | Array(items: Items)
    | EmptyObject(pad: Bytes)
    | Object(members: Members)

  datatype Items = LastItem(item: Item) | MoreItems(item: Item, rest: Items)

  datatype Item = Item(before: Bytes, value: Value, after: Bytes)

  datatype Members = LastMember(member: Member) | MoreMembers(member: Member, rest: Members)

  datatype Member = Member(before: Bytes, key: Bytes, beforeColon: Bytes, item: Item)

  ghost predicate ValidValue(v: Value) {
    match v
    case Literal(t) => t == TRUE_LIT || t == FALSE_LIT || t == NULL_LIT
    case Number(t) => NumberText(t)
    case String(t) => StringText(t)
    case EmptyArray(pad) => Ws(pad)
    case Array(items) => ValidItems(items)
    case EmptyObject(pad) => Ws(pad)
    case Object(members) => ValidMembers(members)
  }

  ghost predicate ValidItem(it: Item) { Ws(it.before) && ValidValue(it.value) && Ws(it.after) }

  ghost predicate ValidItems(items: Items) {
    ValidItem(items.item) && (items.MoreItems? ==> ValidItems(items.rest))
  }

  ghost predicate ValidMember(m: Member) {
    Ws(m.before) && StringText(m.key) && Ws(m.beforeColon) && ValidItem(m.item)
  }

  ghost predicate ValidMembers(members: Members) {
    ValidMember(members.member) && (members.MoreMembers? ==> ValidMembers(members.rest))
  }

  ghost function ValueText(v: Value): Bytes {
    match v
    case Literal(t) => t
    case Number(t) => t
    case String(t) => t
    case EmptyArray(pad) => [91] + pad + [93]
    case Array(items) => [91] + ItemsText(items) + [93]
    case EmptyObject(pad) => [123] + pad + [125]
    case Object(members) => [123] + MembersText(members) + [125]
  }

  ghost function ItemText(it: Item): Bytes { it.before + ValueText(it.value) + it.after }

  ghost function ItemsText(items: Items): Bytes {
    match items
    case LastItem(it) => ItemText(it)
    case MoreItems(it, rest) => ItemText(it) + [44] + ItemsText(rest)
  }

  ghost function MemberText(m: Member): Bytes { m.before + m.key + m.beforeColon + [58] + ItemText(m.item) }

  ghost function MembersText(members: Members): Bytes {
    match members
    case LastMember(m) => MemberText(m)
    case MoreMembers(m, rest) => MemberText(m) + [44] + MembersText(rest)
  }

  /** `JSON-text = ws value ws` of section 2. */
  ghost predicate JsonText(s: Bytes) {
    exists it :: ValidItem(it) && s == ItemText(it)
  }
}

module JsonValidate {
  import opened Common
  import opened JsonGrammar

  // ---------- The parser as functions of the input and a position ----------

  function SkipWs(b: Bytes, p: nat): (r: nat)
    requires p <= |b|
    ensures p <= r <= |b| && Ws(b[p..r]) && (r < |b| ==> !IsWs(b[r]))
    decreases |b| - p
  {
    if p < |b| && IsWs(b[p]) then
      assert forall r :: p < r <= |b| ==> b[p..r] == [b[p]] + b[p+1..r];
      SkipWs(b, p + 1)
    else p
  }

  function SkipDigits(b: Bytes, p: nat): (r: nat)
    requires p <= |b|
    ensures p <= r <= |b| && Digits(b[p..r]) && (r < |b| ==> !IsDigit(b[r]))
    decreases |b| - p
  {
    if p < |b| && IsDigit(b[p]) then
      assert forall r :: p < r <= |b| ==> b[p..r] == [b[p]] + b[p+1..r];
      SkipDigits(b, p + 1)
    else p
  }

  /** The rest of a string from inside it. */
  function StringRest(b: Bytes, i: nat): (r: int)
    requires i <= |b|
    ensures r == -1 || i < r <= |b|
    decreases |b| - i
  {
    if i >= |b| then -1
    else if b[i] == 34 then i + 1
    else if b[i] == 92 then
      if i + 1 >= |b| then -1
      else if SimpleEscape(b[i+1]) then StringRest(b, i + 2)
      else if HexEscape(b[i..]) then StringRest(b, i + 6)
      else -1
    else if b[i] < 32 then -1
    else StringRest(b, i + 1)
  }

  function ParseString(b: Bytes, p: nat): (r: int)
    requires p <= |b|
    ensures r == -1 || p < r <= |b|
  {
    if p >= |b| || b[p] != 34 then -1 else StringRest(b, p + 1)
  }

  function ParseInt(b: Bytes, p: nat): (r: int)
    requires p <= |b|
    ensures r == -1 || p < r <= |b|
  {
    if p >= |b| then -1
    else if b[p] == 48 then p + 1
    else if 49 <= b[p] <= 57 then SkipDigits(b, p)
    else -1
  }

  function ParseFrac(b: Bytes, p: nat): (r: int)
    requires p <= |b|
    ensures r == -1 || p <= r <= |b|
  {
    if p < |b| && b[p] == 46 then
      if p + 1 >= |b| || !IsDigit(b[p+1]) then -1 else SkipDigits(b, p + 1)
    else p
  }

  function ParseExp(b: Bytes, p: nat): (r: int)
    requires p <= |b|
    ensures r == -1 || p <= r <= |b|
  {
    if p < |b| && (b[p] == 101 || b[p] == 69) then
      var i := if p + 1 < |b| && (b[p+1] == 43 || b[p+1] == 45) then p + 2 else p + 1;
      if i >= |b| || !IsDigit(b[i]) then -1 else SkipDigits(b, i)
    else p
  }

  function ParseNumber(b: Bytes, p: nat): (r: int)
    requires p <= |b|
    ensures r == -1 || p < r <= |b|
  {
    var i := ParseInt(b, if p < |b| && b[p] == 45 then p + 1 else p);
    if i < 0 then -1 else
    var f := ParseFrac(b, i);
    if f < 0 then -1 else ParseExp(b, f)
  }

  function MatchLit(b: Bytes, p: nat, lit: Bytes): (r: int)
    requires p <= |b| && |lit| > 0
    ensures r == -1 || p < r <= |b|
  {
    if p + |lit| <= |b| && b[p..p+|lit|] == lit then p + |lit| else -1
  }

  function ParseValue(b: Bytes, p: nat): (r: int)
    requires p <= |b|
    ensures r == -1 || p < r <= |b|
    decreases |b| - p, 2
  {
    var i := SkipWs(b, p);
    if i >= |b| then -1
    else if b[i] == 123 then ParseObject(b, i)
    else if b[i] == 91 then ParseArray(b, i)
    else if b[i] == 34 then ParseString(b, i)
    else if b[i] == 116 then MatchLit(b, i, TRUE_LIT)
    else if b[i] == 102 then MatchLit(b, i, FALSE_LIT)
    else if b[i] == 110 then MatchLit(b, i, NULL_LIT)
    else if b[i] == 45 || IsDigit(b[i]) then ParseNumber(b, i)
    else -1
  }

  function ParseArray(b: Bytes, p: nat): (r: int)
    requires p < |b|
    ensures r == -1 || p < r <= |b|
    decreases |b| - p, 1
  {
    var i := SkipWs(b, p + 1);
    if i < |b| && b[i] == 93 then i + 1 else
    var r := ParseValue(b, i);
    if r < 0 then -1 else ArrayRest(b, r)
  }

  /** The array loop, entered just after an element. */
  function ArrayRest(b: Bytes, p: nat): (r: int)
    requires p <= |b|
    ensures r == -1 || p < r <= |b|
    decreases |b| - p, 0
  {
    var i := SkipWs(b, p);
    if i >= |b| then -1
    else if b[i] == 44 then
      var r := ParseValue(b, i + 1);
      if r < 0 then -1 else ArrayRest(b, r)
    else if b[i] == 93 then i + 1
    else -1
  }

  /** `"key" ws : value`, entered at the key's opening quote. */
  function ParseMember(b: Bytes, p: nat): (r: int)
    requires p <= |b|
    ensures r == -1 || p < r <= |b|
    decreases |b| - p, 3
  {
    var k := ParseString(b, p);
    if k < 0 then -1 else
    var i := SkipWs(b, k);
    if i >= |b| || b[i] != 58 then -1 else ParseValue(b, i + 1)
  }

  function ParseObject(b: Bytes, p: nat): (r: int)
    requires p < |b|
    ensures r == -1 || p < r <= |b|
    decreases |b| - p, 1
  {
    var i := SkipWs(b, p + 1);
    if i < |b| && b[i] == 125 then i + 1 else
    var r := ParseMember(b, i);
    if r < 0 then -1 else ObjectRest(b, r)
  }

  function ObjectRest(b: Bytes, p: nat): (r: int)
    requires p <= |b|
    ensures r == -1 || p < r <= |b|
    decreases |b| - p, 0
  {
    var i := SkipWs(b, p);
    if i >= |b| then -1
    else if b[i] == 44 then
      var r := ParseMember(b, SkipWs(b, i + 1));
      if r < 0 then -1 else ObjectRest(b, r)
    else if b[i] == 125 then i + 1
    else -1
  }

  predicate Valid(b: Bytes) {
    var p := ParseValue(b, 0);
    p >= 0 && SkipWs(b, p) == |b|
  }

  // ---------- Tokens ----------

  lemma Slice(b: Bytes, p: nat, q: nat, i: nat, j: nat)
    requires p <= q <= |b| && i <= j <= q - p
    ensures b[p..q][i..j] == b[p+i..p+j]
  {
    var s := b[p..q];
    forall k | 0 <= k < j - i ensures s[i..j][k] == b[p+i..p+j][k] {
      assert s[i..j][k] == s[i+k] == b[p+i+k];
    }
  }

  /** `text` stands in the input between `p` and `q`. */
  ghost predicate At(b: Bytes, p: nat, q: nat, text: Bytes) {
    p <= q <= |b| && b[p..q] == text
  }

  lemma JoinAt(b: Bytes, p: nat, m: nat, q: nat, s: Bytes, t: Bytes)
    requires At(b, p, m, s) && At(b, m, q, t)
    ensures At(b, p, q, s + t)
  {
    assert b[p..q] == b[p..m] + b[m..q];
  }

  lemma SplitAt(b: Bytes, p: nat, q: nat, s: Bytes, t: Bytes) returns (m: nat)
    requires At(b, p, q, s + t)
    ensures m == p + |s| && At(b, p, m, s) && At(b, m, q, t)
  {
    m := p + |s|;
    Slice(b, p, q, 0, |s|);
    Slice(b, p, q, |s|, q - p);
    assert (s + t)[0..|s|] == s && (s + t)[|s|..q-p] == t;
  }

  lemma ByteAt(b: Bytes, p: nat)
    requires p < |b|
    ensures At(b, p, p + 1, [b[p]])
  {
  }

  lemma FirstAt(b: Bytes, p: nat, q: nat, text: Bytes)
    requires At(b, p, q, text) && text != []
    ensures p < q && b[p] == text[0] && q == p + |text|
  {
    assert b[p] == b[p..q][0];
  }

  lemma {:induction false} SkipWsUnique(b: Bytes, p: nat, q: nat)
    requires p <= q <= |b| && Ws(b[p..q]) && (q < |b| ==> !IsWs(b[q]))
    ensures SkipWs(b, p) == q
    decreases q - p
  {
    if p < q {
      assert b[p] == b[p..q][0];
      assert b[p+1..q] == b[p..q][1..];
      SkipWsUnique(b, p + 1, q);
    }
  }

  lemma {:induction false} SkipDigitsUnique(b: Bytes, p: nat, q: nat)
    requires p <= q <= |b| && Digits(b[p..q]) && (q < |b| ==> !IsDigit(b[q]))
    ensures SkipDigits(b, p) == q
    decreases q - p
  {
    if p < q {
      assert b[p] == b[p..q][0];
      assert b[p+1..q] == b[p..q][1..];
      SkipDigitsUnique(b, p + 1, q);
    }
  }

  lemma {:induction false} StringRestSound(b: Bytes, i: nat)
    requires i <= |b| && StringRest(b, i) >= 0
    ensures var q := StringRest(b, i); b[q-1] == 34 && Chars(b[i..q-1])
    decreases |b| - i
  {
    hide Chars, HexEscape, SimpleEscape;
    var q := StringRest(b, i);
    if b[i] == 34 {
      NoChars(b[i..q-1]);
    } else {
      var n := if b[i] == 92 then if SimpleEscape(b[i+1]) then 2 else 6 else 1;
      if n == 6 { HexLength(b[i..]); }
      StringRestSound(b, i + n);
      CharThen(b, i, q - 1, n);
    }
  }

  lemma HexLength(s: Bytes)
    ensures HexEscape(s) ==> |s| >= 6
  {
  }

  lemma NoChars(s: Bytes)
    requires s == []
    ensures Chars(s)
  {
  }

  /** One character of `n` bytes, then more. */
  lemma CharThen(b: Bytes, i: nat, q: nat, n: nat)
    requires i + n <= q <= |b| && Chars(b[i+n..q])
    requires || (n == 1 && b[i] >= 32 && b[i] != 34 && b[i] != 92)
             || (n == 2 && b[i] == 92 && SimpleEscape(b[i+1]))
             || (n == 6 && HexEscape(b[i..]))
    ensures Chars(b[i..q])
  {
    var s := b[i..q];
    Slice(b, i, q, n, q - i);
    assert forall k :: 0 <= k < n ==> s[k] == b[i..][k] == b[i+k];
  }

  lemma {:induction false} StringRestComplete(b: Bytes, i: nat, q: nat)
    requires i < q <= |b| && b[q-1] == 34 && Chars(b[i..q-1])
    ensures StringRest(b, i) == q
    decreases q - i
  {
    var s := b[i..q-1];
    if s != [] {
      assert s[0] == b[i];
      if b[i] != 92 {
        assert s[1..] == b[i+1..q-1];
        StringRestComplete(b, i + 1, q);
      } else if SimpleEscape(s[1]) {
        assert s[2..] == b[i+2..q-1];
        StringRestComplete(b, i + 2, q);
      } else {
        assert s[6..] == b[i+6..q-1];
        assert forall k :: 0 <= k < 6 ==> s[k] == b[i..][k];
        StringRestComplete(b, i + 6, q);
      }
    }
  }

  lemma ParseStringSound(b: Bytes, p: nat, q: nat)
    requires p <= |b| && ParseString(b, p) == q
    ensures q <= |b| && StringText(b[p..q])
  {
    hide Chars, StringRest;
    StringRestSound(b, p + 1);
    Slice(b, p, q, 1, q - p - 1);
    Ends(b, p, q);
  }

  lemma ParseStringComplete(b: Bytes, p: nat, q: nat)
    requires p <= q <= |b| && StringText(b[p..q])
    ensures ParseString(b, p) == q
  {
    hide Chars, StringRest;
    Slice(b, p, q, 1, q - p - 1);
    Ends(b, p, q);
    StringRestComplete(b, p + 1, q);
  }

  lemma Ends(b: Bytes, p: nat, q: nat)
    requires p < q <= |b|
    ensures b[p..q][0] == b[p] && b[p..q][q-p-1] == b[q-1]
  {
  }

  /** The string scanner stops at `q` exactly when the bytes up to `q` are a JSON string. */
  lemma ParseStringExact(b: Bytes, p: nat, q: nat)
    requires p <= q <= |b|
    ensures ParseString(b, p) == q <==> StringText(b[p..q])
  {
    hide StringText, ParseString;
    if ParseString(b, p) == q { ParseStringSound(b, p, q); }
    if StringText(b[p..q]) { ParseStringComplete(b, p, q); }
  }

  lemma IntSound(b: Bytes, s: nat)
    requires s <= |b| && ParseInt(b, s) >= 0
    ensures IntPart(b[s..ParseInt(b, s)])
  {
    assert b[s..ParseInt(b, s)][0] == b[s];
  }

  lemma FracSound(b: Bytes, i: nat)
    requires i <= |b| && ParseFrac(b, i) >= 0
    ensures FracPart(b[i..ParseFrac(b, i)])
  {
    var f := ParseFrac(b, i);
    if i < f { Slice(b, i, f, 1, f - i); }
  }

  lemma ExpSound(b: Bytes, f: nat)
    requires f <= |b| && ParseExp(b, f) >= 0
    ensures ExpPart(b[f..ParseExp(b, f)])
  {
    var e := ParseExp(b, f);
    if f < e {
      Slice(b, f, e, 1, e - f);
      Slice(b, f, e, 2, e - f);
      assert b[f..e][0] == b[f] && b[f..e][1] == b[f+1];
    }
  }

  lemma ParseNumberSound(b: Bytes, p: nat)
    requires p <= |b| && ParseNumber(b, p) >= 0
    ensures NumberText(b[p..ParseNumber(b, p)])
  {
    hide IntPart, FracPart, ExpPart, ParseInt, ParseFrac, ParseExp, At;
    var s := if p < |b| && b[p] == 45 then p + 1 else p;
    var i := ParseInt(b, s);
    var f := ParseFrac(b, i);
    var e := ParseExp(b, f);
    IntSound(b, s);
    FracSound(b, i);
    ExpSound(b, f);
    MinusSound(b, p, s);
    assert NumberParts(b[p..s], b[s..i], b[i..f], b[f..e]);
    FourPieces(b, p, s, i, f, e);
  }

  lemma MinusSound(b: Bytes, p: nat, s: nat)
    requires p <= |b| && s == if p < |b| && b[p] == 45 then p + 1 else p
    ensures b[p..s] == [] || b[p..s] == [45]
  {
  }

  lemma FourPieces(b: Bytes, p: nat, s: nat, i: nat, f: nat, e: nat)
    requires p <= s <= i <= f <= e <= |b|
    ensures b[p..e] == b[p..s] + b[s..i] + b[i..f] + b[f..e]
  {
    assert b[p..i] == b[p..s] + b[s..i];
    assert b[p..f] == b[p..i] + b[i..f];
    assert b[p..e] == b[p..f] + b[f..e];
  }

  predicate NumberStops(b: Bytes, q: nat) {
    q >= |b| || !(IsDigit(b[q]) || b[q] == 46 || b[q] == 101 || b[q] == 69)
  }

  /** Maximal munch: a number not followed by a byte that could extend it is read to its end. */
  lemma ParseNumberComplete(b: Bytes, p: nat, q: nat)
    requires p <= q <= |b| && NumberText(b[p..q]) && NumberStops(b, q)
    ensures ParseNumber(b, p) == q
  {
    hide IntPart, FracPart, ExpPart, ParseInt, ParseFrac, ParseExp, At, ParseNumber;
    var minus: Bytes, i: Bytes, f: Bytes, e: Bytes :| NumberParts(minus, i, f, e) && b[p..q] == minus + i + f + e;
    WholeAt(b, p, q, minus + i + f + e);
    var u := SplitAt(b, p, q, minus + i + f, e);
    var t := SplitAt(b, p, u, minus + i, f);
    var s := SplitAt(b, p, t, minus, i);
    PartStarts(i, f, e);
    FirstAt(b, s, t, i);
    if f != [] { FirstAt(b, t, u, f); }
    if e != [] { FirstAt(b, u, q, e); }
    if minus != [] { FirstAt(b, p, s, minus); }
    TextAt(b, s, t, i);
    TextAt(b, t, u, f);
    TextAt(b, u, q, e);
    IntComplete(b, s, t);
    FracComplete(b, t, u);
    ExpComplete(b, u, q);
    NumberSteps(b, p, s, t, u);
  }

  lemma WholeAt(b: Bytes, p: nat, q: nat, text: Bytes)
    requires p <= q <= |b| && b[p..q] == text
    ensures At(b, p, q, text)
  {
  }

  lemma TextAt(b: Bytes, p: nat, q: nat, text: Bytes)
    requires At(b, p, q, text)
    ensures p <= q <= |b| && b[p..q] == text && q == p + |text|
  {
  }

  lemma NumberSteps(b: Bytes, p: nat, s: nat, t: nat, u: nat)
    requires p <= |b| && s == (if p < |b| && b[p] == 45 then p + 1 else p) && t <= |b| && u <= |b|
    requires ParseInt(b, s) == t && ParseFrac(b, t) == u
    ensures ParseNumber(b, p) == ParseExp(b, u)
  {
  }

  lemma PartStarts(i: Bytes, f: Bytes, e: Bytes)
    requires IntPart(i) && FracPart(f) && ExpPart(e)
    ensures i != [] && IsDigit(i[0])
    ensures f != [] ==> f[0] == 46
    ensures e != [] ==> e[0] == 101 || e[0] == 69
  {
  }

  lemma IntComplete(b: Bytes, s: nat, t: nat)
    requires s <= t <= |b| && IntPart(b[s..t]) && (t < |b| ==> !IsDigit(b[t]))
    ensures ParseInt(b, s) == t
  {
    assert b[s] == b[s..t][0];
    if b[s] != 48 { SkipDigitsUnique(b, s, t); }
  }

  lemma FracComplete(b: Bytes, t: nat, u: nat)
    requires t <= u <= |b| && FracPart(b[t..u])
    requires u < |b| ==> !IsDigit(b[u]) && (t == u ==> b[u] != 46)
    ensures ParseFrac(b, t) == u
  {
    if t < u {
      var f := b[t..u];
      assert f[0] == b[t] && f[1] == b[t+1] && f[1..] == b[t+1..u];
      assert f[1..][0] == b[t+1];
      SkipDigitsUnique(b, t + 1, u);
    }
  }

  lemma ExpComplete(b: Bytes, u: nat, q: nat)
    requires u <= q <= |b| && ExpPart(b[u..q]) && NumberStops(b, q)
    ensures ParseExp(b, u) == q
  {
    if u < q {
      var e := b[u..q];
      assert e[0] == b[u] && e[1] == b[u+1] && e[1..] == b[u+1..q] && e[1..][0] == e[1];
      if e[1] == 43 || e[1] == 45 {
        assert e[2..] == b[u+2..q] && e[2..][0] == b[u+2];
        SkipDigitsUnique(b, u + 2, q);
      } else {
        SkipDigitsUnique(b, u + 1, q);
      }
    }
  }

  // ---------- Values: soundness ----------

  lemma {:induction false} SkipWsTwice(b: Bytes, p: nat)
    requires p <= |b|
    ensures SkipWs(b, SkipWs(b, p)) == SkipWs(b, p)
    ensures ParseValue(b, SkipWs(b, p)) == ParseValue(b, p)
  {
    SkipWsUnique(b, SkipWs(b, p), SkipWs(b, p));
  }

  /** What the parser accepts after optional white space is a derivation of `value`. */
  lemma {:induction false} ParseValueSound(b: Bytes, p: nat) returns (v: Value)
    requires p <= |b| && ParseValue(b, p) >= 0
    ensures ValidValue(v) && At(b, SkipWs(b, p), ParseValue(b, p), ValueText(v))
    decreases |b| - p, 2
  {
    hide SkipWs, ParseObject, ParseArray, ParseNumber, ParseString, StringText, NumberText;
    var i, q := SkipWs(b, p), ParseValue(b, p);
    if b[i] == 123 {
      v := ParseObjectSound(b, i);
    } else if b[i] == 91 {
      v := ParseArraySound(b, i);
    } else if b[i] == 34 {
      ParseStringExact(b, i, q);
      v := String(b[i..q]);
    } else if b[i] == 116 || b[i] == 102 || b[i] == 110 {
      v := Literal(b[i..q]);
    } else {
      ParseNumberSound(b, i);
      v := Number(b[i..q]);
    }
  }

  lemma {:induction false} ParseArraySound(b: Bytes, p: nat) returns (v: Value)
    requires p < |b| && b[p] == 91 && ParseArray(b, p) >= 0
    ensures ValidValue(v) && At(b, p, ParseArray(b, p), ValueText(v))
    decreases |b| - p, 1
  {
    hide SkipWs, ParseValue, ArrayRest, ItemsText, ValidItems, At;
    var i, q := SkipWs(b, p + 1), ParseArray(b, p);
    ByteAt(b, p);
    ByteAt(b, q - 1);
    if i < |b| && b[i] == 93 {
      SliceIs(b, p + 1, i);
      JoinAt(b, p, p + 1, i, [91], b[p+1..i]);
      JoinAt(b, p, i, q, [91] + b[p+1..i], [93]);
      v := EmptyArray(b[p+1..i]);
    } else {
      SkipWsTwice(b, p + 1);
      var w := ParseValueSound(b, p + 1);
      var items := ArrayRestSound(b, p + 1, w);
      JoinAt(b, p, p + 1, q - 1, [91], ItemsText(items));
      JoinAt(b, p, q - 1, q, [91] + ItemsText(items), [93]);
      v := Array(items);
    }
  }

  lemma SliceIs(b: Bytes, p: nat, q: nat)
    requires p <= q <= |b|
    ensures At(b, p, q, b[p..q])
  {
  }

  /** The loop, entered after the element `w` whose white space starts at `s`. */
  lemma {:induction false} ArrayRestSound(b: Bytes, s: nat, w: Value) returns (items: Items)
    requires s <= |b| && ParseValue(b, s) >= 0 && ArrayRest(b, ParseValue(b, s)) >= 0
    requires ValidValue(w) && At(b, SkipWs(b, s), ParseValue(b, s), ValueText(w))
    ensures ValidItems(items)
    ensures var q := ArrayRest(b, ParseValue(b, s)); b[q-1] == 93 && At(b, s, q - 1, ItemsText(items))
    decreases |b| - s, 0
  {
    hide SkipWs, ParseValue, ValueText, ValidValue;
    var p := ParseValue(b, s);
    var i := SkipWs(b, p);
    var before: Bytes := b[s..SkipWs(b, s)];
    var item := Item(before, w, b[p..i]);
    JoinAt(b, s, SkipWs(b, s), p, before, ValueText(w));
    JoinAt(b, s, p, i, before + ValueText(w), b[p..i]);
    if b[i] == 44 {
      var w' := ParseValueSound(b, i + 1);
      var rest := ArrayRestSound(b, i + 1, w');
      items := MoreItems(item, rest);
      ByteAt(b, i);
      JoinAt(b, s, i, i + 1, ItemText(item), [44]);
      JoinAt(b, s, i + 1, ArrayRest(b, p) - 1, ItemText(item) + [44], ItemsText(rest));
    } else {
      items := LastItem(item);
    }
  }

  lemma {:induction false} ParseObjectSound(b: Bytes, p: nat) returns (v: Value)
    requires p < |b| && b[p] == 123 && ParseObject(b, p) >= 0
    ensures ValidValue(v) && At(b, p, ParseObject(b, p), ValueText(v))
    decreases |b| - p, 1
  {
    hide SkipWs, ParseMember, ObjectRest;
    var i, q := SkipWs(b, p + 1), ParseObject(b, p);
    ByteAt(b, p);
    ByteAt(b, q - 1);
    if i < |b| && b[i] == 125 {
      JoinAt(b, p, p + 1, i, [123], b[p+1..i]);
      JoinAt(b, p, i, q, [123] + b[p+1..i], [125]);
      v := EmptyObject(b[p+1..i]);
    } else {
      var members := MembersSound(b, p + 1);
      JoinAt(b, p, p + 1, q - 1, [123], MembersText(members));
      JoinAt(b, p, q - 1, q, [123] + MembersText(members), [125]);
      v := Object(members);
    }
  }

  lemma {:induction false} MemberSound(b: Bytes, s: nat) returns (m: Member)
    requires s <= |b| && ParseMember(b, SkipWs(b, s)) >= 0
    ensures ValidMember(m) && At(b, s, SkipWs(b, ParseMember(b, SkipWs(b, s))), MemberText(m))
    decreases |b| - s, 3
  {
    hide SkipWs, ParseString, ParseValue, StringText, At, Ws;
    var i := SkipWs(b, s);
    var p := ParseMember(b, i);
    var k := ParseString(b, i);
    var c := SkipWs(b, k);
    var v := ParseValueSound(b, c + 1);
    ParseStringExact(b, i, k);
    var before := WsAt(b, s);
    var beforeColon := WsAt(b, k);
    var beforeValue := WsAt(b, c + 1);
    var after := WsAt(b, p);
    assert At(b, i, k, b[i..k]) by { SelfAt(b, i, k); }
    m := Member(before, b[i..k], beforeColon, Item(beforeValue, v, after));
    JoinAt(b, c + 1, SkipWs(b, c + 1), p, beforeValue, ValueText(v));
    JoinAt(b, c + 1, p, SkipWs(b, p), beforeValue + ValueText(v), after);
    JoinAt(b, s, i, k, before, m.key);
    JoinAt(b, s, k, c, before + m.key, beforeColon);
    ByteAt(b, c);
    JoinAt(b, s, c, c + 1, before + m.key + beforeColon, [58]);
    JoinAt(b, s, c + 1, SkipWs(b, p), before + m.key + beforeColon + [58], ItemText(m.item));
  }

  lemma SelfAt(b: Bytes, p: nat, q: nat)
    requires p <= q <= |b|
    ensures At(b, p, q, b[p..q])
  {
  }

  lemma WsAt(b: Bytes, p: nat) returns (w: Bytes)
    requires p <= |b|
    ensures Ws(w) && At(b, p, SkipWs(b, p), w)
  {
    w := b[p..SkipWs(b, p)];
  }

  /** The members from `s`, where a member's white space starts, to the closing brace. */
  lemma {:induction false} MembersSound(b: Bytes, s: nat) returns (members: Members)
    requires s <= |b| && ParseMember(b, SkipWs(b, s)) >= 0 && ObjectRest(b, ParseMember(b, SkipWs(b, s))) >= 0
    ensures ValidMembers(members)
    ensures var q := ObjectRest(b, ParseMember(b, SkipWs(b, s))); b[q-1] == 125 && At(b, s, q - 1, MembersText(members))
    decreases |b| - s, 4
  {
    hide SkipWs, ParseMember, MemberText, ValidMember, At;
    var p := ParseMember(b, SkipWs(b, s));
    var j := SkipWs(b, p);
    var m := MemberSound(b, s);
    if b[j] == 44 {
      var rest := MembersSound(b, j + 1);
      members := MoreMembers(m, rest);
      ByteAt(b, j);
      JoinAt(b, s, j, j + 1, MemberText(m), [44]);
      JoinAt(b, s, j + 1, ObjectRest(b, p) - 1, MemberText(m) + [44], MembersText(rest));
    } else {
      members := LastMember(m);
    }
  }

  // ---------- Values: completeness ----------

  /** Nothing at `q` can extend a value that ends there. */
  predicate ValueStops(b: Bytes, q: nat) {
    q >= |b| || IsWs(b[q]) || b[q] == 44 || b[q] == 93 || b[q] == 125
  }

  lemma FirstByte(v: Value)
    requires ValidValue(v)
    ensures ValueText(v) != [] && !IsWs(ValueText(v)[0])
    ensures ValueText(v)[0] != 44 && ValueText(v)[0] != 93 && ValueText(v)[0] != 125
    ensures v.Number? <==> ValueText(v)[0] == 45 || IsDigit(ValueText(v)[0])
    ensures v.String? <==> ValueText(v)[0] == 34
  {
    if v.Number? {
      var minus: Bytes, i: Bytes, f: Bytes, e: Bytes :| NumberParts(minus, i, f, e) && v.text == minus + i + f + e;
      assert v.text[0] == (minus + i)[0];
    }
  }

  lemma BetweenWs(b: Bytes, p: nat, q: nat, pad: Bytes, last: Byte) returns (m: nat)
    requires At(b, p, q, pad + [last]) && Ws(pad) && !IsWs(last)
    ensures SkipWs(b, p) == m && m + 1 == q && b[m] == last
  {
    m := SplitAt(b, p, q, pad, [last]);
    FirstAt(b, m, q, [last]);
    SkipWsUnique(b, p, m);
  }

  lemma Reassociate(a: Bytes, s: Bytes, c: Bytes)
    ensures a + s + c == a + (s + c)
  {
  }

  /** A derivation standing in the input, with nothing after it that could extend it, is read
      to its end. */
  lemma {:induction false} ParseValueComplete(b: Bytes, p: nat, q: nat, before: Bytes, v: Value)
    requires Ws(before) && ValidValue(v) && At(b, p, q, before + ValueText(v)) && ValueStops(b, q)
    ensures ParseValue(b, p) == q && SkipWs(b, p) == p + |before|
    decreases v, 1
  {
    hide At, SkipWs, ParseArray, ParseObject, ParseString, ParseNumber, NumberText, StringText, Ws;
    var i := SplitAt(b, p, q, before, ValueText(v));
    FirstByte(v);
    FirstAt(b, i, q, ValueText(v));
    assert SkipWs(b, p) == i by { AtWs(b, p, i, before); }
    match v
    case Literal(t) => LiteralComplete(b, i, q, t);
    case Number(t) => NumberAt(b, i, q, t);
    case String(t) => StringAt(b, i, q, t);
    case EmptyArray(pad) =>
      EmptyComplete(b, i, q, 91, pad, 93);
    case EmptyObject(pad) =>
      EmptyComplete(b, i, q, 123, pad, 125);
    case Array(items) => ArrayComplete(b, i, q, items);
    case Object(members) => ObjectComplete(b, i, q, members);
  }

  lemma {:induction false} ArrayComplete(b: Bytes, i: nat, q: nat, items: Items)
    requires ValidItems(items) && At(b, i, q, [91] + ItemsText(items) + [93])
    ensures i < |b| && ParseArray(b, i) == q
    decreases items, 1
  {
    hide At, SkipWs, ParseValue, ArrayRest, ValidItems;
    var m := SplitAt(b, i, q, [91] + ItemsText(items), [93]);
    var n := SplitAt(b, i, m, [91], ItemsText(items));
    FirstAt(b, i, n, [91]);
    FirstAt(b, m, q, [93]);
    ItemsComplete(b, n, m, items);
    SkipWsTwice(b, n);
  }

  lemma {:induction false} ObjectComplete(b: Bytes, i: nat, q: nat, members: Members)
    requires ValidMembers(members) && At(b, i, q, [123] + MembersText(members) + [125])
    ensures i < |b| && ParseObject(b, i) == q
    decreases members, 1
  {
    hide At, SkipWs, ParseMember, ObjectRest, ValidMembers;
    var m := SplitAt(b, i, q, [123] + MembersText(members), [125]);
    var n := SplitAt(b, i, m, [123], MembersText(members));
    FirstAt(b, i, n, [123]);
    FirstAt(b, m, q, [125]);
    MembersComplete(b, n, m, members);
  }

  lemma AtWs(b: Bytes, p: nat, i: nat, before: Bytes)
    requires At(b, p, i, before) && Ws(before) && (i < |b| ==> !IsWs(b[i]))
    ensures SkipWs(b, p) == i
  {
    SkipWsUnique(b, p, i);
  }

  lemma NumberAt(b: Bytes, i: nat, q: nat, t: Bytes)
    requires At(b, i, q, t) && NumberText(t) && ValueStops(b, q)
    ensures ParseNumber(b, i) == q
  {
    ParseNumberComplete(b, i, q);
  }

  lemma StringAt(b: Bytes, i: nat, q: nat, t: Bytes)
    requires At(b, i, q, t) && StringText(t)
    ensures ParseString(b, i) == q
  {
    ParseStringExact(b, i, q);
  }

  lemma LiteralComplete(b: Bytes, i: nat, q: nat, t: Bytes)
    requires At(b, i, q, t) && t != []
    ensures MatchLit(b, i, t) == q
  {
    FirstAt(b, i, q, t);
  }

  lemma EmptyComplete(b: Bytes, i: nat, q: nat, open: Byte, pad: Bytes, close: Byte)
    requires At(b, i, q, [open] + pad + [close]) && Ws(pad) && !IsWs(close)
    ensures open == 91 && close == 93 ==> ParseArray(b, i) == q
    ensures open == 123 && close == 125 ==> ParseObject(b, i) == q
  {
    Reassociate([open], pad, [close]);
    var n := SplitAt(b, i, q, [open], pad + [close]);
    var m := BetweenWs(b, n, q, pad, close);
  }

  lemma WsStops(b: Bytes, p: nat, q: nat, after: Bytes)
    requires At(b, p, q, after) && Ws(after) && ValueStops(b, q)
    ensures ValueStops(b, p)
  {
    if p < q { FirstAt(b, p, q, after); }
  }

  /** One element and its white space: the value parser stops where the trailing white space
      starts, and that white space ends at `e`. */
  lemma {:induction false} ItemComplete(b: Bytes, p: nat, e: nat, it: Item)
    requires ValidItem(it) && At(b, p, e, ItemText(it)) && ValueStops(b, e) && e < |b| && !IsWs(b[e])
    ensures ParseValue(b, p) >= 0 && SkipWs(b, ParseValue(b, p)) == e
    ensures SkipWs(b, p) < |b| && b[SkipWs(b, p)] != 93 && b[SkipWs(b, p)] != 125
    decreases it, 2
  {
    hide At, SkipWs, ParseValue, Ws;
    var r := SplitAt(b, p, e, it.before + ValueText(it.value), it.after);
    WsStops(b, r, e, it.after);
    ParseValueComplete(b, p, r, it.before, it.value);
    AtWs(b, r, e, it.after);
    var i := SplitAt(b, p, r, it.before, ValueText(it.value));
    FirstByte(it.value);
    FirstAt(b, i, r, ValueText(it.value));
  }

  lemma {:induction false} ItemsComplete(b: Bytes, p: nat, q: nat, items: Items)
    requires ValidItems(items) && At(b, p, q, ItemsText(items)) && q < |b| && b[q] == 93
    ensures SkipWs(b, p) < |b| && b[SkipWs(b, p)] != 93
    ensures ParseValue(b, p) >= 0 && ArrayRest(b, ParseValue(b, p)) == q + 1
    decreases items, 0
  {
    hide At, SkipWs, ParseValue, ItemText, ValidItem;
    var it := items.item;
    if items.MoreItems? {
      var c := SplitAt(b, p, q, ItemText(it) + [44], ItemsText(items.rest));
      var e := SplitAt(b, p, c, ItemText(it), [44]);
      FirstAt(b, e, c, [44]);
      ItemComplete(b, p, e, it);
      ItemsComplete(b, c, q, items.rest);
    } else {
      ItemComplete(b, p, q, it);
    }
  }

  lemma {:induction false} MemberComplete(b: Bytes, p: nat, e: nat, m: Member)
    requires ValidMember(m) && At(b, p, e, MemberText(m)) && ValueStops(b, e) && e < |b| && !IsWs(b[e])
    ensures ParseMember(b, SkipWs(b, p)) >= 0 && SkipWs(b, ParseMember(b, SkipWs(b, p))) == e
    ensures SkipWs(b, p) < |b| && b[SkipWs(b, p)] == 34
    decreases m, 3
  {
    hide At, SkipWs, ParseValue, ItemText, ValidItem, Ws, ParseString;
    var t := SplitAt(b, p, e, m.before + m.key + m.beforeColon + [58], ItemText(m.item));
    var c := SplitAt(b, p, t, m.before + m.key + m.beforeColon, [58]);
    var k := SplitAt(b, p, c, m.before + m.key, m.beforeColon);
    var i := SplitAt(b, p, k, m.before, m.key);
    FirstAt(b, i, k, m.key);
    FirstAt(b, c, t, [58]);
    AtWs(b, p, i, m.before);
    StringAt(b, i, k, m.key);
    AtWs(b, k, c, m.beforeColon);
    ItemComplete(b, t, e, m.item);
  }

  lemma {:induction false} MembersComplete(b: Bytes, p: nat, q: nat, members: Members)
    requires ValidMembers(members) && At(b, p, q, MembersText(members)) && q < |b| && b[q] == 125
    ensures SkipWs(b, p) < |b| && b[SkipWs(b, p)] == 34
    ensures ParseMember(b, SkipWs(b, p)) >= 0 && ObjectRest(b, ParseMember(b, SkipWs(b, p))) == q + 1
    decreases members, 0
  {
    hide At, SkipWs, ParseMember, MemberText, ValidMember;
    var m := members.member;
    if members.MoreMembers? {
      var c := SplitAt(b, p, q, MemberText(m) + [44], MembersText(members.rest));
      var e := SplitAt(b, p, c, MemberText(m), [44]);
      FirstAt(b, e, c, [44]);
      MemberComplete(b, p, e, m);
      MembersComplete(b, c, q, members.rest);
    } else {
      MemberComplete(b, p, q, m);
    }
  }

  /** The validator accepts exactly the JSON texts. */
  lemma ValidIffJsonText(b: Bytes)
    ensures Valid(b) <==> JsonText(b)
  {
    hide SkipWs, ParseValue;
    if Valid(b) {
      var v := ParseValueSound(b, 0);
      var i, p := SkipWs(b, 0), ParseValue(b, 0);
      var item := Item(b[0..i], v, b[p..|b|]);
      JoinAt(b, 0, i, p, item.before, ValueText(v));
      JoinAt(b, 0, p, |b|, item.before + ValueText(v), item.after);
      assert ValidItem(item) && b == ItemText(item);
    }
    if JsonText(b) {
      var it :| ValidItem(it) && b == ItemText(it);
      assert b[0..|b|] == b;
      var r := SplitAt(b, 0, |b|, it.before + ValueText(it.value), it.after);
      WsStops(b, r, |b|, it.after);
      ParseValueComplete(b, 0, r, it.before, it.value);
      AtWs(b, r, |b|, it.after);
    }
  }

  // ---------- The parser as written ----------

  method SkipWhitespace(b: Bytes, p: nat) returns (i: nat)
    requires p <= |b|
    ensures i == SkipWs(b, p)
  {
    i := p;
    while i < |b|
      invariant p <= i <= |b| && SkipWs(b, p) == SkipWs(b, i)
    {
      var c := b[i];
      if c == 32 || c == 9 || c == 10 || c == 13 {
        i := i + 1;
      } else {
        return;
      }
    }
  }

  method ScanString(b: Bytes, p: nat) returns (r: int)
    requires p <= |b|
    ensures r == ParseString(b, p)
  {
    if p >= |b| || b[p] != 34 { return -1; }
    var i := p + 1;
    while i < |b|
      invariant p < i <= |b| && ParseString(b, p) == StringRest(b, i)
      decreases |b| - i
    {
      var c := b[i];
      if c == 34 {
        return i + 1;
      } else if c == 92 {
        if i + 1 >= |b| { return -1; }
        var e := b[i+1];
        if e == 34 || e == 92 || e == 47 || e == 98 || e == 102 || e == 110 || e == 114 || e == 116 {
          i := i + 2;
        } else if e == 117 {
          if i + 6 > |b| { return -1; }
          var ok := true;
          for k := 1 to 5
            invariant ok <==> forall j :: i + 2 <= j < i + 1 + k ==> IsHex(b[j])
          {
            if !IsHex(b[i+1+k]) { ok := false; }
          }
          assert b[i..][2] == b[i+2] && b[i..][3] == b[i+3] && b[i..][4] == b[i+4] && b[i..][5] == b[i+5];
          if !ok { return -1; }
          i := i + 6;
        } else {
          return -1;
        }
      } else if c < 32 {
        return -1;
      } else {
        i := i + 1;
      }
    }
    return -1;
  }

  method ScanDigits(b: Bytes, p: nat) returns (i: nat)
    requires p <= |b|
    ensures i == SkipDigits(b, p)
  {
    i := p;
    while i < |b| && 48 <= b[i] <= 57
      invariant p <= i <= |b| && SkipDigits(b, p) == SkipDigits(b, i)
    {
      i := i + 1;
    }
  }

  method ScanInt(b: Bytes, p: nat) returns (i: int)
    requires p <= |b|
    ensures i == ParseInt(b, p)
  {
    hide SkipDigits;
    if p >= |b| { return -1; }
    if b[p] == 48 {
      i := p + 1;
    } else if 49 <= b[p] <= 57 {
      i := ScanDigits(b, p);
    } else {
      i := -1;
    }
  }

  method ScanFrac(b: Bytes, p: nat) returns (i: int)
    requires p <= |b|
    ensures i == ParseFrac(b, p)
  {
    hide SkipDigits;
    i := p;
    if i < |b| && b[i] == 46 {
      i := i + 1;
      if i >= |b| || !(48 <= b[i] <= 57) { return -1; }
      i := ScanDigits(b, i);
    }
  }

  method ScanExp(b: Bytes, p: nat) returns (i: int)
    requires p <= |b|
    ensures i == ParseExp(b, p)
  {
    hide SkipDigits;
    i := p;
    if i < |b| && (b[i] == 101 || b[i] == 69) {
      i := i + 1;
      if i < |b| && (b[i] == 43 || b[i] == 45) { i := i + 1; }
      if i >= |b| || !(48 <= b[i] <= 57) { return -1; }
      i := ScanDigits(b, i);
    }
  }

  method ScanNumber(b: Bytes, p: nat) returns (r: int)
    requires p <= |b|
    ensures r == ParseNumber(b, p)
  {
    hide ParseInt, ParseFrac, ParseExp;
    var i := ScanInt(b, if p < |b| && b[p] == 45 then p + 1 else p);
    if i < 0 { return -1; }
    i := ScanFrac(b, i);
    if i < 0 { return -1; }
    r := ScanExp(b, i);
  }

  method ScanLiteral(b: Bytes, p: nat, lit: Bytes) returns (r: int)
    requires p <= |b| && |lit| > 0
    ensures r == MatchLit(b, p, lit)
  {
    var n := |lit|;
    if p + n > |b| { return -1; }
    ghost var found := b[p..p+n];
    for k := 0 to n
      invariant forall j :: 0 <= j < k ==> found[j] == lit[j]
    {
      assert found[k] == b[p+k];
      if b[p+k] != lit[k] { return -1; }
    }
    assert found == lit;
    return p + n;
  }

  method ScanValue(b: Bytes, p: nat) returns (r: int)
    requires p <= |b|
    ensures r == ParseValue(b, p)
    decreases |b| - p, 2
  {
    hide SkipWs, ParseObject, ParseArray, ParseString, ParseNumber, MatchLit;
    var i := SkipWhitespace(b, p);
    if i >= |b| { return -1; }
    var c := b[i];
    if c == 123 { r := ScanObject(b, i); return; }
    if c == 91 { r := ScanArray(b, i); return; }
    if c == 34 { r := ScanString(b, i); return; }
    if c == 116 { r := ScanLiteral(b, i, TRUE_LIT); return; }
    if c == 102 { r := ScanLiteral(b, i, FALSE_LIT); return; }
    if c == 110 { r := ScanLiteral(b, i, NULL_LIT); return; }
    if c == 45 || 48 <= c <= 57 { r := ScanNumber(b, i); return; }
    return -1;
  }

  method ScanArray(b: Bytes, p: nat) returns (q: int)
    requires p < |b|
    ensures q == ParseArray(b, p)
    decreases |b| - p, 1
  {
    hide SkipWs, ParseValue;
    var i := SkipWhitespace(b, p + 1);
    if i < |b| && b[i] == 93 { return i + 1; }
    var r := ScanValue(b, i);
    if r < 0 { return -1; }
    i := r;
    while true
      invariant p < i <= |b| && ParseArray(b, p) == ArrayRest(b, i)
      decreases |b| - i
    {
      i := SkipWhitespace(b, i);
      if i >= |b| { return -1; }
      var c := b[i];
      if c == 44 {
        r := ScanValue(b, i + 1);
        if r < 0 { return -1; }
        i := r;
      } else if c == 93 {
        return i + 1;
      } else {
        return -1;
      }
    }
  }

  method ScanMember(b: Bytes, p: nat) returns (r: int)
    requires p <= |b|
    ensures r == ParseMember(b, p)
    decreases |b| - p, 3
  {
    hide SkipWs, ParseValue, ParseString;
    r := ScanString(b, p);
    if r < 0 { return -1; }
    var i := SkipWhitespace(b, r);
    if i >= |b| || b[i] != 58 { return -1; }
    r := ScanValue(b, i + 1);
  }

  lemma ObjectTurn(b: Bytes, p: nat)
    requires p <= |b|
    ensures var i := SkipWs(b, p);
            ObjectRest(b, p) == if i >= |b| then -1
                                else if b[i] == 44 then
                                  (var r := ParseMember(b, SkipWs(b, i + 1)); if r < 0 then -1 else ObjectRest(b, r))
                                else if b[i] == 125 then i + 1 else -1
  {
  }

  lemma ObjectStart(b: Bytes, p: nat)
    requires p < |b|
    ensures var i := SkipWs(b, p + 1);
            ParseObject(b, p) == if i < |b| && b[i] == 125 then i + 1
                                 else if ParseMember(b, i) < 0 then -1 else ObjectRest(b, ParseMember(b, i))
  {
  }

  method ScanObject(b: Bytes, p: nat) returns (q: int)
    requires p < |b|
    ensures q == ParseObject(b, p)
    decreases |b| - p, 1
  {
    hide SkipWs, ParseMember, ParseObject, ObjectRest;
    var i := SkipWhitespace(b, p + 1);
    ObjectStart(b, p);
    if i < |b| && b[i] == 125 { return i + 1; }
    var r := ScanMember(b, i);
    if r < 0 { return -1; }
    i := r;
    while true
      invariant p < i <= |b| && ParseObject(b, p) == ObjectRest(b, i)
      decreases |b| - i
    {
      ObjectTurn(b, i);
      i := SkipWhitespace(b, i);
      if i >= |b| { return -1; }
      var c := b[i];
      if c == 44 {
        i := SkipWhitespace(b, i + 1);
        r := ScanMember(b, i);
        if r < 0 { return -1; }
        i := r;
      } else if c == 125 {
        return i + 1;
      } else {
        return -1;
      }
    }
  }

  /** The whole program: terminates on every byte string and accepts exactly the JSON texts. */
  method Validate(b: Bytes) returns (ok: bool)
    ensures ok <==> JsonText(b)
  {
    hide SkipWs, ParseValue, JsonText;
    ValidIffJsonText(b);
    var p := ScanValue(b, 0);
    if p < 0 { return false; }
    var i := SkipWhitespace(b, p);
    return i == |b|;
  }
}
