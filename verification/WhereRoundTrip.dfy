/** Printing a WHERE tree and parsing it back. Written fully parenthesised, the way the grammar reads
    null tests and lists, every tree whose operands read back comes back. String of parse/ast.go
    writes those two differently; its trees come back exactly when no leaf is one of them and every
    operand is written as one token that reads back. */
module WhereRoundTrip {
  import opened Options
  import opened Text
  import opened JsonValues
  import opened WhereAst
  import Tokenizer

  /** How values are written: the tokens their text splits into. */
  datatype Printer = Printer(show: Json -> seq<string>, showAll: seq<Json> -> seq<string>)

  /** The two spellings: as String prints, and as the grammar reads null tests and lists. */
  datatype Style = AsString | AsClause

  function Words(op: string): seq<string> {
    if op == "NOT IN" then ["NOT", "IN"]
    else if op == "STARTS WITH" then ["STARTS", "WITH"]
    else if op == "ENDS WITH" then ["ENDS", "WITH"]
    else if op == "NOT LIKE" then ["NOT", "LIKE"]
    else if op == "NOT CONTAINS" then ["NOT", "CONTAINS"]
    else if op == "IS NOT NULL" then ["IS", "NOT", "NULL"]
    else if op == "IS NULL" then ["IS", "NULL"]
    else [op]
  }

  predicate NullTest(e: Expr) {
    e.Cond? && (e.op == "IS NULL" || e.op == "IS NOT NULL")
  }

  predicate BetweenList(e: Expr) {
    e.Cond? && e.op == "BETWEEN" && e.values.Some?
  }

  function Operands(pr: Printer, style: Style, e: Expr): seq<string>
    requires e.Cond?
  {
    if style == AsClause && NullTest(e) then []
    else if e.op == "BETWEEN" && (style == AsString || !BetweenList(e)) then
      pr.show(e.value) + ["AND"] + pr.show(e.value2)
    else if e.values.Some? then pr.showAll(e.values.value)
    else pr.show(e.value)
  }

  function LeafTokens(pr: Printer, style: Style, e: Expr): seq<string>
    requires e.Cond?
  {
    [e.field] + Words(e.op) + Operands(pr, style, e)
  }

  function Tokens(pr: Printer, style: Style, e: Expr): seq<string> {
    match e
    case Cond(_, _, _, _, _) => LeafTokens(pr, style, e)
    case And(l, r) => ["("] + Tokens(pr, style, l) + ["AND"] + Tokens(pr, style, r) + [")"]
    case Or(l, r) => ["("] + Tokens(pr, style, l) + ["OR"] + Tokens(pr, style, r) + [")"]
    case Not(child) => ["NOT"] + Tokens(pr, style, child)
  }

  // ---- which trees are meant ----

  predicate PlainOperand(tok: string) {
    !Bracketed(tok)
  }

  /** A name the grammar accepts as the start of a condition. */
  predicate FieldToken(f: string) {
    f != "(" && f != ")" && f != "_id" && Upper(f) != "NOT" && !IsStopWord(f)
  }

  /** How a bound of BETWEEN is read. */
  predicate Reads(c: Codec, tok: string, v: Json) {
    c.coerce(Trim(tok, Quotes)) == v
  }

  /** Each operand is one token, and it reads back as the operand. */
  predicate OperandsReadBack(c: Codec, pr: Printer, e: Expr)
    requires e.Cond?
  {
    if NullTest(e) then
      e == Leaf(e.field, e.op, Bool(true))
    else if e.op == "BETWEEN" && e.values.None? then
      && |pr.show(e.value)| == 1 && |pr.show(e.value2)| == 1
      && PlainOperand(pr.show(e.value)[0])
      && Reads(c, pr.show(e.value)[0], e.value) && Reads(c, pr.show(e.value2)[0], e.value2)
    else
      var toks := if e.values.Some? then pr.showAll(e.values.value) else pr.show(e.value);
      |toks| == 1 && OperandLeaf(c, e.field, e.op, toks[0]) == e && (e.op == "BETWEEN" ==> Bracketed(toks[0]))
  }

  predicate WellFormed(c: Codec, pr: Printer, e: Expr) {
    match e
    case Cond(f, op, _, _, _) => FieldToken(f) && op in ValidOps && OperandsReadBack(c, pr, e)
    case And(l, r) => WellFormed(c, pr, l) && WellFormed(c, pr, r)
    case Or(l, r) => WellFormed(c, pr, l) && WellFormed(c, pr, r)
    case Not(child) => WellFormed(c, pr, child)
  }

  /** No leaf whose String form the grammar reads differently. */
  predicate StringSafe(e: Expr) {
    match e
    case Cond(_, _, _, _, _) => !NullTest(e) && !BetweenList(e)
    case And(l, r) => StringSafe(l) && StringSafe(r)
    case Or(l, r) => StringSafe(l) && StringSafe(r)
    case Not(child) => StringSafe(child)
  }

  // ---- reading printed tokens out of a longer list ----

  predicate At(ts: seq<string>, pos: nat, toks: seq<string>) {
    pos + |toks| <= |ts| && ts[pos..pos + |toks|] == toks
  }

  lemma AtSplit(ts: seq<string>, pos: nat, a: seq<string>, b: seq<string>)
    requires At(ts, pos, a + b)
    ensures At(ts, pos, a) && At(ts, pos + |a|, b)
  {
    assert ts[pos..pos + |a + b|][..|a|] == a;
    assert ts[pos..pos + |a + b|][|a|..] == b;
  }

  lemma AtIndex(ts: seq<string>, pos: nat, toks: seq<string>, i: nat)
    requires At(ts, pos, toks) && i < |toks|
    ensures ts[pos + i] == toks[i]
  {
    assert ts[pos..pos + |toks|][i] == ts[pos + i];
  }

  lemma Connectives()
    ensures Upper("NOT") == "NOT" && Upper("AND") == "AND" && Upper("OR") == "OR"
    ensures Upper("(") == "(" && Upper(")") == ")" && Upper("true") == "TRUE"
  {
  }

  lemma OperatorWords()
    ensures Upper("NOT") == "NOT" && Upper("IN") == "IN" && Upper("LIKE") == "LIKE"
    ensures Upper("STARTS") == "STARTS" && Upper("ENDS") == "ENDS" && Upper("WITH") == "WITH"
    ensures Upper("CONTAINS") == "CONTAINS" && Upper("IS") == "IS" && Upper("NULL") == "NULL"
    ensures Upper("BETWEEN") == "BETWEEN" && Upper("EXISTS") == "EXISTS"
    ensures Upper("=") == "=" && Upper("==") == "==" && Upper("!=") == "!=" && Upper("<>") == "<>"
    ensures Upper(">") == ">" && Upper("<") == "<" && Upper(">=") == ">=" && Upper("<=") == "<="
  {
  }

  /** Multi-word operators are read back whole, whatever follows them. */
  lemma OperatorReads(ts: seq<string>, pos: nat, op: string)
    requires op in ValidOps && At(ts, pos, Words(op))
    ensures OperatorAt(ts, pos) == (op, |Words(op)|)
  {
    OperatorWords();
    AtIndex(ts, pos, Words(op), 0);
    if |Words(op)| > 1 {
      AtIndex(ts, pos, Words(op), 1);
    }
    if |Words(op)| > 2 {
      AtIndex(ts, pos, Words(op), 2);
    }
  }

  lemma LeafStart(c: Codec, ts: seq<string>, pos: nat)
    requires pos < |ts| && FieldToken(ts[pos])
    ensures ParseNotAt(c, ts, pos) == ParseConditionAt(c, ts, pos)
  {
  }

  /** A leaf's tokens are its field, its operator words and its operands. */
  lemma LeafLayout(ts: seq<string>, pos: nat, field: string, op: string, operands: seq<string>)
    requires op in ValidOps && At(ts, pos, [field] + Words(op) + operands)
    ensures ts[pos] == field && pos + 1 < |ts|
    ensures OperatorAt(ts, pos + 1) == (op, |Words(op)|)
    ensures At(ts, pos + 1 + |Words(op)|, operands)
    ensures |Words(op)| > 1 <== op == "IS NULL" || op == "IS NOT NULL"
  {
    hide OperatorAt, IsStopWord;
    AtSplit(ts, pos, [field] + Words(op), operands);
    AtSplit(ts, pos, [field], Words(op));
    AtIndex(ts, pos, [field], 0);
    OperatorReads(ts, pos + 1, op);
  }

  lemma LeafParses(c: Codec, pr: Printer, style: Style, e: Expr, ts: seq<string>, pos: nat)
    requires e.Cond? && WellFormed(c, pr, e) && At(ts, pos, LeafTokens(pr, style, e))
    requires style == AsClause || StringSafe(e)
    ensures ParseConditionAt(c, ts, pos) == Ok((e, pos + |LeafTokens(pr, style, e)|))
  {
    hide OperatorAt, Words, IsStopWord, ParseValueAt;
    var operands := Operands(pr, style, e);
    LeafLayout(ts, pos, e.field, e.op, operands);
    if !NullTest(e) {
      OperandParses(c, pr, style, e, ts, pos + 1 + |Words(e.op)|);
    }
  }

  lemma OperandParses(c: Codec, pr: Printer, style: Style, e: Expr, ts: seq<string>, pos: nat)
    requires e.Cond? && WellFormed(c, pr, e) && !NullTest(e) && At(ts, pos, Operands(pr, style, e))
    requires style == AsClause || StringSafe(e)
    ensures pos < |ts| && ParseValueAt(c, ts, pos, e.field, e.op) == Ok((e, pos + |Operands(pr, style, e)|))
  {
    Connectives();
    AtIndex(ts, pos, Operands(pr, style, e), 0);
    if e.op == "BETWEEN" && e.values.None? {
      AtIndex(ts, pos, Operands(pr, style, e), 1);
      AtIndex(ts, pos, Operands(pr, style, e), 2);
    }
  }

  /** The positions of the five parts of a parenthesised pair. */
  lemma PairParts(ts: seq<string>, pos: nat, l: seq<string>, w: string, r: seq<string>)
    requires At(ts, pos, ["("] + l + [w] + r + [")"])
    ensures pos + |l| + |r| + 2 < |ts|
    ensures ts[pos] == "(" && At(ts, pos + 1, l) && ts[pos + 1 + |l|] == w
    ensures At(ts, pos + 2 + |l|, r) && ts[pos + 2 + |l| + |r|] == ")"
  {
    var whole := ["("] + l + [w] + r + [")"];
    AtSplit(ts, pos, ["("] + l + [w] + r, [")"]);
    AtSplit(ts, pos, ["("] + l + [w], r);
    AtSplit(ts, pos, ["("] + l, [w]);
    AtSplit(ts, pos, ["("], l);
    AtIndex(ts, pos, whole, 0);
    AtIndex(ts, pos, whole, 1 + |l|);
    AtIndex(ts, pos, whole, 2 + |l| + |r|);
  }

  /** Where no connective follows, neither loop of the parser goes on. */
  lemma TailsStop(c: Codec, ts: seq<string>, e: Expr, pos: nat)
    requires pos <= |ts| && PeekUpper(ts, pos) != "AND" && PeekUpper(ts, pos) != "OR"
    ensures AndTail(c, ts, e, pos) == Ok((e, pos)) && OrTail(c, ts, e, pos) == Ok((e, pos))
  {
  }

  lemma PairParses(c: Codec, ts: seq<string>, pos: nat, pair: Expr, p1: nat, p2: nat)
    requires pair.And? || pair.Or?
    requires pos < p1 < p2 < |ts| && ts[pos] == "(" && ts[p2] == ")"
    requires ts[p1] == if pair.And? then "AND" else "OR"
    requires ParseNotAt(c, ts, pos + 1) == Ok((pair.left, p1)) && ParseNotAt(c, ts, p1 + 1) == Ok((pair.right, p2))
    ensures ParseNotAt(c, ts, pos) == Ok((pair, p2 + 1))
  {
    PairInside(c, ts, pos, pair, p1, p2);
    Connectives();
    hide IsStopWord, ParseConditionAt, ParseOrAt;
    assert ParsePrimaryAt(c, ts, pos) == Ok((pair, p2 + 1));
  }

  lemma PairInside(c: Codec, ts: seq<string>, pos: nat, pair: Expr, p1: nat, p2: nat)
    requires pair.And? || pair.Or?
    requires pos < p1 < p2 < |ts| && ts[p2] == ")"
    requires ts[p1] == if pair.And? then "AND" else "OR"
    requires ParseNotAt(c, ts, pos + 1) == Ok((pair.left, p1)) && ParseNotAt(c, ts, p1 + 1) == Ok((pair.right, p2))
    ensures ParseOrAt(c, ts, pos + 1) == Ok((pair, p2))
  {
    hide ParseNotAt;
    Connectives();
    TailsStop(c, ts, pair, p2);
    if pair.And? {
      assert AndTail(c, ts, pair.left, p1) == Ok((pair, p2));
    } else {
      TailsStop(c, ts, pair.right, p2);
      assert AndTail(c, ts, pair.left, p1) == Ok((pair.left, p1));
      assert ParseAndAt(c, ts, p1 + 1) == Ok((pair.right, p2));
      assert OrTail(c, ts, pair.left, p1) == Ok((pair, p2));
    }
  }

  lemma NotTokens(ts: seq<string>, pos: nat, child: seq<string>)
    requires At(ts, pos, ["NOT"] + child)
    ensures PeekUpper(ts, pos) == "NOT" && pos < |ts| && At(ts, pos + 1, child)
  {
    Connectives();
    AtSplit(ts, pos, ["NOT"], child);
    AtIndex(ts, pos, ["NOT"], 0);
  }

  lemma PairTokens(pr: Printer, style: Style, e: Expr)
    requires e.And? || e.Or?
    ensures Tokens(pr, style, e) == ["("] + Tokens(pr, style, e.left) + [if e.And? then "AND" else "OR"]
                                    + Tokens(pr, style, e.right) + [")"]
  {
  }

  lemma {:induction false} PrintedPair(c: Codec, pr: Printer, style: Style, e: Expr, ts: seq<string>, pos: nat)
    requires e.And? || e.Or?
    requires WellFormed(c, pr, e) && At(ts, pos, Tokens(pr, style, e))
    requires style == AsClause || StringSafe(e)
    ensures ParseNotAt(c, ts, pos) == Ok((e, pos + |Tokens(pr, style, e)|))
    decreases e, 0
  {
    hide ParseNotAt, IsStopWord, LeafTokens, OperandsReadBack;
    var tl, tr := Tokens(pr, style, e.left), Tokens(pr, style, e.right);
    PairTokens(pr, style, e);
    PairParts(ts, pos, tl, if e.And? then "AND" else "OR", tr);
    PrintedParses(c, pr, style, e.left, ts, pos + 1);
    PrintedParses(c, pr, style, e.right, ts, pos + 2 + |tl|);
    PairParses(c, ts, pos, e, pos + 1 + |tl|, pos + 2 + |tl| + |tr|);
  }

  /** At the level below AND, a printed tree comes back whatever tokens follow it. */
  lemma {:induction false} PrintedParses(c: Codec, pr: Printer, style: Style, e: Expr, ts: seq<string>, pos: nat)
    requires WellFormed(c, pr, e) && At(ts, pos, Tokens(pr, style, e))
    requires style == AsClause || StringSafe(e)
    ensures ParseNotAt(c, ts, pos) == Ok((e, pos + |Tokens(pr, style, e)|))
    decreases e, 1
  {
    hide IsStopWord, OperatorAt, ParseConditionAt, ParsePrimaryAt;
    if e.Cond? {
      AtIndex(ts, pos, LeafTokens(pr, style, e), 0);
      LeafStart(c, ts, pos);
      LeafParses(c, pr, style, e, ts, pos);
    } else if e.Not? {
      NotTokens(ts, pos, Tokens(pr, style, e.child));
      PrintedParses(c, pr, style, e.child, ts, pos + 1);
    } else {
      hide ParseNotAt;
      PrintedPair(c, pr, style, e, ts, pos);
    }
  }

  predicate EndsClause(rest: seq<string>) {
    rest == [] || (Upper(rest[0]) != "AND" && Upper(rest[0]) != "OR")
  }

  /** Round trip: every tree written as a clause parses back to itself and takes exactly its tokens. */
  lemma RoundTrip(c: Codec, pr: Printer, e: Expr, rest: seq<string>)
    requires WellFormed(c, pr, e) && EndsClause(rest)
    ensures ParseOrAt(c, Tokens(pr, AsClause, e) + rest, 0) == Ok((e, |Tokens(pr, AsClause, e)|))
  {
    PrintedAtTop(c, pr, AsClause, e, rest);
  }

  lemma PrintedAtTop(c: Codec, pr: Printer, style: Style, e: Expr, rest: seq<string>)
    requires WellFormed(c, pr, e) && EndsClause(rest)
    requires style == AsClause || StringSafe(e)
    ensures ParseOrAt(c, Tokens(pr, style, e) + rest, 0) == Ok((e, |Tokens(pr, style, e)|))
  {
    hide Tokens, WellFormed, StringSafe, ParseNotAt;
    var toks := Tokens(pr, style, e);
    var ts := toks + rest;
    assert ts[0..0 + |toks|] == toks;
    PrintedParses(c, pr, style, e, ts, 0);
    assert |toks| < |ts| ==> ts[|toks|] == rest[0];
    TailsStop(c, ts, e, |toks|);
    hide AndTail, OrTail;
  }

  // ---- when the text of String does not come back ----

  /** A tree of the shape the parser builds, with names it can start a condition with. */
  predicate Named(e: Expr) {
    match e
    case Cond(f, op, v, v2, values) =>
      FieldToken(f) && op in ValidOps && (values.Some? ==> v == Null && v2 == Null)
    case And(l, r) => Named(l) && Named(r)
    case Or(l, r) => Named(l) && Named(r)
    case Not(child) => Named(child)
  }

  /** Comes back from its String tokens: no null test, no BETWEEN over a list, operands that read back. */
  predicate Faithful(c: Codec, pr: Printer, e: Expr) {
    StringSafe(e) && WellFormed(c, pr, e)
  }

  /** The token read first in place of an operand: its first, or, if it has none, whatever can follow it. */
  predicate ReadFirst(toks: seq<string>, tok: string) {
    if toks == [] then tok == "AND" || tok == "OR" || tok == ")" else tok == toks[0]
  }

  /** An operand whose text is not one token is told apart from what its first token reads as. */
  ghost predicate LeafTelling(c: Codec, pr: Printer, e: Expr)
    requires e.Cond?
  {
    if NullTest(e) || BetweenList(e) then true
    else if e.op == "BETWEEN" then
      && (|pr.show(e.value)| != 1 ==> forall tok :: ReadFirst(pr.show(e.value), tok) ==> !Reads(c, tok, e.value))
      && (|pr.show(e.value2)| != 1 ==> forall tok :: ReadFirst(pr.show(e.value2), tok) ==> !Reads(c, tok, e.value2))
      && (pr.show(e.value) != [] && Bracketed(pr.show(e.value)[0]) ==> OperandLeaf(c, e.field, e.op, pr.show(e.value)[0]) != e)
    else
      |Operands(pr, AsString, e)| != 1 ==>
        forall tok :: ReadFirst(Operands(pr, AsString, e), tok) ==> OperandLeaf(c, e.field, e.op, tok) != e
  }

  ghost predicate Telling(c: Codec, pr: Printer, e: Expr) {
    match e
    case Cond(_, _, _, _, _) => LeafTelling(c, pr, e)
    case And(l, r) => Telling(c, pr, l) && Telling(c, pr, r)
    case Or(l, r) => Telling(c, pr, l) && Telling(c, pr, r)
    case Not(child) => Telling(c, pr, child)
  }

  /** Facts of the default text of a value. */
  predicate DefaultText(pr: Printer) {
    pr.show(Bool(true)) == ["true"] && pr.show(Null) == ["<nil>"]
  }

  function Leaves(e: Expr): seq<Expr> {
    match e
    case Cond(_, _, _, _, _) => [e]
    case And(l, r) => Leaves(l) + Leaves(r)
    case Or(l, r) => Leaves(l) + Leaves(r)
    case Not(child) => Leaves(child)
  }

  predicate DiffersAt(t: Expr, e: Expr, i: int) {
    0 <= i < |Leaves(t)| && i < |Leaves(e)| && Leaves(t)[i] != Leaves(e)[i]
  }

  ghost predicate LeafDiffers(t: Expr, e: Expr) {
    exists i :: DiffersAt(t, e, i)
  }

  predicate Following(tok: string) {
    tok == "AND" || tok == "OR" || tok == ")"
  }

  /** The parse of an unfaithful tree: an error, a stop at a stray "true", a different leaf, or a leaf that
      swallowed the token after the whole clause. */
  ghost predicate Misread(r: Parse, e: Expr, ts: seq<string>, end: nat) {
    || r.Err?
    || (r.value.1 < end && end <= |ts| && ts[r.value.1] == "true")
    || LeafDiffers(r.value.0, e)
    || (r.value.1 > end && end < |ts| && !Following(ts[end]))
  }

  /** What the parser makes of the String tokens of a tree, faithful or not. */
  ghost predicate ReadAs(c: Codec, pr: Printer, ts: seq<string>, pos: nat, e: Expr, end: nat)
    requires pos <= |ts|
  {
    var r := ParseNotAt(c, ts, pos);
    if Faithful(c, pr, e) then r == Ok((e, end)) else Misread(r, e, ts, end)
  }

  lemma OneLeafDiffers(t: Expr, e: Expr)
    requires t.Cond? && e.Cond? && t != e
    ensures LeafDiffers(t, e)
  {
    assert DiffersAt(t, e, 0);
  }

  /** What a single operand is read as when it does not read back. */
  lemma OperandMisread(c: Codec, pr: Printer, e: Expr, ts: seq<string>, pos: nat)
    requires e.Cond? && !NullTest(e) && e.op != "BETWEEN" && LeafTelling(c, pr, e) && !OperandsReadBack(c, pr, e)
    requires pos < |ts| && At(ts, pos, Operands(pr, AsString, e))
    ensures Misread(ParseValueAt(c, ts, pos, e.field, e.op), e, ts, pos + |Operands(pr, AsString, e)|)
  {
    var toks := Operands(pr, AsString, e);
    var t := OperandLeaf(c, e.field, e.op, ts[pos]);
    if toks != [] {
      AtIndex(ts, pos, toks, 0);
      assert ReadFirst(toks, ts[pos]);
      OneLeafDiffers(t, e);
    } else if Following(ts[pos]) {
      assert ReadFirst(toks, ts[pos]);
      OneLeafDiffers(t, e);
    }
  }

  /** What the two bounds of BETWEEN are read as. */
  lemma BoundsMisread(c: Codec, pr: Printer, e: Expr, ts: seq<string>, pos: nat)
    requires e.Cond? && e.op == "BETWEEN" && e.values.None? && LeafTelling(c, pr, e) && !OperandsReadBack(c, pr, e)
    requires At(ts, pos, Operands(pr, AsString, e)) && pos < |ts|
    ensures Misread(ParseValueAt(c, ts, pos, e.field, e.op), e, ts, pos + |Operands(pr, AsString, e)|)
  {
    Connectives();
    var toks := Operands(pr, AsString, e);
    var a, b := pr.show(e.value), pr.show(e.value2);
    AtIndex(ts, pos, toks, 0);
    assert ReadFirst(a, ts[pos]);
    var r := ParseValueAt(c, ts, pos, e.field, e.op);
    if r.Ok? && (Bracketed(ts[pos]) || !Reads(c, ts[pos], e.value)) {
      OneLeafDiffers(r.value.0, e);
    } else if r.Ok? {
      assert |a| == 1;
      if b != [] {
        AtIndex(ts, pos, toks, 2);
        assert toks[2] == b[0];
        assert ReadFirst(b, ts[pos + 2]);
        OneLeafDiffers(r.value.0, e);
      } else if Following(ts[pos + 2]) {
        assert ReadFirst(b, ts[pos + 2]);
        OneLeafDiffers(r.value.0, e);
      }
    }
  }

  lemma LeafMisread(c: Codec, pr: Printer, e: Expr, ts: seq<string>, pos: nat)
    requires e.Cond? && Named(e) && !Faithful(c, pr, e) && DefaultText(pr) && LeafTelling(c, pr, e)
    requires At(ts, pos, LeafTokens(pr, AsString, e))
    ensures Misread(ParseConditionAt(c, ts, pos), e, ts, pos + |LeafTokens(pr, AsString, e)|)
  {
    hide OperatorAt, IsStopWord, OperandLeaf, Misread, ParseValueAt;
    var operands := Operands(pr, AsString, e);
    var next := pos + 1 + |Words(e.op)|;
    LeafLayout(ts, pos, e.field, e.op, operands);
    if NullTest(e) {
      NullTestMisread(c, pr, e, ts, pos);
    } else if next < |ts| {
      hide LeafTelling, OperandsReadBack, Words;
      if BetweenList(e) {
        ListBoundsMisread(c, pr, e, ts, next);
      } else if e.op == "BETWEEN" {
        BoundsMisread(c, pr, e, ts, next);
      } else {
        OperandMisread(c, pr, e, ts, next);
      }
    } else {
      ErrorMisread(ParseConditionAt(c, ts, pos), e, ts, pos + |LeafTokens(pr, AsString, e)|);
    }
  }

  lemma ErrorMisread(r: Parse, e: Expr, ts: seq<string>, end: nat)
    requires r.Err?
    ensures Misread(r, e, ts, end)
  {
  }

  lemma NullTestMisread(c: Codec, pr: Printer, e: Expr, ts: seq<string>, pos: nat)
    requires e.Cond? && Named(e) && NullTest(e) && DefaultText(pr) && At(ts, pos, LeafTokens(pr, AsString, e))
    ensures Misread(ParseConditionAt(c, ts, pos), e, ts, pos + |LeafTokens(pr, AsString, e)|)
  {
    hide OperatorAt, IsStopWord;
    var operands := Operands(pr, AsString, e);
    LeafLayout(ts, pos, e.field, e.op, operands);
    var t := Leaf(e.field, e.op, Bool(true));
    if t == e {
      AtIndex(ts, pos + 1 + |Words(e.op)|, operands, 0);
    } else {
      OneLeafDiffers(t, e);
    }
  }

  /** A list under BETWEEN is written as two nils, and read as two bounds. */
  lemma ListBoundsMisread(c: Codec, pr: Printer, e: Expr, ts: seq<string>, pos: nat)
    requires BetweenList(e) && Named(e) && DefaultText(pr) && At(ts, pos, Operands(pr, AsString, e)) && pos < |ts|
    ensures Misread(ParseValueAt(c, ts, pos, e.field, e.op), e, ts, pos + |Operands(pr, AsString, e)|)
  {
    Connectives();
    var toks := Operands(pr, AsString, e);
    AtIndex(ts, pos, toks, 0);
    AtIndex(ts, pos, toks, 1);
    var r := ParseValueAt(c, ts, pos, e.field, e.op);
    if r.Ok? {
      OneLeafDiffers(r.value.0, e);
    }
  }

  lemma NoConnective(ts: seq<string>, p: nat)
    requires p < |ts| && ts[p] == "true"
    ensures PeekUpper(ts, p) != "AND" && PeekUpper(ts, p) != "OR"
  {
    Connectives();
  }

  /** A left side that stops at a stray "true" leaves the parenthesis unclosed. */
  lemma StrayLeft(c: Codec, ts: seq<string>, pos: nat)
    requires pos + 1 <= |ts| && ts[pos] == "("
    requires var l := ParseNotAt(c, ts, pos + 1); l.Ok? && l.value.1 < |ts| && ts[l.value.1] == "true"
    ensures ParseNotAt(c, ts, pos).Err?
  {
    var (e, p) := ParseNotAt(c, ts, pos + 1).value;
    Connectives();
    NoConnective(ts, p);
    TailsStop(c, ts, e, p);
    assert ParseOrAt(c, ts, pos + 1) == Ok((e, p));
  }

  /** So does a right side. */
  lemma StrayRight(c: Codec, ts: seq<string>, pos: nat, p1: nat)
    requires pos < p1 < |ts| && ts[pos] == "(" && (ts[p1] == "AND" || ts[p1] == "OR")
    requires var l := ParseNotAt(c, ts, pos + 1); l.Ok? && l.value.1 == p1
    requires var r := ParseNotAt(c, ts, p1 + 1); r.Ok? && r.value.1 < |ts| && ts[r.value.1] == "true"
    ensures ParseNotAt(c, ts, pos).Err?
  {
    var l := ParseNotAt(c, ts, pos + 1).value.0;
    var (r, p) := ParseNotAt(c, ts, p1 + 1).value;
    Connectives();
    NoConnective(ts, p);
    var pair := if ts[p1] == "AND" then And(l, r) else Or(l, r);
    TailsStop(c, ts, pair, p);
    TailsStop(c, ts, r, p);
    if ts[p1] == "AND" {
      assert AndTail(c, ts, l, p1) == Ok((pair, p));
    } else {
      assert AndTail(c, ts, l, p1) == Ok((l, p1));
      assert OrTail(c, ts, l, p1) == Ok((pair, p));
    }
    assert ParseOrAt(c, ts, pos + 1) == Ok((pair, p));
  }

  /** An error on either side is an error of the pair. */
  lemma FailedSide(c: Codec, ts: seq<string>, pos: nat, p1: nat)
    requires pos < p1 < |ts| && ts[pos] == "(" && (ts[p1] == "AND" || ts[p1] == "OR")
    requires
      var l := ParseNotAt(c, ts, pos + 1);
      l.Err? || (l.value.1 == p1 && ParseNotAt(c, ts, p1 + 1).Err?)
    ensures ParseNotAt(c, ts, pos).Err?
  {
    Connectives();
    var l := ParseNotAt(c, ts, pos + 1);
    if l.Ok? && ts[p1] == "AND" {
      assert AndTail(c, ts, l.value.0, p1).Err?;
    } else if l.Ok? {
      assert AndTail(c, ts, l.value.0, p1) == l;
      assert ParseAndAt(c, ts, p1 + 1).Err?;
      assert OrTail(c, ts, l.value.0, p1).Err?;
    }
    assert ParseOrAt(c, ts, pos + 1).Err?;
  }

  /** Both loops only append: the leaves read so far stay in front. */
  lemma {:induction false} AndTailKeeps(c: Codec, ts: seq<string>, left: Expr, pos: nat)
    requires pos <= |ts|
    ensures var r := AndTail(c, ts, left, pos); r.Ok? ==> Leaves(left) <= Leaves(r.value.0)
    decreases |ts| - pos
  {
    hide ParseNotAt;
    if PeekUpper(ts, pos) == "AND" {
      var right := ParseNotAt(c, ts, pos + 1);
      if right.Ok? {
        AndTailKeeps(c, ts, And(left, right.value.0), right.value.1);
      }
    }
  }

  lemma {:induction false} OrTailKeeps(c: Codec, ts: seq<string>, left: Expr, pos: nat)
    requires pos <= |ts|
    ensures var r := OrTail(c, ts, left, pos); r.Ok? ==> Leaves(left) <= Leaves(r.value.0)
    decreases |ts| - pos
  {
    hide ParseAndAt;
    if PeekUpper(ts, pos) == "OR" {
      var right := ParseAndAt(c, ts, pos + 1);
      if right.Ok? {
        OrTailKeeps(c, ts, Or(left, right.value.0), right.value.1);
      }
    }
  }

  /** Whatever the whole clause reads as begins with the leaves of its first operand. */
  lemma ClauseKeeps(c: Codec, ts: seq<string>, pos: nat)
    requires pos <= |ts|
    ensures
      var (l, r) := (ParseNotAt(c, ts, pos), ParseOrAt(c, ts, pos));
      && (r.Ok? ==> l.Ok? && Leaves(l.value.0) <= Leaves(r.value.0) && l.value.1 <= r.value.1)
  {
    hide ParseNotAt;
    var l := ParseNotAt(c, ts, pos);
    if l.Ok? {
      AndTailKeeps(c, ts, l.value.0, l.value.1);
      var a := AndTail(c, ts, l.value.0, l.value.1);
      if a.Ok? {
        OrTailKeeps(c, ts, a.value.0, a.value.1);
      }
    }
  }

  lemma DifferenceStays(t: Expr, e: Expr, before: seq<Expr>, t': Expr, e': Expr)
    requires LeafDiffers(t, e) && before + Leaves(t) <= Leaves(t') && before + Leaves(e) <= Leaves(e')
    ensures LeafDiffers(t', e')
  {
    var i :| DiffersAt(t, e, i);
    assert DiffersAt(t', e', |before| + i);
  }

  /** A left side with a different leaf gives the pair that leaf. */
  lemma LeftDiffers(c: Codec, ts: seq<string>, pos: nat, e: Expr)
    requires e.And? || e.Or?
    requires pos < |ts| && ts[pos] == "("
    requires var l := ParseNotAt(c, ts, pos + 1); l.Ok? && LeafDiffers(l.value.0, e.left)
    ensures var r := ParseNotAt(c, ts, pos); r.Ok? ==> LeafDiffers(r.value.0, e)
  {
    Connectives();
    hide ParseConditionAt, IsStopWord, ParseOrAt, LeafDiffers;
    var l := ParseNotAt(c, ts, pos + 1).value.0;
    ClauseKeeps(c, ts, pos + 1);
    var r := ParseOrAt(c, ts, pos + 1);
    if r.Ok? {
      DifferenceStays(l, e.left, [], r.value.0, e);
    }
  }

  lemma PrefixTrans(a: seq<Expr>, b: seq<Expr>, c: seq<Expr>)
    requires a <= b && b <= c
    ensures a <= c
  {
  }

  lemma AndKeepsBoth(c: Codec, ts: seq<string>, pos: nat, left: Expr, p1: nat)
    requires pos <= p1 < |ts| && ts[p1] == "AND" && ParseNotAt(c, ts, pos) == Ok((left, p1))
    requires ParseNotAt(c, ts, p1 + 1).Ok?
    ensures var r := ParseOrAt(c, ts, pos);
      r.Ok? ==> Leaves(left) + Leaves(ParseNotAt(c, ts, p1 + 1).value.0) <= Leaves(r.value.0)
  {
    Connectives();
    hide ParseNotAt;
    var (t, p) := ParseNotAt(c, ts, p1 + 1).value;
    AndTailKeeps(c, ts, And(left, t), p);
    var a, r := ParseAndAt(c, ts, pos), ParseOrAt(c, ts, pos);
    assert a == AndTail(c, ts, left, p1) == AndTail(c, ts, And(left, t), p);
    if r.Ok? {
      OrTailKeeps(c, ts, a.value.0, a.value.1);
      PrefixTrans(Leaves(And(left, t)), Leaves(a.value.0), Leaves(r.value.0));
    }
  }

  lemma OrKeepsBoth(c: Codec, ts: seq<string>, pos: nat, left: Expr, p1: nat)
    requires pos <= p1 < |ts| && ts[p1] == "OR" && ParseNotAt(c, ts, pos) == Ok((left, p1))
    requires ParseNotAt(c, ts, p1 + 1).Ok?
    ensures var r := ParseOrAt(c, ts, pos);
      r.Ok? ==> Leaves(left) + Leaves(ParseNotAt(c, ts, p1 + 1).value.0) <= Leaves(r.value.0)
  {
    Connectives();
    hide ParseNotAt;
    var (t, p) := ParseNotAt(c, ts, p1 + 1).value;
    AndTailKeeps(c, ts, t, p);
    var a, r := ParseAndAt(c, ts, p1 + 1), ParseOrAt(c, ts, pos);
    assert a == AndTail(c, ts, t, p);
    assert ParseAndAt(c, ts, pos) == AndTail(c, ts, left, p1) == Ok((left, p1));
    assert r == OrTail(c, ts, left, p1);
    if r.Ok? {
      assert r == OrTail(c, ts, Or(left, a.value.0), a.value.1);
      OrTailKeeps(c, ts, Or(left, a.value.0), a.value.1);
      PrefixTrans(Leaves(left) + Leaves(t), Leaves(Or(left, a.value.0)), Leaves(r.value.0));
    }
  }

  /** And so does a right side. */
  lemma RightDiffers(c: Codec, ts: seq<string>, pos: nat, e: Expr, p1: nat)
    requires e.And? || e.Or?
    requires pos < p1 < |ts| && ts[pos] == "(" && ts[p1] == (if e.And? then "AND" else "OR")
    requires ParseNotAt(c, ts, pos + 1) == Ok((e.left, p1))
    requires var r := ParseNotAt(c, ts, p1 + 1); r.Ok? && LeafDiffers(r.value.0, e.right)
    ensures var r := ParseNotAt(c, ts, pos); r.Ok? ==> LeafDiffers(r.value.0, e)
  {
    Connectives();
    hide ParseConditionAt, IsStopWord, LeafDiffers, ParseOrAt;
    var t := ParseNotAt(c, ts, p1 + 1).value.0;
    var whole := ParseOrAt(c, ts, pos + 1);
    if e.And? {
      AndKeepsBoth(c, ts, pos + 1, e.left, p1);
    } else {
      OrKeepsBoth(c, ts, pos + 1, e.left, p1);
    }
    if whole.Ok? {
      DifferenceStays(t, e.right, Leaves(e.left), whole.value.0, e);
    }
  }

  /** In a parenthesised pair, a misread side is fatal or shows in a leaf. */
  lemma PairMisread(c: Codec, pr: Printer, ts: seq<string>, pos: nat, e: Expr, p1: nat, p2: nat)
    requires e.And? || e.Or?
    requires pos < p1 < p2 < |ts| && ts[pos] == "(" && ts[p2] == ")"
    requires ts[p1] == if e.And? then "AND" else "OR"
    requires !Faithful(c, pr, e) && ReadAs(c, pr, ts, pos + 1, e.left, p1) && ReadAs(c, pr, ts, p1 + 1, e.right, p2)
    ensures ReadAs(c, pr, ts, pos, e, p2 + 1)
  {
    hide ParseNotAt, WellFormed, StringSafe, LeafDiffers;
    var l, r := ParseNotAt(c, ts, pos + 1), ParseNotAt(c, ts, p1 + 1);
    assert !Faithful(c, pr, e.left) || !Faithful(c, pr, e.right) by { FaithfulPair(c, pr, e); }
    if l.Err? {
      FailedSide(c, ts, pos, p1);
    } else if !Faithful(c, pr, e.left) {
      if LeafDiffers(l.value.0, e.left) {
        LeftDiffers(c, ts, pos, e);
      } else {
        StrayLeft(c, ts, pos);
      }
    } else if r.Err? {
      FailedSide(c, ts, pos, p1);
    } else if LeafDiffers(r.value.0, e.right) {
      RightDiffers(c, ts, pos, e, p1);
    } else {
      StrayRight(c, ts, pos, p1);
    }
  }

  lemma FaithfulPair(c: Codec, pr: Printer, e: Expr)
    requires e.And? || e.Or?
    ensures Faithful(c, pr, e) <==> Faithful(c, pr, e.left) && Faithful(c, pr, e.right)
  {
  }

  lemma {:induction false} UnfaithfulPair(c: Codec, pr: Printer, e: Expr, ts: seq<string>, pos: nat)
    requires (e.And? || e.Or?) && !Faithful(c, pr, e)
    requires Named(e) && Telling(c, pr, e) && DefaultText(pr) && At(ts, pos, Tokens(pr, AsString, e))
    ensures ReadAs(c, pr, ts, pos, e, pos + |Tokens(pr, AsString, e)|)
    decreases e, 0
  {
    hide ParseNotAt, ReadAs, IsStopWord, LeafTokens, OperandsReadBack, Faithful;
    var tl, tr := Tokens(pr, AsString, e.left), Tokens(pr, AsString, e.right);
    PairTokens(pr, AsString, e);
    PairParts(ts, pos, tl, if e.And? then "AND" else "OR", tr);
    StringParses(c, pr, e.left, ts, pos + 1);
    StringParses(c, pr, e.right, ts, pos + 2 + |tl|);
    PairMisread(c, pr, ts, pos, e, pos + 1 + |tl|, pos + 2 + |tl| + |tr|);
  }

  lemma UnfaithfulNot(c: Codec, pr: Printer, e: Expr, ts: seq<string>, pos: nat)
    requires e.Not? && !Faithful(c, pr, e) && At(ts, pos, Tokens(pr, AsString, e))
    requires pos + 1 <= |ts| && ReadAs(c, pr, ts, pos + 1, e.child, pos + |Tokens(pr, AsString, e)|)
    ensures ReadAs(c, pr, ts, pos, e, pos + |Tokens(pr, AsString, e)|)
  {
    NotTokens(ts, pos, Tokens(pr, AsString, e.child));
    assert !Faithful(c, pr, e.child);
    hide LeafDiffers, Faithful, ParsePrimaryAt, Tokens;
    var r := ParseNotAt(c, ts, pos + 1);
    if r.Ok? && LeafDiffers(r.value.0, e.child) {
      DifferenceStays(r.value.0, e.child, [], Not(r.value.0), e);
    }
  }

  lemma UnfaithfulLeaf(c: Codec, pr: Printer, e: Expr, ts: seq<string>, pos: nat)
    requires e.Cond? && !Faithful(c, pr, e)
    requires Named(e) && LeafTelling(c, pr, e) && DefaultText(pr) && At(ts, pos, LeafTokens(pr, AsString, e))
    ensures ReadAs(c, pr, ts, pos, e, pos + |LeafTokens(pr, AsString, e)|)
  {
    hide IsStopWord, OperatorAt, ParseConditionAt, ParseNotAt, LeafDiffers, LeafTelling, Faithful, Misread;
    AtIndex(ts, pos, LeafTokens(pr, AsString, e), 0);
    LeafStart(c, ts, pos);
    LeafMisread(c, pr, e, ts, pos);
  }

  lemma FaithfulParses(c: Codec, pr: Printer, e: Expr, ts: seq<string>, pos: nat)
    requires Faithful(c, pr, e) && At(ts, pos, Tokens(pr, AsString, e))
    ensures ReadAs(c, pr, ts, pos, e, pos + |Tokens(pr, AsString, e)|)
  {
    hide ParseNotAt, Tokens, WellFormed, StringSafe;
    PrintedParses(c, pr, AsString, e, ts, pos);
  }

  lemma {:induction false} StringParses(c: Codec, pr: Printer, e: Expr, ts: seq<string>, pos: nat)
    requires Named(e) && Telling(c, pr, e) && DefaultText(pr) && At(ts, pos, Tokens(pr, AsString, e))
    ensures ReadAs(c, pr, ts, pos, e, pos + |Tokens(pr, AsString, e)|)
    decreases e, 1
  {
    hide ReadAs, Faithful, ParseNotAt, LeafTokens, LeafTelling, DefaultText, FieldToken, At;
    if Faithful(c, pr, e) {
      FaithfulParses(c, pr, e, ts, pos);
    } else if e.Cond? {
      UnfaithfulLeaf(c, pr, e, ts, pos);
    } else if e.Not? {
      NotTokens(ts, pos, Tokens(pr, AsString, e.child));
      StringParses(c, pr, e.child, ts, pos + 1);
      UnfaithfulNot(c, pr, e, ts, pos);
    } else {
      UnfaithfulPair(c, pr, e, ts, pos);
    }
  }

  /** The tokens of String parse back to the tree, all of them used, exactly when no leaf is a null test or
      a BETWEEN over a list and every operand is written as one token that reads back. */
  lemma StringRoundTrip(c: Codec, pr: Printer, e: Expr, rest: seq<string>)
    requires Named(e) && Telling(c, pr, e) && DefaultText(pr) && EndsClause(rest)
    ensures ParseOrAt(c, Tokens(pr, AsString, e) + rest, 0) == Ok((e, |Tokens(pr, AsString, e)|)) <==>
              StringSafe(e) && WellFormed(c, pr, e)
  {
    hide Tokens, StringSafe, WellFormed, Telling, Named, ParseOrAt, ParseNotAt, Misread;
    var toks := Tokens(pr, AsString, e);
    var ts := toks + rest;
    if Faithful(c, pr, e) {
      PrintedAtTop(c, pr, AsString, e, rest);
    } else {
      assert ts[0..0 + |toks|] == toks;
      StringParses(c, pr, e, ts, 0);
      MisreadAtTop(c, ts, e, |toks|);
    }
  }

  lemma MisreadAtTop(c: Codec, ts: seq<string>, e: Expr, end: nat)
    requires Misread(ParseNotAt(c, ts, 0), e, ts, end)
    ensures ParseOrAt(c, ts, 0) != Ok((e, end))
  {
    hide ParseNotAt, LeafDiffers;
    var r, whole := ParseNotAt(c, ts, 0), ParseOrAt(c, ts, 0);
    ClauseKeeps(c, ts, 0);
    if r.Ok? && LeafDiffers(r.value.0, e) {
      if whole.Ok? {
        DifferenceStays(r.value.0, e, [], whole.value.0, e);
        NotItself(whole.value.0, e);
      }
    } else if r.Ok? && r.value.1 < |ts| && ts[r.value.1] == "true" {
      NoConnective(ts, r.value.1);
      TailsStop(c, ts, r.value.0, r.value.1);
    }
  }

  lemma NotItself(t: Expr, e: Expr)
    requires LeafDiffers(t, e)
    ensures t != e
  {
  }

  // ---- strings as operands ----

  /** The default text of a string is the string, and only its own text is read as a string. */
  ghost predicate StringText(c: Codec, pr: Printer) {
    && (forall s :: pr.show(Str(s)) == Tokenizer.Tokens(s))
    && (forall raw, s :: c.coerce(raw) == Str(s) ==> s == raw)
    && (forall tok :: c.decodeObject(tok).Some? ==> c.decodeObject(tok).value.Obj?)
  }

  lemma {:induction false} TrimShortens(s: string, cut: set<char>)
    ensures |TrimLeft(s, cut)| <= |s| && |TrimRight(s, cut)| <= |s|
  {
    if s != [] {
      TrimShortens(s[1..], cut);
      TrimShortens(s[..|s| - 1], cut);
    }
  }

  /** So a string with a space, or a blank one, never reads back from String: its tokens tell it apart. */
  lemma SpacedStringFails(c: Codec, pr: Printer, field: string, op: string, s: string)
    requires StringText(c, pr) && op in ValidOps && |Tokenizer.Tokens(s)| != 1
    requires op !in {"BETWEEN", "IN", "NOT IN", "STARTS WITH", "ENDS WITH", "IS NULL", "IS NOT NULL"}
    ensures LeafTelling(c, pr, Leaf(field, op, Str(s))) && !OperandsReadBack(c, pr, Leaf(field, op, Str(s)))
  {
    hide OperandLeaf, Tokenizer.Tokens;
    var toks := pr.show(Str(s));
    forall tok | ReadFirst(toks, tok) ensures OperandLeaf(c, field, op, tok) != Leaf(field, op, Str(s)) {
      if toks == [] {
        FollowingWords(tok);
        OtherTextFails(c, pr, field, op, s, tok);
      } else {
        Tokenizer.FirstIsShorter(s);
        OtherTextFails(c, pr, field, op, s, tok);
      }
    }
  }

  /** A token that is neither the string nor longer does not read as it. */
  lemma OtherTextFails(c: Codec, pr: Printer, field: string, op: string, s: string, tok: string)
    requires StringText(c, pr) && tok != s
    requires |tok| <= |s| || (Trim(tok, Quotes) == tok && !IsQuoted(tok))
    requires op !in {"IN", "NOT IN", "STARTS WITH", "ENDS WITH"}
    ensures OperandLeaf(c, field, op, tok) != Leaf(field, op, Str(s))
  {
    TrimShortens(tok, Quotes);
    TrimShortens(TrimLeft(tok, Quotes), Quotes);
    TrimSame(tok, Quotes);
  }

  /** Trimming to the same length changes nothing. */
  lemma TrimSame(s: string, cut: set<char>)
    ensures |Trim(s, cut)| == |s| ==> Trim(s, cut) == s
  {
    if s != [] {
      TrimShortens(s[1..], cut);
      TrimShortens(s, cut);
      TrimShortens(TrimLeft(s, cut), cut);
      if s[|s| - 1] in cut { TrimShortens(s[..|s| - 1], cut); }
    }
  }

  /** A connective or parenthesis is a token of its own, and nothing trims it. */
  lemma FollowingWords(tok: string)
    requires Following(tok)
    ensures Tokenizer.Tokens(tok) != [] && Trim(tok, Quotes) == tok && !IsQuoted(tok)
  {
    Tokenizer.EndsLikeInput(Tokenizer.Neutral, "", tok);
  }
}
