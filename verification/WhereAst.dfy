/** The WHERE clause of parse/ast.go: expression trees, the recursive-descent parser over
    tokens, and the textual form that EXPLAIN prints. */
module WhereAst {
  import opened Options
  import opened Text
  import opened JsonValues

  datatype Expr =
    | Cond(field: string, op: string, value: Json, value2: Json, values: Option<seq<Json>>)
    | And(left: Expr, right: Expr)
    | Or(left: Expr, right: Expr)
    | Not(child: Expr)

  datatype ParseError =
    | EmptyClause
    | UnexpectedEnd
    | MissingCloseParen
    | UnexpectedToken(token: string)
    | MissingOperator(field: string)
    | MissingValue(field: string, op: string)
    | BetweenNeedsAnd(field: string)

  /** The value conversions of the host language: number and literal detection, JSON decoding,
      and the default text of a value. */
  datatype Codec = Codec(coerce: string -> Json, decodeObject: string -> Option<Json>,
                         decodeArray: string -> seq<Json>, sprint: Json -> string)

  const StopWords: set<string> := {
    "LIMIT", "OFFSET", "SELECT", "ORDER", "SET", "INC", "DEC", "PUSH", "PULL", "TO", "FROM", "BY",
    "ON", "WITH", "AS", "ALL", "EXCLUDE", "ONLY", "SHOW", "EXACT", "PHRASE", "FUZZY", "SIMILAR",
    "GROUP", "HAVING"
  }

  const ValidOps: set<string> := {
    "=", "==", "!=", "<>", ">", "<", ">=", "<=", "LIKE", "NOT LIKE", "CONTAINS", "NOT CONTAINS",
    "EXISTS", "IN", "NOT IN", "BETWEEN", "STARTS WITH", "ENDS WITH", "IS NULL", "IS NOT NULL"
  }

  predicate IsStopWord(tok: string) {
    HasPrefix(tok, "--") || Upper(tok) in StopWords
  }

  const Quotes: set<char> := {'"', '\''}

  predicate IsQuoted(s: string) {
    |s| >= 2 && s[0] in Quotes && s[|s| - 1] == s[0]
  }

  // ---- the parser as a function of the tokens and the position ----

  type Parse = Result<(Expr, nat), ParseError>

  function PeekUpper(ts: seq<string>, pos: nat): string {
    if pos < |ts| then Upper(ts[pos]) else ""
  }

  function Leaf(field: string, op: string, value: Json): Expr {
    Cond(field, op, value, Null, None)
  }

  predicate Bracketed(tok: string) {
    || (HasPrefix(tok, "[") && HasSuffix(tok, "]"))
    || (HasPrefix(tok, "{") && HasSuffix(tok, "}"))
  }

  /** The condition a single operand token makes; BETWEEN reads two unless the token is bracketed. */
  function OperandLeaf(c: Codec, field: string, op: string, tok: string): Expr {
    if HasPrefix(tok, "[") && HasSuffix(tok, "]") then
      Cond(field, op, Null, Null, Some(c.decodeArray(tok)))
    else if HasPrefix(tok, "{") && HasSuffix(tok, "}") then
      match c.decodeObject(tok)
      case Some(obj) => Leaf(field, op, obj)
      case None => Leaf(field, op, Str(tok))
    else
      var raw := if IsQuoted(tok) then tok[1..|tok| - 1] else Trim(tok, Quotes);
      var value := c.coerce(raw);
      if op == "IN" || op == "NOT IN" then Cond(field, op, Null, Null, Some([value]))
      else if op == "STARTS WITH" || op == "ENDS WITH" then Leaf(field, op, Str(c.sprint(value)))
      else Leaf(field, op, value)
  }

  function ParseValueAt(c: Codec, ts: seq<string>, pos: nat, field: string, op: string): (r: Parse)
    requires pos < |ts|
    ensures r.Ok? ==> pos < r.value.1 <= |ts|
  {
    var tok := ts[pos];
    if !Bracketed(tok) && op == "BETWEEN" then
      if pos + 2 < |ts| && Upper(ts[pos + 1]) == "AND" then
        Ok((Cond(field, op, c.coerce(Trim(tok, Quotes)), c.coerce(Trim(ts[pos + 2], Quotes)), None), pos + 3))
      else
        Err(BetweenNeedsAnd(field))
    else
      Ok((OperandLeaf(c, field, op, tok), pos + 1))
  }

  /** The operator that starts at pos and how many tokens it takes. */
  function OperatorAt(ts: seq<string>, pos: nat): (r: (string, nat))
    requires pos < |ts|
    ensures 1 <= r.1 && pos + r.1 <= |ts|
  {
    var op, next := Upper(ts[pos]), PeekUpper(ts, pos + 1);
    if op == "NOT" && next == "IN" then ("NOT IN", 2)
    else if op == "STARTS" && next == "WITH" then ("STARTS WITH", 2)
    else if op == "ENDS" && next == "WITH" then ("ENDS WITH", 2)
    else if op == "NOT" && next == "LIKE" then ("NOT LIKE", 2)
    else if op == "NOT" && next == "CONTAINS" then ("NOT CONTAINS", 2)
    else if op == "IS" && next == "NOT" && PeekUpper(ts, pos + 2) == "NULL" then ("IS NOT NULL", 3)
    else if op == "IS" && next == "NULL" then ("IS NULL", 2)
    else (op, 1)
  }

  function FieldName(tok: string): string {
    if tok == "_id" then "id" else tok
  }

  function ParseConditionAt(c: Codec, ts: seq<string>, pos: nat): (r: Parse)
    requires pos < |ts|
    ensures r.Ok? ==> pos < r.value.1 <= |ts|
  {
    var field := FieldName(ts[pos]);
    if pos + 1 >= |ts| then Err(MissingOperator(field))
    else
      var (op, width) := OperatorAt(ts, pos + 1);
      var next := pos + 1 + width;
      if width > 1 && (op == "IS NULL" || op == "IS NOT NULL") then Ok((Leaf(field, op, Bool(true)), next))
      else if op !in ValidOps then Ok((Leaf(field, "EXISTS", Bool(true)), next))
      else if next >= |ts| then Err(MissingValue(field, op))
      else ParseValueAt(c, ts, next, field, op)
  }

  function ParsePrimaryAt(c: Codec, ts: seq<string>, pos: nat): (r: Parse)
    requires pos <= |ts|
    ensures r.Ok? ==> pos < r.value.1 <= |ts|
    decreases |ts| - pos, 1
  {
    if pos >= |ts| then Err(UnexpectedEnd)
    else if ts[pos] == "(" then
      match ParseOrAt(c, ts, pos + 1)
      case Err(e) => Err(e)
      case Ok((inner, p)) => if p < |ts| && ts[p] == ")" then Ok((inner, p + 1)) else Err(MissingCloseParen)
    else if IsStopWord(ts[pos]) || ts[pos] == ")" then Err(UnexpectedToken(ts[pos]))
    else ParseConditionAt(c, ts, pos)
  }

  function ParseNotAt(c: Codec, ts: seq<string>, pos: nat): (r: Parse)
    requires pos <= |ts|
    ensures r.Ok? ==> pos < r.value.1 <= |ts|
    decreases |ts| - pos, 2
  {
    if PeekUpper(ts, pos) == "NOT" then
      match ParseNotAt(c, ts, pos + 1)
      case Err(e) => Err(e)
      case Ok((child, p)) => Ok((Not(child), p))
    else ParsePrimaryAt(c, ts, pos)
  }

  function ParseAndAt(c: Codec, ts: seq<string>, pos: nat): (r: Parse)
    requires pos <= |ts|
    ensures r.Ok? ==> pos < r.value.1 <= |ts|
    decreases |ts| - pos, 3
  {
    match ParseNotAt(c, ts, pos)
    case Err(e) => Err(e)
    case Ok((left, p)) => AndTail(c, ts, left, p)
  }

  function AndTail(c: Codec, ts: seq<string>, left: Expr, pos: nat): (r: Parse)
    requires pos <= |ts|
    ensures r.Ok? ==> pos <= r.value.1 <= |ts|
    decreases |ts| - pos, 4
  {
    if PeekUpper(ts, pos) != "AND" then Ok((left, pos))
    else
      match ParseNotAt(c, ts, pos + 1)
      case Err(e) => Err(e)
      case Ok((right, p)) => AndTail(c, ts, And(left, right), p)
  }

  function ParseOrAt(c: Codec, ts: seq<string>, pos: nat): (r: Parse)
    requires pos <= |ts|
    ensures r.Ok? ==> pos < r.value.1 <= |ts|
    decreases |ts| - pos, 5
  {
    match ParseAndAt(c, ts, pos)
    case Err(e) => Err(e)
    case Ok((left, p)) => OrTail(c, ts, left, p)
  }

  function OrTail(c: Codec, ts: seq<string>, left: Expr, pos: nat): (r: Parse)
    requires pos <= |ts|
    ensures r.Ok? ==> pos <= r.value.1 <= |ts|
    decreases |ts| - pos, 6
  {
    if PeekUpper(ts, pos) != "OR" then Ok((left, pos))
    else
      match ParseAndAt(c, ts, pos + 1)
      case Err(e) => Err(e)
      case Ok((right, p)) => OrTail(c, ts, Or(left, right), p)
  }

  // ---- the parser as the source runs it: a cursor over the tokens ----

  /** A method's outcome against the function's: same tree and cursor, or the same error. */
  ghost predicate Agrees(r: Result<Expr, ParseError>, pos: nat, spec: Parse) {
    match spec
    case Ok((e, p)) => r == Ok(e) && pos == p
    case Err(error) => r == Err(error)
  }

  /** A leaf on the field with either single values or a list, never both. */
  predicate IsLeafOn(e: Expr, field: string) {
    e.Cond? && e.field == field && (e.values.Some? ==> e.value == Null && e.value2 == Null)
  }

  class WhereParser {
    const tokens: seq<string>
    const codec: Codec
    var pos: nat

    constructor (codec: Codec, tokens: seq<string>)
      ensures this.codec == codec && this.tokens == tokens && pos == 0
    {
      this.codec, this.tokens, this.pos := codec, tokens, 0;
    }

    method ParseOr() returns (r: Result<Expr, ParseError>)
      requires pos <= |tokens|
      modifies this`pos
      ensures old(pos) <= pos <= |tokens| && Agrees(r, pos, ParseOrAt(codec, tokens, old(pos)))
      decreases |tokens| - pos, 3
    {
      r := ParseAnd();
      if r.Err? { return; }
      while PeekUpper(tokens, pos) == "OR"
        invariant old(pos) < pos <= |tokens| && r.Ok?
        invariant ParseOrAt(codec, tokens, old(pos)) == OrTail(codec, tokens, r.value, pos)
        decreases |tokens| - pos
      {
        pos := pos + 1;
        var right := ParseAnd();
        if right.Err? { return right; }
        r := Ok(Or(r.value, right.value));
      }
    }

    method ParseAnd() returns (r: Result<Expr, ParseError>)
      requires pos <= |tokens|
      modifies this`pos
      ensures old(pos) <= pos <= |tokens| && Agrees(r, pos, ParseAndAt(codec, tokens, old(pos)))
      decreases |tokens| - pos, 2
    {
      r := ParseNot();
      if r.Err? { return; }
      while PeekUpper(tokens, pos) == "AND"
        invariant old(pos) < pos <= |tokens| && r.Ok?
        invariant ParseAndAt(codec, tokens, old(pos)) == AndTail(codec, tokens, r.value, pos)
        decreases |tokens| - pos
      {
        pos := pos + 1;
        var right := ParseNot();
        if right.Err? { return right; }
        r := Ok(And(r.value, right.value));
      }
    }

    method ParseNot() returns (r: Result<Expr, ParseError>)
      requires pos <= |tokens|
      modifies this`pos
      ensures old(pos) <= pos <= |tokens| && Agrees(r, pos, ParseNotAt(codec, tokens, old(pos)))
      decreases |tokens| - pos, 1
    {
      if PeekUpper(tokens, pos) == "NOT" {
        pos := pos + 1;
        var child := ParseNot();
        if child.Err? { return child; }
        return Ok(Not(child.value));
      }
      r := ParsePrimary();
    }

    method ParsePrimary() returns (r: Result<Expr, ParseError>)
      requires pos <= |tokens|
      modifies this`pos
      ensures old(pos) <= pos <= |tokens| && Agrees(r, pos, ParsePrimaryAt(codec, tokens, old(pos)))
      decreases |tokens| - pos, 0
    {
      if pos >= |tokens| { return Err(UnexpectedEnd); }
      if tokens[pos] == "(" {
        pos := pos + 1;
        r := ParseOr();
        if r.Err? { return; }
        if pos >= |tokens| || tokens[pos] != ")" { return Err(MissingCloseParen); }
        pos := pos + 1;
        return;
      }
      if IsStopWord(tokens[pos]) || tokens[pos] == ")" { return Err(UnexpectedToken(tokens[pos])); }
      r := ParseCondition();
    }

    method ParseCondition() returns (r: Result<Expr, ParseError>)
      requires pos < |tokens|
      modifies this`pos
      ensures old(pos) <= pos <= |tokens| && Agrees(r, pos, ParseConditionAt(codec, tokens, old(pos)))
      ensures r.Ok? ==> old(pos) < pos && IsLeafOn(r.value, if tokens[old(pos)] == "_id" then "id" else tokens[old(pos)])
      ensures r.Ok? && r.value.Cond? ==> r.value.op in ValidOps
    {
      hide OperatorAt, ParseValueAt;
      var field := FieldName(tokens[pos]);
      pos := pos + 1;
      if pos >= |tokens| { return Err(MissingOperator(field)); }
      var (op, width) := OperatorAt(tokens, pos);
      pos := pos + width;
      if width > 1 && (op == "IS NULL" || op == "IS NOT NULL") { return Ok(Leaf(field, op, Bool(true))); }
      if op !in ValidOps { return Ok(Leaf(field, "EXISTS", Bool(true))); }
      if pos >= |tokens| { return Err(MissingValue(field, op)); }
      r := ParseValue(field, op);
    }

    method ParseValue(field: string, op: string) returns (r: Result<Expr, ParseError>)
      requires pos < |tokens|
      modifies this`pos
      ensures old(pos) <= pos <= |tokens| && Agrees(r, pos, ParseValueAt(codec, tokens, old(pos), field, op))
      ensures r.Ok? ==> old(pos) < pos && IsLeafOn(r.value, field) && r.value.op == op
    {
      var tok := tokens[pos];
      if !Bracketed(tok) && op == "BETWEEN" {
        if pos + 2 < |tokens| && Upper(tokens[pos + 1]) == "AND" {
          r := Ok(Cond(field, op, codec.coerce(Trim(tok, Quotes)), codec.coerce(Trim(tokens[pos + 2], Quotes)), None));
          pos := pos + 3;
          return;
        }
        pos := pos + 1;
        return Err(BetweenNeedsAnd(field));
      }
      pos := pos + 1;
      r := Ok(OperandLeaf(codec, field, op, tok));
    }
  }

  /** ParseWhere: the tree and how many tokens it took, on every token list. */
  method ParseWhere(codec: Codec, tokens: seq<string>) returns (r: Result<(Expr, nat), ParseError>)
    ensures r == if tokens == [] then Err(EmptyClause) else ParseOrAt(codec, tokens, 0)
  {
    if tokens == [] { return Err(EmptyClause); }
    var parser := new WhereParser(codec, tokens);
    var e := parser.ParseOr();
    if e.Err? { return Err(e.error); }
    return Ok((e.value, parser.pos));
  }
}
