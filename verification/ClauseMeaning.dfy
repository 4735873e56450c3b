/** What one condition of a WHERE clause reads as, token by token: field, operator and operand of
    parse/ast.go, and what a clause begins with. */
module ClauseMeaning {
  import opened JsonValues
  import opened Options
  import opened Text
  import opened WhereAst
  import opened WhereRoundTrip
  import opened QueryFilter
  import Lists = FilterLists

  /** tok says text: between two equal quotes, or bare with no quote at either end. */
  predicate Says(tok: string, text: string) {
    || tok == "\"" + text + "\"" || tok == "'" + text + "'"
    || (tok == text && (text == "" || (text[0] !in Quotes && text[|text| - 1] !in Quotes)))
  }

  /** The n tokens at pos spell the operator, in any case. */
  predicate Spells(ts: seq<string>, pos: nat, op: string, n: nat) {
    && pos + n <= |ts|
    && (|| (n == 1 && Upper(ts[pos]) == op &&
            op in {"=", "==", "!=", "<>", ">", "<", ">=", "<=", "LIKE", "CONTAINS", "EXISTS", "IN", "BETWEEN"})
        || (n == 2 && (Upper(ts[pos]), Upper(ts[pos + 1]), op) in
            {("NOT", "IN", "NOT IN"), ("NOT", "LIKE", "NOT LIKE"), ("NOT", "CONTAINS", "NOT CONTAINS"),
             ("STARTS", "WITH", "STARTS WITH"), ("ENDS", "WITH", "ENDS WITH")}))
  }

  /** Field, operator and one plain operand: the operand's value, as a list for IN and as text for STARTS and
      ENDS WITH. The token _id names the field id, every other token itself. */
  lemma ConditionReads(c: Codec, ts: seq<string>, pos: nat, op: string, n: nat, text: string)
    requires pos + 1 + n < |ts| && Spells(ts, pos + 1, op, n) && op != "BETWEEN"
    requires Says(ts[pos + 1 + n], text) && !Bracketed(ts[pos + 1 + n])
    ensures
      var field := if ts[pos] == "_id" then "id" else ts[pos];
      ParseConditionAt(c, ts, pos) == Ok((
        if op in {"IN", "NOT IN"} then Cond(field, op, Null, Null, Some([c.coerce(text)]))
        else if op in {"STARTS WITH", "ENDS WITH"} then Cond(field, op, Str(c.sprint(c.coerce(text))), Null, None)
        else Cond(field, op, c.coerce(text), Null, None), pos + 2 + n))
  {
    OperandFollows(c, ts, pos, op, n);
    RawText(ts[pos + 1 + n], text);
    hide Spells, ParseConditionAt, Trim, IsQuoted, Says;
  }

  /** BETWEEN takes two operands with an AND in between, and fails without. */
  lemma BetweenReads(c: Codec, ts: seq<string>, pos: nat, low: string, high: string)
    requires pos + 2 < |ts| && Upper(ts[pos + 1]) == "BETWEEN" && !Bracketed(ts[pos + 2])
    requires Says(ts[pos + 2], low) && (low != "" ==> low[0] !in Quotes && low[|low| - 1] !in Quotes)
    requires pos + 4 < |ts| ==> Says(ts[pos + 4], high) && (high != "" ==> high[0] !in Quotes && high[|high| - 1] !in Quotes)
    ensures
      var field := if ts[pos] == "_id" then "id" else ts[pos];
      ParseConditionAt(c, ts, pos) ==
        if pos + 4 < |ts| && Upper(ts[pos + 3]) == "AND" then
          Ok((Cond(field, "BETWEEN", c.coerce(low), c.coerce(high), None), pos + 5))
        else Err(BetweenNeedsAnd(field))
  {
    hide Spells, ParseConditionAt, Trim, Says, Bracketed, Upper;
    SpellsBetween(ts, pos + 1);
    OperandFollows(c, ts, pos, "BETWEEN", 1);
    TrimmedText(ts[pos + 2], low);
    if pos + 4 < |ts| { TrimmedText(ts[pos + 4], high); }
  }

  /** A bracketed operand is a list, a braced one an object, or its own text when it does not decode. */
  lemma BracketReads(c: Codec, ts: seq<string>, pos: nat, op: string, n: nat, inside: string)
    requires pos + 1 + n < |ts| && Spells(ts, pos + 1, op, n)
    ensures
      var (field, tok) := (if ts[pos] == "_id" then "id" else ts[pos], ts[pos + 1 + n]);
      && (tok == "[" + inside + "]" ==>
            ParseConditionAt(c, ts, pos) == Ok((Cond(field, op, Null, Null, Some(c.decodeArray(tok))), pos + 2 + n)))
      && (tok == "{" + inside + "}" ==>
            ParseConditionAt(c, ts, pos) ==
              Ok((Cond(field, op, if c.decodeObject(tok).Some? then c.decodeObject(tok).value else Str(tok), Null, None), pos + 2 + n)))
  {
    hide Spells, ParseConditionAt, Trim, Upper;
    OperandFollows(c, ts, pos, op, n);
  }

  /** Null tests take no operand, an unknown operator makes an existence test, and a condition that breaks off
      is an error. */
  lemma OtherwiseReads(c: Codec, ts: seq<string>, pos: nat, op: string, n: nat)
    requires pos + 1 < |ts|
    ensures
      var field := if ts[pos] == "_id" then "id" else ts[pos];
      var first, second := Upper(ts[pos + 1]), if pos + 2 < |ts| then Upper(ts[pos + 2]) else "";
      var r := ParseConditionAt(c, ts, pos);
      && (first == "IS" && second == "NULL" ==> r == Ok((Cond(field, "IS NULL", Bool(true), Null, None), pos + 3)))
      && (first == "IS" && second == "NOT" && pos + 3 < |ts| && Upper(ts[pos + 3]) == "NULL" ==>
            r == Ok((Cond(field, "IS NOT NULL", Bool(true), Null, None), pos + 4)))
      && (first !in {"=", "==", "!=", "<>", ">", "<", ">=", "<=", "LIKE", "CONTAINS", "EXISTS", "IN", "BETWEEN", "NOT", "STARTS", "ENDS",
                     "IS", "NOT LIKE", "NOT CONTAINS", "NOT IN", "STARTS WITH", "ENDS WITH", "IS NULL", "IS NOT NULL"} ==>
            r == Ok((Cond(field, "EXISTS", Bool(true), Null, None), pos + 2)))
      && (Spells(ts, pos + 1, op, n) && pos + 1 + n == |ts| ==> r == Err(MissingValue(field, op)))
  {
    if Spells(ts, pos + 1, op, n) && pos + 1 + n == |ts| { OperatorSpelled(ts, pos + 1, op, n); }
    hide Spells, Upper;
  }

  /** A field without an operator is an error. */
  lemma FieldAlone(c: Codec, ts: seq<string>, pos: nat)
    requires pos + 1 == |ts|
    ensures ParseConditionAt(c, ts, pos) == Err(MissingOperator(if ts[pos] == "_id" then "id" else ts[pos]))
  {
  }

  lemma OperandFollows(c: Codec, ts: seq<string>, pos: nat, op: string, n: nat)
    requires pos + 1 + n < |ts| && Spells(ts, pos + 1, op, n)
    ensures ParseConditionAt(c, ts, pos) == ParseValueAt(c, ts, pos + 1 + n, if ts[pos] == "_id" then "id" else ts[pos], op)
  {
    hide OperatorAt, ParseValueAt, Spells, Upper;
    OperatorSpelled(ts, pos + 1, op, n);
  }

  lemma OperatorSpelled(ts: seq<string>, pos: nat, op: string, n: nat)
    requires Spells(ts, pos, op, n) && pos < |ts|
    ensures OperatorAt(ts, pos) == (op, n) && op in ValidOps && op != "IS NULL" && op != "IS NOT NULL"
  {
    hide Upper;
  }

  lemma RawText(tok: string, text: string)
    requires Says(tok, text)
    ensures (if IsQuoted(tok) then tok[1..|tok| - 1] else Trim(tok, Quotes)) == text
  {
  }

  lemma TrimmedText(tok: string, text: string)
    requires Says(tok, text) && (text != "" ==> text[0] !in Quotes && text[|text| - 1] !in Quotes)
    ensures Trim(tok, Quotes) == text
  {
    TrimEnds('"', text, Quotes);
    TrimEnds('\'', text, Quotes);
    assert TrimLeft(text, Quotes) == text;
  }

  // ---- the same tokens read by the older list parser ----

  /** As in a tree: one plain operand makes a value, the one member of an IN list, or a text. */
  lemma ListConditionReads(lc: Lists.ListCodec, logic: string, ts: seq<string>, pos: nat, op: string, n: nat, text: string)
    requires pos + 1 + n < |ts| && Spells(ts, pos + 1, op, n) && op != "BETWEEN"
    requires Says(ts[pos + 1 + n], text) && !Bracketed(ts[pos + 1 + n])
    ensures
      var field := if ts[pos] == "_id" then "id" else ts[pos];
      Lists.ConditionAt(lc, logic, ts, pos) == Ok((
        if op in {"IN", "NOT IN"} then Filter(field, op, Null, Null, [lc.value(text)], logic)
        else if op in {"STARTS WITH", "ENDS WITH"} then Filter(field, op, Str(lc.sprint(lc.value(text))), Null, [], logic)
        else Filter(field, op, lc.value(text), Null, [], logic), pos + 2 + n))
  {
    ListOperandFollows(lc, logic, ts, pos, op, n);
    ListText(ts[pos + 1 + n], text);
    Lists.BracketedMeans(ts[pos + 1 + n]);
    hide Spells, Lists.ConditionAt, Trim, Says, Bracketed, Lists.Enclosed;
  }

  /** BETWEEN takes both bounds, or, without an AND between them, only a value. */
  lemma ListBetweenReads(lc: Lists.ListCodec, logic: string, ts: seq<string>, pos: nat, low: string, high: string)
    requires pos + 2 < |ts| && Upper(ts[pos + 1]) == "BETWEEN" && !Bracketed(ts[pos + 2])
    requires ts[pos + 2] == low && (low != "" ==> low[0] !in Quotes && low[|low| - 1] !in Quotes)
    requires pos + 4 < |ts| ==> Says(ts[pos + 4], high) && (high != "" ==> high[0] !in Quotes && high[|high| - 1] !in Quotes)
    ensures
      var field := if ts[pos] == "_id" then "id" else ts[pos];
      Lists.ConditionAt(lc, logic, ts, pos) ==
        if pos + 4 < |ts| && Upper(ts[pos + 3]) == "AND" then
          Ok((Filter(field, "BETWEEN", lc.bound(low), lc.bound(high), [], logic), pos + 5))
        else Ok((Filter(field, "BETWEEN", lc.value(low), Null, [], logic), pos + 3))
  {
    hide Spells, Lists.ConditionAt, Lists.Operand, Says, Bracketed, Upper;
    SpellsBetween(ts, pos + 1);
    ListOperandFollows(lc, logic, ts, pos, "BETWEEN", 1);
    ListBounds(lc, if ts[pos] == "_id" then "id" else ts[pos], logic, ts, pos + 2, low, high);
  }

  lemma SpellsBetween(ts: seq<string>, pos: nat)
    requires pos < |ts| && Upper(ts[pos]) == "BETWEEN"
    ensures Spells(ts, pos, "BETWEEN", 1)
  {
    hide Upper;
  }

  lemma ListBounds(lc: Lists.ListCodec, field: string, logic: string, ts: seq<string>, pos: nat, low: string, high: string)
    requires pos < |ts| && !Bracketed(ts[pos]) && ts[pos] == low && (low != "" ==> low[0] !in Quotes && low[|low| - 1] !in Quotes)
    requires pos + 2 < |ts| ==> Says(ts[pos + 2], high) && (high != "" ==> high[0] !in Quotes && high[|high| - 1] !in Quotes)
    ensures Lists.Operand(lc, field, "BETWEEN", logic, ts, pos) ==
              if pos + 2 < |ts| && Upper(ts[pos + 1]) == "AND" then Ok((Filter(field, "BETWEEN", lc.bound(low), lc.bound(high), [], logic), pos + 3))
              else Ok((Filter(field, "BETWEEN", lc.value(low), Null, [], logic), pos + 1))
  {
    ListText(low, low);
    Lists.BracketedMeans(low);
    if pos + 2 < |ts| { TrimmedText(ts[pos + 2], high); }
    assert !Lists.Enclosed(low, "\"", "\"") && !Lists.Enclosed(low, "'", "'");
    hide Trim, Says, Bracketed, Lists.Enclosed, Upper;
  }

  /** Bracketed and braced operands; a braced one that does not decode is a value like any other. */
  lemma ListBracketReads(lc: Lists.ListCodec, logic: string, ts: seq<string>, pos: nat, op: string, n: nat, inside: string)
    requires pos + 1 + n < |ts| && Spells(ts, pos + 1, op, n)
    ensures
      var (field, tok) := (if ts[pos] == "_id" then "id" else ts[pos], ts[pos + 1 + n]);
      && (tok == "[" + inside + "]" ==>
            Lists.ConditionAt(lc, logic, ts, pos) == Ok((Filter(field, op, Null, Null, lc.decodeArray(tok), logic), pos + 2 + n)))
      && (tok == "{" + inside + "}" && lc.decodeObject(tok).Some? ==>
            Lists.ConditionAt(lc, logic, ts, pos) == Ok((Filter(field, op, lc.decodeObject(tok).value, Null, [], logic), pos + 2 + n)))
  {
    hide Spells, Lists.ConditionAt, Trim, Upper, Lists.Plain;
    ListOperandFollows(lc, logic, ts, pos, op, n);
  }

  lemma ListOperandFollows(lc: Lists.ListCodec, logic: string, ts: seq<string>, pos: nat, op: string, n: nat)
    requires pos + 1 + n < |ts| && Spells(ts, pos + 1, op, n)
    ensures Lists.ConditionAt(lc, logic, ts, pos) ==
              Lists.Operand(lc, if ts[pos] == "_id" then "id" else ts[pos], op, logic, ts, pos + 1 + n)
  {
    hide OperatorAt, Lists.Operand, Spells, Upper;
    OperatorSpelled(ts, pos + 1, op, n);
  }

  lemma ListText(tok: string, text: string)
    requires Says(tok, text)
    ensures
      var quoted := Lists.Enclosed(tok, "\"", "\"") || Lists.Enclosed(tok, "'", "'");
      if quoted then |tok| >= 2 && tok[1..|tok| - 1] == text else Trim(tok, Quotes) == text && tok == text
  {
  }

  // ---- where a clause begins ----

  /** Where a condition is due, a word that belongs to the rest of the command, a flag or a closing parenthesis is
      an error, the end of the line too; any other token but NOT and an opening parenthesis begins a condition. */
  lemma ConditionDue(c: Codec, ts: seq<string>, pos: nat)
    requires pos <= |ts|
    ensures
      var r := ParseNotAt(c, ts, pos);
      if pos == |ts| then r == Err(UnexpectedEnd)
      else if Upper(ts[pos]) in {"LIMIT", "OFFSET", "SELECT", "ORDER", "SET", "INC", "DEC", "PUSH", "PULL", "TO", "FROM", "BY", "ON", "WITH",
                                 "AS", "ALL", "EXCLUDE", "ONLY", "SHOW", "EXACT", "PHRASE", "FUZZY", "SIMILAR", "GROUP", "HAVING"} ||
              "--" <= ts[pos] || ts[pos] == ")" then
        r == Err(UnexpectedToken(ts[pos]))
      else Upper(ts[pos]) == "NOT" || ts[pos] == "(" || r == ParseConditionAt(c, ts, pos)
  {
    NoWord(")");
    hide ParseConditionAt, ParseOrAt;
    if pos < |ts| { NotOpen(ts[pos]); }
    hide Upper;
  }

  lemma NoWord(tok: string)
    requires tok == ")" || tok == "("
    ensures Upper(tok) == tok
  {
  }

  /** An opening parenthesis and NOT end no clause. */
  lemma NotOpen(tok: string)
    ensures IsStopWord(tok) || tok == ")" ==> tok != "(" && Upper(tok) != "NOT"
  {
    NoWord("(");
    if "--" <= tok { assert Upper(tok)[0] == '-'; }
    hide Upper;
  }

  /** The older list ends, with the filters so far, at the end of the line or at a word that belongs to the rest of
      the command; AND and OR set the connective of the next condition. */
  lemma ListGoesOn(lc: Lists.ListCodec, ts: seq<string>, pos: nat, logic: string, acc: seq<Filter>)
    requires pos <= |ts|
    ensures
      var r := Lists.FiltersAt(lc, ts, pos, logic, acc);
      if pos == |ts| then r == Ok((acc, pos))
      else if Upper(ts[pos]) in {"LIMIT", "OFFSET", "SELECT", "ORDER", "SET", "INC", "DEC", "PUSH", "PULL", "TO", "FROM", "BY", "ON", "WITH",
                                 "AS", "ALL", "EXCLUDE", "ONLY"} then r == Ok((acc, pos))
      else if Upper(ts[pos]) in {"AND", "OR"} then r == Lists.FiltersAt(lc, ts, pos + 1, Upper(ts[pos]), acc)
      else
        var first := Lists.ConditionAt(lc, logic, ts, pos);
        if first.Err? then r == Err(first.error)
        else r == Lists.FiltersAt(lc, ts, first.value.1, "", acc + [first.value.0])
  {
    hide Lists.ConditionAt, Upper;
  }

  /** A clause that does not open with NOT or a parenthesis begins with the condition on its first token. */
  lemma FirstField(c: Codec, ts: seq<string>)
    requires ts != [] && ts[0] != "(" && Upper(ts[0]) != "NOT" && ParseOrAt(c, ts, 0).Ok?
    ensures
      var (leaves, first) := (Leaves(ParseOrAt(c, ts, 0).value.0), ParseConditionAt(c, ts, 0));
      && first.Ok? && leaves != [] && leaves[0] == first.value.0
      && leaves[0].Cond? && leaves[0].field == if ts[0] == "_id" then "id" else ts[0]
  {
    ClauseKeeps(c, ts, 0);
    FieldKept(c, ts, 0);
    hide ParseConditionAt, ParseOrAt, IsStopWord, Upper;
  }

  lemma FieldKept(c: Codec, ts: seq<string>, pos: nat)
    requires pos < |ts|
    ensures
      var r := ParseConditionAt(c, ts, pos);
      r.Ok? ==> r.value.0.Cond? && r.value.0.field == if ts[pos] == "_id" then "id" else ts[pos]
  {
    hide OperatorAt, Trim, IsQuoted, Upper;
  }
}
