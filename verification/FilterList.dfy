/** The flat filter list of cmd_filters_util.go, read straight from the tokens, beside the WHERE tree read
    from the same ones. */
module FilterLists {
  import opened JsonValues
  import opened LegacyFilters
  import opened Options
  import opened QueryFilter
  import opened Text
  import opened WhereAst
  import opened WhereRoundTrip
  import Tokenizer

  datatype ListError = Incomplete(token: string) | NoValue(field: string, op: string) | LoneQuote | NoFilters

  /** The host conversions of the older parser: plain values, bounds of BETWEEN, JSON. */
  datatype ListCodec = ListCodec(value: string -> Json, bound: string -> Json, decodeObject: string -> Option<Json>,
                                 decodeArray: string -> seq<Json>, sprint: Json -> string)

  const ListStops: set<string> := {
    "LIMIT", "OFFSET", "SELECT", "ORDER", "SET", "INC", "DEC", "PUSH", "PULL", "TO", "FROM", "BY",
    "ON", "WITH", "AS", "ALL", "EXCLUDE", "ONLY"
  }

  function Plain(lc: ListCodec, field: string, op: string, raw: string, logic: string): Filter {
    var v := lc.value(raw);
    if op == "IN" || op == "NOT IN" then Filter(field, op, Null, Null, [v], logic)
    else if op == "STARTS WITH" || op == "ENDS WITH" then Filter(field, op, Str(lc.sprint(v)), Null, [], logic)
    else Filter(field, op, v, Null, [], logic)
  }

  predicate Enclosed(tok: string, open: string, close: string) {
    HasPrefix(tok, open) && HasSuffix(tok, close)
  }

  /** One operand. A single quote character passes for a quoted string, and taking its inside fails. */
  function Operand(lc: ListCodec, field: string, op: string, logic: string, ts: seq<string>, pos: nat): (r: Result<(Filter, nat), ListError>)
    requires pos < |ts|
    ensures r.Ok? ==> pos < r.value.1 <= |ts|
  {
    var tok := ts[pos];
    if Enclosed(tok, "\"", "\"") || Enclosed(tok, "'", "'") then
      if |tok| < 2 then Err(LoneQuote) else Ok((Plain(lc, field, op, tok[1..|tok| - 1], logic), pos + 1))
    else if Enclosed(tok, "[", "]") then Ok((Filter(field, op, Null, Null, lc.decodeArray(tok), logic), pos + 1))
    else if Enclosed(tok, "{", "}") then
      match lc.decodeObject(tok)
      case Some(obj) => Ok((Filter(field, op, obj, Null, [], logic), pos + 1))
      case None => Ok((Plain(lc, field, op, tok, logic), pos + 1))
    else if op == "BETWEEN" && pos + 2 < |ts| && Upper(ts[pos + 1]) == "AND" then
      Ok((Filter(field, op, lc.bound(Trim(tok, Quotes)), lc.bound(Trim(ts[pos + 2], Quotes)), [], logic), pos + 3))
    else Ok((Plain(lc, field, op, Trim(tok, Quotes), logic), pos + 1))
  }

  /** One condition: field, operator, operand. */
  function ConditionAt(lc: ListCodec, logic: string, ts: seq<string>, pos: nat): (r: Result<(Filter, nat), ListError>)
    requires pos < |ts|
    ensures r.Ok? ==> pos < r.value.1 <= |ts|
  {
    if pos + 1 >= |ts| then Err(Incomplete(ts[pos]))
    else
      var field := FieldName(ts[pos]);
      var (op, width) := OperatorAt(ts, pos + 1);
      var next := pos + 1 + width;
      if width > 1 && (op == "IS NULL" || op == "IS NOT NULL") then Ok((Filter(field, op, Bool(true), Null, [], logic), next))
      else if next >= |ts| then Err(NoValue(field, op))
      else if op !in ValidOps then Ok((Filter(field, "EXISTS", Bool(true), Null, [], logic), next))
      else Operand(lc, field, op, logic, ts, next)
  }

  /** The list from pos on: a connective sets the logic of the next condition, and is forgotten after it. */
  function FiltersAt(lc: ListCodec, ts: seq<string>, pos: nat, logic: string, acc: seq<Filter>): Result<(seq<Filter>, nat), ListError>
    requires pos <= |ts|
    decreases |ts| - pos
  {
    if pos == |ts| || (Upper(ts[pos]) != "AND" && Upper(ts[pos]) != "OR" && Upper(ts[pos]) in ListStops) then Ok((acc, pos))
    else if Upper(ts[pos]) == "AND" || Upper(ts[pos]) == "OR" then FiltersAt(lc, ts, pos + 1, Upper(ts[pos]), acc)
    else
      match ConditionAt(lc, logic, ts, pos)
      case Err(e) => Err(e)
      case Ok((f, next)) => FiltersAt(lc, ts, next, "", acc + [f])
  }

  method ParseFilters(lc: ListCodec, ts: seq<string>, start: nat) returns (r: Result<seq<Filter>, ListError>, idx: nat)
    requires start <= |ts|
    ensures
      match FiltersAt(lc, ts, start, "", [])
      case Err(e) => r == Err(e)
      case Ok((filters, pos)) => if filters == [] then r == Err(NoFilters) else r == Ok(filters) && idx == pos
  {
    var filters: seq<Filter>, logic: string := [], "";
    idx := start;
    while idx < |ts|
      invariant idx <= |ts| && FiltersAt(lc, ts, start, "", []) == FiltersAt(lc, ts, idx, logic, filters)
    {
      var tok := Upper(ts[idx]);
      if tok == "AND" || tok == "OR" {
        logic := tok;
        idx := idx + 1;
        continue;
      }
      if tok in ListStops { break; }
      var condition := Condition(lc, logic, ts, idx);
      if condition.Err? { return Err(condition.error), idx; }
      filters := filters + [condition.value.0];
      idx := condition.value.1;
      logic := "";
    }
    if filters == [] { return Err(NoFilters), idx; }
    return Ok(filters), idx;
  }

  method Condition(lc: ListCodec, logic: string, ts: seq<string>, pos: nat) returns (r: Result<(Filter, nat), ListError>)
    requires pos < |ts|
    ensures r == ConditionAt(lc, logic, ts, pos)
  {
    hide OperatorAt, Operand;
    var idx := pos;
    if idx + 1 >= |ts| { return Err(Incomplete(ts[idx])); }
    var field := FieldName(ts[idx]);
    idx := idx + 1;
    var (op, width) := OperatorAt(ts, idx);
    idx := idx + width;
    if width > 1 && (op == "IS NULL" || op == "IS NOT NULL") {
      return Ok((Filter(field, op, Bool(true), Null, [], logic), idx));
    }
    if idx >= |ts| { return Err(NoValue(field, op)); }
    if op !in ValidOps {
      return Ok((Filter(field, "EXISTS", Bool(true), Null, [], logic), idx));
    }
    r := Value(lc, field, op, logic, ts, idx);
  }

  /** The condition is on its first token, _id meaning id, and under the logic it was read with. */
  lemma ConditionKeeps(lc: ListCodec, logic: string, ts: seq<string>, pos: nat)
    requires pos < |ts|
    ensures
      var r := ConditionAt(lc, logic, ts, pos);
      r.Ok? ==> r.value.0.field == (if ts[pos] == "_id" then "id" else ts[pos]) && r.value.0.logic == logic
  {
    hide OperatorAt, Enclosed, Trim, Upper;
  }

  method Value(lc: ListCodec, field: string, op: string, logic: string, ts: seq<string>, idx: nat) returns (r: Result<(Filter, nat), ListError>)
    requires idx < |ts|
    ensures r == Operand(lc, field, op, logic, ts, idx)
  {
    hide Enclosed, Plain, Trim, Upper;
    var tok := ts[idx];
    var raw := Trim(tok, Quotes);
    if Enclosed(tok, "\"", "\"") || Enclosed(tok, "'", "'") {
      if |tok| < 2 { return Err(LoneQuote); }
      raw := tok[1..|tok| - 1];
    } else if Enclosed(tok, "[", "]") {
      return Ok((Filter(field, op, Null, Null, lc.decodeArray(tok), logic), idx + 1));
    } else if Enclosed(tok, "{", "}") {
      match lc.decodeObject(tok) {
        case Some(obj) => return Ok((Filter(field, op, obj, Null, [], logic), idx + 1));
        case None => raw := tok;
      }
    } else if op == "BETWEEN" && idx + 2 < |ts| && Upper(ts[idx + 1]) == "AND" {
      var v1, v2 := lc.bound(raw), lc.bound(Trim(ts[idx + 2], Quotes));
      return Ok((Filter(field, op, v1, v2, [], logic), idx + 3));
    }
    return Ok((Plain(lc, field, op, raw, logic), idx + 1));
  }

  // ---- a lone quote where a value is expected ----

  /** One quote character on its own: it begins a quoted string and ends one. */
  predicate LoneQuoteToken(tok: string) {
    tok == "\"" || tok == "'"
  }

  lemma OperandFails(lc: ListCodec, field: string, op: string, logic: string, ts: seq<string>, pos: nat)
    requires pos < |ts|
    ensures Operand(lc, field, op, logic, ts, pos).Err? <==> LoneQuoteToken(ts[pos])
    ensures LoneQuoteToken(ts[pos]) ==> Operand(lc, field, op, logic, ts, pos) == Err(LoneQuote)
  {
    QuoteShape(ts[pos]);
    hide Enclosed, Plain;
  }

  lemma QuoteShape(tok: string)
    ensures LoneQuoteToken(tok) <==> (Enclosed(tok, "\"", "\"") || Enclosed(tok, "'", "'")) && |tok| < 2
  {
    if |tok| == 1 {
      assert tok == [tok[0]];
    }
  }

  /** The scanner leaves a quote open only at the end of the line. */
  lemma LoneQuoteIsLast(line: string, i: nat)
    requires i < |Tokenizer.Tokens(line)| && LoneQuoteToken(Tokenizer.Tokens(line)[i])
    ensures i == |Tokenizer.Tokens(line)| - 1
  {
    Tokenizer.ScansToList(Tokenizer.Neutral, "", line);
    var tok := Tokenizer.Tokens(line)[i];
    assert tok[..0] == "";
    assert Tokenizer.Run(Tokenizer.Neutral, tok) == Tokenizer.Step(Tokenizer.Neutral, tok[0]);
  }

  /** No word of the grammar is a quote. */
  lemma QuoteIsNoWord(tok: string)
    requires LoneQuoteToken(tok)
    ensures Upper(tok) == tok && Upper(tok) !in ListStops
    ensures Upper(tok) !in {"AND", "OR", "IN", "WITH", "LIKE", "CONTAINS", "NOT", "NULL", "STARTS", "ENDS", "IS"}
    ensures tok !in ValidOps
  {
  }

  /** A quote at the end changes no operator that stands before it. */
  lemma OperatorBefore(ts: seq<string>, quote: string, pos: nat)
    requires pos < |ts| && LoneQuoteToken(quote)
    ensures OperatorAt(ts + [quote], pos) == OperatorAt(ts, pos)
  {
    QuoteIsNoWord(quote);
    hide Upper;
    var all := ts + [quote];
    assert all[pos] == ts[pos];
    assert pos + 1 < |ts| ==> all[pos + 1] == ts[pos + 1];
    assert pos + 1 == |ts| ==> all[pos + 1] == quote;
    assert pos + 2 < |ts| ==> all[pos + 2] == ts[pos + 2];
    assert pos + 2 == |ts| ==> all[pos + 2] == quote;
    QuoteUpper();
  }

  lemma QuoteUpper()
    ensures Upper("\"") == "\"" && Upper("'") == "'" && Upper("") == ""
  {
  }

  ghost predicate ValueMissing(r: Result<(seq<Filter>, nat), ListError>) {
    r.Err? && r.error.NoValue? && r.error.op in ValidOps
  }

  /** Reading a line that ends in a lone quote fails on it exactly when the line without it breaks off where the
      value of a known operator is expected. */
  lemma {:induction false} QuoteReached(lc: ListCodec, ts: seq<string>, quote: string, pos: nat, logic: string, acc: seq<Filter>)
    requires LoneQuoteToken(quote) && pos <= |ts| && forall i :: 0 <= i < |ts| ==> !LoneQuoteToken(ts[i])
    ensures FiltersAt(lc, ts + [quote], pos, logic, acc) == Err(LoneQuote) <==> ValueMissing(FiltersAt(lc, ts, pos, logic, acc))
    decreases |ts| - pos
  {
    var all := ts + [quote];
    QuoteIsNoWord(quote);
    if pos == |ts| {
      assert all[pos] == quote;
      assert ConditionAt(lc, logic, all, pos) == Err(Incomplete(quote));
    } else {
      assert all[pos] == ts[pos];
      if Upper(ts[pos]) == "AND" || Upper(ts[pos]) == "OR" {
        QuoteReached(lc, ts, quote, pos + 1, Upper(ts[pos]), acc);
      } else if Upper(ts[pos]) !in ListStops {
        ConditionReached(lc, ts, quote, pos, logic, acc);
      }
    }
  }

  lemma {:induction false} ConditionReached(lc: ListCodec, ts: seq<string>, quote: string, pos: nat, logic: string, acc: seq<Filter>)
    requires LoneQuoteToken(quote) && pos < |ts| && forall i :: 0 <= i < |ts| ==> !LoneQuoteToken(ts[i])
    requires Upper(ts[pos]) !in ListStops && Upper(ts[pos]) != "AND" && Upper(ts[pos]) != "OR"
    ensures FiltersAt(lc, ts + [quote], pos, logic, acc) == Err(LoneQuote) <==> ValueMissing(FiltersAt(lc, ts, pos, logic, acc))
    decreases |ts| - pos, 0
  {
    var all := ts + [quote];
    var here, there := ConditionAt(lc, logic, ts, pos), ConditionAt(lc, logic, all, pos);
    ConditionBefore(lc, ts, quote, pos, logic);
    hide ConditionAt, Upper;
    assert all[pos] == ts[pos];
    if here.Ok? && there == here {
      QuoteReached(lc, ts, quote, here.value.1, "", acc + [here.value.0]);
    } else if here.Ok? {
      BoundTaken(lc, ts, here.value.1, "", acc + [here.value.0]);
      assert FiltersAt(lc, all, |all|, "", acc + [there.value.0]) == Ok((acc + [there.value.0], |all|));
    } else if there.Ok? {
      EndsAtQuote(lc, ts, quote, there.value.1, "", acc + [there.value.0]);
    }
  }

  /** What a condition before the quote makes of it: nothing, its value, or the upper bound of a BETWEEN. */
  lemma ConditionBefore(lc: ListCodec, ts: seq<string>, quote: string, pos: nat, logic: string)
    requires LoneQuoteToken(quote) && pos < |ts| && forall i :: 0 <= i < |ts| ==> !LoneQuoteToken(ts[i])
    ensures
      var (here, there) := (ConditionAt(lc, logic, ts, pos), ConditionAt(lc, logic, ts + [quote], pos));
      || (here.Ok? && there == here)
      || (here.Ok? && there.Ok? && there.value.1 == |ts| + 1 && here.value.1 + 1 == |ts| && Upper(ts[here.value.1]) == "AND")
      || (here.Err? && here.error.NoValue? && here.error.op in ValidOps && there == Err(LoneQuote))
      || (here.Err? && here.error.NoValue? && here.error.op !in ValidOps && there.Ok? && there.value.1 == |ts|)
      || (here.Err? && here.error.Incomplete? && there.Err? && there != Err(LoneQuote))
  {
    var all := ts + [quote];
    hide OperatorAt, Upper, Operand, FieldName;
    assert all[pos] == ts[pos];
    if pos + 1 < |ts| {
      OperatorBefore(ts, quote, pos + 1);
      var (op, width) := OperatorAt(ts, pos + 1);
      var next := pos + 1 + width;
      if next < |ts| {
        OperandBefore(lc, FieldName(ts[pos]), op, logic, ts, quote, next);
      } else {
        assert all[next] == quote;
        OperandFails(lc, FieldName(ts[pos]), op, logic, all, next);
      }
    } else {
      assert all[pos + 1] == quote;
      QuoteOperator(all, pos + 1);
    }
  }

  lemma QuoteOperator(ts: seq<string>, pos: nat)
    requires pos < |ts| && LoneQuoteToken(ts[pos])
    ensures OperatorAt(ts, pos) == (ts[pos], 1)
  {
    QuoteIsNoWord(ts[pos]);
  }

  lemma OperandBefore(lc: ListCodec, field: string, op: string, logic: string, ts: seq<string>, quote: string, pos: nat)
    requires LoneQuoteToken(quote) && pos < |ts| && !LoneQuoteToken(ts[pos])
    ensures
      var (here, there) := (Operand(lc, field, op, logic, ts, pos), Operand(lc, field, op, logic, ts + [quote], pos));
      && here.Ok?
      && (there == here || (there.Ok? && there.value.1 == |ts| + 1 && here.value.1 + 1 == |ts| && Upper(ts[here.value.1]) == "AND"))
  {
    OperandFails(lc, field, op, logic, ts, pos);
    hide Enclosed, Plain, Trim, Upper;
    var all := ts + [quote];
    assert all[pos] == ts[pos];
    assert pos + 1 < |ts| ==> all[pos + 1] == ts[pos + 1];
    assert pos + 2 < |ts| ==> all[pos + 2] == ts[pos + 2];
  }

  /** A quote taken as the upper bound leaves nothing to read; without it a stray AND does. */
  lemma BoundTaken(lc: ListCodec, ts: seq<string>, pos: nat, logic: string, acc: seq<Filter>)
    requires pos + 1 == |ts| && Upper(ts[pos]) == "AND"
    ensures FiltersAt(lc, ts, pos, logic, acc).Ok?
  {
    hide Upper;
    assert FiltersAt(lc, ts, pos + 1, "AND", acc) == Ok((acc, |ts|));
  }

  /** A quote left alone is a condition without an operator. */
  lemma EndsAtQuote(lc: ListCodec, ts: seq<string>, quote: string, pos: nat, logic: string, acc: seq<Filter>)
    requires LoneQuoteToken(quote) && pos == |ts|
    ensures FiltersAt(lc, ts + [quote], pos, logic, acc) == Err(Incomplete(quote))
  {
    QuoteIsNoWord(quote);
    var all := ts + [quote];
    assert all[pos] == quote;
    assert ConditionAt(lc, logic, all, pos) == Err(Incomplete(quote));
  }

  /** Without a lone quote among the tokens, reading never fails on one. */
  lemma {:induction false} NoQuoteNoFailure(lc: ListCodec, ts: seq<string>, pos: nat, logic: string, acc: seq<Filter>)
    requires pos <= |ts| && forall i :: pos <= i < |ts| ==> !LoneQuoteToken(ts[i])
    ensures FiltersAt(lc, ts, pos, logic, acc) != Err(LoneQuote)
    decreases |ts| - pos
  {
    if pos < |ts| {
      if Upper(ts[pos]) == "AND" || Upper(ts[pos]) == "OR" {
        NoQuoteNoFailure(lc, ts, pos + 1, Upper(ts[pos]), acc);
      } else {
        ConditionFails(lc, ts, pos, logic);
        var condition := ConditionAt(lc, logic, ts, pos);
        hide ConditionAt, Upper;
        if condition.Ok? {
          NoQuoteNoFailure(lc, ts, condition.value.1, "", acc + [condition.value.0]);
        }
      }
    }
  }

  lemma ConditionFails(lc: ListCodec, ts: seq<string>, pos: nat, logic: string)
    requires pos < |ts| && forall i :: pos <= i < |ts| ==> !LoneQuoteToken(ts[i])
    ensures ConditionAt(lc, logic, ts, pos) != Err(LoneQuote)
  {
    if pos + 1 < |ts| {
      var (op, width) := OperatorAt(ts, pos + 1);
      hide OperatorAt, Operand;
      if pos + 1 + width < |ts| {
        OperandFails(lc, FieldName(ts[pos]), op, logic, ts, pos + 1 + width);
      }
    }
  }

  /** For every command line: reading its filters from token start fails on a lone quote exactly when the last token
      is one, and the line without it breaks off where the value of a known operator is expected. */
  lemma LoneQuoteFails(lc: ListCodec, line: string, start: nat)
    requires start < |Tokenizer.Tokens(line)|
    ensures
      var ts := Tokenizer.Tokens(line);
      var n := |ts| - 1;
      FiltersAt(lc, ts, start, "", []) == Err(LoneQuote) <==>
        LoneQuoteToken(ts[n]) && ValueMissing(FiltersAt(lc, ts[..n], start, "", []))
  {
    var ts := Tokenizer.Tokens(line);
    var n := |ts| - 1;
    forall i | 0 <= i < n ensures !LoneQuoteToken(ts[i]) {
      if LoneQuoteToken(ts[i]) { LoneQuoteIsLast(line, i); }
    }
    hide FiltersAt, Tokenizer.Tokens;
    if LoneQuoteToken(ts[n]) {
      assert ts == ts[..n] + [ts[n]];
      QuoteReached(lc, ts[..n], ts[n], start, "", []);
    } else {
      NoQuoteNoFailure(lc, ts, start, "", []);
    }
  }

  /** The shortest such line. */
  lemma LoneQuoteLine(lc: ListCodec)
    ensures Tokenizer.Tokens("a = '") == ["a", "=", "'"]
    ensures FiltersAt(lc, ["a", "=", "'"], 0, "", []) == Err(LoneQuote)
  {
    QuoteUpper();
    assert Upper("a") == "A" && Upper("=") == "=";
    assert OperatorAt(["a", "=", "'"], 1) == ("=", 1);
    OperandFails(lc, "a", "=", "", ["a", "=", "'"], 2);
    assert ConditionAt(lc, "", ["a", "=", "'"], 0) == Err(LoneQuote);
    ShortLine();
  }

  lemma ShortLine()
    ensures Tokenizer.Tokens("a = '") == ["a", "=", "'"]
  {
    Tokenizer.ScansToList(Tokenizer.Neutral, "", "'");
    assert "a = '" == Tokenizer.Join(["a", "=", "'"]);
    assert Tokenizer.TokenList(["a", "=", "'"]) by { WordsScan(); }
    Tokenizer.JoinedScansBack(["a", "=", "'"]);
  }

  lemma WordsScan()
    ensures Tokenizer.WordToken("a") && Tokenizer.WordToken("=") && Tokenizer.WordToken("'")
    ensures Tokenizer.Run(Tokenizer.Neutral, "a") == Tokenizer.Neutral == Tokenizer.Run(Tokenizer.Neutral, "=")
  {
    assert "a"[..0] == "=" [..0] == "'"[..0] == "";
  }

  // ---- on a chain of conditions ----

  /** A leaf whose name is no connective and whose operand tokens this parser reads as the leaf. */
  ghost predicate ListReads(lc: ListCodec, c: Codec, pr: Printer, e: Expr) {
    && e.Cond? && WellFormed(c, pr, e) && Upper(e.field) != "AND" && Upper(e.field) != "OR"
    && (!NullTest(e) ==>
          var toks := Operands(pr, AsClause, e);
          toks != [] && Operand(lc, e.field, e.op, "", toks, 0) == Ok((FilterOf(e), |toks|)))
  }

  /** An operand is read the same wherever its tokens stand, with whatever logic. */
  lemma OperandAnywhere(lc: ListCodec, c: Codec, pr: Printer, e: Expr, logic: string, ts: seq<string>, pos: nat)
    requires ListReads(lc, c, pr, e) && !NullTest(e) && At(ts, pos, Operands(pr, AsClause, e))
    ensures
      var toks := Operands(pr, AsClause, e);
      pos < |ts| && Operand(lc, e.field, e.op, logic, ts, pos) == Ok((FilterOf(e).(logic := logic), pos + |toks|))
  {
    hide Operand, OperandLeaf;
    OperandMoves(lc, e.field, e.op, logic, Operands(pr, AsClause, e), ts, pos, FilterOf(e));
  }

  lemma BracketedMeans(tok: string)
    ensures Bracketed(tok) <==> Enclosed(tok, "[", "]") || Enclosed(tok, "{", "}")
  {
  }

  lemma PlainLogic(lc: ListCodec, field: string, op: string, logic: string)
    ensures forall raw :: Plain(lc, field, op, raw, logic) == Plain(lc, field, op, raw, "").(logic := logic)
  {
  }

  lemma OperandMoves(lc: ListCodec, field: string, op: string, logic: string, toks: seq<string>, ts: seq<string>, pos: nat, f: Filter)
    requires toks != [] && At(ts, pos, toks) && pos < |ts| && Operand(lc, field, op, "", toks, 0) == Ok((f, |toks|))
    requires |toks| == 3 ==> pos + 2 < |ts|
    requires op == "BETWEEN" ==> |toks| == 3 || Bracketed(toks[0])
    ensures Operand(lc, field, op, logic, ts, pos) == Ok((f.(logic := logic), pos + |toks|))
  {
    hide Trim, Upper, Enclosed, Plain, Bracketed, At;
    BracketedMeans(toks[0]);
    PlainLogic(lc, field, op, logic);
    AtIndex(ts, pos, toks, 0);
    if |toks| == 3 {
      AtIndex(ts, pos, toks, 1);
      AtIndex(ts, pos, toks, 2);
    }
  }

  lemma LeafFacts(lc: ListCodec, c: Codec, pr: Printer, e: Expr)
    requires ListReads(lc, c, pr, e)
    ensures e.Cond? && e.op in ValidOps && FieldName(e.field) == e.field
    ensures NullTest(e) ==> FilterOf(e) == Filter(e.field, e.op, Bool(true), Null, [], "") && Operands(pr, AsClause, e) == []
  {
    hide Operand, IsStopWord;
  }

  lemma ConditionReads(lc: ListCodec, c: Codec, pr: Printer, e: Expr, logic: string, ts: seq<string>, pos: nat)
    requires ListReads(lc, c, pr, e) && At(ts, pos, LeafTokens(pr, AsClause, e))
    ensures
      pos < |ts| && ConditionAt(lc, logic, ts, pos) == Ok((FilterOf(e).(logic := logic), pos + |LeafTokens(pr, AsClause, e)|))
  {
    hide OperatorAt, Operand, IsStopWord, ListReads, Words, Operands;
    LeafFacts(lc, c, pr, e);
    var operands := Operands(pr, AsClause, e);
    LeafLayout(ts, pos, e.field, e.op, operands);
    if !NullTest(e) {
      OperandAnywhere(lc, c, pr, e, logic, ts, pos + 1 + |Words(e.op)|);
    }
  }

  predicate EndsList(following: seq<string>) {
    following == [] || (Upper(following[0]) in ListStops && Upper(following[0]) != "AND" && Upper(following[0]) != "OR")
  }

  ghost predicate ChainReads(lc: ListCodec, c: Codec, pr: Printer, rest: seq<Link>) {
    forall l :: l in rest ==> l.1.Cond? && ListReads(lc, c, pr, l.1)
  }

  lemma {:induction false} RestReads(lc: ListCodec, c: Codec, pr: Printer, rest: seq<Link>, ts: seq<string>, pos: nat, acc: seq<Filter>)
    requires ChainReads(lc, c, pr, rest) && At(ts, pos, RestTokens(pr, rest))
    requires EndsList(ts[pos + |RestTokens(pr, rest)|..])
    ensures FiltersAt(lc, ts, pos, "", acc) == Ok((acc + RestFilters(rest), pos + |RestTokens(pr, rest)|))
    decreases |rest|
  {
    hide LeafTokens, ListReads, FiltersAt, EndsList, RestFilters, FilterOf, Word;
    if rest == [] {
      NothingLeft(lc, ts, pos, acc);
    } else {
      var (k, e) := rest[0];
      assert rest[0] in rest;
      LeafOf(lc, c, pr, e);
      RestLayout(pr, rest, ts, pos);
      ConnectiveReads(lc, ts, pos, k, acc);
      StepReads(lc, c, pr, e, Word(k), ts, pos + 1, acc);
      RestReads(lc, c, pr, rest[1..], ts, pos + 1 + |LeafTokens(pr, AsClause, e)|, acc + [FilterOf(e).(logic := Word(k))]);
      FirstOfRest(rest, acc);
    }
  }

  lemma NothingLeft(lc: ListCodec, ts: seq<string>, pos: nat, acc: seq<Filter>)
    requires pos <= |ts| && EndsList(ts[pos..])
    ensures FiltersAt(lc, ts, pos, "", acc) == Ok((acc, pos)) && acc + RestFilters([]) == acc
  {
    assert pos < |ts| ==> ts[pos..][0] == ts[pos];
  }

  lemma ConnectiveReads(lc: ListCodec, ts: seq<string>, pos: nat, k: Connective, acc: seq<Filter>)
    requires pos < |ts| && PeekUpper(ts, pos) == Word(k)
    ensures FiltersAt(lc, ts, pos, "", acc) == FiltersAt(lc, ts, pos + 1, Word(k), acc)
  {
  }

  lemma FirstOfRest(rest: seq<Link>, acc: seq<Filter>)
    requires rest != [] && forall l :: l in rest ==> l.1.Cond?
    ensures acc + RestFilters(rest) == acc + [FilterOf(rest[0].1).(logic := Word(rest[0].0))] + RestFilters(rest[1..])
  {
  }

  lemma LeafOf(lc: ListCodec, c: Codec, pr: Printer, e: Expr)
    requires ListReads(lc, c, pr, e)
    ensures e.Cond? && WellFormed(c, pr, e)
  {
  }

  /** One condition of the loop. */
  lemma StepReads(lc: ListCodec, c: Codec, pr: Printer, e: Expr, logic: string, ts: seq<string>, pos: nat, acc: seq<Filter>)
    requires ListReads(lc, c, pr, e) && At(ts, pos, LeafTokens(pr, AsClause, e))
    ensures pos + |LeafTokens(pr, AsClause, e)| <= |ts|
    ensures FiltersAt(lc, ts, pos, logic, acc) ==
            FiltersAt(lc, ts, pos + |LeafTokens(pr, AsClause, e)|, "", acc + [FilterOf(e).(logic := logic)])
  {
    hide ConditionAt, ListReads, LeafTokens;
    StartsLeaf(lc, c, pr, e, ts, pos);
    ConditionReads(lc, c, pr, e, logic, ts, pos);
  }

  lemma StartsLeaf(lc: ListCodec, c: Codec, pr: Printer, e: Expr, ts: seq<string>, pos: nat)
    requires ListReads(lc, c, pr, e) && At(ts, pos, LeafTokens(pr, AsClause, e))
    ensures pos + |LeafTokens(pr, AsClause, e)| <= |ts| && pos < |ts|
    ensures Upper(ts[pos]) != "AND" && Upper(ts[pos]) != "OR" && Upper(ts[pos]) !in ListStops
  {
    hide OperandsReadBack, Operand;
    AtIndex(ts, pos, LeafTokens(pr, AsClause, e), 0);
    assert ts[pos] == e.field;
    StopsAreStopWords(e.field);
  }

  lemma StopsAreStopWords(tok: string)
    ensures Upper(tok) in ListStops ==> IsStopWord(tok)
  {
    assert ListStops <= StopWords;
  }

  function RestFilters(rest: seq<Link>): seq<Filter>
    requires forall l :: l in rest ==> l.1.Cond?
  {
    seq(|rest|, i requires 0 <= i < |rest| => FilterOf(rest[i].1).(logic := Word(rest[i].0)))
  }

  /** The parser turns the chain's tokens into the list its conditions and connectives spell. */
  lemma ChainToList(lc: ListCodec, c: Codec, pr: Printer, first: Expr, rest: seq<Link>, following: seq<string>)
    requires ListReads(lc, c, pr, first) && ChainReads(lc, c, pr, rest) && EndsList(following)
    ensures FiltersAt(lc, ChainTokens(pr, first, rest) + following, 0, "", []) ==
            Ok((FiltersOf(first, rest), |ChainTokens(pr, first, rest)|))
  {
    hide LeafTokens, FiltersAt, ListReads, At, RestFilters, FiltersOf;
    LeafOf(lc, c, pr, first);
    var leaf, tail := LeafTokens(pr, AsClause, first), RestTokens(pr, rest);
    var ts := ChainTokens(pr, first, rest) + following;
    ChainLayout(leaf, tail, following);
    StepReads(lc, c, pr, first, "", ts, 0, []);
    RestReads(lc, c, pr, rest, ts, |leaf|, [] + [FilterOf(first)]);
    ListSplit(first, rest);
  }

  lemma ListSplit(first: Expr, rest: seq<Link>)
    requires first.Cond? && forall l :: l in rest ==> l.1.Cond?
    ensures FilterOf(first).(logic := "") == FilterOf(first)
    ensures [] + [FilterOf(first)] + RestFilters(rest) == FiltersOf(first, rest)
  {
  }

  /** Where the condition, the rest of the chain and what follows it stand. */
  lemma ChainLayout(leaf: seq<string>, tail: seq<string>, following: seq<string>)
    ensures At(leaf + tail + following, 0, leaf) && At(leaf + tail + following, |leaf|, tail)
    ensures (leaf + tail + following)[|leaf| + |tail|..] == following
  {
    ThreeParts(leaf, tail, following);
  }

  /** Read from the same tokens, the older list and the WHERE tree select the same documents when no AND
      follows an OR. */
  lemma SameTokensSelectAlike(lc: ListCodec, c: Codec, pr: Printer, first: Expr, rest: seq<Link>, following: seq<string>,
                              m: Matching, data: Data)
    requires ListReads(lc, c, pr, first) && ChainReads(lc, c, pr, rest) && EndsList(following)
    requires NoAndAfterOr(WordsOf(rest))
    ensures
      var ts := ChainTokens(pr, first, rest) + following;
      var (tree, list) := (ParseOrAt(c, ts, 0), FiltersAt(lc, ts, 0, "", []));
      && tree.Ok? && list.Ok? && tree.value.1 == list.value.1
      && (EvalExpr(m, data, tree.value.0) <==> FoldFilters(ResultsOf(m, data, list.value.0), LogicsOf(list.value.0)))
  {
    hide LeafTokens, FiltersAt, ParseOrAt, ListReads, MatchFilter;
    LeafOf(lc, c, pr, first);
    forall l | l in rest ensures l.1.Cond? && WellFormed(c, pr, l.1) {
      LeafOf(lc, c, pr, l.1);
    }
    ChainToList(lc, c, pr, first, rest, following);
    ChainParses(c, pr, first, rest, following);
    TreeAndListAgree(m, data, first, rest);
  }
}
