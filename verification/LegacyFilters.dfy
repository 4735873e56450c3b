/** Two readings of one unparenthesised chain of conditions: the precedence tree of the WHERE
    parser and the left-to-right list the older commands still evaluate. */
module LegacyFilters {
  import opened JsonValues
  import opened Options
  import opened QueryFilter
  import opened Text
  import opened WhereAst
  import opened WhereRoundTrip

  datatype Connective = AndWord | OrWord

  function Word(k: Connective): string {
    if k == AndWord then "AND" else "OR"
  }

  /** A further condition of the chain with the connective before it. */
  type Link = (Connective, Expr)

  // ---- the tree the parser builds from the chain ----

  function GrabAnds(left: Expr, rest: seq<Link>): (r: (Expr, seq<Link>))
    ensures |r.1| <= |rest| && r.1 == rest[|rest| - |r.1|..] && (r.1 != [] ==> r.1[0].0 == OrWord)
    decreases |rest|
  {
    if rest == [] || rest[0].0 == OrWord then (left, rest)
    else GrabAnds(And(left, rest[0].1), rest[1..])
  }

  function JoinOrs(left: Expr, rest: seq<Link>): Expr
    requires rest != [] ==> rest[0].0 == OrWord
    decreases |rest|
  {
    if rest == [] then left
    else
      var (group, after) := GrabAnds(rest[0].1, rest[1..]);
      JoinOrs(Or(left, group), after)
  }

  function ChainTree(first: Expr, rest: seq<Link>): Expr {
    var (group, after) := GrabAnds(first, rest);
    JoinOrs(group, after)
  }

  function ChainTokens(pr: Printer, first: Expr, rest: seq<Link>): seq<string>
    requires first.Cond? && forall l :: l in rest ==> l.1.Cond?
  {
    LeafTokens(pr, AsClause, first) + RestTokens(pr, rest)
  }

  function RestTokens(pr: Printer, rest: seq<Link>): seq<string>
    requires forall l :: l in rest ==> l.1.Cond?
    decreases |rest|
  {
    if rest == [] then []
    else [Word(rest[0].0)] + LeafTokens(pr, AsClause, rest[0].1) + RestTokens(pr, rest[1..])
  }

  ghost predicate Conditions(c: Codec, pr: Printer, rest: seq<Link>) {
    forall l :: l in rest ==> l.1.Cond? && WellFormed(c, pr, l.1)
  }

  lemma ConditionParses(c: Codec, pr: Printer, e: Expr, ts: seq<string>, pos: nat)
    requires e.Cond? && WellFormed(c, pr, e) && At(ts, pos, LeafTokens(pr, AsClause, e))
    ensures ParseNotAt(c, ts, pos) == Ok((e, pos + |LeafTokens(pr, AsClause, e)|))
  {
    hide ParseNotAt, WellFormed, LeafTokens;
    PrintedParses(c, pr, AsClause, e, ts, pos);
  }

  lemma RestLayout(pr: Printer, rest: seq<Link>, ts: seq<string>, pos: nat)
    requires rest != [] && forall l :: l in rest ==> l.1.Cond?
    requires At(ts, pos, RestTokens(pr, rest))
    ensures pos < |ts| && PeekUpper(ts, pos) == Word(rest[0].0)
    ensures At(ts, pos + 1, LeafTokens(pr, AsClause, rest[0].1))
    ensures At(ts, pos + 1 + |LeafTokens(pr, AsClause, rest[0].1)|, RestTokens(pr, rest[1..]))
  {
    hide LeafTokens, At, Upper;
    Connectives();
    var leaf := LeafTokens(pr, AsClause, rest[0].1);
    AtSplit(ts, pos, [Word(rest[0].0)] + leaf, RestTokens(pr, rest[1..]));
    AtSplit(ts, pos, [Word(rest[0].0)], leaf);
    AtIndex(ts, pos, [Word(rest[0].0)], 0);
  }

  /** The rest of the chain sits at pos and runs up to stop, where the clause ends. */
  ghost predicate ChainAt(pr: Printer, rest: seq<Link>, ts: seq<string>, pos: nat, stop: nat)
    requires forall l :: l in rest ==> l.1.Cond?
  {
    At(ts, pos, RestTokens(pr, rest)) && pos + |RestTokens(pr, rest)| == stop && EndsClause(ts[stop..])
  }

  lemma ChainEnd(pr: Printer, ts: seq<string>, pos: nat, stop: nat)
    requires ChainAt(pr, [], ts, pos, stop)
    ensures pos == stop <= |ts| && PeekUpper(ts, pos) != "AND" && PeekUpper(ts, pos) != "OR"
  {
    assert pos < |ts| ==> ts[pos..][0] == ts[pos];
  }

  /** The next link: its connective, its condition, and where the chain goes on. */
  lemma ChainStep(c: Codec, pr: Printer, rest: seq<Link>, ts: seq<string>, pos: nat, stop: nat) returns (next: nat)
    requires rest != [] && Conditions(c, pr, rest) && ChainAt(pr, rest, ts, pos, stop)
    ensures pos < |ts| && PeekUpper(ts, pos) == Word(rest[0].0)
    ensures next <= |ts| && ParseNotAt(c, ts, pos + 1) == Ok((rest[0].1, next))
    ensures Conditions(c, pr, rest[1..]) && ChainAt(pr, rest[1..], ts, next, stop)
  {
    hide ParseNotAt, WellFormed, LeafTokens, RestTokens, At, EndsClause, PeekUpper;
    RestLayout(pr, rest, ts, pos);
    RestSize(pr, rest);
    assert rest[0] in rest;
    ConditionParses(c, pr, rest[0].1, ts, pos + 1);
    next := pos + 1 + |LeafTokens(pr, AsClause, rest[0].1)|;
  }

  lemma RestSize(pr: Printer, rest: seq<Link>)
    requires rest != [] && forall l :: l in rest ==> l.1.Cond?
    ensures |RestTokens(pr, rest)| == 1 + |LeafTokens(pr, AsClause, rest[0].1)| + |RestTokens(pr, rest[1..])|
  {
    hide LeafTokens;
  }

  /** The AND loop takes conditions up to the next OR. */
  lemma {:induction false} AndLoop(c: Codec, pr: Printer, left: Expr, rest: seq<Link>, ts: seq<string>, pos: nat, stop: nat)
    returns (end: nat)
    requires Conditions(c, pr, rest) && ChainAt(pr, rest, ts, pos, stop)
    ensures end <= |ts| && pos <= |ts|
    ensures AndTail(c, ts, left, pos) == Ok((GrabAnds(left, rest).0, end))
    ensures Conditions(c, pr, GrabAnds(left, rest).1) && ChainAt(pr, GrabAnds(left, rest).1, ts, end, stop)
    decreases |rest|
  {
    hide ParseNotAt, WellFormed, LeafTokens, ChainAt, Conditions, Upper;
    end := pos;
    if rest == [] {
      ChainEnd(pr, ts, pos, stop);
    } else {
      var next := ChainStep(c, pr, rest, ts, pos, stop);
      if rest[0].0 == AndWord {
        end := AndLoop(c, pr, And(left, rest[0].1), rest[1..], ts, next, stop);
      }
    }
  }

  /** The OR loop takes the rest, one AND group at a time. */
  lemma {:induction false} OrLoop(c: Codec, pr: Printer, left: Expr, rest: seq<Link>, ts: seq<string>, pos: nat, stop: nat)
    requires rest != [] ==> rest[0].0 == OrWord
    requires Conditions(c, pr, rest) && ChainAt(pr, rest, ts, pos, stop)
    ensures pos <= |ts| && OrTail(c, ts, left, pos) == Ok((JoinOrs(left, rest), stop))
    decreases |rest|
  {
    hide ParseNotAt, WellFormed, LeafTokens, ChainAt, Conditions, Upper;
    if rest == [] {
      ChainEnd(pr, ts, pos, stop);
    } else {
      var next := ChainStep(c, pr, rest, ts, pos, stop);
      var end := AndLoop(c, pr, rest[0].1, rest[1..], ts, next, stop);
      var (group, after) := GrabAnds(rest[0].1, rest[1..]);
      OrLoop(c, pr, Or(left, group), after, ts, end, stop);
      assert ParseAndAt(c, ts, pos + 1) == Ok((group, end));
    }
  }

  lemma ThreeParts<T>(a: seq<T>, b: seq<T>, c: seq<T>)
    ensures (a + b + c)[0..|a|] == a && (a + b + c)[|a|..|a| + |b|] == b && (a + b + c)[|a| + |b|..] == c
  {
  }

  /** The WHERE parser turns the chain's tokens into the precedence tree. */
  lemma ChainParses(c: Codec, pr: Printer, first: Expr, rest: seq<Link>, following: seq<string>)
    requires first.Cond? && WellFormed(c, pr, first) && Conditions(c, pr, rest) && EndsClause(following)
    ensures ParseOrAt(c, ChainTokens(pr, first, rest) + following, 0) ==
            Ok((ChainTree(first, rest), |ChainTokens(pr, first, rest)|))
  {
    hide ParseNotAt, WellFormed, LeafTokens, RestTokens, At, ParseOrAt, EndsClause, GrabAnds, JoinOrs, ChainAt;
    var leaf, tail := LeafTokens(pr, AsClause, first), RestTokens(pr, rest);
    var ts, stop := ChainTokens(pr, first, rest) + following, |leaf| + |tail|;
    ChainStands(pr, rest, leaf, tail, following);
    ConditionParses(c, pr, first, ts, 0);
    var end := AndLoop(c, pr, first, rest, ts, |leaf|, stop);
    var (group, after) := GrabAnds(first, rest);
    OrLoop(c, pr, group, after, ts, end, stop);
    TwoLoops(c, ts, first, |leaf|, group, end, JoinOrs(group, after), stop);
  }

  /** Where the first condition and the rest of the chain stand. */
  lemma ChainStands(pr: Printer, rest: seq<Link>, leaf: seq<string>, tail: seq<string>, following: seq<string>)
    requires (forall l :: l in rest ==> l.1.Cond?) && tail == RestTokens(pr, rest) && EndsClause(following)
    ensures At(leaf + tail + following, 0, leaf) && ChainAt(pr, rest, leaf + tail + following, |leaf|, |leaf| + |tail|)
  {
    hide RestTokens;
    ThreeParts(leaf, tail, following);
  }

  /** A clause is its first operand, the AND loop, the OR loop. */
  lemma TwoLoops(c: Codec, ts: seq<string>, first: Expr, p: nat, group: Expr, end: nat, tree: Expr, stop: nat)
    requires p <= |ts| && end <= |ts| && ParseNotAt(c, ts, 0) == Ok((first, p))
    requires AndTail(c, ts, first, p) == Ok((group, end)) && OrTail(c, ts, group, end) == Ok((tree, stop))
    ensures ParseOrAt(c, ts, 0) == Ok((tree, stop))
  {
    hide ParseNotAt, AndTail, OrTail;
  }

  // ---- what the two readings compute from the truth of the conditions ----

  /** The tree's value: some AND group is true; open is the value of the group being read. */
  function Precedence(closed: bool, open: bool, ks: seq<Connective>, bs: seq<bool>): bool
    requires |ks| == |bs|
    decreases |ks|
  {
    if ks == [] then closed || open
    else if ks[0] == AndWord then Precedence(closed, open && bs[0], ks[1..], bs[1..])
    else Precedence(closed || open, bs[0], ks[1..], bs[1..])
  }

  function LeftToRight(value: bool, ks: seq<Connective>, bs: seq<bool>): bool
    requires |ks| == |bs|
    decreases |ks|
  {
    if ks == [] then value
    else LeftToRight(if ks[0] == AndWord then value && bs[0] else value || bs[0], ks[1..], bs[1..])
  }

  function WordsOf(rest: seq<Link>): (ks: seq<Connective>)
    ensures |ks| == |rest|
  {
    seq(|rest|, i requires 0 <= i < |rest| => rest[i].0)
  }

  function Truths(rest: seq<Link>, leaf: Expr -> bool): (bs: seq<bool>)
    ensures |bs| == |rest|
  {
    seq(|rest|, i requires 0 <= i < |rest| => Eval(rest[i].1, leaf))
  }

  lemma RestOf(rest: seq<Link>, leaf: Expr -> bool)
    requires rest != []
    ensures WordsOf(rest)[0] == rest[0].0 && WordsOf(rest)[1..] == WordsOf(rest[1..])
    ensures Truths(rest, leaf)[0] == Eval(rest[0].1, leaf) && Truths(rest, leaf)[1..] == Truths(rest[1..], leaf)
  {
  }

  lemma {:induction false} GroupValue(left: Expr, rest: seq<Link>, leaf: Expr -> bool, closed: bool)
    ensures
      var (group, after) := GrabAnds(left, rest);
      Precedence(closed, Eval(left, leaf), WordsOf(rest), Truths(rest, leaf)) ==
      Precedence(closed, Eval(group, leaf), WordsOf(after), Truths(after, leaf))
    decreases |rest|
  {
    hide WordsOf, Truths;
    if rest != [] && rest[0].0 == AndWord {
      GroupValue(And(left, rest[0].1), rest[1..], leaf, closed);
      RestOf(rest, leaf);
    }
  }

  lemma {:induction false} OrsValue(left: Expr, rest: seq<Link>, leaf: Expr -> bool)
    requires rest != [] ==> rest[0].0 == OrWord
    ensures Eval(JoinOrs(left, rest), leaf) == Precedence(false, Eval(left, leaf), WordsOf(rest), Truths(rest, leaf))
    decreases |rest|
  {
    hide WordsOf, Truths;
    if rest != [] {
      var (group, after) := GrabAnds(rest[0].1, rest[1..]);
      OrsValue(Or(left, group), after, leaf);
      if after != [] { RestOf(after, leaf); }
      GroupValue(rest[0].1, rest[1..], leaf, Eval(left, leaf));
      RestOf(rest, leaf);
    }
  }

  lemma TreeValue(first: Expr, rest: seq<Link>, leaf: Expr -> bool)
    ensures Eval(ChainTree(first, rest), leaf) ==
            Precedence(false, Eval(first, leaf), WordsOf(rest), Truths(rest, leaf))
  {
    var (group, after) := GrabAnds(first, rest);
    OrsValue(group, after, leaf);
    GroupValue(first, rest, leaf, false);
  }

  // ---- the list of the older commands ----

  function FiltersOf(first: Expr, rest: seq<Link>): seq<Filter>
    requires first.Cond? && forall l :: l in rest ==> l.1.Cond?
  {
    [FilterOf(first)] + seq(|rest|, i requires 0 <= i < |rest| => FilterOf(rest[i].1).(logic := Word(rest[i].0)))
  }

  lemma {:induction false} ListValue(value: bool, ks: seq<Connective>, bs: seq<bool>, logics: seq<string>)
    requires |ks| == |bs| && |logics| == |ks| + 1
    requires forall i :: 0 <= i < |ks| ==> logics[i + 1] == Word(ks[i])
    ensures FoldFilters([value] + bs, logics) == LeftToRight(value, ks, bs)
    decreases |ks|
  {
    Connectives();
    if ks != [] {
      hide LeftToRight;
      var n := |ks| - 1;
      var all := [value] + bs;
      ListValue(value, ks[..n], bs[..n], logics[..n + 1]);
      assert all[..n + 1] == [value] + bs[..n];
      LeftToRightSnoc(value, ks[..n], bs[..n], ks[n], bs[n]);
      assert ks == ks[..n] + [ks[n]] && bs == bs[..n] + [bs[n]];
    }
  }

  lemma {:induction false} LeftToRightSnoc(value: bool, ks: seq<Connective>, bs: seq<bool>, k: Connective, b: bool)
    requires |ks| == |bs|
    ensures var before := LeftToRight(value, ks, bs);
      LeftToRight(value, ks + [k], bs + [b]) == if k == AndWord then before && b else before || b
    decreases |ks|
  {
    if ks != [] {
      LeftToRightSnoc(if ks[0] == AndWord then value && bs[0] else value || bs[0], ks[1..], bs[1..], k, b);
      assert (ks + [k])[1..] == ks[1..] + [k] && (bs + [b])[1..] == bs[1..] + [b];
    }
  }

  // ---- when they agree ----

  predicate NoAndAfterOr(ks: seq<Connective>) {
    forall i, j :: 0 <= i < j < |ks| && ks[i] == OrWord ==> ks[j] == OrWord
  }

  lemma {:induction false} Agree(closed: bool, open: bool, ks: seq<Connective>, bs: seq<bool>)
    requires |ks| == |bs| && NoAndAfterOr(ks)
    requires closed ==> forall i :: 0 <= i < |ks| ==> ks[i] == OrWord
    ensures Precedence(closed, open, ks, bs) == LeftToRight(closed || open, ks, bs)
    decreases |ks|
  {
    if ks != [] {
      if ks[0] == AndWord {
        Agree(closed, open && bs[0], ks[1..], bs[1..]);
      } else {
        assert forall i :: 1 <= i < |ks| ==> ks[i] == OrWord;
        Agree(closed || open, bs[0], ks[1..], bs[1..]);
      }
    }
  }

  lemma {:induction false} StaysTrue(open: bool, ks: seq<Connective>, bs: seq<bool>)
    requires |ks| == |bs|
    ensures Precedence(true, open, ks, bs)
    decreases |ks|
  {
    if ks != [] {
      StaysTrue(if ks[0] == AndWord then open && bs[0] else bs[0], ks[1..], bs[1..]);
    }
  }

  lemma {:induction false} StaysFalse(ks: seq<Connective>, bs: seq<bool>)
    requires |ks| == |bs| && forall i :: 0 <= i < |bs| ==> !bs[i]
    ensures !LeftToRight(false, ks, bs)
    decreases |ks|
  {
    if ks != [] {
      StaysFalse(ks[1..], bs[1..]);
    }
  }

  /** True before the offending AND and false from there on: the tree says yes, the list no. */
  lemma {:induction false} Differ(closed: bool, ks: seq<Connective>, bs: seq<bool>, j: nat)
    requires |ks| == |bs| && j < |ks| && ks[j] == AndWord
    requires forall k :: 0 <= k < |bs| ==> bs[k] == (k < j)
    requires closed || exists i :: 0 <= i < j && ks[i] == OrWord
    ensures Precedence(closed, true, ks, bs) && !LeftToRight(true, ks, bs)
    decreases j
  {
    if j == 0 {
      StaysTrue(bs[0], ks[1..], bs[1..]);
      StaysFalse(ks[1..], bs[1..]);
    } else {
      if !closed && ks[0] != OrWord {
        var i :| 0 <= i < j && ks[i] == OrWord;
        assert ks[1..][i - 1] == OrWord;
      }
      Differ(closed || ks[0] == OrWord, ks[1..], bs[1..], j - 1);
    }
  }

  /** The readings agree for every truth of the conditions exactly when no AND follows an OR. */
  lemma ReadingsAgree(ks: seq<Connective>)
    ensures (forall v: bool, bs: seq<bool> :: |bs| == |ks| ==> Precedence(false, v, ks, bs) == LeftToRight(v, ks, bs)) <==>
              NoAndAfterOr(ks)
  {
    if NoAndAfterOr(ks) {
      forall v: bool, bs: seq<bool> | |bs| == |ks| ensures Precedence(false, v, ks, bs) == LeftToRight(v, ks, bs) {
        Agree(false, v, ks, bs);
      }
    } else {
      var i, j :| 0 <= i < j < |ks| && ks[i] == OrWord && ks[j] != OrWord;
      var bs := seq(|ks|, k => k < j);
      Differ(false, ks, bs, j);
      assert Precedence(false, true, ks, bs) != LeftToRight(true, ks, bs);
    }
  }

  /** On documents: the parsed tree and the flat list select alike when no AND follows an OR. */
  lemma TreeAndListAgree(m: Matching, data: Data, first: Expr, rest: seq<Link>)
    requires first.Cond? && forall l :: l in rest ==> l.1.Cond?
    requires NoAndAfterOr(WordsOf(rest))
    ensures
      var filters := FiltersOf(first, rest);
      EvalExpr(m, data, ChainTree(first, rest)) <==> FoldFilters(ResultsOf(m, data, filters), LogicsOf(filters))
  {
    var leaf := LeafTest(m, data);
    var filters := FiltersOf(first, rest);
    TreeValue(first, rest, leaf);
    Agree(false, Eval(first, leaf), WordsOf(rest), Truths(rest, leaf));
    ListValue(Eval(first, leaf), WordsOf(rest), Truths(rest, leaf), LogicsOf(filters));
    ListResults(m, data, first, rest);
  }

  lemma ListResults(m: Matching, data: Data, first: Expr, rest: seq<Link>)
    requires first.Cond? && forall l :: l in rest ==> l.1.Cond?
    ensures ResultsOf(m, data, FiltersOf(first, rest)) == [Eval(first, LeafTest(m, data))] + Truths(rest, LeafTest(m, data))
  {
    hide MatchFilter, Word, Eval;
    var leaf, filters := LeafTest(m, data), FiltersOf(first, rest);
    var results, truths := ResultsOf(m, data, filters), [Eval(first, leaf)] + Truths(rest, leaf);
    forall i | 0 <= i < |filters| ensures results[i] == truths[i] {
      ListResult(m, data, first, rest, i);
    }
    hide FiltersOf, ResultsOf, Truths, LeafTest;
  }

  lemma ListResult(m: Matching, data: Data, first: Expr, rest: seq<Link>, i: nat)
    requires (first.Cond? && forall l :: l in rest ==> l.1.Cond?) && i <= |rest|
    ensures |FiltersOf(first, rest)| == |rest| + 1
    ensures MatchFilter(m, data, FiltersOf(first, rest)[i]) == Eval(if i == 0 then first else rest[i - 1].1, LeafTest(m, data))
  {
    hide MatchFilter, Word;
    if i > 0 {
      assert rest[i - 1] in rest;
      LogicIrrelevant(m, data, FilterOf(rest[i - 1].1), Word(rest[i - 1].0));
    }
  }

  lemma LogicIrrelevant(m: Matching, data: Data, f: Filter, logic: string)
    ensures MatchFilter(m, data, f.(logic := logic)) == MatchFilter(m, data, f)
  {
    var g := f.(logic := logic);
    forall v ensures MatchValue(m, v, g) == MatchValue(m, v, f) {}
  }

  /** A flat list stands for the conjunction of its filters exactly when no later one is an OR. */
  lemma {:induction false} ListImpliesAll(logics: seq<string>)
    requires logics != []
    ensures (forall results: seq<bool> :: |results| == |logics| && FoldFilters(results, logics) ==>
               forall b :: b in results ==> b) <==>
            forall i :: 1 <= i < |logics| ==> Upper(logics[i]) != "OR"
  {
    if forall i :: 1 <= i < |logics| ==> Upper(logics[i]) != "OR" {
      forall results: seq<bool> | |results| == |logics| && FoldFilters(results, logics)
        ensures forall b :: b in results ==> b
      {
        AllHold(results, logics);
      }
    } else {
      var i :| 1 <= i < |logics| && Upper(logics[i]) == "OR";
      var results := seq(|logics|, k => k >= i);
      OrRescues(results, logics, i);
      assert results[0] in results;
    }
  }

  lemma {:induction false} AllHold(results: seq<bool>, logics: seq<string>)
    requires |results| == |logics| && FoldFilters(results, logics)
    requires forall i :: 1 <= i < |logics| ==> Upper(logics[i]) != "OR"
    ensures forall b :: b in results ==> b
  {
    if |results| > 1 {
      AllHold(results[..|results| - 1], logics[..|results| - 1]);
      assert results == results[..|results| - 1] + [results[|results| - 1]];
    }
  }

  lemma {:induction false} OrRescues(results: seq<bool>, logics: seq<string>, i: nat)
    requires |results| == |logics| && 1 <= i < |logics| && Upper(logics[i]) == "OR"
    requires forall k :: i <= k < |results| ==> results[k]
    ensures FoldFilters(results, logics)
    decreases |results|
  {
    var n := |results| - 1;
    if i < n {
      OrRescues(results[..n], logics[..n], i);
    }
  }
}
