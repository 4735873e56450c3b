/** Tokenize of parse/tokenizer.go, over code points: splitting respects quotes, brackets and
    braces, balanced or not. Joining the tokens with spaces and splitting again gives the same
    tokens, which is what VIEW CREATE does with the rest of its command line. */
module Tokenizer {

  datatype Quoting = Plain | InString(quote: char)

  /** The scanner between two characters. Unbalanced closers drive the counters below zero. */
  datatype Scan = Scan(quoting: Quoting, brackets: int, braces: int)

  const Neutral := Scan(Plain, 0, 0)

  predicate IsBlank(ch: char) {
    ch == ' ' || ch == '\t' || ch == '\n' || ch == '\r'
  }

  predicate IsParen(ch: char) {
    ch == '(' || ch == ')'
  }

  /** A character that ends the current token instead of joining it. */
  predicate Splits(st: Scan, ch: char) {
    st == Neutral && (IsParen(ch) || IsBlank(ch))
  }

  function Step(st: Scan, ch: char): Scan {
    match st.quoting
    case InString(q) => if ch == q then st.(quoting := Plain) else st
    case Plain =>
      if ch == '"' || ch == '\'' then st.(quoting := InString(ch))
      else if ch == '[' then st.(brackets := st.brackets + 1)
      else if ch == ']' then st.(brackets := st.brackets - 1)
      else if ch == '{' then st.(braces := st.braces + 1)
      else if ch == '}' then st.(braces := st.braces - 1)
      else st
  }

  function Flush(buf: string): seq<string> {
    if buf == "" then [] else [buf]
  }

  function TokensFrom(st: Scan, buf: string, input: string): seq<string>
    decreases |input|
  {
    if input == "" then Flush(buf)
    else if Splits(st, input[0]) then
      Flush(buf) + (if IsParen(input[0]) then [[input[0]]] else []) + TokensFrom(st, "", input[1..])
    else TokensFrom(Step(st, input[0]), buf + [input[0]], input[1..])
  }

  function Tokens(input: string): seq<string> {
    TokensFrom(Neutral, "", input)
  }

  method Tokenize(input: string) returns (tokens: seq<string>)
    ensures tokens == Tokens(input)
  {
    tokens := [];
    var buf, st := "", Neutral;
    for i := 0 to |input|
      invariant Tokens(input) == tokens + TokensFrom(st, buf, input[i..])
    {
      var ch := input[i];
      assert input[i..][1..] == input[i + 1..];
      ghost var rest := TokensFrom(st, "", input[i + 1..]);
      if Splits(st, ch) {
        Associate(tokens, Flush(buf), if IsParen(ch) then [[ch]] else [], rest);
        tokens := tokens + Flush(buf) + (if IsParen(ch) then [[ch]] else []);
        buf := "";
      } else {
        buf, st := buf + [ch], Step(st, ch);
      }
    }
    tokens := tokens + Flush(buf);
  }

  lemma Associate<T>(a: seq<T>, b: seq<T>, c: seq<T>, d: seq<T>)
    ensures a + (b + c + d) == a + b + c + d
  {
  }

  // ---- the shape of what Tokenize returns ----

  function Run(st: Scan, w: string): Scan {
    if w == "" then st else Step(Run(st, w[..|w| - 1]), w[|w| - 1])
  }

  /** Scanned from st, no character of w splits. */
  ghost predicate Unsplit(st: Scan, w: string) {
    forall k :: 0 <= k < |w| ==> !Splits(Run(st, w[..k]), w[k])
  }

  predicate ParenToken(t: string) {
    |t| == 1 && IsParen(t[0])
  }

  ghost predicate WordToken(t: string) {
    t != "" && Unsplit(Neutral, t)
  }

  ghost predicate TokenList(ts: seq<string>) {
    && (forall i :: 0 <= i < |ts| ==> ParenToken(ts[i]) || WordToken(ts[i]))
    && (forall i :: 0 <= i < |ts| - 1 ==> ParenToken(ts[i]) || Run(Neutral, ts[i]) == Neutral)
  }

  function Join(ts: seq<string>): string {
    if ts == [] then "" else if |ts| == 1 then ts[0] else ts[0] + " " + Join(ts[1..])
  }

  lemma UnsplitSnoc(w: string, ch: char)
    requires Unsplit(Neutral, w) && !Splits(Run(Neutral, w), ch)
    ensures Unsplit(Neutral, w + [ch]) && Run(Neutral, w + [ch]) == Step(Run(Neutral, w), ch)
  {
    var v := w + [ch];
    assert v[..|v| - 1] == w;
    forall k | 0 <= k < |v| ensures !Splits(Run(Neutral, v[..k]), v[k]) {
      assert v[..k] == w[..k];
    }
  }

  /** Prefixing a token that ends neutral, or a parenthesis, keeps a token list. */
  lemma ConsToken(t: string, ts: seq<string>)
    requires TokenList(ts)
    requires ParenToken(t) || (WordToken(t) && Run(Neutral, t) == Neutral)
    ensures TokenList([t] + ts)
  {
  }

  lemma {:induction false} ScansToList(st: Scan, buf: string, input: string)
    requires Unsplit(Neutral, buf) && Run(Neutral, buf) == st
    ensures TokenList(TokensFrom(st, buf, input))
    decreases |input|
  {
    if input != "" {
      var ch, rest := input[0], input[1..];
      if Splits(st, ch) {
        ScansToList(Neutral, "", rest);
        var ts := TokensFrom(Neutral, "", rest);
        if IsParen(ch) {
          ConsToken([ch], ts);
          ts := [[ch]] + ts;
        }
        if buf != "" {
          ConsToken(buf, ts);
        }
        assert TokensFrom(st, buf, input) == Flush(buf) + ts;
      } else {
        UnsplitSnoc(buf, ch);
        ScansToList(Step(st, ch), buf + [ch], rest);
      }
    }
  }

  // ---- scanning a joined token list ----

  lemma {:induction false} Absorb(st: Scan, buf: string, w: string, rest: string)
    requires Unsplit(st, w)
    ensures TokensFrom(st, buf, w + rest) == TokensFrom(Run(st, w), buf + w, rest)
    decreases |w|
  {
    if w == "" {
      assert w + rest == rest && buf + w == buf;
    } else {
      var init, ch := w[..|w| - 1], w[|w| - 1];
      assert forall k :: 0 <= k < |init| ==> init[..k] == w[..k];
      Absorb(st, buf, init, [ch] + rest);
      MoveOver(buf, w, rest);
      assert !Splits(Run(st, init), ch);
      hide Splits, Step;
    }
  }

  lemma MoveOver(buf: string, w: string, rest: string)
    requires w != ""
    ensures
      var (init, ch) := (w[..|w| - 1], w[|w| - 1]);
      w + rest == init + ([ch] + rest) && ([ch] + rest)[1..] == rest && buf + w == buf + init + [ch]
  {
  }

  lemma SplitsAtBlank(after: string)
    requires after == "" || after[0] == ' '
    ensures TokensFrom(Neutral, "", after) == if after == "" then [] else Tokens(after[1..])
  {
  }

  lemma FirstTokenScansBack(t: string, after: string)
    requires ParenToken(t) || (WordToken(t) && (after == "" || Run(Neutral, t) == Neutral))
    requires after == "" || after[0] == ' '
    ensures Tokens(t + after) == [t] + if after == "" then [] else Tokens(after[1..])
  {
    if ParenToken(t) {
      SplitsAtBlank(after);
      assert (t + after)[1..] == after && [t[0]] == t;
    } else {
      hide Tokens;
      Absorb(Neutral, "", t, after);
      assert "" + t == t;
      WordEnds(t, Run(Neutral, t), after);
    }
  }

  lemma WordEnds(t: string, st: Scan, after: string)
    requires t != "" && (after == "" || (after[0] == ' ' && st == Neutral))
    ensures TokensFrom(st, t, after) == [t] + if after == "" then [] else Tokens(after[1..])
    ensures forall s :: Tokens(s) == TokensFrom(Neutral, "", s)
  {
  }

  lemma {:induction false} JoinedScansBack(ts: seq<string>)
    requires TokenList(ts)
    ensures Tokens(Join(ts)) == ts
  {
    if |ts| == 1 {
      FirstTokenScansBack(ts[0], "");
      assert ts[0] + "" == ts[0];
    } else if ts != [] {
      var t, rest := ts[0], Join(ts[1..]);
      assert TokenList(ts[1..]);
      JoinedScansBack(ts[1..]);
      FirstTokenScansBack(t, " " + rest);
      assert (" " + rest)[1..] == rest && t + (" " + rest) == t + " " + rest;
    }
  }

  /** Splitting, joining with single spaces and splitting again changes nothing, for any input. */
  lemma TokenizeJoinStable(s: string)
    ensures Tokens(Join(Tokens(s))) == Tokens(s)
  {
    ScansToList(Neutral, "", s);
    JoinedScansBack(Tokens(s));
  }

  // ---- VIEW CREATE: the tokens after AS are joined, trimmed and split again ----

  predicate IsSpace(c: char) {
    || '\t' <= c <= '\r' || c == ' ' || c == '\U{85}' || c == '\U{A0}' || c == '\U{1680}'
    || '\U{2000}' <= c <= '\U{200A}' || c == '\U{2028}' || c == '\U{2029}' || c == '\U{202F}'
    || c == '\U{205F}' || c == '\U{3000}'
  }

  function TrimFront(s: string): string {
    if s != "" && IsSpace(s[0]) then TrimFront(s[1..]) else s
  }

  function TrimBack(s: string): string {
    if s != "" && IsSpace(s[|s| - 1]) then TrimBack(s[..|s| - 1]) else s
  }

  function TrimSpace(s: string): string {
    TrimBack(TrimFront(s))
  }

  function Total(ts: seq<string>): nat {
    if ts == [] then 0 else |ts[0]| + Total(ts[1..])
  }

  lemma {:induction false} RunCons(st: Scan, c: char, w: string)
    ensures Run(st, [c] + w) == Run(Step(st, c), w)
    decreases |w|
  {
    var v := [c] + w;
    if w == "" {
      assert v[..0] == "";
    } else {
      RunCons(st, c, w[..|w| - 1]);
      assert v[..|v| - 1] == [c] + w[..|w| - 1];
    }
  }

  /** A white-space character at the front of a word leaves the scanner where it was. */
  lemma DropFront(t: string)
    requires |t| > 1 && WordToken(t) && IsSpace(t[0])
    ensures WordToken(t[1..]) && Run(Neutral, t[1..]) == Run(Neutral, t)
  {
    var w := t[1..];
    FrontRun(t, |w|);
    assert t[..|w| + 1] == t && w[..|w|] == w;
    forall k | 0 <= k < |w| ensures !Splits(Run(Neutral, w[..k]), w[k]) {
      FrontRun(t, k);
      assert !Splits(Run(Neutral, t[..k + 1]), t[k + 1]);
    }
  }

  lemma FrontRun(t: string, k: nat)
    requires k < |t| && IsSpace(t[0])
    ensures Run(Neutral, t[..k + 1]) == Run(Neutral, t[1..][..k])
  {
    assert t[..k + 1] == [t[0]] + t[1..][..k];
    RunCons(Neutral, t[0], t[1..][..k]);
    assert Step(Neutral, t[0]) == Neutral;
  }

  lemma ReplaceFirst(ts: seq<string>, t: string)
    requires ts != [] && TokenList(ts) && WordToken(t) && Run(Neutral, t) == Run(Neutral, ts[0])
    requires !ParenToken(ts[0])
    ensures TokenList([t] + ts[1..])
  {
  }

  /** Without its leading white-space character the joined list is again one, with less text. */
  lemma DropFirstChar(ts: seq<string>) returns (us: seq<string>)
    requires ts != [] && TokenList(ts) && IsSpace(ts[0][0])
    ensures TokenList(us) && TrimFront(Join(us)) == TrimFront(Join(ts)) && Total(us) < Total(ts)
  {
    hide Run, Unsplit, Step, Splits;
    var t, rest := ts[0], ts[1..];
    JoinCut(t, rest);
    assert ts == [t] + rest;
    if |t| > 1 {
      DropFront(t);
      ReplaceFirst(ts, t[1..]);
      us := [t[1..]] + rest;
    } else {
      us := rest;
    }
    hide Join, TrimFront, IsSpace, TokenList;
  }

  /** Cutting the first character of the text, in its first token. */
  lemma JoinCut(t: string, rest: seq<string>)
    requires t != "" && IsSpace(t[0])
    ensures |t| > 1 ==> TrimFront(Join([t] + rest)) == TrimFront(Join([t[1..]] + rest))
    ensures |t| == 1 ==> TrimFront(Join([t] + rest)) == TrimFront(Join(rest))
  {
    var ts, us, tail := [t] + rest, [t[1..]] + rest, if rest == [] then "" else " " + Join(rest);
    assert ts[1..] == rest && us[1..] == rest;
    assert Join(ts) == t + tail && Join(us) == t[1..] + tail;
    assert (t + tail)[1..] == t[1..] + tail;
    assert rest != [] ==> tail[1..] == Join(rest);
    assert |t| == 1 ==> t[1..] + tail == tail;
  }

  lemma JoinFirst(ts: seq<string>)
    requires ts != [] && ts[0] != ""
    ensures Join(ts)[0] == ts[0][0] && Join(ts)[1..] == ts[0][1..] + if |ts| == 1 then "" else " " + Join(ts[1..])
  {
  }

  lemma {:induction false} TrimFrontList(ts: seq<string>) returns (us: seq<string>)
    requires TokenList(ts)
    ensures TokenList(us) && Join(us) == TrimFront(Join(ts))
    ensures if ts != [] && IsSpace(ts[0][0]) then Total(us) < Total(ts) else us == ts
    decreases Total(ts)
  {
    us := ts;
    if ts != [] && IsSpace(ts[0][0]) {
      var next := DropFirstChar(ts);
      us := TrimFrontList(next);
    } else if ts != [] {
      JoinFirst(ts);
    }
  }

  function Prefix(ts: seq<string>): string {
    if ts == [] then "" else Join(ts) + " "
  }

  lemma {:induction false} JoinSnoc(ts: seq<string>, t: string)
    ensures Join(ts + [t]) == Prefix(ts) + t
    ensures Total(ts + [t]) == Total(ts) + |t|
  {
    if ts == [] {
      assert ts + [t] == [t] && "" + t == t;
    } else {
      JoinSnoc(ts[1..], t);
      assert (ts + [t])[1..] == ts[1..] + [t];
      Regroup(ts[0], " ", Prefix(ts[1..]), t);
      assert |ts| > 1 ==> ts[0] + " " + Prefix(ts[1..]) == Prefix(ts);
      assert |ts| == 1 ==> ts[0] + " " + t == Prefix(ts) + t && Prefix(ts[1..]) + t == t;
    }
  }

  lemma Regroup(a: string, b: string, c: string, d: string)
    ensures a + b + (c + d) == (a + b + c) + d
  {
  }

  lemma CutLast(p: string, t: string)
    requires t != ""
    ensures (p + t)[..|p + t| - 1] == p + t[..|t| - 1] && Last(p + t) == Last(t)
  {
  }

  function Last<T>(s: seq<T>): T
    requires s != []
  {
    s[|s| - 1]
  }

  lemma WordInit(t: string)
    requires WordToken(t) && |t| > 1
    ensures WordToken(t[..|t| - 1])
  {
    var w := t[..|t| - 1];
    forall k | 0 <= k < |w| ensures !Splits(Run(Neutral, w[..k]), w[k]) {
      assert w[..k] == t[..k] && !Splits(Run(Neutral, t[..k]), t[k]);
    }
  }

  lemma ReplaceLast(ts: seq<string>, w: string)
    requires ts != [] && TokenList(ts) && WordToken(w)
    ensures TokenList(ts[..|ts| - 1] + [w])
  {
    var us := ts[..|ts| - 1] + [w];
    forall i | 0 <= i < |us| ensures ParenToken(us[i]) || WordToken(us[i]) {
      assert i < |us| - 1 ==> us[i] == ts[i];
    }
    forall i | 0 <= i < |us| - 1 ensures ParenToken(us[i]) || Run(Neutral, us[i]) == Neutral {
      assert us[i] == ts[i];
    }
  }

  /** Dropping the last character of the text shortens the last token, or drops it and its space. */
  lemma DropLastChar(ts: seq<string>)
    requires ts != [] && Last(ts) != ""
    ensures
      var init, t, text := ts[..|ts| - 1], Last(ts), Join(ts);
      && text != "" && Last(text) == Last(t)
      && (|t| > 1 ==> text[..|text| - 1] == Join(init + [t[..|t| - 1]]) && Total(init + [t[..|t| - 1]]) < Total(ts))
      && (|t| == 1 ==> text[..|text| - 1] == Prefix(init) && Total(init) < Total(ts))
  {
    var init, t := ts[..|ts| - 1], Last(ts);
    assert ts == init + [t];
    JoinSnoc(init, t);
    JoinSnoc(init, t[..|t| - 1]);
    CutLast(Prefix(init), t);
    assert |t| == 1 ==> Prefix(init) + t[..|t| - 1] == Prefix(init);
  }

  lemma TrimBackBlank(s: string)
    ensures TrimBack(s + " ") == TrimBack(s)
  {
    assert (s + " ")[..|s|] == s;
  }

  lemma {:induction false} TrimBackList(ts: seq<string>) returns (us: seq<string>)
    requires TokenList(ts)
    ensures TokenList(us) && Join(us) == TrimBack(Join(ts))
    ensures if ts != [] && IsSpace(Last(Last(ts))) then Total(us) < Total(ts) else us == ts
    decreases Total(ts)
  {
    us := ts;
    if ts != [] {
      var init, t := ts[..|ts| - 1], Last(ts);
      DropLastChar(ts);
      if IsSpace(Last(t)) && |t| > 1 {
        WordInit(t);
        ReplaceLast(ts, t[..|t| - 1]);
        us := TrimBackList(init + [t[..|t| - 1]]);
      } else if IsSpace(Last(t)) {
        assert TokenList(init);
        us := TrimBackList(init);
        TrimBackBlank(Join(init));
      }
    }
  }

  lemma {:induction false} SuffixIsList(ts: seq<string>, k: nat)
    requires TokenList(ts) && k <= |ts|
    ensures TokenList(ts[k..])
  {
  }

  /** The last token ends as the input does, unless that is white space. */
  lemma {:induction false} EndsLikeInput(st: Scan, buf: string, input: string)
    requires input != "" && !IsSpace(Last(input))
    ensures TokensFrom(st, buf, input) != [] && Last(TokensFrom(st, buf, input)) != ""
    ensures Last(Last(TokensFrom(st, buf, input))) == Last(input)
    decreases |input|
  {
    var ch, rest := input[0], input[1..];
    if rest != "" {
      if Splits(st, ch) {
        EndsLikeInput(st, "", rest);
      } else {
        EndsLikeInput(Step(st, ch), buf + [ch], rest);
      }
    }
  }

  lemma {:induction false} TotalConcat(a: seq<string>, b: seq<string>)
    ensures Total(a + b) == Total(a) + Total(b)
  {
    if a == [] {
      assert a + b == b;
    } else {
      TotalConcat(a[1..], b);
      assert (a + b)[1..] == a[1..] + b;
    }
  }

  lemma {:induction false} TotalBound(st: Scan, buf: string, input: string)
    ensures Total(TokensFrom(st, buf, input)) <= |buf| + |input|
    decreases |input|
  {
    if input != "" {
      var ch, rest := input[0], input[1..];
      if Splits(st, ch) {
        TotalBound(st, "", rest);
        var ts := TokensFrom(st, "", rest);
        var parens := if IsParen(ch) then [[ch]] else [];
        TotalConcat(parens, ts);
        TotalConcat(Flush(buf), parens + ts);
        assert TokensFrom(st, buf, input) == Flush(buf) + (parens + ts);
      } else {
        TotalBound(Step(st, ch), buf + [ch], rest);
      }
    }
  }

  /** Of several tokens the first is shorter than the text. */
  lemma FirstIsShorter(s: string)
    requires |Tokens(s)| >= 2
    ensures |Tokens(s)[0]| < |s|
  {
    ScansToList(Neutral, "", s);
    TotalBound(Neutral, "", s);
    var ts := Tokens(s);
    assert ts[1..][0] == ts[1];
  }

  lemma {:induction false} TrimBackEnds(s: string)
    ensures TrimBack(s) != "" ==> !IsSpace(Last(TrimBack(s)))
  {
    if s != "" && IsSpace(s[|s| - 1]) {
      TrimBackEnds(s[..|s| - 1]);
    }
  }

  /** A command line arrives trimmed. Re-splitting the joined and trimmed tokens from position k then gives
      the same tokens exactly when the first of them does not begin with white space, which only a
      character that Tokenize does not split at can be; the end is never touched. */
  lemma ViewQueryStable(s: string, k: nat)
    requires TrimSpace(s) == s && k < |Tokens(s)|
    ensures
      var ts := Tokens(s)[k..];
      && TokenList(ts) && !IsSpace(Last(Last(ts)))
      && (Tokens(TrimSpace(Join(ts))) == ts <==> !IsSpace(ts[0][0]))
  {
    ScansToList(Neutral, "", s);
    SuffixIsList(Tokens(s), k);
    TrimBackEnds(TrimFront(s));
    EndsLikeInput(Neutral, "", s);
    var ts := Tokens(s)[k..];
    assert Last(ts) == Last(Tokens(s));
    var us := TrimFrontList(ts);
    var vs := TrimBackList(us);
    JoinedScansBack(vs);
  }

  // ---- what the tokens of a line are ----

  predicate Ordinary(c: char) {
    c !in {'"', '\'', '[', ']', '{', '}', '(', ')', ' ', '\t', '\n', '\r'}
  }

  predicate OrdinaryWord(t: string) {
    t != "" && forall i :: 0 <= i < |t| ==> Ordinary(t[i])
  }

  /** A text between two equal quotes that it does not hold. */
  predicate QuotedText(t: string) {
    |t| >= 2 && t[0] in {'"', '\''} && t[|t| - 1] == t[0] && forall i :: 0 < i < |t| - 1 ==> t[i] != t[0]
  }

  /** A text between brackets or braces, without another of them or a quote inside. */
  predicate BracketText(t: string) {
    && |t| >= 2 && (t[0], t[|t| - 1]) in {('[', ']'), ('{', '}')}
    && forall i :: 0 < i < |t| - 1 ==> t[i] !in {'"', '\'', '[', ']', '{', '}'}
  }

  /** Ordinary words, quoted texts and bracketed texts are read whole up to a blank or a parenthesis, with whatever
      blanks and parentheses they hold; blanks are dropped, and a parenthesis is a token of its own. */
  lemma TokensRead(t: string, ch: char, rest: string)
    requires OrdinaryWord(t) || QuotedText(t) || BracketText(t)
    requires ch in {' ', '\t', '\n', '\r', '(', ')'}
    ensures Tokens(t) == [t]
    ensures Tokens(t + [ch] + rest) == [t] + (if ch in {'(', ')'} then [[ch]] else []) + Tokens(rest)
    ensures Tokens([ch] + rest) == (if ch in {'(', ')'} then [[ch]] else []) + Tokens(rest)
  {
    OneWord(t);
    hide OrdinaryWord, QuotedText, BracketText, Step, Unsplit, Run;
    WordRead(t, ch, rest);
    assert ([ch] + rest)[1..] == rest;
  }

  lemma WordRead(t: string, ch: char, rest: string)
    requires t != "" && Unsplit(Neutral, t) && Run(Neutral, t) == Neutral && Splits(Neutral, ch)
    ensures Tokens(t) == [t]
    ensures Tokens(t + [ch] + rest) == [t] + (if IsParen(ch) then [[ch]] else []) + Tokens(rest)
  {
    hide Step, Unsplit, Run;
    var tail := [ch] + rest;
    assert t + [ch] + rest == t + tail && tail[1..] == rest;
    assert "" + t == t && t + "" == t;
    Absorb(Neutral, "", t, tail);
    Absorb(Neutral, "", t, "");
  }

  lemma OneWord(t: string)
    requires OrdinaryWord(t) || QuotedText(t) || BracketText(t)
    ensures t != "" && Unsplit(Neutral, t) && Run(Neutral, t) == Neutral
  {
    if QuotedText(t) {
      EnclosedWord(t, Scan(InString(t[0]), 0, 0));
    } else if BracketText(t) {
      EnclosedWord(t, if t[0] == '[' then Scan(Plain, 1, 0) else Scan(Plain, 0, 1));
    } else {
      forall k | 0 <= k <= |t| ensures Run(Neutral, t[..k]) == Neutral {
        Stays(Neutral, t, 0, k);
      }
      assert t[..|t|] == t;
    }
  }

  /** Characters that leave the scanner where it is. */
  lemma {:induction false} Stays(st: Scan, t: string, i: nat, k: nat)
    requires i <= k <= |t| && Run(Neutral, t[..i]) == st
    requires forall j :: i <= j < k ==> Step(st, t[j]) == st
    ensures Run(Neutral, t[..k]) == st
    decreases k
  {
    hide Step;
    if i < k {
      Stays(st, t, i, k - 1);
      assert t[..k][..k - 1] == t[..k - 1];
    }
  }

  lemma EnclosedWord(t: string, inside: Scan)
    requires |t| >= 2 && Step(Neutral, t[0]) == inside && inside != Neutral && Step(inside, t[|t| - 1]) == Neutral
    requires forall i :: 0 < i < |t| - 1 ==> Step(inside, t[i]) == inside
    requires !Splits(Neutral, t[0])
    ensures Unsplit(Neutral, t) && Run(Neutral, t) == Neutral
  {
    hide Step;
    assert t[..0] == "" && t[..1][..0] == "";
    forall k | 1 <= k < |t| ensures Run(Neutral, t[..k]) == inside {
      Stays(inside, t, 1, k);
    }
  }
}
