/** The string operations the command language uses, on sequences of code points.
    Upper-casing is exact for comparisons with ASCII words: besides the ASCII letters it maps the two
    other code points whose upper case is ASCII, the dotless i and the long s. */
module Text {

  function UpperChar(c: char): char {
    if 'a' <= c <= 'z' then (c as int - 'a' as int + 'A' as int) as char
    else if c == '\U{0131}' then 'I'
    else if c == '\U{017F}' then 'S'
    else c
  }

  function Upper(s: string): string {
    seq(|s|, i requires 0 <= i < |s| => UpperChar(s[i]))
  }

  predicate HasPrefix(s: string, p: string) {
    p <= s
  }

  predicate HasSuffix(s: string, p: string) {
    |p| <= |s| && s[|s| - |p|..] == p
  }

  function TrimLeft(s: string, cut: set<char>): string {
    if s != [] && s[0] in cut then TrimLeft(s[1..], cut) else s
  }

  function TrimRight(s: string, cut: set<char>): string {
    if s != [] && s[|s| - 1] in cut then TrimRight(s[..|s| - 1], cut) else s
  }

  function Trim(s: string, cut: set<char>): string {
    TrimRight(TrimLeft(s, cut), cut)
  }

  /** Byte order of the encoded text is code point order. */
  predicate TextBelow(a: string, b: string) {
    if b == "" then false
    else if a == "" then true
    else if a[0] != b[0] then a[0] < b[0]
    else TextBelow(a[1..], b[1..])
  }

  lemma {:induction false} TextTotal(a: string, b: string)
    ensures !(TextBelow(a, b) && TextBelow(b, a))
    ensures TextBelow(a, b) || TextBelow(b, a) || a == b
    ensures !TextBelow(a, a)
  {
    if a != "" {
      TextTotal(a[1..], if b == "" then "" else b[1..]);
      if b != "" && a[0] == b[0] && a[1..] == b[1..] {
        assert a == [a[0]] + a[1..] && b == [b[0]] + b[1..];
      }
    }
  }

  lemma {:induction false} TextTransitive(a: string, b: string, c: string)
    requires TextBelow(a, b) && TextBelow(b, c)
    ensures TextBelow(a, c)
  {
    if a != "" && a[0] == b[0] == c[0] {
      TextTransitive(a[1..], b[1..], c[1..]);
    }
  }

  /** A text is below another that it is a proper beginning of, or that has the greater code point where they first differ. */
  lemma {:induction false} TextOrder(a: string, b: string)
    ensures TextBelow(a, b) <==> a < b || exists i :: 0 <= i < |a| && i < |b| && a[..i] == b[..i] && a[i] < b[i]
  {
    if a != "" && b != "" && a[0] == b[0] {
      TextOrder(a[1..], b[1..]);
      forall i | 0 <= i < |a| - 1 && i < |b| - 1
        ensures a[1..][..i] == b[1..][..i] && a[1..][i] < b[1..][i] <==> a[..i + 1] == b[..i + 1] && a[i + 1] < b[i + 1]
      {
        assert a[..i + 1] == [a[0]] + a[1..][..i] && b[..i + 1] == [b[0]] + b[1..][..i];
        assert a[1..][..i] == a[..i + 1][1..] && b[1..][..i] == b[..i + 1][1..];
      }
    }
  }

  /** Trimming takes off a character of the cut set at either end, and stops at others. */
  lemma TrimEnds(q: char, body: string, cut: set<char>)
    requires q in cut && (body != "" ==> body[0] !in cut && body[|body| - 1] !in cut)
    ensures Trim([q] + body + [q], cut) == body
  {
    var p, rest := [q] + body + [q], body + [q];
    assert p[1..] == rest && rest[..|rest| - 1] == body;
    assert TrimLeft(p, cut) == TrimLeft(rest, cut);
    if body == "" {
      assert rest[1..] == "" && TrimLeft(rest, cut) == TrimLeft("", cut) == "";
    } else {
      assert TrimLeft(rest, cut) == rest;
      assert TrimRight(rest, cut) == TrimRight(body, cut) == body;
    }
  }
}
