/** The few string operations of the Rust standard library that the program relies on. */
module Text {

  /** The characters with the Unicode property White_Space, which `str::trim` strips. */
  predicate IsWhitespace(c: char) {
    || '\U{9}' <= c <= '\U{D}' || c == ' ' || c == '\U{85}' || c == '\U{A0}' || c == '\U{1680}'
    || '\U{2000}' <= c <= '\U{200A}' || c == '\U{2028}' || c == '\U{2029}' || c == '\U{202F}'
    || c == '\U{205F}' || c == '\U{3000}'
  }

  predicate Blank(s: string) {
    forall i | 0 <= i < |s| :: IsWhitespace(s[i])
  }

  function TrimStart(s: string): (r: string)
    ensures |r| <= |s| && s[|s| - |r|..] == r && Blank(s[..|s| - |r|])
    ensures r != "" ==> !IsWhitespace(r[0])
  {
    if s != "" && IsWhitespace(s[0]) then
      var r := TrimStart(s[1..]);
      assert s[..|s| - |r|] == [s[0]] + s[1..][..|s| - 1 - |r|];
      r
    else s
  }

  function TrimEnd(s: string): (r: string)
    ensures |r| <= |s| && s[..|r|] == r && Blank(s[|r|..])
    ensures r != "" ==> !IsWhitespace(r[|r| - 1]) && r[0] == s[0]
  {
    if s != "" && IsWhitespace(s[|s| - 1]) then
      var r := TrimEnd(s[..|s| - 1]);
      assert s[|r|..] == s[..|s| - 1][|r|..] + [s[|s| - 1]];
      r
    else s
  }

  function Trim(s: string): string {
    TrimEnd(TrimStart(s))
  }

  /** Trimming leaves nothing exactly of blank text. */
  lemma {:induction false} TrimEmpty(s: string)
    ensures Trim(s) == "" <==> Blank(s)
  {
    var t := TrimStart(s);
    var r := TrimEnd(t);
    if t == "" {
      assert s[..|s|] == s;
    } else {
      assert t[0] == s[|s| - |t|];
      assert forall i | |r| <= i < |t| :: t[i] == t[|r|..][i - |r|];
    }
  }

  /** Nothing, or text with no blank at either edge. */
  predicate Trimmed(s: string) {
    s != "" ==> !IsWhitespace(s[0]) && !IsWhitespace(s[|s| - 1])
  }

  /** Trimming removes the blanks at both ends, all of them, and nothing else: it leaves `t` exactly of
      the texts that are `t`, without a blank at its edges, between blanks. */
  lemma {:induction false} TrimExactly(s: string, t: string)
    ensures Trim(s) == t <==> Trimmed(t) && exists i, j :: Frames(s, i, t, j)
  {
    hide IsWhitespace, Blank, Trim, Trimmed;
    if Trim(s) == t {
      TrimIsFramed(s);
    }
    if i, j :| Trimmed(t) && Frames(s, i, t, j) {
      assert s == s[..i] + t + s[j..];
      TrimFramed(s[..i], t, s[j..]);
    }
  }

  /** `s` is `t` between blanks: up to `i` before it, from `j` on after it. */
  predicate Frames(s: string, i: int, t: string, j: int) {
    0 <= i <= j <= |s| && s[i..j] == t && Blank(s[..i]) && Blank(s[j..])
  }

  lemma {:induction false} FramedBy(s: string, before: string, t: string, after: string)
    requires s == before + t + after && Blank(before) && Blank(after)
    ensures Frames(s, |before|, t, |before| + |t|)
  {
    hide Blank;
    assert s[..|before|] == before && s[|before|..|before| + |t|] == t;
    assert s[|before| + |t|..] == after;
  }

  lemma {:induction false} TrimIsTrimmed(s: string)
    ensures Trimmed(Trim(s))
  {
    var t := TrimStart(s);
    var r := TrimEnd(t);
    hide TrimStart, TrimEnd, IsWhitespace, Blank;
    assert r != "" ==> r[0] == t[0];
  }

  lemma {:induction false} FramedEnds(s: string, t: string, r: string)
    requires |t| <= |s| && s[|s| - |t|..] == t && Blank(s[..|s| - |t|])
    requires |r| <= |t| && t[..|r|] == r && Blank(t[|r|..])
    ensures Frames(s, |s| - |t|, r, |s| - |t| + |r|)
  {
    hide Blank, Frames;
    var before, after := s[..|s| - |t|], t[|r|..];
    assert s == before + t && t == r + after;
    assert s == before + r + after;
    FramedBy(s, before, r, after);
  }

  lemma {:induction false} TrimIsFramed(s: string)
    ensures Trimmed(Trim(s))
    ensures exists i, j :: Frames(s, i, Trim(s), j)
  {
    hide Trimmed, Frames, TrimStart, TrimEnd, Blank;
    TrimIsTrimmed(s);
    FramedEnds(s, TrimStart(s), TrimEnd(TrimStart(s)));
  }

  lemma {:induction false} TrimStartBlank(before: string, s: string)
    requires Blank(before) && (s != "" ==> !IsWhitespace(s[0]))
    ensures TrimStart(before + s) == s
  {
    if before == "" {
      assert before + s == s;
    } else {
      assert (before + s)[1..] == before[1..] + s;
      TrimStartBlank(before[1..], s);
    }
  }

  lemma {:induction false} TrimEndBlank(s: string, after: string)
    requires Blank(after) && (s != "" ==> !IsWhitespace(s[|s| - 1]))
    ensures TrimEnd(s + after) == s
  {
    if after == "" {
      assert s + after == s;
    } else {
      var n := |after| - 1;
      assert (s + after)[..|s + after| - 1] == s + after[..n];
      TrimEndBlank(s, after[..n]);
    }
  }

  lemma {:induction false} TrimFramed(before: string, t: string, after: string)
    requires Blank(before) && Blank(after) && Trimmed(t)
    ensures Trim(before + t + after) == t
  {
    if t == "" {
      var all := before + t + after;
      assert Blank(all);
      TrimEmpty(all);
    } else {
      assert before + t + after == before + (t + after);
      TrimStartBlank(before, t + after);
      TrimEndBlank(t, after);
    }
  }

  function Join(words: seq<string>, sep: string): string {
    if words == [] then ""
    else if |words| == 1 then words[0]
    else words[0] + sep + Join(words[1..], sep)
  }

  /** Joining is putting the separator, once, between any two pieces next to each other. */
  lemma {:induction false} JoinPieces(a: seq<string>, b: seq<string>, sep: string)
    requires a != [] && b != []
    ensures Join(a + b, sep) == Join(a, sep) + sep + Join(b, sep)
    ensures Join([], sep) == "" && Join([a[0]], sep) == a[0]
  {
    if |a| == 1 {
      assert (a + b)[1..] == b;
    } else {
      assert (a + b)[1..] == a[1..] + b;
      JoinPieces(a[1..], b, sep);
      assert a[0] + sep + (Join(a[1..], sep) + sep + Join(b, sep)) ==
             a[0] + sep + Join(a[1..], sep) + sep + Join(b, sep);
    }
  }

  function Lower(c: char): char {
    if 'A' <= c <= 'Z' then c - 'A' + 'a' else c
  }

  /** The shortest decimal representation. */
  function Decimal(n: nat): string {
    if n < 10 then [Digit(n)] else Decimal(n / 10) + [Digit(n % 10)]
  }

  function Digit(d: nat): char
    requires d < 10
  {
    '0' + d as char
  }

  predicate IsDecimal(s: string) {
    s != "" && forall i | 0 <= i < |s| :: '0' <= s[i] <= '9'
  }

  lemma {:induction false} DecimalIsDecimal(n: nat)
    ensures IsDecimal(Decimal(n))
  {
    if n >= 10 {
      DecimalIsDecimal(n / 10);
    }
  }

  /** The number that a string of digits stands for. */
  function Number(s: string): int {
    if s == "" then 0 else 10 * Number(s[..|s| - 1]) + (s[|s| - 1] as int - '0' as int)
  }

  /** A number is printed in decimal digits that stand for it, without leading zeroes. */
  lemma {:induction false} DecimalExactly(n: nat)
    ensures IsDecimal(Decimal(n)) && Number(Decimal(n)) == n
    ensures n > 0 ==> Decimal(n)[0] != '0'
  {
    DecimalIsDecimal(n);
    var s := Decimal(n);
    if n < 10 {
      assert s[..0] == "" && Number(s) == s[0] as int - '0' as int;
    } else {
      DecimalExactly(n / 10);
      assert s[..|s| - 1] == Decimal(n / 10);
      assert s[0] == Decimal(n / 10)[0];
    }
  }

  /** Different numbers print differently. */
  lemma {:induction false} DecimalInjective(m: nat, n: nat)
    requires Decimal(m) == Decimal(n)
    ensures m == n
  {
    var s := Decimal(m);
    DecimalLength(m);
    DecimalLength(n);
    if m >= 10 && n >= 10 {
      assert s[..|s| - 1] == Decimal(m / 10) == Decimal(n / 10);
      assert s[|s| - 1] == Digit(m % 10) == Digit(n % 10);
      DecimalInjective(m / 10, n / 10);
    } else {
      assert m < 10 && n < 10;
      assert s[0] == Digit(m) == Digit(n);
    }
  }

  lemma {:induction false} DecimalLength(n: nat)
    ensures |Decimal(n)| == 1 <==> n < 10
    ensures |Decimal(n)| >= 1
  {
    if n >= 10 {
      DecimalIsDecimal(n / 10);
    }
  }

  predicate Dotless(s: string) {
    '.' !in s
  }

  /** A dot-joined string determines its halves when the left one has no dot. */
  lemma {:induction false} DotJoinInjective(a: string, b: string, c: string, d: string)
    requires Dotless(a) && Dotless(c)
    requires a + "." + b == c + "." + d
    ensures a == c && b == d
  {
    var s := a + "." + b;
    assert s[|a|] == '.' && s[|c|] == '.';
    assert forall i | 0 <= i < |a| :: s[i] == a[i] != '.';
    assert forall i | 0 <= i < |c| :: s[i] == c[i] != '.';
    assert a == s[..|a|] && c == s[..|c|];
    assert b == s[|a| + 1..] && d == s[|c| + 1..];
  }
}
