/** The parts of Go's strings, unicode and strconv packages that simplesql calls. */
module Strings {

  predicate PairAt(s: string, c: char, i: int) {
    0 <= i && i + 1 < |s| && s[i] == c && s[i + 1] == c
  }

  ghost predicate NoPair(s: string, c: char) {
    forall k :: !PairAt(s, c, k)
  }

  /** Text that, put before a pair of c's, leaves that pair the leftmost one. */
  ghost predicate Clear(s: string, c: char) {
    NoPair(s, c) && (s != "" ==> s[|s| - 1] != c)
  }

  /** strings.Index(s, "cc"): the leftmost position of two adjacent c's, or -1. */
  function IndexPair(s: string, c: char): (r: int)
    ensures -1 <= r < |s| - 1 || r == -1
  {
    if |s| < 2 then -1
    else if s[0] == c && s[1] == c then 0
    else
      var r := IndexPair(s[1..], c);
      if r < 0 then -1 else r + 1
  }

  lemma {:induction false} IndexPairAbsent(s: string, c: char)
    ensures IndexPair(s, c) == -1 <==> NoPair(s, c)
  {
    if |s| >= 2 {
      IndexPairAbsent(s[1..], c);
      assert forall k :: PairAt(s[1..], c, k) ==> PairAt(s, c, k + 1);
      assert forall k :: PairAt(s, c, k) ==> k == 0 || PairAt(s[1..], c, k - 1);
      assert PairAt(s, c, 0) <==> s[0] == c && s[1] == c;
    }
  }

  /** A leftmost pair splits the text into a clear part, the pair and the remainder. */
  lemma {:induction false} IndexPairSplits(s: string, c: char) returns (before: string, after: string)
    requires IndexPair(s, c) >= 0
    ensures |before| == IndexPair(s, c) && Clear(before, c)
    ensures after == s[|before| + 2..]
    ensures s == before + ([c, c] + after)
  {
    if s[0] == c && s[1] == c {
      before, after := "", s[2..];
    } else {
      var before', after' := IndexPairSplits(s[1..], c);
      assert s[1..][|before'|] == c;
      ClearExtend(s[0], before', c);
      before, after := [s[0]] + before', after';
    }
  }

  lemma ClearExtend(x: char, s: string, c: char)
    requires Clear(s, c)
    requires x == c ==> s != "" && s[0] != c
    ensures Clear([x] + s, c)
  {
    assert forall k :: PairAt([x] + s, c, k) ==> k == 0 || PairAt(s, c, k - 1);
  }

  /** Conversely a clear part before a pair is what IndexPair finds. */
  lemma {:induction false} IndexPairFinds(s: string, c: char, rest: string)
    requires Clear(s, c)
    ensures IndexPair(s + ([c, c] + rest), c) == |s|
    ensures (s + ([c, c] + rest))[..|s|] == s && (s + ([c, c] + rest))[|s| + 2..] == rest
  {
    if s != "" {
      assert (s + ([c, c] + rest))[1..] == s[1..] + ([c, c] + rest);
      assert forall k :: PairAt(s[1..], c, k) ==> PairAt(s, c, k + 1);
      assert !PairAt(s, c, 0);
      IndexPairFinds(s[1..], c, rest);
    }
  }

  /** unicode.IsSpace. */
  predicate IsSpace(c: char) {
    || '\t' <= c <= '\r'
    || c == ' '
    || c in {'\U{85}', '\U{A0}', '\U{1680}', '\U{2028}', '\U{2029}', '\U{202F}', '\U{205F}', '\U{3000}'}
    || '\U{2000}' <= c <= '\U{200A}'
  }

  const WHITE_SPACE := "\t\n\U{b}\U{c}\r \U{85}\U{a0}\U{1680}"
                       + "\U{2000}\U{2001}\U{2002}\U{2003}\U{2004}\U{2005}\U{2006}\U{2007}\U{2008}\U{2009}\U{200a}"
                       + "\U{2028}\U{2029}\U{202f}\U{205f}\U{3000}"

  /** The characters with Unicode's property White_Space. */
  lemma IsSpaceExact(c: char)
    ensures IsSpace(c) <==> c in WHITE_SPACE
  {
  }

  function TrimLeft(s: string): string {
    if s != "" && IsSpace(s[0]) then TrimLeft(s[1..]) else s
  }

  function TrimRight(s: string): string {
    if s != "" && IsSpace(s[|s| - 1]) then TrimRight(s[..|s| - 1]) else s
  }

  /** strings.TrimSpace. */
  function TrimSpace(s: string): string {
    TrimRight(TrimLeft(s))
  }

  ghost predicate Blank(s: string) {
    forall i | 0 <= i < |s| :: IsSpace(s[i])
  }

  /** Text that TrimSpace leaves alone. */
  predicate Trimmed(s: string) {
    s == "" || (!IsSpace(s[0]) && !IsSpace(s[|s| - 1]))
  }

  lemma {:induction false} TrimLeftSuffix(s: string) returns (n: nat)
    ensures n <= |s| && TrimLeft(s) == s[n..] && Blank(s[..n])
    ensures TrimLeft(s) == "" || !IsSpace(TrimLeft(s)[0])
  {
    if s != "" && IsSpace(s[0]) {
      var k := TrimLeftSuffix(s[1..]);
      n := k + 1;
      assert s[..n] == [s[0]] + s[1..][..k];
    } else {
      n := 0;
    }
  }

  lemma {:induction false} TrimRightPrefix(s: string) returns (n: nat)
    ensures n <= |s| && TrimRight(s) == s[..n] && Blank(s[n..])
    ensures TrimRight(s) == "" || !IsSpace(TrimRight(s)[|TrimRight(s)| - 1])
  {
    if s != "" && IsSpace(s[|s| - 1]) {
      n := TrimRightPrefix(s[..|s| - 1]);
      assert s[n..] == s[..|s| - 1][n..] + [s[|s| - 1]];
    } else {
      n := |s|;
    }
  }

  /** TrimSpace returns a contiguous part of its argument, trimmed, with white space around it. */
  lemma TrimSpacePart(s: string) returns (lo: nat, hi: nat)
    ensures lo <= hi <= |s| && TrimSpace(s) == s[lo..hi]
    ensures Trimmed(TrimSpace(s)) && Blank(s[..lo]) && Blank(s[hi..])
  {
    lo := TrimLeftSuffix(s);
    var n := TrimRightPrefix(TrimLeft(s));
    hi := lo + n;
    assert TrimLeft(s)[n..] == s[hi..];
  }

  lemma {:induction false} TrimRightPad(s: string)
    requires Trimmed(s)
    ensures TrimRight(s) == s && TrimRight(s + " ") == s
  {
    assert (s + " ")[..|s|] == s;
  }

  /** Padding trimmed text with one space on either side is undone by TrimSpace. */
  lemma TrimSpacePad(s: string)
    requires Trimmed(s)
    ensures TrimSpace(s) == s
    ensures TrimSpace(" " + s) == s
    ensures TrimSpace(" " + s + " ") == s
  {
    TrimRightPad(s);
    assert (" " + s)[1..] == s;
    assert (" " + s + " ")[1..] == s + " ";
    if s == "" {
      assert TrimLeft(" " + s + " ") == TrimLeft(" ");
      assert TrimLeft(" ") == "" by { assert " "[1..] == ""; }
    }
  }

  lemma {:induction false} TrimLeftBlank(pad: string, s: string)
    requires Blank(pad) && s != "" && !IsSpace(s[0])
    ensures TrimLeft(pad + s) == s
    decreases pad
  {
    if pad == "" {
      assert pad + s == s;
    } else {
      assert (pad + s)[1..] == pad[1..] + s;
      TrimLeftBlank(pad[1..], s);
    }
  }

  lemma {:induction false} TrimRightBlank(s: string, pad: string)
    requires Blank(pad) && Trimmed(s)
    ensures TrimRight(s + pad) == s
    decreases pad
  {
    if pad == "" {
      assert s + pad == s;
    } else {
      assert (s + pad)[..|s + pad| - 1] == s + pad[..|pad| - 1];
      TrimRightBlank(s, pad[..|pad| - 1]);
    }
  }

  lemma {:induction false} TrimLeftAllBlank(s: string)
    requires Blank(s)
    ensures TrimLeft(s) == ""
  {
    if s != "" {
      TrimLeftAllBlank(s[1..]);
    }
  }

  /** TrimSpace takes away exactly the white space on either side. */
  lemma TrimSpaceExact(s: string, x: string)
    ensures TrimSpace(s) == x <==>
            Trimmed(x) && exists before, behind :: Blank(before) && Blank(behind) && s == before + (x + behind)
  {
    var lo, hi := TrimSpacePart(s);
    assert s == s[..lo] + (TrimSpace(s) + s[hi..]);
    forall before, behind | Trimmed(x) && Blank(before) && Blank(behind) && s == before + (x + behind)
      ensures TrimSpace(s) == x
    {
      if x == "" {
        TrimLeftAllBlank(s);
      } else {
        TrimLeftBlank(before, x + behind);
        TrimRightBlank(x, behind);
      }
    }
  }

  /** On text that does not end in white space, only what is before it is taken away. */
  lemma TrimSpaceLeading(s: string, x: string)
    requires s != "" && !IsSpace(s[|s| - 1])
    ensures TrimSpace(s) == x <==> x != "" && Trimmed(x) && exists pad :: Blank(pad) && s == pad + x
  {
    TrimSpaceExact(s, x);
    forall before, behind | Blank(before) && Blank(behind) && s == before + (x + behind)
      ensures behind == "" && x != "" && s == before + x
    {
      assert behind == "" ==> x + behind == x;
    }
    forall pad | Blank(pad) && s == pad + x
      ensures s == pad + (x + "") && Blank("")
    {
      assert x + "" == x;
    }
  }

  /** strings.Contains. */
  predicate Contains(s: string, sub: string) {
    sub <= s || (s != "" && Contains(s[1..], sub))
  }

  predicate StandsAt(s: string, sub: string, i: int) {
    0 <= i <= |s| - |sub| && forall j | 0 <= j < |sub| :: s[i + j] == sub[j]
  }

  /** Contained means: somewhere the characters stand one after the other. */
  lemma {:induction false} ContainsExact(s: string, sub: string)
    ensures Contains(s, sub) <==> exists i :: StandsAt(s, sub, i)
    decreases s
  {
    if sub <= s {
      assert StandsAt(s, sub, 0);
    } else {
      assert !StandsAt(s, sub, 0);
      if s != "" {
        ContainsExact(s[1..], sub);
        if i :| StandsAt(s, sub, i) {
          assert StandsAt(s[1..], sub, i - 1);
        }
        if i :| StandsAt(s[1..], sub, i) {
          assert StandsAt(s, sub, i + 1);
        }
      }
    }
  }

  /** unicode.ToUpper, on the characters whose upper case is an ASCII letter; others never meet an ASCII search word. */
  function ToUpperChar(c: char): char {
    if 'a' <= c <= 'z' then c - 'a' + 'A'
    else if c == '\U{131}' then 'I'
    else if c == '\U{17F}' then 'S'
    else c
  }

  function ToUpper(s: string): (u: string) {
    seq(|s|, i requires 0 <= i < |s| => ToUpperChar(s[i]))
  }

  function Digit(n: nat): char
    requires n < 10
  {
    '0' + n as char
  }

  /** strconv.Itoa on the non-negative numbers it is given. */
  function Itoa(n: nat): (s: string) {
    if n < 10 then [Digit(n)] else Itoa(n / 10) + [Digit(n % 10)]
  }

  /** The number a string of digits stands for. */
  function Decimal(s: string): int {
    if s == "" then 0 else Decimal(s[..|s| - 1]) * 10 + (s[|s| - 1] as int - '0' as int)
  }

  /** Digits, without a zero in front unless that is all. */
  predicate Numeral(s: string) {
    s != "" && (forall i | 0 <= i < |s| :: '0' <= s[i] <= '9') && (s[0] == '0' ==> |s| == 1)
  }

  /** A number's text is its decimal numeral, and no other text is. */
  lemma ItoaExact(n: nat, s: string)
    ensures Itoa(n) == s <==> Numeral(s) && Decimal(s) == n
  {
    ItoaNumeral(n);
    if Numeral(s) && Decimal(s) == n {
      NumeralItoa(s);
    }
  }

  lemma {:induction false} ItoaNumeral(n: nat)
    ensures Numeral(Itoa(n)) && Decimal(Itoa(n)) == n && (n > 0 ==> Itoa(n)[0] != '0')
  {
    if n >= 10 {
      ItoaNumeral(n / 10);
      assert Itoa(n)[..|Itoa(n)| - 1] == Itoa(n / 10);
    } else {
      assert Itoa(n)[..0] == "";
    }
  }

  lemma {:induction false} NumeralItoa(s: string)
    requires Numeral(s)
    ensures Decimal(s) >= 0 && Itoa(Decimal(s)) == s && (s[0] != '0' ==> Decimal(s) > 0)
    decreases s
  {
    var init, last := s[..|s| - 1], s[|s| - 1];
    assert s == init + [last];
    if init == "" {
      assert Decimal(s) == last as int - '0' as int;
    } else {
      NumeralItoa(init);
    }
  }

  /** Distinct numbers are written differently. */
  lemma ItoaInjective(m: nat, n: nat)
    requires Itoa(m) == Itoa(n)
    ensures m == n
  {
    ItoaExact(m, Itoa(m));
    ItoaExact(n, Itoa(n));
  }
}
