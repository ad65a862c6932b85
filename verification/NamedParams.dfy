/** internal/compiler.go, namedParamRe: finding ":name" in template text, with "::" matched first. */
module NamedParams {
  import opened Sequences
  import opened Tokenizer

  // ---- What a bound parameter is: a statement about colons, not about matching ----

  /** How many colons stand in an unbroken run just before position i. */
  function ColonsBefore(text: string, i: nat): nat
    requires i <= |text|
  {
    if i > 0 && text[i - 1] == ':' then ColonsBefore(text, i - 1) + 1 else 0
  }

  /** A colon that ends a run of odd length and is followed by the start of an identifier. */
  predicate BoundAt(text: string, i: nat) {
    && i + 1 < |text|
    && text[i] == ':'
    && (ColonsBefore(text, i) + 1) % 2 == 1
    && IsIdentStart(text[i + 1])
  }

  /** The end of the longest stretch of identifier characters from position i. */
  function IdentEnd(text: string, i: nat): (e: nat)
    requires i <= |text|
    ensures i <= e <= |text|
    ensures forall k | i <= k < e :: IsIdentPart(text[k])
    ensures e < |text| ==> !IsIdentPart(text[e])
    decreases |text| - i
  {
    if i < |text| && IsIdentPart(text[i]) then IdentEnd(text, i + 1) else i
  }

  /** Template text as the reader means it: characters, with bound parameters between them. */
  datatype Atom = Ch(c: char) | Bind(name: string)

  function Chars(s: string): (a: seq<Atom>)
    ensures |a| == |s| && forall i | 0 <= i < |s| :: a[i] == Ch(s[i])
  {
    seq(|s|, i requires 0 <= i < |s| => Ch(s[i]))
  }

  function AtomsFrom(text: string, i: nat): seq<Atom>
    requires i <= |text|
    decreases |text| - i
  {
    if i == |text| then []
    else if BoundAt(text, i) then
      [Bind(text[i + 1..IdentEnd(text, i + 1)])] + AtomsFrom(text, IdentEnd(text, i + 1))
    else [Ch(text[i])] + AtomsFrom(text, i + 1)
  }

  function Atoms(text: string): seq<Atom> {
    AtomsFrom(text, 0)
  }

  // ---- What the regular expression finds ----

  /** One submatch index list: the match is text[start..end]; its group is text[nameStart..nameEnd], or -1 for "::". */
  datatype Match = Match(start: nat, end: nat, nameStart: int, nameEnd: int) {

    /** A "::", or a colon with the longest identifier that follows it. */
    ghost predicate In(text: string, from: nat) {
      && from <= start < end <= |text|
      && text[start] == ':'
      && if nameStart < 0 then end == start + 2 && text[start + 1] == ':'
         else
           && nameStart == start + 1 < nameEnd == end == IdentEnd(text, start + 1)
           && IsIdentStart(text[start + 1])
    }

    function Atoms(text: string): seq<Atom>
      requires start <= end <= |text| && (nameStart < 0 || 0 <= nameStart <= nameEnd <= |text|)
    {
      if nameStart < 0 then Chars(text[start..end]) else [Bind(text[nameStart..nameEnd])]
    }
  }

  /** FindAllStringSubmatchIndex from position i: leftmost matches, the alternative "::" first, none overlapping. */
  function FindAll(text: string, i: nat): (ms: seq<Match>)
    requires i <= |text|
    ensures forall m | m in ms :: m.In(text, i)
    decreases |text| - i
  {
    if |text| - i < 2 then []
    else if text[i] == ':' && text[i + 1] == ':' then
      [Match(i, i + 2, -1, -1)] + FindAll(text, i + 2)
    else if text[i] == ':' && IsIdentStart(text[i + 1]) then
      var e := IdentEnd(text, i + 1);
      [Match(i, e, i + 1, e)] + FindAll(text, e)
    else FindAll(text, i + 1)
  }

  /** A position where the search may resume: no colon there is the second half of a "::". */
  ghost predicate Aligned(text: string, i: nat)
    requires i <= |text|
  {
    i < |text| && text[i] == ':' ==> ColonsBefore(text, i) % 2 == 0
  }

  /** From an aligned position the search goes on at the end of the first match, which is aligned too. */
  lemma {:induction false} FirstMatchAligned(text: string, i: nat)
    requires i <= |text| && Aligned(text, i)
    ensures var ms := FindAll(text, i);
            ms != [] ==> ms[0].In(text, i) && Aligned(text, ms[0].end) && ms[1..] == FindAll(text, ms[0].end)
    decreases |text| - i
  {
    var ms := FindAll(text, i);
    if ms != [] && ms[0].start != i {
      FirstMatchAligned(text, i + 1);
    }
  }

  /** The first match, with the text before it, is the next stretch of atoms. */
  lemma {:induction false} FirstMatchAtoms(text: string, i: nat)
    requires i <= |text| && Aligned(text, i)
    ensures var ms := FindAll(text, i);
            if ms == [] then AtomsFrom(text, i) == Chars(text[i..|text|]) + []
            else
              && ms[0].In(text, i)
              && AtomsFrom(text, i) == Chars(text[i..ms[0].start]) + (ms[0].Atoms(text) + AtomsFrom(text, ms[0].end))
    decreases |text| - i
  {
    var ms := FindAll(text, i);
    if |text| - i < 2 {
      if i < |text| {
        assert AtomsFrom(text, i + 1) == [];
      }
    } else if ms != [] && ms[0].start == i {
      MatchAtoms(text, ms[0]);
      assert Chars(text[i..i]) == [];
    } else {
      assert ms == FindAll(text, i + 1) && !BoundAt(text, i);
      FirstMatchAtoms(text, i + 1);
      if ms == [] {
        SkipAtoms(text, i, |text|, []);
      } else {
        SkipAtoms(text, i, ms[0].start, ms[0].Atoms(text) + AtomsFrom(text, ms[0].end));
      }
    }
  }

  lemma SkipAtoms(text: string, i: nat, end: nat, rest: seq<Atom>)
    requires i < end <= |text| && !BoundAt(text, i)
    requires AtomsFrom(text, i + 1) == Chars(text[i + 1..end]) + rest
    ensures AtomsFrom(text, i) == Chars(text[i..end]) + rest
  {
    CharsFirst(text, i, end);
    Assoc([Ch(text[i])], Chars(text[i + 1..end]), rest);
  }

  lemma CharsFirst(text: string, i: nat, end: nat)
    requires i < end <= |text|
    ensures Chars(text[i..end]) == [Ch(text[i])] + Chars(text[i + 1..end])
  {
  }

  lemma MatchAtoms(text: string, m: Match)
    requires m.In(text, m.start) && Aligned(text, m.start)
    ensures AtomsFrom(text, m.start) == m.Atoms(text) + AtomsFrom(text, m.end)
  {
    if m.nameStart < 0 {
      assert !BoundAt(text, m.start) && !BoundAt(text, m.start + 1);
      assert m.Atoms(text) == [Ch(text[m.start])] + [Ch(text[m.start + 1])];
      Assoc([Ch(text[m.start])], [Ch(text[m.start + 1])], AtomsFrom(text, m.end));
    }
  }

  // ---- Matches in order, disjoint, covering, and exactly the bound colons ----

  ghost predicate Ordered(text: string, ms: seq<Match>, from: nat) {
    ms != [] ==> ms[0].In(text, from) && Ordered(text, ms[1..], ms[0].end)
  }

  lemma {:induction false} FindAllOrdered(text: string, i: nat)
    requires i <= |text| && Aligned(text, i)
    ensures Ordered(text, FindAll(text, i), i)
    decreases |text| - i
  {
    FirstMatchAligned(text, i);
    if FindAll(text, i) != [] {
      FindAllOrdered(text, FindAll(text, i)[0].end);
    }
  }

  /** The gap before each match, the match, and after the last one the remaining text. */
  function Pieces(text: string, ms: seq<Match>, from: nat): string
    requires from <= |text| && Ordered(text, ms, from)
  {
    if ms == [] then text[from..]
    else text[from..ms[0].start] + text[ms[0].start..ms[0].end] + Pieces(text, ms[1..], ms[0].end)
  }

  /** Gaps and matches together are the whole text. */
  lemma {:induction false} PiecesWhole(text: string, ms: seq<Match>, from: nat)
    requires from <= |text| && Ordered(text, ms, from)
    ensures Pieces(text, ms, from) == text[from..]
    decreases ms
  {
    if ms != [] {
      PiecesWhole(text, ms[1..], ms[0].end);
      Slices(text, from, ms[0].start, ms[0].end);
    }
  }

  predicate FindsParam(ms: seq<Match>, at: nat) {
    exists m | m in ms :: m.start == at && m.nameStart >= 0
  }

  /** A named match starts at exactly the bound colons (FindAll says that its name is the longest one). */
  lemma {:induction false} ColonParity(text: string, i: nat, at: nat)
    requires i <= at < |text| && Aligned(text, i)
    ensures FindsParam(FindAll(text, i), at) <==> BoundAt(text, at)
    decreases |text| - i
  {
    var ms := FindAll(text, i);
    if |text| - i < 2 {
    } else if ms != [] && ms[0].start == i {
      FirstMatchAligned(text, i);
      var next := ms[0].end;
      assert ms == [ms[0]] + FindAll(text, next);
      if at < next {
        assert forall m | m in FindAll(text, next) :: m.start >= next;
        assert at > i + 1 ==> IsIdentPart(text[at]);
      } else {
        ColonParity(text, next, at);
      }
    } else if at > i {
      ColonParity(text, i + 1, at);
    } else {
      assert forall m | m in FindAll(text, i + 1) :: m.start > i;
    }
  }
}
