/** URL slugs of token names: their normal form, and the search for a free one. */
module Slugs {
  import opened AsciiText
  import opened Digits
  import opened Sets

  // ---------------------------------------------------------------- _slugify, for ASCII text

  /** What str.strip and the class \s take for white space. */
  predicate IsSpace(c: char) { '\t' <= c <= '\r' || '\U{1C}' <= c <= ' ' }

  predicate IsSeparator(c: char) { IsSpace(c) || c == '_' || c == '-' }

  function StripLeft(s: string): string
  {
    if s != [] && IsSpace(s[0]) then StripLeft(s[1..]) else s
  }

  function StripRight(s: string): string
  {
    if s != [] && IsSpace(s[|s| - 1]) then StripRight(s[..|s| - 1]) else s
  }

  /** Removes what is neither a word character, nor white space, nor a dash. */
  function Keep(s: string): string {
    if s == [] then []
    else
      var c := s[|s| - 1];
      Keep(s[..|s| - 1]) + if IsLowerAlnum(c) || IsUpper(c) || IsSeparator(c) then [c] else []
  }

  /** Replaces every run of separators by one dash, written where the run begins. */
  function Collapse(s: string): string {
    if s == [] then []
    else
      var front, c := s[..|s| - 1], s[|s| - 1];
      if !IsSeparator(c) then Collapse(front) + [c]
      else if front != [] && IsSeparator(front[|front| - 1]) then Collapse(front)
      else Collapse(front) + ['-']
  }

  function TrimLeft(s: string): string {
    if s != [] && s[0] == '-' then TrimLeft(s[1..]) else s
  }

  function TrimRight(s: string): string {
    if s != [] && s[|s| - 1] == '-' then TrimRight(s[..|s| - 1]) else s
  }

  function Slugify(text: string): string {
    TrimRight(TrimLeft(Collapse(Keep(StripRight(StripLeft(Lower(text)))))))
  }

  // ---------------------------------------------------------------- the same in one pass

  /** The slug so far, and whether a separator has been seen since its last character. */
  datatype Scan = Scan(out: string, pending: bool) {
    function Next(c: char): Scan {
      if IsLowerAlnum(c) then Scan(out + (if pending && out != [] then ['-'] else []) + [c], false)
      else if IsSeparator(c) then Scan(out, true)
      else this
    }
  }

  function ScanAll(s: string): Scan {
    if s == [] then Scan([], false) else ScanAll(s[..|s| - 1]).Next(s[|s| - 1])
  }

  /** Lower-case letters and digits in runs that are joined by single dashes. */
  predicate IsSlug(s: string) {
    && (forall i :: 0 <= i < |s| ==> IsLowerAlnum(s[i]) || s[i] == '-')
    && (forall i :: 0 < i < |s| ==> IsLowerAlnum(s[i - 1]) || IsLowerAlnum(s[i]))
    && (s != [] ==> IsLowerAlnum(s[0]) && IsLowerAlnum(s[|s| - 1]))
  }

  lemma {:induction false} ScanIsSlug(s: string)
    ensures IsSlug(ScanAll(s).out)
  {
    if s != [] { ScanIsSlug(s[..|s| - 1]); }
  }

  predicate SameSlug(a: Scan, b: Scan) { a.out == b.out && (a.out != [] ==> a.pending == b.pending) }

  lemma {:induction false} LeadingSpace(c: char, s: string)
    requires IsSpace(c)
    ensures SameSlug(ScanAll([c] + s), ScanAll(s))
  {
    if s == [] {
      assert ([c] + s)[..0] == [];
    } else {
      LeadingSpace(c, s[..|s| - 1]);
      assert ([c] + s)[..|s|] == [c] + s[..|s| - 1];
    }
  }

  lemma {:induction false} StripLeftKeepsScan(s: string)
    ensures ScanAll(StripLeft(s)).out == ScanAll(s).out
  {
    if s != [] && IsSpace(s[0]) {
      StripLeftKeepsScan(s[1..]);
      LeadingSpace(s[0], s[1..]);
      assert [s[0]] + s[1..] == s;
    }
  }

  lemma {:induction false} StripRightKeepsScan(s: string)
    ensures ScanAll(StripRight(s)).out == ScanAll(s).out
  {
    if s != [] && IsSpace(s[|s| - 1]) { StripRightKeepsScan(s[..|s| - 1]); }
  }

  lemma {:induction false} KeepKeepsScan(s: string)
    ensures ScanAll(Keep(s)) == ScanAll(s)
  {
    if s != [] {
      var front, c := s[..|s| - 1], s[|s| - 1];
      KeepKeepsScan(front);
      if Keep(s) != Keep(front) {
        assert Keep(s)[..|Keep(s)| - 1] == Keep(front);
      }
    }
  }

  predicate Kept(s: string) { forall i :: 0 <= i < |s| ==> IsLowerAlnum(s[i]) || IsSeparator(s[i]) }

  predicate NoUpper(s: string) { forall i :: 0 <= i < |s| ==> !IsUpper(s[i]) }

  lemma {:induction false} StripNoUpper(s: string)
    requires NoUpper(s)
    ensures NoUpper(StripLeft(s)) && NoUpper(StripRight(s))
    decreases |s|
  {
    if s != [] {
      StripNoUpper(s[1..]);
      StripNoUpper(s[..|s| - 1]);
    }
  }

  lemma {:induction false} KeepKept(s: string)
    requires NoUpper(s)
    ensures Kept(Keep(s))
  {
    if s != [] { KeepKept(s[..|s| - 1]); }
  }

  function Dash(b: bool): string { if b then ['-'] else [] }

  lemma Regroup(a: string, b: string, c: string, d: string)
    ensures a + b + c + d == a + (b + c + d) + []
    ensures a + b + c + d == a + b + (c + d)
    ensures a + b + [] == a + b
  {
  }

  /** Collapsing writes the scanned slug between the dashes of a leading and a trailing run. */
  lemma {:induction false} CollapseIsScan(s: string)
    requires Kept(s)
    ensures ScanAll(s).pending == (s != [] && IsSeparator(s[|s| - 1]))
    ensures Collapse(s) == Dash(s != [] && IsSeparator(s[0])) + ScanAll(s).out
                         + Dash(ScanAll(s).pending && ScanAll(s).out != [])
  {
    if s != [] {
      var front := s[..|s| - 1];
      CollapseIsScan(front);
      if front != [] {
        var lead, last := Dash(IsSeparator(s[0])), Dash(ScanAll(front).pending && ScanAll(front).out != []);
        Regroup(lead, ScanAll(front).out, last, [s[|s| - 1]]);
        Regroup(lead, ScanAll(front).out, [], ['-']);
      }
    }
  }

  lemma TrimRemovesDashes(left: bool, s: string, right: bool)
    requires IsSlug(s) && (s == [] ==> !right)
    ensures TrimRight(TrimLeft(Dash(left) + s + Dash(right))) == s
  {
    var padded := s + Dash(right);
    assert Dash(left) + s + Dash(right) == Dash(left) + padded;
    assert TrimLeft(padded) == padded;
    assert (['-'] + padded)[1..] == padded;
    assert TrimLeft(Dash(left) + padded) == padded;
    assert TrimRight(s) == s;
    assert (s + ['-'])[..|s|] == s;
  }

  /** The chain of substitutions computes what one pass over the lower-cased text does: it
      keeps the letters and digits in order, with a dash between two of them exactly when a
      separator stood between them. */
  lemma SlugifyIsOnePass(text: string)
    ensures Slugify(text) == ScanAll(Lower(text)).out
  {
    var low := Lower(text);
    var bare := StripRight(StripLeft(low));
    StripLeftKeepsScan(low);
    StripRightKeepsScan(StripLeft(low));
    StripNoUpper(low);
    StripNoUpper(StripLeft(low));
    var kept := Keep(bare);
    KeepKeepsScan(bare);
    KeepKept(bare);
    CollapseIsScan(kept);
    ScanIsSlug(kept);
    TrimRemovesDashes(kept != [] && IsSeparator(kept[0]), ScanAll(kept).out, ScanAll(kept).pending && ScanAll(kept).out != []);
  }

  /** The slug read so far is the text itself, but for a dash at its end. */
  lemma {:induction false} ScanOfSlug(s: string, n: nat)
    requires IsSlug(s) && n <= |s|
    ensures ScanAll(s[..n]).out == if n > 0 && s[n - 1] == '-' then s[..n - 1] else s[..n]
    ensures ScanAll(s[..n]).pending == (n > 0 && s[n - 1] == '-')
  {
    if n > 0 {
      ScanOfSlug(s, n - 1);
      assert s[..n][..n - 1] == s[..n - 1] && s[..n] == s[..n - 1] + [s[n - 1]];
      if n > 1 { assert s[..n - 1] == s[..n - 2] + [s[n - 2]]; }
    }
  }

  /** A slug is in normal form; slugs are exactly the texts _slugify leaves alone, so that it
      is idempotent. */
  lemma SlugsAreFixpoints(text: string)
    ensures IsSlug(Slugify(text))
    ensures IsSlug(text) <==> Slugify(text) == text
    ensures Slugify(Slugify(text)) == Slugify(text)
  {
    SlugifyIsOnePass(text);
    ScanIsSlug(Lower(text));
    if IsSlug(text) { NormalIsFixed(text); }
    NormalIsFixed(Slugify(text));
  }

  lemma NormalIsFixed(s: string)
    requires IsSlug(s)
    ensures Slugify(s) == s
  {
    assert Lower(s) == s;
    SlugifyIsOnePass(s);
    ScanOfSlug(s, |s|);
    assert s[..|s|] == s;
  }

  predicate IsWord(s: string) { s != [] && forall i :: 0 <= i < |s| ==> 'a' <= s[i] <= 'z' || '0' <= s[i] <= '9' }

  const SEPARATORS: set<char> := {' ', '\t', '\n', '\U{B}', '\U{C}', '\r', '\U{1C}', '\U{1D}', '\U{1E}', '\U{1F}', '_', '-'}

  /** Separators only, or characters that are neither separators nor letters nor digits. */
  predicate Between(gap: string, separates: bool) {
    forall i :: 0 <= i < |gap| ==>
      if separates then gap[i] in SEPARATORS
      else gap[i] !in SEPARATORS && !('a' <= gap[i] <= 'z' || 'A' <= gap[i] <= 'Z' || '0' <= gap[i] <= '9')
  }

  lemma LastOfConcat(s: string, t: string, all: string)
    requires t != [] && all == s + t
    ensures all != [] && all[..|all| - 1] == s + t[..|t| - 1] && all[|all| - 1] == t[|t| - 1]
    ensures all == s + t[..|t| - 1] + [t[|t| - 1]]
  {
  }

  /** The slug with what a letter or digit would be appended to. */
  function Lead(scan: Scan): string { scan.out + Dash(scan.pending && scan.out != []) }

  lemma OneMore(before: string, c: char, text: string)
    requires text != [] && text[..|text| - 1] == before && text[|text| - 1] == c && IsLowerAlnum(c)
    ensures ScanAll(text) == Scan(Lead(ScanAll(before)) + [c], false)
    ensures Lead(ScanAll(text)) == ScanAll(text).out
  {
  }

  /** A word is appended as it stands, after a dash when a separator has been seen. */
  lemma {:induction false} ScanOfWord(s: string, word: string, text: string, out: string)
    requires IsWord(word) && text == s + word && out == Lead(ScanAll(s)) + word
    ensures ScanAll(text) == Scan(out, false) && Lead(ScanAll(text)) == out
  {
    var front, c, lead := word[..|word| - 1], word[|word| - 1], Lead(ScanAll(s));
    var before, shorter := s + front, lead + front;
    LastOfConcat(s, word, text);
    LastOfConcat(lead, word, out);
    OneMore(before, c, text);
    if front == [] {
      assert before == s && shorter == lead;
    } else {
      ScanOfWord(s, front, before, shorter);
    }
  }

  predicate IsGap(s: string, separates: bool) {
    forall i :: 0 <= i < |s| ==> !IsLowerAlnum(s[i]) && IsSeparator(s[i]) == separates
  }

  lemma {:induction false} ScanOfGap(s: string, gap: string, separates: bool, text: string)
    requires text == s + gap && IsGap(gap, separates)
    ensures ScanAll(text) == Scan(ScanAll(s).out, ScanAll(s).pending || (separates && gap != []))
  {
    if gap == [] {
      assert text == s;
    } else {
      LastOfConcat(s, gap, text);
      ScanOfGap(s, gap[..|gap| - 1], separates, s + gap[..|gap| - 1]);
    }
  }

  /** What becomes of two words: white space, underscores and dashes between them, in any number
      and mixture, become one dash, and any other punctuation disappears. */
  lemma WordsAreJoined(x: string, gap: string, y: string, separates: bool)
    requires IsWord(x) && IsWord(y) && gap != [] && Between(gap, separates)
    ensures Slugify(x + gap + y) == if separates then x + ['-'] + y else x + y
  {
    SlugifyIsOnePass(x + gap + y);
    BetweenIsGap(gap, separates);
    NothingToLower(x, gap, y);
    WordsScan(x, gap, y, separates, x + gap, x + gap + y);
    assert x + Dash(false) == x;
  }

  lemma BetweenIsGap(gap: string, separates: bool)
    requires Between(gap, separates)
    ensures IsGap(gap, separates) && NoUpper(gap)
  {
  }

  lemma NothingToLower(x: string, gap: string, y: string)
    requires IsWord(x) && NoUpper(gap) && IsWord(y)
    ensures Lower(x + gap + y) == x + gap + y
  {
    var text := x + gap + y;
    forall i | 0 <= i < |text|
      ensures Lower(text)[i] == text[i]
    {
      assert !IsUpper(text[i]);
    }
  }

  lemma WordsScan(x: string, gap: string, y: string, separates: bool, spaced: string, text: string)
    requires IsWord(x) && IsWord(y) && gap != [] && IsGap(gap, separates)
    requires spaced == x + gap && text == spaced + y
    ensures ScanAll(text) == Scan(x + Dash(separates) + y, false)
  {
    ScanOfWord([], x, x, x);
    ScanOfGap(x, gap, separates, spaced);
    ScanOfWord(spaced, y, text, x + Dash(separates) + y);
  }

  /** Case does not matter. */
  lemma CaseIsFolded(text: string)
    ensures Slugify(text) == Slugify(Lower(text))
  {
    assert Lower(Lower(text)) == Lower(text);
  }

  // ---------------------------------------------------------------- _generate_unique_slug

  /** The k-th slug that is tried. */
  function Candidate(base: string, k: nat): string {
    if k == 0 then base else base + ['-'] + Numeral(k)
  }

  lemma CandidatesDiffer(base: string, j: nat, k: nat)
    requires j < k
    ensures Candidate(base, j) != Candidate(base, k)
  {
    if j > 0 && Candidate(base, j) == Candidate(base, k) {
      var at := |base| + 1;
      assert Candidate(base, j)[at..] == Numeral(j) && Candidate(base, k)[at..] == Numeral(k);
      NumeralReadsBack(j);
      NumeralReadsBack(k);
    }
  }

  ghost predicate FirstTaken(base: string, taken: set<string>, n: nat) {
    forall j: nat :: j < n ==> Candidate(base, j) in taken
  }

  function Candidates(base: string, n: nat): (r: set<string>) {
    if n == 0 then {} else Candidates(base, n - 1) + {Candidate(base, n - 1)}
  }

  lemma {:induction false} CandidatesAre(base: string, n: nat)
    ensures |Candidates(base, n)| == n
    ensures forall s :: s in Candidates(base, n) ==> exists j: nat :: j < n && s == Candidate(base, j)
  {
    if n > 0 {
      CandidatesAre(base, n - 1);
      var last := Candidate(base, n - 1);
      if last in Candidates(base, n - 1) {
        var j: nat :| j < n - 1 && last == Candidate(base, j);
        CandidatesDiffer(base, j, n - 1);
      }
    }
  }

  /** Pigeonhole: no more candidates are taken in a row than there are taken slugs. */
  lemma FewTaken(base: string, taken: set<string>, n: nat)
    requires FirstTaken(base, taken, n)
    ensures n <= |taken|
  {
    CandidatesAre(base, n);
    SubsetSize(Candidates(base, n), taken);
  }

  /** The name's slug and its lower numbers are all in use. */
  ghost predicate TakesNumber(slug: string, base: string, k: nat, taken: set<string>) {
    && slug == base + ['-'] + Numeral(k)
    && base in taken
    && forall j :: 1 <= j < k ==> base + ['-'] + Numeral(j) in taken
  }

  class TokenService {
    /** The slugs in the tokens table. */
    var slugs: set<string>

    constructor ()
      ensures slugs == {}
    {
      slugs := {};
    }

    /** Finds the first candidate that no token has, after at most |slugs| + 1 probes. */
    method GenerateUniqueSlug(name: string) returns (slug: string)
      ensures slug !in slugs
      ensures slug == Slugify(name) || exists k :: 1 <= k <= |slugs| && TakesNumber(slug, Slugify(name), k, slugs)
      ensures exists k: nat :: k <= |slugs| && slug == Candidate(Slugify(name), k) && FirstTaken(Slugify(name), slugs, k)
    {
      var base := Slugify(name);
      slug := base;
      var counter := 1;
      while slug in slugs
        invariant counter >= 1 && slug == Candidate(base, counter - 1)
        invariant FirstTaken(base, slugs, counter - 1)
        decreases |slugs| + 1 - counter
      {
        FewTaken(base, slugs, counter);
        slug := base + ['-'] + Numeral(counter);
        counter := counter + 1;
      }
      FewTaken(base, slugs, counter - 1);
      if counter > 1 {
        assert Candidate(base, 0) in slugs;
        forall j | 1 <= j < counter - 1
          ensures base + ['-'] + Numeral(j) in slugs
        {
          assert Candidate(base, j) in slugs;
        }
        assert TakesNumber(slug, base, counter - 1, slugs);
      }
    }
  }

  /** A numbered candidate is itself in normal form unless the name has no letter or digit:
      the second token with such a name gets "-1". */
  lemma NumberedSlugs(name: string, k: nat)
    ensures IsSlug(Candidate(Slugify(name), k)) <==> k == 0 || Slugify(name) != []
  {
    SlugsAreFixpoints(name);
    var base, slug := Slugify(name), Candidate(Slugify(name), k);
    if k > 0 && base != [] {
      var n := |base|;
      forall i | 0 <= i < |slug| ensures IsLowerAlnum(slug[i]) || slug[i] == '-' {
        if i > n { assert slug[i] == Numeral(k)[i - n - 1]; }
      }
      forall i | 0 < i < |slug| ensures IsLowerAlnum(slug[i - 1]) || IsLowerAlnum(slug[i]) {
        if i > n { assert slug[i] == Numeral(k)[i - n - 1]; }
      }
      assert slug[|slug| - 1] == Numeral(k)[|Numeral(k)| - 1];
    } else if k > 0 {
      assert slug[0] == '-';
    }
  }
}
