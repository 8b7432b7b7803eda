/** The content-validation engine of src/lib/profanity-filter.ts: the `ProfanityFilter`
    class with its word set and derived patterns, the profanity check and redaction, the
    length and spam checks, and `validate`, which runs them in a fixed order. */
module Profanity {
  import opened JsText
  import opened Regex
  import opened ProfanityPatterns

  // ---------------------------------------------------------------------------------
  // Severity

  /** `'none' | 'mild' | 'moderate' | 'severe'`; `Clean` stands for `'none'`. */
  datatype Severity = Clean | Mild | Moderate | Severe

  function Rank(s: Severity): nat {
    match s
    case Clean => 0
    case Mild => 1
    case Moderate => 2
    case Severe => 3
  }

  /** The severity tier of a number of distinct found words. */
  function SeverityOf(n: nat): (s: Severity)
    ensures s == Clean <==> n == 0
    ensures s == Mild <==> 1 <= n <= 2
    ensures s == Moderate <==> 3 <= n <= 4
    ensures s == Severe <==> n >= 5
  {
    if n > 0 then (if n >= 5 then Severe else if n >= 3 then Moderate else Mild) else Clean
  }

  /** More distinct words never give a lower tier. */
  lemma SeverityMonotone(n: nat, m: nat)
    requires n <= m
    ensures Rank(SeverityOf(n)) <= Rank(SeverityOf(m))
  {
  }

  // ---------------------------------------------------------------------------------
  // The profanity check, as specification functions

  datatype CheckResult = CheckResult(
    isClean: bool, foundWords: seq<string>, filteredText: string, severity: Severity)

  /** Characters kept by the token clean-up: `\w` and the Thai block. */
  predicate Kept(c: char) { IsWordChar(c) || IsThai(c) }

  /** `token.replace(/[^\w฀-๿]/g, '')`. */
  function StripToken(s: string): (r: string)
    ensures |r| <= |s|
    ensures forall k :: 0 <= k < |r| ==> Kept(r[k])
    ensures (forall k :: 0 <= k < |s| ==> Kept(s[k])) ==> r == s
    ensures (forall k :: 0 <= k < |s| ==> !Kept(s[k])) ==> r == []
  {
    if s == [] then []
    else (if Kept(s[0]) then [s[0]] else []) + StripToken(s[1..])
  }

  /** Stripping a token keeps exactly the characters that are kept, in order. */
  lemma {:induction false} StripTokenAppend(a: string, b: string)
    ensures StripToken(a + b) == StripToken(a) + StripToken(b)
  {
    if a != [] {
      assert (a + b)[1..] == a[1..] + b;
      StripTokenAppend(a[1..], b);
    } else {
      assert a + b == b;
    }
  }

  /** The cleaned tokens that are dictionary words, in token order. */
  function LiteralHits(words: seq<string>, tokens: seq<string>): seq<string>
  {
    if tokens == [] then []
    else
      var clean := StripToken(tokens[|tokens| - 1]);
      LiteralHits(words, tokens[..|tokens| - 1]) + (if clean in words then [clean] else [])
  }

  function LowerAll(ms: seq<string>): (r: seq<string>)
    ensures |r| == |ms| && forall k :: 0 <= k < |ms| ==> r[k] == Lower(ms[k])
  {
    if ms == [] then [] else [Lower(ms[0])] + LowerAll(ms[1..])
  }

  /** The lowercased matches of every pattern on the original text, pattern by pattern. */
  function PatternHits(ps: seq<Pattern>, text: string): seq<string>
  {
    if ps == [] then []
    else PatternHits(ps[..|ps| - 1], text) + LowerAll(MatchAll(ps[|ps| - 1], text))
  }

  /** The distinct found words of `check`: literal hits first, then pattern hits. */
  function FoundWords(words: seq<string>, ps: seq<Pattern>, text: string): seq<string>
  {
    Dedup(LiteralHits(words, SplitSpaces(Lower(text))) + PatternHits(ps, text))
  }

  /** Global replacement with every pattern of `ps`, in order. */
  function Redact(text: string, ps: seq<Pattern>, r: string): string
  {
    if ps == [] then text else ReplaceAll(ps[|ps| - 1], Redact(text, ps[..|ps| - 1], r), r)
  }

  /** `filter`: every dictionary word first, then every pattern. */
  function FilterOf(words: seq<string>, ps: seq<Pattern>, text: string, r: string): string
  {
    Redact(Redact(text, ExactPatterns(words), r), ps, r)
  }

  const DefaultReplacement: string := "***"

  function CheckOf(words: seq<string>, ps: seq<Pattern>, text: string): CheckResult
  {
    var found := FoundWords(words, ps, text);
    CheckResult(|found| == 0, found, FilterOf(words, ps, text, DefaultReplacement),
                SeverityOf(|found|))
  }

  /** The result of `check` is consistent: it is clean exactly when nothing was found,
      no word is reported twice, and the tier is that of the number of found words. */
  lemma CheckConsistent(words: seq<string>, ps: seq<Pattern>, text: string)
    ensures var r := CheckOf(words, ps, text);
            (r.isClean <==> r.foundWords == [])
            && (r.isClean <==> r.severity == Clean)
            && NoDup(r.foundWords)
            && r.severity == SeverityOf(|r.foundWords|)
  {
  }

  lemma LiteralHitsSnoc(words: seq<string>, tokens: seq<string>, k: nat)
    requires k < |tokens|
    ensures LiteralHits(words, tokens[..k + 1]) == LiteralHits(words, tokens[..k])
              + (if StripToken(tokens[k]) in words then [StripToken(tokens[k])] else [])
  {
    assert tokens[..k + 1][..k] == tokens[..k];
  }

  lemma PatternHitsSnoc(ps: seq<Pattern>, text: string, n: nat)
    requires n < |ps|
    ensures PatternHits(ps[..n + 1], text) == PatternHits(ps[..n], text)
              + LowerAll(MatchAll(ps[n], text))
  {
    assert ps[..n + 1][..n] == ps[..n];
  }

  /** A cleaned token is reported exactly when it is a dictionary word. */
  lemma {:induction false} LiteralHitsMembers(words: seq<string>, tokens: seq<string>, x: string)
    ensures x in LiteralHits(words, tokens) <==>
              x in words && exists k :: 0 <= k < |tokens| && StripToken(tokens[k]) == x
  {
    if tokens != [] {
      var n := |tokens| - 1;
      LiteralHitsMembers(words, tokens[..n], x);
      CleanedSnoc(tokens, x);
    }
  }

  /** Some token of `tokens` cleans to `x` exactly when one before the last does, or the
      last one does. */
  lemma CleanedSnoc(tokens: seq<string>, x: string)
    requires tokens != []
    ensures var n := |tokens| - 1;
      (exists k :: 0 <= k < |tokens| && StripToken(tokens[k]) == x) <==>
      (exists k :: 0 <= k < n && StripToken(tokens[..n][k]) == x) || StripToken(tokens[n]) == x
  {
    var n := |tokens| - 1;
    var init := tokens[..n];
    if exists k :: 0 <= k < |tokens| && StripToken(tokens[k]) == x {
      var k :| 0 <= k < |tokens| && StripToken(tokens[k]) == x;
      if k < n { assert init[k] == tokens[k]; }
    }
    if exists k :: 0 <= k < n && StripToken(init[k]) == x {
      var k :| 0 <= k < n && StripToken(init[k]) == x;
      assert tokens[k] == init[k];
    }
  }

  /** `x` is the lowercased text of a word-bounded occurrence of one of the patterns. */
  ghost predicate OccurrenceText(ps: seq<Pattern>, text: string, x: string) {
    exists n: nat, i: nat, j: nat :: n < |ps| && i <= j <= |text|
      && MatchesAt(ps[n], text, i, j) && x == Lower(text[i..j])
  }

  /** `x` is a dictionary word met as a cleaned token of the lowercased text. */
  ghost predicate TokenWord(words: seq<string>, text: string, x: string) {
    var tokens := SplitSpaces(Lower(text));
    x in words && exists k :: 0 <= k < |tokens| && StripToken(tokens[k]) == x
  }

  /** Every pattern hit is the lowercased text of a word-bounded occurrence of one of the
      patterns. */
  lemma {:induction false} PatternHitsSound(ps: seq<Pattern>, text: string, x: string)
    requires x in PatternHits(ps, text)
    ensures OccurrenceText(ps, text, x)
  {
    var last := |ps| - 1;
    if x in PatternHits(ps[..last], text) {
      PatternHitsSound(ps[..last], text, x);
      var n: nat, i: nat, j: nat :| n < last && i <= j <= |text|
                     && MatchesAt(ps[..last][n], text, i, j) && x == Lower(text[i..j]);
      assert ps[n] == ps[..last][n];
    } else {
      var hs := HitsFrom(ps[last], text, 0);
      var ms := Substrings(text, hs);
      var k :| 0 <= k < |ms| && x == LowerAll(ms)[k];
      HitsSound(ps[last], text, 0);
      assert hs[k] in hs;
      assert MatchesAt(ps[last], text, hs[k].start, hs[k].end);
    }
  }

  /** Every match of a pattern of `ps`, lowercased, is among the pattern hits; so a pattern
      with a hit on the text contributes at least one. */
  lemma {:induction false} PatternHitsComplete(ps: seq<Pattern>, text: string, p: Pattern)
    requires p in ps
    ensures forall m :: m in MatchAll(p, text) ==> Lower(m) in PatternHits(ps, text)
    ensures HitsFrom(p, text, 0) != [] ==> PatternHits(ps, text) != []
  {
    var last := |ps| - 1;
    var own := LowerAll(MatchAll(ps[last], text));
    assert PatternHits(ps, text) == PatternHits(ps[..last], text) + own;
    if ps[last] != p {
      var n :| 0 <= n < |ps| && ps[n] == p;
      assert ps[..last][n] == p;
      PatternHitsComplete(ps[..last], text, p);
    } else {
      forall m | m in MatchAll(p, text)
        ensures Lower(m) in PatternHits(ps, text)
      {
        var k :| 0 <= k < |MatchAll(p, text)| && MatchAll(p, text)[k] == m;
        assert own[k] == Lower(m);
      }
    }
    if HitsFrom(p, text, 0) != [] {
      assert |MatchAll(p, text)| > 0;
      assert MatchAll(p, text)[0] in MatchAll(p, text);
    }
  }

  /** The found words are the literal hits and the pattern hits, each once. */
  lemma FoundWordsMembers(words: seq<string>, ps: seq<Pattern>, text: string, x: string)
    ensures x in FoundWords(words, ps, text) <==>
              x in LiteralHits(words, SplitSpaces(Lower(text))) || x in PatternHits(ps, text)
  {
    var all := LiteralHits(words, SplitSpaces(Lower(text))) + PatternHits(ps, text);
    assert x in all <==> x in LiteralHits(words, SplitSpaces(Lower(text))) || x in PatternHits(ps, text);
  }

  /** Every found word is a dictionary word met as a cleaned token of the lowercased text,
      or the lowercased text of a word-bounded occurrence of a pattern. */
  lemma FoundWordsSound(words: seq<string>, ps: seq<Pattern>, text: string, x: string)
    requires x in FoundWords(words, ps, text)
    ensures TokenWord(words, text, x) || OccurrenceText(ps, text, x)
  {
    FoundWordsMembers(words, ps, text, x);
    LiteralHitsMembers(words, SplitSpaces(Lower(text)), x);
    if x !in LiteralHits(words, SplitSpaces(Lower(text))) {
      PatternHitsSound(ps, text, x);
    }
  }

  /** Every cleaned token that is a dictionary word is found. */
  lemma TokenWordIsFound(words: seq<string>, ps: seq<Pattern>, text: string, k: nat)
    requires k < |SplitSpaces(Lower(text))|
    requires StripToken(SplitSpaces(Lower(text))[k]) in words
    ensures StripToken(SplitSpaces(Lower(text))[k]) in FoundWords(words, ps, text)
  {
    var tokens := SplitSpaces(Lower(text));
    LiteralHitsMembers(words, tokens, StripToken(tokens[k]));
  }

  // ---------------------------------------------------------------------------------
  // Case insensitivity

  lemma SameFoldLower(t: string, u: string)
    requires SameFold(t, u)
    ensures Lower(t) == Lower(u)
  {
    assert forall k :: 0 <= k < |t| ==> Lower(t)[k] == Lower(u)[k];
  }

  lemma {:induction false} SubstringsFold(t: string, u: string, hs: seq<Hit>)
    requires SameFold(t, u)
    requires forall h :: h in hs ==> h.start <= h.end <= |t|
    ensures LowerAll(Substrings(t, hs)) == LowerAll(Substrings(u, hs))
  {
    forall k | 0 <= k < |hs|
      ensures LowerAll(Substrings(t, hs))[k] == LowerAll(Substrings(u, hs))[k]
    {
      assert hs[k] in hs;
      var a, b := hs[k].start, hs[k].end;
      assert SameFold(t[a..b], u[a..b]);
      SameFoldLower(t[a..b], u[a..b]);
    }
  }

  lemma {:induction false} PatternHitsFold(ps: seq<Pattern>, t: string, u: string)
    requires SameFold(t, u)
    ensures PatternHits(ps, t) == PatternHits(ps, u)
  {
    if ps != [] {
      var p := ps[|ps| - 1];
      PatternHitsFold(ps[..|ps| - 1], t, u);
      HitsFold(p, t, u, 0);
      SubstringsFold(t, u, HitsFrom(p, t, 0));
    }
  }

  /** `check` ignores ASCII case: two texts that differ only in case find the same words
      with the same severity. */
  lemma CheckIgnoresCase(words: seq<string>, ps: seq<Pattern>, t: string, u: string)
    requires SameFold(t, u)
    ensures CheckOf(words, ps, t).foundWords == CheckOf(words, ps, u).foundWords
    ensures CheckOf(words, ps, t).isClean == CheckOf(words, ps, u).isClean
    ensures CheckOf(words, ps, t).severity == CheckOf(words, ps, u).severity
  {
    SameFoldLower(t, u);
    PatternHitsFold(ps, t, u);
  }

  // ---------------------------------------------------------------------------------
  // What the patterns catch

  /** A word-bounded occurrence of any generated pattern makes the text unclean. */
  lemma OccurrenceIsCaught(words: seq<string>, ps: seq<Pattern>, text: string, p: Pattern,
                           i: nat, j: nat)
    requires p in ps && MatchesAt(p, text, i, j)
    ensures !CheckOf(words, ps, text).isClean
  {
    NoHitsIffNoOccurrence(p, text);
    PatternHitsComplete(ps, text, p);
    var x := PatternHits(ps, text)[0];
    assert x in FoundWords(words, ps, text);
  }

  /** A long dictionary word written with look-alikes for its vowels, in either case,
      between word boundaries, is caught. */
  lemma SubstitutedWordIsCaught(words: seq<string>, text: string, w: string, i: nat, j: nat)
    requires w in words && IsLong(w)
    requires i <= j <= |text| && Boundary(text, i) && Boundary(text, j)
    requires j - i == |w| && forall k :: 0 <= k < |w| ==> Writes(w[k], text[i + k])
    ensures !CheckOf(words, BuildPatterns(words), text).isClean
  {
    SubstitutionLanguage(w, text, i, j);
    WordsHavePatterns(words, w);
    OccurrenceIsCaught(words, BuildPatterns(words), text, SubstitutionPattern(w), i, j);
  }

  /** A long dictionary word with runs of whitespace, `-` or `_` between its characters,
      between word boundaries, is caught. */
  lemma SpreadWordIsCaught(words: seq<string>, text: string, w: string, gaps: seq<string>,
                           i: nat, j: nat)
    requires w in words && IsLong(w)
    requires |gaps| == |w| - 1 && forall g :: g in gaps ==> AllSeparators(g)
    requires i <= j <= |text| && SameUpToCase(text[i..j], Spread(w, gaps))
    requires Boundary(text, i) && Boundary(text, j)
    ensures !CheckOf(words, BuildPatterns(words), text).isClean
  {
    SeparatorAccepts(w, gaps, text, i, j);
    WordsHavePatterns(words, w);
    OccurrenceIsCaught(words, BuildPatterns(words), text, SeparatorPattern(w), i, j);
  }

  /** A long dictionary word with its letters repeated, between word boundaries, is
      caught. */
  lemma StretchedWordIsCaught(words: seq<string>, text: string, w: string, counts: seq<nat>,
                              i: nat, j: nat)
    requires w in words && IsLong(w) && AllowedCounts(w, counts)
    requires i <= j <= |text| && SameUpToCase(text[i..j], Stretch(w, counts))
    requires Boundary(text, i) && Boundary(text, j)
    ensures !CheckOf(words, BuildPatterns(words), text).isClean
  {
    RepetitionAccepts(w, counts, text, i, j);
    WordsHavePatterns(words, w);
    OccurrenceIsCaught(words, BuildPatterns(words), text, RepetitionPattern(w), i, j);
  }

  // ---------------------------------------------------------------------------------
  // Redaction

  /** Replacing with patterns that find nothing leaves the text as it is. */
  lemma {:induction false} RedactWithoutHits(text: string, ps: seq<Pattern>, r: string)
    requires forall p :: p in ps ==> HitsFrom(p, text, 0) == []
    ensures Redact(text, ps, r) == text
  {
    if ps != [] {
      var last := |ps| - 1;
      assert forall p :: p in ps[..last] ==> p in ps;
      RedactWithoutHits(text, ps[..last], r);
      assert ps[last] in ps;
      ReplaceWithoutHits(ps[last], text, r);
    }
  }

  /** With an empty word set there is nothing to redact. */
  lemma FilterWithoutWords(text: string, r: string)
    ensures FilterOf([], BuildPatterns([]), text, r) == text
  {
  }

  /** A text in which no dictionary word and no pattern has a word-bounded occurrence is
      left as it is. */
  lemma FilterWithoutOccurrences(words: seq<string>, ps: seq<Pattern>, text: string, r: string)
    requires forall w, i: nat, j: nat :: w in words ==> !MatchesAt(ExactPattern(w), text, i, j)
    requires forall p, i: nat, j: nat :: p in ps ==> !MatchesAt(p, text, i, j)
    ensures FilterOf(words, ps, text, r) == text
  {
    forall p | p in ExactPatterns(words) ensures HitsFrom(p, text, 0) == [] {
      var k :| 0 <= k < |words| && ExactPatterns(words)[k] == p;
      assert words[k] in words;
      NoHitsIffNoOccurrence(p, text);
    }
    RedactWithoutHits(text, ExactPatterns(words), r);
    forall p | p in ps ensures HitsFrom(p, text, 0) == [] {
      NoHitsIffNoOccurrence(p, text);
    }
    RedactWithoutHits(text, ps, r);
  }

  // ---------------------------------------------------------------------------------
  // The class

  /** `words` without `x`: `Set.delete`. */
  function RemoveValue(s: seq<string>, x: string): (r: seq<string>)
    ensures NoDup(s) ==> NoDup(r) && x !in r
    ensures forall y :: y != x ==> (y in r <==> y in s)
    ensures x in s ==> |r| == |s| - 1
    ensures x !in s ==> r == s
    ensures x in s ==> r == RemoveAt(s, IndexOf(s, x))
  {
    if x in s then
      var k := IndexOf(s, x);
      var r := RemoveAt(s, k);
      assert forall y :: y in r <==> y in s[..k] || y in s[k + 1..] by {
        assert r == s[..k] + s[k + 1..];
      }
      assert forall y :: y in s <==> y in s[..k] || y == x || y in s[k + 1..] by {
        assert s == s[..k] + [x] + s[k + 1..];
      }
      assert NoDup(s) ==> NoDup(r) by {
        if NoDup(s) {
          forall a, b | 0 <= a < b < |r| ensures r[a] != r[b] {
            var a' := if a < k then a else a + 1;
            var b' := if b < k then b else b + 1;
            assert r[a] == s[a'] && r[b] == s[b'];
          }
        }
      }
      assert NoDup(s) ==> x !in r by {
        if NoDup(s) {
          assert forall m :: k < m < |s| ==> s[m] != s[k];
          assert x !in s[k + 1..];
        }
      }
      r
    else s
  }

  class ProfanityFilter {
    /** The `Set` of lowercased dictionary words, in insertion order. */
    var words: seq<string>
    var patterns: seq<Pattern>

    ghost predicate Valid()
      reads this
    {
      NoDup(words) && (forall w :: w in words ==> Lower(w) == w)
      && patterns == BuildPatterns(words)
    }

    /** The filter over the words read from the dictionary file. */
    constructor(initial: seq<string>)
      ensures Valid()
      ensures words == Dedup(LowerAll(initial))
    {
      words := Dedup(LowerAll(initial));
      new;
      forall w | w in words ensures Lower(w) == w {
        var k :| 0 <= k < |LowerAll(initial)| && LowerAll(initial)[k] == w;
        LowerIdempotent(initial[k]);
      }
      RebuildPatterns();
    }

    /** `this.patterns = this.buildPatterns()`. */
    method RebuildPatterns()
      modifies this
      ensures words == old(words)
      ensures patterns == BuildPatterns(words)
    {
      var ps: seq<Pattern> := [];
      var k := 0;
      while k < |words|
        invariant 0 <= k <= |words|
        invariant words == old(words)
        invariant ps == BuildPatterns(words[..k])
      {
        var w := words[k];
        if |w| >= 3 {
          ps := ps + [SubstitutionPattern(w), SeparatorPattern(w), RepetitionPattern(w)];
        }
        BuildPatternsAppend(words[..k], w);
        assert words[..k + 1] == words[..k] + [w];
        k := k + 1;
      }
      assert words[..k] == words;
      patterns := ps;
    }

    /** `check`: the literal token pass, the pattern pass, de-duplication, severity and
        redaction. */
    method Check(text: string) returns (r: CheckResult)
      ensures r == CheckOf(words, patterns, text)
    {
      var literal := LiteralPass(SplitSpaces(Lower(text)));
      var matched := PatternPass(text);
      var unique := Dedup(literal + matched);
      var filtered := Filter(text, DefaultReplacement);
      r := CheckResult(|unique| == 0, unique, filtered, SeverityOf(|unique|));
    }

    /** The loop over the whitespace-separated tokens of the lowercased text. */
    method LiteralPass(tokens: seq<string>) returns (found: seq<string>)
      ensures found == LiteralHits(words, tokens)
    {
      found := [];
      var k := 0;
      while k < |tokens|
        invariant 0 <= k <= |tokens|
        invariant found == LiteralHits(words, tokens[..k])
      {
        var clean := StripToken(tokens[k]);
        if clean in words {
          found := found + [clean];
        }
        LiteralHitsSnoc(words, tokens, k);
        k := k + 1;
      }
      assert tokens[..k] == tokens;
    }

    /** The loop over the patterns, collecting their lowercased matches. */
    method PatternPass(text: string) returns (found: seq<string>)
      ensures found == PatternHits(patterns, text)
    {
      found := [];
      var n := 0;
      while n < |patterns|
        invariant 0 <= n <= |patterns|
        invariant found == PatternHits(patterns[..n], text)
      {
        var matches := MatchAll(patterns[n], text);
        found := found + LowerAll(matches);
        PatternHitsSnoc(patterns, text, n);
        n := n + 1;
      }
      assert patterns[..n] == patterns;
    }

    method Filter(text: string, replacement: string) returns (filtered: string)
      ensures filtered == FilterOf(words, patterns, text, replacement)
    {
      filtered := ExactPass(text, replacement);
      filtered := PatternRedact(filtered, replacement);
    }

    /** The first loop of `filter`: every dictionary word, as `\bword\b`, replaced. */
    method ExactPass(text: string, replacement: string) returns (filtered: string)
      ensures filtered == Redact(text, ExactPatterns(words), replacement)
    {
      filtered := text;
      var k := 0;
      while k < |words|
        invariant 0 <= k <= |words|
        invariant filtered == Redact(text, ExactPatterns(words[..k]), replacement)
      {
        filtered := ReplaceAll(ExactPattern(words[k]), filtered, replacement);
        var ps := ExactPatterns(words[..k + 1]);
        assert ps[..k] == ExactPatterns(words[..k]);
        k := k + 1;
      }
      assert words[..k] == words;
    }

    /** The second loop of `filter`: every obfuscation pattern replaced, in order. */
    method PatternRedact(text: string, replacement: string) returns (filtered: string)
      ensures filtered == Redact(text, patterns, replacement)
    {
      filtered := text;
      var n := 0;
      while n < |patterns|
        invariant 0 <= n <= |patterns|
        invariant filtered == Redact(text, patterns[..n], replacement)
      {
        filtered := ReplaceAll(patterns[n], filtered, replacement);
        assert patterns[..n + 1][..n] == patterns[..n];
        n := n + 1;
      }
      assert patterns[..n] == patterns;
    }

    method AddWord(word: string)
      requires Valid()
      modifies this
      ensures Valid()
      ensures words == if Lower(word) in old(words) then old(words) else old(words) + [Lower(word)]
    {
      var w := Lower(word);
      LowerIdempotent(word);
      if w !in words {
        words := words + [w];
      }
      RebuildPatterns();
    }

    method RemoveWord(word: string)
      requires Valid()
      modifies this
      ensures Valid()
      ensures words == RemoveValue(old(words), Lower(word))
    {
      words := RemoveValue(words, Lower(word));
      RebuildPatterns();
    }

    method GetWords() returns (ws: seq<string>)
      requires Valid()
      ensures ws == words && NoDup(ws)
    {
      ws := words;
    }

    method Validate(text: string, options: Options) returns (r: ValidateResult)
      ensures r == ValidateOf(Resolve(options), CheckOf(words, patterns, text), text)
    {
      var opts := Resolve(options);
      var errors: seq<string> := [];
      var profanityResult: Option<CheckResult> := None;
      if opts.checkLength {
        var lengthCheck := ValidateLength(text, opts.minLength, opts.maxLength);
        if !lengthCheck.isValid && lengthCheck.message.Some? {
          errors := errors + [lengthCheck.message.value];
        }
      }
      assert errors == LengthStage(opts, text, []);
      ghost var c := CheckOf(words, patterns, text);
      if opts.checkProfanity {
        var result := Check(text);
        profanityResult := Some(result);
        if !result.isClean {
          errors := errors + [ProfanityMessage(result.severity)];
        }
      }
      assert errors == ProfanityStage(opts, c, LengthStage(opts, text, []));
      if opts.checkSpam {
        var spamCheck := CheckSpam(text);
        if spamCheck.isSpam {
          errors := errors + [Or(spamCheck.reason, SpamFallback)];
        }
      }
      r := ValidateResult(|errors| == 0, errors, [], profanityResult);
    }
  }

  /** Adding a word and removing it again restores a word set that did not hold it. */
  lemma AddRemoveRoundTrip(words: seq<string>, w: string)
    requires NoDup(words) && w !in words
    ensures RemoveValue(words + [w], w) == words
  {
    var s := words + [w];
    assert IndexOf(s, w) == |words|;
    assert s[..|words|] == words;
  }

  /** Adding a word twice is the same as adding it once. */
  lemma AddIdempotent(words: seq<string>, w: string)
    ensures var once := if w in words then words else words + [w];
            (if w in once then once else once + [w]) == once
  {
  }

  // ---------------------------------------------------------------------------------
  // Length check

  datatype LengthCheck = LengthCheck(isValid: bool, message: Option<string>)

  function MinLengthMessage(min: int): string {
    "ข้อความต้องมีอย่างน้อย " + IntToString(min) + " ตัวอักษร"
  }

  function MaxLengthMessage(max: int): string {
    "ข้อความต้องไม่เกิน " + IntToString(max) + " ตัวอักษร"
  }

  /** `validateLength`: the trimmed length must lie in `[min, max]`; the minimum is tested
      first. */
  function ValidateLength(text: string, min: int, max: int): (r: LengthCheck)
    ensures r.isValid <==> min <= |Trim(text)| <= max
    ensures r.isValid <==> r.message == None
    ensures |Trim(text)| < min ==> r.message == Some(MinLengthMessage(min))
    ensures min <= |Trim(text)| && |Trim(text)| > max ==> r.message == Some(MaxLengthMessage(max))
  {
    var length := |Trim(text)|;
    if length < min then LengthCheck(false, Some(MinLengthMessage(min)))
    else if length > max then LengthCheck(false, Some(MaxLengthMessage(max)))
    else LengthCheck(true, None)
  }

  /** Surrounding whitespace never counts towards the length. */
  lemma LengthIgnoresSurroundingSpace(pre: string, text: string, post: string, min: int, max: int)
    requires forall k :: 0 <= k < |pre| ==> IsSpace(pre[k])
    requires forall k :: 0 <= k < |post| ==> IsSpace(post[k])
    ensures ValidateLength(pre + text + post, min, max) == ValidateLength(text, min, max)
  {
    TrimSurroundingSpace(pre, text, post);
  }

  lemma {:induction false} TrimSurroundingSpace(pre: string, text: string, post: string)
    requires forall k :: 0 <= k < |pre| ==> IsSpace(pre[k])
    requires forall k :: 0 <= k < |post| ==> IsSpace(post[k])
    ensures |Trim(pre + text + post)| == |Trim(text)|
  {
    var s := pre + text + post;
    var a := LeadingSpaces(text);
    var r := Trim(text);
    if r == [] {
      TrimBlank(text);
      assert forall k :: 0 <= k < |s| ==> IsSpace(s[k]) by {
        forall k | 0 <= k < |s| ensures IsSpace(s[k]) {
          if |pre| <= k < |pre| + |text| {
            assert s[k] == text[k - |pre|];
          }
        }
      }
      TrimBlank(s);
    } else {
      TrimLocate(s, |pre| + a, |r|);
      assert s[|pre| + a..|pre| + a + |r|] == r;
    }
  }

  /** The trim of `s` is the run from `i` of length `n` when everything outside it is
      whitespace and its ends are not. */
  lemma {:induction false} TrimLocate(s: string, i: nat, n: nat)
    requires 1 <= n && i + n <= |s|
    requires forall k :: 0 <= k < i ==> IsSpace(s[k])
    requires forall k :: i + n <= k < |s| ==> IsSpace(s[k])
    requires !IsSpace(s[i]) && !IsSpace(s[i + n - 1])
    ensures |Trim(s)| == n
  {
    LeadingAt(s, i);
    var r := Trim(s);
    assert !IsSpace(s[i + n - 1]);
    assert r != [] ==> r[|r| - 1] == s[i + |r| - 1];
  }

  lemma {:induction false} LeadingAt(s: string, i: nat)
    requires i < |s| && !IsSpace(s[i])
    requires forall k :: 0 <= k < i ==> IsSpace(s[k])
    ensures LeadingSpaces(s) == i
  {
    if i > 0 {
      LeadingAt(s[1..], i - 1);
    }
  }

  // ---------------------------------------------------------------------------------
  // Spam check

  datatype SpamCheck = SpamCheck(isSpam: bool, reason: Option<string>)

  const RepeatMessage: string := "มีตัวอักษรซ้ำติดกันมากเกินไป"
  const UppercaseMessage: string := "ใช้ตัวพิมพ์ใหญ่มากเกินไป"
  const UrlMessage: string := "มี URL มากเกินไป"

  /** `/(.)\1{5,}/` matches at `i`: six equal characters other than a line terminator. */
  predicate RepeatRunAt(t: string, i: nat)
    requires i + 6 <= |t|
  {
    !IsLineTerminator(t[i]) && forall k :: i < k < i + 6 ==> t[k] == t[i]
  }

  predicate HasRepeatRun(t: string) {
    exists i: nat :: i + 6 <= |t| && RepeatRunAt(t, i)
  }

  function CountUpper(t: string): (n: nat)
    ensures n <= |t|
  {
    if t == [] then 0 else (if IsAsciiUpper(t[0]) then 1 else 0) + CountUpper(t[1..])
  }

  function CountLetters(t: string): (n: nat)
    ensures n <= |t|
  {
    if t == [] then 0 else (if IsAsciiLetter(t[0]) then 1 else 0) + CountLetters(t[1..])
  }

  /** More than ten ASCII letters, over 70% of them upper case. The ratio test
      `upper / letters > 0.7` is written without division. */
  predicate Shouting(t: string) {
    CountLetters(t) > 10 && 10 * CountUpper(t) > 7 * CountLetters(t)
  }

  /** Where a URL starting at `i` has its first character after `https://` or `http://`. */
  function SchemeEnd(t: string, i: nat): (r: Option<nat>)
    requires i <= |t|
    ensures r.Some? ==> r.value <= |t| && r.value >= i + 7
  {
    if i + 8 <= |t| && t[i..i + 8] == "https://" then Some(i + 8)
    else if i + 7 <= |t| && t[i..i + 7] == "http://" then Some(i + 7)
    else None
  }

  /** `/https?:\/\/[^\s]+/` matches at `i`. */
  predicate UrlAt(t: string, i: nat)
    requires i <= |t|
  {
    SchemeEnd(t, i).Some? && SchemeEnd(t, i).value < |t| && !IsSpace(t[SchemeEnd(t, i).value])
  }

  function NonSpaceEnd(t: string, i: nat): (e: nat)
    requires i <= |t|
    ensures i <= e <= |t| && (e < |t| ==> IsSpace(t[e]))
    ensures forall k :: i <= k < e ==> !IsSpace(t[k])
    decreases |t| - i
  {
    if i < |t| && !IsSpace(t[i]) then NonSpaceEnd(t, i + 1) else i
  }

  /** The number of matches of `/https?:\/\/[^\s]+/g` from position `i`. */
  function UrlsFrom(t: string, i: nat): nat
    requires i <= |t|
    decreases |t| - i
  {
    if i >= |t| then 0
    else if UrlAt(t, i) then 1 + UrlsFrom(t, NonSpaceEnd(t, SchemeEnd(t, i).value))
    else UrlsFrom(t, i + 1)
  }

  predicate TooManyUrls(t: string) { UrlsFrom(t, 0) > 3 }

  /** `checkSpam`: the first of the three heuristics that fires gives the reason. */
  function CheckSpam(t: string): (r: SpamCheck)
    ensures r.isSpam <==> HasRepeatRun(t) || Shouting(t) || TooManyUrls(t)
    ensures r.isSpam <==> r.reason.Some?
    ensures HasRepeatRun(t) ==> r.reason == Some(RepeatMessage)
    ensures !HasRepeatRun(t) && Shouting(t) ==> r.reason == Some(UppercaseMessage)
    ensures !HasRepeatRun(t) && !Shouting(t) && TooManyUrls(t) ==> r.reason == Some(UrlMessage)
  {
    if HasRepeatRun(t) then SpamCheck(true, Some(RepeatMessage))
    else if Shouting(t) then SpamCheck(true, Some(UppercaseMessage))
    else if TooManyUrls(t) then SpamCheck(true, Some(UrlMessage))
    else SpamCheck(false, None)
  }

  /** Every URL match takes at least eight characters, and matches do not overlap. */
  lemma {:induction false} UrlsFromBound(t: string, i: nat)
    requires i <= |t|
    ensures 8 * UrlsFrom(t, i) <= |t| - i
    decreases |t| - i
  {
    if i < |t| {
      if UrlAt(t, i) {
        var e := NonSpaceEnd(t, SchemeEnd(t, i).value);
        UrlsFromBound(t, e);
      } else {
        UrlsFromBound(t, i + 1);
      }
    }
  }

  /** A text shorter than 32 characters cannot hold more than three URLs. */
  lemma ShortTextsHaveFewUrls(t: string)
    requires |t| < 32
    ensures !TooManyUrls(t)
  {
    UrlsFromBound(t, 0);
  }

  /** The URL scan finds nothing exactly when no position starts a URL. */
  lemma {:induction false} NoUrlsIff(t: string, i: nat)
    requires i <= |t|
    ensures UrlsFrom(t, i) == 0 <==> forall k :: i <= k < |t| ==> !UrlAt(t, k)
    decreases |t| - i
  {
    if i < |t| {
      NoUrlsIff(t, i + 1);
    }
  }

  /** Six equal characters in a row, other than a line terminator, always make spam, and
      this is the reason given. */
  lemma RepeatedCharacterIsSpam(t: string, i: nat, c: char)
    requires i + 6 <= |t| && t[i..i + 6] == Repeat(c, 6) && !IsLineTerminator(c)
    ensures CheckSpam(t) == SpamCheck(true, Some(RepeatMessage))
  {
    assert forall k :: i <= k < i + 6 ==> t[k] == t[i..i + 6][k - i];
    assert RepeatRunAt(t, i);
  }

  lemma {:induction false} CountUpperOfUpper(t: string)
    ensures CountUpper(Upper(t)) == CountLetters(t)
    ensures CountLetters(Upper(t)) == CountLetters(t)
  {
    if t != [] {
      CountUpperOfUpper(t[1..]);
      assert Upper(t)[1..] == Upper(t[1..]);
    }
  }

  lemma {:induction false} CountUpperAtMostLetters(t: string)
    ensures CountUpper(t) <= CountLetters(t)
  {
    if t != [] { CountUpperAtMostLetters(t[1..]); }
  }

  /** An upper-cased text with more than ten ASCII letters and no run of six equal
      characters is spam for its capitals. */
  lemma UppercaseTextIsSpam(t: string)
    requires CountLetters(t) > 10 && !HasRepeatRun(Upper(t))
    ensures CheckSpam(Upper(t)) == SpamCheck(true, Some(UppercaseMessage))
  {
    CountUpperOfUpper(t);
  }

  // ---------------------------------------------------------------------------------
  // validate

  /** The options of `validate`; `None` stands for an option that is not given. */
  datatype Options = Options(
    checkProfanity: Option<bool>, checkSpam: Option<bool>, checkLength: Option<bool>,
    minLength: Option<int>, maxLength: Option<int>)

  datatype Settings = Settings(
    checkProfanity: bool, checkSpam: bool, checkLength: bool, minLength: int, maxLength: int)

  const NoOptions: Options := Options(None, None, None, None, None)

  function Or<T>(o: Option<T>, d: T): T {
    match o case Some(v) => v case None => d
  }

  /** The defaults, overridden by every option given. */
  function Resolve(o: Options): (s: Settings)
    ensures o.checkProfanity.None? ==> s.checkProfanity
    ensures o.checkSpam.None? ==> s.checkSpam
    ensures o.checkLength.None? ==> s.checkLength
    ensures o.minLength.None? ==> s.minLength == 10
    ensures o.maxLength.None? ==> s.maxLength == 5000
    ensures o.checkProfanity.Some? ==> s.checkProfanity == o.checkProfanity.value
    ensures o.checkSpam.Some? ==> s.checkSpam == o.checkSpam.value
    ensures o.checkLength.Some? ==> s.checkLength == o.checkLength.value
    ensures o.minLength.Some? ==> s.minLength == o.minLength.value
    ensures o.maxLength.Some? ==> s.maxLength == o.maxLength.value
  {
    Settings(Or(o.checkProfanity, true), Or(o.checkSpam, true), Or(o.checkLength, true),
             Or(o.minLength, 10), Or(o.maxLength, 5000))
  }

  datatype ValidateResult = ValidateResult(
    isValid: bool, errors: seq<string>, warnings: seq<string>,
    profanityResult: Option<CheckResult>)

  const SpamFallback: string := "ข้อความมีลักษณะเป็น spam"

  function ProfanityMessage(s: Severity): string {
    if s == Severe then "พบคำหยาบคายมากเกินไป กรุณาแก้ไขข้อความ"
    else if s == Moderate then "พบคำหยาบคาย กรุณาใช้ภาษาที่สุภาพ"
    else "พบคำที่ไม่เหมาะสม กรุณาใช้ภาษาที่สุภาพ"
  }

  function LengthErrors(s: Settings, text: string): seq<string> {
    var lc := ValidateLength(text, s.minLength, s.maxLength);
    if s.checkLength && !lc.isValid && lc.message.Some? then [lc.message.value] else []
  }

  function ProfanityErrors(s: Settings, c: CheckResult): seq<string> {
    if s.checkProfanity && !c.isClean then [ProfanityMessage(c.severity)] else []
  }

  function SpamErrors(s: Settings, text: string): seq<string> {
    var sc := CheckSpam(text);
    if s.checkSpam && sc.isSpam then [Or(sc.reason, SpamFallback)] else []
  }

  /** The three stages of `validate`, each appending its error to those collected. */
  function LengthStage(s: Settings, text: string, errors: seq<string>): seq<string> {
    if s.checkLength then
      var lc := ValidateLength(text, s.minLength, s.maxLength);
      if !lc.isValid && lc.message.Some? then errors + [lc.message.value] else errors
    else errors
  }

  function ProfanityStage(s: Settings, c: CheckResult, errors: seq<string>): seq<string> {
    if s.checkProfanity && !c.isClean then errors + [ProfanityMessage(c.severity)] else errors
  }

  function SpamStage(s: Settings, text: string, errors: seq<string>): seq<string> {
    if s.checkSpam then
      var sc := CheckSpam(text);
      if sc.isSpam then errors + [Or(sc.reason, SpamFallback)] else errors
    else errors
  }

  /** `validate` on `text`, given what `check` answers for it. */
  function ValidateOf(s: Settings, c: CheckResult, text: string): ValidateResult
  {
    var errors := SpamStage(s, text, ProfanityStage(s, c, LengthStage(s, text, [])));
    ValidateResult(|errors| == 0, errors, [], if s.checkProfanity then Some(c) else None)
  }

  /** The errors are those of the length, profanity and spam checks, in that order. */
  lemma ValidateErrors(s: Settings, c: CheckResult, text: string)
    ensures ValidateOf(s, c, text).errors ==
            LengthErrors(s, text) + ProfanityErrors(s, c) + SpamErrors(s, text)
  {
    var e1 := LengthStage(s, text, []);
    var e2 := ProfanityStage(s, c, e1);
    assert e1 == LengthErrors(s, text);
    assert e2 == e1 + ProfanityErrors(s, c);
    assert SpamStage(s, text, e2) == e2 + SpamErrors(s, text);
  }

  /** `validate` collects at most one error per check, never warns, and accepts exactly
      when no error was collected, which happens exactly when every enabled check passes. */
  lemma ValidateShape(s: Settings, c: CheckResult, text: string)
    ensures var r := ValidateOf(s, c, text);
            |r.errors| <= 3 && r.warnings == []
            && (r.isValid <==> r.errors == [])
            && (r.isValid <==>
                  (s.checkLength ==> ValidateLength(text, s.minLength, s.maxLength).isValid)
                  && (s.checkProfanity ==> c.isClean)
                  && (s.checkSpam ==> !CheckSpam(text).isSpam))
  {
  }

  /** The error a caller shows, `errors[0]`, is the length message when the length check
      is enabled and fails. */
  lemma LengthErrorComesFirst(s: Settings, c: CheckResult, text: string)
    requires s.checkLength && !ValidateLength(text, s.minLength, s.maxLength).isValid
    ensures ValidateOf(s, c, text).errors[0] ==
            ValidateLength(text, s.minLength, s.maxLength).message.value
  {
  }

  /** Any profanity, even of the mildest tier, blocks the text; the message follows the
      tier and comes right after the length error, if any. */
  lemma ProfanityBlocks(s: Settings, c: CheckResult, text: string)
    requires s.checkProfanity && !c.isClean
    ensures !ValidateOf(s, c, text).isValid
    ensures ValidateOf(s, c, text).errors[|LengthErrors(s, text)|] == ProfanityMessage(c.severity)
  {
  }

  /** The spam reason, when there is one, is the last error. */
  lemma SpamErrorComesLast(s: Settings, c: CheckResult, text: string)
    requires s.checkSpam && CheckSpam(text).isSpam
    ensures var r := ValidateOf(s, c, text);
            r.errors != [] && r.errors[|r.errors| - 1] == CheckSpam(text).reason.value
  {
  }

  /** `validate` reports the profanity check exactly when that check is enabled. */
  lemma ValidateReportsCheck(s: Settings, c: CheckResult, text: string)
    ensures ValidateOf(s, c, text).profanityResult == if s.checkProfanity then Some(c) else None
  {
  }

  // ---------------------------------------------------------------------------------
  // The request handlers' configurations

  /** A question title: 5 to 200 characters. */
  const TitleOptions: Options := Options(Some(true), Some(true), Some(true), Some(5), Some(200))
  /** A question body: 10 to 10000 characters. */
  const BodyOptions: Options := Options(Some(true), Some(true), Some(true), Some(10), Some(10000))
  /** A comment: 1 to 5000 characters. */
  const CommentOptions: Options := Options(Some(true), Some(true), Some(true), Some(1), Some(5000))

  /** A blank comment is refused, and the message shown asks for at least one character. */
  lemma BlankCommentRefused(c: CheckResult, text: string)
    requires forall k :: 0 <= k < |text| ==> IsSpace(text[k])
    ensures var r := ValidateOf(Resolve(CommentOptions), c, text);
            !r.isValid && r.errors[0] == "ข้อความต้องมีอย่างน้อย 1 ตัวอักษร"
  {
    TrimBlank(text);
    var s := Resolve(CommentOptions);
    assert IntToString(1) == "1";
    assert LengthStage(s, text, []) == [MinLengthMessage(1)];
    ValidateErrors(s, c, text);
  }

  /** A title whose trimmed length exceeds 200 is refused with the maximum-length message
      shown first. */
  lemma LongTitleRefused(c: CheckResult, text: string)
    requires |Trim(text)| > 200
    ensures var r := ValidateOf(Resolve(TitleOptions), c, text);
            !r.isValid && r.errors[0] == "ข้อความต้องไม่เกิน 200 ตัวอักษร"
  {
    var s := Resolve(TitleOptions);
    assert IntToString(200) == "200";
    assert LengthStage(s, text, []) == [MaxLengthMessage(200)];
    ValidateErrors(s, c, text);
  }
}
