/** The three obfuscation-tolerant expressions that `ProfanityFilter.buildPatterns` makes
    for every dictionary word of three or more characters (src/lib/profanity-filter.ts),
    and the exact expression `\b word \b` that `filter` makes for every word.

    Dictionary words are taken as plain text: every character of a word stands for
    itself in the expression (words holding regular-expression metacharacters are not
    modelled). */
module ProfanityPatterns {
  import opened JsText
  import opened Regex

  /** The bracket class that replaces a vowel in the substitution strategy, for both
      cases of the five vowels, or None for any other character. */
  function VowelClass(c: char): (r: Option<string>)
    ensures r.Some? <==> LowerChar(c) in "aeiou"
    ensures r.Some? ==> |r.value| >= 1 && LowerChar(r.value[0]) == LowerChar(c)
  {
    match c
    case 'a' => Some("a@4")
    case 'e' => Some("e3")
    case 'i' => Some("i1!")
    case 'o' => Some("o0")
    case 'u' => Some("u")
    case 'A' => Some("A@4")
    case 'E' => Some("E3")
    case 'I' => Some("I1!")
    case 'O' => Some("O0")
    case 'U' => Some("U")
    case _ => None
  }

  function SubstitutionClass(c: char): CharClass {
    match VowelClass(c)
    case Some(cs) => OneOf(cs)
    case None => Exactly(c)
  }

  /** Strategy 1: every vowel becomes its bracket class, `\b s[a@4]d \b`. */
  function SubstitutionPattern(w: string): (p: Pattern)
    ensures |p| == |w|
    ensures forall k :: 0 <= k < |w| ==> p[k] == Atom(SubstitutionClass(w[k]), One)
  {
    if w == [] then [] else [Atom(SubstitutionClass(w[0]), One)] + SubstitutionPattern(w[1..])
  }

  /** Strategy 2: `[\s\-_]*` between every two characters, `\b s[\s\-_]*h[\s\-_]*i \b`. */
  function SeparatorPattern(w: string): (p: Pattern)
    ensures |w| >= 1 ==> |p| == 2 * |w| - 1
    ensures forall k :: 0 <= k < |w| ==> p[2 * k] == Atom(Exactly(w[k]), One)
  {
    if |w| <= 1 then (if w == [] then [] else [Atom(Exactly(w[0]), One)])
    else [Atom(Exactly(w[0]), One), Atom(Separator, Star)] + SeparatorPattern(w[1..])
  }

  /** Every odd position of the separator pattern is the `[\s\-_]*` atom. */
  lemma {:induction false} SeparatorPatternGaps(w: string)
    ensures forall k :: 0 <= k < |w| - 1 ==> SeparatorPattern(w)[2 * k + 1] == Atom(Separator, Star)
  {
    if |w| >= 2 {
      var p := SeparatorPattern(w);
      var q := SeparatorPattern(w[1..]);
      SeparatorPatternGaps(w[1..]);
      assert p == [Atom(Exactly(w[0]), One), Atom(Separator, Star)] + q;
      forall k | 1 <= k < |w| - 1 ensures p[2 * k + 1] == Atom(Separator, Star) {
        assert p[2 * k + 1] == q[2 * (k - 1) + 1];
      }
    }
  }

  /** Strategy 3: `+` after every ASCII letter, `\b s+h+i+t+ \b`. */
  function RepetitionPattern(w: string): (p: Pattern)
    ensures |p| == |w|
    ensures forall k :: 0 <= k < |w| ==>
              p[k] == Atom(Exactly(w[k]), if IsAsciiLetter(w[k]) then Plus else One)
  {
    if w == [] then []
    else [Atom(Exactly(w[0]), if IsAsciiLetter(w[0]) then Plus else One)] + RepetitionPattern(w[1..])
  }

  /** The expression `\b word \b` of `filter`. */
  function ExactPattern(w: string): (p: Pattern)
    ensures |p| == |w|
    ensures forall k :: 0 <= k < |w| ==> p[k] == Atom(Exactly(w[k]), One)
  {
    if w == [] then [] else [Atom(Exactly(w[0]), One)] + ExactPattern(w[1..])
  }

  /** A word takes part in pattern generation only from three characters on. */
  predicate IsLong(w: string) { |w| >= 3 }

  function WordPatterns(w: string): seq<Pattern> {
    [SubstitutionPattern(w), SeparatorPattern(w), RepetitionPattern(w)]
  }

  /** `buildPatterns`: three patterns per long word, in word order. */
  function BuildPatterns(words: seq<string>): (ps: seq<Pattern>)
    ensures |ps| % 3 == 0 && |ps| <= 3 * |words|
    ensures words == [] ==> ps == []
  {
    if words == [] then []
    else (if IsLong(words[0]) then WordPatterns(words[0]) else []) + BuildPatterns(words[1..])
  }

  /** The exact patterns of `filter`, one per word, in word order. */
  function ExactPatterns(words: seq<string>): (ps: seq<Pattern>)
    ensures |ps| == |words|
    ensures forall k :: 0 <= k < |words| ==> ps[k] == ExactPattern(words[k])
  {
    if words == [] then [] else [ExactPattern(words[0])] + ExactPatterns(words[1..])
  }

  function LongWords(words: seq<string>): set<string> {
    set w | w in words && IsLong(w)
  }

  /** Without duplicate words there are exactly three patterns per distinct long word. */
  lemma {:induction false} PatternCount(words: seq<string>)
    requires NoDup(words)
    ensures |BuildPatterns(words)| == 3 * |LongWords(words)|
  {
    if words != [] {
      var w := words[0];
      var rest := words[1..];
      assert NoDup(rest);
      PatternCount(rest);
      assert forall k :: 0 <= k < |rest| ==> rest[k] == words[k + 1];
      assert w !in rest;
      if IsLong(w) {
        assert LongWords(words) == LongWords(rest) + {w};
      } else {
        assert LongWords(words) == LongWords(rest);
      }
    }
  }

  /** Every generated pattern belongs to a long dictionary word. */
  lemma {:induction false} PatternsComeFromWords(words: seq<string>)
    ensures forall p :: p in BuildPatterns(words) ==>
              exists w :: w in words && IsLong(w) && p in WordPatterns(w)
  {
    if words != [] {
      PatternsComeFromWords(words[1..]);
      var own := if IsLong(words[0]) then WordPatterns(words[0]) else [];
      forall p | p in BuildPatterns(words)
        ensures exists w :: w in words && IsLong(w) && p in WordPatterns(w)
      {
        if p in own {
          assert words[0] in words;
        } else {
          assert p in BuildPatterns(words[1..]);
          var w :| w in words[1..] && IsLong(w) && p in WordPatterns(w);
          assert w in words;
        }
      }
    }
  }

  /** Every long dictionary word contributes all three of its patterns. */
  lemma {:induction false} WordsHavePatterns(words: seq<string>, w: string)
    requires w in words && IsLong(w)
    ensures forall p :: p in WordPatterns(w) ==> p in BuildPatterns(words)
  {
    var own := if IsLong(words[0]) then WordPatterns(words[0]) else [];
    if w != words[0] {
      assert w in words[1..];
      WordsHavePatterns(words[1..], w);
    }
    assert BuildPatterns(words) == own + BuildPatterns(words[1..]);
  }

  /** Adding a word adds exactly its patterns at the end; nothing else changes. */
  lemma {:induction false} BuildPatternsAppend(words: seq<string>, w: string)
    ensures BuildPatterns(words + [w]) ==
            BuildPatterns(words) + (if IsLong(w) then WordPatterns(w) else [])
  {
    if words != [] {
      assert (words + [w])[1..] == words[1..] + [w];
      BuildPatternsAppend(words[1..], w);
    } else {
      assert BuildPatterns([w]) == (if IsLong(w) then WordPatterns(w) else []) + BuildPatterns([]);
    }
  }

  // ---------------------------------------------------------------------------------
  // The languages of the strategies

  /** A pattern of single-character atoms spans exactly one character per atom, each in
      its atom's class. */
  lemma {:induction false} SingleAtomsSpan(p: Pattern, t: string, i: nat, j: nat)
    requires forall k :: 0 <= k < |p| ==> p[k].q == One
    requires i <= j <= |t|
    ensures Spans(p, t, i, j) <==>
              j == i + |p| && forall k :: 0 <= k < |p| ==> InClass(p[k].cls, t[i + k])
    decreases |p|
  {
    if p != [] {
      if i < j {
        SingleAtomsSpan(p[1..], t, i + 1, j);
        if j == i + |p| && forall k :: 0 <= k < |p| ==> InClass(p[k].cls, t[i + k]) {
          assert forall k :: 0 <= k < |p[1..]| ==> InClass(p[1..][k].cls, t[i + 1 + k]) by {
            forall k | 0 <= k < |p[1..]| ensures InClass(p[1..][k].cls, t[i + 1 + k]) {
              assert p[1..][k] == p[k + 1];
            }
          }
        }
        if Spans(p, t, i, j) {
          forall k | 0 <= k < |p| ensures InClass(p[k].cls, t[i + k]) {
            if k > 0 { assert p[1..][k - 1] == p[k]; }
          }
        }
      }
    }
  }

  /** The digits and signs that stand for a vowel in the substitution strategy. */
  function LookAlikes(c: char): string {
    if c == 'a' then "@4"
    else if c == 'e' then "3"
    else if c == 'i' then "1!"
    else if c == 'o' then "0"
    else ""
  }

  /** `d` writes the word character `c`: the same letter in either case, or, for a vowel,
      one of its look-alikes. */
  predicate Writes(c: char, d: char) {
    LowerChar(d) == LowerChar(c) || d in LookAlikes(LowerChar(c))
  }

  /** A vowel's class holds the vowel and its look-alikes, none of which is a letter. */
  lemma VowelClassWrites(c: char, d: char, look: string)
    requires SubstitutionClass(c) == OneOf([c] + look)
    requires LookAlikes(LowerChar(c)) == look
    requires forall x :: x in look ==> !IsAsciiLower(x) && !IsAsciiUpper(x)
    ensures InClass(SubstitutionClass(c), d) <==> Writes(c, d)
  {
    var cs := [c] + look;
    assert Lower(cs) == [LowerChar(c)] + look by {
      forall k | 0 <= k < |cs| ensures Lower(cs)[k] == ([LowerChar(c)] + look)[k] {
        if k > 0 { assert cs[k] == look[k - 1]; }
      }
    }
    var ld := LowerChar(d);
    assert ld in look <==> d in look;
  }

  lemma SubstitutionClassWrites(c: char, d: char)
    ensures InClass(SubstitutionClass(c), d) <==> Writes(c, d)
  {
    if c == 'a' || c == 'A' {
      VowelClassWrites(c, d, "@4");
    } else if c == 'e' || c == 'E' {
      VowelClassWrites(c, d, "3");
    } else if c == 'i' || c == 'I' {
      VowelClassWrites(c, d, "1!");
    } else if c == 'o' || c == 'O' {
      VowelClassWrites(c, d, "0");
    } else if c == 'u' || c == 'U' {
      VowelClassWrites(c, d, "");
    } else {
      assert LookAlikes(LowerChar(c)) == "";
    }
  }

  /** The substitution pattern spans exactly the spellings of the word in which every
      character is written as itself (either case) or, for a vowel, as a look-alike. */
  lemma SubstitutionLanguage(w: string, t: string, i: nat, j: nat)
    requires i <= j <= |t|
    ensures Spans(SubstitutionPattern(w), t, i, j) <==>
              j - i == |w| && forall k :: 0 <= k < |w| ==> Writes(w[k], t[i + k])
  {
    var p := SubstitutionPattern(w);
    SingleAtomsSpan(p, t, i, j);
    forall k | 0 <= k < |w| && i + k < |t| {
      SubstitutionClassWrites(w[k], t[i + k]);
    }
  }

  /** The exact pattern spans exactly the word, up to ASCII case. */
  lemma ExactLanguage(w: string, t: string, i: nat, j: nat)
    requires i <= j <= |t|
    ensures Spans(ExactPattern(w), t, i, j) <==>
              j - i == |w| && Lower(t[i..j]) == Lower(w)
  {
    var p := ExactPattern(w);
    SingleAtomsSpan(p, t, i, j);
    if j - i == |w| {
      if forall k :: 0 <= k < |w| ==> InClass(p[k].cls, t[i + k]) {
        assert forall k :: 0 <= k < |w| ==> Lower(t[i..j])[k] == Lower(w)[k];
      }
      if Lower(t[i..j]) == Lower(w) {
        forall k | 0 <= k < |w| ensures InClass(p[k].cls, t[i + k]) {
          assert Lower(t[i..j])[k] == Lower(w)[k];
        }
      }
    }
  }

  predicate IsSeparatorChar(c: char) { IsSpace(c) || c == '-' || c == '_' }

  predicate AllSeparators(g: string) { forall k :: 0 <= k < |g| ==> IsSeparatorChar(g[k]) }

  /** No ASCII capital folds to a separator, so a character that folds to one is one. */
  lemma FoldedSeparator(c: char, d: char)
    requires LowerChar(c) == LowerChar(d) && IsSeparatorChar(d)
    ensures IsSeparatorChar(c)
  {
  }

  /** The word with the gap `gaps[k]` put between its characters `k` and `k + 1`. */
  function Spread(w: string, gaps: seq<string>): string
    requires |w| >= 1 && |gaps| == |w| - 1
  {
    if |w| == 1 then w else [w[0]] + gaps[0] + Spread(w[1..], gaps[1..])
  }

  lemma OneThen(cls: CharClass, q: Pattern, t: string, a: nat, e: nat)
    requires a < e <= |t| && InClass(cls, t[a]) && Spans(q, t, a + 1, e)
    ensures Spans([Atom(cls, One)] + q, t, a, e)
  {
    assert ([Atom(cls, One)] + q)[1..] == q;
  }

  lemma StarThen(cls: CharClass, q: Pattern, t: string, a: nat, m: nat, e: nat)
    requires a <= m <= e <= |t| && AllIn(cls, t, a, m) && Spans(q, t, m, e)
    ensures Spans([Atom(cls, Star)] + q, t, a, e)
  {
    assert ([Atom(cls, Star)] + q)[1..] == q;
  }

  lemma PlusThen(cls: CharClass, q: Pattern, t: string, a: nat, m: nat, e: nat)
    requires a < m <= e <= |t| && AllIn(cls, t, a, m) && Spans(q, t, m, e)
    ensures Spans([Atom(cls, Plus)] + q, t, a, e)
  {
    assert ([Atom(cls, Plus)] + q)[1..] == q;
  }

  /** `x` and `y` are the same text up to ASCII case, as the `i` flag compares them. */
  predicate SameUpToCase(x: string, y: string)
  {
    |x| == |y| && forall k :: 0 <= k < |x| ==> LowerChar(x[k]) == LowerChar(y[k])
  }

  /** Agreement up to case is agreement once both sides are lower-cased. */
  lemma SameUpToCaseIsLower(x: string, y: string)
    ensures SameUpToCase(x, y) <==> Lower(x) == Lower(y)
  {
    if Lower(x) == Lower(y) {
      assert forall k :: 0 <= k < |x| ==> Lower(x)[k] == LowerChar(x[k]);
    }
  }

  /** Agreement up to case with `a + b` splits into agreement with each part. */
  lemma FoldedSplit(t: string, i: nat, m: nat, e: nat, a: string, b: string)
    requires m == i + |a| && e == m + |b| && e <= |t| && SameUpToCase(t[i..e], a + b)
    ensures SameUpToCase(t[i..m], a) && SameUpToCase(t[m..e], b)
  {
    forall k | 0 <= k < |a| ensures LowerChar(t[i..m][k]) == LowerChar(a[k]) {
      assert t[i..m][k] == t[i..e][k] && (a + b)[k] == a[k];
    }
    forall k | 0 <= k < |b| ensures LowerChar(t[m..e][k]) == LowerChar(b[k]) {
      assert t[m..e][k] == t[i..e][|a| + k] && (a + b)[|a| + k] == b[k];
    }
  }

  /** Agreement up to case with two adjacent parts is agreement with their join. */
  lemma FoldedJoin(t: string, i: nat, m: nat, e: nat, a: string, b: string)
    requires i <= m <= e <= |t| && SameUpToCase(t[i..m], a) && SameUpToCase(t[m..e], b)
    ensures SameUpToCase(t[i..e], a + b)
  {
    forall k | 0 <= k < e - i ensures LowerChar(t[i..e][k]) == LowerChar((a + b)[k]) {
      if k < m - i {
        assert t[i..e][k] == t[i..m][k] && (a + b)[k] == a[k];
      } else {
        assert t[i..e][k] == t[m..e][k - (m - i)] && (a + b)[k] == b[k - (m - i)];
      }
    }
  }

  /** A run of `Exactly(c)` is `c` repeated, up to case. */
  lemma FoldedRepeat(c: char, t: string, i: nat, m: nat)
    requires i <= m <= |t|
    ensures AllIn(Exactly(c), t, i, m) <==> SameUpToCase(t[i..m], Repeat(c, m - i))
  {
    if AllIn(Exactly(c), t, i, m) {
      forall k | 0 <= k < m - i ensures LowerChar(t[i..m][k]) == LowerChar(Repeat(c, m - i)[k]) {
        assert t[i..m][k] == t[i + k] && InClass(Exactly(c), t[i + k]);
      }
    }
    if SameUpToCase(t[i..m], Repeat(c, m - i)) {
      forall k | i <= k < m ensures InClass(Exactly(c), t[k]) {
        assert t[i..m][k - i] == t[k];
      }
    }
  }

  /** A run of the separator class is a gap of separators; a text agreeing up to case
      with a gap of separators is such a run. */
  lemma FoldedGap(t: string, a: nat, m: nat, g: string)
    requires a <= m <= |t|
    ensures AllIn(Separator, t, a, m) ==> AllSeparators(t[a..m])
    ensures AllSeparators(g) && SameUpToCase(t[a..m], g) ==> AllIn(Separator, t, a, m)
  {
    if AllIn(Separator, t, a, m) {
      forall k | 0 <= k < m - a ensures IsSeparatorChar(t[a..m][k]) {
        assert t[a..m][k] == t[a + k];
      }
    }
    if AllSeparators(g) && SameUpToCase(t[a..m], g) {
      forall k | a <= k < m ensures InClass(Separator, t[k]) {
        assert t[a..m][k - a] == t[k];
        FoldedSeparator(t[k], g[k - a]);
      }
    }
  }

  /** The first character, the first gap and the rest of a spread word, read off a text
      that spells it up to case. */
  lemma SpreadStep(w: string, gaps: seq<string>, t: string, i: nat, e: nat)
    requires |w| >= 2 && |gaps| == |w| - 1 && AllSeparators(gaps[0])
    requires i <= e <= |t| && SameUpToCase(t[i..e], Spread(w, gaps))
    ensures InClass(Exactly(w[0]), t[i])
    ensures AllIn(Separator, t, i + 1, i + 1 + |gaps[0]|)
    ensures i + 1 + |gaps[0]| <= e
    ensures SameUpToCase(t[i + 1 + |gaps[0]|..e], Spread(w[1..], gaps[1..]))
  {
    var g := gaps[0];
    var rest := Spread(w[1..], gaps[1..]);
    var m := i + 1 + |g|;
    assert Spread(w, gaps) == ([w[0]] + g) + rest;
    FoldedSplit(t, i, m, e, [w[0]] + g, rest);
    FoldedSplit(t, i, i + 1, m, [w[0]], g);
    assert t[i..i + 1][0] == t[i];
    FoldedGap(t, i + 1, m, g);
  }

  /** The separator pattern spans the word, up to case, with any runs of whitespace, `-`
      and `_` put between its characters. */
  lemma {:induction false} SeparatorAccepts(w: string, gaps: seq<string>, t: string, i: nat, e: nat)
    requires |w| >= 1 && |gaps| == |w| - 1
    requires forall g :: g in gaps ==> AllSeparators(g)
    requires i <= e <= |t| && SameUpToCase(t[i..e], Spread(w, gaps))
    ensures Spans(SeparatorPattern(w), t, i, e)
  {
    if |w| == 1 {
      assert t[i..e][0] == t[i];
      OneThen(Exactly(w[0]), [], t, i, i + 1);
      assert SeparatorPattern(w) == [Atom(Exactly(w[0]), One)] + [];
    } else {
      assert gaps[0] in gaps;
      SpreadStep(w, gaps, t, i, e);
      var m := i + 1 + |gaps[0]|;
      assert forall h :: h in gaps[1..] ==> h in gaps;
      SeparatorAccepts(w[1..], gaps[1..], t, m, e);
      StarThen(Separator, SeparatorPattern(w[1..]), t, i + 1, m, e);
      OneThen(Exactly(w[0]), [Atom(Separator, Star)] + SeparatorPattern(w[1..]), t, i, e);
      assert SeparatorPattern(w) ==
             [Atom(Exactly(w[0]), One)] + ([Atom(Separator, Star)] + SeparatorPattern(w[1..]));
    }
  }

  /** `t[i..e]` spells `w`, up to case, with runs of whitespace, `-` and `_` between its
      characters. */
  ghost predicate SpreadAt(w: string, t: string, i: nat, e: nat)
    requires |w| >= 1 && i <= e <= |t|
  {
    exists gaps: seq<string> ::
      |gaps| == |w| - 1 && (forall g :: g in gaps ==> AllSeparators(g)) &&
      SameUpToCase(t[i..e], Spread(w, gaps))
  }

  /** A span of the separator pattern of a word of two or more characters: the first
      character, then a separator run up to some `m`, then a span of the rest. */
  lemma SeparatorSpanStep(w: string, t: string, i: nat, e: nat)
    requires |w| >= 2 && i <= e <= |t| && Spans(SeparatorPattern(w), t, i, e)
    ensures i < e && InClass(Exactly(w[0]), t[i])
    ensures exists m :: i + 1 <= m <= e && AllIn(Separator, t, i + 1, m) &&
                        Spans(SeparatorPattern(w[1..]), t, m, e)
  {
    var p := SeparatorPattern(w);
    var q := SeparatorPattern(w[1..]);
    assert p == [Atom(Exactly(w[0]), One)] + ([Atom(Separator, Star)] + q);
    assert p[1..] == [Atom(Separator, Star)] + q && p[1..][1..] == q;
    assert Spans(p[1..], t, i + 1, e);
  }

  /** The first character, a separator run and a spread spelling of the rest make a
      spread spelling of the word. */
  lemma SpreadJoin(w: string, rest: seq<string>, t: string, i: nat, m: nat, e: nat)
    requires |w| >= 2 && |rest| == |w| - 2 && forall g :: g in rest ==> AllSeparators(g)
    requires i + 1 <= m <= e <= |t| && InClass(Exactly(w[0]), t[i])
    requires AllIn(Separator, t, i + 1, m) && SameUpToCase(t[m..e], Spread(w[1..], rest))
    ensures SpreadAt(w, t, i, e)
  {
    var g0 := t[i + 1..m];
    var gaps := [g0] + rest;
    assert gaps[1..] == rest;
    FoldedGap(t, i + 1, m, g0);
    assert t[i..i + 1][0] == t[i];
    FoldedJoin(t, i, i + 1, m, [w[0]], g0);
    FoldedJoin(t, i, m, e, [w[0]] + g0, Spread(w[1..], rest));
    assert Spread(w, gaps) == ([w[0]] + g0) + Spread(w[1..], rest);
    assert forall h :: h in gaps ==> h == g0 || h in rest;
  }

  /** Whatever the separator pattern spans is the word spread out by separator runs. */
  lemma {:induction false} SeparatorSpansOnly(w: string, t: string, i: nat, e: nat)
    requires |w| >= 1 && i <= e <= |t| && Spans(SeparatorPattern(w), t, i, e)
    ensures SpreadAt(w, t, i, e)
  {
    if |w| == 1 {
      var p := SeparatorPattern(w);
      assert p == [Atom(Exactly(w[0]), One)] && p[1..] == [];
      var gaps: seq<string> := [];
      assert Spread(w, gaps) == w;
      assert t[i..e][0] == t[i];
    } else {
      SeparatorSpanStep(w, t, i, e);
      var m :| i + 1 <= m <= e && AllIn(Separator, t, i + 1, m) &&
               Spans(SeparatorPattern(w[1..]), t, m, e);
      SeparatorSpansOnly(w[1..], t, m, e);
      var rest :| |rest| == |w| - 2 && (forall g :: g in rest ==> AllSeparators(g)) &&
                  SameUpToCase(t[m..e], Spread(w[1..], rest));
      SpreadJoin(w, rest, t, i, m, e);
    }
  }

  /** The separator pattern spans exactly the spread spellings of the word. */
  lemma SeparatorLanguage(w: string, t: string, i: nat, e: nat)
    requires |w| >= 1 && i <= e <= |t|
    ensures Spans(SeparatorPattern(w), t, i, e) <==> SpreadAt(w, t, i, e)
  {
    if Spans(SeparatorPattern(w), t, i, e) {
      SeparatorSpansOnly(w, t, i, e);
    }
    if SpreadAt(w, t, i, e) {
      var gaps :| |gaps| == |w| - 1 && (forall g :: g in gaps ==> AllSeparators(g)) &&
                  SameUpToCase(t[i..e], Spread(w, gaps));
      SeparatorAccepts(w, gaps, t, i, e);
    }
  }

  /** `c` written `n` times. */
  function Repeat(c: char, n: nat): (r: string)
    ensures |r| == n && forall k :: 0 <= k < n ==> r[k] == c
  {
    if n == 0 then [] else [c] + Repeat(c, n - 1)
  }

  /** The word with its character `k` written `counts[k]` times. */
  function Stretch(w: string, counts: seq<nat>): string
    requires |counts| == |w|
  {
    if w == [] then [] else Repeat(w[0], counts[0]) + Stretch(w[1..], counts[1..])
  }

  /** Repetition counts the repetition pattern allows: at least one copy of every ASCII
      letter and exactly one of every other character. */
  predicate AllowedCounts(w: string, counts: seq<nat>)
  {
    |counts| == |w| && forall k :: 0 <= k < |w| ==>
      if IsAsciiLetter(w[k]) then counts[k] >= 1 else counts[k] == 1
  }

  /** Counts are allowed for a word exactly when the first is allowed for its first
      character and the rest for the rest of it. */
  lemma AllowedCountsCons(w: string, counts: seq<nat>)
    requires |w| >= 1 && |counts| == |w|
    ensures AllowedCounts(w, counts) <==>
              (if IsAsciiLetter(w[0]) then counts[0] >= 1 else counts[0] == 1) &&
              AllowedCounts(w[1..], counts[1..])
  {
    assert forall k :: 1 <= k < |w| ==> w[k] == w[1..][k - 1] && counts[k] == counts[1..][k - 1];
  }

  /** The repetition pattern spans the word, up to case, with its letters repeated. */
  lemma {:induction false} RepetitionAccepts(w: string, counts: seq<nat>, t: string, i: nat, e: nat)
    requires AllowedCounts(w, counts)
    requires i <= e <= |t| && SameUpToCase(t[i..e], Stretch(w, counts))
    ensures Spans(RepetitionPattern(w), t, i, e)
  {
    if w != [] {
      var n := counts[0];
      var rest := Stretch(w[1..], counts[1..]);
      var m := i + n;
      assert Stretch(w, counts) == Repeat(w[0], n) + rest;
      AllowedCountsCons(w, counts);
      FoldedSplit(t, i, m, e, Repeat(w[0], n), rest);
      FoldedRepeat(w[0], t, i, m);
      RepetitionAccepts(w[1..], counts[1..], t, m, e);
      var q := RepetitionPattern(w[1..]);
      if IsAsciiLetter(w[0]) {
        PlusThen(Exactly(w[0]), q, t, i, m, e);
        assert RepetitionPattern(w) == [Atom(Exactly(w[0]), Plus)] + q;
      } else {
        OneThen(Exactly(w[0]), q, t, i, e);
        assert RepetitionPattern(w) == [Atom(Exactly(w[0]), One)] + q;
      }
    }
  }

  /** `t[i..e]` spells `w`, up to case, with its letters repeated. */
  ghost predicate StretchAt(w: string, t: string, i: nat, e: nat)
    requires i <= e <= |t|
  {
    exists counts: seq<nat> :: AllowedCounts(w, counts) && SameUpToCase(t[i..e], Stretch(w, counts))
  }

  /** Whatever the repetition pattern spans is the word with its letters repeated. */
  lemma {:induction false} RepetitionSpansOnly(w: string, t: string, i: nat, e: nat)
    requires i <= e <= |t| && Spans(RepetitionPattern(w), t, i, e)
    ensures StretchAt(w, t, i, e)
  {
    if w == [] {
      var counts: seq<nat> := [];
      assert Stretch(w, counts) == [] && t[i..e] == [];
    } else {
      var q := RepetitionPattern(w[1..]);
      assert RepetitionPattern(w)[1..] == q;
      var m: nat;
      if IsAsciiLetter(w[0]) {
        m :| i < m <= e && AllIn(Exactly(w[0]), t, i, m) && Spans(q, t, m, e);
      } else {
        m := i + 1;
        assert AllIn(Exactly(w[0]), t, i, m);
      }
      RepetitionSpansOnly(w[1..], t, m, e);
      var cs :| AllowedCounts(w[1..], cs) && SameUpToCase(t[m..e], Stretch(w[1..], cs));
      var counts := [m - i] + cs;
      assert counts[1..] == cs;
      AllowedCountsCons(w, counts);
      FoldedRepeat(w[0], t, i, m);
      FoldedJoin(t, i, m, e, Repeat(w[0], m - i), Stretch(w[1..], cs));
      assert Stretch(w, counts) == Repeat(w[0], m - i) + Stretch(w[1..], cs);
    }
  }

  /** The repetition pattern spans exactly the stretched spellings of the word. */
  lemma RepetitionLanguage(w: string, t: string, i: nat, e: nat)
    requires i <= e <= |t|
    ensures Spans(RepetitionPattern(w), t, i, e) <==> StretchAt(w, t, i, e)
  {
    if Spans(RepetitionPattern(w), t, i, e) {
      RepetitionSpansOnly(w, t, i, e);
    }
    if StretchAt(w, t, i, e) {
      var counts :| AllowedCounts(w, counts) && SameUpToCase(t[i..e], Stretch(w, counts));
      RepetitionAccepts(w, counts, t, i, e);
    }
  }
}
