/** The fragment of JavaScript regular expressions that the profanity filter builds:
    `\b a1 a2 ... an \b` with flags `gi`, where every atom is a character class (a
    literal character, a bracket class such as `[a@4]`, or the separator class
    `[\s\-_]`) under the quantifier "once", `+` or `*`.

    `MatchRest` follows the backtracking order of the JavaScript engine (greedy
    quantifiers try the longest run first), so it finds the same match the engine finds;
    `Spans` is the declarative meaning of a pattern, and the two are proved to agree.
    `HitsFrom` and `ReplaceFrom` are the left-to-right scans of `String.prototype.match`
    and `String.prototype.replace` for a global expression. */
module Regex {
  import opened JsText

  datatype CharClass = Exactly(c: char) | OneOf(cs: string) | Separator

  datatype Quant = One | Plus | Star

  datatype Atom = Atom(cls: CharClass, q: Quant)

  /** The atoms between the two `\b` assertions. */
  type Pattern = seq<Atom>

  /** Case-insensitive class membership: both sides are compared after case folding. */
  predicate InClass(cls: CharClass, ch: char) {
    match cls
    case Exactly(c) => LowerChar(ch) == LowerChar(c)
    case OneOf(cs) => LowerChar(ch) in Lower(cs)
    case Separator => IsSpace(ch) || ch == '-' || ch == '_'
  }

  /** `\b` at position `i`: exactly one of the neighbouring characters is a `\w` character. */
  predicate Boundary(t: string, i: nat)
    requires i <= |t|
  {
    (i > 0 && IsWordChar(t[i - 1])) != (i < |t| && IsWordChar(t[i]))
  }

  predicate AllIn(cls: CharClass, t: string, i: nat, j: nat)
    requires i <= j <= |t|
  {
    forall k :: i <= k < j ==> InClass(cls, t[k])
  }

  /** The end of the longest run of characters of `cls` starting at `i`. */
  function RunEnd(cls: CharClass, t: string, i: nat): (e: nat)
    requires i <= |t|
    ensures i <= e <= |t| && AllIn(cls, t, i, e)
    ensures e < |t| ==> !InClass(cls, t[e])
    decreases |t| - i
  {
    if i < |t| && InClass(cls, t[i]) then RunEnd(cls, t, i + 1) else i
  }

  /** The end of the match of `p` followed by `\b`, tried at position `i` in the engine's
      order, or None. */
  function MatchRest(p: Pattern, t: string, i: nat): (r: Option<nat>)
    requires i <= |t|
    ensures r.Some? ==> i <= r.value <= |t|
    decreases |p|, 0, 0
  {
    if p == [] then (if Boundary(t, i) then Some(i) else None)
    else
      var a := p[0];
      match a.q
      case One => if i < |t| && InClass(a.cls, t[i]) then MatchRest(p[1..], t, i + 1) else None
      case Plus =>
        var e := RunEnd(a.cls, t, i);
        if e == i then None else Backtrack(p[1..], t, i + 1, e)
      case Star => Backtrack(p[1..], t, i, RunEnd(a.cls, t, i))
  }

  /** Tries the rest of the pattern after a greedy run, longest run first: at `k`, then
      `k - 1`, down to `lo`. */
  function Backtrack(rest: Pattern, t: string, lo: nat, k: nat): (r: Option<nat>)
    requires lo <= k <= |t|
    ensures r.Some? ==> lo <= r.value <= |t|
    decreases |rest|, 1, k - lo
  {
    match MatchRest(rest, t, k)
    case Some(j) => Some(j)
    case None => if k == lo then None else Backtrack(rest, t, lo, k - 1)
  }

  /** The match of `\b p \b` that starts at `i`, if any. */
  function MatchAt(p: Pattern, t: string, i: nat): (r: Option<nat>)
    requires i <= |t|
    ensures r.Some? ==> i <= r.value <= |t|
  {
    if Boundary(t, i) then MatchRest(p, t, i) else None
  }

  /** `t[i..j]` is in the language of `p`. */
  ghost predicate Spans(p: Pattern, t: string, i: nat, j: nat)
    requires i <= j <= |t|
    decreases |p|
  {
    if p == [] then i == j
    else
      var a := p[0];
      match a.q
      case One => i < j && InClass(a.cls, t[i]) && Spans(p[1..], t, i + 1, j)
      case Plus => exists m :: i < m <= j && AllIn(a.cls, t, i, m) && Spans(p[1..], t, m, j)
      case Star => exists m :: i <= m <= j && AllIn(a.cls, t, i, m) && Spans(p[1..], t, m, j)
  }

  /** `t[i..j]` is a word-bounded occurrence of `p`. */
  ghost predicate MatchesAt(p: Pattern, t: string, i: nat, j: nat)
  {
    i <= j <= |t| && Boundary(t, i) && Spans(p, t, i, j) && Boundary(t, j)
  }

  lemma {:induction false} MatchRestSound(p: Pattern, t: string, i: nat)
    requires i <= |t|
    ensures MatchRest(p, t, i).Some? ==>
              Spans(p, t, i, MatchRest(p, t, i).value) && Boundary(t, MatchRest(p, t, i).value)
    decreases |p|, 0, 0
  {
    if p != [] {
      var a := p[0];
      match a.q
      case One =>
        if i < |t| && InClass(a.cls, t[i]) { MatchRestSound(p[1..], t, i + 1); }
      case Plus =>
        var e := RunEnd(a.cls, t, i);
        if e > i {
          BacktrackSound(p[1..], t, i + 1, e);
          if MatchRest(p, t, i).Some? {
            var j := MatchRest(p, t, i).value;
            var m :| i + 1 <= m <= e && m <= j && Spans(p[1..], t, m, j) && Boundary(t, j);
            assert AllIn(a.cls, t, i, m);
          }
        }
      case Star =>
        var e := RunEnd(a.cls, t, i);
        BacktrackSound(p[1..], t, i, e);
        if MatchRest(p, t, i).Some? {
          var j := MatchRest(p, t, i).value;
          var m :| i <= m <= e && m <= j && Spans(p[1..], t, m, j) && Boundary(t, j);
          assert AllIn(a.cls, t, i, m);
        }
    }
  }

  /** Some split point `m` in `[lo, k]` starts a word-bounded span of `rest` ending at `j`. */
  ghost predicate SpansFrom(rest: Pattern, t: string, lo: nat, k: nat, j: nat)
    requires lo <= k <= |t| && j <= |t|
  {
    exists m :: lo <= m <= k && m <= j && Spans(rest, t, m, j) && Boundary(t, j)
  }

  lemma {:induction false} BacktrackSound(rest: Pattern, t: string, lo: nat, k: nat)
    requires lo <= k <= |t|
    ensures Backtrack(rest, t, lo, k).Some? ==>
              SpansFrom(rest, t, lo, k, Backtrack(rest, t, lo, k).value)
    decreases |rest|, 1, k - lo
  {
    MatchRestSound(rest, t, k);
    if Backtrack(rest, t, lo, k).Some? {
      var j := Backtrack(rest, t, lo, k).value;
      if MatchRest(rest, t, k).Some? {
        assert k <= j && Spans(rest, t, k, j) && Boundary(t, j);
      } else {
        assert k > lo && Backtrack(rest, t, lo, k) == Backtrack(rest, t, lo, k - 1);
        BacktrackSound(rest, t, lo, k - 1);
        var m :| lo <= m <= k - 1 && m <= j && Spans(rest, t, m, j) && Boundary(t, j);
        assert lo <= m <= k && m <= j && Spans(rest, t, m, j) && Boundary(t, j);
      }
    }
  }

  lemma {:induction false} RunEndIsLongest(cls: CharClass, t: string, i: nat, m: nat)
    requires i <= m <= |t| && AllIn(cls, t, i, m)
    ensures m <= RunEnd(cls, t, i)
    decreases |t| - i
  {
    if i < m {
      RunEndIsLongest(cls, t, i + 1, m);
    }
  }

  lemma {:induction false} BacktrackComplete(rest: Pattern, t: string, lo: nat, k: nat, m: nat)
    requires lo <= m <= k <= |t| && MatchRest(rest, t, m).Some?
    ensures Backtrack(rest, t, lo, k).Some?
    decreases k - lo
  {
    if MatchRest(rest, t, k).None? {
      assert m < k;
      BacktrackComplete(rest, t, lo, k - 1, m);
    }
  }

  lemma {:induction false} MatchRestComplete(p: Pattern, t: string, i: nat, j: nat)
    requires i <= j <= |t| && Spans(p, t, i, j) && Boundary(t, j)
    ensures MatchRest(p, t, i).Some?
    decreases |p|, 0
  {
    if p != [] {
      var a := p[0];
      match a.q
      case One =>
        MatchRestComplete(p[1..], t, i + 1, j);
      case Plus =>
        var m :| i < m <= j && AllIn(a.cls, t, i, m) && Spans(p[1..], t, m, j);
        GreedyComplete(a.cls, p[1..], t, i, i + 1, m, j);
      case Star =>
        var m :| i <= m <= j && AllIn(a.cls, t, i, m) && Spans(p[1..], t, m, j);
        GreedyComplete(a.cls, p[1..], t, i, i, m, j);
    }
  }

  /** After a run of `cls` from `i`, the greedy search down to `lo` finds the rest of the
      pattern when some run end `m >= lo` lets the rest match. */
  lemma {:induction false} GreedyComplete(cls: CharClass, rest: Pattern, t: string, i: nat, lo: nat, m: nat, j: nat)
    requires i <= lo <= m <= j <= |t| && AllIn(cls, t, i, m)
    requires Spans(rest, t, m, j) && Boundary(t, j)
    ensures lo <= RunEnd(cls, t, i) && Backtrack(rest, t, lo, RunEnd(cls, t, i)).Some?
    decreases |rest|, 1
  {
    RunEndIsLongest(cls, t, i, m);
    MatchRestComplete(rest, t, m, j);
    BacktrackComplete(rest, t, lo, RunEnd(cls, t, i), m);
  }

  /** The engine finds a match at `i` exactly when a word-bounded occurrence of the
      pattern starts at `i`, and what it finds is such an occurrence. */
  lemma MatchAtCorrect(p: Pattern, t: string, i: nat)
    requires i <= |t|
    ensures MatchAt(p, t, i).Some? ==> MatchesAt(p, t, i, MatchAt(p, t, i).value)
    ensures (exists j :: MatchesAt(p, t, i, j)) ==> MatchAt(p, t, i).Some?
  {
    MatchRestSound(p, t, i);
    if exists j :: MatchesAt(p, t, i, j) {
      var j :| MatchesAt(p, t, i, j);
      MatchRestComplete(p, t, i, j);
    }
  }

  /** A match found by a global scan: `t[start..end]`. */
  datatype Hit = Hit(start: nat, end: nat)

  /** The hits of a global scan, ordered, inside `t[lo..]`, and none overlapping. */
  ghost predicate Ordered(hs: seq<Hit>, lo: nat, n: nat)
  {
    hs == [] || (lo <= hs[0].start <= hs[0].end <= n && Ordered(hs[1..], hs[0].end, n))
  }

  lemma {:induction false} OrderedWeaken(hs: seq<Hit>, lo: nat, lo': nat, n: nat)
    requires Ordered(hs, lo, n) && lo' <= lo
    ensures Ordered(hs, lo', n)
  {
  }

  /** The matches of a global scan from position `i`: at each position the engine tries
      `\b p \b`; after a match it continues at its end (one further on after an empty
      match), otherwise at the next position. */
  function HitsFrom(p: Pattern, t: string, i: nat): (hs: seq<Hit>)
    requires i <= |t|
    ensures forall h :: h in hs ==> i <= h.start <= h.end <= |t|
    decreases |t| - i
  {
    match MatchAt(p, t, i)
    case Some(j) =>
      if j > i then [Hit(i, j)] + HitsFrom(p, t, j)
      else [Hit(i, i)] + (if i < |t| then HitsFrom(p, t, i + 1) else [])
    case None => if i < |t| then HitsFrom(p, t, i + 1) else []
  }

  lemma {:induction false} HitsOrdered(p: Pattern, t: string, i: nat)
    requires i <= |t|
    ensures Ordered(HitsFrom(p, t, i), i, |t|)
    decreases |t| - i
  {
    match MatchAt(p, t, i)
    case Some(j) =>
      if j > i {
        HitsOrdered(p, t, j);
      } else if i < |t| {
        HitsOrdered(p, t, i + 1);
        OrderedWeaken(HitsFrom(p, t, i + 1), i + 1, i, |t|);
      }
    case None =>
      if i < |t| {
        HitsOrdered(p, t, i + 1);
        OrderedWeaken(HitsFrom(p, t, i + 1), i + 1, i, |t|);
      }
  }

  /** Every hit of the scan is a word-bounded occurrence of the pattern. */
  lemma {:induction false} HitsSound(p: Pattern, t: string, i: nat)
    requires i <= |t|
    ensures forall h :: h in HitsFrom(p, t, i) ==> MatchesAt(p, t, h.start, h.end)
    decreases |t| - i
  {
    MatchAtCorrect(p, t, i);
    match MatchAt(p, t, i)
    case Some(j) =>
      if j > i { HitsSound(p, t, j); } else if i < |t| { HitsSound(p, t, i + 1); }
    case None =>
      if i < |t| { HitsSound(p, t, i + 1); }
  }

  /** The scan finds nothing exactly when no position from `i` on starts a match. */
  lemma {:induction false} HitsEmptyIff(p: Pattern, t: string, i: nat)
    requires i <= |t|
    ensures HitsFrom(p, t, i) == [] <==> forall k :: i <= k <= |t| ==> MatchAt(p, t, k).None?
    decreases |t| - i
  {
    if i < |t| {
      HitsEmptyIff(p, t, i + 1);
    }
  }

  /** The scan of a whole text finds nothing exactly when the text holds no word-bounded
      occurrence of the pattern anywhere. */
  lemma NoHitsIffNoOccurrence(p: Pattern, t: string)
    ensures HitsFrom(p, t, 0) == [] <==> forall i: nat, j: nat :: !MatchesAt(p, t, i, j)
  {
    HitsEmptyIff(p, t, 0);
    if HitsFrom(p, t, 0) == [] {
      forall i: nat, j: nat ensures !MatchesAt(p, t, i, j) {
        if i <= |t| { MatchAtCorrect(p, t, i); }
      }
    } else {
      var i :| 0 <= i <= |t| && MatchAt(p, t, i).Some?;
      MatchAtCorrect(p, t, i);
      assert MatchesAt(p, t, i, MatchAt(p, t, i).value);
    }
  }

  /** The matched substrings: what `t.match(regex)` returns (an empty list for null). */
  function Substrings(t: string, hs: seq<Hit>): (ms: seq<string>)
    requires forall h :: h in hs ==> h.start <= h.end <= |t|
    ensures |ms| == |hs|
    ensures forall k :: 0 <= k < |hs| ==> ms[k] == t[hs[k].start..hs[k].end]
  {
    if hs == [] then [] else [t[hs[0].start..hs[0].end]] + Substrings(t, hs[1..])
  }

  function MatchAll(p: Pattern, t: string): seq<string> {
    Substrings(t, HitsFrom(p, t, 0))
  }

  /** `t.replace(regex, r)` from position `i` on, for a replacement without `$`. */
  function ReplaceFrom(p: Pattern, t: string, i: nat, r: string): string
    requires i <= |t|
    decreases |t| - i
  {
    match MatchAt(p, t, i)
    case Some(j) =>
      if j > i then r + ReplaceFrom(p, t, j, r)
      else r + (if i < |t| then [t[i]] + ReplaceFrom(p, t, i + 1, r) else [])
    case None => if i < |t| then [t[i]] + ReplaceFrom(p, t, i + 1, r) else []
  }

  function ReplaceAll(p: Pattern, t: string, r: string): string {
    ReplaceFrom(p, t, 0, r)
  }

  /** The text with the spans of `hs` cut out and `r` put in their place. */
  ghost function Splice(t: string, hs: seq<Hit>, i: nat, r: string): string
    requires i <= |t| && Ordered(hs, i, |t|)
    decreases |hs|
  {
    if hs == [] then t[i..] else t[i..hs[0].start] + r + Splice(t, hs[1..], hs[0].end, r)
  }

  lemma {:induction false} SpliceStep(t: string, hs: seq<Hit>, i: nat, r: string)
    requires i < |t| && Ordered(hs, i + 1, |t|)
    ensures Ordered(hs, i, |t|)
    ensures Splice(t, hs, i, r) == [t[i]] + Splice(t, hs, i + 1, r)
  {
    OrderedWeaken(hs, i + 1, i, |t|);
    if hs == [] {
      assert t[i..] == [t[i]] + t[i + 1..];
    } else {
      var s, rest := hs[0].start, Splice(t, hs[1..], hs[0].end, r);
      var head := t[i + 1..s];
      assert Splice(t, hs, i + 1, r) == head + r + rest;
      assert t[i..s] == [t[i]] + head;
      assert ([t[i]] + head) + r + rest == [t[i]] + (head + r + rest);
    }
  }

  /** Global replacement cuts out exactly the hits of the global scan and puts the
      replacement in their place, keeping the text between them. */
  lemma {:induction false} ReplaceIsSplice(p: Pattern, t: string, i: nat, r: string)
    requires i <= |t|
    ensures Ordered(HitsFrom(p, t, i), i, |t|)
    ensures ReplaceFrom(p, t, i, r) == Splice(t, HitsFrom(p, t, i), i, r)
    decreases |t| - i
  {
    HitsOrdered(p, t, i);
    var m := MatchAt(p, t, i);
    if m.Some? && m.value > i {
      ReplaceIsSplice(p, t, m.value, r);
      SpliceAfterHit(p, t, i, m.value, r);
    } else if i < |t| {
      ReplaceIsSplice(p, t, i + 1, r);
      SpliceAfterStep(p, t, i, r);
    } else if m.Some? {
      assert HitsFrom(p, t, i) == [Hit(i, i)];
    }
  }

  lemma HitsAfterHit(p: Pattern, t: string, i: nat, j: nat)
    requires i < j <= |t| && MatchAt(p, t, i) == Some(j)
    ensures HitsFrom(p, t, i) == [Hit(i, j)] + HitsFrom(p, t, j)
  {
  }

  lemma ReplaceAfterHit(p: Pattern, t: string, i: nat, j: nat, r: string)
    requires i < j <= |t| && MatchAt(p, t, i) == Some(j)
    ensures ReplaceFrom(p, t, i, r) == r + ReplaceFrom(p, t, j, r)
  {
  }

  lemma SpliceCons(t: string, h: Hit, rest: seq<Hit>, i: nat, r: string)
    requires i <= |t| && Ordered([h] + rest, i, |t|)
    ensures Ordered(rest, h.end, |t|)
    ensures Splice(t, [h] + rest, i, r) == t[i..h.start] + r + Splice(t, rest, h.end, r)
  {
    assert ([h] + rest)[1..] == rest;
  }

  lemma SpliceAfterHit(p: Pattern, t: string, i: nat, j: nat, r: string)
    requires i < j <= |t| && MatchAt(p, t, i) == Some(j)
    requires Ordered(HitsFrom(p, t, i), i, |t|)
    requires Ordered(HitsFrom(p, t, j), j, |t|)
    requires ReplaceFrom(p, t, j, r) == Splice(t, HitsFrom(p, t, j), j, r)
    ensures ReplaceFrom(p, t, i, r) == Splice(t, HitsFrom(p, t, i), i, r)
  {
    HitsAfterHit(p, t, i, j);
    ReplaceAfterHit(p, t, i, j, r);
    SpliceCons(t, Hit(i, j), HitsFrom(p, t, j), i, r);
    assert t[i..i] == [];
  }

  lemma SpliceAfterStep(p: Pattern, t: string, i: nat, r: string)
    requires i < |t| && (MatchAt(p, t, i).None? || MatchAt(p, t, i).value == i)
    requires Ordered(HitsFrom(p, t, i), i, |t|)
    requires Ordered(HitsFrom(p, t, i + 1), i + 1, |t|)
    requires ReplaceFrom(p, t, i + 1, r) == Splice(t, HitsFrom(p, t, i + 1), i + 1, r)
    ensures ReplaceFrom(p, t, i, r) == Splice(t, HitsFrom(p, t, i), i, r)
  {
    var rest := HitsFrom(p, t, i + 1);
    HitsOrdered(p, t, i + 1);
    SpliceStep(t, rest, i, r);
    var hs := HitsFrom(p, t, i);
    if MatchAt(p, t, i).None? {
      assert hs == rest;
      assert ReplaceFrom(p, t, i, r) == [t[i]] + ReplaceFrom(p, t, i + 1, r);
    } else {
      assert hs == [Hit(i, i)] + rest;
      assert hs[1..] == rest;
      assert ReplaceFrom(p, t, i, r) == r + ([t[i]] + ReplaceFrom(p, t, i + 1, r));
      assert Splice(t, hs, i, r) == t[i..i] + r + Splice(t, rest, i, r);
    }
  }

  /** A global replacement with nothing to match leaves the text as it is. */
  lemma ReplaceWithoutHits(p: Pattern, t: string, r: string)
    requires HitsFrom(p, t, 0) == []
    ensures ReplaceAll(p, t, r) == t
  {
    ReplaceIsSplice(p, t, 0, r);
  }

  /** Two texts that agree up to ASCII case. */
  predicate SameFold(t: string, u: string) {
    |t| == |u| && forall k :: 0 <= k < |t| ==> LowerChar(t[k]) == LowerChar(u[k])
  }

  lemma FoldKeepsClasses(cls: CharClass, c: char, d: char)
    requires LowerChar(c) == LowerChar(d)
    ensures InClass(cls, c) == InClass(cls, d)
    ensures IsWordChar(c) == IsWordChar(d)
  {
  }

  lemma {:induction false} RunEndFold(cls: CharClass, t: string, u: string, i: nat)
    requires SameFold(t, u) && i <= |t|
    ensures RunEnd(cls, t, i) == RunEnd(cls, u, i)
    decreases |t| - i
  {
    if i < |t| {
      FoldKeepsClasses(cls, t[i], u[i]);
      RunEndFold(cls, t, u, i + 1);
    }
  }

  lemma {:induction false} BoundaryFold(t: string, u: string, i: nat)
    requires SameFold(t, u) && i <= |t|
    ensures Boundary(t, i) == Boundary(u, i)
  {
    if i > 0 { FoldKeepsClasses(Separator, t[i - 1], u[i - 1]); }
    if i < |t| { FoldKeepsClasses(Separator, t[i], u[i]); }
  }

  lemma {:induction false} MatchRestFold(p: Pattern, t: string, u: string, i: nat)
    requires SameFold(t, u) && i <= |t|
    ensures MatchRest(p, t, i) == MatchRest(p, u, i)
    decreases |p|, 0, 0
  {
    if p == [] {
      BoundaryFold(t, u, i);
    } else {
      var a := p[0];
      match a.q
      case One =>
        if i < |t| {
          FoldKeepsClasses(a.cls, t[i], u[i]);
          MatchRestFold(p[1..], t, u, i + 1);
        }
      case Plus =>
        RunEndFold(a.cls, t, u, i);
        var e := RunEnd(a.cls, t, i);
        if e > i { BacktrackFold(p[1..], t, u, i + 1, e); }
      case Star =>
        RunEndFold(a.cls, t, u, i);
        BacktrackFold(p[1..], t, u, i, RunEnd(a.cls, t, i));
    }
  }

  lemma {:induction false} BacktrackFold(rest: Pattern, t: string, u: string, lo: nat, k: nat)
    requires SameFold(t, u) && lo <= k <= |t|
    ensures Backtrack(rest, t, lo, k) == Backtrack(rest, u, lo, k)
    decreases |rest|, 1, k - lo
  {
    MatchRestFold(rest, t, u, k);
    if k > lo { BacktrackFold(rest, t, u, lo, k - 1); }
  }

  /** Matching is case-insensitive: texts that agree up to case have the same hits. */
  lemma {:induction false} HitsFold(p: Pattern, t: string, u: string, i: nat)
    requires SameFold(t, u) && i <= |t|
    ensures HitsFrom(p, t, i) == HitsFrom(p, u, i)
    decreases |t| - i
  {
    BoundaryFold(t, u, i);
    MatchRestFold(p, t, u, i);
    match MatchAt(p, t, i)
    case Some(j) =>
      if j > i { HitsFold(p, t, u, j); } else if i < |t| { HitsFold(p, t, u, i + 1); }
    case None =>
      if i < |t| { HitsFold(p, t, u, i + 1); }
  }
}
