/** The JavaScript string built-ins the application relies on: character classes of its
    regular expressions, case mapping, trim, split and number formatting, plus the
    de-duplication done by `[...new Set(xs)]`. */
module JsText {

  datatype Option<+T> = None | Some(value: T)

  /** JavaScript's WhiteSpace and LineTerminator characters: the set matched by `\s`,
      removed by `trim()` and used as separator by `split(/\s+/)`. */
  predicate IsSpace(c: char) {
    c == '\t' || c == '\n' || c == '\U{000B}' || c == '\U{000C}' || c == '\r' || c == ' '
    || c == '\U{00A0}' || c == '\U{1680}' || ('\U{2000}' <= c <= '\U{200A}')
    || c == '\U{2028}' || c == '\U{2029}' || c == '\U{202F}' || c == '\U{205F}'
    || c == '\U{3000}' || c == '\U{FEFF}'
  }

  /** The characters that `.` does not match in a regular expression. */
  predicate IsLineTerminator(c: char) {
    c == '\n' || c == '\r' || c == '\U{2028}' || c == '\U{2029}'
  }

  predicate IsAsciiUpper(c: char) { 'A' <= c <= 'Z' }
  predicate IsAsciiLower(c: char) { 'a' <= c <= 'z' }
  predicate IsAsciiLetter(c: char) { IsAsciiUpper(c) || IsAsciiLower(c) }
  predicate IsDigit(c: char) { '0' <= c <= '9' }

  /** `\w`: ASCII letters, digits and underscore. */
  predicate IsWordChar(c: char) { IsAsciiLetter(c) || IsDigit(c) || c == '_' }

  /** Characters of the Thai block U+0E00..U+0E7F. */
  predicate IsThai(c: char) { '\U{0E00}' <= c <= '\U{0E7F}' }

  function LowerChar(c: char): (r: char)
    ensures !IsAsciiUpper(r)
    ensures IsAsciiUpper(c) ==> IsAsciiLower(r) && r as int == c as int + 32
    ensures !IsAsciiUpper(c) ==> r == c
  {
    if IsAsciiUpper(c) then (c as int + 32) as char else c
  }

  function UpperChar(c: char): (r: char)
    ensures !IsAsciiLower(r)
    ensures IsAsciiLower(c) ==> IsAsciiUpper(r) && r as int + 32 == c as int
    ensures !IsAsciiLower(c) ==> r == c
  {
    if IsAsciiLower(c) then (c as int - 32) as char else c
  }

  /** `toLowerCase()`, for the ASCII range. */
  function Lower(s: string): (r: string)
    ensures |r| == |s|
    ensures forall i :: 0 <= i < |s| ==> r[i] == LowerChar(s[i])
  {
    if s == [] then [] else [LowerChar(s[0])] + Lower(s[1..])
  }

  /** `toUpperCase()`, for the ASCII range. */
  function Upper(s: string): (r: string)
    ensures |r| == |s|
    ensures forall i :: 0 <= i < |s| ==> r[i] == UpperChar(s[i])
  {
    if s == [] then [] else [UpperChar(s[0])] + Upper(s[1..])
  }

  lemma LowerIdempotent(s: string)
    ensures Lower(Lower(s)) == Lower(s)
  {
  }

  lemma LowerOfSlice(s: string, i: nat, j: nat)
    requires i <= j <= |s|
    ensures Lower(s[i..j]) == Lower(s)[i..j]
  {
  }

  /** Length of the leading run of whitespace of `s`. */
  function LeadingSpaces(s: string): (n: nat)
    ensures n <= |s|
    ensures forall k :: 0 <= k < n ==> IsSpace(s[k])
    ensures n < |s| ==> !IsSpace(s[n])
  {
    if s != [] && IsSpace(s[0]) then 1 + LeadingSpaces(s[1..]) else 0
  }

  /** Length of the trailing run of whitespace of `s`. */
  function TrailingSpaces(s: string): (n: nat)
    ensures n <= |s|
    ensures forall k :: |s| - n <= k < |s| ==> IsSpace(s[k])
    ensures n < |s| ==> !IsSpace(s[|s| - n - 1])
  {
    if s != [] && IsSpace(s[|s| - 1]) then 1 + TrailingSpaces(s[..|s| - 1]) else 0
  }

  /** `trim()`: the text between the leading and the trailing whitespace runs. */
  function Trim(s: string): (r: string)
    ensures |r| <= |s|
    ensures r == [] || (!IsSpace(r[0]) && !IsSpace(r[|r| - 1]))
    ensures LeadingSpaces(s) + |r| <= |s| && r == s[LeadingSpaces(s)..LeadingSpaces(s) + |r|]
    ensures forall k :: LeadingSpaces(s) + |r| <= k < |s| ==> IsSpace(s[k])
  {
    var a := LeadingSpaces(s);
    var rest := s[a..];
    var b := TrailingSpaces(rest);
    var r := rest[..|rest| - b];
    assert r == s[a..a + |r|];
    assert r != [] ==> !IsSpace(r[0]) by {
      if r != [] && b < |rest| { assert r[0] == s[a]; }
    }
    r
  }

  /** `s` consists only of whitespace. */
  predicate Blank(s: string) {
    forall k :: 0 <= k < |s| ==> IsSpace(s[k])
  }

  /** A string trims to the empty string exactly when it consists only of whitespace. */
  lemma TrimBlank(s: string)
    ensures Trim(s) == [] <==> Blank(s)
  {
    if Trim(s) == [] {
      assert forall k :: 0 <= k < LeadingSpaces(s) ==> IsSpace(s[k]);
    }
  }

  /** The maximal runs of whitespace of `s`, in order. */
  function SpaceRuns(s: string): (g: seq<string>)
    ensures forall i :: 0 <= i < |g| ==> g[i] != [] && Blank(g[i])
    decreases |s|
  {
    if s == [] then []
    else if IsSpace(s[0]) then
      var n := LeadingSpaces(s);
      [s[..n]] + SpaceRuns(s[n..])
    else SpaceRuns(s[1..])
  }

  /** The pieces `ps` with the separators `gs` between them. */
  function Interleave(ps: seq<string>, gs: seq<string>): string
    requires |ps| == |gs| + 1
  {
    if gs == [] then ps[0] else ps[0] + gs[0] + Interleave(ps[1..], gs[1..])
  }

  /** `split(/\s+/)`: the pieces between maximal runs of whitespace, including the empty
      pieces produced by whitespace at either end. Where the pieces break is stated by
      `SplitSpacesBreaks`. */
  function SplitSpaces(s: string): (r: seq<string>)
    ensures |r| >= 1
    ensures forall p :: p in r ==> forall k :: 0 <= k < |p| ==> !IsSpace(p[k])
    decreases |s|
  {
    if s == [] then [""]
    else if IsSpace(s[0]) then
      var n := LeadingSpaces(s);
      [""] + SplitSpaces(s[n..])
    else
      var rest := SplitSpaces(s[1..]);
      [[s[0]] + rest[0]] + rest[1..]
  }

  /** The text is the pieces of `split(/\s+/)` with its whitespace runs between them, and
      only the first and last piece can be empty, so every break falls on a whole run. */
  lemma {:induction false} SplitSpacesBreaks(s: string)
    ensures var r := SplitSpaces(s);
      && |r| == |SpaceRuns(s)| + 1 && Interleave(r, SpaceRuns(s)) == s
      && (forall i :: 0 < i < |r| - 1 ==> r[i] != [])
    decreases |s|
  {
    if s != [] && IsSpace(s[0]) {
      var n := LeadingSpaces(s);
      SplitSpacesBreaks(s[n..]);
      assert SplitSpaces(s) == [""] + SplitSpaces(s[n..]);
      if n < |s| { SplitSpacesHead(s[n..]); }
      SpaceRunStep(s, n, SplitSpaces(s[n..]));
    } else if s != [] {
      SplitSpacesBreaks(s[1..]);
      var rest := SplitSpaces(s[1..]);
      assert SplitSpaces(s) == [[s[0]] + rest[0]] + rest[1..];
      CharStep(s, rest);
    }
  }

  /** A text that starts with a non-whitespace character has a non-empty first piece. */
  lemma SplitSpacesHead(s: string)
    requires s != [] && !IsSpace(s[0])
    ensures SplitSpaces(s)[0] != []
  {
  }

  /** Pieces without whitespace, with only the first and last possibly empty. */
  predicate SplitShape(r: seq<string>)
  {
    && |r| >= 1
    && (forall p :: p in r ==> forall k :: 0 <= k < |p| ==> !IsSpace(p[k]))
    && (forall i :: 0 < i < |r| - 1 ==> r[i] != [])
  }

  /** The step of `SplitSpaces` over a leading whitespace run `s[..n]`. */
  lemma SpaceRunStep(s: string, n: nat, rest: seq<string>)
    requires s != [] && IsSpace(s[0]) && n == LeadingSpaces(s)
    requires SplitShape(rest)
    requires |rest| == |SpaceRuns(s[n..])| + 1 && Interleave(rest, SpaceRuns(s[n..])) == s[n..]
    requires n < |s| ==> rest[0] != []
    requires n == |s| ==> |rest| == 1
    ensures var r := [""] + rest;
      SplitShape(r) && |r| == |SpaceRuns(s)| + 1 && Interleave(r, SpaceRuns(s)) == s
  {
    var gs := SpaceRuns(s[n..]);
    SpaceRunsOfRun(s);
    InterleaveCons("", s[..n], rest, gs);
    SplitAtRun(s, n);
    EmptyFrontShape(rest);
  }

  /** `SpaceRuns` over a leading whitespace run. */
  lemma SpaceRunsOfRun(s: string)
    requires s != [] && IsSpace(s[0])
    ensures SpaceRuns(s) == [s[..LeadingSpaces(s)]] + SpaceRuns(s[LeadingSpaces(s)..])
  {
  }

  /** One more piece and separator in front. */
  lemma InterleaveCons(p: string, g: string, ps: seq<string>, gs: seq<string>)
    requires |ps| == |gs| + 1
    ensures Interleave([p] + ps, [g] + gs) == p + g + Interleave(ps, gs)
  {
    assert ([p] + ps)[1..] == ps && ([g] + gs)[1..] == gs;
  }

  lemma SplitAtRun(s: string, n: nat)
    requires n <= |s|
    ensures "" + s[..n] + s[n..] == s
  {
    assert s[..n] + s[n..] == s;
  }

  /** An empty piece in front keeps the shape when the old first piece is inner now. */
  lemma EmptyFrontShape(rest: seq<string>)
    requires SplitShape(rest) && (|rest| > 1 ==> rest[0] != [])
    ensures SplitShape([""] + rest)
  {
    var r := [""] + rest;
    forall p | p in r
      ensures forall k :: 0 <= k < |p| ==> !IsSpace(p[k])
    {
      if p != [] {
        var i :| 0 < i < |r| && r[i] == p;
        assert rest[i - 1] == p;
      }
    }
    forall i | 0 < i < |r| - 1
      ensures r[i] != []
    {
      assert r[i] == rest[i - 1];
    }
  }

  /** The step of `SplitSpaces` over a leading character that is not whitespace. */
  lemma CharStep(s: string, rest: seq<string>)
    requires s != [] && !IsSpace(s[0])
    requires SplitShape(rest)
    requires |rest| == |SpaceRuns(s[1..])| + 1 && Interleave(rest, SpaceRuns(s[1..])) == s[1..]
    ensures var r := [[s[0]] + rest[0]] + rest[1..];
      SplitShape(r) && |r| == |SpaceRuns(s)| + 1 && Interleave(r, SpaceRuns(s)) == s && r[0] != []
  {
    var r := [[s[0]] + rest[0]] + rest[1..];
    var gs := SpaceRuns(s[1..]);
    assert SpaceRuns(s) == gs;
    InterleaveHead(s[0], rest, gs);
    assert [s[0]] + s[1..] == s;
    HeadCharShape(s[0], rest);
  }

  /** A character that is not whitespace, put in front of the first piece, keeps the shape. */
  lemma HeadCharShape(c: char, rest: seq<string>)
    requires !IsSpace(c) && SplitShape(rest)
    ensures SplitShape([[c] + rest[0]] + rest[1..])
  {
    var r := [[c] + rest[0]] + rest[1..];
    forall p | p in r
      ensures forall k :: 0 <= k < |p| ==> !IsSpace(p[k])
    {
      if p != r[0] {
        var i :| 0 < i < |r| && r[i] == p;
        assert rest[i] == p;
      } else {
        assert rest[0] in rest;
      }
    }
    forall i | 0 < i < |r| - 1
      ensures r[i] != []
    {
      assert r[i] == rest[i];
    }
  }

  /** A character put in front of the first piece. */
  lemma InterleaveHead(c: char, ps: seq<string>, gs: seq<string>)
    requires |ps| == |gs| + 1
    ensures Interleave([[c] + ps[0]] + ps[1..], gs) == [c] + Interleave(ps, gs)
  {
    var qs := [[c] + ps[0]] + ps[1..];
    assert qs[0] == [c] + ps[0] && qs[1..] == ps[1..];
    if gs != [] {
      var tail := Interleave(ps[1..], gs[1..]);
      assert Interleave(ps, gs) == ps[0] + gs[0] + tail;
      ConcatFront([c], ps[0], gs[0], tail);
    }
  }

  lemma ConcatFront(c: string, a: string, b: string, d: string)
    ensures (c + a) + b + d == c + (a + b + d)
  {
  }

  function Concat(ps: seq<string>): string {
    if ps == [] then [] else ps[0] + Concat(ps[1..])
  }

  /** `s` with every whitespace character removed. */
  function NonSpace(s: string): string {
    if s == [] then [] else (if IsSpace(s[0]) then [] else [s[0]]) + NonSpace(s[1..])
  }

  lemma NonSpaceOfSpaces(s: string, n: nat)
    requires n <= |s|
    requires forall k :: 0 <= k < n ==> IsSpace(s[k])
    ensures NonSpace(s) == NonSpace(s[n..])
  {
    if n > 0 {
      assert s[1..][n - 1..] == s[n..];
      NonSpaceOfSpaces(s[1..], n - 1);
    }
  }

  /** Splitting on whitespace loses exactly the whitespace: the pieces, joined, give the
      non-whitespace characters of the text in order. */
  lemma {:induction false} SplitSpacesKeepsText(s: string)
    ensures Concat(SplitSpaces(s)) == NonSpace(s)
    decreases |s|
  {
    if s == [] {
    } else if IsSpace(s[0]) {
      var n := LeadingSpaces(s);
      SplitSpacesKeepsText(s[n..]);
      NonSpaceOfSpaces(s, n);
      ConcatEmptyFront(SplitSpaces(s[n..]));
    } else {
      var rest := SplitSpaces(s[1..]);
      SplitSpacesKeepsText(s[1..]);
      ConcatCharFront(s[0], rest);
    }
  }

  lemma ConcatEmptyFront(ps: seq<string>)
    ensures Concat([""] + ps) == Concat(ps)
  {
    assert ([""] + ps)[1..] == ps;
  }

  lemma ConcatCharFront(c: char, ps: seq<string>)
    requires ps != []
    ensures Concat([[c] + ps[0]] + ps[1..]) == [c] + Concat(ps)
  {
    var r := [[c] + ps[0]] + ps[1..];
    assert r[1..] == ps[1..];
    assert Concat(r) == ([c] + ps[0]) + Concat(ps[1..]);
    ConcatFront([c], ps[0], [], Concat(ps[1..]));
  }

  /** `split(c)` for a single character separator. */
  function SplitOn(s: string, c: char): (r: seq<string>)
    ensures |r| >= 1
    ensures forall p :: p in r ==> c !in p
  {
    if s == [] then [""]
    else
      var rest := SplitOn(s[1..], c);
      if s[0] == c then [""] + rest else [[s[0]] + rest[0]] + rest[1..]
  }

  /** `join(c)`. */
  function Join(ps: seq<string>, c: char): string
    requires |ps| >= 1
  {
    if |ps| == 1 then ps[0] else ps[0] + [c] + Join(ps[1..], c)
  }

  /** Joining the pieces of a split with the same separator gives the text back. */
  lemma {:induction false} SplitOnJoin(s: string, c: char)
    ensures Join(SplitOn(s, c), c) == s
  {
    if s != [] {
      var rest := SplitOn(s[1..], c);
      SplitOnJoin(s[1..], c);
      if s[0] == c {
        assert ([""] + rest)[1..] == rest;
      } else {
        var r := [[s[0]] + rest[0]] + rest[1..];
        if |rest| == 1 {
          assert r == [[s[0]] + rest[0]];
        } else {
          assert r[1..] == rest[1..];
          assert Join(rest, c) == rest[0] + [c] + Join(rest[1..], c);
        }
      }
    }
  }

  /** Text without the separator glues onto the first piece of what follows it. */
  lemma {:induction false} SplitOnGlue(w: string, t: string, c: char)
    requires c !in w
    ensures SplitOn(w + t, c) == [w + SplitOn(t, c)[0]] + SplitOn(t, c)[1..]
  {
    if w != [] {
      SplitOnGlue(w[1..], t, c);
      assert (w + t)[1..] == w[1..] + t;
      assert (w + t)[0] == w[0];
      assert [w[0]] + (w[1..] + SplitOn(t, c)[0]) == w + SplitOn(t, c)[0];
    } else {
      var r := SplitOn(t, c);
      assert w + t == t && w + r[0] == r[0];
      assert [r[0]] + r[1..] == r;
    }
  }

  /** Splitting pieces joined by a separator they do not contain gives the pieces back. */
  lemma {:induction false} JoinSplitOn(ps: seq<string>, c: char)
    requires |ps| >= 1
    requires forall k :: 0 <= k < |ps| ==> c !in ps[k]
    ensures SplitOn(Join(ps, c), c) == ps
  {
    if |ps| == 1 {
      SplitOnGlue(ps[0], "", c);
      assert ps[0] + "" == ps[0];
    } else {
      JoinSplitOn(ps[1..], c);
      var t := [c] + Join(ps[1..], c);
      assert SplitOn(t, c) == [""] + ps[1..];
      SplitOnGlue(ps[0], t, c);
      assert ps[0] + t == Join(ps, c);
      assert ps[0] + "" == ps[0];
      assert [ps[0]] + ps[1..] == ps;
    }
  }

  predicate NoDup<T(==)>(s: seq<T>) {
    forall i, j :: 0 <= i < j < |s| ==> s[i] != s[j]
  }

  /** `[...new Set(s)]`: the distinct elements of `s` in order of first occurrence. */
  function Dedup<T(==,!new)>(s: seq<T>): (r: seq<T>)
    ensures NoDup(r)
    ensures forall x :: x in r <==> x in s
    ensures |r| <= |s|
    ensures NoDup(s) ==> r == s
    ensures InFirstOccurrenceOrder(s, r)
  {
    if s == [] then []
    else
      var p := s[..|s| - 1];
      var d := Dedup(p);
      var x := s[|s| - 1];
      assert s == p + [x];
      assert forall y :: y in s <==> y in p || y == x;
      DedupOrderStep(p, x, d);
      if x in d then d else d + [x]
  }

  /** The elements of `r` come in the order of their first occurrences in `s`. */
  predicate InFirstOccurrenceOrder<T(==)>(s: seq<T>, r: seq<T>)
  {
    forall i, j :: 0 <= i < j < |r| ==> IndexOf(s, r[i]) < IndexOf(s, r[j])
  }

  /** The step of `Dedup`: first occurrences stay in order when an element is appended. */
  lemma DedupOrderStep<T>(p: seq<T>, x: T, d: seq<T>)
    requires forall y :: y in d <==> y in p
    requires InFirstOccurrenceOrder(p, d)
    ensures InFirstOccurrenceOrder(p + [x], if x in d then d else d + [x])
  {
    IndexOfSnoc(p, x);
    if x !in d {
      var r := d + [x];
      assert forall i :: 0 <= i < |d| ==> r[i] in p;
    }
  }

  /** Appending an element leaves the first index of everything already present, and a new
      element is found at the end. */
  lemma IndexOfSnoc<T>(s: seq<T>, x: T)
    ensures forall y :: y in s ==> IndexOf(s + [x], y) == IndexOf(s, y)
    ensures x !in s ==> IndexOf(s + [x], x) == |s|
  {
    forall y | y in s
      ensures IndexOf(s + [x], y) == IndexOf(s, y)
    {
      var k := IndexOf(s, y);
      assert (s + [x])[..k] == s[..k];
      FirstIndexIs(s + [x], y, k);
    }
    if x !in s {
      assert (s + [x])[..|s|] == s;
      FirstIndexIs(s + [x], x, |s|);
    }
  }

  /** An index holding `x` with no `x` before it is the first index of `x`. */
  lemma FirstIndexIs<T>(s: seq<T>, x: T, a: nat)
    requires a < |s| && s[a] == x && x !in s[..a]
    ensures IndexOf(s, x) == a
  {
  }

  /** Decimal digits of a natural number, as `String(n)` writes it. */
  function NatToString(n: nat): (r: string)
    ensures |r| >= 1
    ensures forall k :: 0 <= k < |r| ==> IsDigit(r[k])
    ensures |r| > 1 ==> r[0] != '0'
  {
    if n < 10 then [(48 + n) as char] else NatToString(n / 10) + [(48 + n % 10) as char]
  }

  function DigitsValue(s: string): int
    requires forall k :: 0 <= k < |s| ==> IsDigit(s[k])
  {
    if s == [] then 0 else 10 * DigitsValue(s[..|s| - 1]) + (s[|s| - 1] as int - 48)
  }

  /** Reading the digits back gives the number: the decimal rendering loses nothing. */
  lemma {:induction false} NatToStringRoundTrip(n: nat)
    ensures DigitsValue(NatToString(n)) == n
  {
    if n >= 10 {
      NatToStringRoundTrip(n / 10);
      var r := NatToString(n);
      assert r[..|r| - 1] == NatToString(n / 10);
    }
  }

  /** `String(i)` for an integer. */
  function IntToString(i: int): (r: string)
    ensures |r| >= 1
    ensures i < 0 <==> r[0] == '-'
  {
    if i < 0 then "-" + NatToString(-i) else NatToString(i)
  }

  /** The first index of `x` in `s`, or -1: `indexOf`. */
  function IndexOf<T(==)>(s: seq<T>, x: T): (k: int)
    ensures -1 <= k < |s|
    ensures k == -1 <==> x !in s
    ensures k >= 0 ==> s[k] == x && x !in s[..k]
  {
    if s == [] then -1
    else if s[0] == x then 0
    else
      var k := IndexOf(s[1..], x);
      assert s[1..] == s[1..][..|s| - 1];
      if k == -1 then -1 else (assert s[..k + 1] == [s[0]] + s[1..][..k]; k + 1)
  }

  /** `s` without its element at index `k`: `splice(k, 1)`. */
  function RemoveAt<T>(s: seq<T>, k: nat): (r: seq<T>)
    requires k < |s|
    ensures |r| == |s| - 1
    ensures forall i :: 0 <= i < k ==> r[i] == s[i]
    ensures forall i :: k <= i < |r| ==> r[i] == s[i + 1]
  {
    s[..k] + s[k + 1..]
  }

  /** In a sequence without repeats, the removed element is gone. */
  lemma RemoveAtDropsUnique<T>(s: seq<T>, k: nat)
    requires k < |s| && NoDup(s)
    ensures s[k] !in RemoveAt(s, k)
  {
    var r := RemoveAt(s, k);
    forall m | 0 <= m < |r| ensures r[m] != s[k] {
      if m < k { assert r[m] == s[m]; } else { assert r[m] == s[m + 1]; }
    }
  }
}
