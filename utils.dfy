/** The string and time helpers of `src/lib/utils.ts`. */
module Utils {
  import opened JsText
  import opened Auth
  import opened I18n

  // ---------------------------------------------------------------------------------------
  // truncateText

  /** `text.slice(0, end)` for an end below the length: a negative end counts back from
      the end of the text. */
  function SliceTo(text: string, end: int): (r: string)
    requires end < |text|
    ensures end >= 0 ==> r == text[..end]
    ensures end < 0 ==> r == text[..if |text| + end < 0 then 0 else |text| + end]
  {
    if end >= 0 then text[..end]
    else if |text| + end < 0 then []
    else text[..|text| + end]
  }

  /** `truncateText(text, maxLength)`. A text that fits is returned as it is. A longer
      one is cut and gets `...`: with a non-negative `maxLength` to its first `maxLength`
      characters, so it is `maxLength + 3` long; with a negative one `slice` counts back
      from the end, so a non-empty text loses at least one character and an empty one
      becomes `...`. */
  function TruncateText(text: string, maxLength: int): (r: string)
    ensures |text| <= maxLength ==> r == text
    ensures 0 <= maxLength < |text| ==> |r| == maxLength + 3 && r == text[..maxLength] + "..."
    ensures maxLength < 0 ==>
      var keep := if |text| + maxLength < 0 then 0 else |text| + maxLength;
      r == text[..keep] + "..."
    ensures maxLength < 0 && |text| > 0 ==> |r| < |text| + 3
    ensures maxLength < 0 && text == [] ==> r == "..."
  {
    if |text| <= maxLength then text else SliceTo(text, maxLength) + "..."
  }

  // ---------------------------------------------------------------------------------------
  // getRoleDisplayName and getRoleColor

  /** `getRoleDisplayName(role, locale)`. */
  function RoleDisplayName(role: Role, locale: Language): string
  {
    match (locale, role)
    case (Th, Student) => "นักศึกษา"
    case (Th, Teacher) => "อาจารย์"
    case (Th, Admin) => "ผู้ดูแลระบบ"
    case (En, Student) => "Student"
    case (En, Teacher) => "Teacher"
    case (En, Admin) => "Administrator"
  }

  /** `getRoleColor(role)`: the badge's Tailwind classes. */
  function RoleColor(role: Role): string
  {
    match role
    case Student => "bg-blue-100 text-blue-800"
    case Teacher => "bg-green-100 text-green-800"
    case Admin => "bg-purple-100 text-purple-800"
  }

  /** In either language, and in the colours, no two roles look the same. */
  lemma RoleTablesInjective(r1: Role, r2: Role, locale: Language)
    ensures RoleDisplayName(r1, locale) == RoleDisplayName(r2, locale) ==> r1 == r2
    ensures RoleColor(r1) == RoleColor(r2) ==> r1 == r2
  {
  }

  // ---------------------------------------------------------------------------------------
  // isValidEmail

  /** A character `[^\s@]` accepts. */
  predicate Plain(c: char) { !IsSpace(c) && c != '@' }

  predicate AllPlain(s: string) { forall k :: 0 <= k < |s| ==> Plain(s[k]) }

  /** The part after the `@`: `[^\s@]+\.[^\s@]+`, where the first run may itself hold dots. */
  predicate IsDomain(d: string)
  {
    |d| >= 3 && AllPlain(d) && '.' in d[1..|d| - 1]
  }

  /** `isValidEmail(email)`: `/^[^\s@]+@[^\s@]+\.[^\s@]+$/.test(email)`. */
  function IsValidEmail(email: string): bool
  {
    var at := IndexOf(email, '@');
    at > 0 && AllPlain(email[..at]) && IsDomain(email[at + 1..])
  }

  /** `email` is `a@b.c` with the dot at `j` and the `@` at `i`, and `a`, `b`, `c` are
      non-empty runs of characters other than white space and `@`. */
  ghost predicate EmailShapeAt(email: string, i: int, j: int)
  {
    0 < i && i + 1 < j && j + 1 < |email| && email[i] == '@' && email[j] == '.' &&
    AllPlain(email[..i]) && AllPlain(email[i + 1..j]) && AllPlain(email[j + 1..])
  }

  ghost predicate EmailShape(email: string)
  {
    exists i, j :: EmailShapeAt(email, i, j)
  }

  /** Every address the check accepts has the form `a@b.c`. */
  lemma ValidEmailHasShape(email: string)
    requires IsValidEmail(email)
    ensures EmailShape(email)
  {
    var at := IndexOf(email, '@');
    var d := email[at + 1..];
    var m :| 0 <= m < |d[1..|d| - 1]| && d[1..|d| - 1][m] == '.';
    var j := at + 2 + m;
    assert email[j] == '.';
    assert email[at + 1..j] == d[..m + 1];
    assert email[j + 1..] == d[m + 2..];
    assert EmailShapeAt(email, at, j);
  }

  /** The `@` of an address of the form `a@b.c` is its first `@`. */
  lemma ShapeLocatesAt(email: string, i: int, j: int)
    requires EmailShapeAt(email, i, j)
    ensures IndexOf(email, '@') == i
  {
    var at := IndexOf(email, '@');
    assert forall k :: 0 <= k < i ==> email[k] == email[..i][k];
    assert at != -1 && email[at] == '@';
  }

  /** Every address of the form `a@b.c` passes the check. */
  lemma ShapeIsValidEmail(email: string, i: int, j: int)
    requires EmailShapeAt(email, i, j)
    ensures IsValidEmail(email)
  {
    ShapeLocatesAt(email, i, j);
    var d := email[i + 1..];
    assert d[1..|d| - 1][j - i - 2] == '.';
    forall k | 0 <= k < |d| ensures Plain(d[k]) {
      var q := i + 1 + k;
      if q < j { assert d[k] == email[i + 1..j][k]; }
      else if q > j { assert d[k] == email[j + 1..][q - j - 1]; }
    }
  }

  /** The check accepts exactly the addresses of the form `a@b.c`. */
  lemma IsValidEmailIff(email: string)
    ensures IsValidEmail(email) <==> EmailShape(email)
  {
    if IsValidEmail(email) { ValidEmailHasShape(email); }
    if EmailShape(email) {
      var i, j :| EmailShapeAt(email, i, j);
      ShapeIsValidEmail(email, i, j);
    }
  }

  // ---------------------------------------------------------------------------------------
  // getInitials

  /** `word.charAt(0)`. */
  function FirstChar(word: string): (r: string)
    ensures |r| <= 1
  {
    if word == [] then [] else [word[0]]
  }

  function FirstChars(words: seq<string>): string
  {
    if words == [] then [] else FirstChar(words[0]) + FirstChars(words[1..])
  }

  /** `getInitials(name)`: split on single spaces, first characters, upper case, at most
      two characters. */
  function GetInitials(name: string): (r: string)
    ensures |r| <= 2
  {
    var all := Upper(FirstChars(SplitOn(name, ' ')));
    all[..if |all| < 2 then |all| else 2]
  }

  /** The first characters of the non-empty words, in order. */
  function Heads(words: seq<string>): string
  {
    if words == [] then []
    else if words[0] == [] then Heads(words[1..])
    else [words[0][0]] + Heads(words[1..])
  }

  lemma {:induction false} FirstCharsAreHeads(words: seq<string>)
    ensures FirstChars(words) == Heads(words)
  {
    if words != [] { FirstCharsAreHeads(words[1..]); }
  }

  /** For a name made of words joined by single spaces, the initials are the upper-cased
      first characters of the first two non-empty words; empty words (from doubled spaces)
      contribute nothing. */
  lemma GetInitialsOfWords(words: seq<string>)
    requires |words| >= 1
    requires forall k :: 0 <= k < |words| ==> ' ' !in words[k]
    ensures var h := Upper(Heads(words));
      GetInitials(Join(words, ' ')) == h[..if |h| < 2 then |h| else 2]
  {
    JoinSplitOn(words, ' ');
    FirstCharsAreHeads(words);
  }

  // ---------------------------------------------------------------------------------------
  // formatRelativeTime

  /** One row of the interval table: its length in seconds and its two labels. */
  datatype Interval = Interval(seconds: nat, th: string, en: string)

  /** The intervals, longest first, as `Object.entries` visits them. */
  const Intervals: seq<Interval> := [
    Interval(31536000, "ปีที่แล้ว", "year ago"),
    Interval(2592000, "เดือนที่แล้ว", "month ago"),
    Interval(604800, "สัปดาห์ที่แล้ว", "week ago"),
    Interval(86400, "วันที่แล้ว", "day ago"),
    Interval(3600, "ชั่วโมงที่แล้ว", "hour ago"),
    Interval(60, "นาทีที่แล้ว", "minute ago"),
    Interval(1, "วินาทีที่แล้ว", "second ago")
  ]

  lemma IntervalsDecrease()
    ensures |Intervals| == 7 && Intervals[6].seconds == 1
    ensures forall a, b :: 0 <= a < b < 7 ==> Intervals[a].seconds > Intervals[b].seconds
  {
  }

  /** The first interval from `k` on that fits at least once into `diff`, or `|Intervals|`. */
  function FirstFit(diff: int, k: nat): (r: nat)
    requires k <= |Intervals|
    ensures k <= r <= |Intervals|
    ensures r < |Intervals| ==> Intervals[r].seconds > 0 && diff / Intervals[r].seconds >= 1
    ensures forall m :: k <= m < r ==> diff / Intervals[m].seconds < 1
    decreases |Intervals| - k
  {
    if k == |Intervals| then k
    else if diff / Intervals[k].seconds >= 1 then k
    else FirstFit(diff, k + 1)
  }

  /** The phrase for `count` whole intervals. */
  function Phrase(locale: Language, interval: Interval, count: int): string
  {
    match locale
    case Th => if count == 1 then interval.th else IntToString(count) + " " + interval.th
    case En => if count == 1 then "1 " + interval.en else IntToString(count) + " " + interval.en + "s"
  }

  /** `formatRelativeTime(date, locale)` with `date.getTime()` as `dateMs` and the clock's
      `now.getTime()` as `nowMs`. */
  function FormatRelativeTime(nowMs: int, dateMs: int, locale: Language): string
  {
    var diff := (nowMs - dateMs) / 1000;
    var k := FirstFit(diff, 0);
    if k < |Intervals| then Phrase(locale, Intervals[k], diff / Intervals[k].seconds)
    else if locale == Th then "เมื่อสักครู่" else "just now"
  }

  /** Less than a whole second ago, or in the future, reads "just now"; from one second on
      some interval fits. */
  lemma JustNow(nowMs: int, dateMs: int, locale: Language)
    ensures nowMs - dateMs < 1000 ==>
      FormatRelativeTime(nowMs, dateMs, locale) == (if locale == Th then "เมื่อสักครู่" else "just now")
    ensures nowMs - dateMs >= 1000 ==> FirstFit((nowMs - dateMs) / 1000, 0) < |Intervals|
  {
    var diff := (nowMs - dateMs) / 1000;
    IntervalsDecrease();
    if nowMs - dateMs >= 1000 {
      assert diff / Intervals[6].seconds >= 1;
    } else {
      assert diff <= 0;
      assert forall m :: 0 <= m < |Intervals| ==> diff / Intervals[m].seconds < 1;
    }
  }

  /** An interval fits at least once into `a` exactly when it is no longer than `a`. */
  lemma WholeQuotient(a: int, b: int)
    requires b > 0
    ensures a / b >= 1 <==> a >= b
  {
    if a >= b {
      assert a / b >= 1 by {
        assert a == b * (a / b) + a % b && a % b < b;
      }
    } else {
      assert a / b < 1 by {
        assert a == b * (a / b) + a % b && a % b >= 0;
        assert b * (a / b) < b * 1;
      }
    }
  }

  /** Otherwise the text names the longest interval that fits, with the number of whole
      such intervals: "2 year agos" in English (the plural is formed on the whole label), the
      bare label for a count of one in Thai. */
  lemma LongestIntervalWins(nowMs: int, dateMs: int, locale: Language, k: nat)
    requires k < |Intervals|
    requires Intervals[k].seconds <= (nowMs - dateMs) / 1000
    requires k == 0 || (nowMs - dateMs) / 1000 < Intervals[k - 1].seconds
    ensures var count := (nowMs - dateMs) / 1000 / Intervals[k].seconds;
      count >= 1 &&
      FormatRelativeTime(nowMs, dateMs, locale) == Phrase(locale, Intervals[k], count)
  {
    IntervalsDecrease();
    var diff := (nowMs - dateMs) / 1000;
    WholeQuotient(diff, Intervals[k].seconds);
    var r := FirstFit(diff, 0);
    assert r <= k;
    WholeQuotient(diff, Intervals[r].seconds);
    assert k == 0 || Intervals[r].seconds < Intervals[k - 1].seconds;
  }

  /** Two years ago reads "2 year agos" in English and "2 ปีที่แล้ว" in Thai. */
  lemma TwoYearsAgo(dateMs: int)
    ensures FormatRelativeTime(dateMs + 2 * 31536000 * 1000, dateMs, En) == "2 year agos"
    ensures FormatRelativeTime(dateMs + 2 * 31536000 * 1000, dateMs, Th) == "2 ปีที่แล้ว"
  {
    LongestIntervalWins(dateMs + 2 * 31536000 * 1000, dateMs, En, 0);
    LongestIntervalWins(dateMs + 2 * 31536000 * 1000, dateMs, Th, 0);
    assert IntToString(2) == "2";
  }
}
