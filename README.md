# PCRU-CS-Connect content rules, dictionary, import and helpers in Dafny

This project models the rule-bearing core of PCRU-CS-Connect, a question-and-answer board.
It covers these parts:

- **Content validation** (`src/lib/profanity-filter.ts`):
  - the `ProfanityFilter` class, with its word set and the three obfuscation patterns per word;
  - `check`, `filter`, `addWord`, `removeWord` and `getWords`;
  - the length check, the three spam heuristics, and `validate`, which runs them in a fixed order.

  The regular expressions the filter builds are modelled by a small matcher that follows the JavaScript engine's backtracking order (module `Regex`). It is proved equal to a declarative meaning of the patterns.
- **The administrators' dictionary** (`src/app/api/admin/profanity/route.ts`): `GET`, `POST` and `DELETE` over the dictionary file. The file is an object with the fields `words`, `version` and `lastUpdated`.
- **The bulk user import** (`src/app/api/admin/users/import/route.ts`): its gate and its loop over the rows, which classifies each row.
- **The pagination window** (`src/components/ui/pagination.tsx`): which pages are listed, and which edge buttons and ellipses are shown or disabled.
- **Helpers**:
  - role checks and password generation (`src/lib/auth.ts`);
  - `truncateText`, `getInitials`, `isValidEmail`, the role tables and `formatRelativeTime` (`src/lib/utils.ts`);
  - `getTranslation` over the Thai and English tables (`src/lib/i18n.ts`).

Modules:

- `JsText`: the JavaScript string built-ins the code relies on:
  - whitespace as `\s` and `trim()` see it;
  - ASCII case mapping;
  - `split`, `join` and `indexOf`;
  - `splice(k, 1)`;
  - `String(n)`;
  - `[...new Set(xs)]`.
- `StringOrder`: the default `Array.prototype.sort` order, meaning code units compared lexicographically.
- `Regex`, `ProfanityPatterns`, `Profanity`: the content validation engine.
- `WordStore`: the dictionary route.
- `UserImport`: the import route.
- `Pagination`: the pagination component.
- `Auth`, `Utils`, `I18n`: the helper libraries.

Imperative code is modelled as imperative Dafny:

- the filter is a class whose methods rewrite its `words` and `patterns` fields;
- the dictionary file is a class whose handlers rewrite its fields;
- the loops of `check`, `filter`, `buildPatterns`, the import, the pagination window, `generateRandomPassword` and `getTranslation` are `while` loops;
- `validate` has no loop: it is a method that appends the errors of its three checks in turn.

Each method is proved equal to a specification function, and the source's promises are proved as lemmas about those functions.

Three things the code does that a reader might not expect are modelled as written:

- The import route answers 403 both for an invalid token and for a non-administrator. The dictionary route answers 401 for an invalid token.
- `formatRelativeTime` in English forms the plural on the whole label, so it writes "2 year agos".
- `truncateText` returns a text unchanged when it fits, but the converse does not hold. The text `"abcd..."` with `maxLength` 4 comes back unchanged too, so only the forward direction is stated.

## Model

| member | source | states |
|---|---|---|
| Profanity.CheckOf | src/lib/profanity-filter.ts:91-133 | what `check` returns: the found words, clean exactly when there are none, the text filtered with "***", and the severity of the count; its properties are `CheckConsistent` and the lemmas below |
| Profanity.FoundWords | src/lib/profanity-filter.ts:92-113 | the distinct literal and pattern hits; characterised by `FoundWordsMembers` and `FoundWordsSound` |
| Profanity.LiteralHits | src/lib/profanity-filter.ts:96-102 | the cleaned tokens that are dictionary words, in token order; characterised by `LiteralHitsMembers` |
| Profanity.PatternHits | src/lib/profanity-filter.ts:105-110 | the lowercased matches of each pattern in turn; characterised by `PatternHitsSound` and `PatternHitsComplete` |
| Profanity.Redact | src/lib/profanity-filter.ts:148-150 | global replacement with each pattern in turn; characterised by `RedactWithoutHits` and `Regex.ReplaceIsSplice` |
| Profanity.FilterOf | src/lib/profanity-filter.ts:138-153 | what `filter` returns: exact words first, then patterns; characterised by `FilterWithoutWords` and `FilterWithoutOccurrences` |
| Profanity.ValidateOf | src/lib/profanity-filter.ts:244-307 | what `validate` returns; characterised by `ValidateErrors`, `ValidateShape` and the lemmas after them |
| Profanity.SeverityOf | src/lib/profanity-filter.ts:115-125 | 0 distinct words is none, 1-2 mild, 3-4 moderate, 5 or more severe, each as an if-and-only-if |
| Profanity.SeverityMonotone | src/lib/profanity-filter.ts:115-125 | more distinct words never give a lower tier |
| Profanity.StripToken | src/lib/profanity-filter.ts:98 | the cleaned token keeps only `\w` and Thai characters and is no longer than the token; a token of kept characters is unchanged, and a token with none is removed entirely |
| Profanity.StripTokenAppend | src/lib/profanity-filter.ts:98 | stripping works character by character: the strip of a concatenation is the concatenation of the strips |
| Profanity.LiteralHitsMembers | src/lib/profanity-filter.ts:96-102 | a string is a literal hit exactly when it is a dictionary word and the cleaned form of some whitespace-separated token |
| Profanity.LowerAll | src/lib/profanity-filter.ts:108 | each match is lowercased, position by position |
| Profanity.PatternHitsSound | src/lib/profanity-filter.ts:105-110 | every pattern hit is the lowercased text of a word-bounded occurrence of one of the patterns |
| Profanity.PatternHitsComplete | src/lib/profanity-filter.ts:105-110 | every match of every pattern, lowercased, is among the pattern hits, so a pattern with a hit contributes one |
| Profanity.FoundWordsMembers | src/lib/profanity-filter.ts:92-113 | the found words are exactly the literal hits and the pattern hits |
| Profanity.FoundWordsSound | src/lib/profanity-filter.ts:92-113 | every found word is a dictionary word met as a cleaned token, or the text of a pattern occurrence |
| Profanity.TokenWordIsFound | src/lib/profanity-filter.ts:96-102 | every cleaned token that is a dictionary word is found |
| Profanity.CheckConsistent | src/lib/profanity-filter.ts:113-131 | `isClean` holds exactly when nothing is found, no word is reported twice, and the severity is the tier of the number of found words |
| Profanity.CheckIgnoresCase | src/lib/profanity-filter.ts:91-113 | texts that differ only in ASCII case find the same words, with the same cleanliness and severity |
| Profanity.OccurrenceIsCaught | src/lib/profanity-filter.ts:105-128 | a word-bounded occurrence of any pattern makes the text unclean |
| Profanity.SubstitutedWordIsCaught | src/lib/profanity-filter.ts:51-65 | a long dictionary word with look-alikes for its vowels, in either case and between word boundaries, makes the text unclean |
| Profanity.SpreadWordIsCaught | src/lib/profanity-filter.ts:68 | a long dictionary word, in any ASCII case, with whitespace, `-` or `_` runs between its characters makes the text unclean |
| Profanity.StretchedWordIsCaught | src/lib/profanity-filter.ts:71-76 | a long dictionary word, in any ASCII case, with its letters repeated makes the text unclean |
| Profanity.RedactWithoutHits | src/lib/profanity-filter.ts:148-150 | replacing with patterns that match nothing leaves the text unchanged |
| Profanity.FilterWithoutWords | src/lib/profanity-filter.ts:138-153 | with an empty word set `filter` returns the text unchanged |
| Profanity.FilterWithoutOccurrences | src/lib/profanity-filter.ts:138-153 | a text with no occurrence of any word or pattern is returned unchanged |
| Profanity.RemoveValue | src/lib/profanity-filter.ts:167 | `Set.delete` takes out exactly the value: it removes the value at its position, keeping the other words in insertion order; the size drops by one when the value was there; the set is unchanged when it was not; no duplicates appear |
| Profanity.ProfanityFilter.constructor | src/lib/profanity-filter.ts:33-38 | the word set is the distinct lowercased initial words, and the patterns are those built from them |
| Profanity.ProfanityFilter.RebuildPatterns | src/lib/profanity-filter.ts:160 | the patterns become `buildPatterns` of the unchanged word set |
| Profanity.ProfanityFilter.Check | src/lib/profanity-filter.ts:91-133 | the result is the specification `CheckOf` of the word set, the patterns and the text |
| Profanity.ProfanityFilter.LiteralPass | src/lib/profanity-filter.ts:96-102 | the token loop collects exactly the literal hits, in token order |
| Profanity.ProfanityFilter.PatternPass | src/lib/profanity-filter.ts:105-110 | the pattern loop collects exactly the lowercased matches, pattern by pattern |
| Profanity.ProfanityFilter.Filter | src/lib/profanity-filter.ts:138-153 | the result is `FilterOf`: every dictionary word is replaced first, then every pattern, in order |
| Profanity.ProfanityFilter.ExactPass | src/lib/profanity-filter.ts:142-145 | the word loop replaces every dictionary word, as `\bword\b`, in word order |
| Profanity.ProfanityFilter.PatternRedact | src/lib/profanity-filter.ts:148-150 | the pattern loop replaces the matches of every pattern, in pattern order |
| Profanity.ProfanityFilter.AddWord | src/lib/profanity-filter.ts:158-161 | the word set gains exactly the lowercased word if it was absent, and the patterns are rebuilt |
| Profanity.ProfanityFilter.RemoveWord | src/lib/profanity-filter.ts:166-169 | the word set loses exactly the lowercased word, and the patterns are rebuilt |
| Profanity.ProfanityFilter.GetWords | src/lib/profanity-filter.ts:174-176 | the words, in insertion order and without duplicates |
| Profanity.ProfanityFilter.Validate | src/lib/profanity-filter.ts:244-307 | the result is `ValidateOf` of the resolved options, the check result and the text |
| Profanity.AddRemoveRoundTrip | src/lib/profanity-filter.ts:158-169 | adding a new word and removing it again restores the word set |
| Profanity.AddIdempotent | src/lib/profanity-filter.ts:158-161 | adding a word twice is the same as adding it once |
| Profanity.ValidateLength | src/lib/profanity-filter.ts:181-202 | valid exactly when min <= trimmed length <= max; the minimum message comes first, then the maximum message; a valid text has no message |
| Profanity.LengthIgnoresSurroundingSpace | src/lib/profanity-filter.ts:185 | whitespace around the text never changes the length verdict |
| Profanity.CountUpperAtMostLetters | src/lib/profanity-filter.ts:220-221 | there are never more capitals than letters |
| Profanity.CheckSpam | src/lib/profanity-filter.ts:207-239 | spam exactly when a repeat run, shouting or too many URLs is present; the first check that fires gives the reason |
| Profanity.UrlsFromBound | src/lib/profanity-filter.ts:230 | URL matches do not overlap and each takes at least eight characters |
| Profanity.ShortTextsHaveFewUrls | src/lib/profanity-filter.ts:230-231 | a text shorter than 32 characters never has too many URLs |
| Profanity.NoUrlsIff | src/lib/profanity-filter.ts:230 | the URL count is zero exactly when no position starts `https?://` followed by a non-space |
| Profanity.RepeatedCharacterIsSpam | src/lib/profanity-filter.ts:211-217 | six equal characters in a row, other than a line terminator, are spam with the repeat message |
| Profanity.UppercaseTextIsSpam | src/lib/profanity-filter.ts:219-227 | an upper-cased text with more than ten letters and no repeat run is spam with the capitals message |
| Profanity.Resolve | src/lib/profanity-filter.ts:256-263 | the defaults are all checks on, minimum 10 and maximum 5000, and each given option overrides its default |
| Profanity.ValidateErrors | src/lib/profanity-filter.ts:269-299 | the errors are those of the length, profanity and spam checks, in that order |
| Profanity.ValidateShape | src/lib/profanity-filter.ts:265-306 | at most three errors, no warnings, and valid exactly when there are no errors, which is exactly when every enabled check passes |
| Profanity.LengthErrorComesFirst | src/lib/profanity-filter.ts:270-275 | when the length check is enabled and fails, `errors[0]` is its message |
| Profanity.ProfanityBlocks | src/lib/profanity-filter.ts:278-291 | any profanity, even mild, invalidates the text, and the message follows the tier |
| Profanity.SpamErrorComesLast | src/lib/profanity-filter.ts:294-299 | the spam reason, when there is one, is the last error |
| Profanity.ValidateReportsCheck | src/lib/profanity-filter.ts:277-279 | the profanity result is reported exactly when that check is enabled |
| Profanity.BlankCommentRefused | src/app/api/comments/route.ts:31-37 | a blank comment is refused, and the first error asks for at least one character |
| Profanity.LongTitleRefused | src/app/api/questions/route.ts:31-37 | a title longer than 200 trimmed characters is refused, and the first error is the maximum-length message |
| ProfanityPatterns.VowelClass | src/lib/profanity-filter.ts:51-65 | exactly the ten vowel letters get a bracket class, and each class starts with the vowel |
| ProfanityPatterns.SubstitutionPattern | src/lib/profanity-filter.ts:51-65 | one single-character atom per character of the word, the vowels replaced by their class |
| ProfanityPatterns.SeparatorPattern | src/lib/profanity-filter.ts:68 | `2n - 1` atoms for an `n`-character word, character `k` as a one-character atom at position `2k` |
| ProfanityPatterns.SeparatorPatternGaps | src/lib/profanity-filter.ts:68 | every odd position of the separator pattern, between two characters, holds `[\s\-_]*` |
| ProfanityPatterns.RepetitionPattern | src/lib/profanity-filter.ts:71-76 | one atom per character, with `+` exactly after ASCII letters |
| ProfanityPatterns.ExactPattern | src/lib/profanity-filter.ts:143 | `\b word \b`: one literal atom per character |
| ProfanityPatterns.BuildPatterns | src/lib/profanity-filter.ts:43-86 | a multiple of three patterns, at most three per word, none for an empty set |
| ProfanityPatterns.ExactPatterns | src/lib/profanity-filter.ts:142-145 | one exact pattern per word, in word order |
| ProfanityPatterns.PatternCount | src/lib/profanity-filter.ts:47-48 | without duplicate words there are exactly three patterns per distinct word of three or more characters |
| ProfanityPatterns.PatternsComeFromWords | src/lib/profanity-filter.ts:47-83 | every pattern belongs to a dictionary word of three or more characters |
| ProfanityPatterns.WordsHavePatterns | src/lib/profanity-filter.ts:47-83 | every dictionary word of three or more characters contributes all three of its patterns |
| ProfanityPatterns.BuildPatternsAppend | src/lib/profanity-filter.ts:158-160 | adding a word appends exactly its patterns and changes nothing else |
| ProfanityPatterns.SubstitutionClassWrites | src/lib/profanity-filter.ts:51-65 | a class accepts a character exactly when the character writes the word's letter, in either case, or is one of the vowel's look-alikes |
| ProfanityPatterns.SubstitutionLanguage | src/lib/profanity-filter.ts:51-65 | the substitution pattern spans exactly the spellings of the word with look-alikes for its vowels |
| ProfanityPatterns.ExactLanguage | src/lib/profanity-filter.ts:143 | the exact pattern spans exactly the word, up to ASCII case |
| ProfanityPatterns.SameUpToCaseIsLower | src/lib/profanity-filter.ts:79-81 | the case-insensitive `i` comparison of two texts is equality of their lower-cased forms |
| ProfanityPatterns.SeparatorAccepts | src/lib/profanity-filter.ts:68 | the separator pattern spans the word, in any ASCII case, with any separator runs between its characters |
| ProfanityPatterns.SeparatorSpansOnly | src/lib/profanity-filter.ts:68 | whatever the separator pattern spans is the word, up to ASCII case, with separator runs between its characters |
| ProfanityPatterns.SeparatorLanguage | src/lib/profanity-filter.ts:68 | the separator pattern spans a stretch of text exactly when it is such a spread spelling of the word |
| ProfanityPatterns.RepetitionAccepts | src/lib/profanity-filter.ts:71-76 | the repetition pattern spans the word, in any ASCII case, with each ASCII letter written one or more times |
| ProfanityPatterns.RepetitionSpansOnly | src/lib/profanity-filter.ts:71-76 | whatever the repetition pattern spans is the word, up to ASCII case, with each ASCII letter written one or more times and every other character once |
| ProfanityPatterns.RepetitionLanguage | src/lib/profanity-filter.ts:71-76 | the repetition pattern spans a stretch of text exactly when it is such a stretched spelling of the word |
| Regex.MatchRest | src/lib/profanity-filter.ts:79-81 | the engine's search for the rest of a pattern followed by `\b`: one character per atom, greedy runs and backtracking; a match found ends inside the text; characterised by `MatchRestSound` and `MatchRestComplete` |
| Regex.ReplaceFrom | src/lib/profanity-filter.ts:144-149 | `replace` with a global expression, scanning from left to right; characterised by `ReplaceIsSplice` |
| Regex.RunEnd | src/lib/profanity-filter.ts:68-73 | a greedy run of a class ends at the first character outside it |
| Regex.MatchAt | src/lib/profanity-filter.ts:79-81 | a match found at a position ends inside the text |
| Regex.MatchRestSound | src/lib/profanity-filter.ts:79-81 | what the backtracking search finds is a span of the pattern followed by a word boundary |
| Regex.BacktrackSound | src/lib/profanity-filter.ts:79-81 | the backtracking over run lengths finds only real matches |
| Regex.MatchRestComplete | src/lib/profanity-filter.ts:79-81 | whenever the pattern spans to a word boundary, the search finds a match |
| Regex.MatchAtCorrect | src/lib/profanity-filter.ts:79-81 | the engine matches at a position exactly when a word-bounded occurrence starts there, and what it returns is one |
| Regex.HitsFrom | src/lib/profanity-filter.ts:106 | every hit of the global scan lies within the text |
| Regex.HitsOrdered | src/lib/profanity-filter.ts:106 | the hits of a global scan are in order and do not overlap |
| Regex.HitsSound | src/lib/profanity-filter.ts:106 | every hit is a word-bounded occurrence of the pattern |
| Regex.NoHitsIffNoOccurrence | src/lib/profanity-filter.ts:106-107 | `match` returns null exactly when the text holds no word-bounded occurrence |
| Regex.Substrings | src/lib/profanity-filter.ts:106 | the matched strings are the text's slices at the hits, in order |
| Regex.ReplaceIsSplice | src/lib/profanity-filter.ts:144-149 | global replacement cuts out exactly the hits of the global scan, puts the replacement in their place and keeps the text between them |
| Regex.ReplaceWithoutHits | src/lib/profanity-filter.ts:144-149 | a replacement with nothing to match leaves the text unchanged |
| Regex.HitsFold | src/lib/profanity-filter.ts:79-81 | with the `i` flag, texts that agree up to case have the same hits |
| JsText.Lower | src/lib/profanity-filter.ts:93 | `toLowerCase` maps each character, keeping the length |
| JsText.Trim | src/lib/profanity-filter.ts:185 | `trim` returns the text between the leading and trailing whitespace runs, with no whitespace at either end |
| JsText.TrimBlank | src/app/api/admin/profanity/route.ts:74-79 | a string trims to empty exactly when it is all whitespace |
| JsText.SplitSpaces | src/lib/profanity-filter.ts:96 | `split(/\s+/)` gives at least one piece, none of which holds whitespace |
| JsText.SplitSpacesBreaks | src/lib/profanity-filter.ts:96 | the text is the pieces with its maximal whitespace runs between them, and only the first and last piece can be empty, so each break is a whole run |
| JsText.SplitSpacesKeepsText | src/lib/profanity-filter.ts:96 | the pieces, joined, are exactly the non-whitespace characters of the text |
| JsText.Dedup | src/lib/profanity-filter.ts:113 | the same members without duplicates, in the order of their first occurrences; a list without repeats is unchanged |
| JsText.SplitOnJoin | src/lib/utils.ts:142 | joining the pieces of a split with the same separator gives the text back |
| JsText.JoinSplitOn | src/lib/utils.ts:142 | splitting pieces joined by a separator they do not contain gives the pieces back |
| JsText.NatToStringRoundTrip | src/lib/i18n.ts:568 | `String(n)` loses nothing: reading its digits back gives `n` |
| JsText.IndexOf | src/app/api/admin/profanity/route.ts:148 | `indexOf` is -1 exactly when the value is absent, and otherwise is its first index |
| JsText.RemoveAt | src/app/api/admin/profanity/route.ts:157 | `splice(k, 1)` keeps the elements before and after `k` in order, one shorter |
| JsText.RemoveAtDropsUnique | src/app/api/admin/profanity/route.ts:157 | in a list without repeats the removed word is gone |
| StringOrder.StrLessIrreflexive | src/app/api/admin/profanity/route.ts:93 | the default sort order is irreflexive |
| StringOrder.StrLessTrichotomy | src/app/api/admin/profanity/route.ts:93 | any two different strings are ordered one way |
| StringOrder.StrLessTransitive | src/app/api/admin/profanity/route.ts:93 | the default sort order is transitive |
| StringOrder.Insert | src/app/api/admin/profanity/route.ts:92-93 | inserting adds exactly the element: one longer, the multiset plus the element |
| StringOrder.InsertSorted | src/app/api/admin/profanity/route.ts:92-93 | inserting into a sorted list keeps it sorted |
| StringOrder.Sort | src/app/api/admin/profanity/route.ts:93 | sorting is a permutation: same length, same multiset |
| StringOrder.SortSorted | src/app/api/admin/profanity/route.ts:93 | the sorted list is in ascending order |
| StringOrder.SortOfSorted | src/app/api/admin/profanity/route.ts:93 | sorting a sorted list leaves it as it is |
| StringOrder.SortAfterPush | src/app/api/admin/profanity/route.ts:92-93 | pushing onto a sorted list and sorting inserts the element in place |
| StringOrder.InsertThenRemove | src/app/api/admin/profanity/route.ts:92-93 | removing, at its `indexOf`, an element that was inserted gives the list back |
| WordStore.GetOf | src/app/api/admin/profanity/route.ts:9-44 | the answer of `GET`; characterised by `GateComesFirst` and `GetReportsDictionary` |
| WordStore.PostOf | src/app/api/admin/profanity/route.ts:47-114 | the new dictionary and answer of `POST`; characterised by `PostRefusesBadInput`, `PostRefusesDuplicate` and `PostAddsWord` |
| WordStore.DeleteOf | src/app/api/admin/profanity/route.ts:117-178 | the new dictionary and answer of `DELETE`; characterised by `DeleteRefuses`, `DeleteRemovesWord` and `AddThenDeleteRestores` |
| WordStore.Gate | src/app/api/admin/profanity/route.ts:11-24 | a caller passes exactly with a non-empty token that verifies to an administrator; otherwise 401, or 403 exactly when the token verifies to a non-administrator |
| WordStore.Normalise | src/app/api/admin/profanity/route.ts:75 | the normalised word is empty exactly when the word is all whitespace |
| WordStore.Store.constructor | src/app/api/admin/profanity/route.ts:26 | the store holds the given dictionary |
| WordStore.Store.Get | src/app/api/admin/profanity/route.ts:9-44 | the response is `GetOf` of the store |
| WordStore.Store.Post | src/app/api/admin/profanity/route.ts:47-114 | the new store and the response are `PostOf` of the old store |
| WordStore.Store.Delete | src/app/api/admin/profanity/route.ts:117-178 | the new store and the response are `DeleteOf` of the old store |
| WordStore.GateComesFirst | src/app/api/admin/profanity/route.ts:11-24 | a caller who fails the gate gets 401 or 403 from every handler, and the dictionary is unchanged |
| WordStore.GetReportsDictionary | src/app/api/admin/profanity/route.ts:28-36 | the listing is the words, their count, the version and the date |
| WordStore.PostRefusesBadInput | src/app/api/admin/profanity/route.ts:66-79 | a missing or non-string word gets 400 "Invalid word", an all-whitespace one 400 "Word cannot be empty", and nothing changes |
| WordStore.PostRefusesDuplicate | src/app/api/admin/profanity/route.ts:84-89 | a word already present after normalising gets 400 "Word already exists", and nothing changes |
| WordStore.PostAddsWord | src/app/api/admin/profanity/route.ts:92-106 | the new list is the sorted old list plus the word: one longer, in ascending order, the same multiset plus the word, dated today, `totalWords` its length |
| WordStore.DeleteRefuses | src/app/api/admin/profanity/route.ts:137-154 | a missing or empty parameter gets 400, an absent word 404, and nothing changes |
| WordStore.DeleteRemovesWord | src/app/api/admin/profanity/route.ts:144-170 | exactly the element at `indexOf` is removed, the rest keep their order, the list is one shorter, and without repeats the word is gone |
| WordStore.AddThenDeleteRestores | src/app/api/admin/profanity/route.ts:92-157 | on a sorted list, adding a new word and deleting it again restores the list |
| UserImport.RoleOf | src/app/api/admin/users/import/route.ts:65-66 | the role is the given one when truthy, else "s" |
| UserImport.RowVerdict | src/app/api/admin/users/import/route.ts:42-118 | the outcome for one row; characterised by `RowVerdictSpec` |
| UserImport.RunRows | src/app/api/admin/users/import/route.ts:37-119 | the rows processed in order, each against the emails registered so far; characterised by `RunRowsBookkeeping`, `RunRowsRegisters` and `SameRowTwice` |
| UserImport.ImportOf | src/app/api/admin/users/import/route.ts:7-130 | the answer of the import; characterised by `ImportGate` |
| UserImport.RowVerdictSpec | src/app/api/admin/users/import/route.ts:42-118 | a row is inserted exactly when every check passes; each of the five messages is given exactly when its check is the first to fail, in the order fields, email, role, existing email, insert |
| UserImport.RunRowsBookkeeping | src/app/api/admin/users/import/route.ts:31-119 | success + failed is the number of rows, one error per failure, error rows between 2 and n + 1 and strictly increasing |
| UserImport.RunRowsRegisters | src/app/api/admin/users/import/route.ts:78-109 | emails are only added, each new one comes from a row, and at most one per success |
| UserImport.RegisteredGrows | src/app/api/admin/users/import/route.ts:78-109 | the registered emails only grow from row to row |
| UserImport.SameRowTwice | src/app/api/admin/users/import/route.ts:78-92 | a row repeated after its first copy was inserted is refused as an existing email |
| UserImport.ImportGate | src/app/api/admin/users/import/route.ts:12-29 | rows are processed exactly when the caller is an administrator, the database exists and `users` is a non-empty array; refusals are 401, 403, 500 and 400 in that order |
| UserImport.Import | src/app/api/admin/users/import/route.ts:7-130 | the handler's answer is `ImportOf`, and the registered emails afterwards are those of the row loop |
| Pagination.Range | src/components/ui/pagination.tsx:24-26 | the pages `lo..hi`, ascending and contiguous |
| Pagination.ViewOf | src/components/ui/pagination.tsx:28-121 | nothing is rendered exactly when there is at most one page; first and previous are disabled exactly on page 1, next and last exactly on the last page; the buttons' targets |
| Pagination.Paginate | src/components/ui/pagination.tsx:12-124 | the window computation and the loop give `ViewOf` |
| Pagination.WindowBounds | src/components/ui/pagination.tsx:17-22 | 1 <= start <= current <= end <= total, and the window has min(5, total) pages |
| Pagination.PagesAreWindow | src/components/ui/pagination.tsx:13-26 | the listed pages run from start to end by one, number min(5, total) and hold the current page |
| Pagination.EdgesByPosition | src/components/ui/pagination.tsx:56-98 | the leading 1 shows exactly when total > 5 and current > 3; the leading ellipsis when total > 6 and current > 4; the trailing ones symmetrically |
| Pagination.EveryPageAccountedFor | src/components/ui/pagination.tsx:56-98 | every page is listed, has its own edge button, or lies in a gap marked by an ellipsis |
| Auth.HasRole | src/lib/auth.ts:119-132 | the role check; characterised by `HasRoleIsOrder` and `RoleTable` |
| Auth.IsAdmin | src/lib/auth.ts:135-137 | `hasRole(user, 'a')`, by `ShortcutsAreHasRole` |
| Auth.IsTeacherOrAdmin | src/lib/auth.ts:140-142 | `hasRole(user, 't')`, by `ShortcutsAreHasRole` |
| Auth.HasRoleIsOrder | src/lib/auth.ts:119-132 | a user holds exactly the roles at or below their own in the order student, teacher, admin; nobody signed out holds any |
| Auth.RoleTable | src/lib/auth.ts:120-131 | an admin has every role, a teacher all but admin, a student only student, and null none |
| Auth.HasRoleReflexive | src/lib/auth.ts:119-132 | a user holds their own role |
| Auth.HasRoleTransitive | src/lib/auth.ts:119-132 | holding a role that holds another gives the other |
| Auth.ShortcutsAreHasRole | src/lib/auth.ts:135-142 | `isAdmin` is `hasRole(_, 'a')` and `isTeacherOrAdmin` is `hasRole(_, 't')` |
| Auth.CharsetIsAlphanumeric | src/lib/auth.ts:146 | the charset has 62 characters: exactly the ASCII letters and digits |
| Auth.CharOfDraw | src/lib/auth.ts:150 | every draw in [0, 1) picks a letter or a digit |
| Auth.GenerateRandomPassword | src/lib/auth.ts:145-154 | exactly `length` characters (none for a negative length), the i-th picked by the i-th draw, all letters or digits |
| Utils.RoleDisplayName | src/lib/utils.ts:79-94 | the role's label in Thai or English; distinct roles have distinct labels by `RoleTablesInjective` |
| Utils.RoleColor | src/lib/utils.ts:97-105 | the role's badge colour classes; distinct by `RoleTablesInjective` |
| Utils.IsValidEmail | src/lib/utils.ts:108-111 | the email test; characterised by `IsValidEmailIff` |
| Utils.FormatRelativeTime | src/lib/utils.ts:32-70 | the relative-time phrase; characterised by `FirstFit`, `JustNow` and `LongestIntervalWins` |
| Utils.SliceTo | src/lib/utils.ts:75 | `slice(0, end)` is the prefix of length `end`, counted from the end when `end` is negative |
| Utils.TruncateText | src/lib/utils.ts:73-76 | a text that fits is unchanged; a longer one with a non-negative `maxLength` is its first `maxLength` characters plus "...", `maxLength + 3` long; with a negative `maxLength` it is the text less its last `-maxLength` characters (none left if that is all of them) plus "...", so a non-empty text loses at least one character and an empty one becomes "..." |
| Utils.RoleTablesInjective | src/lib/utils.ts:79-105 | in each language, and in the colours, distinct roles give distinct entries |
| Utils.IsValidEmailIff | src/lib/utils.ts:108-111 | an address passes exactly when it is `a@b.c` with non-empty `a`, `b`, `c` free of whitespace and `@`, `b` possibly with dots |
| Utils.ValidEmailHasShape | src/lib/utils.ts:108-111 | every accepted address has the form `a@b.c` |
| Utils.ShapeIsValidEmail | src/lib/utils.ts:108-111 | every address of the form `a@b.c` is accepted |
| Utils.GetInitials | src/lib/utils.ts:140-147 | at most two characters |
| Utils.GetInitialsOfWords | src/lib/utils.ts:140-147 | the initials are the upper-cased first characters of the first two non-empty words; empty words contribute nothing |
| Utils.FirstFit | src/lib/utils.ts:58-60 | the first interval from the given one on whose whole count is at least 1, none before it fitting |
| Utils.JustNow | src/lib/utils.ts:58-69 | under one second, or in the future, reads "just now" / "เมื่อสักครู่"; from one second on some interval fits |
| Utils.LongestIntervalWins | src/lib/utils.ts:58-66 | the phrase names the longest interval that fits, with the whole count |
| Utils.TwoYearsAgo | src/lib/utils.ts:58-66 | two years ago reads "2 year agos" in English and "2 ปีที่แล้ว" in Thai |
| I18n.ThaiTableWellFormed | src/lib/i18n.ts:6-280 | the Thai table has 225 keys, each with its text |
| I18n.EnglishTableWellFormed | src/lib/i18n.ts:285-559 | the English table has 225 keys, each with its text |
| I18n.SameKeys | src/lib/i18n.ts:3-561 | both tables define the same keys, in the same order |
| I18n.Lookup | src/lib/i18n.ts:564 | an unknown key, or one with an empty text, gives the key itself; otherwise the key's text |
| I18n.UnknownKeyIsKept | src/lib/i18n.ts:564 | with tables that share their keys, an unknown key comes back unchanged in both languages |
| I18n.ReplaceFirst | src/lib/i18n.ts:568 | `replace` with a string pattern; characterised by `ReplacesFirstOccurrence`, `ReplaceWithoutOccurrence` and `SecondOccurrenceSurvives` |
| I18n.SubstituteAll | src/lib/i18n.ts:566-570 | the parameters applied in order; characterised by `SubstituteAllSnoc` and `AbsentPlaceholder` |
| I18n.FindFrom | src/lib/i18n.ts:568 | the first occurrence of the placeholder at or after a position, or -1 when there is none |
| I18n.ReplacesFirstOccurrence | src/lib/i18n.ts:568 | `replace` with a string pattern changes the first occurrence only |
| I18n.ReplaceWithoutOccurrence | src/lib/i18n.ts:568 | a text without the placeholder is unchanged |
| I18n.SecondOccurrenceSurvives | src/lib/i18n.ts:568 | a later occurrence of the placeholder survives the replacement |
| I18n.SubstituteAllSnoc | src/lib/i18n.ts:566-570 | the parameters apply one after the other, in order |
| I18n.AbsentPlaceholder | src/lib/i18n.ts:568 | a parameter whose placeholder is absent leaves the text unchanged |
| I18n.GetTranslation | src/lib/i18n.ts:563-573 | without parameters, the lookup; with them, the lookup with each parameter's first placeholder replaced in order |

## Left out

- File and JSON I/O:
  - the dictionary file is the `Store` object;
  - the filter's word list is the constructor's argument;
  - the read and write failures (the 500 answers and `loadProfanityWords` falling back to an empty list) are not modelled.
- Malformed request bodies: a `POST` body that is not JSON, and import rows that are not objects, are not modelled.
- Foreign calls are parameters:
  - `verifyToken` is a function from tokens to users;
  - whether the admin database client exists is a boolean;
  - for the import, an oracle tells for each row whether hashing or inserting throws.

  bcrypt, JWT signing, cookies and the Supabase queries themselves are not modelled.
- The existing-email look-up of the import is membership in the set of registered emails. This set starts from a parameter and grows with every inserted row.
- Time is a parameter:
  - `formatRelativeTime` takes both instants in milliseconds;
  - the dictionary's new date is `today`.

  Date parsing and `toISOString` are not modelled.
- Randomness is a parameter: `generateRandomPassword` takes the sequence of `Math.random()` draws.
- The module-level `profanityFilter` singleton is not modelled. The dictionary route never updates it, so it can drift from the file, and the model does not join the two.
- Case mapping is ASCII only. This covers `toLowerCase`, `toUpperCase` and the `i` flag. Unicode letters outside ASCII are left as they are.
- Strings are sequences of UTF-16 code units. Surrogate pairs are not treated specially.
- Dictionary words are plain text. A word holding regular-expression metacharacters would change the meaning of the generated expressions, or make them throw; this is not modelled.
- `String.prototype.replace` is modelled for replacement text without `$` patterns, in both `filter` and `getTranslation`.
- `Object.entries` is modelled in declaration order:
  - for the interval table this is the real order, since its keys are not integer-like;
  - parameter names of `getTranslation` that look like integers would come first in JavaScript, and this is not modelled.
- `validate` treats an option that is present but `undefined` as absent. JavaScript's object spread would let it override the default.
- The upper-case share test `upper / letters > 0.7` is evaluated in floating point in the source. The model uses the exact rational comparison `10 * upper > 7 * letters`, which agrees except where a floating-point rounding would cross 0.7.
- The JSX markup of the pagination component is reduced to a `View` value. Styling and the click handlers' side effects are not modelled.
- `getTranslation` looks keys up with `LastIndexOf` over the table's key list, as a later key in an object literal would win. Prototype keys such as `constructor` are not modelled.
- Default arguments are not modelled as optional parameters. The members take explicitly the values a caller would otherwise get by default:
  - `length = 8` of `generateRandomPassword`;
  - `locale = 'th'` of `formatRelativeTime` and `getRoleDisplayName`;
  - `replacement = '***'` of `filter` (`DefaultReplacement`, the value `check` passes);
  - `min = 10` and `max = 5000` of `validateLength`.
- Import row fields are strings or absent. A field of another type, such as a number read from a spreadsheet cell, is not modelled: `bcrypt.hash` would throw on a numeric password, and a numeric role would fail the role check.
- `getTranslation` parameters are strings or integers. Numbers that are not integers, written as `String(1.5)` gives `"1.5"`, are not modelled.
- Pages, limits and counts are unbounded integers. JavaScript numbers lose precision beyond 2^53; this is not modelled.
