# Spellcheck model

A Dafny model of the checking core of a small command-line spell checker.
`spellcheck(content, dictionary, editDistanceLimit)` splits the text into
lines and finds the word matches of each line (`/\w+/g`). It skips matches
made only of digits and matches that look like proper nouns. It lower-cases
the rest and looks each one up in the dictionary. For every match that is not
found, it records:

- the lower-cased word;
- the dictionary entries within the edit-distance limit, ordered by
  Levenshtein distance;
- the words around the first match on its line that has the same text (which may be an earlier occurrence than the reported one);
- the 1-based line and column.

The model follows the shape of the program:

| file | module | what it models |
|---|---|---|
| `text.dfy` | `Text` | `split`, `join`, `indexOf` and ASCII `toLowerCase` on strings |
| `tokenizer.dfy` | `Tokenizer` | the matches of `/\w+/g`, as maximal runs of `[A-Za-z0-9_]` with their offsets |
| `classifier.dfy` | `Classifier` | `isOnlyDigits` and the backward scan of `isProperNoun` |
| `levenshtein.dfy` | `Levenshtein` | `calculateLevenshteinDistance` |
| `ranking.dfy` | `Ranking` | `findSuggestions` |
| `context.dfy` | `Context` | `getContext` |
| `spellcheck.dfy` | `Spellcheck` | the driver |

Most pieces are modelled as functions. The code that works by changing state
is modelled as methods:

- `calculateLevenshteinDistance` is a method over a two-dimensional array. It
  is proved to return the Levenshtein recurrence `EditDistance`. The metric
  facts are proved about `EditDistance`: zero exactly on equal strings,
  symmetry, length bounds and the triangle inequality.
- The collecting loop of `findSuggestions` is a method. It is proved to return
  `Values(SortByDistance(Candidates(...)))`.
- `isProperNoun`'s count-down loop is a method.
- The driver's `forEach` / `for...of` nest is a method that is proved to return
  `Check(content, dictionary, limit)`. The driver's promises are proved as
  lemmas about `Check`:
  - every record is the record of a flagged match;
  - records are in line-then-column order;
  - a match is reported exactly when it is flagged;
  - a dictionary word is never reported;
  - empty content yields no records.

`Array.prototype.sort` with the comparator `a.distance - b.distance` is
specified as a stable insertion sort by distance. That sort is proved to be a
permutation that is ordered by distance and keeps entries of equal distance
in dictionary order.

`isProperNoun` is modelled as written: the backward scan starts at the match's
own first character. The comment above it describes a period /
start-of-sentence rule that the code does not carry out. For real matches the
test comes down to "the first letter is upper-case and the match is not at
offset 0". A capitalised match right after ". " is therefore still skipped
(`Classifier.PeriodBeforeTokenIgnored`). The model follows the code.

## Model

| member | source | states |
|---|---|---|
| Text.Split | spellcheck.ts:16 | `split` on a one-character separator yields at least one piece, and no piece contains the separator |
| Text.Join | spellcheck.ts:143 | definition: `join(sep)`, the pieces with one separator between neighbours and nothing for an empty list |
| Text.JoinSplit | spellcheck.ts:16 | joining the pieces of a split at the same separator gives back the original string |
| Text.SplitJoin | spellcheck.ts:143 | splitting a join of separator-free pieces gives back the pieces |
| Text.JoinEmpty | spellcheck.ts:143 | a join of non-empty pieces is empty exactly when there are no pieces |
| Text.IndexOf | spellcheck.ts:30 | `indexOf` returns -1 exactly when the element is absent; otherwise it returns a position holding the element with no earlier occurrence |
| Text.ToLower | spellcheck.ts:29 | lower-casing keeps the length, turns each upper-case letter A-Z into its own lower-case letter (code + 32), keeps every other character, leaves no upper-case letter, and keeps word characters as word characters |
| Text.ToLowerIdempotent | spellcheck.ts:29 | lower-casing an already lower-cased string changes nothing |
| Text.ToLowerCaseInsensitive | spellcheck.ts:29 | strings that differ only in the case of their letters lower-case to the same string, so the dictionary lookup ignores case |
| Text.IsDigit | spellcheck.ts:50 | definition: `\d`, the characters 0-9 |
| Text.IsWordChar | spellcheck.ts:17 | definition: `\w` without the `u` and `i` flags, the characters A-Z, a-z, 0-9 and `_` |
| Tokenizer.RunEnd | spellcheck.ts:17 | a run of word characters extends exactly to the first non-word character or the end of the line |
| Tokenizer.Token | spellcheck.ts:18-19 | definition: one match, its text `[word]` and its start offset `index` |
| Tokenizer.TokensFrom | spellcheck.ts:17 | a global search resumed at position i finds only matches at offset i or later |
| Tokenizer.Tokens | spellcheck.ts:17 | definition: the matches of `line.matchAll(/\w+/g)`, the global search started at offset 0 |
| Tokenizer.TokensFromWellFormed | spellcheck.ts:17-19 | every match found from i on is a maximal non-empty run of word characters whose text is the line's slice at its offset, and consecutive matches are separated by at least one character |
| Tokenizer.TokensWellFormed | spellcheck.ts:17-19 | every match of the line is a maximal run of word characters at its offset, and the matches do not overlap or touch |
| Tokenizer.TokenOffsetsIncrease | spellcheck.ts:17-19 | match offsets strictly increase, as `matchAll` yields them left to right |
| Tokenizer.TokenAtOffsetUnique | spellcheck.ts:17-19 | two matches at the same offset are the same match |
| Tokenizer.TokensCover | spellcheck.ts:17 | a position lies inside some match exactly when it holds a word character |
| Tokenizer.Words | spellcheck.ts:133 | the word list has one entry per match; each entry is non-empty, made of word characters only, and equals the line's characters at that match's offset |
| Classifier.IsOnlyDigits | spellcheck.ts:49-51 | definition: `/^\d+$/` holds of a non-empty string whose every character is a decimal digit |
| Classifier.StartsWithUpper | spellcheck.ts:59 | definition: `/^[A-Z]/.test(word)`, a non-empty word whose first character is A-Z |
| Classifier.ProperNounRule | spellcheck.ts:58-78 | definition: the word starts with A-Z, and the position the backward scan settles on is after 0 and does not hold a period |
| Classifier.IsProperNoun | spellcheck.ts:58-78 | the loop with its early returns answers true exactly when the word starts with A-Z and the first in-line position it inspects is after position 0 and is not a period |
| Classifier.ProperNounOfToken | spellcheck.ts:58-78 | for a match of the line, the scan inspects the match's own first character, the period branch can never fire, and the answer is "starts with A-Z and offset > 0" |
| Classifier.PeriodBeforeTokenIgnored | spellcheck.ts:53-78 | a capitalised match after offset 0 with a period anywhere before it on the line (right before it, or further back) is still classed as a proper noun, unlike the intent described in the comment |
| Levenshtein.Min3 | spellcheck.ts:124 | `Math.min` of three values is no larger than each of them and equals one of them |
| Levenshtein.Cost | spellcheck.ts:119 | definition: the substitution cost, 0 for equal characters and 1 otherwise |
| Levenshtein.Cell | spellcheck.ts:108-126 | definition: the matrix contents: row 0 and column 0 hold their index, every other cell the least of above + 1, left + 1 and diagonal + cost |
| Levenshtein.EditDistance | spellcheck.ts:99-130 | definition: the Levenshtein distance by the recurrence on prefixes (the other length for an empty string, else the least of delete, insert and match of the last characters), which the metric lemmas are about |
| Levenshtein.FillRow | spellcheck.ts:118-125 | given row i-1 and cell (i,0), the inner loop makes every cell of row i equal to the recurrence and leaves all other rows unchanged |
| Levenshtein.CellIsDistance | spellcheck.ts:117-126 | matrix cell (i,j) of the recurrence is the edit distance between the prefixes of lengths i and j |
| Levenshtein.LevenshteinDistance | spellcheck.ts:100-130 | the bottom-right cell of the filled matrix is the Levenshtein distance of the two strings |
| Levenshtein.DistanceToEmpty | spellcheck.ts:108-115 | the distance to or from the empty string is the other string's length, as the first row and column hold |
| Levenshtein.DistanceToSelf | spellcheck.ts:99-130 | a string is at distance 0 from itself |
| Levenshtein.DistanceZeroIff | spellcheck.ts:99-130 | the distance is 0 exactly when the strings are equal |
| Levenshtein.DistanceSymmetric | spellcheck.ts:99-130 | the distance does not depend on the order of the arguments |
| Levenshtein.DistanceUpperBound | spellcheck.ts:99-130 | the distance is at most the longer length |
| Levenshtein.DistanceLowerBound | spellcheck.ts:99-130 | the distance is at least the difference of the lengths |
| Levenshtein.DistanceTriangle | spellcheck.ts:99-130 | the distance obeys the triangle inequality |
| Ranking.Candidate | spellcheck.ts:85-90 | definition: one pushed element `{ value, distance }` |
| Ranking.Candidates | spellcheck.ts:85-92 | every pushed candidate carries the distance of its value to the word, and that distance is within the limit |
| Ranking.Values | spellcheck.ts:96 | mapping to values keeps the length |
| Ranking.Insert | spellcheck.ts:94-95 | definition: a candidate goes in front of the first element whose distance is not smaller than its own |
| Ranking.SortByDistance | spellcheck.ts:94-95 | definition: `.sort((a, b) => a.distance - b.distance)` as a stable insertion sort |
| Ranking.Suggestions | spellcheck.ts:80-97 | definition: the values of the sorted in-limit candidates, what `findSuggestions` returns |
| Ranking.FindSuggestions | spellcheck.ts:80-97 | the loop, sort and map return exactly the stable sort by distance of the in-limit entries, as values |
| Ranking.InsertPermutes | spellcheck.ts:94-95 | stable insertion adds exactly the inserted candidate, and its value to the values |
| Ranking.InsertSorted | spellcheck.ts:94-95 | inserting into a list sorted by distance keeps it sorted |
| Ranking.InsertStable | spellcheck.ts:94-95 | insertion keeps the order among candidates of each distance, with the inserted one first |
| Ranking.SortIsStableSort | spellcheck.ts:94-95 | the sort is a permutation, orders by non-decreasing distance, and keeps the input order among candidates of equal distance |
| Ranking.AtDistanceOfValues | spellcheck.ts:96 | for candidates that carry their own distance, picking one distance commutes with mapping to values |
| Ranking.CandidatesCount | spellcheck.ts:87-92 | each value is pushed as often as it occurs in the dictionary when within the limit, and never otherwise |
| Ranking.CandidatesAtDistance | spellcheck.ts:87-92 | the pushed values at distance d are the dictionary entries at distance d, in dictionary order, when d is within the limit, and none otherwise |
| Ranking.SuggestionsSpec | spellcheck.ts:80-97 | the suggestions are exactly the in-limit dictionary entries with their multiplicity, ordered by non-decreasing distance, with equal distances in dictionary order; a negative limit gives none |
| Context.Window | spellcheck.ts:139-143 | the slice from startIndex to endIndex holds at most 2n+1 words and contains the word at the found index |
| Context.ContextOf | spellcheck.ts:133-143 | definition: "" when the word is not among the words, otherwise the window around its first occurrence joined by single spaces |
| Context.GetContext | spellcheck.ts:132-144 | definition: `getContext(line, word, numberOfWords)`, the context of the word among the words of the line |
| Context.WordsAreSpaceFree | spellcheck.ts:133 | the words of a line are non-empty and contain no space |
| Context.WindowSpaceFree | spellcheck.ts:139-143 | the window is the slice clipped at 0 and at the line's word count, and its words are space-free |
| Context.JoinSpaceFree | spellcheck.ts:143 | joining a non-empty list of space-free words gives a non-empty string that splits back into the list |
| Context.ContextOfEmpty | spellcheck.ts:134-137 | for space-free words, the context is empty exactly when the word is not among them |
| Context.ContextOfSplit | spellcheck.ts:139-143 | splitting the context at spaces gives back the window around the word's first occurrence |
| Context.ContextSpec | spellcheck.ts:132-144 | the context is empty exactly when the word is not a match of the line; otherwise it splits into the clipped window of at most 2n+1 words around the word's first occurrence, and that window contains the word |
| Spellcheck.MispelledResult | spellcheck.ts:1-7 | definition: the record with the word, its suggestions, its context and its 1-based line and column numbers |
| Spellcheck.Lines | spellcheck.ts:16 | definition: `content.split('\n')` |
| Spellcheck.Flagged | spellcheck.ts:21-30 | definition: a match is reported when it is not all digits, not taken for a proper noun, and its lower-cased text is not in the dictionary |
| Spellcheck.Report | spellcheck.ts:31-41 | definition: the record pushed for a match: lower-cased word, its suggestions, the context of the match's text, line index + 1 and offset + 1 |
| Spellcheck.Check | spellcheck.ts:9-47 | definition: the records of the flagged matches of all lines, line after line and match after match |
| Spellcheck.LineSites | spellcheck.ts:17-43 | every flagged site of a line carries that line's index and one of its matches |
| Spellcheck.SitesUpTo | spellcheck.ts:16-44 | every site from the first n lines lies on one of those lines |
| Spellcheck.ReportAll | spellcheck.ts:31-41 | one record is pushed per flagged site |
| Spellcheck.CheckMatch | spellcheck.ts:17-42 | one pass of the loop body pushes the match's record exactly when the match is flagged, and nothing otherwise |
| Spellcheck.CheckLine | spellcheck.ts:16-44 | a line's callback pushes the records of the line's flagged matches, in match order |
| Spellcheck.Spellcheck | spellcheck.ts:9-47 | the driver returns the records of all flagged matches, line after line |
| Spellcheck.CheckOfEmptyContent | spellcheck.ts:16 | empty content yields no records |
| Spellcheck.FlaggedRule | spellcheck.ts:21-30 | a match is flagged exactly when it is not all digits, is not a capitalised match after offset 0, and its lower-cased form is not in the dictionary; a capitalised match at offset 0 is looked up |
| Spellcheck.LineSitesSound | spellcheck.ts:17-43 | every site of a line is a flagged match |
| Spellcheck.SitesUpToSound | spellcheck.ts:16-44 | every site is a match of its own line and is flagged |
| Spellcheck.LineSitesComplete | spellcheck.ts:17-43 | every flagged match of a line has its site |
| Spellcheck.SitesUpToComplete | spellcheck.ts:16-44 | every flagged match of the first n lines has its site |
| Spellcheck.LineSitesOrdered | spellcheck.ts:17-43 | the sites of a line come in strictly increasing offset order |
| Spellcheck.AppendLineInScanOrder | spellcheck.ts:16-44 | appending a later line's ordered sites keeps line-then-offset order |
| Spellcheck.SitesUpToOrdered | spellcheck.ts:16-44 | the sites come ordered by line, then by offset |
| Spellcheck.ResultsAreFlaggedMatches | spellcheck.ts:29-41 | each record holds the lower-cased text of a flagged match that is not in the dictionary and not all digits, its line index + 1, its offset + 1, its suggestions and its context |
| Spellcheck.ResultsInScanOrder | spellcheck.ts:16-44 | records are ordered by line, then by column, so no position is reported twice |
| Spellcheck.ReportedIffFlagged | spellcheck.ts:21-42 | a match's record is in the result exactly when the match is flagged, and any record at its position is its own |
| Spellcheck.InDictionaryNotReported | spellcheck.ts:30 | a match whose lower-cased form is in the dictionary has no record at its position |

## Left out

- Command-line handling is not part of this model: reading the arguments, checking that the files exist, reading and trimming them, splitting the dictionary file into lines, and printing the table. The caller also prepends `'a'` to the dictionary. The model takes the content and the dictionary as parameters.
- The regular-expression engine: `/\w+/g`, `/^\d+$/` and `/^[A-Z]/` are modelled by their meaning, character by character (`[A-Za-z0-9_]`, `[0-9]`, `[A-Z]`).
- `Text.ToLower`: only ASCII upper-case letters are mapped. JavaScript's `toLowerCase` also maps non-ASCII letters, but every text the driver lower-cases is a `\w` match, which is ASCII.
- JavaScript numbers are floating point. Distances, lengths and positions are modelled as unbounded naturals, and the limit as an integer. A fractional or non-finite `editDistanceLimit` is not modelled.
- `Ranking.SortByDistance`: the engine's sorting algorithm is not modelled. It is specified by its result, a sort by distance that is stable, as `Array.prototype.sort` is required to be.
- `Levenshtein.LevenshteinDistance`: the jagged `number[][]` rows are modelled as one `array2<nat>`. Rows created empty and filled on demand are therefore not modelled.
- JavaScript strings are sequences of UTF-16 code units, and Dafny strings are sequences of Unicode scalar values. Surrogate pairs are therefore not modelled: for a line holding a character outside the Basic Multilingual Plane (an emoji, say), the source's `index` and `columnNumber` of every later match count that character twice, while the model counts it once. Such a character also counts twice in the JavaScript `length` of a dictionary entry, so `calculateLevenshteinDistance` and hence the suggestions differ too: for the word "ab" and the entry "ab" followed by an emoji, the source's distance is 2 and the model's 1, so with limit 1 the model suggests the entry and the source does not.
- The default parameters: `editDistanceLimit = 2` of `spellcheck` is not modelled, so the limit is always passed explicitly. `numberOfWords = 2` of `getContext`, which the driver never overrides, is the constant `Context.ContextRadius`.
- Running time and memory use are not modelled.
