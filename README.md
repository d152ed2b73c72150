# Superhero name generator, modelled in Dafny

The server of this application turns a real name and a keyword into a
superhero name. This project models that core:

- `createSuperheroName`, with its prefix and suffix vocabularies and its
  six templates;
- the `blendWords` helper;
- the length cap and its fallback;
- the request validation in `server/src/schema.ts`.

It then proves what the code guarantees about its output.

Randomness is taken out. Each `getRandomElement` call becomes an explicit
index, and the indices are gathered in `Generator.Draws`:

- the template (0 to 5, in the order of the `strategies` array, so index 0
  is the code's "Strategy 1");
- the prefix the template draws;
- the suffix the template draws;
- the fresh suffix of the length fallback.

`Draws.Valid()` keeps each index inside its array, which is exactly the
range `Math.floor(Math.random() * array.length)` can produce. The six
templates are closures over the two arrays. `Generator.Template` therefore
takes the lists as parameters, and `Generator.Candidate` passes it the
real vocabularies. With the draws fixed, the generator is a total,
deterministic function of `(realName, keyword)`.

Files:

- `text.dfy` (module `Text`): the JavaScript string built-ins the generator
  uses, over ASCII:
  - `trim`;
  - `toLowerCase` and `toUpperCase`;
  - `charAt`;
  - `slice`, including negative and out-of-range indices;
  - `split(/\s+/)`, including the `[""]` it returns for an empty string.
- `blend.dfy` (module `Blend`): `blendWords`.
- `generator.dfy` (module `Generator`):
  - the vocabularies;
  - the name and keyword preparation;
  - the alliteration search;
  - the six templates;
  - `createSuperheroName` and its length cap;
  - the properties of all of these.
- `schema.dfy` (module `Schema`): the zod input schemas. They are modelled
  as functions that list every failed check, and the history limit gets its
  default.
- `scenarios.dfy` (module `Scenarios`): one request with fixed draws,
  evaluated completely.
- `wrappers.dfy` (module `Wrappers`): `Option` and `Result`.

The test at server/src/tests/generate_superhero_name.test.ts:105 expects
a name of at most 50 characters for its input, and the comment at
server/src/handlers/generate_superhero_name.ts:103 speaks of keeping the
result to a "reasonable length". The code does not guarantee 50 characters
for every input, and the model follows the code. A template result over 50 characters is replaced by
`capitalizedKeyword + " " + suffix`, and that replacement is not checked
again. With a validated keyword of up to 50 characters it can reach
50 + 1 + 9 = 60 characters. `Generator.FallbackExceedsCap` shows names
longer than 50 characters occur, and `Generator.AcceptedInputLengthBound`
proves 60 is the real bound.

## Model

| member | source | states |
|---|---|---|
| Text.ToLower | server/src/handlers/generate_superhero_name.ts:40 | `toLowerCase` keeps the length and lower-cases each character on its own (only A-Z change) |
| Text.ToUpper | server/src/handlers/generate_superhero_name.ts:41 | `toUpperCase` keeps the length and upper-cases each character on its own (only a-z change) |
| Text.CharAt | server/src/handlers/generate_superhero_name.ts:41 | `charAt(i)` has at most one character, is empty exactly when `i` is past the end, and otherwise holds `s[i]` |
| Text.Slice | server/src/handlers/generate_superhero_name.ts:127 | `slice(start, end)` with in-range indices is the substring between them; `slice(0, end)` is the prefix of length `min(end, len)` |
| Text.SliceFrom | server/src/handlers/generate_superhero_name.ts:130 | `slice(start)` is always a suffix; its length is `len - start` for an in-range start, and `min(-start, len)` for a negative start |
| Text.Capitalize | server/src/handlers/generate_superhero_name.ts:136 | `charAt(0).toUpperCase() + slice(1)` keeps the length, upper-cases the first character and leaves the rest unchanged |
| Text.LowerOfCapitalized | server/src/handlers/generate_superhero_name.ts:40-41 | lower-casing a capitalised lower-case string gives back the lower-case string |
| Text.Trim | server/src/handlers/generate_superhero_name.ts:35 | `trim` is empty iff the input is all whitespace, and otherwise starts and ends with a non-space |
| Text.TrimIsMiddle | server/src/handlers/generate_superhero_name.ts:35 | what `trim` keeps is a substring of the input with only whitespace before and after it |
| Text.SplitFrom | server/src/handlers/generate_superhero_name.ts:35 | `split(/\s+/)` yields at least one piece, and no piece contains whitespace |
| Text.Split | server/src/handlers/generate_superhero_name.ts:35 | `split(/\s+/)` of a whole string yields at least one piece, and no piece contains whitespace |
| Text.SplitFirst | server/src/handlers/generate_superhero_name.ts:35-36 | the first piece is the longest whitespace-free prefix of the string; it is non-empty when the string starts with a non-space |
| Text.SplitFromLast | server/src/handlers/generate_superhero_name.ts:35-37 | the last piece of the split of `t[p..]` is the run from `LastPieceStart(t, p)` to the end: whitespace-free, and preceded by whitespace unless it is all of `t[p..]` |
| Text.SplitLast | server/src/handlers/generate_superhero_name.ts:35-37 | the last piece is the longest whitespace-free suffix of the string; it is non-empty when the string ends with a non-space |
| Blend.FirstCandidate | server/src/handlers/generate_superhero_name.ts:127 | `blend1` is the first `floor(len1/2)` characters of the first word followed by the second word from position `floor(len2/2)` on |
| Blend.SecondCandidate | server/src/handlers/generate_superhero_name.ts:130 | `blend2` is the first `max(2, floor(len1/2))` characters of the first word (all of it if shorter) followed by its last `max(2, len2 - floor(len2/2))` characters of the second word (all of it if shorter) |
| Blend.SecondCandidateNotShorter | server/src/handlers/generate_superhero_name.ts:123-133 | `blend1` has length `floor(len1/2) + (len2 - floor(len2/2))` and `blend2` is never shorter, so the comparison always picks `blend1` |
| Blend.BlendWords | server/src/handlers/generate_superhero_name.ts:117-137 | the blend is the capitalised front half of the lower-cased first word followed by the back half of the lower-cased second word, with exactly that length |
| Text.CapitalizeNoUpper | server/src/handlers/generate_superhero_name.ts:136 | capitalising a string without upper-case letters leaves its first character not lower-case and no later character upper-case |
| Blend.BlendIsTitleCase | server/src/handlers/generate_superhero_name.ts:119-136 | over ASCII the blend's first character is not a lower-case letter and no later character is an upper-case letter |
| Generator.NameWords | server/src/handlers/generate_superhero_name.ts:35 | the trimmed name splits into at least one word, so `nameWords[0]` and the last word always exist |
| Generator.FirstName | server/src/handlers/generate_superhero_name.ts:35-36 | the first name contains no whitespace and is no longer than the trimmed name |
| Generator.LastName | server/src/handlers/generate_superhero_name.ts:35-37 | the last name contains no whitespace and is no longer than the trimmed name |
| Generator.CleanKeyword | server/src/handlers/generate_superhero_name.ts:40 | the clean keyword is as long as the trimmed keyword, has no upper-case letter, and is empty iff the keyword is all whitespace |
| Generator.FirstNameIsFirstWord | server/src/handlers/generate_superhero_name.ts:35-36 | the first name is a whitespace-free prefix of the trimmed name followed by whitespace or the end, and is empty iff the name is all whitespace |
| Generator.LastNameIsLastWord | server/src/handlers/generate_superhero_name.ts:35-37 | the last name is a whitespace-free suffix of the trimmed name preceded by whitespace or the start, and is empty iff the name is all whitespace |
| Generator.NameParts | server/src/handlers/generate_superhero_name.ts:35-37 | first and last name contain no whitespace; both are empty for an all-whitespace name; otherwise they are the non-empty first and last whitespace-separated words of the trimmed name |
| Generator.CapitalizedKeyword | server/src/handlers/generate_superhero_name.ts:40-41 | the capitalised keyword is as long as the trimmed keyword, empty iff the keyword is all whitespace, has the trimmed keyword's first character upper-cased and the rest lower-cased |
| Generator.CapitalizedKeywordLowered | server/src/handlers/generate_superhero_name.ts:40-41 | lower-casing the capitalised keyword gives back the clean keyword |
| Generator.InitialIs | server/src/handlers/generate_superhero_name.ts:88 | the `find` predicate holds iff the letter is the lower-cased first character of the entry, or both are empty |
| Generator.FindByInitial | server/src/handlers/generate_superhero_name.ts:88 | `find` returns the first entry whose lower-cased initial is the letter, or nothing when no entry has it |
| Generator.FindByInitialFirst | server/src/handlers/generate_superhero_name.ts:88 | when entry `k` is the first with the initial, `find` returns entry `k` |
| Generator.Alliterative | server/src/handlers/generate_superhero_name.ts:79-95 | the alliterative template is always the capitalised keyword, a space and one entry of the suffix list |
| Generator.AlliterativeFirstMatch | server/src/handlers/generate_superhero_name.ts:86-91 | when the initials differ, the alliterative template uses the first suffix in list order with the first name's initial, provided that suffix is non-empty (truthy) |
| Generator.AlliterativeUsesDraw | server/src/handlers/generate_superhero_name.ts:83-94 | when the initials agree, or no suffix has the first name's initial, the alliterative template uses the drawn suffix |
| Generator.Template | server/src/handlers/generate_superhero_name.ts:44-97 | every one of the six templates, over any prefix and suffix lists, produces a string containing a space |
| Generator.TemplateLength | server/src/handlers/generate_superhero_name.ts:44-97 | no template is longer than the longest prefix and suffix, two spaces, the capitalised keyword and the longer name part |
| Generator.Candidate | server/src/handlers/generate_superhero_name.ts:99-101 | the template a request's draw picks yields a string with a space and at most 25 + trimmed-keyword length + trimmed-name length characters |
| Generator.PrefixesAtMostFourteen | server/src/handlers/generate_superhero_name.ts:22-26 | no prefix is longer than 14 characters, and "The Invincible" has 14 |
| Generator.CandidateBoundReached | server/src/handlers/generate_superhero_name.ts:46-50 | for a blank real name, template 1 with "The Invincible" and "Lightning" reaches the bound of `Candidate` exactly |
| Generator.ShortInputsKeepTemplate | server/src/handlers/generate_superhero_name.ts:100-110 | when the trimmed name and keyword have at most 25 characters together, the fallback never replaces the template's output |
| Generator.CreateSuperheroName | server/src/handlers/generate_superhero_name.ts:20-111 | the name contains a space, and has at most 50 characters unless it is the fallback of trimmed-keyword length + 1 + fallback-suffix length |
| Generator.NameNonEmpty | server/src/handlers/generate_superhero_name.ts:46-108 | no generated name is empty |
| Generator.LengthCap | server/src/handlers/generate_superhero_name.ts:100-110 | a template result of at most 50 characters is returned unchanged; a longer one is replaced by capitalised keyword, space and the fallback suffix |
| Generator.SuffixesAtMostNine | server/src/handlers/generate_superhero_name.ts:28-32 | no suffix is longer than 9 characters, and "Lightning" has 9 |
| Generator.SuffixesNonEmpty | server/src/handlers/generate_superhero_name.ts:28-32 | every suffix has at least one character, so finding an entry means the result is truthy |
| Generator.AcceptedInputLengthBound | server/src/handlers/generate_superhero_name.ts:104-108 | for any request the schema accepts, the name has at most 50 + 1 + 9 = 60 characters |
| Generator.FallbackExceedsCap | server/src/handlers/generate_superhero_name.ts:104-108 | an accepted 50-character keyword without surrounding whitespace, under template 5, gives a name of 51 + suffix length, so more than 50, characters |
| Generator.TemplateKeepsKeyword | server/src/handlers/generate_superhero_name.ts:46-96 | templates 1, 5 and 6 contain the capitalised keyword verbatim: after the prefix and a space in template 1, at the start in templates 5 and 6 |
| Generator.FallbackKeepsKeyword | server/src/handlers/generate_superhero_name.ts:104-108 | when the template result is over 50 characters, the name starts with the capitalised keyword |
| Generator.KeptTemplateKeepsKeyword | server/src/handlers/generate_superhero_name.ts:46-108 | a result of template 1, 5 or 6 that fits the cap holds the capitalised keyword where the template put it |
| Generator.KeywordKept | server/src/handlers/generate_superhero_name.ts:44-108 | under templates 1, 5 and 6, and whenever the fallback replaces the template, the name contains the capitalised keyword and its lower-case form contains the clean keyword |
| Generator.TemplateIsAlliterative | server/src/handlers/generate_superhero_name.ts:78-96 | template 6, over any lists, is the alliterative template over the first name, the keywords and the drawn suffix |
| Generator.CandidateIsAlliterative | server/src/handlers/generate_superhero_name.ts:78-96 | template 6 of a request is the alliterative template over its first name, keywords and drawn suffix |
| Generator.AlliterationTakesFirstMatch | server/src/handlers/generate_superhero_name.ts:79-91 | for a request under template 6 whose keyword does not share the first name's initial, the template result uses the first suffix in list order with that initial |
| Generator.NoSuffixHasEmptyInitial | server/src/handlers/generate_superhero_name.ts:88 | no suffix matches an empty initial |
| Generator.AlliterationUsesDraw | server/src/handlers/generate_superhero_name.ts:80-94 | for a request under template 6, the drawn suffix is used when the initials agree, when no suffix matches, and always when the first name is empty and the keyword is not blank |
| Generator.BlankInputGeneratesName | server/src/schema.ts:6-7 | whitespace-only inputs pass validation; the generator then sees an empty keyword and empty name parts, and still returns a non-empty name |
| Schema.GenerateInputIssues | server/src/schema.ts:5-8 | a request has no issues iff the real name has 1 to 100 characters and the keyword 1 to 50; each issue is reported exactly when its check fails |
| Schema.LimitIssues | server/src/schema.ts:25 | a given limit has no issues iff it is an integer with 0 < limit <= 100 |
| Schema.ParseLimit | server/src/schema.ts:25 | an absent limit becomes 10; a given limit is accepted, as itself, iff it is an integer in 1..100; a rejection names at least one failed check |
| Scenarios.ClarkKentWords | server/src/handlers/generate_superhero_name.ts:35 | "Clark Kent" splits into "Clark" and "Kent" |
| Scenarios.IceKeyword | server/src/handlers/generate_superhero_name.ts:40-41 | the keyword "ice" is capitalised to "Ice" |
| Scenarios.IceKentBlend | server/src/handlers/generate_superhero_name.ts:117-137 | blending "Ice" with "Kent" gives "Int" |
| Scenarios.BlendDropsIce | server/src/handlers/generate_superhero_name.ts:66-70 | template 4 with "Ice" and last name "Kent" gives "The Int" |
| Scenarios.BlendCanDropKeyword | server/src/handlers/generate_superhero_name.ts:66-70 | "Clark Kent" with "ice" under template 4 gives "The Int", whose lower-case form does not contain "ice"; the test expectation at server/src/tests/generate_superhero_name.test.ts:144 therefore holds only for some draws |

## Left out

- `generateSuperheroName` (server/src/handlers/generate_superhero_name.ts:6-18) is not modelled. It inserts the raw inputs and the name into the database and returns the stored row, which is database I/O. The stored `real_name` and `keyword` keep their whitespace there.
- `getRandomElement`'s distribution is not modelled. `Math.random` becomes the indices in `Draws`, so the model says what each choice produces, not how likely it is.
- Unicode is not modelled. That covers whitespace beyond the six ASCII characters (for example U+00A0 for `\s` and `trim`), case mappings beyond A-Z and a-z (some change the length), and UTF-16 surrogate pairs in `length`, `charAt` and `slice`. The model works on ASCII text.
- Schema.GenerateInputIssues: the `z.string()` type check is not modelled. Both fields are strings here, while zod also rejects a missing or non-string `realName` or `keyword` before the length checks.
- Schema.ParseLimit: a non-number, `NaN` or an infinite `limit` is not modelled. The limit is a real number, and zod rejects those other values before these checks.
- The response schema `superheroNameSchema` (server/src/schema.ts:13-19) is not modelled. It only describes the shape of a returned row.
- server/src/handlers/get_superhero_names.ts is not part of this model. It is a single database query, and the ordering and the limit are applied by the database.
- server/src/db/schema.ts, server/src/index.ts and client/src/App.tsx are not part of this model. They hold a table declaration, the RPC and HTTP wiring, and the user interface.
