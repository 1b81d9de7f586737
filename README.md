# copy-ai-clone article generator, modelled in Dafny

The article generator asks a language model for an outline, for talking points
per header, for paragraphs per point, and for an introduction and a conclusion.
It then writes the article to a text file. This project models the parts of
`api.py` that are logic rather than remote calls:

- **The list parser `response_to_list`** (module `ListParser`, file
  `list_parser.dfy`). It turns a numbered-list reply into item strings. Each
  character is scanned once:
  - a character that is neither a digit nor ASCII punctuation goes into a buffer;
  - at a newline, a buffer that is not blank after stripping is emitted stripped,
    and the buffer is cleared;
  - at the end, a non-empty leftover buffer is emitted stripped.

  The scan is specified as a fold (`Step`, `Run`, `Finish`, `Parse`).
  `ResponseToList` is the loop itself, with its invariant tying it to the fold.
  Lemmas state what the fold guarantees:
  - character filtering, trimming, no newlines inside items;
  - non-empty items except possibly the last;
  - a bound on the number of items;
  - the empty and single-line cases;
  - the round trip with `"\n".join`.

  The final test compares the raw buffer with `""`, not its stripped form. A
  whitespace-only leftover therefore becomes a trailing empty item:
  `"1. A\n\n"` gives `["A", ""]`. The model keeps this as written.
- **The five prompt templates** (module `Prompts`), one pure function per
  f-string. Each has contracts saying that its inputs appear verbatim in it.
- **The text written to the output file** (module `Output`). `ArticleText` is
  the introduction and a newline, then for each section its header, a newline
  and its paragraphs joined by newlines, then the conclusion. Nothing separates
  one section from the next or from the conclusion. `WriteArticle` is the
  sequence of writes, proved equal to it.
- **The string primitives these rely on** (module `Text`): `str.isdigit`,
  `string.punctuation`, `str.strip` with its two halves, `str.join`, and
  substring containment (`t in s`).

## Model

| member | source | states |
|---|---|---|
| ListParser.ResponseToList | api.py:99-113 | the loop returns exactly the fold `Parse(response)`: keep non-digit non-punctuation characters, emit the stripped buffer at a newline when it is not blank, emit the stripped leftover when it is not empty; every item is well formed |
| ListParser.ParseWellFormed | api.py:103-112 | every item has no digit, no ASCII punctuation, no newline and no whitespace at either end; every item but the last is non-empty; the last is `""` exactly when the leftover buffer is non-empty and all whitespace |
| ListParser.RunReachable | api.py:103-109 | after any prefix of the input: emitted items are non-empty and well formed, the buffer holds only kept characters, and any newline in it has only whitespace before it |
| ListParser.StepReachable | api.py:103-109 | one iteration of the loop body preserves that invariant |
| ListParser.StripNoNewline | api.py:105-107 | stripping a buffer whose newlines sit in a whitespace-only prefix leaves no newline |
| ListParser.StripWellFormed | api.py:106-107 | the stripped buffer is well formed |
| ListParser.ParseLength | api.py:105-112 | at most one item per newline during the scan, and at most one more at the end |
| ListParser.Filter | api.py:103-104 | the kept characters are neither digits nor punctuation, are no more than the input, and are the whole input when every character passes the test |
| ListParser.RunWithoutNewline | api.py:102-105 | without a newline nothing is emitted during the scan and the buffer is exactly the kept characters |
| ListParser.ParseSingleLine | api.py:102-112 | a reply without a newline gives `[strip(kept)]`, or `[]` when no character is kept |
| ListParser.RunMarkers | api.py:103-105 | digits and punctuation leave the scan state unchanged |
| ListParser.ParseOnlyMarkers | api.py:100-110 | the empty reply, and any reply made only of digits and punctuation, gives `[]` |
| ListParser.RunAppend | api.py:102 | scanning `s + t` is scanning `s` then `t` |
| ListParser.RunLine | api.py:103-105 | a line of kept characters other than newline is appended to the buffer |
| ListParser.NewlineEmits | api.py:105-109 | a newline after a stripped non-empty item emits the item and clears the buffer |
| ListParser.RunJoin | api.py:102-109 | scanning `"\n".join(xs)` emits every item but the last and leaves the last in the buffer |
| ListParser.FinishItem | api.py:110-112 | a non-empty stripped leftover is emitted as is |
| ListParser.ParseJoinFromRun | api.py:110-113 | completing that scan returns the whole list |
| ListParser.ParseJoin | api.py:99-113 | round trip: `response_to_list("\n".join(xs)) == xs` for items that are non-empty, stripped, and free of digits, punctuation and newlines |
| ListParser.RunOne | api.py:102 | scanning one character is one iteration |
| ListParser.LineEmits | api.py:105-109 | a buffer of whitespace then an item is emitted as the item at the newline |
| ListParser.RunMarkedLine | api.py:102-109 | a line `marker, whitespace, item, newline` emits the item and leaves an empty buffer |
| ListParser.ParseTrailingBlankLine | api.py:110-112 | a numbered item followed by a blank line gives the item and a trailing `""` |
| ListParser.ParseTwoLines | api.py:99-113 | two numbered lines give exactly their two items |
| ListParser.TrailingEmptyItem | api.py:110-112 | `"1. A\n\n"` gives `["A", ""]` |
| ListParser.NumberedList | api.py:99-113 | `"1. Introduction\n2. History\n"` gives `["Introduction", "History"]` |
| Text.TrimStartSpec | api.py:106 | `lstrip` leaves the longest suffix not starting with whitespace; what it drops is all whitespace |
| Text.TrimEndSpec | api.py:106 | `rstrip` leaves the longest prefix not ending with whitespace; what it drops is all whitespace |
| Text.Strip | api.py:105-107 | `strip()` has no whitespace at either end, and is empty exactly when the input is all whitespace |
| Text.StripChars | api.py:107 | every character of `strip(s)` is a character of `s` |
| Text.StripStripped | api.py:107 | `strip()` leaves an already stripped string unchanged |
| Text.StripAppendSpace | api.py:105-107 | a trailing whitespace character disappears under `strip()`, for any string |
| Text.TrimStartAppendSpace | api.py:106 | `lstrip` of `s` plus a whitespace character is empty when `lstrip(s)` is, and otherwise `lstrip(s)` plus that character |
| Text.TrimEndAppendSpace | api.py:106 | a trailing whitespace character disappears under `rstrip()` |
| Text.StripPrependSpace | api.py:105-107 | a leading whitespace character disappears under `strip()` |
| Text.StripLine | api.py:105-107 | whitespace, item, newline strips to the item |
| Text.PunctuationRanges | api.py:103 | the four ASCII ranges used for the punctuation test are exactly `string.punctuation` |
| Text.ContainsMiddle | api.py:45-46 | a string embedded between two others is contained in the result |
| Text.ContainsTrans | api.py:46 | a substring of a substring is a substring |
| Text.JoinContainsEach | api.py:46 | every element of `sep.join(xs)` occurs in the joined string |
| Prompts.OutlinePrompt | api.py:45-46 | the outline prompt contains the title, `", ".join(keywords)` and the tone |
| Prompts.OutlinePromptKeywords | api.py:46 | every single keyword occurs in the outline prompt |
| Prompts.TalkingPointsPrompt | api.py:57-58 | the talking-points prompt contains the header and the tone |
| Prompts.ParagraphPrompt | api.py:68-69 | the paragraph prompt contains the point and the tone |
| Prompts.IntroPrompt | api.py:79-80 | the introduction prompt contains the tone, the title in double quotes and `", ".join(headers)` |
| Prompts.IntroPromptHeaders | api.py:80 | every single header occurs in the introduction prompt |
| Prompts.ConclusionPrompt | api.py:90-91 | the conclusion prompt contains the tone and the title, and ends with `":" + intro` |
| Output.ArticleText | api.py:155-159 | the written text starts with `intro + "\n"` and ends with the conclusion |
| Output.WriteArticle | api.py:154-159 | the writes, issued in order, produce exactly `ArticleText` |
| Output.BodyPrefix | api.py:157-159 | the text of the first sections is a prefix of the text of all sections |
| Output.SectionInPlace | api.py:155-159 | section `i` appears whole, as header, newline and joined paragraphs, right after the introduction line and the sections before it |
| Output.ArticleAppendSection | api.py:157-159 | one more section follows the previous ones directly, and the conclusion follows its last paragraph directly |
| Output.NoSeparators | api.py:155-159 | two one-paragraph sections give `"I\nH1\np1H2\np2C"`: no separator between sections or before the conclusion |

## Left out

- The Steamship service plumbing: the `@post` endpoints, `use_plugin` and `generate` (api.py:49-51, 60-62, 71-73, 83-85, 93-95). These are remote language-model calls. Their replies enter the model as arbitrary strings: the input of `ResponseToList`, and the introduction, paragraphs and conclusion of `ArticleText`.
- The language-model configuration dictionaries (api.py:31-38). They are only passed through to the remote call.
- Storing the tone on the instance (api.py:48). Nothing in the modelled code reads it back.
- Opening the output file and naming it after the title (api.py:154). Only the text written to it is modelled.
- The script driver (api.py:116-153): the temporary workspace, the calls in sequence, and console printing. `ping.py` is a remote invocation and a print, and is not part of this model.
- Text.IsDigit: ASCII digits only. Python's `str.isdigit()` also accepts other Unicode digits, such as superscripts.
- Text.IsSpace: ASCII whitespace plus the separators `\x1c`–`\x1f` only. Python's `str.strip()` also removes Unicode whitespace such as `\x85` and `\xa0`.
- Output.ArticleText: takes the sections as an ordered sequence, as the insertion-ordered map iterates. It does not model a repeated header overwriting an earlier entry of the map (api.py:141, 151).
- Output.ArticleText: takes the conclusion as a parameter. In the script it is bound only inside the header loop (api.py:153). With no headers, the write at api.py:159 would fail on an unbound name.
- The driver passes the title where the introduction prompt expects the header list (api.py:134), so `", ".join` interleaves the title's characters with `", "`. `IntroPrompt` models the template for any header list. This call site is not modelled separately.
- A blank line never produces an item during the scan, but the final test at api.py:110 compares the raw buffer with `""`. A whitespace-only leftover therefore becomes a trailing `""` (see `TrailingEmptyItem`), and the model follows the code.
