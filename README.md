# StackOverflow answer generator, modelled in Dafny

`StackOverflowAnswerGenerator` holds two fixed tables:

- ten canned answers;
- five canned comments.

Its `generate_answer(question)` builds a record in four steps:

1. It picks one answer.
2. It may append a Python version note. After that, it may append an irrelevant code block.
3. It draws the upvotes. The draw is biased upwards when the final text contains "wrong" in any letter case, or contains "jQuery".
4. It picks an acceptance flag, an age of 1 to 12 years, and 0 to 3 distinct comments.

The model turns every random draw into a field of the `Draws` datatype. `ValidDraws` states the range of each field. `GenerateAnswer` is then a pure function of the draws.

Files:

- `PyStr.dfy` models the Python string operations the generator uses:
  - `t in s` as `In`;
  - `s.lower()` as `Lower`;
  - the rendering of a one-digit int as `DigitChar`.

  It also holds the lemmas about those operations.
- `AnswerGenerator.dfy` holds:
  - the tables;
  - the class and its constructor;
  - `GenerateAnswer` and the comment sample.
- `TableFacts.dfy` holds facts about the literal texts, such as which letters an entry lacks and that the answer table is prefix-free. Each fact is a small lemma of its own.
- `AnswerProperties.dfy` holds what `generate_answer` guarantees over all draws:
  - the bias fires exactly for two entries, whatever suffixes are appended;
  - the layout and order of the suffixes;
  - the text tells which draws produced it;
  - the question is ignored.

## Model

| member | source | states |
|---|---|---|
| AnswerGenerator.StackOverflowAnswerGenerator.constructor | stackoverflow_answer_generator.py:11-31 | the answer table has 10 entries and the comment table 5, with no comment repeated |
| AnswerGenerator.CommentTableDistinct | stackoverflow_answer_generator.py:25-31 | the five comments are pairwise distinct |
| AnswerGenerator.VersionNote | stackoverflow_answer_generator.py:39 | the note is "\n\nNote: This only works in Python " followed by the major digit, '.', and the minor digit |
| AnswerGenerator.Sample | stackoverflow_answer_generator.py:59 | the sample has one entry per pick; entry j is the population entry at pick j; every entry belongs to the population; distinct picks from a population without repeats give distinct entries |
| AnswerGenerator.StackOverflowAnswerGenerator.GenerateAnswer | stackoverflow_answer_generator.py:33-60 | the text starts with the chosen entry and is non-empty; with no suffix it equals that entry. When the bias fires, upvotes lie in [500, 5000], otherwise in [-5, 1000], so always in [-5, 5000]. accepted holds iff choice 0 of [True, False, False] is drawn. The date offset is 365 × years_ago days, between 365 and 4380. The comments are count ≤ 3 distinct table comments, in sample order |
| TableFacts.AnswerTablePrefixFree | stackoverflow_answer_generator.py:12-23 | no answer entry is a prefix of another, so the ten entries are distinct |
| TableFacts.EntryLastChar | stackoverflow_answer_generator.py:12-23 | no answer entry is empty or ends with a backquote |
| TableFacts.CodeBlockSplit | stackoverflow_answer_generator.py:43 | the code block is the part up to "not your " followed by the part starting with "answer" |
| PyStr.LowerChar | stackoverflow_answer_generator.py:47 | lower-casing maps 'A'..'Z' to 'a'..'z' and leaves every other character as it is |
| PyStr.DigitChar | stackoverflow_answer_generator.py:39 | a digit 0..9 renders as the character whose code is '0' plus the digit |
| PyStr.LowerConcat | stackoverflow_answer_generator.py:47 | lower-casing a concatenation lower-cases each part |
| PyStr.LowerOmits | stackoverflow_answer_generator.py:47 | a letter absent in both cases from a text is absent from its lower-cased form |
| PyStr.NotInWithoutChar | stackoverflow_answer_generator.py:47 | a pattern is not in a text that lacks one of its characters |
| PyStr.InSuffix | stackoverflow_answer_generator.py:47 | a pattern found in a text is still found after anything is prepended |
| PyStr.InConcat | stackoverflow_answer_generator.py:47 | when the second part starts with a character not in the pattern, the pattern is in the concatenation iff it is in one of the parts |
| AnswerProperties.Layout | stackoverflow_answer_generator.py:35-43 | the text is the chosen entry, then the version note if drawn, then the code block if drawn |
| AnswerProperties.PrefixesNest | stackoverflow_answer_generator.py:35 | of two prefixes of one text, one is a prefix of the other |
| AnswerProperties.StartsWithExactlyOneEntry | stackoverflow_answer_generator.py:35 | an answer-table entry starts the text iff it is the drawn one |
| AnswerProperties.NotFiringWithout | stackoverflow_answer_generator.py:47 | a text lacking 'Q' and one letter of "wrong" in both cases does not trigger the bias |
| AnswerProperties.VersionNoteInert | stackoverflow_answer_generator.py:39 | no version note triggers the bias |
| AnswerProperties.CodeBlockInert | stackoverflow_answer_generator.py:43 | the code block does not trigger the bias, although its lower-cased form holds every letter of "wrong" |
| AnswerProperties.AppendInertSuffix | stackoverflow_answer_generator.py:39-47 | appending a suffix that starts with a newline and does not trigger the bias leaves the bias decision unchanged |
| AnswerProperties.DuplicateInert | stackoverflow_answer_generator.py:13 | "This question is a duplicate ..." does not trigger the bias |
| AnswerProperties.TurnItOffInert | stackoverflow_answer_generator.py:15 | "Have you tried turning it off ..." does not trigger the bias |
| AnswerProperties.WorksForMeInert | stackoverflow_answer_generator.py:16 | "Works on my machine ..." does not trigger the bias |
| AnswerProperties.BlamePythonInert | stackoverflow_answer_generator.py:18 | "The real problem is ..." does not trigger the bias |
| AnswerProperties.HaskellInert | stackoverflow_answer_generator.py:19 | "This is trivial in Haskell." does not trigger the bias |
| AnswerProperties.ItDependsInert | stackoverflow_answer_generator.py:20 | "\"It depends\" ..." does not trigger the bias |
| AnswerProperties.RtfmInert | stackoverflow_answer_generator.py:21 | "RTFM - ..." does not trigger the bias |
| AnswerProperties.AsyncAwaitInert | stackoverflow_answer_generator.py:22 | "Just use async/await ..." does not trigger the bias |
| AnswerProperties.UseJQueryFires | stackoverflow_answer_generator.py:14 | "Just use jQuery." triggers the bias |
| AnswerProperties.DoingItWrongFires | stackoverflow_answer_generator.py:17 | "You're doing it wrong. ..." triggers the bias |
| AnswerProperties.EntryFires | stackoverflow_answer_generator.py:12-23 | an answer entry triggers the bias iff it is entry 1 ("Just use jQuery.") or entry 4 ("You're doing it wrong. ...") |
| AnswerProperties.BiasFiresExactlyForTwoEntries | stackoverflow_answer_generator.py:35-48 | the bias fires on the final text iff the drawn entry is 1 or 4, whatever suffixes are appended |
| AnswerProperties.UpvotesByEntry | stackoverflow_answer_generator.py:46-48 | entries 1 and 4 take the second upvote draw (at least 500); every other entry keeps the first (at most 1000) |
| AnswerProperties.UpvoteBoundsReachable | stackoverflow_answer_generator.py:46-48 | some valid draws give -5 upvotes and some give 5000, so nothing is clamped |
| AnswerProperties.NoteBeforeCode | stackoverflow_answer_generator.py:38-43 | with both suffixes, the note starts right after the entry, the code block right after the note, and the code block ends the text |
| AnswerProperties.EndsWithCodeExactlyWhenAdded | stackoverflow_answer_generator.py:42-43 | the text ends with a backquote iff the code block was appended |
| AnswerProperties.MiddleCancels | stackoverflow_answer_generator.py:35-43 | equal texts with the same head and tail have the same middle |
| AnswerProperties.TextDeterminesDraws | stackoverflow_answer_generator.py:35-43 | two draws giving the same text agree on the entry, on both suffix flags and, when the note is present, on its version |
| AnswerProperties.QuestionIgnored | stackoverflow_answer_generator.py:33-60 | two calls with the same draws and different questions give the same record |
| AnswerProperties.AcceptedOneChoiceInThree | stackoverflow_answer_generator.py:57 | one of the three acceptance choices is true and two are false |

## Left out

- `main()` (stackoverflow_answer_generator.py:62-90) is command-line input and output: reading the question, and printing the record.
- The `random` module is not modelled. Each draw is an input whose range `ValidDraws` states. Probabilities are not modelled.
- The float tests `random.random() < 0.3` and `< 0.4` are boolean draws. Floating point is not modelled.
- GenerateAnswer: the date is the offset `365 * years_ago` in days. `datetime.now()`, `timedelta` and `strftime("%b %d '%y at %H:%M")` are the library clock and calendar formatting, so they are not modelled.
- The version digits are always present in `Draws`. The generator draws them only when the note is added; without a note they are unused.
- `random.sample` is modelled by the distinct positions it selects. Which positions are selected is a draw.
- PyStr.Lower lower-cases ASCII letters only. Python's `str.lower()` also maps other letters. The only non-ASCII characters in the generator's texts are '¯' and 'ツ', and Python leaves both unchanged, so the bias decision is the same.
- The tables are `const` fields and `GenerateAnswer` is a function, so a call cannot change them. No separate lemma states this.
- Each table string is written as a concatenation of short literals, split at word boundaries. The concatenation spells the generator's text exactly. Splitting the strings lets the verifier look inside them.
