# Radio-licence question bank quiz — verified model

This project models the logic of `wireless.py`, a desktop quiz for a radio-operator
question bank. It covers two things. The first is the loader: it reads a text file of
question blocks, and each block has six fields in a fixed order: `[I]` identifier, `[Q]`
question, `[A]` to `[D]` options. It turns every block that matches the pattern into a
question record whose answer is always the `[A]` option. The second is the quiz session:
it shows one question at a time with the options in file order or shuffled, scores the
checked option, advances, and saves the index and score to a progress file that is
restored at the next start.

Modules:

- `Wrappers` (`wrappers.dfy`): an `Option` type.
- `QuestionParser` (`question_parser.dfy`): the block pattern as a scanner over strings.
  - `ScanFields` tries one match at one position.
  - `FindAll` gives `re.findall` semantics: after a match the scan continues where the
    match ended, after a failed attempt it continues one character later.
  - `BlockAt` is a declarative meaning of "a block with these fields occupies `s[p..e]`".
  - The scanner is proved equal to `BlockAt` in both directions.
  - `ParseQuestionData` is the record-building loop.
- `Quiz` (`quiz.dfy`): option selection and scoring as functions, plus the progress-file
  defaulting and its round trip. The class `QuizApp` holds the session fields
  (`currentQuestionIndex`, `score`, `shuffledOptions`) and its methods update them
  in place.

Regex semantics as modelled:

- Each of the first five fields is `[^[]+` followed by `\n` and the next marker. The
  field therefore runs to one character before the first `[` after its start, and that
  character must be `\n`. This is the only way such a field can match.
- The `[D]` field is greedy. It runs to the next `[` or to the end of the text, so it
  keeps any trailing newlines.
- A field is never empty and never contains `[`.

## Model

| member | source | states |
|---|---|---|
| QuestionParser.FirstBracket | wireless.py:6 | the end of a `[^[]+` run: the first `[` at or after the start, or the end of the text, with no `[` before it |
| QuestionParser.ScanFields | wireless.py:6 | a successful match attempt captures one non-empty, `[`-free field per marker and ends inside the text, after its start |
| QuestionParser.ScanSound | wireless.py:6 | every successful match attempt is a complete block: header, field, newline, … , last field ending at a `[` or at the end |
| QuestionParser.ScanComplete | wireless.py:6 | every complete block at a position is what the match attempt there returns, with the same fields and end, so the match is unique |
| QuestionParser.FindAll | wireless.py:6 | `re.findall`: every match lies in the scanned part of the text and has six non-empty, `[`-free fields |
| QuestionParser.FindAllOrdered | wireless.py:6 | matches come out in text order and do not overlap |
| QuestionParser.FindAllSound | wireless.py:6 | every reported match is a complete block of the text |
| QuestionParser.FindAllComplete | wireless.py:6 | every complete block is reported unless a match starts before it and ends after it, even after malformed text |
| QuestionParser.RenderBrackets | wireless.py:6 | inside a block whose markers are all other than '[', every '[' after the first opens the marker of a later field |
| QuestionParser.BracketInsideBlock | wireless.py:6 | for markers other than '[', a '[' strictly inside a block is followed by one of the later markers |
| QuestionParser.FindAllReportsBlock | wireless.py:6 | when no marker is '[' and the first marker does not recur, every complete block of the text is reported |
| QuestionParser.BlockReported | wireless.py:6 | with the markers I, Q, A, B, C, D, every complete block of the question file is reported as a match |
| QuestionParser.FindAllNonEmpty | wireless.py:6 | a complete block anywhere after the scan start means at least one match is reported |
| QuestionParser.FindAllEmptyIff | wireless.py:6 | nothing is reported exactly when the text contains no complete block |
| QuestionParser.MatchIsBlockText | wireless.py:6 | the text of each match is its captured fields rendered back as a block |
| QuestionParser.FindAllSkip | wireless.py:6 | positions where no block starts are skipped one character at a time without changing the result |
| QuestionParser.FindAllFirstBlock | wireless.py:6 | after text in which no block starts, such as a malformed block, the next block is the next match, and scanning resumes at its end |
| QuestionParser.ToQuestion | wireless.py:8-13 | a record has the identifier, the question, the four options in file order, and the `[A]` option as the answer |
| QuestionParser.RecordIsBlockText | wireless.py:6-13 | each record, written back as a block in the order I, Q, A, B, C, D, is exactly the text of the match it came from |
| QuestionParser.ParseQuestionData | wireless.py:4-15 | one record per match, in match order, each built from its match; every record has four non-empty options and the first as answer |
| Quiz.DropLast | wireless.py:126 | Python's `s[:-1]`: '' for '', otherwise the string that the last character completes |
| Quiz.DropLastAppended | wireless.py:126 | stripping the label letter appended to an option gives back the option text |
| Quiz.GetSelectedOption | wireless.py:139-161 | '' exactly when no button is checked; otherwise the checked button's option text, shuffled or in file order as the passed flag says, followed by its label letter; this is the text the button shows when the global flag equals the session's flag |
| Quiz.IsCorrectIff | wireless.py:124-126 | an answer is scored correct exactly when the selection is the first option followed by one more character (for an empty option, when the selection has at most one character) |
| Quiz.NoSelectionNeverCorrect | wireless.py:123-130 | with nothing checked the answer is scored incorrect |
| Quiz.CorrectIffShownText | wireless.py:123-130 | a checked button is scored correct exactly when the option text its flag selects is the first option, which is the text the button shows when the global flag equals the session's flag |
| Quiz.InOrderSlotAIsCorrect | wireless.py:116-126 | with randomization off, button A shows the first option and is always scored correct |
| Quiz.ShuffledHasCorrectSlot | wireless.py:101-104 | a shuffled display has four options and some button that is scored correct |
| Quiz.RestoreProgress | wireless.py:175-189 | a missing file, or one that is empty or not valid JSON, restores (0, 0); a stored key restores its value and a missing key restores 0 |
| Quiz.ProgressRecord | wireless.py:165-171 | the saved object has exactly the keys `current_question_index` and `score` |
| Quiz.RestoreAfterSave | wireless.py:165-189 | restoring what was saved gives back the saved index and score |
| Quiz.SaveAfterRestore | wireless.py:165-189 | saving a restored object that has exactly the two keys writes the same object |
| Quiz.QuizApp.constructor | wireless.py:32-40 | a new session takes the index and score from the progress file and shows that question, shuffled when randomization is on |
| Quiz.QuizApp.LoadUserProgress | wireless.py:175-189 | the index and score become the restored progress; the displayed options are unchanged |
| Quiz.QuizApp.ShuffleOptions | wireless.py:101-108 | the displayed options become a permutation of the current question's options; index and score are unchanged |
| Quiz.QuizApp.ShowQuestion | wireless.py:110-119 | shuffles the displayed options only when randomization is on; index and score are unchanged |
| Quiz.QuizApp.ShowNextQuestion | wireless.py:121-137 | scores the selection against the first option, adds one to the index, adds one to the score exactly when correct, keeps score ≤ index, saves exactly the two-key record of the new state, which restores to it, reports completion exactly at the last question, and keeps the session invariant |

## Left out

- The Qt window, its widgets, fonts, style sheets, message boxes and the removal of `\n` from button texts are display only and are not modelled. A checked button is a parameter `checked`, and clearing the check after reading it is not modelled.
- Reading the question file and reading and writing `user_progress.json` are not modelled. The progress file is a parameter: missing, corrupt, or a parsed object with integer values. The saved object is returned as `saved`.
- `random.shuffle`: the order it picks is a parameter `shuffled`, and the model requires only that it is a permutation of the question's options. Its distribution is not modelled.
- The command line and the module-level flag: `get_selected_option` reads the global `randomize_options` and not the session's own flag. The model passes that global as a parameter `randomizeGlobal`.
- Quiz.QuizApp.constructor: requires the restored index to lie in `[0, |questions|)`. An index at or past the end makes the source fail on its first display. That includes the `{index: |questions|}` that the source itself saves when the quiz is completed (see the `completed` and `saved` ensures of ShowNextQuestion). A negative index, which Python would read from the end of the list, is excluded too.
- Quiz.RestoreProgress: the model reads only progress objects with integer values. The source does other things with other JSON:
  - a file that exists but cannot be opened or decoded as text raises an error that the handler at wireless.py:182 does not catch, since it catches only a missing file and invalid JSON;
  - a top-level value that is not an object fails at `progress.get` (wireless.py:180), an error the handler at :182 does not catch;
  - a non-integer index, such as `null`, a string or a float, is stored, and the source then fails on the first display (wireless.py:111), outside the handler;
  - a float score such as `1.5` is stored and keeps working, because adding 1 and saving both accept it (wireless.py:128, 171);
  - a string score such as `"3"` is stored, and the source fails only when an answer is scored correct (wireless.py:128).
- Quiz.QuizApp.ShowNextQuestion: requires the current index to be below the number of questions. After completion the Next button stays connected (wireless.py:83, 134-137). Another press raises an index error at wireless.py:124, or at :144-159 when a button is checked and the flag is off. That happens before any state change, so index, score and the progress file stay as they were. The model does not include that press.
- Quiz.QuizApp.ShowNextQuestion: when the global flag is on and a button is checked, it requires that button's position to exist in the displayed order. Otherwise the source indexes past the end of `shuffled_options` (wireless.py:144-159). With nothing checked the source returns '' without indexing, and the model allows that case.
