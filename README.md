# Math Adventures: a verified model of the game core

Math Adventures is a children's arithmetic game. A configuration screen picks a
class level (Primary 1 to 6), an operation, a game mode and a number of rounds. A
text-generation service is asked for that many problems. One of two mini-games
then presents the problems one at a time:

- **Treasure Hunt**: the player types the answer.
- **Balloon Pop**: the player pops one of the problem's shuffled option balloons
  (four options are requested).

A summary screen ends the session. It shows the score out of the total and an
encouragement message chosen from the rounded percentage.

This project models the core of that flow in Dafny:

- `types.dfy`: `Option`, `Result`, the game modes and the `Problem` record.
- `js_string.dfy`: the JavaScript string operations that the problem cleanup
  relies on. These are `trim` (with ECMAScript's white-space set), `indexOf`, and
  `replace` with a string pattern, which replaces only the first occurrence.
- `js_parse_int.dfy`: `parseInt(text, 10)`. It skips leading white space, reads an
  optional sign, then reads the longest run of decimal digits. With no digits the
  result is NaN (`None` here).
- `round.dfy`: the round state machine that both games repeat: problem index,
  score and per-round feedback. Submission is guarded by the feedback being
  unanswered. Advancing is what the 1.5-second feedback timer does when it fires.
  The module proves the session invariant `score <= index + (feedback == Correct ? 1 : 0)`
  and the bound on the reported final score over any sequence of events.
- `treasure_hunt.dfy`, `balloon_pop.dfy`: the two game components. Each is a
  class whose fields are the component's state variables. Its methods
  (`HandleSubmit`, `HandleAnswerSelect`, `Advance`) are proved against the round
  machine. Both games also prove their own rule for judging an answer:
  - Treasure Hunt: the typed text is read with `parseInt`.
  - Balloon Pop: the option picked must equal the answer, and the shuffled
    options are a permutation of the problem's options.
- `gemini_service.dfy`: the problem service's local logic:
  - the difficulty text for each class level;
  - the item schema, including whether `options` is declared and required;
  - the cleanup of the parsed reply, where every question is normalised to end
    in `" = ?"`;
  - the single user-visible error message.
- `end_screen.dfy`: the percentage, computed with exact half-up rounding, the
  four message tiers, and the 3-of-5 session that ends on "Great Job! Keep practicing!".

## Model

| member | source | states |
|---|---|---|
| JsString.TrimStart | services/geminiService.ts:77 | The result is a suffix of the input. Every dropped character is white space, and the result does not start with white space. |
| JsString.TrimEnd | services/geminiService.ts:77 | The result is a prefix of the input. Every dropped character is white space, and the result does not end with white space. |
| JsString.Trim | services/geminiService.ts:77 | `trim()` gives the piece of the input that starts after its leading white space. Everything dropped before and after that piece is white space, and the piece has no white space at either end. |
| JsString.TrimKeepsNonWhiteSpace | services/geminiService.ts:77 | `trim()` keeps every occurrence of every character that is not white space. |
| JsString.TrimOfTrimmed | services/geminiService.ts:77 | Trimming text that is already trimmed leaves it unchanged. |
| JsString.IndexOfFrom | services/geminiService.ts:77 | The search returns the first position at or after `from` where the pattern occurs, or `None` when there is no such position. |
| JsString.IndexOf | services/geminiService.ts:77 | `indexOf` finds the first occurrence of the pattern, or none when it does not occur. |
| JsString.ReplaceFirst | services/geminiService.ts:77 | A pattern that does not occur leaves the text unchanged. Otherwise the text changes length by the difference between the replacement and the pattern. Where the change happens is stated by `ReplaceFirstAt`. |
| JsString.ReplaceFirstAt | services/geminiService.ts:77 | When the pattern first occurs at `i`, the result is the text before `i`, then the replacement, then the text after the occurrence. |
| JsString.ReplaceFirstRemoves | services/geminiService.ts:77 | Removing a pattern that does not occur changes nothing. Otherwise it removes exactly the pattern's characters, once. |
| JsString.IndexOfChar | services/geminiService.ts:77 | A one-character pattern is found exactly when the character occurs in the text. |
| JsParseInt.DigitRun | components/games/TreasureHunt.tsx:41 | The length of the leading digit run: every character in it is a digit, and the character after it is not. |
| JsParseInt.ParseInt | components/games/TreasureHunt.tsx:41 | `parseInt` is NaN exactly when no digit follows the optional white space and sign. A negative result requires a leading minus. |
| JsParseInt.NatDecimalValue | components/games/TreasureHunt.tsx:41 | The decimal numeral of `n` consists of digits only and reads back as `n`. |
| JsParseInt.DigitRunOfNumeral | components/games/TreasureHunt.tsx:41 | The digit run of a numeral followed by a non-digit is exactly that numeral. |
| JsParseInt.SignedDigitRunOfNumeral | components/games/TreasureHunt.tsx:41 | A numeral followed by a non-digit is read as its value, negated after a minus sign. |
| JsParseInt.ParseIntStopsAtNonDigit | components/games/TreasureHunt.tsx:41 | Parsing stops at the first non-digit: "12.9" and "12abc" both read as 12. |
| JsParseInt.ParseIntNegated | components/games/TreasureHunt.tsx:41 | A leading minus negates the value of the numeral that follows it. |
| JsParseInt.ParseIntSkipsWhiteSpace | components/games/TreasureHunt.tsx:41 | Leading white space does not change the result. |
| JsParseInt.ParseIntOfDecimal | components/games/TreasureHunt.tsx:41 | Any integer written in decimal, after blanks and before a non-digit, reads back as that integer (a round trip with `Decimal`). |
| JsParseInt.ParseIntOfEmpty | components/games/TreasureHunt.tsx:41 | The empty answer is NaN. |
| JsParseInt.ParseIntRejectsNonNumeric | components/games/TreasureHunt.tsx:41 | Text whose first character after blanks is not a digit or a sign is NaN. |
| JsParseInt.ParseIntRejectsBareSign | components/games/TreasureHunt.tsx:41 | A sign followed by a non-digit, or by nothing at all, is NaN, whatever white space precedes it. |
| Round.Answer | components/games/TreasureHunt.tsx:37-48 | A submission after feedback is shown changes nothing. Otherwise the index is kept, feedback becomes correct exactly when the answer is right, and the score rises by one exactly then. |
| Round.Advance | components/games/TreasureHunt.tsx:22-35 | While unanswered nothing happens. Once answered, it moves to the next problem (feedback reset, score kept) exactly when one remains, and otherwise ends the session reporting the current score. |
| Round.StartKeepsInv | components/games/TreasureHunt.tsx:14-17 | The initial state (index 0, score 0, unanswered) satisfies the session invariant. |
| Round.AnswerKeepsInv | components/games/TreasureHunt.tsx:41-47 | Scoring an answer keeps the session invariant. |
| Round.AdvanceKeepsInv | components/games/TreasureHunt.tsx:25-28 | Advancing keeps the session invariant, so the index stays below the number of problems. |
| Round.AnswerIsGuarded | components/games/TreasureHunt.tsx:39 | A second submission in the same round is ignored. |
| Round.GameOverBounded | components/games/TreasureHunt.tsx:29-31 | The final score reported to `onGameEnd` is at most the number of problems. |
| Round.PlayKeepsInv | components/games/TreasureHunt.tsx:22-48 | Over any sequence of submissions and timer firings, the invariant holds and every reported final score is at most the number of problems. |
| Round.PlayScoreBound | components/games/TreasureHunt.tsx:41-47 | Over any run, the score grows by at most the number of correct submissions; advancing never adds points. |
| Round.PlayRound | components/games/TreasureHunt.tsx:22-48 | A round moves the state through one answer and one advance, and reports a score exactly when the session ends. |
| Round.PlayConcat | components/games/TreasureHunt.tsx:22-48 | Playing two event sequences one after another equals playing their concatenation. |
| Round.ThreeOfFive | components/games/TreasureHunt.tsx:22-48 | Five problems answered right, right, right, wrong, wrong report exactly one final score, 3. |
| TreasureHuntGame.TypedAnswerIsCorrect | components/games/TreasureHunt.tsx:41-42 | A typed answer is correct exactly when `parseInt` reads a number (not NaN) equal to the answer. A correct answer therefore always contains a digit after the blanks and the sign. |
| TreasureHuntGame.TypedNumeralIsJudgedByValue | components/games/TreasureHunt.tsx:41-42 | A typed integer, possibly after blanks and before a non-digit, is judged correct exactly when it equals the answer. |
| TreasureHuntGame.NonNumericIsIncorrect | components/games/TreasureHunt.tsx:41-46 | An empty or non-numeric answer is incorrect, whatever the expected answer, and never fails. |
| TreasureHuntGame.TreasureHunt.constructor | components/games/TreasureHunt.tsx:14-17 | A new game starts at the first problem with score 0, an empty answer and no feedback. |
| TreasureHuntGame.TreasureHunt.SetUserAnswer | components/games/TreasureHunt.tsx:84 | Typing replaces the answer text and nothing else. |
| TreasureHuntGame.TreasureHunt.HandleSubmit | components/games/TreasureHunt.tsx:37-48 | The round state moves exactly as `Round.Answer`, judged by `parseInt` of the typed text. An already answered round leaves every field unchanged. |
| TreasureHuntGame.TreasureHunt.Advance | components/games/TreasureHunt.tsx:22-35 | The round state and the reported step follow `Round.Advance`. Moving to the next problem clears the typed answer. |
| BalloonPopGame.Swap | components/games/BalloonPop.tsx:24 | Exchanging two options keeps the length and the multiset of options. |
| BalloonPopGame.Shuffle | components/games/BalloonPop.tsx:24 | Any sequence of swaps gives a permutation of the options. |
| BalloonPopGame.ShuffledOptions | components/games/BalloonPop.tsx:22-25 | The balloons show a permutation of the problem's options, or nothing when it has none. |
| BalloonPopGame.ShuffledOptionsShowEveryOption | components/games/BalloonPop.tsx:22-25 | A value is shown exactly as often as it appears among the problem's options, so every option is shown and nothing else is. |
| BalloonPopGame.BalloonPop.constructor | components/games/BalloonPop.tsx:14-25 | A new game starts at the first problem with score 0, no feedback, no selection, and the first problem's options shuffled. |
| BalloonPopGame.BalloonPop.HandleAnswerSelect | components/games/BalloonPop.tsx:42-52 | The round state moves exactly as `Round.Answer`, with a pick correct when it equals the answer. The pick is recorded only in an unanswered round, and an answered round leaves every field unchanged. |
| BalloonPopGame.BalloonPop.Advance | components/games/BalloonPop.tsx:27-40 | The round state and the reported step follow `Round.Advance`. Moving to the next problem clears the selection and shows the new problem's options reshuffled. Otherwise selection and options are kept. |
| BalloonPopGame.PickScenario | components/games/BalloonPop.tsx:42-52 | With options [7, 3, 9, 1] and answer 7, picking 3 gives Incorrect and score 0. Picking 7 gives Correct and score 1, and a later pick of 3 in the same round leaves the selection at 7. |
| GeminiService.DifficultyDescription | services/geminiService.ts:10-20 | Levels 1 to 6 get their own description, and every other level gets "standard difficulty". |
| GeminiService.DifficultyLevelsDistinct | services/geminiService.ts:10-18 | The six levels have six different descriptions. |
| GeminiService.NeedsOptions | services/geminiService.ts:26 | Options are asked for in Balloon Pop only: never in Treasure Hunt, Math Race or Math Ninja. |
| GeminiService.ProblemSchema | services/geminiService.ts:26-56 | `options` is declared and required exactly in Balloon Pop mode. `question` and `answer` are always required, and every required field is declared. |
| GeminiService.NormalizeQuestion | services/geminiService.ts:77 | Every cleaned question ends in " = ?", and the text before it has no white space at either end. How that text relates to the question is stated by the three lemmas below. |
| GeminiService.NormalizeKeepsContent | services/geminiService.ts:77 | For every question, each character other than white space, '=' and '?' occurs as often in the cleaned text before " = ?" as in the question. |
| GeminiService.NormalizeWithoutMarks | services/geminiService.ts:77 | A question with no "?" at all is cleaned to its trimmed text followed by " = ?". |
| GeminiService.NormalizeAfterSuffix | services/geminiService.ts:77 | A question that ends in " = ?" and has no other "?" is cleaned to its trimmed text followed by one " = ?". |
| GeminiService.NormalizeFixesCanonical | services/geminiService.ts:77 | A trimmed text with no "?", followed by " = ?", is left exactly as it is. |
| GeminiService.NormalizeIdempotent | services/geminiService.ts:77 | Cleaning a question with at most one "?" twice gives the same result as cleaning it once. |
| GeminiService.CleanedCoreHasNoMark | services/geminiService.ts:77 | For a question with at most one "?", the text left before " = ?" after cleaning holds no "?". |
| GeminiService.NormalizeKeepsSecondMark | services/geminiService.ts:77 | When neither "?" is part of a " = ?", only the first is removed: "a?b?" becomes "ab? = ?". |
| GeminiService.NormalizeAgainRemovesIt | services/geminiService.ts:77 | Cleaning "ab? = ?" again gives "ab = ?", so cleaning is not idempotent in general. |
| GeminiService.Cleanup | services/geminiService.ts:75-78 | The cleanup succeeds exactly when every item has a question. It keeps the order and the count, normalises each question, and keeps each answer and options. |
| GeminiService.GenerateMathProblems | services/geminiService.ts:59-83 | A failed call, or an item without a question, gives the single retry message and no problems. Otherwise the result has one cleaned problem per item. |
| GeminiService.GeneratedQuestionsEndWithSuffix | services/geminiService.ts:75-78 | Every generated question ends in " = ?". |
| EndScreen.Percentage | components/EndScreen.tsx:12 | With no problems the percentage is 0. Otherwise it is the integer nearest to 100 * score / total, with halves rounded up. |
| EndScreen.PercentageInRange | components/EndScreen.tsx:12 | A score between 0 and the total gives a percentage between 0 and 100. |
| EndScreen.AllRightIsHundred | components/EndScreen.tsx:12 | A full score gives 100. |
| EndScreen.HundredOnlyWhenAllRight | components/EndScreen.tsx:12 | With fewer than 200 problems, 100 is reached only with a full score. |
| EndScreen.TierOf | components/EndScreen.tsx:14-21 | The tier is Perfect exactly at 100, Excellent exactly at 80 or more (other than 100), Great exactly in [50, 80), and Good effort exactly below 50. |
| EndScreen.Message | components/EndScreen.tsx:14-21 | "Good effort!" is shown exactly for the base tier. |
| EndScreen.MessagesDistinct | components/EndScreen.tsx:14-21 | The four tiers show four different messages. |
| EndScreen.Summary | components/EndScreen.tsx:12-21 | With no problems, the message is "Good effort!" and no division takes place. |
| EndScreen.AllRightIsPerfect | components/EndScreen.tsx:12-16 | A full score on at least one problem always gives "Perfect Score! You're a Math Genius!". |
| EndScreen.SummaryBands | components/EndScreen.tsx:12-21 | For a score between 0 and the total, each of the four messages is shown exactly in its own percentage band. |
| EndScreen.ThreeOfFiveIsGreat | components/EndScreen.tsx:12-20 | 3 of 5 gives 60 percent and "Great Job! Keep practicing!". |
| EndScreen.ThreeOfFiveSessionIsGreat | components/EndScreen.tsx:12-20 | The session of three right then two wrong answers over five problems ends on "Great Job! Keep practicing!". |

## Left out

- The call to the text-generation service, the API-key check, and `JSON.parse` of the reply (services/geminiService.ts:5-8, 60-72) are network I/O and foreign code. Their outcome enters the model as a `Reply`: `Failed`, or the parsed items. An item without a question stands for the `map` throwing.
- The instruction and prompt wording, the model name and the temperature (services/geminiService.ts:28-30, 61-67) are text sent to the service, with nothing to check locally.
- The code never checks that the reply holds the requested number of problems, or that the options hold the answer. The model therefore promises neither.
- Answers and options are modelled as integers, although the request schema only asks for numbers (services/geminiService.ts:41-43, 49-51) and nothing checks them. A fractional answer from the service cannot be represented. In Treasure Hunt such an answer could never be matched, because `parseInt` yields only integers. In Balloon Pop the fractional option itself could still be picked.
- A question that is missing, or is not a string, is modelled as `None` in `RawProblem`. Calling `replace` on it throws inside the `try`, so `GenerateMathProblems` gives the error message. The JSON text itself is not modelled.
- Cleaning removes at most two "?": the one inside the first " = ?", if there is one, and then the first remaining "?". Any further "?" stays, so cleaning is not idempotent on every question: "a?b?" becomes "ab? = ?" (`NormalizeKeepsSecondMark`), which cleans again to "ab = ?" (`NormalizeAgainRemovesIt`).
- GeminiService.NormalizeIdempotent: it is stated only for questions with at most one "?", because the cleanup is not idempotent on every question with two or more.
- The feedback timers (`setTimeout` and `clearTimeout`) and React's effect scheduling are event-loop timing. The timer firing is modelled as an explicit `Advance` call that returns what it did. The final score it returns stands for the `onGameEnd` callback.
- BalloonPopGame.ShuffledOptions: the random-comparator sort is modelled as a caller-supplied sequence of swaps. Only the permutation is claimed, not any distribution.
- EndScreen.Percentage: it rounds the exact rational `100 * score / total`, whereas the source rounds a floating-point product. The two agree whenever the exact value is not within rounding error of a half. For 5, 10 or 15 rounds the exact value is never a half.
- JsParseInt.ParseInt: it returns the exact integer, without floating-point precision loss for numerals longer than about 15 digits. The `0x` prefix is not modelled because radix 10 is passed explicitly.
- `progressPercentage`, the feedback styles, the balloon colours and the CSS injection (components/games/TreasureHunt.tsx:50-58, components/games/BalloonPop.tsx:54 onward) are display only.
- The page's input gates are not modelled: the Check button is disabled for empty text (components/games/TreasureHunt.tsx:91) and the input is disabled once the round is answered (components/games/TreasureHunt.tsx:85). `HandleSubmit` on empty text and `SetUserAnswer` after an answer are accepted by the model, although the page never issues them. Submitting empty text is judged incorrect (`NonNumericIsIncorrect`).
- Strings are sequences of Unicode code points, not UTF-16 code units. This makes no difference here: the patterns are ASCII and every white-space character lies in the Basic Multilingual Plane.
- JsString.ReplaceFirst: the replacement is inserted literally; JavaScript's `$&`, `` $` ``, `$'` and `$$` substitutions are not modelled, since the cleanup only passes the empty string.
- The configuration screen, the game screen, the constants and the spinner are not part of this model.
- The Math Race and Math Ninja modes are kept only as game modes with no options. Their games are not part of this model.
- Both game constructors require at least one problem. With none, the components' first render reads a field of `problems[0]`, which is undefined, and fails before any interaction (components/games/TreasureHunt.tsx:19, 78; components/games/BalloonPop.tsx:19, 64).
