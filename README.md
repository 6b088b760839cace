# VerbiVerse quiz core in Dafny

VerbiVerse is a language-learning quiz front end. A player connects a
wallet, picks a language pair and answers five translation prompts. The app
scores the answers, keeps running statistics and a history of completed
quizzes, and talks to a quiz contract whose return values it decodes by hand
from hex. This project models the sequential logic under that front end and
proves what it promises:

- `js_runtime.dfy` (`JsRuntime`): the JavaScript built-ins the core relies on.
  - `Number.parseInt(s, 16)`: leading white space, an optional sign, an
    optional `0x`, the longest run of hex digits, and `NaN` when there is none.
  - `String.prototype.slice` with its relative and clamped indices.
  - `trim`, `String.fromCharCode` (modulo 2^16), and decimal `toString`.
- `ipfs_types.dfy` (`QuizTypes`): the question and batch records shared by the
  batch source, the scorer and the mock table.
- `answer_check.dfy` (`AnswerCheck`): `validateAnswer` with its text
  normaliser, and `calculateScore`.
- `batch_source.dfy` (`BatchSource`): `generateFallbackQuestions`, the reply
  adapter of `fetchBatch`, and the batch cache as a class (`fetchBatch`,
  `clearCache`, the cached-batch count).
- `quiz_progress.dfy` (`QuizProgress`): the quiz-progress hook as a class
  (`startQuiz`, `updateAnswer`, `moveToQuestion`, `completeQuiz`,
  `abandonQuiz`, `resetQuiz`), the statistics reducer of `completeQuiz`, and
  the newest-first history capped at 50.
- `quiz_interface.dfy` (`QuizInterface`): the quiz page's four-mode view
  controller as a class, the render selection, and the button guards.
- `contract_codec.dfy` (`ContractCodec`): the contract client's private
  helpers `encodeFunction`, `decodeUintArray`, `decodeString` and
  `decodeSubmission`. It also holds the contract ABI layouts (section
  "Formal Specification of the Encoding" of the Solidity ABI specification)
  that those helpers are meant to read.
- `mock_quiz_data.dfy` (`MockQuizData`): the three mock batches and
  `getMockBatch`.

Clock readings, random draws and the IPFS gateway's answer are parameters.
Averages are `real`. Hex words are exact natural numbers.

The model follows the code as written, also where it departs from its own
comments or from what its names suggest:

- The normaliser trims before it strips punctuation, so it is not idempotent:
  `"hola ."` normalises to `"hola "`, which normalises to `"hola"`.
- `moveToQuestion` does not check its index.
- `completeQuiz` does not refuse an already completed session.
- The mock score is 60..99, although the comment beside it says 60-100.
- The `getUserSubmissions` selector contains the non-hex letters `g` and `h`.
- Fallback batch 2 is `medium`, although the rule for generated batches
  would make it `easy`.
- `updateAnswer` with an index outside the session's questions throws,
  because it reads `timeSpent` of `undefined`.
- `decodeString` yields characters below 256 only for hex payloads. A pair
  such as `"-1"` parses to a negative number, and `fromCharCode` turns that
  into a code unit of at least `0xFFF1`.

## Model

| member | source | states |
|---|---|---|
| JsRuntime.ParseHex | lib/contract.ts:453 | `parseInt(s, 16)` is NaN on the empty string and a number on a string opening with two hex digits or consisting of one; a negative result needs a `-` after the leading white space; its magnitude stays below 16^length |
| JsRuntime.ParseHexOfDigits | lib/contract.ts:453 | `parseInt` of a non-empty hex-digit string is exactly its base-16 value |
| JsRuntime.ParseHexShort | lib/contract.ts:474 | `parseInt` of at most two characters, when a number, lies in -15..255 |
| JsRuntime.HexValueOfToHex | lib/contract.ts:453 | reading back a fixed-width hex rendering of a value below 16^width gives that value |
| JsRuntime.CodeUnit | lib/contract.ts:474 | `fromCharCode` gives a code unit below 2^16 that is congruent to the number modulo 2^16, keeps a number already in 0..0xFFFF, and turns NaN into 0 |
| JsRuntime.Slice | lib/contract.ts:446 | `slice` with in-range indices is the ordinary subsequence, and never longer than its input |
| JsRuntime.TrimStart | components/quiz-interface.tsx:149 | the trimmed text is a suffix that starts with a non-space, and everything removed was white space |
| JsRuntime.Trim | hooks/use-ipfs-quiz.ts:136 | `trim` leaves no white space at either end |
| JsRuntime.NatStringInjective | hooks/use-quiz-progress.ts:80 | distinct natural numbers render to distinct decimal strings |
| JsRuntime.IntStringInjective | hooks/use-quiz-progress.ts:80 | two integers render to the same string exactly when they are equal |
| AnswerCheck.Lower | hooks/use-ipfs-quiz.ts:135 | a capital becomes the letter 32 code points above it, any other character is kept, no capital results, and white space and punctuation are kept as they are |
| AnswerCheck.StripPunctuation | hooks/use-ipfs-quiz.ts:137 | the result is exactly the input's characters outside `. , ! ? ¡ ¿ ; :`, in their order, so none of those remains and text without them is unchanged |
| AnswerCheck.CollapseSpacesShape | hooks/use-ipfs-quiz.ts:138 | empty stays empty, the result starts with white space exactly when the input does, every white-space run became one blank so no two blanks are adjacent, and text without capitals or punctuation stays so |
| AnswerCheck.CollapseKeepsNonSpace | hooks/use-ipfs-quiz.ts:138 | collapsing keeps every character that is not white space, in order |
| AnswerCheck.Normalize | hooks/use-ipfs-quiz.ts:134-138 | normalised text has no capital, no listed punctuation, only blanks as white space, no two adjacent blanks, is no longer than the input, and keeps exactly the lower-cased input's characters that are neither white space nor punctuation, in order |
| AnswerCheck.TrimKeepsNonSpace | hooks/use-ipfs-quiz.ts:136 | trimming removes only white space |
| AnswerCheck.WordingSurvives | hooks/use-ipfs-quiz.ts:136-138 | trimming, stripping punctuation and collapsing white space keep every character that is neither white space nor punctuation, in order |
| AnswerCheck.WordingOfLower | hooks/use-ipfs-quiz.ts:135 | lower-casing and keeping the characters that are neither white space nor punctuation commute |
| AnswerCheck.ValidateAnswer | hooks/use-ipfs-quiz.ts:132-141 | answers that agree up to case validate, and validated answers have the same non-space, non-punctuation characters after lower-casing |
| AnswerCheck.ValidateAnswerComparesWording | hooks/use-ipfs-quiz.ts:140 | validated answers have the same characters apart from white space and punctuation, up to case |
| AnswerCheck.ValidateAnswerIsEquivalence | hooks/use-ipfs-quiz.ts:140 | answer validation is reflexive, symmetric and transitive |
| AnswerCheck.NormalizeIdempotentWithoutEdgeSpaces | hooks/use-ipfs-quiz.ts:134-138 | normalising twice equals normalising once whenever the first result has no blank at either end |
| AnswerCheck.NormalizeWordSpaceDot | hooks/use-ipfs-quiz.ts:136-138 | a plain word followed by `" ."` normalises to the word and a trailing blank |
| AnswerCheck.NormalizeWordSpace | hooks/use-ipfs-quiz.ts:134-138 | a plain word followed by a blank normalises to the bare word |
| AnswerCheck.NormalizeNotIdempotent | hooks/use-ipfs-quiz.ts:134-138 | for any plain word w, normalising `w + " ."` twice gives w, which differs from normalising it once |
| AnswerCheck.StripPunctuationAppend | hooks/use-ipfs-quiz.ts:137 | stripping punctuation distributes over concatenation |
| AnswerCheck.NormalizeWord | hooks/use-ipfs-quiz.ts:134-138 | a word without white space or punctuation normalises to its lower-case form |
| AnswerCheck.NormalizeWordPunctuation | hooks/use-ipfs-quiz.ts:134-138 | a word followed by one punctuation mark normalises to the lower-cased word |
| AnswerCheck.NormalizeTwoWords | hooks/use-ipfs-quiz.ts:134-138 | two words separated by any non-empty run of white space normalise to the lower-cased words joined by one blank |
| AnswerCheck.ValidateAnswerIgnoresTrailingPunctuation | hooks/use-ipfs-quiz.ts:132-141 | a word with a trailing punctuation mark validates against a word exactly when their lower-case forms agree, so `"Hola,"` matches `"hola"` |
| AnswerCheck.ValidateAnswerIgnoresGapWidth | hooks/use-ipfs-quiz.ts:132-141 | two-word answers whose words agree up to case validate whatever the widths of their gaps, so `"Hola amigo"` matches `"Hola  amigo"` |
| AnswerCheck.ValidateAnswerStrictOnAccents | hooks/use-ipfs-quiz.ts:132-141 | two words that differ at one position by two characters that are not capitals do not validate, so `"Adios"` does not match `"Adiós"` |
| AnswerCheck.CountCorrect | hooks/use-ipfs-quiz.ts:148-153 | the number of matching positions is at most the number of questions |
| AnswerCheck.RoundedPercent | hooks/use-ipfs-quiz.ts:155 | the percentage is NaN exactly when there are no questions |
| AnswerCheck.RoundedPercentIsNearest | hooks/use-ipfs-quiz.ts:155 | the rounded percentage p satisfies -n <= 2(100c - pn) < n, which is round-half-up of 100c/n, and p <= 100 when c <= n |
| AnswerCheck.CountCorrectStep | hooks/use-ipfs-quiz.ts:149-153 | extending the answered prefix by one adds 1 exactly when that answer validates |
| AnswerCheck.CalculateScore | hooks/use-ipfs-quiz.ts:143-156 | a length mismatch throws "Questions and answers length mismatch"; otherwise the loop returns the rounded percentage of validated answers |
| AnswerCheck.CountCorrectAll | hooks/use-ipfs-quiz.ts:148-153 | when every answer validates, the count is the number of questions |
| AnswerCheck.CountCorrectNone | hooks/use-ipfs-quiz.ts:148-153 | when no answer validates, the count is 0 |
| AnswerCheck.RoundedPercentExtremes | hooks/use-ipfs-quiz.ts:155 | all correct gives 100 and none correct gives 0 |
| AnswerCheck.ScoreInRange | hooks/use-ipfs-quiz.ts:143-156 | for a non-empty quiz the score is a number in 0..100, 100 when all validate and 0 when none do |
| AnswerCheck.ThreeOfFiveIsSixty | hooks/use-ipfs-quiz.ts:155 | three correct answers out of five score 60 |
| BatchSource.OrElse | hooks/use-ipfs-quiz.ts:91-93 | `x \|\| fallback` gives the value when it is a non-empty string and the fallback otherwise |
| BatchSource.FirstSet | hooks/use-ipfs-quiz.ts:177-183 | the first fixed set has five questions |
| BatchSource.SecondSet | hooks/use-ipfs-quiz.ts:184-190 | the second fixed set has five questions |
| BatchSource.GeneratedSet | hooks/use-ipfs-quiz.ts:193-202 | a generated set has five questions |
| BatchSource.FallbackQuestions | hooks/use-ipfs-quiz.ts:175-204 | always five questions with ids (b-1)*5+1..(b-1)*5+5; for ids other than 1 and 2 they copy the first set's translations in Spanish with the difficulty of the id |
| BatchSource.FallbackIdsDisjoint | hooks/use-ipfs-quiz.ts:176-202 | fallback questions of different batches never share an id |
| BatchSource.FallbackDifficulty | hooks/use-ipfs-quiz.ts:184-200 | every batch except 2 has the easy/medium/hard difficulty of its id, and batch 2 is medium although its id would make it easy |
| BatchSource.FallbackBatch | hooks/use-ipfs-quiz.ts:105-112 | the fallback batch carries the requested id and five questions |
| BatchSource.Resolve | hooks/use-ipfs-quiz.ts:83-116 | a reply with a question array is taken with its missing fields defaulted to now, medium and English → Spanish; anything else gives the fallback batch |
| BatchSource.ResolveAlwaysSucceeds | hooks/use-ipfs-quiz.ts:100-116 | whatever the gateway does, a batch with the requested id comes back, and five questions when every gateway failed |
| BatchSource.RandomBatchId | hooks/use-ipfs-quiz.ts:128-130 | a random draw in [0, 1) gives a batch id in 1..10 |
| BatchSource.BatchHashInjective | hooks/use-ipfs-quiz.ts:79 | two batch ids are asked for under the same content hash exactly when they are equal |
| BatchSource.BatchCache.constructor | hooks/use-ipfs-quiz.ts:22-24 | the cache starts empty and without an error |
| BatchSource.BatchCache.FetchBatch | hooks/use-ipfs-quiz.ts:64-126 | an id outside 1..10 throws and changes nothing; a cached id returns the cached batch and changes nothing; otherwise the resolved batch is returned and stored under its id and the error is cleared |
| BatchSource.BatchCache.ClearCache | hooks/use-ipfs-quiz.ts:158-160 | the cache becomes empty |
| BatchSource.BatchCache.CachedCount | hooks/use-ipfs-quiz.ts:170 | the reported count is 0 exactly when the cache is empty, and at most 10 in a valid cache |
| BatchSource.FetchTwice | hooks/use-ipfs-quiz.ts:69-72 | a second fetch of the same id returns the same outcome, whatever the gateway answers the second time |
| QuizProgress.SumAppend | hooks/use-quiz-progress.ts:139 | summing distributes over appending one value |
| QuizProgress.BestOfAppend | hooks/use-quiz-progress.ts:151 | the best score after one more score is the larger of the old best and that score |
| QuizProgress.BestOfIsMaximum | hooks/use-quiz-progress.ts:151 | the best score is non-negative, bounds every score, and is 0 or one of the scores |
| QuizProgress.TotalTimeNonNegative | hooks/use-quiz-progress.ts:139 | the summed time of questions with non-negative times is non-negative |
| QuizProgress.UpdatePair | hooks/use-quiz-progress.ts:144-152 | a pair's attempts grow by one, its best is the larger of the old best (or 0) and the score, and a first attempt's average is the score |
| QuizProgress.NextStreak | hooks/use-quiz-progress.ts:159-173 | no previous quiz gives 1; under a day since the last keeps the streak; one whole day adds 1; two or more days give 1 |
| QuizProgress.UpdateStats | hooks/use-quiz-progress.ts:138-184 | completion adds 1 to total and completed quizzes, adds the questions' time, sets the last date to now, adds the pair and leaves other pairs unchanged |
| QuizProgress.AbandonStats | hooks/use-quiz-progress.ts:210 | abandoning adds 1 to total quizzes and changes nothing else |
| QuizProgress.InitialStatsConsistent | hooks/use-quiz-progress.ts:46-53 | the initial statistics agree with an empty score record |
| QuizProgress.RunningMean | hooks/use-quiz-progress.ts:147-149 | the running-mean update keeps mean times count equal to the sum |
| QuizProgress.MeanOfAppend | hooks/use-quiz-progress.ts:157 | the mean after one more score is the running-mean update of the old mean |
| QuizProgress.MeanOfIsMean | hooks/use-quiz-progress.ts:155-157 | the running mean of a score list times its length is the list's sum |
| QuizProgress.UpdatePairConsistent | hooks/use-quiz-progress.ts:142-153 | the pair update keeps attempts, best and average in agreement with the pair's scores |
| QuizProgress.PairsConsistentAfterUpdate | hooks/use-quiz-progress.ts:142-153 | updating one pair keeps every pair in agreement with its scores |
| QuizProgress.UpdateStatsConsistent | hooks/use-quiz-progress.ts:138-184 | completion keeps all statistics in agreement with the completed scores and per-pair scores |
| QuizProgress.GlobalAverage | hooks/use-quiz-progress.ts:155-157 | averageScore times completedQuizzes equals the sum of completed scores |
| QuizProgress.PairAverage | hooks/use-quiz-progress.ts:146-150 | a pair's averageScore times its attempts equals the sum of that pair's scores |
| QuizProgress.AbandonStatsConsistent | hooks/use-quiz-progress.ts:200-211 | abandoning keeps the statistics in agreement with the completed scores |
| QuizProgress.ThreeQuizzesExample | hooks/use-quiz-progress.ts:138-184 | scores 80, 60 and 100 in one pair on one day give average 80, pair stats (3, 80, 100) and streak 1 |
| QuizProgress.PushHistory | hooks/use-quiz-progress.ts:188-193 | the completed session goes first, earlier entries follow shifted by one, and at most 50 are kept |
| QuizProgress.PushAllKeepsNewest | hooks/use-quiz-progress.ts:188-193 | after any sequence of completions the history is the newest 50 sessions, newest first |
| QuizProgress.ProgressTracker.constructor | hooks/use-quiz-progress.ts:44-54 | no session, the initial statistics, no timer, and empty stored history |
| QuizProgress.ProgressTracker.StoredHistory | hooks/use-quiz-progress.ts:187-188 | a non-empty list shown is the stored list of a connected, non-empty address; in a valid tracker it holds at most 50 sessions, all completed and scored |
| QuizProgress.ProgressTracker.StartQuiz | hooks/use-quiz-progress.ts:78-89 | a new in-progress session at index 0 replaces any old one, with one blank, zero-time question per prompt, and the timer starts now |
| QuizProgress.ProgressTracker.UpdateAnswer | hooks/use-quiz-progress.ts:91-109 | no session: nothing changes; index out of range: throws and nothing changes; otherwise only that question changes, with the answer set and its time the larger of old and elapsed |
| QuizProgress.ProgressTracker.MoveToQuestion | hooks/use-quiz-progress.ts:111-122 | with a session the index is set without a bounds check and the timer restarts; without one nothing changes |
| QuizProgress.ProgressTracker.CompleteQuiz | hooks/use-quiz-progress.ts:124-198 | with a session it becomes completed with the score and end time, the statistics advance by the reducer while staying consistent, and a non-empty address gets the session pushed on its history, which keeps only completed, scored sessions; without a session nothing changes |
| QuizProgress.ProgressTracker.AbandonQuiz | hooks/use-quiz-progress.ts:200-211 | with a session it is dropped and total quizzes grow by one; without one nothing changes |
| QuizProgress.ProgressTracker.ResetQuiz | hooks/use-quiz-progress.ts:213-216 | session and timer are cleared from any state, and statistics and history stay |
| QuizInterface.MockScore | components/quiz-interface.tsx:77 | the mock score is in 60..99 |
| QuizInterface.Render | components/quiz-interface.tsx:93-114 | results only for mode results with a completed session, history exactly in mode history, the quiz only for mode quiz with a session, home otherwise |
| QuizInterface.Primary | components/quiz-interface.tsx:148 | the primary button completes the quiz exactly on question index 4 and advances otherwise |
| QuizInterface.CurrentAnswer | components/quiz-interface.tsx:113-114 | the answer shown is empty or an answer the session holds |
| QuizInterface.AnswerShownAfterWrite | components/quiz-interface.tsx:113-114 | after an answer is written at the current index it is the answer shown |
| QuizInterface.PrimaryEnabled | components/quiz-interface.tsx:149 | the primary button is enabled only with a non-empty answer |
| QuizInterface.PreviousEnabled | components/quiz-interface.tsx:144 | on a non-negative index the previous button is enabled exactly when the index is above 0, which is when `handlePrevious` moves |
| QuizInterface.HistoryButtonAfterCompletion | components/quiz-interface.tsx:242 | with consistent statistics the history button shows exactly when some quiz was completed, and always after completing one |
| QuizInterface.TrimStartEmptyIffAllSpace | components/quiz-interface.tsx:149 | trimming the start leaves nothing exactly when the text is all white space |
| QuizInterface.PrimaryEnabledIffVisibleText | components/quiz-interface.tsx:149 | the primary button is enabled exactly when the current answer holds a non-space character |
| QuizInterface.Controller.constructor | components/quiz-interface.tsx:40-50 | the page starts on home with English → Spanish and no session |
| QuizInterface.Controller.AnswerChange | components/quiz-interface.tsx:52-56 | without a session nothing changes; otherwise only the current question changes, getting the answer and the larger of its old time and the time on the timer, and timer, statistics, history and address stay |
| QuizInterface.Controller.Next | components/quiz-interface.tsx:58-62 | below index 4 the index moves up by one and the timer restarts, with statistics, history and address unchanged; otherwise nothing changes, so the index stays in 0..4 |
| QuizInterface.Controller.Previous | components/quiz-interface.tsx:64-68 | above index 0 the index moves down by one and the timer restarts, with statistics, history and address unchanged; otherwise nothing changes, so the index stays in 0..4 |
| QuizInterface.Controller.StartQuiz | components/quiz-interface.tsx:70-73 | a session `quiz-<now>` on the selected pair starts at now with the five mock questions, each with a blank answer and no time; the timer starts, statistics and history stay, and the quiz screen shows |
| QuizInterface.Controller.CompleteQuiz | components/quiz-interface.tsx:75-80 | with a session it is completed with a mock score in 60..99 and end time now, the statistics advance by the reducer, a connected address gets it pushed on its history, and the results screen shows; without a session nothing changes and home shows |
| QuizInterface.Controller.GoHome | components/quiz-interface.tsx:82-90 | new quiz and go home both clear the session and timer, keep statistics and history, and show home |
| QuizInterface.Controller.ViewHistory | components/quiz-interface.tsx:246 | the history screen shows |
| QuizInterface.Controller.BackFromHistory | components/quiz-interface.tsx:102 | the home screen shows |
| QuizInterface.Controller.SelectPair | components/quiz-interface.tsx:197 | the chosen pair becomes the selected pair and the mode stays |
| QuizInterface.PlayThrough | components/quiz-interface.tsx:52-80 | starting, answering and advancing through five questions and completing shows results with every answer kept, a score in 60..99, and the history button |
| ContractCodec.EncodeFunction | lib/contract.ts:427-440 | a known name gives its fixed selector and any other name gives "0x" |
| ContractCodec.SelectorShapes | lib/contract.ts:430-437 | every selector is "0x" and eight more characters |
| ContractCodec.SelectorsDistinct | lib/contract.ts:430-437 | the six selectors are pairwise different |
| ContractCodec.SelectorsHex | lib/contract.ts:430-437 | every selector except getUserSubmissions is hex, and that one is not |
| ContractCodec.UnknownNameIsBarePrefix | lib/contract.ts:439 | "0x" comes back exactly for names outside the table |
| ContractCodec.Chunks | lib/contract.ts:450-455 | only complete 64-character chunks are kept, one per whole word |
| ContractCodec.Positives | lib/contract.ts:457 | the filter keeps only positive numbers and never grows the list |
| ContractCodec.DecodeUintArray | lib/contract.ts:442-461 | the loop returns the positive values of the complete words after the first two characters |
| ContractCodec.ReadChunks | lib/contract.ts:450-455 | the chunk loop reads every complete word in order |
| ContractCodec.DecodedCountBound | lib/contract.ts:450-457 | at most (length - 2) div 64 values come back |
| ContractCodec.ChunksIgnoreTail | lib/contract.ts:452 | a trailing partial chunk is dropped |
| ContractCodec.WordsIgnoreTail | lib/contract.ts:452-453 | a trailing partial chunk adds no value |
| ContractCodec.DecodeUintArrayRoundTrip | lib/contract.ts:442-461 | words of positive values with a "0x" prefix decode back to those values |
| ContractCodec.WordsOfAbiUintArray | lib/contract.ts:163-172 | an ABI-encoded uint256[] reads as the offset word 32, the length word, then the elements |
| ContractCodec.DecodeUintArrayReadsHeader | lib/contract.ts:442-461 | on an ABI-encoded uint256[] of positive values, the decoder also returns the offset 32 and the length |
| ContractCodec.DecodeUintArrayCounterexample | lib/contract.ts:442-461 | the ABI encoding of [7] decodes to [32, 1, 7] |
| ContractCodec.FirstNaturals | lib/contract.ts:163-172 | taking n elements yields exactly n values |
| ContractCodec.DecodeUintArrayAbi | lib/contract.ts:163-172 | the corrected decoder returns at most one value per 64 characters of its input |
| ContractCodec.DecodeUintArrayAbiRoundTrip | lib/contract.ts:163-172 | the corrected decoder returns exactly the array of any ABI-encoded uint256[] |
| ContractCodec.CharOf | lib/contract.ts:474 | a character from a pair is below 256 or at least 0xFFF1 |
| ContractCodec.Pairs | lib/contract.ts:473-474 | the pairs loop cuts the text into pairs of one or two characters, one per two characters rounded up |
| ContractCodec.DecodePairs | lib/contract.ts:472-476 | one character per pair |
| ContractCodec.DecodeString | lib/contract.ts:463-477 | "" for an empty input or "0x"; otherwise one character per pair of the payload found through the offset and length words |
| ContractCodec.ReadPairs | lib/contract.ts:472-475 | the pairs loop reads every pair in order |
| ContractCodec.DecodeStringLengthBound | lib/contract.ts:469-476 | the decoded string is no longer than the length word says |
| ContractCodec.DecodePairsOfHexAreBytes | lib/contract.ts:472-476 | a hex payload decodes to characters below 256 |
| ContractCodec.DecodePairsOfBytes | lib/contract.ts:472-476 | decoding the two-digit hex of a byte string gives the string back |
| ContractCodec.DecodeStringRoundTrip | lib/contract.ts:463-477 | the ABI encoding of a string of characters below 256 decodes to that string |
| ContractCodec.PayloadOfLayout | lib/contract.ts:467-470 | with offset word 32 and a length word n, the payload is the 2n hex digits after the two words |
| ContractCodec.DecodeSubmission | lib/contract.ts:479-492 | the user is "0x" and characters 26..66; batch id, score and timestamp are parsed from 66..68, 68..70 and 70..78; the answers are five blanks |
| ContractCodec.DecodeSubmissionReadsZeros | lib/contract.ts:479-492 | on an ABI-encoded submission the user is right but batch id, score and timestamp all read 0 |
| ContractCodec.DecodeSubmissionCounterexample | lib/contract.ts:484 | a submission with batch id 7, score 80 and timestamp 1700000000 decodes with batch id 0 |
| ContractCodec.DecodeSubmissionWords | lib/contract.ts:124-153 | the corrected decoder keeps the user of the original |
| ContractCodec.DecodeSubmissionWordsRoundTrip | lib/contract.ts:124-153 | the corrected decoder returns exactly the user, batch id, score and timestamp that were encoded |
| MockQuizData.MockBatches | lib/mock-quiz-data.ts:4-134 | the table holds three batches |
| MockQuizData.Find | lib/mock-quiz-data.ts:137 | nothing is found exactly when no batch has the id, and a found batch is the first one with it |
| MockQuizData.MockBatchIds | lib/mock-quiz-data.ts:6-134 | the table's ids are 1, 2 and 3 in order |
| MockQuizData.MockIdsDistinct | lib/mock-quiz-data.ts:6-134 | the table's ids are distinct |
| MockQuizData.GetMockBatch | lib/mock-quiz-data.ts:136-138 | a batch found carries the id and is in the table, and nothing is found exactly when no table entry has the id |
| MockQuizData.GetMockBatchFound | lib/mock-quiz-data.ts:136-138 | a batch is found exactly for ids 1..3, it is the table entry at id - 1, and it carries the id |
| MockQuizData.MockQuestionsShape | lib/mock-quiz-data.ts:7-132 | every batch has five questions numbered 1..5 in its own difficulty, in Spanish, with pair en-es |

## Left out

- Gateway fetching (`fetchFromIPFS`, its timeouts and its gateway list) is
  replaced by a reply parameter: questions and optional fields, or every
  gateway failing.
- `isLoading` is not modelled. Neither is the error message stored when the
  surrounding `try` catches an exception, because the modelled adapter never
  throws.
- React state, effects and stale closures are left out. Every handler is a
  synchronous method on current state.
- `localStorage` and JSON persistence are not modelled. The saved statistics
  and their reload are left out, and the per-address history is a map of
  sequences.
- `Date` and `Math.random` are parameters: `now` in milliseconds, an
  ISO-string clock reading, and a draw in [0, 1). `endTime` and the `today`
  of the streak rule share one `now`.
- `QuizProgress.ProgressTracker.StartQuiz`: the session id, its start time
  and the timer's start all use one `now`. The source reads the clock three
  times, so they may differ by a few milliseconds.
- `QuizProgress.ProgressTracker.CompleteQuiz`: the end time and the
  statistics' last date are the same `now`. The source reads the clock twice.
- Floating point is modelled as `real`, so running averages are exact.
  `Math.round` is modelled as round-half-up on rationals. Display rounding
  in the statistics and results components is not part of this model.
- `parseInt` on 64-digit words is exact. The code loses precision above
  2^53, and the model does not capture that loss.
- `AnswerCheck.Lower` covers ASCII and Latin-1 capitals only, not full
  Unicode `toLowerCase`. White space is the ECMAScript set of single code
  units; surrogate pairs are not decoded.
- The `isCorrect` flag and scoring in the results and history components
  are not part of this model.
- `ContractCodec.EncodeFunction` ignores its parameters, as the code does.
  Names that are inherited properties of a JavaScript object (such as
  `constructor`) are not modelled and count as unknown names.
- The `answers` of a submission are never decoded, in the code or in the
  corrected decoder.
- The contract RPC calls and `hooks/use-quiz-contract.ts` are not part of
  this model.
- Difficulty strings outside easy/medium/hard that a gateway might send are
  not modelled; the reply's difficulty is one of the three.
- `MockQuizData.MockBatches`: the source takes a fresh `new Date()` for each
  entry's `createdAt`. The model uses one reading for all three entries.
- Non-integer batch ids in `getMockBatch` and `fetchBatch` are not modelled.
  Ids are integers.
- `QuizProgress.ProgressTracker.UpdateAnswer` models a question index
  outside the session as a thrown error. In the code, that index would make
  the `setCurrentSession` updater throw during a later render.

## Findings

| source | as written | input that shows it | evidently intended | confidence | as-written member | corrected member |
|---|---|---|---|---|---|---|
| lib/contract.ts:442-461 | `decodeUintArray` parses every 64-digit word of a `uint256[]` return value, including the ABI offset word (32) and the length word, and keeps every positive one | the ABI encoding of `[7]` decodes to `[32, 1, 7]` | skip the offset, read the length, then return exactly that many elements | not executed | ContractCodec.DecodeUintArrayCounterexample | ContractCodec.DecodeUintArrayAbiRoundTrip |
| lib/contract.ts:479-492 | `decodeSubmission` reads batch id, score and timestamp from characters 66..78, which are the high-order digits of the first words and always 0 for a uint8/uint32 | a submission with batch id 7, score 80 and timestamp 1700000000 decodes with batch id 0, score 0 and timestamp 0 | read each field from the low-order end of its own 64-digit word | not executed | ContractCodec.DecodeSubmissionCounterexample | ContractCodec.DecodeSubmissionWordsRoundTrip |
