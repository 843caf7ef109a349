# Adaptive learning engine of LevelUp Flashcards, in Dafny

This project models the study engine of the flashcard application and proves properties of the model. The engine covers:

- **Answer matching.** A typed answer is normalised and scored against the card's back by Levenshtein distance.
- **Grading and scheduling.** The score becomes a SuperMemo-2 quality grade, which drives a fixed-step review scheduler.
- **XP and levels.** Grades earn XP, and total XP maps to a level and a title.
- **Study utilities.** A difficulty label, a minutes:seconds clock and a Fisher–Yates shuffle.
- **Classic session.** A six-state machine that tracks index, lives, score and counters.
- **Endless session.** A self-refilling review queue, the score rules and the session restore.

Modules follow the source files:

| module | file | source |
|---|---|---|
| `Types` | types.dfy | `Card` and an optional value |
| `FuzzyMatch` | fuzzy_match.dfy | src/utils/cognitive/fuzzyMatch.ts |
| `Sm2` | sm2.dfy | src/utils/cognitive/sm2.ts |
| `XpUtils` | xp_utils.dfy | src/utils/xp/xpUtils.ts |
| `StudyUtils` | study_utils.dfy | `getDifficultyLabel` and `formatTime` of src/utils/study/studyUtils.ts |
| `Shuffle` | shuffle.dfy | `shuffleArray` of src/utils/study/studyUtils.ts |
| `ClassicModeMachine` | classic_mode_machine.dfy | src/machines/classicModeMachine.ts, plus the save and resume rule of StudyInterface.tsx |
| `EndlessSession` | endless_session.dfy | the queue, submit and restore logic of EndlessInterface.tsx |

Modelling choices:

- Ease factors and fuzzy scores are exact `real`s.
- Dates are day numbers, so the next review is today plus the interval.
- Each `Math.random()` draw is a `real` in [0, 1) passed in as a parameter. `Math.floor(r * (i + 1))` is written out as `Shuffle.Pick`.
- The Fisher–Yates shuffle and the Levenshtein dynamic program are methods with loop invariants. Each is proved equal to a functional definition.
- The level is defined by its integer characterisation, found by an upward search. A separate lemma relates it to the square-root formula the source uses.

Facts about the code that the model keeps:

- **Grades out of range.** `calculateSM2` does not reject quality grades outside 0–5; it computes with whatever number it is given. `Sm2.CalculateSm2` therefore takes any `int`.
- **Queue length.** `advanceQueue` refills the endless queue with one copy of the deck, so the queue is guaranteed to be at least three long only for decks of at least three cards (`EndlessSession.AdvanceQueueLength`). `EndlessSession.SmallDeckShortQueue` shows a one-card deck leaving a one-card queue.
- **Seeding the queue.** Without a saved session, EndlessInterface seeds the queue with `cards` in the order it receives them (`EndlessSession.InitialQueue`). Its caller, the study page (src/app/[deckId]/study/page.tsx:92-113), orders the deck by ease band and shuffles within each band before handing it over.

## Model

| member | source | states |
|---|---|---|
| FuzzyMatch.StripPunctuation | src/utils/cognitive/fuzzyMatch.ts:11 | the result keeps only word and whitespace characters of the input, and is no longer than it |
| FuzzyMatch.CollapseSpaces | src/utils/cognitive/fuzzyMatch.ts:12 | every character is a single ' ' or a non-space character of the input, and no two whitespace characters are adjacent |
| FuzzyMatch.StripPunctuationAppend | src/utils/cognitive/fuzzyMatch.ts:11 | stripping distributes over concatenation and keeps a single character exactly when it is a word or whitespace character, so every such character of the input survives, in order, and nothing else does |
| FuzzyMatch.CollapseSpacesSnoc | src/utils/cognitive/fuzzyMatch.ts:12 | collapsing agrees with a left-to-right scan: a non-space character is appended as is, a whitespace character adds one ' ' after a non-space character or at the start and nothing inside a run, so non-space characters survive in order and each whitespace run becomes exactly one ' ' |
| FuzzyMatch.Normalize | src/utils/cognitive/fuzzyMatch.ts:8-14 | the output consists of lower-case word characters and single spaces, with no space at either end and no two spaces in a row, and it is no longer than the input |
| FuzzyMatch.NormalizeIdempotent | src/utils/cognitive/fuzzyMatch.ts:8-14 | normalising twice gives the same string as normalising once |
| FuzzyMatch.NormalizeFixesNormalized | src/utils/cognitive/fuzzyMatch.ts:8-14 | a string already in normal form is left unchanged |
| FuzzyMatch.NormalizeKeepsWordChars | src/utils/cognitive/fuzzyMatch.ts:8-14 | normalisation keeps exactly the word characters of the lower-cased input, in order; only whitespace and punctuation are removed |
| FuzzyMatch.LevenshteinDistance | src/utils/cognitive/fuzzyMatch.ts:19-52 | the matrix method returns the edit distance of the recurrence `Lev`, filled row by row with the first row and column initialised to their indices |
| FuzzyMatch.LevEmpty | src/utils/cognitive/fuzzyMatch.ts:24-51 | the distance between a string and the empty string is the string's length, in both orders |
| FuzzyMatch.LevSelf | src/utils/cognitive/fuzzyMatch.ts:19-52 | a string is at distance 0 from itself |
| FuzzyMatch.LevZeroIffEqual | src/utils/cognitive/fuzzyMatch.ts:19-52 | the distance is 0 exactly when the strings are equal |
| FuzzyMatch.LevSymmetric | src/utils/cognitive/fuzzyMatch.ts:35-51 | swapping the two strings does not change the distance |
| FuzzyMatch.LevBounds | src/utils/cognitive/fuzzyMatch.ts:35-51 | the distance is at least the difference of the lengths and at most the longer length |
| FuzzyMatch.Similarity | src/utils/cognitive/fuzzyMatch.ts:63-71 | on normalised strings: the score is in [0, 1]; an empty target scores 0 even against an empty input; a non-empty target against an empty input scores 0; the score is exactly 1 when and only when the strings are equal and non-empty |
| FuzzyMatch.EvaluateAnswer | src/utils/cognitive/fuzzyMatch.ts:59-72 | the score is in [0, 1]; it is 0 whenever the normalised target is empty; it is 1 exactly when the normalised strings are equal and non-empty |
| FuzzyMatch.SimilarityUnclamped | src/utils/cognitive/fuzzyMatch.ts:66-71 | the ratio (maxLength - distance) / maxLength is never negative, so the `Math.max(0, …)` clamp never changes it |
| FuzzyMatch.EvaluateAnswerSymmetric | src/utils/cognitive/fuzzyMatch.ts:59-72 | swapping input and target does not change the score, including when only one side normalises to empty |
| Sm2.QualityGrade | src/utils/cognitive/sm2.ts:23-30 | the grade is in 0..5 and is at least k exactly when the score reaches the k-th threshold (0.20, 0.40, 0.60, 0.80, 0.95) |
| Sm2.QualityGradeMonotone | src/utils/cognitive/sm2.ts:23-30 | a higher score never earns a lower grade |
| Sm2.CalculateSm2 | src/utils/cognitive/sm2.ts:36-71 | the new ease is at least 1.3 and is the old ease plus the SM-2 delta unless floored; a grade below 3 resets repetitions to 0 and the interval to 1; a passing grade adds one repetition and takes the interval step for min(repetitions, 5); the interval is always one of 1, 2, 5, 7, 14, 28; the next review is today plus the interval |
| Sm2.EaseDeltaValues | src/utils/cognitive/sm2.ts:63-66 | the ease change is +0.1 for grade 5, 0 for 4 and -0.14 for 3 (-0.32, -0.54, -0.8 below) |
| Sm2.EaseDeltaMonotone | src/utils/cognitive/sm2.ts:63-66 | the ease change does not decrease as the grade rises, over the 0–5 scale and up to grade 7, where it peaks |
| Sm2.ScheduleIgnoresEase | src/utils/cognitive/sm2.ts:46-61 | interval, repetitions and next review do not depend on the prior ease |
| Sm2.EaseMonotoneInPrior | src/utils/cognitive/sm2.ts:63-71 | a higher prior ease never gives a lower new ease |
| Sm2.PassingStreak | src/utils/cognitive/sm2.ts:55-61 | after n passing reviews from a fresh card the repetition count is n and the interval is the step for min(n - 1, 5) |
| Sm2.StreakFrom | src/utils/cognitive/sm2.ts:55-61 | n passing reviews add n repetitions to any prior count, and the interval follows the step table |
| Sm2.ReviewAllInvariant | src/utils/cognitive/sm2.ts:46-71 | over any sequence of reviews the ease stays at least 1.3 and the interval stays in the step table |
| Sm2.ThreeFailures | src/utils/cognitive/sm2.ts:50-71 | three failing grades from ease 2.5 drive the ease to 1.7, then to the 1.3 floor, where it stays, with repetitions 0 and interval 1 |
| Sm2.FirstGoodReview | src/utils/cognitive/sm2.ts:55-71 | a grade of 4 on a new card with ease 2.5 keeps the ease and schedules the card for the next day |
| XpUtils.XpForReview | src/utils/xp/xpUtils.ts:7-11 | grade 5 earns 15 XP and grade 4 earns 10; anything below 4 earns nothing, and XP is positive exactly from grade 4 |
| XpUtils.XpForReviewMonotone | src/utils/xp/xpUtils.ts:7-11 | the XP reward does not decrease as the grade rises up to 5 |
| XpUtils.CumulativeStep | src/utils/xp/xpUtils.ts:16-19 | going from level L to L + 1 costs 100 * L XP |
| XpUtils.Level | src/utils/xp/xpUtils.ts:26-27 | the level is at least 1 and its cumulative XP 50 * (L - 1) * L is at most the total, while the next level's is above it |
| XpUtils.LevelIsLargest | src/utils/xp/xpUtils.ts:26-27 | every level whose cumulative XP fits within the total is at most the computed level |
| XpUtils.LevelMonotone | src/utils/xp/xpUtils.ts:21-27 | more total XP never gives a lower level |
| XpUtils.LevelBoundary | src/utils/xp/xpUtils.ts:16-27 | the level is 1 below 100 XP and 2 at exactly 100 |
| XpUtils.LevelMatchesSquareRootFormula | src/utils/xp/xpUtils.ts:27 | with an exact square root, the computed level L satisfies (2L - 1)^2 <= 1 + totalXp / 12.5 < (2L + 1)^2, which is the condition for floor((1 + sqrt(1 + totalXp / 12.5)) / 2) == L |
| XpUtils.GetLevelFromXp | src/utils/xp/xpUtils.ts:21-32 | the XP needed for the next level is 100 * level, the XP into the level is in [0, that), and cumulative XP plus current XP is the total |
| XpUtils.LevelTitle | src/utils/xp/xpUtils.ts:34-50 | the title of the first threshold, in descending order, that the level meets; every level below 5, including 0 and negatives, is "Novice" |
| StudyUtils.DifficultyLabel | src/utils/study/studyUtils.ts:10-16 | the band is no harder than k exactly when the ease is at most the k-th inclusive ceiling (1.5, 1.8, 2.2, 2.5); otherwise the band is Mastered |
| StudyUtils.DifficultyMonotone | src/utils/study/studyUtils.ts:10-16 | a higher ease never gives a harder label |
| StudyUtils.Seconds | src/utils/study/studyUtils.ts:19-20 | for non-negative seconds, secs < 60 and 60 * mins + secs equals the input; negative inputs keep JavaScript's sign of the remainder |
| StudyUtils.FormatTimeClock | src/utils/study/studyUtils.ts:18-22 | below 6000 seconds the clock is exactly five characters "MM:SS", digits around a colon, with MM the whole minutes and SS the seconds below 60, and reading it back gives the input |
| Shuffle.Pick | src/utils/study/studyUtils.ts:30 | the swap partner drawn for position i lies in [0, i] |
| Shuffle.ShufflePermutes | src/utils/study/studyUtils.ts:27-34 | the shuffle has the input's length and multiset of elements |
| Shuffle.ShuffleArray | src/utils/study/studyUtils.ts:27-34 | the array loop from the last position down to 1 computes the functional shuffle on a copy of the input, and the result is a permutation of the input |
| ClassicModeMachine.HandleCorrectAnswer | src/machines/classicModeMachine.ts:31-37 | the score rises by 10 for a perfect answer, otherwise by 5; one more correct answer; nothing else changes |
| ClassicModeMachine.HandleIncorrectAnswer | src/machines/classicModeMachine.ts:38-41 | one life is lost, floored at 0; one more incorrect answer; nothing else changes |
| ClassicModeMachine.ResetGame | src/machines/classicModeMachine.ts:45-52 | everything but the cards returns to the fresh-session context |
| ClassicModeMachine.Step | src/machines/classicModeMachine.ts:71-161 | cards never change; terminal states ignore every event but RESTART, and RESTART from them gives question with the fresh context; non-terminal states ignore RESTART |
| ClassicModeMachine.Init | src/app/components/study/StudyInterface.tsx:42-53 | the starting machine is the question state of classicModeMachine.ts with the fresh context StudyInterface builds around the given deck, and satisfies the run invariant |
| ClassicModeMachine.StepKeepsInv | src/machines/classicModeMachine.ts:31-161 | every event keeps the run invariant: lives in 0..5 and 0 only in game_over; index on a card; counters summing to the index in question and to index + 1 in feedback; score within 5 to 10 per correct answer; status matching the state |
| ClassicModeMachine.RunKeepsInv | src/machines/classicModeMachine.ts:31-161 | any sequence of events keeps the run invariant and the cards |
| ClassicModeMachine.ReachableInv | src/machines/classicModeMachine.ts:61-70 | after any events from a fresh session, lives are in 0..5, the score is never negative, and the index is at most the last card's for a non-empty deck |
| ClassicModeMachine.SubmitOutcome | src/machines/classicModeMachine.ts:74-88 | in question, a correct answer goes to feedback_correct with 10 or 5 more points and one more correct answer; a wrong answer costs a life and one more incorrect answer, and goes to game_over exactly when it was the last life, otherwise to feedback_incorrect; the index is unchanged |
| ClassicModeMachine.NextCardOutcome | src/machines/classicModeMachine.ts:55-127 | NEXT_CARD after feedback goes to question with index + 1 while there are more cards, otherwise to completed with the index kept; a life is always left, so it never goes to game_over |
| ClassicModeMachine.FeedbackIncorrectNeverGameOver | src/machines/classicModeMachine.ts:114-127 | in every machine reachable from a fresh session, feedback_incorrect has a life left and its game_over branch is never taken |
| ClassicModeMachine.QuitOutcome | src/machines/classicModeMachine.ts:90-159 | QUIT from a non-terminal state goes to session_over, keeping index, lives, score and counters and recording the session_over status |
| ClassicModeMachine.ScoreNeverDecreases | src/machines/classicModeMachine.ts:31-52 | without a RESTART, no sequence of events lowers the score |
| ClassicModeMachine.Save | src/app/components/study/StudyInterface.tsx:60-79 | a session is saved exactly while it is playing, with one id per card |
| ClassicModeMachine.Resume | src/app/components/study/StudyInterface.tsx:24-54 | the resumed machine uses the current cards; a missing save or one with a different card count gives a fresh session |
| ClassicModeMachine.SaveResumeRoundTrip | src/app/components/study/StudyInterface.tsx:24-79 | saving a playing machine and resuming it over the same deck gives back the same machine; an ended session resumes as a fresh one |
| ClassicModeMachine.ResumeKeepsInv | src/app/components/study/StudyInterface.tsx:29-36 | a session saved from an invariant machine resumes, over a deck of the same size, into a machine that keeps the invariant |
| EndlessSession.InsertPos | src/app/components/study/EndlessInterface.tsx:111-114 | the reinsertion position is at most 5 and within the queue; it is 3 to 5 whenever the queue holds at least three cards, and the end of the queue otherwise |
| EndlessSession.AdvanceQueueShape | src/app/components/study/EndlessInterface.tsx:106-129 | the front card is removed; a failed card goes at the drawn position, at most 5 and at least 3 unless that is the end of a shorter queue, and the remaining cards keep their order; a permutation of the deck is appended exactly when fewer than three cards remain |
| EndlessSession.AdvanceQueueLength | src/app/components/study/EndlessInterface.tsx:122-124 | a non-empty deck leaves a non-empty queue, and a deck of at least three cards leaves at least three |
| EndlessSession.SmallDeckShortQueue | src/app/components/study/EndlessInterface.tsx:122-124 | with a one-card deck the queue holds one card after a correct answer, so three is not guaranteed |
| EndlessSession.AdvanceQueueDrawsFromDeck | src/app/components/study/EndlessInterface.tsx:106-129 | a queue of deck cards stays a queue of deck cards |
| EndlessSession.BlankIffAllSpace | src/app/components/study/EndlessInterface.tsx:133 | trimming leaves nothing exactly when every character is whitespace |
| EndlessSession.AnswerQuality | src/app/components/study/EndlessInterface.tsx:135-139 | the grade is in 0..5; it is 5 exactly when the fuzzy score reaches 0.95 and at least 4 exactly when it reaches 0.80 |
| EndlessSession.ApplyGrade | src/app/components/study/EndlessInterface.tsx:138-152 | a grade of 4 or more adds 10 points if perfect, otherwise 5, and one correct answer; a lower grade takes off 3 points, floored at 0, and adds one incorrect answer; cards seen rise by one either way |
| EndlessSession.HandleSubmit | src/app/components/study/EndlessInterface.tsx:131-152 | a blank answer changes nothing; any other answer adds one card seen and, by its fuzzy score against the card's back, adds 10 points and a correct answer from 0.95, 5 points and a correct answer from 0.80, and otherwise takes 3 points off, never below 0, and adds an incorrect answer |
| EndlessSession.ExactAnswerScoresTen | src/app/components/study/EndlessInterface.tsx:135-146 | an answer equal to the card's back once normalised is perfect and earns 10 points |
| EndlessSession.SubmitAllKeepsInv | src/app/components/study/EndlessInterface.tsx:141-152 | any sequence of submissions keeps the score non-negative and the correct and incorrect counts summing to the cards seen |
| EndlessSession.FreshSessionInv | src/app/components/study/EndlessInterface.tsx:59-152 | from a fresh session, the score is never negative and correct + incorrect == cards seen |
| EndlessSession.CardById | src/app/components/study/EndlessInterface.tsx:25-27 | the lookup succeeds exactly when some card has the id, and returns a deck card with that id |
| EndlessSession.CardByIdIsLast | src/app/components/study/EndlessInterface.tsx:25 | with duplicate ids the lookup returns the last card carrying the id, since later map entries replace earlier ones |
| EndlessSession.RestoreQueue | src/app/components/study/EndlessInterface.tsx:26-28 | the restored queue's ids are exactly the saved ids that name a deck card, in saved order, and every restored card comes from the deck |
| EndlessSession.GetSavedSession | src/app/components/study/EndlessInterface.tsx:19-46 | a session is restored exactly when some saved id names a deck card; its queue is those cards in saved order, all from the deck, and its current card is the first |
| EndlessSession.InitialQueue | src/app/components/study/EndlessInterface.tsx:48-52 | the session starts from the restored queue or, when nothing is restored, from the whole deck; all its cards come from the deck |
| EndlessSession.RestoreDropsMissing | src/app/components/study/EndlessInterface.tsx:26-28 | a saved id that names no deck card is dropped wherever it stands in the saved queue, and the other ids restore exactly as without it |

## Left out

- The timezone block of `calculateSM2` (src/utils/cognitive/sm2.ts:73-105) is left out. It uses `Intl.DateTimeFormat`, the wall clock and ISO parsing; the next review is today plus the interval, in day numbers.
- The `toFixed(3)` rounding of the returned ease is left out because it is float-to-decimal formatting. The ease is exact; rounding 1.3 or more to three decimals stays at least 1.3.
- Sm2.CalculateSm2: requires repetitions >= 0. The source never receives negative counts, and a negative count would index the step table out of range.
- XpUtils.GetLevelFromXp: takes totalXp >= 0 and computes the level exactly. The source's floating-point `Math.sqrt` is related to it by XpUtils.LevelMatchesSquareRootFormula, which assumes an exact square root. Negative totals, for which the source gives level 0 or NaN, are not modelled.
- Sm2.CalculateSm2 and XpUtils.XpForReview: grades are integers. The review route (src/app/api/decks/[deckId]/cards/review/route.ts:21) only checks that the grade is a number, so fractional grades and NaN also reach `calculateSM2` and `calculateXpForReview`; those are not modelled.
- XpUtils.XpForReviewMonotone: holds on the 0–5 grade scale only. Above 5 the XP drops back to 10 (xpUtils.ts:7-11).
- Sm2.EaseDeltaMonotone: holds up to grade 7 only. The ease delta keeps rising past the scale to 0.18 at grade 7 and falls after that (`Sm2.EaseDeltaAboveScale`).
- `toLowerCase` is modelled on ASCII letters only. Non-ASCII letters are removed by the punctuation filter, because `\w` is ASCII, unless lower-casing maps them into ASCII (U+0130 becomes 'i' plus a combining dot, U+212A becomes 'k'). Those two characters are not modelled.
- FuzzyMatch.LevenshteinDistance: counts characters, where the source's `.length` and `charAt` count UTF-16 code units, so a character outside the Basic Multilingual Plane counts twice there and once here. This never matters on normalised text, which holds only ASCII word characters and spaces.
- `Math.random()` is not modelled as a distribution. Each draw is an input in [0, 1), and nothing is claimed about uniformity.
- The shuffle draws are passed as one sequence, converted to swap partners before the loop. The method draws in the same order as the source loop.
- The study page's preparation of the endless deck (src/app/[deckId]/study/page.tsx:92-113) is left out: it groups cards by `Math.round(ease * 10)`, sorts the bands from lowest ease up and shuffles each band, all outside the session logic. The model takes the deck it produces as the input `cards`.
- React state, effects, timers, `fetch` calls, sessionStorage, JSON parsing and the rendered screens are left out. Saved data is a value passed to `Resume`, `GetSavedSession` and `InitialQueue`.
- The elapsed-seconds timer of endless mode is left out. Its restored value is carried, but the ticking is an interval timer.
- The XP returned by the review API and shown in the session is left out, because it comes from a network call.
- `ClassicModeMachine.Step` does not model xstate's handling of malformed events; events are the four kinds the machine declares.
