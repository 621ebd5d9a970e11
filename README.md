# Ten-pin bowling scorer, modelled in Dafny

This project models the engine of a ten-pin bowling scorer: rolls, the
iterator over a stretch of rolls, frames, and the game that places rolls into
its ten frames and adds up the score. The properties of that engine are proved
about the model.

The Java engine links all the rolls of a game into one chain through
`Roll.nextRoll`. A frame only remembers its first and last roll, and reads
later rolls through the chain when a strike or spare needs bonus pins. In this
model:

- the chain is the sequence of pin counts in the order the rolls were made;
- a roll reference is a position in that sequence, with `None` for `null`;
- the `nextRoll` of position i is position i + 1 whenever that roll exists.

The model is organised as follows:

- `Rolls` (rolls.dfy) holds roll construction, the chain and the walks along
  it: `pinsFromRollSequence`, `hasSequenceSize` and `getRangeOfRolls`.
- `RollIterators.RollIterator` (roll_iterator.dfy) is a class with the
  iterator's cursor.
- `FrameRules` (frame_rules.dfy) holds what a frame's own rolls say:
  - strike and spare;
  - the completion state machine of `hasAllRolls`;
  - the pins standing, including the re-rack in the tenth frame;
  - the possible next rolls.

  It also gives an independent, case-by-case statement of the ten-pin frame
  rules (`TenPinFrame`) and proves that it is equivalent to the engine's rules.
- `Frames.Frame` (frame.dfy) is a class with the fields `firstRoll`,
  `lastRoll` and `isLast`. Its loops (`rollCount`, `pinsUp` and `canRoll`) are
  proved against `FrameRules`. The scoring rule of `getScore` and
  `scoreIsComplete` is characterised by lemmas: open frame, strike, spare,
  bonus pending, and the 0..30 bound.
- `GameRules` (game_rules.dfy) is the game as a value: the frames' fields, the
  chain and the current frame index.
  - It states the invariant the game keeps: frames before the cursor are
    complete, frames after it are empty, and the frames split the chain into
    consecutive stretches.
  - It defines `addRoll` as a function on values, with its two refusals, and
    proves that the function keeps the invariant.
- `Games.BowlingGame` (game.dfy) is a class with a `frames` array, the
  `currentFrameIndex` and the roll chain. Each method is proved against
  `GameRules`. The file also holds `rollToString`.
- `ScoreSheets` (score_sheet.dfy) is a second definition of a game. It is
  just the lists of rolls per frame, written the way a score sheet is marked.
  It decides where a roll goes, and whether it is refused, by the ten-pin
  rules of `TenPinFrame` alone, without the engine's `hasAllRolls` or
  `pinsUp`. It is proved to agree with `addRoll` on every roll and on every
  list of rolls, so the agreement checks the engine's frame rules as well as
  its bookkeeping of the chain, the frames and the cursor.
- `Scenarios` (scenarios.dfy) holds whole games played from a new game:
  - a strike, a spare and an open frame scoring 41;
  - the perfect game scoring 300 and refusing any further roll;
  - a 6 followed by a 5 being refused;
  - the frame each roll goes in after 10, 3, 4.

Java's exceptions become `Err` results. `InvalidRollException` and
`GameFinishedException` become `InvalidRoll` and `GameFinished`; the
iterator's `NoSuchElementException` becomes `NoSuchElement`.
`BowlingGame.AddRoll` returns `Fail(error)` and changes nothing when Java would
throw.

Where the code differs from its own description:

- `Roll.java` checks pin counts against `BowlingGame.NUMBER_OF_PINS`, which
  `BowlingGame.java` does not declare. The model uses `ALL_PINS` (10), the only
  rack size the engine has.
- `Roll.pinsFromRollSequence`, `Roll.hasSequenceSize`, `Roll.getRangeOfRolls`
  and `Roll.samePins` are called by `Frame.java` and `RollTest.java` but are
  not defined in `Roll.java`. The model gives them the behaviour their callers
  and tests expect:
  - a sum over the first n rolls of the run, truncated where the chain ends;
  - "at least n rolls are reachable";
  - the counts 0..max;
  - equal pin counts.

## Model

| member | source | states |
|---|---|---|
| Rolls.NewRoll | src/rossadamson/bowling/Roll.java:11-30 | A pin count is accepted exactly when it lies in 0..10, and then it becomes the roll's pins. Any other count is refused with InvalidRoll. |
| Rolls.NextRoll | src/rossadamson/bowling/Roll.java:8 | The `nextRoll` link of roll i, when it exists, is roll i + 1 and lies on the chain. |
| Rolls.HasNext | src/rossadamson/bowling/Roll.java:44-46 | A roll has a next roll exactly when a later roll exists in the chain, so the most recently added roll has none. |
| Rolls.RunIsSuffix | test/rossadamson/bowling/RollTest.java:45-70 | Following `nextRoll` from roll i visits exactly the rolls from i to the end of the chain, in order. |
| Rolls.PinsFromRollSequence | test/rossadamson/bowling/RollTest.java:45-70 | A null start or n = 0 gives 0. Asking for at least as many rolls as exist gives the pins of all of them ("four rolls when only 3 exist"). |
| Rolls.PinsFromRollSequenceAt | test/rossadamson/bowling/RollTest.java:45-70 | When n rolls exist from position i, the total is the sum of those n pin counts, and it lies between 0 and n full racks. |
| Rolls.SumRollSequence | test/rossadamson/bowling/RollTest.java:45-70 | The counting walk along `nextRoll` returns exactly `PinsFromRollSequence`. |
| Rolls.SequenceSizeFrom | test/rossadamson/bowling/RollTest.java:72-91 | A null start never has a sequence of size 1 or more. From position i, a sequence of size n exists exactly when i + n does not exceed the number of rolls. |
| Rolls.RangeOfRolls | test/rossadamson/bowling/RollTest.java:93-102 | There are max + 1 rolls and the i-th has i pins, so p is among them exactly when 0 <= p <= max. |
| RollIterators.RollIterator.constructor | src/rossadamson/bowling/RollIterator.java:21-24 | The cursor starts on the start roll and the end roll is fixed. The walk holds end - start + 1 rolls, or none for a null end. |
| RollIterators.RollIterator.HasNext | src/rossadamson/bowling/RollIterator.java:27-29 | There is a next roll exactly when rolls are left before the end roll's `nextRoll`. |
| RollIterators.RollIterator.Next | src/rossadamson/bowling/RollIterator.java:32-42 | With nothing left it fails with NoSuchElement and leaves the cursor in place. Otherwise it returns the current roll, one fewer roll is left, and the cursor moves to the following roll, so rolls come out in insertion order. |
| FrameRules.IsSpare | src/rossadamson/bowling/Frame.java:84-88 | A spare frame is never a strike and has at least two rolls. |
| FrameRules.PossibleRolls | src/rossadamson/bowling/Frame.java:178-188 | p is a possible roll exactly when the frame does not have all its rolls and 0 <= p <= pinsUp. The list is empty for a complete frame, otherwise it holds pinsUp + 1 counts, in order 0, 1, 2, and so on. |
| FrameRules.LegalIffTenPinFrame | src/rossadamson/bowling/Frame.java:129-171 | The rolls that the completion state machine and pinsUp let into a frame are exactly the frames the ten-pin rules allow. An ordinary frame is a strike alone or at most two rolls totalling at most 10. The tenth frame earns a third roll by a strike or a spare and re-racks after a clear. |
| FrameRules.OrdinaryFrameLegalIffTenPin | src/rossadamson/bowling/Frame.java:140-146 | The same equivalence for frames 1 to 9, where the rack is never reset. |
| FrameRules.TenthFrameLegalIffTenPin | src/rossadamson/bowling/Frame.java:132-139 | The same equivalence for the tenth frame, with a re-rack after each clear. |
| FrameRules.LegalFrameIsShort | src/rossadamson/bowling/Frame.java:129-149 | A legal frame holds at most two rolls, three in the tenth frame. An ordinary strike frame holds the strike alone. |
| FrameRules.PinsUpWhileOpen | src/rossadamson/bowling/Frame.java:159-171 | While a legal frame still expects a roll, between 1 and 10 pins stand. |
| FrameRules.LegalAppend | src/rossadamson/bowling/Frame.java:178-207 | Appending a roll to a legal frame keeps it legal exactly when the roll is one of the frame's possible rolls. |
| FrameRules.CompleteIffNoLegalRoll | src/rossadamson/bowling/Frame.java:129-149 | A legal frame has all its rolls exactly when no further roll could be placed in it. |
| FrameRules.LegalRollsArePins | src/rossadamson/bowling/Roll.java:25-30 | Every roll of a legal frame fells 0 to 10 pins. |
| Frames.Frame.constructor | src/rossadamson/bowling/Frame.java:32-34 | A new frame has no rolls and is not the tenth. |
| Frames.Frame.Init | src/rossadamson/bowling/Frame.java:39-42 | `init` forgets both rolls and clears the tenth-frame flag. |
| Frames.Frame.AddRoll | src/rossadamson/bowling/Frame.java:49-56 | The added roll becomes the last roll, and also the first roll of an empty frame. The frame's own rolls gain exactly that roll at the end, and the flag is unchanged. |
| Frames.Frame.RollCount | src/rossadamson/bowling/Frame.java:61-71 | Counting with the iterator gives the number of the frame's own rolls. |
| Frames.Frame.PinsUp | src/rossadamson/bowling/Frame.java:159-171 | The iterator loop returns `FrameRules.PinsUp` of the frame's own rolls: a full rack minus each roll, re-racked in the tenth frame while it expects rolls. |
| Frames.Frame.CanRoll | src/rossadamson/bowling/Frame.java:194-207 | The search through the possible rolls finds `pins` exactly when it is possible, which is exactly when the frame is open and 0 <= pins <= pinsUp. |
| Frames.ScoreCompleteOn | src/rossadamson/bowling/Frame.java:114-124 | The score is complete exactly when the frame has a first roll and 3 rolls exist from it (strike or spare) or 2 rolls (otherwise). |
| Frames.ScoreOfOpenFrame | src/rossadamson/bowling/Frame.java:95-107 | A frame that is neither strike nor spare scores the sum of its own rolls, and an empty frame scores 0. |
| Frames.ScoreOfStrike | src/rossadamson/bowling/Frame.java:95-107 | Once its two bonus rolls exist, a strike scores 10 plus their pins. |
| Frames.ScoreOfSpare | src/rossadamson/bowling/Frame.java:95-107 | Once its bonus roll exists, a spare scores 10 plus that roll's pins. |
| Frames.ScoreWhileBonusPending | src/rossadamson/bowling/Frame.java:95-107 | Until its bonus rolls exist, a strike or spare scores every roll made from its first roll on. |
| Frames.ScoreBounded | src/rossadamson/bowling/Frame.java:95-107 | A legal frame over valid rolls scores between 0 and 30. |
| GameRules.NewGame | src/rossadamson/bowling/BowlingGame.java:57-63 | The new game keeps the invariant. It has no rolls and the cursor on frame 0. Every frame is empty, and only the tenth is flagged last. |
| GameRules.NewGameScoresZero | test/rossadamson/bowling/BowlingGameTest.java:19-23 | A new game's total score is 0. |
| GameRules.NextFrame | src/rossadamson/bowling/BowlingGame.java:90-102 | There is no frame exactly when the game is finished. Otherwise the frame is open and legal: the current frame while it is open, else the one after it. |
| GameRules.NextFrameEndsChain | src/rossadamson/bowling/BowlingGame.java:117-123 | The frame a roll goes in is the current frame, or the empty frame after it. Its last roll, if any, is the last roll of the chain, which is the roll `addRoll` links to the new one. |
| GameRules.PinsStanding | src/rossadamson/bowling/BowlingGame.java:113 | While the game is not finished, 1 to 10 pins stand in the frame the next roll goes in. |
| GameRules.RollKeepsConsistent | src/rossadamson/bowling/BowlingGame.java:110-125 | Placing a roll that fits the frame it goes in keeps the game invariant. That frame becomes current and gains the roll, and every other frame keeps its rolls. |
| GameRules.AddRollTo | src/rossadamson/bowling/BowlingGame.java:110-125 | A finished game refuses with GameFinished. Otherwise the roll is accepted exactly when it does not exceed the pins standing, and a refusal is InvalidRoll. An accepted roll keeps the invariant, extends the chain by the roll and makes the frame it went in current. |
| GameRules.RollJoinsFrame | src/rossadamson/bowling/BowlingGame.java:116-123 | After an accepted roll, the current frame's rolls are its old rolls plus the new roll, and every other frame is unchanged. |
| GameRules.ScoreThroughBounded | src/rossadamson/bowling/BowlingGame.java:69-77 | The first n frames up to the cursor score between 0 and 30n. |
| GameRules.TotalScoreBounded | src/rossadamson/bowling/BowlingGame.java:69-77 | A game's total score lies between 0 and 300. |
| GameRules.SumOfCapped | src/rossadamson/bowling/BowlingGame.java:69-77 | Frame scores of at most 30 each add up to at most 30 per frame, and reach that only when every one of them is 30. |
| GameRules.ScoreThroughIsSum | src/rossadamson/bowling/BowlingGame.java:69-77 | The running total of the first n frames equals the sum of their n frame scores. |
| GameRules.ScoreThroughAtMost | src/rossadamson/bowling/BowlingGame.java:69-77 | When each of the first n frames scores at most 30, they total at most 30n, and exactly 30n only when each of them scores 30. |
| GameRules.FrameOfThirty | src/rossadamson/bowling/Frame.java:95-107 | A frame of the game that scores 30 starts with a strike, and the two rolls after it are strikes. |
| GameRules.StrikeFrameStep | src/rossadamson/bowling/BowlingGame.java:116-123 | A frame before the tenth that scores 30 holds one strike, so the next frame starts on the following roll. |
| GameRules.StrikeFramesStart | src/rossadamson/bowling/BowlingGame.java:116-123 | When frames 0 to n all score 30, frame n starts at roll n: each earlier frame holds one strike. |
| GameRules.FrameEnds | src/rossadamson/bowling/BowlingGame.java:30-37 | Every frame up to the cursor holds rolls, starts no earlier than roll i, and ends by roll 2i+1 (2i+2 in the tenth frame). |
| GameRules.RollsBound | src/rossadamson/bowling/BowlingGame.java:30-37 | A game holds at most `MAX_ROLLS` (21) rolls, a finished game at least `MIN_ROLLS` (11), and an unfinished game fewer than 21. |
| GameRules.PerfectScoreFramesAllThirty | src/rossadamson/bowling/BowlingGame.java:69-77 | A game that totals 300 is on its tenth frame, and every one of its ten frames scores 30. |
| GameRules.AllThirtyIsTwelveStrikes | src/rossadamson/bowling/Frame.java:95-107 | When the game is on its tenth frame and all ten frames score 30, the chain holds exactly twelve rolls, all strikes. |
| GameRules.PerfectScoreIsTwelveStrikes | src/rossadamson/bowling/BowlingGame.java:69-77 | A game that totals 300 is on its tenth frame and has made exactly twelve rolls, all strikes. This is the converse of `Scenarios.PerfectGame`. |
| Frames.ScoreOfThirty | src/rossadamson/bowling/Frame.java:95-107 | A legal frame scores 30 only when its first roll and the two rolls after it all exist and are strikes. |
| GameRules.Play | src/rossadamson/bowling/BowlingGame.java:110-125 | Rolls added one by one keep the game invariant. |
| Games.BowlingGame.constructor | src/rossadamson/bowling/BowlingGame.java:46-52 | A game owns ten fresh, distinct frames and is a new game. |
| Games.BowlingGame.Init | src/rossadamson/bowling/BowlingGame.java:57-63 | `init` resets the frames and the cursor to a new game. |
| Games.BowlingGame.IsFinished | src/rossadamson/bowling/BowlingGame.java:82-84 | The game is finished exactly when the tenth frame has all its rolls. |
| Games.BowlingGame.NextRollFrame | src/rossadamson/bowling/BowlingGame.java:90-102 | The frame it picks is the frame `GameRules.NextFrame` gives for the game's state. |
| Games.BowlingGame.AddRoll | src/rossadamson/bowling/BowlingGame.java:110-125 | It keeps the game valid. It fails with `AddRollTo`'s refusal and changes nothing, or it passes and the game becomes `AddRollTo`'s new state. |
| Games.BowlingGame.AppendRoll | src/rossadamson/bowling/BowlingGame.java:116-123 | An accepted roll leaves a valid game in which frame k has gained the roll and become current. |
| Games.BowlingGame.LinkRoll | src/rossadamson/bowling/BowlingGame.java:116-123 | The cursor moves on by one exactly on a frame change. The chain gains the roll, and the current frame takes it as its last roll. |
| Games.BowlingGame.TotalScore | src/rossadamson/bowling/BowlingGame.java:69-77 | The loop over frames 0..currentFrameIndex returns `GameRules.TotalScore`. |
| Games.BowlingGame.PossibleRolls | src/rossadamson/bowling/BowlingGame.java:132-143 | A finished game has none. Otherwise p is possible exactly when 0 <= p <= the pins standing, and the list holds those counts once each, in order from 0. |
| Games.BowlingGame.CanRoll | src/rossadamson/bowling/BowlingGame.java:150-159 | It answers true exactly for the possible rolls. For a valid pin count it is true exactly when `addRoll` would accept it. |
| Games.BowlingGame.IterateRolls | src/rossadamson/bowling/BowlingGame.java:164-166 | A fresh iterator over the whole chain, starting at the first roll and holding every roll of the game. |
| Games.RollToString | src/rossadamson/bowling/BowlingGame.java:173-197 | "X" for a strike and "/" for a spare. For a normal roll: "" for no roll, "-" for 0 pins, otherwise decimal digits that read back as the pin count, with no leading zero (one digit below 10, two for 10). |
| Games.DecimalRoundTrip | src/rossadamson/bowling/BowlingGame.java:183 | The decimal digits of n read back as n. |
| ScoreSheets.Mark | src/rossadamson/bowling/BowlingGame.java:110-125 | Marking a roll refuses only with GameFinished or InvalidRoll. It keeps 1 to 10 frames on the sheet, opens at most one new frame, and leaves the frame it marked a ten-pin frame. |
| ScoreSheets.MarkByGameRules | src/rossadamson/bowling/BowlingGame.java:110-125 | On a sheet whose current frame the game could have produced, marking by the ten-pin rules gives what the engine's rules give: GameFinished after a complete tenth frame, the next frame after another complete frame, InvalidRoll above the pins standing, otherwise the current frame. |
| FrameRules.TenPinAppend | src/rossadamson/bowling/Frame.java:178-207 | A roll extends a legal frame into a ten-pin frame exactly when the frame is open and the roll is between 0 and the pins standing. |
| ScoreSheets.NextFrameOnSheet | src/rossadamson/bowling/BowlingGame.java:90-102 | The frame the next roll goes in, read off the sheet: the current frame while open, none after a complete tenth frame, else the next frame. |
| ScoreSheets.RollIntoCurrent | src/rossadamson/bowling/BowlingGame.java:123 | A roll that fits an open current frame is accepted, and the game then shows the sheet with that frame extended by the roll. |
| ScoreSheets.RollIntoNext | src/rossadamson/bowling/BowlingGame.java:117-123 | After a complete ordinary frame, any valid roll is accepted and opens the next frame with that roll alone. |
| ScoreSheets.MarkAfterTenth | src/rossadamson/bowling/BowlingGame.java:111-112 | After a complete tenth frame, both the game and the sheet refuse with GameFinished. |
| ScoreSheets.MarkTooMany | src/rossadamson/bowling/BowlingGame.java:113-114 | A roll above the pins standing is refused with InvalidRoll by both. |
| ScoreSheets.MarkMatches | src/rossadamson/bowling/BowlingGame.java:110-125 | `addRoll` on the game and marking the sheet agree on every roll: the same refusal, or a game that shows the marked sheet. |
| ScoreSheets.PlayMatches | src/rossadamson/bowling/BowlingGame.java:110-125 | Playing any list of rolls agrees with marking it: the same first refusal, or a game that has made every roll and shows the marked sheet. |
| Scenarios.StrikeSpareOpenScores41 | test/rossadamson/bowling/BowlingGameTest.java:25-36 | Rolls 10, 3, 7, 4, 3 from a new game are accepted and score 41. |
| Scenarios.PerfectGame | test/rossadamson/bowling/BowlingGameTest.java:38-54 | Twelve strikes are accepted. The game is then finished, refuses any further roll with GameFinished and scores 300. |
| Scenarios.TooManyPinsRefused | test/rossadamson/bowling/BowlingGameTest.java:70-89 | After a 6, a roll of 5 is refused with InvalidRoll. |
| Scenarios.NextRollFrameOfNewGame | test/rossadamson/bowling/BowlingGameTest.java:58 | The next roll of a new game goes in frame 0. |
| Scenarios.NextRollFrameAfterStrike | test/rossadamson/bowling/BowlingGameTest.java:60-61 | After a strike, the next roll goes in frame 1. |
| Scenarios.NextRollFrameAfterFirstBall | test/rossadamson/bowling/BowlingGameTest.java:63-64 | After a strike and a 3, the next roll stays in frame 1. |
| Scenarios.NextRollFrameAfterSecondBall | test/rossadamson/bowling/BowlingGameTest.java:66-67 | After a strike, a 3 and a 4, the next roll goes in frame 2. |
| Scenarios.RandomGameRollLimits | test/rossadamson/bowling/BowlingGameTest.java:92-112 | After 21 accepted rolls the game refuses a 0 with `GameFinished`; after fewer than 11 it accepts a 0. |

## Left out

- `BowlingGame.toString` (BowlingGame.java:202-291), the text box layout of the score card: only the per-roll marks of `rollToString` are modelled. The layout is string formatting with no rule of the game in it.
- `ScorerDemo`, `RandomBowlRollGenerator` and `TestUtils` are console I/O and random roll generation, so they are not modelled. The facts the random-game tests (BowlingGameTest.java:92-112) rely on are proved for every roll list: `GameRules.RollsBound` and `Scenarios.RandomGameRollLimits`. The random choice of rolls itself is not modelled.
- Object identity and aliasing of `Roll` objects: a roll is its position in the chain. Tests that rewire `nextRoll` by hand between unrelated rolls (FrameTest.java) cannot be expressed, and `Roll.init` re-initialising an existing roll object is modelled only as `NewRoll`.
- `RollIterator.remove` always throws `UnsupportedOperationException` and nothing calls it, so it is not modelled. `AllTests` is a JUnit suite list.
- `Roll.samePins` is plain equality of pin counts inside `Frames.Frame.CanRoll`.
- `Frame.hasAllRolls` (Frame.java:129-149) is the predicate `FrameRules.HasAllRolls`. Its contract is `FrameRules.CompleteIffNoLegalRoll`, which says a legal frame is complete exactly when no roll can join it, together with `FrameRules.LegalIffTenPinFrame`.
- `Roll.isStrike` and `Frame.isStrike` are the predicates `Rolls.IsStrike` and `FrameRules.IsStrike`; the frame's predicate asks the roll's. Their bodies are the whole statement, so they have no separate contract.
- `Frame.getScore` and `Frame.scoreIsComplete` are the functions `Frames.Frame.Score` and `Frames.Frame.ScoreIsComplete` over `Frames.ScoreOn` and `Frames.ScoreCompleteOn`. Their properties are the `Frames.ScoreOf…`, `Frames.ScoreWhileBonusPending` and `Frames.ScoreBounded` lemmas.
- `Frame.rollIterator` is the `RollIterators.RollIterator` constructor called inside `Frames.Frame.RollCount` and `Frames.Frame.PinsUp`.
- `FrameRules.PossibleRolls`: the frame and game rules count a frame's rolls as the length of its list of pins, not by walking the chain. `Frames.Frame.RollCount` proves that the two counts are equal.
- `FrameRules.PinsUpWhileOpen`: the bound is claimed only while the frame expects rolls. A complete tenth frame such as 10, 10, 5 makes `pinsUp` return a negative count, but the engine never asks for it then.
- `Roll.InvalidRollException`, the inner class at Roll.java:63-68, and the top-level `InvalidRollException` and `GameFinishedException` are the `Error` variants. The engine distinguishes no further.
- Java `int` overflow: pin counts and scores stay between 0 and 300, so unbounded integers behave like Java's here.
