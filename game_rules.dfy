/** GameRules: the invariant a game keeps between its ten frames and its roll
 *  chain, stated on values, and the step that places one more roll.
 *
 *  A layout lists, for each frame in order, the stretch of the chain it owns
 *  and whether it is the tenth frame; `cur` is the game's current frame.
 */
module GameRules {
  import opened Rolls
  import FrameRules
  import Frames

  /** Number of frames in a game (`BowlingGame.NUMBER_OF_FRAMES`). */
  const NUMBER_OF_FRAMES: nat := 10

  /** The fields of one frame: its first and last roll and its tenth-frame flag. */
  datatype FrameSpan = FrameSpan(first: Option<nat>, last: Option<nat>, isLast: bool)

  predicate SpanOn(span: FrameSpan, chain: seq<int>) {
    IsSpan(span.first, span.last, |chain|)
  }

  /** The pins of the frame's own rolls. */
  function SpanRolls(span: FrameSpan, chain: seq<int>): seq<int>
    requires SpanOn(span, chain)
  {
    Slice(chain, span.first, span.last)
  }

  /** The frame after the roll at position `roll` is appended to it. */
  function Extend(span: FrameSpan, roll: nat): (extended: FrameSpan)
    ensures extended.last == Some(roll) && extended.isLast == span.isLast
    ensures extended.first == if span.first.None? then Some(roll) else span.first
  {
    FrameSpan(if span.first.None? then Some(roll) else span.first, Some(roll), span.isLast)
  }

  /** Ten frames, each on the chain, only the tenth flagged last. */
  predicate WellFormed(layout: seq<FrameSpan>, chain: seq<int>) {
    |layout| == NUMBER_OF_FRAMES &&
    forall i :: 0 <= i < NUMBER_OF_FRAMES ==>
      SpanOn(layout[i], chain) && (layout[i].isLast <==> i == NUMBER_OF_FRAMES - 1)
  }

  /** Frames before `cur` are complete, frames after it are empty, and the
   *  rolls of each frame up to `cur` could have been placed by the game. */
  predicate FramesInOrder(layout: seq<FrameSpan>, chain: seq<int>, cur: nat)
    requires WellFormed(layout, chain) && cur < NUMBER_OF_FRAMES
  {
    (forall i :: 0 <= i < cur ==>
       FrameRules.HasAllRolls(SpanRolls(layout[i], chain), layout[i].isLast)) &&
    (forall i :: 0 <= i <= cur ==>
       FrameRules.Legal(SpanRolls(layout[i], chain), layout[i].isLast)) &&
    (forall i :: cur < i < NUMBER_OF_FRAMES ==> layout[i].first.None?)
  }

  /** Frames 0..cur split the chain into consecutive stretches: frame 0 starts
   *  at the first roll, each frame starts right after the previous one ends,
   *  and frame `cur` ends at the last roll. An empty chain leaves the game on
   *  an empty first frame. */
  predicate Chained(layout: seq<FrameSpan>, chain: seq<int>, cur: nat)
    requires WellFormed(layout, chain) && cur < NUMBER_OF_FRAMES
  {
    if chain == [] then
      cur == 0 && layout[0].first.None?
    else
      (forall i :: 0 <= i <= cur ==> layout[i].first.Some?) &&
      layout[0].first == Some(0) &&
      (forall i :: 0 < i <= cur ==> layout[i].first.value == layout[i - 1].last.value + 1) &&
      layout[cur].last == Some(|chain| - 1)
  }

  /** A game as values: the frames' fields, the roll chain and the index of
   *  the current frame. */
  datatype GameState = GameState(layout: seq<FrameSpan>, chain: seq<int>, cur: nat)

  /** The game invariant. */
  predicate Consistent(g: GameState) {
    WellFormed(g.layout, g.chain) && g.cur < NUMBER_OF_FRAMES && ValidChain(g.chain) &&
    FramesInOrder(g.layout, g.chain, g.cur) && Chained(g.layout, g.chain, g.cur)
  }

  /** `init`: ten empty frames, only the tenth flagged last, no rolls, and
   *  the cursor on the first frame. */
  function NewGame(): (g: GameState)
    ensures Consistent(g) && g.chain == [] && g.cur == 0
    ensures forall i :: 0 <= i < NUMBER_OF_FRAMES ==>
              g.layout[i].first.None? && (g.layout[i].isLast <==> i == NUMBER_OF_FRAMES - 1)
  {
    GameState(seq(NUMBER_OF_FRAMES, i => FrameSpan(None, None, i == NUMBER_OF_FRAMES - 1)), [], 0)
  }

  /** `isFinished`: the tenth frame has all its rolls. */
  predicate Finished(g: GameState)
    requires WellFormed(g.layout, g.chain)
  {
    FrameRules.HasAllRolls(SpanRolls(g.layout[NUMBER_OF_FRAMES - 1], g.chain), true)
  }

  /** The frame a roll goes in: the current frame while it is open, else the
   *  next one, and none once the tenth frame is complete. */
  function NextFrame(g: GameState): (next: Option<nat>)
    requires Consistent(g)
    ensures next.None? <==> Finished(g)
    ensures next.Some? ==>
              next.value < NUMBER_OF_FRAMES &&
              !FrameRules.HasAllRolls(SpanRolls(g.layout[next.value], g.chain), g.layout[next.value].isLast) &&
              FrameRules.Legal(SpanRolls(g.layout[next.value], g.chain), g.layout[next.value].isLast)
    ensures next.Some? ==>
              next.value == if FrameRules.HasAllRolls(SpanRolls(g.layout[g.cur], g.chain), g.layout[g.cur].isLast)
                            then g.cur + 1 else g.cur
  {
    var layout, chain, cur := g.layout, g.chain, g.cur;
    if FrameRules.HasAllRolls(SpanRolls(layout[cur], chain), layout[cur].isLast) then
      if !layout[cur].isLast then
        assert SpanRolls(layout[cur + 1], chain) == [];
        Some(cur + 1)
      else None
    else
      Some(cur)
  }

  /** The frame a roll goes in is the current frame or the empty one after
   *  it, and its last roll, if any, is the last roll of the chain. */
  lemma NextFrameEndsChain(g: GameState, k: nat)
    requires Consistent(g) && NextFrame(g) == Some(k)
    ensures k == g.cur || (k == g.cur + 1 && g.layout[k].first.None?)
    ensures SpanOn(g.layout[k], g.chain)
    ensures g.layout[k].last.Some? ==> g.layout[k].last.value + 1 == |g.chain|
  {
  }

  /** The pins standing in the frame the next roll goes in: at least one, at
   *  most a full rack. */
  function PinsStanding(g: GameState): (pins: int)
    requires Consistent(g) && !Finished(g)
    ensures 0 < pins <= ALL_PINS
  {
    var k := NextFrame(g).value;
    FrameRules.PinsUpWhileOpen(SpanRolls(g.layout[k], g.chain), g.layout[k].isLast);
    FrameRules.PinsUp(SpanRolls(g.layout[k], g.chain), g.layout[k].isLast)
  }

  /** Lengthening the chain leaves every stretch on it and its rolls as they were. */
  lemma SpanOnLongerChain(span: FrameSpan, chain: seq<int>, roll: int)
    requires SpanOn(span, chain)
    ensures SpanOn(span, chain + [roll])
    ensures SpanRolls(span, chain + [roll]) == SpanRolls(span, chain)
  {
  }

  /** Appending the new last roll to the frame it goes in adds it to the
   *  frame's rolls. */
  lemma ExtendRolls(layout: seq<FrameSpan>, chain: seq<int>, cur: nat, k: nat, roll: int)
    requires Consistent(GameState(layout, chain, cur))
    requires k == cur || (k == cur + 1 < NUMBER_OF_FRAMES && layout[k].first.None?)
    ensures SpanOn(Extend(layout[k], |chain|), chain + [roll])
    ensures SpanRolls(Extend(layout[k], |chain|), chain + [roll]) == SpanRolls(layout[k], chain) + [roll]
  {
    if layout[k].first.Some? {
      assert chain != [] && k == cur;
    }
  }

  /** The frames other than the one a roll goes in keep their rolls on the
   *  longer chain. */
  lemma OtherFramesKeepRolls(layout: seq<FrameSpan>, chain: seq<int>, k: nat, roll: int)
    requires WellFormed(layout, chain) && k < NUMBER_OF_FRAMES
    requires SpanOn(Extend(layout[k], |chain|), chain + [roll])
    ensures var after := layout[k := Extend(layout[k], |chain|)];
            WellFormed(after, chain + [roll]) &&
            forall i :: 0 <= i < NUMBER_OF_FRAMES && i != k ==>
              SpanRolls(after[i], chain + [roll]) == SpanRolls(layout[i], chain)
  {
    forall i | 0 <= i < NUMBER_OF_FRAMES && i != k
      ensures SpanOn(layout[i], chain + [roll])
      ensures SpanRolls(layout[i], chain + [roll]) == SpanRolls(layout[i], chain)
    {
      SpanOnLongerChain(layout[i], chain, roll);
    }
  }

  /** After the roll, frames before k are still complete, k's rolls are still
   *  legal, and frames after k are still empty. */
  lemma InOrderAfterRoll(layout: seq<FrameSpan>, after: seq<FrameSpan>, chain: seq<int>,
                         longer: seq<int>, cur: nat, k: nat)
    requires Consistent(GameState(layout, chain, cur)) && WellFormed(after, longer)
    requires k == cur || (k == cur + 1 < NUMBER_OF_FRAMES &&
                          FrameRules.HasAllRolls(SpanRolls(layout[cur], chain), layout[cur].isLast))
    requires forall i :: 0 <= i < NUMBER_OF_FRAMES && i != k ==>
               after[i] == layout[i] && SpanRolls(after[i], longer) == SpanRolls(layout[i], chain)
    requires FrameRules.Legal(SpanRolls(after[k], longer), after[k].isLast)
    ensures FramesInOrder(after, longer, k)
  {
    forall i | 0 <= i < k
      ensures FrameRules.HasAllRolls(SpanRolls(after[i], longer), after[i].isLast)
    {
      assert SpanRolls(after[i], longer) == SpanRolls(layout[i], chain);
    }
    forall i | 0 <= i < k
      ensures FrameRules.Legal(SpanRolls(after[i], longer), after[i].isLast)
    {
      assert SpanRolls(after[i], longer) == SpanRolls(layout[i], chain);
    }
  }

  /** After the roll, frames 0..k still split the longer chain. */
  lemma ChainedAfterRoll(layout: seq<FrameSpan>, chain: seq<int>, cur: nat, k: nat, roll: int)
    requires Consistent(GameState(layout, chain, cur))
    requires k == cur || (k == cur + 1 < NUMBER_OF_FRAMES && layout[k].first.None? && chain != [])
    requires WellFormed(layout[k := Extend(layout[k], |chain|)], chain + [roll])
    ensures Chained(layout[k := Extend(layout[k], |chain|)], chain + [roll], k)
  {
  }

  /** The game after the roll `roll` goes in frame k. */
  function Placed(g: GameState, k: nat, roll: int): GameState
    requires k < |g.layout|
  {
    GameState(g.layout[k := Extend(g.layout[k], |g.chain|)], g.chain + [roll], k)
  }

  /** Placing a roll that the frame it goes in can take keeps the game
   *  invariant; the game's current frame becomes that frame, which gains the
   *  roll while every other frame keeps its rolls. */
  lemma RollKeepsConsistent(g: GameState, k: nat, roll: int)
    requires Consistent(g) && IsPins(roll)
    requires NextFrame(g) == Some(k)
    requires roll <= FrameRules.PinsUp(SpanRolls(g.layout[k], g.chain), g.layout[k].isLast)
    ensures Consistent(Placed(g, k, roll))
    ensures forall i :: 0 <= i < NUMBER_OF_FRAMES ==>
              SpanRolls(Placed(g, k, roll).layout[i], g.chain + [roll]) ==
                if i == k then SpanRolls(g.layout[i], g.chain) + [roll] else SpanRolls(g.layout[i], g.chain)
  {
    var layout, chain, cur := g.layout, g.chain, g.cur;
    var after := layout[k := Extend(layout[k], |chain|)];
    var longer := chain + [roll];
    var own := SpanRolls(layout[k], chain);
    assert Placed(g, k, roll) == GameState(after, longer, k);
    ExtendRolls(layout, chain, cur, k, roll);
    OtherFramesKeepRolls(layout, chain, k, roll);
    assert FrameRules.Legal(SpanRolls(after[k], longer), after[k].isLast) by {
      FrameRules.LegalAppend(own, layout[k].isLast, roll);
    }
    assert FramesInOrder(after, longer, k) by {
      InOrderAfterRoll(layout, after, chain, longer, cur, k);
    }
    assert Chained(after, longer, k) by {
      ChainedAfterRoll(layout, chain, cur, k, roll);
    }
    assert ValidChain(longer) by {
      ValidChainAppend(chain, roll);
    }
  }

  /** `addRoll` on values: refuse the roll once the game is finished, or when
   *  it fells more pins than stand in the frame it would go in; otherwise the
   *  roll joins the chain and that frame, which becomes the current one. */
  function AddRollTo(g: GameState, roll: int): (r: Result<GameState>)
    requires Consistent(g) && IsPins(roll)
    ensures Finished(g) ==> r == Err(GameFinished)
    ensures !Finished(g) ==> (r.Ok? <==> roll <= PinsStanding(g))
    ensures !Finished(g) && r.Err? ==> r.error == InvalidRoll
    ensures r.Ok? ==> Consistent(r.value)
    ensures r.Ok? ==> r.value.chain == g.chain + [roll] && NextFrame(g) == Some(r.value.cur)
  {
    match NextFrame(g)
    case None => Err(GameFinished)
    case Some(k) =>
      if roll > FrameRules.PinsUp(SpanRolls(g.layout[k], g.chain), g.layout[k].isLast) then
        Err(InvalidRoll)
      else
        RollKeepsConsistent(g, k, roll);
        Ok(Placed(g, k, roll))
  }

  /** An accepted roll joins the rolls of the frame that becomes current, and
   *  every other frame keeps its rolls. */
  lemma RollJoinsFrame(g: GameState, roll: int)
    requires Consistent(g) && IsPins(roll) && AddRollTo(g, roll).Ok?
    ensures var next := AddRollTo(g, roll).value;
            forall i :: 0 <= i < NUMBER_OF_FRAMES ==>
              SpanRolls(next.layout[i], next.chain) ==
                if i == next.cur then SpanRolls(g.layout[i], g.chain) + [roll]
                else SpanRolls(g.layout[i], g.chain)
  {
    var k := NextFrame(g).value;
    RollKeepsConsistent(g, k, roll);
  }

  /** The score of frame i. */
  function FrameScore(g: GameState, i: nat): int
    requires WellFormed(g.layout, g.chain) && i < NUMBER_OF_FRAMES
  {
    Frames.ScoreOn(g.chain, g.layout[i].first, g.layout[i].last)
  }

  /** The scores of frames 0..n-1 added up. */
  function ScoreThrough(g: GameState, n: nat): int
    requires WellFormed(g.layout, g.chain) && n <= NUMBER_OF_FRAMES
  {
    if n == 0 then 0 else ScoreThrough(g, n - 1) + FrameScore(g, n - 1)
  }

  /** `totalScore`: the frames from the first through the current one. */
  function TotalScore(g: GameState): int
    requires Consistent(g)
  {
    ScoreThrough(g, g.cur + 1)
  }

  /** A new game scores nothing. */
  lemma NewGameScoresZero()
    ensures TotalScore(NewGame()) == 0
  {
    var g := NewGame();
    assert ScoreThrough(g, 1) == FrameScore(g, 0) + ScoreThrough(g, 0);
  }

  /** Every frame up to the cursor scores at most three full racks. */
  lemma {:induction false} ScoreThroughBounded(g: GameState, n: nat)
    requires Consistent(g) && n <= g.cur + 1
    ensures 0 <= ScoreThrough(g, n) <= n * 3 * ALL_PINS
  {
    if n > 0 {
      ScoreThroughBounded(g, n - 1);
      Frames.ScoreBounded(g.chain, g.layout[n - 1].first, g.layout[n - 1].last, g.layout[n - 1].isLast);
    }
  }

  /** A game never scores below 0 or above 300. */
  lemma TotalScoreBounded(g: GameState)
    requires Consistent(g)
    ensures 0 <= TotalScore(g) <= NUMBER_OF_FRAMES * 3 * ALL_PINS
  {
    ScoreThroughBounded(g, g.cur + 1);
  }

  /** Numbers each at most 30 add up to at most 30 apiece, and reach that
   *  only when every one of them is 30. */
  lemma {:induction false} SumOfCapped(s: seq<int>)
    requires forall k :: 0 <= k < |s| ==> s[k] <= 30
    ensures Rolls.Sum(s) <= 30 * |s|
    ensures Rolls.Sum(s) == 30 * |s| ==> forall k :: 0 <= k < |s| ==> s[k] == 30
  {
    if s != [] {
      SumOfCapped(s[..|s| - 1]);
    }
  }

  /** `ScoreThrough` is the sum of the listed frame scores. */
  lemma {:induction false} ScoreThroughIsSum(g: GameState, scores: seq<int>)
    requires WellFormed(g.layout, g.chain) && |scores| <= NUMBER_OF_FRAMES
    requires forall i :: 0 <= i < |scores| ==> scores[i] == FrameScore(g, i)
    ensures ScoreThrough(g, |scores|) == Rolls.Sum(scores)
  {
    if scores != [] {
      ScoreThroughIsSum(g, scores[..|scores| - 1]);
    }
  }

  /** When each of the first n frames scores at most three full racks (30),
   *  they reach 30n together only when each of them scores 30. */
  lemma {:induction false} ScoreThroughAtMost(g: GameState, n: nat)
    requires WellFormed(g.layout, g.chain) && n <= NUMBER_OF_FRAMES
    requires forall i :: 0 <= i < n ==> FrameScore(g, i) <= 3 * ALL_PINS
    ensures ScoreThrough(g, n) <= 30 * n
    ensures ScoreThrough(g, n) == 30 * n ==> forall i :: 0 <= i < n ==> FrameScore(g, i) == 3 * ALL_PINS
  {
    var scores := seq(n, i requires 0 <= i < n => FrameScore(g, i));
    ScoreThroughIsSum(g, scores);
    SumOfCapped(scores);
  }

  /** Frame i scores three full racks: its first roll and the two after it
   *  are strikes. */
  lemma FrameOfThirty(g: GameState, i: nat)
    requires Consistent(g) && i <= g.cur && FrameScore(g, i) == 3 * ALL_PINS
    ensures g.layout[i].first.Some? && g.layout[i].first.value + 3 <= |g.chain|
    ensures g.chain[g.layout[i].first.value] == ALL_PINS
    ensures g.chain[g.layout[i].first.value + 1] == ALL_PINS
    ensures g.chain[g.layout[i].first.value + 2] == ALL_PINS
  {
    Frames.ScoreOfThirty(g.chain, g.layout[i].first, g.layout[i].last, g.layout[i].isLast);
  }

  /** A frame before the tenth that scores 30 is a lone strike, so the next
   *  frame starts on the roll after it. */
  lemma StrikeFrameStep(g: GameState, i: nat)
    requires Consistent(g) && 0 < i <= g.cur
    requires FrameScore(g, i - 1) == 3 * ALL_PINS
    ensures g.layout[i].first.value == g.layout[i - 1].first.value + 1
  {
    FrameOfThirty(g, i - 1);
    var rolls := SpanRolls(g.layout[i - 1], g.chain);
    assert rolls[0] == ALL_PINS;
    FrameRules.LegalFrameIsShort(rolls, false);
  }

  /** When frames 0..n-1 are ordinary strike frames, frame n starts at roll n. */
  lemma {:induction false} StrikeFramesStart(g: GameState, n: nat)
    requires Consistent(g) && n <= g.cur && n < NUMBER_OF_FRAMES
    requires forall i :: 0 <= i <= n ==> FrameScore(g, i) == 3 * ALL_PINS
    ensures g.layout[n].first == Some(n)
  {
    FrameOfThirty(g, n);
    if n > 0 {
      StrikeFramesStart(g, n - 1);
      StrikeFrameStep(g, n);
    }
  }

  /** A game totals 300 only on its tenth frame with every frame scoring 30. */
  lemma PerfectScoreFramesAllThirty(g: GameState)
    requires Consistent(g) && TotalScore(g) == 300
    ensures g.cur == NUMBER_OF_FRAMES - 1
    ensures forall i :: 0 <= i < NUMBER_OF_FRAMES ==> FrameScore(g, i) == 3 * ALL_PINS
  {
    forall i | 0 <= i <= g.cur
      ensures FrameScore(g, i) <= 3 * ALL_PINS
    {
      Frames.ScoreBounded(g.chain, g.layout[i].first, g.layout[i].last, g.layout[i].isLast);
    }
    ScoreThroughAtMost(g, g.cur + 1);
  }

  /** Ten frames of 30 are twelve strikes: frames one to nine each hold a
   *  single strike, and the tenth holds three. */
  lemma AllThirtyIsTwelveStrikes(g: GameState)
    requires Consistent(g) && g.cur == NUMBER_OF_FRAMES - 1
    requires forall i :: 0 <= i < NUMBER_OF_FRAMES ==> FrameScore(g, i) == 3 * ALL_PINS
    ensures |g.chain| == 12 && forall k :: 0 <= k < |g.chain| ==> g.chain[k] == ALL_PINS
  {
    StrikeFramesStart(g, NUMBER_OF_FRAMES - 1);
    FrameOfThirty(g, NUMBER_OF_FRAMES - 1);
    FrameRules.LegalFrameIsShort(SpanRolls(g.layout[NUMBER_OF_FRAMES - 1], g.chain), true);
    assert |g.chain| == 12;
    forall k | 0 <= k < NUMBER_OF_FRAMES - 1
      ensures g.chain[k] == ALL_PINS
    {
      StrikeFramesStart(g, k);
      FrameOfThirty(g, k);
    }
  }

  /** A game totals 300 only after exactly twelve strikes. */
  lemma PerfectScoreIsTwelveStrikes(g: GameState)
    requires Consistent(g) && TotalScore(g) == 300
    ensures g.cur == NUMBER_OF_FRAMES - 1
    ensures |g.chain| == 12 && forall k :: 0 <= k < |g.chain| ==> g.chain[k] == ALL_PINS
  {
    PerfectScoreFramesAllThirty(g);
    AllThirtyIsTwelveStrikes(g);
  }

  /** `MAX_ROLLS`: the most rolls any game can take. */
  const MAX_ROLLS: nat := 21

  /** `MIN_ROLLS`: the fewest rolls a complete game can take. */
  const MIN_ROLLS: nat := 11

  /** Frame i up to the cursor holds rolls; it starts no earlier than roll i
   *  and ends by roll 2i + 1 (2i + 2 in the tenth frame), since every frame
   *  before it took one or two rolls. */
  lemma {:induction false} FrameEnds(g: GameState, i: nat)
    requires Consistent(g) && g.chain != [] && i <= g.cur
    ensures g.layout[i].first.Some? && i <= g.layout[i].first.value
    ensures g.layout[i].last.value < 2 * (i + 1) + (if i == NUMBER_OF_FRAMES - 1 then 1 else 0)
  {
    FrameRules.LegalFrameIsShort(SpanRolls(g.layout[i], g.chain), g.layout[i].isLast);
    if i > 0 {
      FrameEnds(g, i - 1);
    }
  }

  /** No game holds more than `MAX_ROLLS` rolls, a finished one holds at least
   *  `MIN_ROLLS`, and an unfinished one fewer than `MAX_ROLLS`: so a game is
   *  always finished after `MAX_ROLLS` accepted rolls, and never after
   *  `MIN_ROLLS - 1`. */
  lemma RollsBound(g: GameState)
    requires Consistent(g)
    ensures |g.chain| <= MAX_ROLLS
    ensures Finished(g) ==> MIN_ROLLS <= |g.chain|
    ensures !Finished(g) ==> |g.chain| < MAX_ROLLS
  {
    var tenth := SpanRolls(g.layout[NUMBER_OF_FRAMES - 1], g.chain);
    if g.chain == [] || g.cur < NUMBER_OF_FRAMES - 1 {
      assert tenth == [];
      if g.chain != [] {
        FrameEnds(g, g.cur);
      }
    } else {
      FrameEnds(g, NUMBER_OF_FRAMES - 2);
      FrameEnds(g, NUMBER_OF_FRAMES - 1);
      FrameRules.LegalIffTenPinFrame(tenth, true);
    }
  }

  /** The rolls made one by one: the game reached, or the first refusal. */
  function Play(g: GameState, rolls: seq<int>): (r: Result<GameState>)
    requires Consistent(g) && forall k :: 0 <= k < |rolls| ==> IsPins(rolls[k])
    ensures r.Ok? ==> Consistent(r.value)
    decreases |rolls|
  {
    if rolls == [] then Ok(g)
    else
      var step := AddRollTo(g, rolls[0]);
      if step.Err? then step else Play(step.value, rolls[1..])
  }
}
