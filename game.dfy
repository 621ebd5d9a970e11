/** BowlingGame: ten frames, a cursor on the frame that received the last
 *  roll, and the chain of all rolls the frames borrow from. */
module Games {
  import opened Rolls
  import opened RollIterators
  import opened Frames
  import opened GameRules
  import FrameRules

  class BowlingGame {
    const frames: array<Frame>
    /** The frame where the last roll was made, or 0 before the first roll. */
    var currentFrameIndex: nat
    /** The pins of every roll of the game, in the order they were made. */
    var chain: seq<int>

    /** The game owns ten distinct frames. */
    ghost predicate Owns()
      reads this, frames
    {
      frames.Length == NUMBER_OF_FRAMES &&
      forall i, j :: 0 <= i < j < NUMBER_OF_FRAMES ==> frames[i] != frames[j]
    }

    /** The fields of the ten frames, in order, as values. */
    ghost var layout: seq<FrameSpan>

    /** `layout` mirrors the fields of the frames. */
    ghost predicate Mirrors()
      reads this, frames, frames[..]
      requires Owns()
    {
      |layout| == NUMBER_OF_FRAMES &&
      forall i :: 0 <= i < NUMBER_OF_FRAMES ==>
        layout[i] == FrameSpan(frames[i].firstRoll, frames[i].lastRoll, frames[i].isLast)
    }

    /** The game as a value. */
    ghost function State(): GameState
      reads this
    {
      GameState(layout, chain, currentFrameIndex)
    }

    /** The game invariant of `GameRules.Consistent` holds of the frames. */
    ghost predicate Valid()
      reads this, frames, frames[..]
    {
      Owns() && Mirrors() && Consistent(State())
    }

    /** A new game: ten fresh frames, none of them holding a roll. */
    constructor ()
      ensures Valid() && fresh(frames)
      ensures forall i :: 0 <= i < NUMBER_OF_FRAMES ==> fresh(frames[i])
      ensures State() == NewGame()
    {
      var created: seq<Frame> := [];
      while |created| < NUMBER_OF_FRAMES
        invariant |created| <= NUMBER_OF_FRAMES
        invariant forall i, j :: 0 <= i < j < |created| ==> created[i] != created[j]
        invariant forall i :: 0 <= i < |created| ==> fresh(created[i])
      {
        var frame := new Frame();
        created := created + [frame];
      }
      frames := new Frame[NUMBER_OF_FRAMES](i requires 0 <= i < NUMBER_OF_FRAMES => created[i]);
      currentFrameIndex := 0;
      chain := [];
      new;
      Init();
    }

    /** `init`: empty every frame, flag only the tenth as last, and put the
     *  cursor on the first frame. */
    method Init()
      requires Owns()
      modifies this, frames[..]
      ensures Valid() && State() == NewGame()
    {
      for frameIndex := 0 to NUMBER_OF_FRAMES
        invariant forall i :: 0 <= i < frameIndex ==>
                    frames[i].firstRoll.None? && frames[i].lastRoll.None? && !frames[i].isLast
      {
        frames[frameIndex].Init();
      }
      frames[NUMBER_OF_FRAMES - 1].isLast := true;
      currentFrameIndex := 0;
      chain := [];
      layout := NewGame().layout;
    }

    /** `isFinished`: the tenth frame has all its rolls. */
    predicate IsFinished()
      reads this, frames, frames[..]
      requires Valid()
      ensures IsFinished() <==> Finished(State())
    {
      FrameRules.HasAllRolls(frames[NUMBER_OF_FRAMES - 1].OwnRolls(chain),
                             frames[NUMBER_OF_FRAMES - 1].isLast)
    }

    /** `nextRollFrame`: the current frame while it is open, else the one
     *  after it, and none once the tenth frame is complete. */
    function NextRollFrame(): (next: Option<nat>)
      reads this, frames, frames[..]
      requires Valid()
      ensures next == NextFrame(State())
    {
      var current := frames[currentFrameIndex];
      if FrameRules.HasAllRolls(current.OwnRolls(chain), current.isLast) then
        if !current.isLast then Some(currentFrameIndex + 1) else None
      else
        Some(currentFrameIndex)
    }

    /** `addRoll`: refuse a roll once the game is finished (GameFinished) or
     *  when it fells more pins than stand in the frame it would go in
     *  (InvalidRoll), changing nothing; otherwise move the cursor on if the
     *  current frame is complete, linking its last roll to the new one, and
     *  append the roll to the current frame. */
    method AddRoll(roll: int) returns (outcome: Outcome)
      requires Valid() && IsPins(roll)
      modifies this, frames[..]
      ensures Valid()
      ensures var r := AddRollTo(old(State()), roll);
              (r.Ok? ==> outcome == Pass && State() == r.value) &&
              (r.Err? ==> outcome == Fail(r.error) && unchanged(this))
    {
      if IsFinished() {
        return Fail(GameFinished);
      }
      var next := NextRollFrame();
      var pinsUp := frames[next.value].PinsUp(chain);
      if roll > pinsUp {
        return Fail(InvalidRoll);
      }
      var current := frames[currentFrameIndex];
      var frameChange := FrameRules.HasAllRolls(current.OwnRolls(chain), current.isLast);
      AppendRoll(roll, frameChange, next.value);
      outcome := Pass;
    }

    /** The tail of `addRoll` once the roll is accepted, from a game that
     *  places it in frame k. */
    method AppendRoll(roll: int, frameChange: bool, ghost k: nat)
      requires Valid() && IsPins(roll)
      requires NextFrame(State()) == Some(k)
      requires k == if frameChange then currentFrameIndex + 1 else currentFrameIndex
      requires roll <= FrameRules.PinsUp(SpanRolls(layout[k], chain), layout[k].isLast)
      modifies this, frames[..]
      ensures Valid() && State() == Placed(old(State()), k, roll)
    {
      RollKeepsConsistent(State(), k, roll);
      NextFrameEndsChain(State(), k);
      LinkRoll(roll, frameChange);
    }

    /** The steps of that tail: append the roll to the chain, move the cursor
     *  on when `frameChange` says the current frame is complete, and add the
     *  roll to the current frame. */
    method LinkRoll(roll: int, frameChange: bool)
      requires Owns() && Mirrors() && currentFrameIndex < NUMBER_OF_FRAMES
      requires frameChange ==> currentFrameIndex + 1 < NUMBER_OF_FRAMES
      requires var k := if frameChange then currentFrameIndex + 1 else currentFrameIndex;
               SpanOn(layout[k], chain) &&
               (layout[k].last.Some? ==> layout[k].last.value + 1 == |chain|)
      modifies this, frames[..]
      ensures Owns() && Mirrors()
      ensures currentFrameIndex == old(currentFrameIndex) + (if frameChange then 1 else 0)
      ensures State() == Placed(old(State()), currentFrameIndex, roll)
    {
      chain := chain + [roll];
      if frameChange {
        // the old last roll of the current frame now links to the new roll
        currentFrameIndex := currentFrameIndex + 1;
      }
      frames[currentFrameIndex].AddRoll(chain, |chain| - 1);
      layout := layout[currentFrameIndex := Extend(layout[currentFrameIndex], |chain| - 1)];
    }

    /** `totalScore`: add up the scores of the frames from the first through
     *  the current one. */
    method TotalScore() returns (score: int)
      requires Valid()
      ensures score == GameRules.TotalScore(State())
    {
      score := 0;
      var frameIndex := 0;
      while frameIndex <= currentFrameIndex
        invariant 0 <= frameIndex <= currentFrameIndex + 1
        invariant score == ScoreThrough(State(), frameIndex)
      {
        score := score + frames[frameIndex].Score(chain);
        frameIndex := frameIndex + 1;
      }
    }

    /** `possibleRolls`: nothing once the game is over, otherwise the possible
     *  rolls of the frame the next roll goes in — every count from 0 to the
     *  pins standing there. */
    function PossibleRolls(): (possible: seq<int>)
      reads this, frames, frames[..]
      requires Valid()
      ensures IsFinished() ==> possible == []
      ensures !IsFinished() ==> forall p :: p in possible <==> 0 <= p <= PinsStanding(State())
      ensures !IsFinished() ==> |possible| == PinsStanding(State()) + 1
      ensures forall i :: 0 <= i < |possible| ==> possible[i] == i
    {
      match NextRollFrame()
      case None => []
      case Some(k) => FrameRules.PossibleRolls(frames[k].OwnRolls(chain), frames[k].isLast)
    }

    /** `canRoll`: ask the frame the next roll goes in; false once the game is
     *  over. A roll passes exactly when `AddRoll` would accept it. */
    method CanRoll(pins: int) returns (result: bool)
      requires Valid()
      ensures result <==> pins in PossibleRolls()
      ensures IsPins(pins) ==> (result <==> AddRollTo(State(), pins).Ok?)
    {
      var frame := NextRollFrame();
      result := false;
      if frame.Some? {
        result := frames[frame.value].CanRoll(chain, pins);
      }
    }

    /** `rollIterator`: a walk over every roll of the game, from the first
     *  frame's first roll to the current frame's last roll. */
    method IterateRolls() returns (rolls: RollIterator)
      requires Valid()
      ensures fresh(rolls) && rolls.Valid() && rolls.chain == chain
      ensures rolls.currentRoll == (if chain == [] then None else Some(0))
      ensures rolls.Left() == |chain|
    {
      rolls := new RollIterator(chain, frames[0].firstRoll, frames[currentFrameIndex].lastRoll);
    }
  }

  /** How `rollToString` marks a roll on the score sheet. */
  datatype RollType = Normal | Strike | Spare

  /** The decimal digits of n (Java's `"" + n` for a non-negative int). */
  function Decimal(n: nat): (s: string)
    ensures |s| >= 1
    ensures s[0] == '0' <==> n == 0
    ensures |s| == 1 <==> n < 10
  {
    if n < 10 then [Digit(n)] else Decimal(n / 10) + [Digit(n % 10)]
  }

  function Digit(d: nat): char
    requires d < 10
  {
    "0123456789"[d]
  }

  predicate IsDecimal(s: string) {
    forall i :: 0 <= i < |s| ==> '0' <= s[i] <= '9'
  }

  /** The number a string of decimal digits stands for. */
  function DecimalValue(s: string): nat
    requires IsDecimal(s)
  {
    if s == [] then 0 else 10 * DecimalValue(s[..|s| - 1]) + (s[|s| - 1] - '0') as nat
  }

  /** A digit reads back as its value. */
  lemma DigitValue(d: nat)
    requires d < 10
    ensures '0' <= Digit(d) <= '9' && (Digit(d) - '0') as nat == d
  {
  }

  /** Reading back the digits of n gives n. */
  lemma {:induction false} DecimalRoundTrip(n: nat)
    ensures IsDecimal(Decimal(n)) && DecimalValue(Decimal(n)) == n
  {
    if n < 10 {
      DigitValue(n);
    } else {
      DecimalRoundTrip(n / 10);
      DigitValue(n % 10);
      var s := Decimal(n);
      assert s == Decimal(n / 10) + [Digit(n % 10)];
      assert s[..|s| - 1] == Decimal(n / 10);
      assert n == 10 * (n / 10) + n % 10;
    }
  }

  /** `rollToString`: "X" for a strike, "/" for a spare, and for a normal roll
   *  "" when there is none, "-" for no pins, otherwise the pin count in
   *  decimal. */
  function RollToString(roll: Option<int>, rollType: RollType): (s: string)
    requires roll.Some? ==> IsPins(roll.value)
    ensures rollType == Strike ==> s == "X"
    ensures rollType == Spare ==> s == "/"
    ensures rollType == Normal && roll.None? ==> s == ""
    ensures rollType == Normal && roll == Some(0) ==> s == "-"
    ensures rollType == Normal && roll.Some? && roll.value > 0 ==>
              IsDecimal(s) && DecimalValue(s) == roll.value && s[0] != '0' &&
              |s| == if roll.value < 10 then 1 else 2
  {
    match rollType
    case Normal =>
      if roll.None? then ""
      else if roll.value == 0 then "-"
      else DecimalRoundTrip(roll.value); Decimal(roll.value)
    case Strike => "X"
    case Spare => "/"
  }
}
