/** Frame: one of the ten scoring units of a game. A frame borrows the span
 *  `firstRoll..lastRoll` of the game's roll chain and reads later rolls through
 *  the chain when a strike or spare needs them. */
module Frames {
  import opened Rolls
  import opened RollIterators
  import FrameRules

  class Frame {
    var firstRoll: Option<nat>
    var lastRoll: Option<nat>
    /** Whether this is the tenth frame; set by the game that owns the frame. */
    var isLast: bool

    /** Both ends are null, or both lie on the chain with the first not after
     *  the last. */
    ghost predicate Valid(chain: seq<int>)
      reads this
    {
      IsSpan(firstRoll, lastRoll, |chain|)
    }

    /** The pins of the frame's own rolls, in the order they were added. */
    function OwnRolls(chain: seq<int>): (rolls: seq<int>)
      reads this
      requires Valid(chain)
      ensures |rolls| == if firstRoll.Some? then lastRoll.value - firstRoll.value + 1 else 0
    {
      Slice(chain, firstRoll, lastRoll)
    }

    /** A new frame is empty and is not the tenth. */
    constructor ()
      ensures firstRoll == None && lastRoll == None && !isLast
    {
      firstRoll, lastRoll := None, None;
      isLast := false;
    }

    /** `init`: forget every roll and clear the tenth-frame flag. */
    method Init()
      modifies this
      ensures firstRoll == None && lastRoll == None && !isLast
    {
      firstRoll, lastRoll := None, None;
      isLast := false;
    }

    /** `addRoll`: the roll at position `roll` becomes the frame's last roll;
     *  it is also the first roll of an empty frame. On a non-empty frame it is
     *  the roll the old last roll now links to. */
    method AddRoll(chain: seq<int>, roll: nat)
      requires Valid(chain) && roll < |chain|
      requires lastRoll.Some? ==> roll == lastRoll.value + 1
      modifies this
      ensures Valid(chain) && isLast == old(isLast)
      ensures firstRoll == if old(firstRoll).None? then Some(roll) else old(firstRoll)
      ensures lastRoll == Some(roll)
      ensures OwnRolls(chain) == old(OwnRolls(chain)) + [chain[roll]]
    {
      if lastRoll.None? {
        firstRoll, lastRoll := Some(roll), Some(roll);
      } else {
        lastRoll := Some(roll);
      }
    }

    /** `rollCount`: walk the frame's rolls with a RollIterator and count them. */
    method RollCount(chain: seq<int>) returns (count: nat)
      requires Valid(chain)
      ensures count == |OwnRolls(chain)|
    {
      count := 0;
      var rolls := new RollIterator(chain, firstRoll, lastRoll);
      while rolls.HasNext()
        invariant rolls.Valid()
        invariant count + rolls.Left() == |OwnRolls(chain)|
        decreases rolls.Left()
      {
        count := count + 1;
        var roll := rolls.Next();
      }
    }

    /** `pinsUp`: start from a full rack and take off each roll's pins; in the
     *  tenth frame re-rack whenever the rack is cleared while the frame still
     *  expects rolls. */
    method PinsUp(chain: seq<int>) returns (pinsLeft: int)
      requires Valid(chain)
      ensures pinsLeft == FrameRules.PinsUp(OwnRolls(chain), isLast)
    {
      pinsLeft := ALL_PINS;
      var rolls := new RollIterator(chain, firstRoll, lastRoll);
      ghost var own := OwnRolls(chain);
      ghost var reset := isLast && !FrameRules.HasAllRolls(own, isLast);
      ghost var start := if firstRoll.Some? then firstRoll.value else 0;
      ghost var done := 0;
      while rolls.HasNext()
        invariant rolls.Valid() && rolls.chain == chain
        invariant OwnRolls(chain) == own
        invariant 0 <= done <= |own|
        invariant done + rolls.Left() == |own|
        invariant rolls.Left() > 0 ==> rolls.currentRoll == Some(start + done)
        invariant pinsLeft == FrameRules.RackAfter(own[..done], reset)
        decreases rolls.Left()
      {
        var roll := rolls.Next();
        RackStep(chain, own, done, reset, roll.value);
        pinsLeft := pinsLeft - chain[roll.value];
        if isLast && pinsLeft == 0 && !FrameRules.HasAllRolls(OwnRolls(chain), isLast) {
          pinsLeft := ALL_PINS;
        }
        done := done + 1;
      }
      assert own[..done] == own;
    }

    /** `canRoll`: whether a roll of `pins` pins is among the frame's possible
     *  rolls, found by comparing pin counts. */
    method CanRoll(chain: seq<int>, pins: int) returns (result: bool)
      requires Valid(chain)
      ensures result <==> pins in FrameRules.PossibleRolls(OwnRolls(chain), isLast)
      ensures result <==> !FrameRules.HasAllRolls(OwnRolls(chain), isLast) &&
                          0 <= pins <= FrameRules.PinsUp(OwnRolls(chain), isLast)
    {
      var possibleRolls := FrameRules.PossibleRolls(OwnRolls(chain), isLast);
      result := false;
      var i := 0;
      while i < |possibleRolls|
        invariant 0 <= i <= |possibleRolls|
        invariant forall j :: 0 <= j < i ==> possibleRolls[j] != pins
      {
        if pins == possibleRolls[i] {
          result := true;
          break;
        }
        i := i + 1;
      }
    }

    /** `getScore`: the score rule of `ScoreOn` applied to this frame. */
    function Score(chain: seq<int>): int
      reads this
      requires Valid(chain)
    {
      ScoreOn(chain, firstRoll, lastRoll)
    }

    /** `scoreIsComplete`: the rule of `ScoreCompleteOn` applied to this frame. */
    function ScoreIsComplete(chain: seq<int>): bool
      reads this
      requires Valid(chain)
    {
      ScoreCompleteOn(chain, firstRoll, lastRoll)
    }
  }

  /** One step of `pinsUp`: the roll at position `at` is the next own roll. */
  lemma RackStep(chain: seq<int>, own: seq<int>, done: nat, reset: bool, at: nat)
    requires done < |own| && at < |chain| && chain[at] == own[done]
    ensures FrameRules.RackAfter(own[..done + 1], reset) ==
              (var left := FrameRules.RackAfter(own[..done], reset) - chain[at];
               if reset && left == 0 then ALL_PINS else left)
  {
    FrameRules.RackAfterStep(own, done, reset);
  }

  /** The score of the frame owning the stretch `first..last`: a strike or
   *  spare scores the first three rolls along the chain from its first roll
   *  (fewer if they do not exist yet); any other frame scores its own rolls. */
  function ScoreOn(chain: seq<int>, first: Option<nat>, last: Option<nat>): int
    requires IsSpan(first, last, |chain|)
  {
    var rolls := Slice(chain, first, last);
    if FrameRules.IsStrike(rolls) || FrameRules.IsSpare(rolls) then
      PinsFromRollSequence(chain, first, 3)
    else
      PinsFromRollSequence(chain, first, |rolls|)
  }

  /** Whether the rolls that score depends on have all been made: three along
   *  the chain for a strike or spare, otherwise two. */
  function ScoreCompleteOn(chain: seq<int>, first: Option<nat>, last: Option<nat>): (complete: bool)
    requires IsSpan(first, last, |chain|)
    ensures complete <==>
              first.Some? &&
              first.value + (if FrameRules.IsStrike(Slice(chain, first, last)) ||
                                FrameRules.IsSpare(Slice(chain, first, last)) then 3 else 2)
                <= |chain|
  {
    var rolls := Slice(chain, first, last);
    var needed := if FrameRules.IsStrike(rolls) || FrameRules.IsSpare(rolls) then 3 else 2;
    SequenceSizeFrom(chain, first, needed);
    HasSequenceSize(chain, first, needed)
  }

  /** An empty frame scores nothing; an open frame scores its own pins. */
  lemma ScoreOfOpenFrame(chain: seq<int>, first: Option<nat>, last: Option<nat>)
    requires IsSpan(first, last, |chain|) && ValidChain(chain)
    requires !FrameRules.IsStrike(Slice(chain, first, last)) && !FrameRules.IsSpare(Slice(chain, first, last))
    ensures ScoreOn(chain, first, last) == Sum(Slice(chain, first, last))
    ensures first.None? ==> ScoreOn(chain, first, last) == 0
  {
    if first.Some? {
      PinsFromRollSequenceAt(chain, first.value, |Slice(chain, first, last)|);
    }
  }

  /** Once the two rolls after it exist, a strike scores ten plus their pins. */
  lemma ScoreOfStrike(chain: seq<int>, first: Option<nat>, last: Option<nat>)
    requires IsSpan(first, last, |chain|) && ValidChain(chain)
    requires FrameRules.IsStrike(Slice(chain, first, last)) && ScoreCompleteOn(chain, first, last)
    ensures ScoreOn(chain, first, last) == ALL_PINS + chain[first.value + 1] + chain[first.value + 2]
  {
    var i := first.value;
    PinsFromRollSequenceAt(chain, i, 3);
    SumOfThree(chain[i..i + 3]);
  }

  /** Once the roll after it exists, a spare scores ten plus that roll's pins. */
  lemma ScoreOfSpare(chain: seq<int>, first: Option<nat>, last: Option<nat>)
    requires IsSpan(first, last, |chain|) && ValidChain(chain)
    requires FrameRules.IsSpare(Slice(chain, first, last)) && ScoreCompleteOn(chain, first, last)
    ensures ScoreOn(chain, first, last) == ALL_PINS + chain[first.value + 2]
  {
    var i := first.value;
    assert chain[i] + chain[i + 1] == ALL_PINS;
    PinsFromRollSequenceAt(chain, i, 3);
    SumOfThree(chain[i..i + 3]);
  }

  /** Until its bonus rolls exist, a strike or spare scores every roll made
   *  from its first roll on. */
  lemma ScoreWhileBonusPending(chain: seq<int>, first: Option<nat>, last: Option<nat>)
    requires IsSpan(first, last, |chain|) && ValidChain(chain)
    requires FrameRules.IsStrike(Slice(chain, first, last)) || FrameRules.IsSpare(Slice(chain, first, last))
    requires !ScoreCompleteOn(chain, first, last)
    ensures ScoreOn(chain, first, last) == Sum(chain[first.value..])
  {
    RunIsSuffix(chain, first.value);
  }

  /** Only a strike followed by two more strikes scores three full racks. */
  lemma ScoreOfThirty(chain: seq<int>, first: Option<nat>, last: Option<nat>, isLast: bool)
    requires IsSpan(first, last, |chain|) && ValidChain(chain)
    requires FrameRules.Legal(Slice(chain, first, last), isLast)
    requires ScoreOn(chain, first, last) == 3 * ALL_PINS
    ensures first.Some? && first.value + 3 <= |chain|
    ensures chain[first.value] == ALL_PINS && chain[first.value + 1] == ALL_PINS &&
            chain[first.value + 2] == ALL_PINS
  {
    var rolls := Slice(chain, first, last);
    if FrameRules.IsStrike(rolls) || FrameRules.IsSpare(rolls) {
      if ScoreCompleteOn(chain, first, last) {
        if FrameRules.IsStrike(rolls) {
          ScoreOfStrike(chain, first, last);
        } else {
          ScoreOfSpare(chain, first, last);
          assert false;
        }
      } else {
        ScoreWhileBonusPending(chain, first, last);
        SumOfPinsBounded(chain[first.value..]);
        assert false;
      }
    } else {
      ScoreOfOpenFrame(chain, first, last);
      FrameRules.LegalIffTenPinFrame(rolls, isLast);
      SumOfPinsBounded(rolls);
      assert false;
    }
  }

  /** A legal frame, read over a chain of valid rolls, scores at most three
   *  full racks. */
  lemma ScoreBounded(chain: seq<int>, first: Option<nat>, last: Option<nat>, isLast: bool)
    requires IsSpan(first, last, |chain|) && ValidChain(chain)
    requires FrameRules.Legal(Slice(chain, first, last), isLast)
    ensures 0 <= ScoreOn(chain, first, last) <= 3 * ALL_PINS
  {
    var rolls := Slice(chain, first, last);
    FrameRules.LegalFrameIsShort(rolls, isLast);
    if first.Some? {
      var i := first.value;
      var n := if FrameRules.IsStrike(rolls) || FrameRules.IsSpare(rolls) then 3 else |rolls|;
      var m := if i + n <= |chain| then n else |chain| - i;
      PinsFromRollSequenceAt(chain, i, m);
      RunIsSuffix(chain, i);
      assert Take(Run(chain, first), n) == chain[i..i + m];
    }
  }
}
