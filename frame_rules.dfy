/** FrameRules: what a frame's own rolls say about it — strike, spare, the
 *  completion state machine, pins standing and the legal next rolls.
 *
 *  `rolls` is the list of pin counts placed in the frame so far, in order, and
 *  `isLast` says whether the frame is the tenth of the game.
 */
module FrameRules {
  import opened Rolls

  /** `Frame.isStrike`: a first roll exists and it is a strike. */
  predicate IsStrike(rolls: seq<int>) {
    |rolls| >= 1 && Rolls.IsStrike(rolls[0])
  }

  /** `Frame.isSpare`: not a strike, and the first two rolls felled the rack.
   *  A frame is never both. */
  predicate IsSpare(rolls: seq<int>)
    ensures IsSpare(rolls) ==> !IsStrike(rolls) && |rolls| >= 2
  {
    !IsStrike(rolls) && |rolls| >= 2 && rolls[0] + rolls[1] == ALL_PINS
  }

  /** `Frame.hasAllRolls`: the completion state machine. */
  predicate HasAllRolls(rolls: seq<int>, isLast: bool) {
    if isLast then
      if IsStrike(rolls) || IsSpare(rolls) then |rolls| == 3 else |rolls| == 2
    else if IsStrike(rolls) then
      true
    else
      |rolls| == 2
  }

  /** Pins standing after the given rolls, starting from a full rack and, when
   *  `reset` holds, re-racking whenever the rack is cleared. */
  function RackAfter(rolls: seq<int>, reset: bool): int {
    if rolls == [] then
      ALL_PINS
    else
      var left := RackAfter(rolls[..|rolls| - 1], reset) - rolls[|rolls| - 1];
      if reset && left == 0 then ALL_PINS else left
  }

  /** `Frame.pinsUp`: in the tenth frame the rack is reset whenever it is
   *  cleared while the frame still expects rolls. */
  function PinsUp(rolls: seq<int>, isLast: bool): int {
    RackAfter(rolls, isLast && !HasAllRolls(rolls, isLast))
  }

  /** `Frame.possibleRolls`: nothing once the frame has all its rolls,
   *  otherwise every pin count from 0 to the pins standing. */
  function PossibleRolls(rolls: seq<int>, isLast: bool): (possible: seq<int>)
    ensures forall p :: p in possible <==>
              !HasAllRolls(rolls, isLast) && 0 <= p <= PinsUp(rolls, isLast)
    ensures |possible| == if HasAllRolls(rolls, isLast) || PinsUp(rolls, isLast) < 0 then 0
                          else PinsUp(rolls, isLast) + 1
    ensures forall i :: 0 <= i < |possible| ==> possible[i] == i
  {
    if HasAllRolls(rolls, isLast) then [] else RangeOfRolls(PinsUp(rolls, isLast))
  }

  /** The frame's rolls could have been placed one by one by the game: each
   *  roll went in while the frame was still open and did not exceed the pins
   *  standing before it. */
  predicate Legal(rolls: seq<int>, isLast: bool) {
    forall k :: 0 <= k < |rolls| ==>
      !HasAllRolls(rolls[..k], isLast) && 0 <= rolls[k] <= PinsUp(rolls[..k], isLast)
  }

  /** The ten-pin rules for the rolls of one frame, written out case by case:
   *  an ordinary frame is a strike alone or at most two rolls felling at most
   *  the rack; the tenth frame earns a third roll by a strike or a spare, and
   *  the rack is set up again after each clear. */
  predicate TenPinFrame(rolls: seq<int>, isLast: bool) {
    (forall k :: 0 <= k < |rolls| ==> IsPins(rolls[k])) &&
    if !isLast then
      |rolls| <= 2 &&
      (|rolls| == 2 ==> rolls[0] < ALL_PINS && rolls[0] + rolls[1] <= ALL_PINS)
    else
      |rolls| <= 3 &&
      (|rolls| >= 2 && rolls[0] < ALL_PINS ==> rolls[0] + rolls[1] <= ALL_PINS) &&
      (|rolls| == 3 ==> rolls[0] == ALL_PINS || rolls[0] + rolls[1] == ALL_PINS) &&
      (|rolls| == 3 && rolls[0] == ALL_PINS && rolls[1] < ALL_PINS ==>
         rolls[1] + rolls[2] <= ALL_PINS)
  }

  /** One more roll: take its pins off the rack, re-racking a cleared rack
   *  when `reset` holds. */
  lemma RackAfterStep(rolls: seq<int>, k: nat, reset: bool)
    requires k < |rolls|
    ensures RackAfter(rolls[..k + 1], reset) ==
              (var left := RackAfter(rolls[..k], reset) - rolls[k];
               if reset && left == 0 then ALL_PINS else left)
  {
    assert rolls[..k + 1][..k] == rolls[..k];
  }

  lemma RackAfterPrefixes(rolls: seq<int>, reset: bool)
    requires 1 <= |rolls| <= 3
    ensures |rolls| == 1 ==> RackAfter(rolls, reset) == RackAfter([rolls[0]], reset)
    ensures |rolls| >= 2 ==>
      RackAfter(rolls[..2], reset) == (var left := RackAfter([rolls[0]], reset) - rolls[1];
                                       if reset && left == 0 then ALL_PINS else left)
    ensures |rolls| == 3 ==>
      RackAfter(rolls, reset) == (var left := RackAfter(rolls[..2], reset) - rolls[2];
                                  if reset && left == 0 then ALL_PINS else left)
  {
    if |rolls| >= 2 {
      assert rolls[..2][..1] == [rolls[0]];
    }
    if |rolls| == 3 {
      assert rolls[..2] == rolls[..|rolls| - 1];
    }
  }

  /** A frame's rolls are legal exactly when they obey the ten-pin rules. */
  lemma LegalIffTenPinFrame(rolls: seq<int>, isLast: bool)
    ensures Legal(rolls, isLast) <==> TenPinFrame(rolls, isLast)
  {
    if isLast {
      TenthFrameLegalIffTenPin(rolls);
    } else {
      OrdinaryFrameLegalIffTenPin(rolls);
    }
  }

  /** In an ordinary frame the rack is never reset. */
  lemma OrdinaryFrameLegalIffTenPin(rolls: seq<int>)
    ensures Legal(rolls, false) <==> TenPinFrame(rolls, false)
  {
    if |rolls| >= 1 {
      assert rolls[..0] == [];
      assert rolls[..1] == [rolls[0]];
    }
    if |rolls| >= 2 {
      RackAfterPrefixes(rolls[..2], false);
      assert rolls[..2][..2] == rolls[..2];
      assert rolls[..2][..1] == [rolls[0]];
    }
    if |rolls| >= 3 {
      assert HasAllRolls(rolls[..1], false) || HasAllRolls(rolls[..2], false);
    }
  }

  /** In the tenth frame the rack is reset after each clear. */
  lemma TenthFrameLegalIffTenPin(rolls: seq<int>)
    ensures Legal(rolls, true) <==> TenPinFrame(rolls, true)
  {
    if |rolls| >= 1 {
      assert rolls[..0] == [];
      assert rolls[..1] == [rolls[0]];
    }
    if |rolls| >= 2 {
      RackAfterPrefixes(rolls[..2], true);
      assert rolls[..2][..2] == rolls[..2];
      assert rolls[..2][..1] == [rolls[0]];
    }
    if |rolls| >= 3 {
      RackAfterPrefixes(rolls[..3], true);
      assert rolls[..3][..2] == rolls[..2];
    }
    if |rolls| >= 4 {
      assert rolls[..3] == [rolls[0], rolls[1], rolls[2]];
      assert HasAllRolls(rolls[..2], true) || HasAllRolls(rolls[..3], true);
    }
  }

  /** A legal frame holds at most two rolls, three in the tenth frame, and an
   *  ordinary strike frame holds the strike alone. */
  lemma LegalFrameIsShort(rolls: seq<int>, isLast: bool)
    requires Legal(rolls, isLast)
    ensures |rolls| <= if isLast then 3 else 2
    ensures !isLast && IsStrike(rolls) ==> |rolls| == 1
  {
    LegalIffTenPinFrame(rolls, isLast);
  }

  /** While a legal frame still expects a roll, at least one and at most a
   *  full rack of pins is standing (in the tenth frame thanks to the re-rack). */
  lemma PinsUpWhileOpen(rolls: seq<int>, isLast: bool)
    requires Legal(rolls, isLast)
    requires !HasAllRolls(rolls, isLast)
    ensures 0 < PinsUp(rolls, isLast) <= ALL_PINS
  {
    LegalIffTenPinFrame(rolls, isLast);
    if |rolls| >= 1 {
      RackAfterPrefixes(rolls, true);
      RackAfterPrefixes(rolls, false);
    }
  }

  /** Appending a roll to a legal frame keeps it legal exactly when the roll is
   *  one of the frame's possible rolls. */
  lemma LegalAppend(rolls: seq<int>, isLast: bool, pins: int)
    requires Legal(rolls, isLast)
    ensures Legal(rolls + [pins], isLast) <==> pins in PossibleRolls(rolls, isLast)
  {
    var longer := rolls + [pins];
    assert longer[..|rolls|] == rolls;
    assert forall k :: 0 <= k < |rolls| ==> longer[..k] == rolls[..k];
  }

  /** A legal frame has all its rolls exactly when no further roll could be
   *  placed in it. */
  lemma CompleteIffNoLegalRoll(rolls: seq<int>, isLast: bool)
    requires Legal(rolls, isLast)
    ensures HasAllRolls(rolls, isLast) <==> forall pins :: !Legal(rolls + [pins], isLast)
  {
    forall pins
      ensures Legal(rolls + [pins], isLast) <==> pins in PossibleRolls(rolls, isLast)
    {
      LegalAppend(rolls, isLast, pins);
    }
    if !HasAllRolls(rolls, isLast) {
      PinsUpWhileOpen(rolls, isLast);
      assert Legal(rolls + [0], isLast);
    }
  }

  /** A roll extends a legal frame into a ten-pin frame exactly when the frame
   *  is open and the roll fells at most the pins standing. */
  lemma TenPinAppend(rolls: seq<int>, isLast: bool, pins: int)
    requires Legal(rolls, isLast)
    ensures TenPinFrame(rolls + [pins], isLast) <==>
              !HasAllRolls(rolls, isLast) && 0 <= pins <= PinsUp(rolls, isLast)
  {
    LegalAppend(rolls, isLast, pins);
    LegalIffTenPinFrame(rolls + [pins], isLast);
  }

  /** The pins of a legal frame are valid pin counts. */
  lemma LegalRollsArePins(rolls: seq<int>, isLast: bool)
    requires Legal(rolls, isLast)
    ensures forall k :: 0 <= k < |rolls| ==> IsPins(rolls[k])
  {
    LegalIffTenPinFrame(rolls, isLast);
  }
}
