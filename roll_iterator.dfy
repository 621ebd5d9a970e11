/** RollIterator: a bounded walk along the roll chain, from a start roll to an
 *  end roll inclusive. */
module RollIterators {
  import opened Rolls

  class RollIterator {
    /** The chain walked over (the rolls linked by `nextRoll`). */
    const chain: seq<int>
    const endRoll: Option<nat>
    var currentRoll: Option<nat>

    /** The cursor lies on the walk from the start roll to just past the end
     *  roll; past the last roll of the chain it is null. */
    ghost predicate Valid()
      reads this
    {
      endRoll.Some? ==>
        endRoll.value < |chain| &&
        match currentRoll
        case None => endRoll.value + 1 == |chain|
        case Some(c) => c <= endRoll.value + 1 && c < |chain|
    }

    /** How many rolls `Next` will still return: those from the cursor to the
     *  end roll inclusive. */
    function Left(): nat
      reads this
    {
      if endRoll.Some? && currentRoll.Some? && currentRoll.value <= endRoll.value
      then endRoll.value + 1 - currentRoll.value
      else 0
    }

    /** The iterator over `start..end`; the end roll must follow the start roll
     *  on the same chain. A null end gives an empty walk. */
    constructor (chain: seq<int>, start: Option<nat>, end: Option<nat>)
      requires end.Some? ==> start.Some? && start.value <= end.value < |chain|
      ensures Valid()
      ensures this.chain == chain && endRoll == end && currentRoll == start
      ensures Left() == if end.Some? then end.value + 1 - start.value else 0
    {
      this.chain := chain;
      endRoll := end;
      currentRoll := start;
    }

    /** `hasNext`: the cursor has not yet reached the end roll's `nextRoll`. */
    function HasNext(): (more: bool)
      reads this
      requires Valid()
      ensures more <==> Left() > 0
    {
      endRoll.Some? && currentRoll != NextRoll(chain, endRoll.value)
    }

    /** `next`: return the current roll and move to its `nextRoll`; with nothing
     *  left, fail with NoSuchElement and leave the cursor where it is. */
    method Next() returns (r: Result<nat>)
      requires Valid()
      modifies this
      ensures Valid()
      ensures old(Left()) == 0 ==> r == Err(NoSuchElement) && currentRoll == old(currentRoll)
      ensures old(Left()) > 0 ==> r == Ok(old(currentRoll).value) && Left() == old(Left()) - 1
      ensures old(Left()) > 0 && Left() > 0 ==> currentRoll == Some(old(currentRoll).value + 1)
    {
      if !HasNext() {
        return Err(NoSuchElement);
      }
      var result := currentRoll.value;
      currentRoll := NextRoll(chain, result);
      r := Ok(result);
    }
  }
}
