/** Rolls: one throw of the ball, and the chain of throws of a whole game.
 *
 *  The game's rolls form one forward-linked chain that crosses frame boundaries.
 *  Here the chain is the sequence of pin counts in the order the rolls were made;
 *  a reference to a roll is its position in that sequence (`None` for a null
 *  reference), and the `nextRoll` link of position i is position i + 1 when that
 *  roll exists.
 */
module Rolls {

  /** Pins racked at the start of a frame (`BowlingGame.ALL_PINS`). */
  const ALL_PINS: int := 10

  /** The failures of the engine: the two checked exceptions of the game and the
   *  iterator's `NoSuchElementException`. */
  datatype Error = InvalidRoll | GameFinished | NoSuchElement

  datatype Option<T> = None | Some(value: T)

  datatype Result<T> = Ok(value: T) | Err(error: Error)

  datatype Outcome = Pass | Fail(error: Error)

  predicate IsPins(pins: int) {
    0 <= pins <= ALL_PINS
  }

  /** Every roll of the chain was constructed with a valid pin count. */
  predicate ValidChain(chain: seq<int>) {
    forall i :: 0 <= i < |chain| ==> IsPins(chain[i])
  }

  lemma ValidChainAppend(chain: seq<int>, roll: int)
    requires ValidChain(chain) && IsPins(roll)
    ensures ValidChain(chain + [roll])
  {
  }

  /** Constructing a roll (`Roll(int)`, `init`, `setPins`): a pin count outside
   *  [0, ALL_PINS] is refused, any other is kept as the roll's `pins()`. */
  function NewRoll(pins: int): (r: Result<int>)
    ensures r.Ok? <==> IsPins(pins)
    ensures r.Ok? ==> r.value == pins
    ensures r.Err? ==> r.error == InvalidRoll
  {
    if pins > ALL_PINS || pins < 0 then Err(InvalidRoll) else Ok(pins)
  }

  /** A stretch `first..last` of the chain, both ends inclusive: both ends
   *  null, or both on the chain with the first not after the last. */
  predicate IsSpan(first: Option<nat>, last: Option<nat>, length: int) {
    (first.None? <==> last.None?) &&
    (first.Some? ==> first.value <= last.value < length)
  }

  /** The pins of the rolls in the stretch `first..last`. */
  function Slice(chain: seq<int>, first: Option<nat>, last: Option<nat>): (rolls: seq<int>)
    requires IsSpan(first, last, |chain|)
    ensures |rolls| == if first.Some? then last.value - first.value + 1 else 0
    ensures forall k :: 0 <= k < |rolls| ==> rolls[k] == chain[first.value + k]
  {
    if first.None? then [] else chain[first.value..last.value + 1]
  }

  /** Whether a roll knocked down the whole rack. */
  predicate IsStrike(pins: int) {
    pins == ALL_PINS
  }

  /** The `nextRoll` link of the roll at position i. */
  function NextRoll(chain: seq<int>, i: nat): (next: Option<nat>)
    ensures next.Some? ==> next.value == i + 1 && next.value < |chain|
  {
    if i + 1 < |chain| then Some(i + 1) else None
  }

  /** `hasNext`: the roll at position i is followed by another roll; the most
   *  recently appended roll never is. */
  predicate HasNext(chain: seq<int>, i: nat)
    ensures HasNext(chain, i) <==> i + 1 < |chain|
  {
    NextRoll(chain, i) != None
  }

  /** The pins of the rolls reached by following `nextRoll` from `start`,
   *  `start` included; empty for a null start. */
  function Run(chain: seq<int>, start: Option<nat>): seq<int>
    decreases if start.Some? && start.value < |chain| then |chain| - start.value else 0
  {
    match start
    case None => []
    case Some(i) =>
      if i < |chain| then [chain[i]] + Run(chain, NextRoll(chain, i)) else []
  }

  /** Following the links from position i visits exactly the rolls from i to
   *  the end of the chain, in order. */
  lemma {:induction false} RunIsSuffix(chain: seq<int>, i: nat)
    requires i <= |chain|
    ensures Run(chain, if i < |chain| then Some(i) else None) == chain[i..]
    decreases |chain| - i
  {
    if i < |chain| {
      RunIsSuffix(chain, i + 1);
      assert chain[i..] == [chain[i]] + chain[i + 1..];
    }
  }

  function Sum(s: seq<int>): int {
    if s == [] then 0 else Sum(s[..|s| - 1]) + s[|s| - 1]
  }

  lemma SumOfThree(s: seq<int>)
    requires |s| == 3
    ensures Sum(s) == s[0] + s[1] + s[2]
  {
    assert s[..2][..1] == [s[0]];
    assert Sum([s[0]]) == s[0] by {
      assert [s[0]][..0] == [];
    }
    assert Sum(s[..2]) == s[0] + s[1];
  }

  /** The first n elements of s, or all of s when it is shorter. */
  function Take(s: seq<int>, n: nat): (t: seq<int>)
    ensures |t| == if n <= |s| then n else |s|
    ensures t <= s
  {
    if n < |s| then s[..n] else s
  }

  /** A sum of k pin counts lies between 0 and k full racks. */
  lemma {:induction false} SumOfPinsBounded(s: seq<int>)
    requires forall i :: 0 <= i < |s| ==> IsPins(s[i])
    ensures 0 <= Sum(s) <= ALL_PINS * |s|
  {
    if s != [] {
      SumOfPinsBounded(s[..|s| - 1]);
    }
  }

  /** `Roll.pinsFromRollSequence(start, n)`: the pins of the first n rolls along
   *  the chain from `start`, or of as many as exist. */
  function PinsFromRollSequence(chain: seq<int>, start: Option<nat>, n: nat): (total: int)
    ensures start.None? || n == 0 ==> total == 0
    ensures n >= |Run(chain, start)| ==> total == Sum(Run(chain, start))
  {
    Sum(Take(Run(chain, start), n))
  }

  /** The pins counted by `PinsFromRollSequence` are those of the n rolls at
   *  positions i, i + 1, ..., when they exist, and never exceed n full racks. */
  lemma PinsFromRollSequenceAt(chain: seq<int>, i: nat, n: nat)
    requires ValidChain(chain)
    requires i + n <= |chain|
    ensures PinsFromRollSequence(chain, Some(i), n) == Sum(chain[i..i + n])
    ensures 0 <= PinsFromRollSequence(chain, Some(i), n) <= ALL_PINS * n
  {
    RunIsSuffix(chain, i);
    if i == |chain| {
      assert Run(chain, Some(i)) == [];
    }
    assert Run(chain, Some(i)) == chain[i..];
    assert Take(chain[i..], n) == chain[i..i + n];
    SumOfPinsBounded(chain[i..i + n]);
  }

  /** `Roll.hasSequenceSize(start, n)`: at least n rolls can be reached along
   *  the chain from `start`. */
  predicate HasSequenceSize(chain: seq<int>, start: Option<nat>, n: nat) {
    |Run(chain, start)| >= n
  }

  /** A null start has no rolls; from position i the chain holds
   *  |chain| - i rolls. */
  lemma SequenceSizeFrom(chain: seq<int>, start: Option<nat>, n: nat)
    ensures start.None? && n >= 1 ==> !HasSequenceSize(chain, start, n)
    ensures start.Some? && start.value < |chain| ==>
              (HasSequenceSize(chain, start, n) <==> start.value + n <= |chain|)
  {
    if start.Some? && start.value < |chain| {
      RunIsSuffix(chain, start.value);
    }
  }

  /** The walk behind `pinsFromRollSequence`: follow `nextRoll` from `start`
   *  with a counter, adding pins, until n rolls are counted or the chain ends. */
  method SumRollSequence(chain: seq<int>, start: Option<nat>, n: nat) returns (total: int)
    ensures total == PinsFromRollSequence(chain, start, n)
  {
    total := 0;
    var count := 0;
    var roll := start;
    ghost var run := Run(chain, start);
    while roll.Some? && roll.value < |chain| && count < n
      invariant count <= n && count <= |run|
      invariant Run(chain, roll) == run[count..]
      invariant total == Sum(run[..count])
      decreases n - count
    {
      assert run[..count + 1][..count] == run[..count];
      total := total + chain[roll.value];
      roll := NextRoll(chain, roll.value);
      count := count + 1;
    }
    assert Take(run, n) == run[..count];
  }

  /** `Roll.getRangeOfRolls(max)`: one roll for every pin count 0, 1, ..., max. */
  function RangeOfRolls(max: int): (rolls: seq<int>)
    ensures |rolls| == if max < 0 then 0 else max + 1
    ensures forall i :: 0 <= i < |rolls| ==> rolls[i] == i
    ensures forall p :: p in rolls <==> 0 <= p <= max
  {
    if max < 0 then [] else RangeOfRolls(max - 1) + [max]
  }
}
