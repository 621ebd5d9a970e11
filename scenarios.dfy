/** Whole games played from a new game: which rolls are accepted, the frames
 *  they land in, and the final score. */
module Scenarios {
  import opened Rolls
  import opened GameRules
  import opened ScoreSheets
  import FrameRules
  import Frames

  /** Playing rolls from a new game ends where marking them on a sheet with
   *  one empty frame does. */
  lemma PlayFromNewGame(rolls: seq<int>)
    requires forall k :: 0 <= k < |rolls| ==> IsPins(rolls[k])
    ensures Agree(Play(NewGame(), rolls), MarkAll([[]], rolls), rolls)
  {
    NewGameAt();
    PlayMatches(NewGame(), [], [[]], rolls);
    PlayAgreesUnfolds(NewGame(), [], [[]], rolls);
    assert [] + rolls == rolls;
    AgreeOnEquals(Play(NewGame(), rolls), MarkAll([[]], rolls), [] + rolls,
                  Play(NewGame(), rolls), MarkAll([[]], rolls), rolls);
  }

  /** Marking a list that starts with `roll` marks `roll`, then the rest. */
  lemma MarkAllFirst(sheet: Sheet, roll: int, rest: seq<int>)
    requires IsSheet(sheet) && Mark(sheet, roll).Ok?
    ensures MarkAll(sheet, [roll] + rest) == MarkAll(Mark(sheet, roll).value, rest)
  {
    assert ([roll] + rest)[1..] == rest;
  }

  /** The first roll of an ordinary frame: it joins an empty frame, and unless
   *  it is a strike, leaves the frame open with the rest of the rack
   *  standing. */
  lemma FirstRollOfFrame(pins: int)
    requires IsPins(pins)
    ensures !FrameRules.HasAllRolls([], false) && FrameRules.PinsUp([], false) == ALL_PINS
    ensures pins < ALL_PINS ==>
              !FrameRules.HasAllRolls([pins], false) && FrameRules.PinsUp([pins], false) == ALL_PINS - pins
    ensures pins == ALL_PINS ==> FrameRules.HasAllRolls([pins], false)
  {
    assert [pins][..0] == [];
  }

  /** Rolls 10, 3, 7, 4, 3 leave a strike alone in frame 0, a spare in
   *  frame 1 and an open frame 2. */
  lemma StrikeSpareOpenMarked()
    ensures MarkAll([[]], [10, 3, 7, 4, 3]) == Ok([[10], [3, 7], [4, 3]])
  {
    FirstRollOfFrame(10);
    FirstRollOfFrame(3);
    FirstRollOfFrame(4);
    assert Mark([[]], 10) == Ok([[10]]) by {
      assert [] + [10] == [10];
      assert [[]][0 := [10]] == [[10]];
    }
    assert Mark([[10]], 3) == Ok([[10], [3]]) by {
      assert [[10]] + [[3]] == [[10], [3]];
    }
    assert Mark([[10], [3]], 7) == Ok([[10], [3, 7]]) by {
      assert [3] + [7] == [3, 7];
      assert [[10], [3]][1 := [3, 7]] == [[10], [3, 7]];
    }
    assert Mark([[10], [3, 7]], 4) == Ok([[10], [3, 7], [4]]) by {
      assert FrameRules.HasAllRolls([3, 7], false);
      assert [[10], [3, 7]] + [[4]] == [[10], [3, 7], [4]];
    }
    assert Mark([[10], [3, 7], [4]], 3) == Ok([[10], [3, 7], [4, 3]]) by {
      assert [4] + [3] == [4, 3];
      assert [[10], [3, 7], [4]][2 := [4, 3]] == [[10], [3, 7], [4, 3]];
    }
    MarkAllFirst([[10], [3, 7], [4]], 3, []);
    MarkAllFirst([[10], [3, 7]], 4, [3]);
    MarkAllFirst([[10], [3]], 7, [4, 3]);
    MarkAllFirst([[10]], 3, [7, 4, 3]);
    MarkAllFirst([[]], 10, [3, 7, 4, 3]);
  }

  /** That game scores 20 for the strike, 14 for the spare and 7 for the open
   *  frame. */
  lemma StrikeSpareOpenScored(g: GameState)
    requires At(g, [10, 3, 7, 4, 3], [[10], [3, 7], [4, 3]])
    ensures TotalScore(g) == 41
  {
    var layout, chain := g.layout, g.chain;
    assert SpanRolls(layout[0], chain) == [10] && SpanRolls(layout[1], chain) == [3, 7];
    assert SpanRolls(layout[2], chain) == [4, 3];
    assert layout[0].first == Some(0) && layout[0].last == Some(0);
    assert layout[1].first == Some(1) && layout[1].last == Some(2);
    assert layout[2].first == Some(3) && layout[2].last == Some(4);
    Frames.ScoreOfStrike(chain, layout[0].first, layout[0].last);
    Frames.ScoreOfSpare(chain, layout[1].first, layout[1].last);
    Frames.ScoreOfOpenFrame(chain, layout[2].first, layout[2].last);
    assert Sum([4, 3]) == 7 by {
      assert [4, 3][..1] == [4];
      assert [4][..0] == [];
    }
    assert ScoreThrough(g, 1) == 20;
    assert ScoreThrough(g, 2) == 34;
  }

  /** A strike, a spare and an open frame — rolls 10, 3, 7, 4, 3 — score 41. */
  lemma StrikeSpareOpenScores41()
    ensures Play(NewGame(), [10, 3, 7, 4, 3]).Ok?
    ensures TotalScore(Play(NewGame(), [10, 3, 7, 4, 3]).value) == 41
  {
    PlayFromNewGame([10, 3, 7, 4, 3]);
    StrikeSpareOpenMarked();
    StrikeSpareOpenScored(Play(NewGame(), [10, 3, 7, 4, 3]).value);
  }

  /** Rolls 10, 3, 4 on the sheet, one at a time. */
  lemma StrikeThenOpenMarked()
    ensures MarkAll([[]], [10]) == Ok([[10]])
    ensures MarkAll([[]], [10, 3]) == Ok([[10], [3]])
    ensures MarkAll([[]], [10, 3, 4]) == Ok([[10], [3, 4]])
  {
    FirstRollOfFrame(10);
    FirstRollOfFrame(3);
    assert Mark([[]], 10) == Ok([[10]]) by {
      assert [] + [10] == [10];
      assert [[]][0 := [10]] == [[10]];
    }
    assert Mark([[10]], 3) == Ok([[10], [3]]) by {
      assert [[10]] + [[3]] == [[10], [3]];
    }
    assert Mark([[10], [3]], 4) == Ok([[10], [3, 4]]) by {
      assert [3] + [4] == [3, 4];
      assert [[10], [3]][1 := [3, 4]] == [[10], [3, 4]];
    }
    MarkAllFirst([[10], [3]], 4, []);
    MarkAllFirst([[10]], 3, []);
    MarkAllFirst([[10]], 3, [4]);
    MarkAllFirst([[]], 10, []);
    MarkAllFirst([[]], 10, [3]);
    MarkAllFirst([[]], 10, [3, 4]);
  }

  /** A list of rolls that marks a sheet from one empty frame is accepted
   *  by a new game, which then shows that sheet. */
  lemma PlayedShows(rolls: seq<int>, sheet: Sheet)
    requires forall k :: 0 <= k < |rolls| ==> IsPins(rolls[k])
    requires MarkAll([[]], rolls) == Ok(sheet)
    ensures Play(NewGame(), rolls).Ok? && At(Play(NewGame(), rolls).value, rolls, sheet)
  {
    PlayFromNewGame(rolls);
  }

  /** The next roll of a new game goes in frame 0. */
  lemma NextRollFrameOfNewGame()
    ensures NextFrame(NewGame()) == Some(0)
  {
    FirstRollOfFrame(10);
    NewGameAt();
    NextFrameOnSheet(NewGame(), [], [[]]);
  }

  /** After a strike the next roll goes in frame 1. */
  lemma NextRollFrameAfterStrike()
    ensures Play(NewGame(), [10]).Ok? && NextFrame(Play(NewGame(), [10]).value) == Some(1)
  {
    FirstRollOfFrame(10);
    StrikeThenOpenMarked();
    PlayedShows([10], [[10]]);
    NextFrameOnSheet(Play(NewGame(), [10]).value, [10], [[10]]);
  }

  /** After a strike and a 3 the next roll stays in frame 1. */
  lemma NextRollFrameAfterFirstBall()
    ensures Play(NewGame(), [10, 3]).Ok? && NextFrame(Play(NewGame(), [10, 3]).value) == Some(1)
  {
    FirstRollOfFrame(3);
    StrikeThenOpenMarked();
    PlayedShows([10, 3], [[10], [3]]);
    NextFrameOnSheet(Play(NewGame(), [10, 3]).value, [10, 3], [[10], [3]]);
  }

  /** After a strike, a 3 and a 4 the next roll moves on to frame 2. */
  lemma NextRollFrameAfterSecondBall()
    ensures Play(NewGame(), [10, 3, 4]).Ok? && NextFrame(Play(NewGame(), [10, 3, 4]).value) == Some(2)
  {
    StrikeThenOpenMarked();
    PlayedShows([10, 3, 4], [[10], [3, 4]]);
    assert FrameRules.HasAllRolls([3, 4], false);
    NextFrameOnSheet(Play(NewGame(), [10, 3, 4]).value, [10, 3, 4], [[10], [3, 4]]);
  }

  /** After a first roll of 6, a second roll of 5 is refused with InvalidRoll:
   *  only 4 pins stand. */
  lemma TooManyPinsRefused()
    ensures Play(NewGame(), [6, 5]) == Err(InvalidRoll)
  {
    PlayFromNewGame([6, 5]);
    TooManyPinsMarked();
  }

  /** On the sheet, six pins then five are refused at the second roll. */
  lemma TooManyPinsMarked()
    ensures MarkAll([[]], [6, 5]) == Err(InvalidRoll)
  {
    FirstRollOfFrame(6);
    assert Mark([[]], 6) == Ok([[6]]) by {
      assert [] + [6] == [6];
      assert [[]][0 := [6]] == [[6]];
    }
    assert Mark([[6]], 5) == Err(InvalidRoll);
    MarkAllFirst([[]], 6, [5]);
  }

  /** n strikes in a row. */
  function Strikes(n: nat): (rolls: seq<int>)
    ensures |rolls| == n && forall k :: 0 <= k < n ==> rolls[k] == ALL_PINS
  {
    seq(n, k => ALL_PINS)
  }

  /** A sheet of n frames, each a strike alone. */
  function StrikeFrames(n: nat): (sheet: Sheet)
    ensures |sheet| == n && forall i :: 0 <= i < n ==> sheet[i] == [ALL_PINS]
  {
    seq(n, i => [ALL_PINS])
  }

  /** Marking rolls one list after another marks the whole list. */
  lemma {:induction false} MarkAllAppend(sheet: Sheet, first: seq<int>, second: seq<int>)
    requires IsSheet(sheet)
    ensures MarkAll(sheet, first + second) ==
              if MarkAll(sheet, first).Err? then MarkAll(sheet, first)
              else MarkAll(MarkAll(sheet, first).value, second)
    decreases |first|
  {
    if first == [] {
      assert first + second == second;
    } else {
      assert (first + second)[0] == first[0];
      assert (first + second)[1..] == first[1..] + second;
      var step := Mark(sheet, first[0]);
      if step.Ok? {
        MarkAllAppend(step.value, first[1..], second);
      }
    }
  }

  /** Before the tenth frame, each strike completes its frame and the next
   *  one opens a new frame. */
  lemma {:induction false} StrikesMarked(j: nat, m: nat)
    requires 1 <= j && j + m <= NUMBER_OF_FRAMES
    ensures MarkAll(StrikeFrames(j), Strikes(m)) == Ok(StrikeFrames(j + m))
    decreases m
  {
    if m > 0 {
      assert FrameRules.HasAllRolls([ALL_PINS], false);
      assert Mark(StrikeFrames(j), ALL_PINS) == Ok(StrikeFrames(j + 1)) by {
        assert StrikeFrames(j) + [[ALL_PINS]] == StrikeFrames(j + 1);
      }
      StrikesMarked(j + 1, m - 1);
      assert Strikes(m) == [ALL_PINS] + Strikes(m - 1);
      MarkAllFirst(StrikeFrames(j), ALL_PINS, Strikes(m - 1));
    }
  }

  /** The sheet of a perfect game: nine strikes and three strikes in the
   *  tenth frame. */
  function PerfectSheet(): Sheet {
    StrikeFrames(NUMBER_OF_FRAMES - 1) + [[ALL_PINS, ALL_PINS, ALL_PINS]]
  }

  /** A second strike in the tenth frame joins the first one. */
  lemma TenthFrameSecondStrike()
    ensures Mark(StrikeFrames(NUMBER_OF_FRAMES), ALL_PINS) ==
              Ok(StrikeFrames(NUMBER_OF_FRAMES - 1) + [[ALL_PINS, ALL_PINS]])
  {
    var nine := StrikeFrames(NUMBER_OF_FRAMES - 1);
    var tenth := StrikeFrames(NUMBER_OF_FRAMES);
    assert [ALL_PINS] + [ALL_PINS] == [ALL_PINS, ALL_PINS];
    assert tenth[9 := [ALL_PINS, ALL_PINS]] == nine + [[ALL_PINS, ALL_PINS]];
  }

  /** A third strike in the tenth frame completes the perfect sheet. */
  lemma TenthFrameThirdStrike()
    ensures Mark(StrikeFrames(NUMBER_OF_FRAMES - 1) + [[ALL_PINS, ALL_PINS]], ALL_PINS) ==
              Ok(PerfectSheet())
  {
    var ninth := StrikeFrames(NUMBER_OF_FRAMES - 1) + [[ALL_PINS, ALL_PINS]];
    assert [ALL_PINS, ALL_PINS] + [ALL_PINS] == [ALL_PINS, ALL_PINS, ALL_PINS];
    assert ninth[9 := [ALL_PINS, ALL_PINS, ALL_PINS]] == PerfectSheet();
  }

  /** Twelve strikes fill the sheet of a perfect game: the tenth frame is
   *  racked again after each of its first two strikes. */
  lemma PerfectMarked()
    ensures MarkAll([[]], Strikes(12)) == Ok(PerfectSheet())
  {
    FirstRollOfFrame(ALL_PINS);
    assert Mark([[]], ALL_PINS) == Ok(StrikeFrames(1)) by {
      assert [] + [ALL_PINS] == [ALL_PINS];
      assert [[]][0 := [ALL_PINS]] == StrikeFrames(1);
    }
    StrikesMarked(1, 9);
    var tenth := StrikeFrames(NUMBER_OF_FRAMES);
    var ninth := StrikeFrames(NUMBER_OF_FRAMES - 1) + [[ALL_PINS, ALL_PINS]];
    TenthFrameSecondStrike();
    TenthFrameThirdStrike();
    MarkAllFirst(ninth, ALL_PINS, []);
    assert [ALL_PINS] + [] == [ALL_PINS];
    assert MarkAll(ninth, [ALL_PINS]) == Ok(PerfectSheet());
    MarkAllFirst(tenth, ALL_PINS, [ALL_PINS]);
    assert [ALL_PINS] + [ALL_PINS] == [ALL_PINS, ALL_PINS];
    assert MarkAll(tenth, [ALL_PINS, ALL_PINS]) == Ok(PerfectSheet());
    MarkAllAppend(StrikeFrames(1), Strikes(9), [ALL_PINS, ALL_PINS]);
    assert MarkAll(StrikeFrames(1), Strikes(9) + [ALL_PINS, ALL_PINS]) == Ok(PerfectSheet());
    assert Strikes(12) == [ALL_PINS] + (Strikes(9) + [ALL_PINS, ALL_PINS]);
    MarkAllFirst([[]], ALL_PINS, Strikes(9) + [ALL_PINS, ALL_PINS]);
  }

  /** While every earlier frame holds a single roll, frame n starts at roll n. */
  lemma {:induction false} SingleRollFramesStart(g: GameState, chain: seq<int>, sheet: Sheet, n: nat)
    requires At(g, chain, sheet) && chain != [] && n < |sheet|
    requires forall i :: 0 <= i < n ==> |sheet[i]| == 1
    ensures g.layout[n].first == Some(n)
  {
    if n > 0 {
      SingleRollFramesStart(g, chain, sheet, n - 1);
      assert |SpanRolls(g.layout[n - 1], g.chain)| == 1;
      assert g.layout[n - 1].last == Some(n - 1);
      assert g.layout[n].first.Some?;
    }
  }

  /** In a perfect game every frame scores ten plus the next two strikes. */
  lemma PerfectFrameScore(g: GameState, i: nat)
    requires At(g, Strikes(12), PerfectSheet()) && i < NUMBER_OF_FRAMES
    ensures FrameScore(g, i) == 3 * ALL_PINS
  {
    var sheet := PerfectSheet();
    SingleRollFramesStart(g, g.chain, sheet, i);
    assert SpanRolls(g.layout[i], g.chain) == sheet[i];
    Frames.ScoreOfStrike(g.chain, g.layout[i].first, g.layout[i].last);
  }

  lemma {:induction false} PerfectScoreThrough(g: GameState, n: nat)
    requires At(g, Strikes(12), PerfectSheet()) && n <= NUMBER_OF_FRAMES
    ensures ScoreThrough(g, n) == n * 3 * ALL_PINS
  {
    if n > 0 {
      PerfectScoreThrough(g, n - 1);
      PerfectFrameScore(g, n - 1);
    }
  }

  /** Twelve strikes make a perfect game: every roll is accepted, the game is
   *  then finished and refuses any further roll, and it scores 300. */
  lemma PerfectGame()
    ensures Play(NewGame(), Strikes(12)).Ok?
    ensures Finished(Play(NewGame(), Strikes(12)).value)
    ensures forall pins :: IsPins(pins) ==>
              AddRollTo(Play(NewGame(), Strikes(12)).value, pins) == Err(GameFinished)
    ensures TotalScore(Play(NewGame(), Strikes(12)).value) == 300
  {
    PerfectGameShowsSheet();
    var g := Play(NewGame(), Strikes(12)).value;
    PerfectGameFinished(g);
    PerfectScoreThrough(g, NUMBER_OF_FRAMES);
  }

  lemma PerfectGameFinished(g: GameState)
    requires At(g, Strikes(12), PerfectSheet())
    ensures Finished(g)
  {
    assert SpanRolls(g.layout[9], g.chain) == PerfectSheet()[9];
  }

  lemma PerfectGameShowsSheet()
    ensures Play(NewGame(), Strikes(12)).Ok?
    ensures At(Play(NewGame(), Strikes(12)).value, Strikes(12), PerfectSheet())
  {
    PlayFromNewGame(Strikes(12));
    PerfectMarked();
  }

  /** A game that took `MAX_ROLLS` rolls is finished and refuses one more;
   *  one that took fewer than `MIN_ROLLS` still accepts a 0. */
  lemma RandomGameRollLimits(rolls: seq<int>)
    requires forall k :: 0 <= k < |rolls| ==> IsPins(rolls[k])
    requires Play(NewGame(), rolls).Ok?
    ensures |rolls| == MAX_ROLLS ==> AddRollTo(Play(NewGame(), rolls).value, 0) == Err(GameFinished)
    ensures |rolls| < MIN_ROLLS ==> AddRollTo(Play(NewGame(), rolls).value, 0).Ok?
  {
    var g := Play(NewGame(), rolls).value;
    PlayFromNewGame(rolls);
    RollsBound(g);
  }
}
