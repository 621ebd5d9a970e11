/** ScoreSheets: the game reduced to what a score sheet shows — the rolls of
 *  each frame from the first through the current one — and the proof that
 *  `addRoll` on the full game state agrees with marking the sheet. */
module ScoreSheets {
  import opened Rolls
  import opened GameRules
  import FrameRules

  /** The rolls of frames 0..cur, one list per frame. */
  type Sheet = seq<seq<int>>

  predicate IsSheet(sheet: Sheet) {
    1 <= |sheet| <= NUMBER_OF_FRAMES
  }

  /** One more roll marked on the sheet by the ten-pin rules of
   *  `FrameRules.TenPinFrame` alone. The current frame takes the roll when
   *  its rolls with the roll added still make a ten-pin frame. A frame that
   *  would not take even a miss is complete: after the tenth frame the game
   *  is over (GameFinished), otherwise the roll opens the next frame. Any
   *  other roll is refused (InvalidRoll). */
  function Mark(sheet: Sheet, roll: int): (r: Result<Sheet>)
    requires IsSheet(sheet)
    ensures r.Ok? ==> IsSheet(r.value) && |sheet| <= |r.value| <= |sheet| + 1
    ensures r.Ok? ==> FrameRules.TenPinFrame(r.value[|r.value| - 1], |r.value| == NUMBER_OF_FRAMES)
    ensures r.Err? ==> r.error == GameFinished || r.error == InvalidRoll
  {
    var cur := |sheet| - 1;
    var isLast := cur == NUMBER_OF_FRAMES - 1;
    if !FrameRules.TenPinFrame(sheet[cur] + [0], isLast) then
      if isLast then Err(GameFinished)
      else if !FrameRules.TenPinFrame([roll], false) then Err(InvalidRoll)
      else Ok(sheet + [[roll]])
    else if !FrameRules.TenPinFrame(sheet[cur] + [roll], isLast) then Err(InvalidRoll)
    else Ok(sheet[cur := sheet[cur] + [roll]])
  }

  /** On a sheet whose current frame the game could have produced, marking a
   *  roll follows the game's own rules: GameFinished after a complete tenth
   *  frame, the next frame after another complete frame, and otherwise the
   *  current frame when the roll fits the pins standing. */
  lemma MarkByGameRules(sheet: Sheet, roll: int)
    requires IsSheet(sheet) && IsPins(roll)
    requires FrameRules.Legal(sheet[|sheet| - 1], |sheet| == NUMBER_OF_FRAMES)
    ensures var cur := |sheet| - 1;
            var isLast := cur == NUMBER_OF_FRAMES - 1;
            Mark(sheet, roll) ==
              if FrameRules.HasAllRolls(sheet[cur], isLast) then
                if isLast then Err(GameFinished) else Ok(sheet + [[roll]])
              else if roll > FrameRules.PinsUp(sheet[cur], isLast) then Err(InvalidRoll)
              else Ok(sheet[cur := sheet[cur] + [roll]])
  {
    var cur := |sheet| - 1;
    var isLast := cur == NUMBER_OF_FRAMES - 1;
    FrameRules.TenPinAppend(sheet[cur], isLast, 0);
    FrameRules.TenPinAppend(sheet[cur], isLast, roll);
    if !FrameRules.HasAllRolls(sheet[cur], isLast) {
      FrameRules.PinsUpWhileOpen(sheet[cur], isLast);
    }
    assert [] + [roll] == [roll];
    FrameRules.TenPinAppend([], false, roll);
  }

  /** The rolls marked one by one: the sheet reached, or the first refusal. */
  function MarkAll(sheet: Sheet, rolls: seq<int>): (r: Result<Sheet>)
    requires IsSheet(sheet)
    ensures r.Ok? ==> IsSheet(r.value)
    decreases |rolls|
  {
    if rolls == [] then Ok(sheet)
    else
      var step := Mark(sheet, rolls[0]);
      if step.Err? then step else MarkAll(step.value, rolls[1..])
  }

  /** The game has made the rolls `chain`, and its frames 0..cur hold the
   *  rolls the sheet shows. */
  predicate At(g: GameState, chain: seq<int>, sheet: Sheet) {
    Consistent(g) && g.chain == chain && |sheet| == g.cur + 1 &&
    forall i :: 0 <= i < |sheet| ==> SpanRolls(g.layout[i], g.chain) == sheet[i]
  }

  /** A new game shows a sheet with one empty frame. */
  lemma NewGameAt()
    ensures At(NewGame(), [], [[]])
  {
    var g := NewGame();
    assert SpanRolls(g.layout[0], g.chain) == [];
  }

  /** The current frame on the sheet of a game is one the game produced. */
  lemma SheetFrameLegal(g: GameState, chain: seq<int>, sheet: Sheet)
    requires At(g, chain, sheet)
    ensures IsSheet(sheet)
    ensures FrameRules.Legal(sheet[|sheet| - 1], |sheet| == NUMBER_OF_FRAMES)
  {
    assert SpanRolls(g.layout[g.cur], g.chain) == sheet[g.cur];
  }

  /** A roll into the open current frame joins that frame, on the game and on
   *  the sheet alike. */
  lemma RollIntoCurrent(g: GameState, chain: seq<int>, sheet: Sheet, roll: int)
    requires At(g, chain, sheet) && IsPins(roll)
    requires !FrameRules.HasAllRolls(sheet[g.cur], g.cur == NUMBER_OF_FRAMES - 1)
    requires roll <= FrameRules.PinsUp(sheet[g.cur], g.cur == NUMBER_OF_FRAMES - 1)
    ensures Mark(sheet, roll) == Ok(sheet[g.cur := sheet[g.cur] + [roll]])
    ensures AddRollTo(g, roll).Ok?
    ensures At(AddRollTo(g, roll).value, chain + [roll], sheet[g.cur := sheet[g.cur] + [roll]])
  {
    SheetFrameLegal(g, chain, sheet);
    MarkByGameRules(sheet, roll);
    StaysInCurrent(g, chain, sheet, roll);
    CurrentFrameGrows(g, chain, sheet, roll);
  }

  /** The roll is accepted and the cursor stays on the open current frame. */
  lemma StaysInCurrent(g: GameState, chain: seq<int>, sheet: Sheet, roll: int)
    requires At(g, chain, sheet) && IsPins(roll)
    requires !FrameRules.HasAllRolls(sheet[g.cur], g.cur == NUMBER_OF_FRAMES - 1)
    requires roll <= FrameRules.PinsUp(sheet[g.cur], g.cur == NUMBER_OF_FRAMES - 1)
    ensures AddRollTo(g, roll).Ok? && AddRollTo(g, roll).value.cur == g.cur
  {
    assert SpanRolls(g.layout[g.cur], g.chain) == sheet[g.cur];
    assert g.layout[g.cur].isLast == (g.cur == NUMBER_OF_FRAMES - 1);
    assert NextFrame(g) == Some(g.cur);
  }

  /** A roll that stays in the current frame adds to that frame's rolls only. */
  lemma CurrentFrameGrows(g: GameState, chain: seq<int>, sheet: Sheet, roll: int)
    requires At(g, chain, sheet) && IsPins(roll)
    requires AddRollTo(g, roll).Ok? && AddRollTo(g, roll).value.cur == g.cur
    ensures At(AddRollTo(g, roll).value, chain + [roll], sheet[g.cur := sheet[g.cur] + [roll]])
  {
    RollJoinsFrame(g, roll);
    var r := AddRollTo(g, roll).value;
    var after := sheet[g.cur := sheet[g.cur] + [roll]];
    forall i | 0 <= i < |after|
      ensures SpanRolls(r.layout[i], r.chain) == after[i]
    {
      assert SpanRolls(g.layout[i], g.chain) == sheet[i];
    }
  }

  /** A roll after a complete frame that is not the tenth opens the next
   *  frame, on the game and on the sheet alike. */
  lemma RollIntoNext(g: GameState, chain: seq<int>, sheet: Sheet, roll: int)
    requires At(g, chain, sheet) && IsPins(roll) && g.cur < NUMBER_OF_FRAMES - 1
    requires FrameRules.HasAllRolls(sheet[g.cur], false)
    ensures Mark(sheet, roll) == Ok(sheet + [[roll]])
    ensures AddRollTo(g, roll).Ok?
    ensures At(AddRollTo(g, roll).value, chain + [roll], sheet + [[roll]])
  {
    SheetFrameLegal(g, chain, sheet);
    MarkByGameRules(sheet, roll);
    MovesToNext(g, chain, sheet, roll);
    NextFrameOpens(g, chain, sheet, roll);
  }

  /** The roll is accepted and the cursor moves to the next, empty frame. */
  lemma MovesToNext(g: GameState, chain: seq<int>, sheet: Sheet, roll: int)
    requires At(g, chain, sheet) && IsPins(roll) && g.cur < NUMBER_OF_FRAMES - 1
    requires FrameRules.HasAllRolls(sheet[g.cur], false)
    ensures AddRollTo(g, roll).Ok? && AddRollTo(g, roll).value.cur == g.cur + 1
    ensures SpanRolls(g.layout[g.cur + 1], g.chain) == []
  {
    assert SpanRolls(g.layout[g.cur], g.chain) == sheet[g.cur];
    assert !g.layout[g.cur].isLast;
    assert NextFrame(g) == Some(g.cur + 1);
  }

  /** A roll that opens the next frame is that frame's only roll. */
  lemma NextFrameOpens(g: GameState, chain: seq<int>, sheet: Sheet, roll: int)
    requires At(g, chain, sheet) && IsPins(roll)
    requires AddRollTo(g, roll).Ok? && AddRollTo(g, roll).value.cur == g.cur + 1
    requires SpanRolls(g.layout[g.cur + 1], g.chain) == []
    ensures At(AddRollTo(g, roll).value, chain + [roll], sheet + [[roll]])
  {
    RollJoinsFrame(g, roll);
    var r := AddRollTo(g, roll).value;
    var after := sheet + [[roll]];
    forall i | 0 <= i < |after|
      ensures SpanRolls(r.layout[i], r.chain) == after[i]
    {
      if i <= g.cur {
        assert SpanRolls(g.layout[i], g.chain) == sheet[i];
      }
    }
  }

  /** Once the tenth frame is complete, both refuse with GameFinished. */
  lemma MarkAfterTenth(g: GameState, chain: seq<int>, sheet: Sheet, roll: int)
    requires At(g, chain, sheet) && IsPins(roll) && g.cur == NUMBER_OF_FRAMES - 1
    requires FrameRules.HasAllRolls(sheet[g.cur], true)
    ensures Mark(sheet, roll) == Err(GameFinished)
    ensures AddRollTo(g, roll) == Err(GameFinished)
  {
    SheetFrameLegal(g, chain, sheet);
    MarkByGameRules(sheet, roll);
    assert SpanRolls(g.layout[g.cur], g.chain) == sheet[g.cur];
  }

  /** A roll felling more pins than stand in the open current frame is
   *  refused by both with InvalidRoll. */
  lemma MarkTooMany(g: GameState, chain: seq<int>, sheet: Sheet, roll: int)
    requires At(g, chain, sheet) && IsPins(roll)
    requires !FrameRules.HasAllRolls(sheet[g.cur], g.cur == NUMBER_OF_FRAMES - 1)
    requires roll > FrameRules.PinsUp(sheet[g.cur], g.cur == NUMBER_OF_FRAMES - 1)
    ensures Mark(sheet, roll) == Err(InvalidRoll)
    ensures AddRollTo(g, roll) == Err(InvalidRoll)
  {
    SheetFrameLegal(g, chain, sheet);
    MarkByGameRules(sheet, roll);
    assert SpanRolls(g.layout[g.cur], g.chain) == sheet[g.cur];
    assert g.layout[g.cur].isLast == (g.cur == NUMBER_OF_FRAMES - 1);
    assert NextFrame(g) == Some(g.cur);
  }

  /** The frame the next roll goes in, read off the sheet: the current frame
   *  while it is open, else the next one, and none after a complete tenth
   *  frame. */
  lemma NextFrameOnSheet(g: GameState, chain: seq<int>, sheet: Sheet)
    requires At(g, chain, sheet)
    ensures var cur := |sheet| - 1;
            NextFrame(g) ==
              if !FrameRules.HasAllRolls(sheet[cur], cur == NUMBER_OF_FRAMES - 1) then Some(cur)
              else if cur == NUMBER_OF_FRAMES - 1 then None
              else Some(cur + 1)
  {
    assert SpanRolls(g.layout[g.cur], g.chain) == sheet[g.cur];
  }

  /** `AddRollTo` and `Mark` agree: the same refusal, or a game that shows the
   *  marked sheet. */
  lemma MarkMatches(g: GameState, chain: seq<int>, sheet: Sheet, roll: int)
    requires At(g, chain, sheet) && IsPins(roll)
    ensures IsSheet(sheet)
    ensures AddRollTo(g, roll).Ok? <==> Mark(sheet, roll).Ok?
    ensures AddRollTo(g, roll).Err? ==> AddRollTo(g, roll).error == Mark(sheet, roll).error
    ensures AddRollTo(g, roll).Ok? ==> At(AddRollTo(g, roll).value, chain + [roll], Mark(sheet, roll).value)
  {
    var isLast := g.cur == NUMBER_OF_FRAMES - 1;
    if FrameRules.HasAllRolls(sheet[g.cur], isLast) {
      if isLast {
        MarkAfterTenth(g, chain, sheet, roll);
      } else {
        RollIntoNext(g, chain, sheet, roll);
      }
    } else if roll > FrameRules.PinsUp(sheet[g.cur], isLast) {
      MarkTooMany(g, chain, sheet, roll);
    } else {
      RollIntoCurrent(g, chain, sheet, roll);
    }
  }

  /** Playing a list of rolls whose first is accepted is playing the rest from
   *  the game that first roll leads to. */
  lemma PlayAfterFirst(g: GameState, rolls: seq<int>)
    requires Consistent(g) && rolls != []
    requires forall k :: 0 <= k < |rolls| ==> IsPins(rolls[k])
    requires AddRollTo(g, rolls[0]).Ok?
    ensures Play(g, rolls) == Play(AddRollTo(g, rolls[0]).value, rolls[1..])
  {
  }

  /** Likewise on the sheet. */
  lemma MarkAllAfterFirst(sheet: Sheet, rolls: seq<int>)
    requires IsSheet(sheet) && rolls != []
    requires Mark(sheet, rolls[0]).Ok?
    ensures MarkAll(sheet, rolls) == MarkAll(Mark(sheet, rolls[0]).value, rolls[1..])
  {
  }

  /** A game result and a sheet result agree: the same refusal, or a game
   *  that has made the rolls `chain` and shows the sheet. */
  predicate Agree(game: Result<GameState>, sheet: Result<Sheet>, chain: seq<int>) {
    (game.Ok? <==> sheet.Ok?) &&
    (game.Err? ==> game.error == sheet.error) &&
    (game.Ok? ==> At(game.value, chain, sheet.value))
  }

  /** Agreement is about values: equal results agree alike. This and the two
   *  lemmas after `PlayAgrees` are unfolding steps for the proof of
   *  `PlayMatches`; they state nothing new. */
  lemma AgreeOnEquals(game: Result<GameState>, sheet: Result<Sheet>, chain: seq<int>,
                      game': Result<GameState>, sheet': Result<Sheet>, chain': seq<int>)
    requires Agree(game, sheet, chain)
    requires game == game' && sheet == sheet' && chain == chain'
    ensures Agree(game', sheet', chain')
  {
  }

  /** The agreement of `Play` and `MarkAll` on a list of rolls. */
  predicate PlayAgrees(g: GameState, chain: seq<int>, sheet: Sheet, rolls: seq<int>)
    requires Consistent(g) && IsSheet(sheet) && forall k :: 0 <= k < |rolls| ==> IsPins(rolls[k])
  {
    Agree(Play(g, rolls), MarkAll(sheet, rolls), chain + rolls)
  }

  /** Unfolding step: `PlayAgrees` read as its definition. */
  lemma PlayAgreesUnfolds(g: GameState, chain: seq<int>, sheet: Sheet, rolls: seq<int>)
    requires Consistent(g) && IsSheet(sheet) && forall k :: 0 <= k < |rolls| ==> IsPins(rolls[k])
    requires PlayAgrees(g, chain, sheet, rolls)
    ensures Agree(Play(g, rolls), MarkAll(sheet, rolls), chain + rolls)
  {
  }

  /** Folding step: the definition read back as `PlayAgrees`. */
  lemma PlayAgreesFolds(g: GameState, chain: seq<int>, sheet: Sheet, rolls: seq<int>)
    requires Consistent(g) && IsSheet(sheet) && forall k :: 0 <= k < |rolls| ==> IsPins(rolls[k])
    requires Agree(Play(g, rolls), MarkAll(sheet, rolls), chain + rolls)
    ensures PlayAgrees(g, chain, sheet, rolls)
  {
  }

  lemma AppendFirst(chain: seq<int>, rolls: seq<int>)
    requires rolls != []
    ensures chain + [rolls[0]] + rolls[1..] == chain + rolls
  {
    assert rolls == [rolls[0]] + rolls[1..];
  }

  /** When the first roll is refused, both stop with that refusal. */
  lemma PlayAgreesOnRefusal(g: GameState, chain: seq<int>, sheet: Sheet, rolls: seq<int>)
    requires Consistent(g) && IsSheet(sheet) && rolls != []
    requires forall k :: 0 <= k < |rolls| ==> IsPins(rolls[k])
    requires AddRollTo(g, rolls[0]).Err? && Mark(sheet, rolls[0]).Err?
    requires AddRollTo(g, rolls[0]).error == Mark(sheet, rolls[0]).error
    ensures PlayAgrees(g, chain, sheet, rolls)
  {
  }

  /** When the first roll is accepted by both, agreement on the rest from
   *  there is agreement on the whole list. */
  lemma PlayAgreesAfterFirst(g: GameState, chain: seq<int>, sheet: Sheet, rolls: seq<int>,
                             next: GameState, marked: Sheet)
    requires Consistent(g) && IsSheet(sheet) && rolls != []
    requires forall k :: 0 <= k < |rolls| ==> IsPins(rolls[k])
    requires AddRollTo(g, rolls[0]) == Ok(next) && Mark(sheet, rolls[0]) == Ok(marked)
    requires Consistent(next) && IsSheet(marked)
    requires PlayAgrees(next, chain + [rolls[0]], marked, rolls[1..])
    ensures PlayAgrees(g, chain, sheet, rolls)
  {
    PlayAgreesUnfolds(next, chain + [rolls[0]], marked, rolls[1..]);
    PlayAfterFirst(g, rolls);
    MarkAllAfterFirst(sheet, rolls);
    AppendFirst(chain, rolls);
    AgreeOnEquals(Play(next, rolls[1..]), MarkAll(marked, rolls[1..]), chain + [rolls[0]] + rolls[1..],
                  Play(g, rolls), MarkAll(sheet, rolls), chain + rolls);
    PlayAgreesFolds(g, chain, sheet, rolls);
  }

  /** `Play` and `MarkAll` agree: the same first refusal, or a game that shows
   *  the marked sheet and has made every roll. */
  lemma {:induction false} PlayMatches(g: GameState, chain: seq<int>, sheet: Sheet, rolls: seq<int>)
    requires At(g, chain, sheet) && forall k :: 0 <= k < |rolls| ==> IsPins(rolls[k])
    ensures IsSheet(sheet) && PlayAgrees(g, chain, sheet, rolls)
    decreases |rolls|
  {
    if rolls == [] {
      assert chain + rolls == chain;
    } else {
      MarkMatches(g, chain, sheet, rolls[0]);
      if AddRollTo(g, rolls[0]).Ok? {
        var next, marked := AddRollTo(g, rolls[0]).value, Mark(sheet, rolls[0]).value;
        PlayMatches(next, chain + [rolls[0]], marked, rolls[1..]);
        PlayAgreesAfterFirst(g, chain, sheet, rolls, next, marked);
      } else {
        PlayAgreesOnRefusal(g, chain, sheet, rolls);
      }
    }
  }
}
