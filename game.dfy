/**
 * The game session: the shuffled cards, which of them are face up or
 * matched, the pending selection, the move counter, whose turn it is and
 * both players' scores, with the click, match, mismatch and reset
 * transitions that update them in place.
 */
module Game {
  import opened Rules
  import opened Deck

  /**
   * What a card element shows. `Flipped` is the `flipped` class alone;
   * `Matched` stands for a card carrying both `flipped` and `matched`,
   * since a matched card is never turned back.
   */
  datatype CardState = FaceDown | Flipped | Matched

  datatype Option<T> = None | Some(value: T)

  /** How many cards are in state `c`. */
  function Count(faces: seq<CardState>, c: CardState): (n: nat)
    ensures n <= |faces|
  {
    if faces == [] then 0 else (if faces[0] == c then 1 else 0) + Count(faces[1..], c)
  }

  /** Changing one card's state moves it from one tally to another. */
  lemma {:induction false} CountUpdate(faces: seq<CardState>, i: nat, v: CardState, c: CardState)
    requires i < |faces|
    ensures Count(faces[i := v], c) ==
            Count(faces, c) - (if faces[i] == c then 1 else 0) + (if v == c then 1 else 0)
  {
    if i == 0 {
      assert faces[i := v][1..] == faces[1..];
    } else {
      assert faces[i := v][1..] == faces[1..][i - 1 := v];
      CountUpdate(faces[1..], i - 1, v, c);
    }
  }

  /** Every card is in state `c` exactly when the tally of `c` is the number of cards. */
  lemma {:induction false} CountAll(faces: seq<CardState>, c: CardState)
    ensures Count(faces, c) == |faces| <==> forall i :: 0 <= i < |faces| ==> faces[i] == c
  {
    if faces != [] {
      CountAll(faces[1..], c);
      assert forall i :: 1 <= i < |faces| ==> faces[i] == faces[1..][i - 1];
    }
  }

  /** No card is in state `c` exactly when the tally of `c` is zero. */
  lemma {:induction false} CountNone(faces: seq<CardState>, c: CardState)
    ensures Count(faces, c) == 0 <==> forall i :: 0 <= i < |faces| ==> faces[i] != c
  {
    if faces != [] {
      CountNone(faces[1..], c);
      assert forall i :: 1 <= i < |faces| ==> faces[i] == faces[1..][i - 1];
    }
  }

  /**
   * The guard of `handleCardClick`: a click counts unless the card is
   * already flipped or matched, or two cards are already pending.
   */
  predicate Clickable(faces: seq<CardState>, pending: nat, idx: nat)
    requires idx < |faces|
  {
    !(faces[idx] == Flipped || faces[idx] == Matched || pending == 2)
  }

  /**
   * Once the game-over test of `checkForMatch` holds (as many matched cards
   * as cards), no click is accepted any more.
   */
  lemma FinishedRejectsClicks(faces: seq<CardState>, pending: nat, idx: nat)
    requires idx < |faces| && Count(faces, Matched) == |faces|
    ensures !Clickable(faces, pending, idx)
  {
    CountAll(faces, Matched);
  }

  /** A clickable card is face down, and the selection is not full. */
  lemma ClickableFaceDown(faces: seq<CardState>, pending: nat, idx: nat)
    requires idx < |faces| && pending <= 2
    ensures Clickable(faces, pending, idx) <==> faces[idx] == FaceDown && pending < 2
  {
  }

  class Session {
    /** `cards`: the symbol at each grid position, after shuffling. */
    var cards: seq<Symbol>
    /** The `flipped` and `matched` classes of each card element. */
    var faces: seq<CardState>
    /** `flippedCards`: the positions turned up and not yet resolved, in click order. */
    var flippedCards: seq<nat>
    var moves: nat
    var currentPlayer: Player
    var playerScores: map<Player, nat>

    /**
     * The shape every reachable session has: one state per card, at most
     * two pending cards, distinct and in range, and a card is flipped
     * exactly when it is pending.
     */
    ghost predicate WellFormed()
      reads this
    {
      && |faces| == |cards|
      && |flippedCards| <= 2
      && (forall k :: 0 <= k < |flippedCards| ==> flippedCards[k] < |cards|)
      && (|flippedCards| == 2 ==> flippedCards[0] != flippedCards[1])
      && (forall i :: 0 <= i < |faces| ==> (faces[i] == Flipped <==> i in flippedCards))
      && 1 in playerScores && 2 in playerScores && currentPlayer in playerScores
    }

    /**
     * Between events: two cards are still pending only while their mismatch
     * waits to be turned back, since a match is resolved at once.
     */
    ghost predicate Valid()
      reads this
    {
      WellFormed() &&
      (|flippedCards| == 2 ==> cards[flippedCards[0]] != cards[flippedCards[1]])
    }

    /** Each scored pair is two matched cards, and every matched card was scored. */
    ghost predicate ScoresAgree()
      reads this
    {
      1 in playerScores && 2 in playerScores &&
      2 * (playerScores[1] + playerScores[2]) == Count(faces, Matched)
    }

    /**
     * `initializeGame` on a freshly loaded page, for a grid the start
     * button accepted: one picture per pair taken cyclically from the pool,
     * the pictures doubled, shuffled with the index choices `js`, every card
     * face down, and `resetGameInfo`'s counters.
     */
    constructor (rows: int, cols: int, js: seq<nat>)
      requires ValidGrid(rows, cols)
      requires |js| == rows * cols && ValidChoices(js)
      ensures Valid() && ScoresAgree()
      ensures |cards| == rows * cols
      ensures exists sel :: Cyclic(sel, rows * cols / 2, AnimalImages) &&
                            multiset(cards) == multiset(sel + sel) &&
                            cards == FisherYates(sel + sel, js, rows * cols - 1)
      ensures forall x :: x in cards ==> multiset(cards)[x] % 2 == 0 && multiset(cards)[x] >= 2
      ensures rows * cols <= 20 ==> forall x :: x in cards ==> multiset(cards)[x] == 2
      ensures forall i :: 0 <= i < |faces| ==> faces[i] == FaceDown
      ensures flippedCards == [] && moves == 0 && currentPlayer == 1
      ensures playerScores == map[1 := 0, 2 := 0]
    {
      var totalCards := rows * cols;
      ValidGridCards(rows, cols);
      var dealt := DealCards(totalCards, js);
      var down := seq(|dealt|, _ => FaceDown);
      CountNone(down, Matched);
      cards := dealt;
      faces := down;
      flippedCards := [];
      moves := 0;
      currentPlayer := 1;
      playerScores := map[1 := 0, 2 := 0];
    }

    /**
     * `handleCardClick` on the card at `idx`. A click on a flipped or
     * matched card, or while two cards are pending, changes nothing.
     * Otherwise the card turns up and joins the selection; the second card
     * counts a move and is checked against the first at once. `verdict` is
     * the announced result when that check matched the last pair.
     */
    method HandleCardClick(idx: nat) returns (accepted: bool, verdict: Option<Outcome>)
      requires Valid() && idx < |cards|
      modifies this
      ensures Valid()
      ensures old(ScoresAgree()) ==> ScoresAgree()
      ensures accepted == Clickable(old(faces), |old(flippedCards)|, idx)
      ensures cards == old(cards) && currentPlayer == old(currentPlayer)
      ensures moves == old(moves) + (if accepted && |old(flippedCards)| == 1 then 1 else 0)
      ensures !accepted ==>
                faces == old(faces) && flippedCards == old(flippedCards) &&
                playerScores == old(playerScores) && verdict == None
      ensures accepted && old(flippedCards) == [] ==>
                faces == old(faces)[idx := Flipped] && flippedCards == [idx] &&
                playerScores == old(playerScores) && verdict == None
      ensures accepted && |old(flippedCards)| == 1 ==>
                var first := old(flippedCards)[0];
                if cards[first] == cards[idx] then
                  && faces == old(faces)[first := Matched][idx := Matched]
                  && flippedCards == []
                  && playerScores == old(playerScores)[currentPlayer := old(playerScores)[currentPlayer] + 1]
                  && (verdict.Some? <==> forall i :: 0 <= i < |faces| ==> faces[i] == Matched)
                  && (verdict.Some? ==> verdict.value == Winner(playerScores[1], playerScores[2]))
                else
                  && faces == old(faces)[idx := Flipped]
                  && flippedCards == [first, idx]
                  && playerScores == old(playerScores)
                  && verdict == None
    {
      verdict := None;
      if faces[idx] == Flipped || faces[idx] == Matched || |flippedCards| == 2 {
        accepted := false;
        return;
      }
      accepted := true;
      CountUpdate(faces, idx, Flipped, Matched);
      flippedCards := flippedCards + [idx];
      faces := faces[idx := Flipped];
      if |flippedCards| == 2 {
        moves := moves + 1;
        verdict := CheckForMatch();
      }
    }

    /**
     * `checkForMatch` on the two pending cards. Equal symbols: both become
     * matched, the current player scores and keeps the turn, the selection
     * clears, and when every card is matched the winner is announced.
     * Different symbols: nothing changes until `ResolveMismatch` fires.
     */
    method CheckForMatch() returns (verdict: Option<Outcome>)
      requires WellFormed() && |flippedCards| == 2
      modifies this`faces, this`flippedCards, this`playerScores
      ensures Valid()
      ensures old(ScoresAgree()) ==> ScoresAgree()
      ensures var c1, c2 := old(flippedCards)[0], old(flippedCards)[1];
              if cards[c1] == cards[c2] then
                && faces == old(faces)[c1 := Matched][c2 := Matched]
                && flippedCards == []
                && playerScores == old(playerScores)[currentPlayer := old(playerScores)[currentPlayer] + 1]
                && (verdict.Some? <==> forall i :: 0 <= i < |faces| ==> faces[i] == Matched)
                && (verdict.Some? ==> verdict.value == Winner(playerScores[1], playerScores[2]))
              else
                && faces == old(faces) && flippedCards == old(flippedCards)
                && playerScores == old(playerScores) && verdict == None
    {
      verdict := None;
      var card1, card2 := flippedCards[0], flippedCards[1];
      if cards[card1] == cards[card2] {
        CountUpdate(faces, card1, Matched, Matched);
        CountUpdate(faces[card1 := Matched], card2, Matched, Matched);
        faces := faces[card1 := Matched][card2 := Matched];
        playerScores := playerScores[currentPlayer := playerScores[currentPlayer] + 1];
        flippedCards := [];
        CountAll(faces, Matched);
        if Count(faces, Matched) == |cards| {
          verdict := Some(Winner(playerScores[1], playerScores[2]));
        }
      }
    }

    /**
     * The body of the mismatch timeout: the two pending cards turn back
     * face down, the selection clears and the turn passes.
     */
    method ResolveMismatch()
      requires Valid() && |flippedCards| == 2
      modifies this`faces, this`flippedCards, this`currentPlayer
      ensures Valid()
      ensures old(ScoresAgree()) ==> ScoresAgree()
      ensures faces == old(faces)[old(flippedCards)[0] := FaceDown][old(flippedCards)[1] := FaceDown]
      ensures flippedCards == []
      ensures currentPlayer == Other(old(currentPlayer))
    {
      var card1, card2 := flippedCards[0], flippedCards[1];
      CountUpdate(faces, card1, FaceDown, Matched);
      CountUpdate(faces[card1 := FaceDown], card2, FaceDown, Matched);
      faces := faces[card1 := FaceDown][card2 := FaceDown];
      flippedCards := [];
      SwitchPlayer();
    }

    /** `switchPlayer`. */
    method SwitchPlayer()
      modifies this`currentPlayer
      ensures currentPlayer == Other(old(currentPlayer))
    {
      currentPlayer := Other(currentPlayer);
    }

    /**
     * `resetGameInfo`: no moves, both scores zero, player 1 to play; the
     * cards and the pending selection are left as they are, so scores and
     * matched cards agree afterwards only if no card was matched.
     */
    method ResetGameInfo()
      modifies this`moves, this`playerScores, this`currentPlayer
      ensures moves == 0 && currentPlayer == 1
      ensures playerScores == map[1 := 0, 2 := 0]
      ensures old(Valid()) ==> Valid()
      ensures ScoresAgree() <==> Count(faces, Matched) == 0
    {
      moves := 0;
      playerScores := map[1 := 0, 2 := 0];
      currentPlayer := 1;
    }
  }

  /**
   * The start button: a grid outside 2..10 on either side, or with an odd
   * number of cards, is refused (the source alerts and stays on the welcome
   * screen); otherwise a game is initialised.
   */
  method StartGame(rows: int, cols: int, js: seq<nat>) returns (session: Option<Session>)
    requires ValidGrid(rows, cols) ==> |js| == rows * cols && ValidChoices(js)
    ensures session.None? <==> !ValidGrid(rows, cols)
    ensures session.Some? ==>
              && fresh(session.value)
              && session.value.Valid() && session.value.ScoresAgree()
              && |session.value.cards| == rows * cols
              && (exists sel :: Cyclic(sel, rows * cols / 2, AnimalImages) &&
                                multiset(session.value.cards) == multiset(sel + sel) &&
                                session.value.cards == FisherYates(sel + sel, js, rows * cols - 1))
              && (forall x :: x in session.value.cards ==>
                    multiset(session.value.cards)[x] % 2 == 0 && multiset(session.value.cards)[x] >= 2)
              && (rows * cols <= 20 ==>
                    forall x :: x in session.value.cards ==> multiset(session.value.cards)[x] == 2)
              && (forall i :: 0 <= i < |session.value.faces| ==> session.value.faces[i] == FaceDown)
              && session.value.flippedCards == [] && session.value.moves == 0
              && session.value.currentPlayer == 1
              && session.value.playerScores == map[1 := 0, 2 := 0]
  {
    if ValidGrid(rows, cols) {
      var s := new Session(rows, cols, js);
      session := Some(s);
    } else {
      session := None;
    }
  }

  /**
   * A whole game on a 2 x 2 grid whose shuffle leaves the deck as dealt,
   * cat, dog, cat, dog: player 1 misses, player 2 then finds both pairs.
   */
  method TwoPlayerGame()
  {
    var js := [0, 1, 2, 3];
    var s := new Session(2, 2, js);
    ghost var sel: seq<Symbol> :| Cyclic(sel, 2, AnimalImages) && s.cards == FisherYates(sel + sel, js, 3);
    FisherYatesFixed(sel + sel, js, 3);
    assert sel == ["cat.png", "dog.png"];
    PlayerOneMisses(s);
    PlayerTwoSweeps(s);
  }

  /** Player 1 turns up a cat and a dog; the reveal ends and player 2 is on. */
  method PlayerOneMisses(s: Session)
    requires s.Valid() && s.ScoresAgree()
    requires s.cards == ["cat.png", "dog.png", "cat.png", "dog.png"]
    requires s.faces == [FaceDown, FaceDown, FaceDown, FaceDown]
    requires s.flippedCards == [] && s.moves == 0 && s.currentPlayer == 1
    requires s.playerScores == map[1 := 0, 2 := 0]
    modifies s
    ensures s.Valid() && s.ScoresAgree()
    ensures s.cards == ["cat.png", "dog.png", "cat.png", "dog.png"]
    ensures s.faces == [FaceDown, FaceDown, FaceDown, FaceDown]
    ensures s.flippedCards == [] && s.moves == 1 && s.currentPlayer == 2
    ensures s.playerScores == map[1 := 0, 2 := 0]
  {
    var ok, verdict := s.HandleCardClick(0);
    assert ok && s.flippedCards == [0];
    ok, verdict := s.HandleCardClick(1);
    assert ok && verdict == None && s.moves == 1 && s.flippedCards == [0, 1];
    // While the mismatch is shown, further clicks are ignored.
    ok, verdict := s.HandleCardClick(2);
    assert !ok;
    s.ResolveMismatch();
  }

  /** Player 2 finds both cats, keeps the turn, finds both dogs and wins. */
  method PlayerTwoSweeps(s: Session)
    requires s.Valid() && s.ScoresAgree()
    requires s.cards == ["cat.png", "dog.png", "cat.png", "dog.png"]
    requires s.faces == [FaceDown, FaceDown, FaceDown, FaceDown]
    requires s.flippedCards == [] && s.moves == 1 && s.currentPlayer == 2
    requires s.playerScores == map[1 := 0, 2 := 0]
    modifies s
  {
    var ok, verdict := s.HandleCardClick(0);
    assert ok && s.flippedCards == [0];
    ok, verdict := s.HandleCardClick(2);
    assert ok && s.moves == 2 && s.playerScores == map[1 := 0, 2 := 1] && s.currentPlayer == 2;
    assert s.faces == [Matched, FaceDown, Matched, FaceDown];
    assert verdict == None;
    ok, verdict := s.HandleCardClick(1);
    assert ok && s.flippedCards == [1];
    ok, verdict := s.HandleCardClick(3);
    assert ok && s.moves == 3 && s.playerScores == map[1 := 0, 2 := 2];
    assert s.faces == [Matched, Matched, Matched, Matched];
    assert verdict == Some(Wins(2));
  }
}
