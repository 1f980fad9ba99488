/**
 * Pure rules of the two-player memory game: the players and whose turn
 * follows whose, the grid sizes the start screen accepts, and who wins a
 * finished game.
 */
module Rules {

  /** The two players sharing one board; scores are keyed by 1 and 2. */
  type Player = p: int | p == 1 || p == 2 witness 1

  /** `switchPlayer`: the turn goes to the other player. */
  function Other(p: Player): (q: Player)
    ensures q != p
  {
    if p == 1 then 2 else 1
  }

  /** Switching twice gives the turn back. */
  lemma OtherInvolution(p: Player)
    ensures Other(Other(p)) == p
  {
  }

  /** The end-of-game verdict of `announceWinner`. */
  datatype Outcome = Wins(winner: Player) | Tie

  /** `announceWinner`: the player with strictly more pairs wins; equal scores tie. */
  function Winner(score1: nat, score2: nat): (r: Outcome)
    ensures r == Wins(1) <==> score1 > score2
    ensures r == Wins(2) <==> score2 > score1
    ensures r == Tie <==> score1 == score2
  {
    if score1 > score2 then Wins(1)
    else if score2 > score1 then Wins(2)
    else Tie
  }

  /** The verdict seen with the two players' roles exchanged. */
  function Mirror(o: Outcome): (r: Outcome)
    ensures r == Tie <==> o == Tie
  {
    match o
    case Wins(p) => Wins(Other(p))
    case Tie => Tie
  }

  /** The rule favours neither player: swapping the scores swaps the verdict. */
  lemma WinnerSymmetric(score1: nat, score2: nat)
    ensures Winner(score2, score1) == Mirror(Winner(score1, score2))
  {
  }

  /** The start button's check on the requested grid. */
  predicate ValidGrid(rows: int, cols: int)
  {
    2 <= rows <= 10 && 2 <= cols <= 10 && (rows * cols) % 2 == 0
  }

  /** A product is even exactly when one of its factors is. */
  lemma ProductParity(x: nat, y: nat)
    ensures (x * y) % 2 == 0 <==> (x % 2 == 0 || y % 2 == 0)
  {
    var a, b := x / 2, y / 2;
    var p, q := x % 2, y % 2;
    assert x == 2 * a + p && y == 2 * b + q;
    var rest := 2 * a * b + a * q + b * p;
    assert x * y == 2 * rest + p * q by {
      assert x * y == (2 * a + p) * (2 * b + q);
    }
    assert p * q == (if p == 1 && q == 1 then 1 else 0);
  }

  /** An accepted grid is one where at least one side is even. */
  lemma ValidGridSides(rows: int, cols: int)
    ensures ValidGrid(rows, cols) <==>
            2 <= rows <= 10 && 2 <= cols <= 10 && (rows % 2 == 0 || cols % 2 == 0)
  {
    if 2 <= rows && 2 <= cols {
      ProductParity(rows, cols);
    }
  }

  /** An accepted grid holds between 4 and 100 cards, i.e. 2 to 50 pairs. */
  lemma ValidGridCards(rows: int, cols: int)
    requires ValidGrid(rows, cols)
    ensures 4 <= rows * cols <= 100
    ensures 2 <= (rows * cols) / 2 <= 50 && 2 * ((rows * cols) / 2) == rows * cols
  {
  }
}
