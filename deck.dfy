/**
 * Building the deck: the image pool, the cyclic choice of one image per
 * pair, the doubled card list, and the Fisher-Yates shuffle that permutes
 * it in place.
 */
module Deck {
  import opened Rules

  /** A card's symbol: the file name of the animal picture it shows. */
  type Symbol = string

  /** `animalImages`, the ten pictures a deck is drawn from. */
  const AnimalImages: seq<Symbol> :=
    ["cat.png", "dog.png", "elephant.png", "fox.png", "lion.png",
     "monkey.png", "panda.png", "rabbit.png", "tiger.png", "zebra.png"]

  /** The ten pictures are pairwise different. */
  lemma AnimalImagesDistinct()
    ensures |AnimalImages| == 10
    ensures forall i, j :: 0 <= i < j < |AnimalImages| ==> AnimalImages[i] != AnimalImages[j]
  {
  }

  /** `sel` takes the pool's pictures in turn, wrapping round: entry i is `pool[i % |pool|]`. */
  ghost predicate Cyclic(sel: seq<Symbol>, uniquePairs: nat, pool: seq<Symbol>)
    requires |pool| > 0
  {
    |sel| == uniquePairs && forall i :: 0 <= i < |sel| ==> sel[i] == pool[i % |pool|]
  }

  /** The push loop of `initializeGame` that picks one picture per pair. */
  method SelectImages(uniquePairs: nat, pool: seq<Symbol>) returns (selected: seq<Symbol>)
    requires |pool| > 0
    ensures |selected| == uniquePairs
    ensures forall i :: 0 <= i < uniquePairs ==> selected[i] == pool[i % |pool|]
  {
    selected := [];
    var i := 0;
    while i < uniquePairs
      invariant 0 <= i <= uniquePairs
      invariant |selected| == i
      invariant forall k :: 0 <= k < i ==> selected[k] == pool[k % |pool|]
    {
      selected := selected + [pool[i % |pool|]];
      i := i + 1;
    }
  }

  /** A picture occurring at two different positions occurs at least twice. */
  lemma {:induction false} TwoPositions(s: seq<Symbol>, i: nat, j: nat)
    requires i < j < |s| && s[i] == s[j]
    ensures multiset(s)[s[i]] >= 2
  {
    assert s == s[..j] + s[j..];
    assert s[i] in s[..j];
    assert s[j..][0] == s[j];
  }

  /** In a sequence without repeats every element occurs exactly once. */
  lemma {:induction false} DistinctOnce(s: seq<Symbol>)
    requires forall i, j :: 0 <= i < j < |s| ==> s[i] != s[j]
    ensures forall x :: x in s ==> multiset(s)[x] == 1
  {
    if s != [] {
      var init := s[..|s| - 1];
      var last := s[|s| - 1];
      assert s == init + [last];
      DistinctOnce(init);
      assert last !in init;
      forall x | x in s
        ensures multiset(s)[x] == 1
      {
        if x != last {
          assert x in init;
        }
      }
    }
  }

  /**
   * The doubled deck `[...selected, ...selected]` of `uniquePairs` pairs has
   * 2 * uniquePairs cards, and each picture in it occurs an even, non-zero
   * number of times: twice as often as in `selected`.
   */
  lemma PairedDeck(sel: seq<Symbol>)
    ensures |sel + sel| == 2 * |sel|
    ensures forall x :: multiset(sel + sel)[x] == 2 * multiset(sel)[x]
    ensures forall x :: x in sel + sel ==> multiset(sel + sel)[x] % 2 == 0 && multiset(sel + sel)[x] >= 2
  {
  }

  /**
   * The deck shows exactly the first `uniquePairs` pictures of the pool, or
   * the whole pool once there are at least as many pairs as pictures.
   */
  lemma PairedDeckSymbols(sel: seq<Symbol>, uniquePairs: nat, pool: seq<Symbol>)
    requires |pool| > 0 && Cyclic(sel, uniquePairs, pool)
    ensures forall x :: x in sel + sel <==> x in pool[..if uniquePairs < |pool| then uniquePairs else |pool|]
  {
    var n := |pool|;
    var m := if uniquePairs < n then uniquePairs else n;
    var shown := pool[..m];
    forall x | x in sel
      ensures x in shown
    {
      var i :| 0 <= i < |sel| && sel[i] == x;
      ModBelow(i, n);
      var r := i % n;
      assert shown[r] == pool[r];
    }
    forall x | x in shown
      ensures x in sel
    {
      var i :| 0 <= i < m && shown[i] == x;
      ModBelow(i, n);
      assert sel[i] == pool[i];
    }
    assert forall x :: x in sel + sel <==> x in sel;
  }

  /** Remainders: below the divisor, and the identity on smaller numbers. */
  lemma ModBelow(i: nat, n: nat)
    requires n > 0
    ensures 0 <= i % n < n && i % n <= i
    ensures i < n ==> i % n == i
  {
  }

  /** With at most ten pairs every animal in the deck occurs exactly twice. */
  lemma AnimalDeckExactPairs(sel: seq<Symbol>, uniquePairs: nat)
    requires Cyclic(sel, uniquePairs, AnimalImages) && uniquePairs <= 10
    ensures forall x :: x in sel + sel ==> multiset(sel + sel)[x] == 2
  {
    AnimalImagesDistinct();
    assert forall i :: 0 <= i < |sel| ==> sel[i] == AnimalImages[i];
    DistinctOnce(sel);
    PairedDeck(sel);
  }

  /** With more than ten pairs the pool wraps round: "cat.png" is on four or more cards. */
  lemma AnimalDeckRepeats(sel: seq<Symbol>, uniquePairs: nat)
    requires Cyclic(sel, uniquePairs, AnimalImages) && uniquePairs > 10
    ensures multiset(sel + sel)["cat.png"] >= 4
  {
    assert sel[0] == "cat.png" && sel[10] == "cat.png";
    TwoPositions(sel, 0, 10);
    PairedDeck(sel);
  }

  /** The index choices a shuffle may make: for each step i > 0, a j with 0 <= j <= i. */
  predicate ValidChoices(js: seq<nat>)
  {
    forall i :: 0 < i < |js| ==> js[i] <= i
  }

  /** `[array[i], array[j]] = [array[j], array[i]]` on a sequence. */
  function Swap<T>(s: seq<T>, i: nat, j: nat): (r: seq<T>)
    requires i < |s| && j < |s|
    ensures |r| == |s|
    ensures r[i] == s[j] && r[j] == s[i]
    ensures forall k :: 0 <= k < |s| && k != i && k != j ==> r[k] == s[k]
  {
    s[i := s[j]][j := s[i]]
  }

  /**
   * The Fisher-Yates steps for the indices i, i - 1, ..., 1, step k swapping
   * positions k and js[k]; `shuffleArray` starts at the last index.
   */
  function FisherYates<T>(s: seq<T>, js: seq<nat>, i: int): (r: seq<T>)
    requires |js| == |s| && ValidChoices(js) && i < |s|
    ensures |r| == |s|
    decreases i
  {
    if i <= 0 then s else FisherYates(Swap(s, i, js[i]), js, i - 1)
  }

  /** A swap keeps the multiset of elements. */
  lemma SwapPermutes<T>(s: seq<T>, i: nat, j: nat)
    requires i < |s| && j < |s|
    ensures multiset(Swap(s, i, j)) == multiset(s)
  {
  }

  /** The shuffle is a permutation of its input. */
  lemma {:induction false} FisherYatesPermutes<T>(s: seq<T>, js: seq<nat>, i: int)
    requires |js| == |s| && ValidChoices(js) && i < |s|
    ensures multiset(FisherYates(s, js, i)) == multiset(s)
    decreases i
  {
    if i > 0 {
      SwapPermutes(s, i, js[i]);
      FisherYatesPermutes(Swap(s, i, js[i]), js, i - 1);
    }
  }

  /**
   * The steps from index i downwards never touch a position above i: once
   * the step for index k is done, positions k .. |s| - 1 are final.
   */
  lemma {:induction false} FisherYatesSettled<T>(s: seq<T>, js: seq<nat>, i: int)
    requires |js| == |s| && ValidChoices(js) && i < |s|
    ensures forall k :: 0 <= k < |s| && i < k ==> FisherYates(s, js, i)[k] == s[k]
    decreases i
  {
    if i > 0 {
      FisherYatesSettled(Swap(s, i, js[i]), js, i - 1);
    }
  }

  /** Choosing j = i at every step leaves the sequence as it was. */
  lemma {:induction false} FisherYatesFixed<T>(s: seq<T>, js: seq<nat>, i: int)
    requires |js| == |s| && ValidChoices(js) && i < |s|
    requires forall k :: 0 < k <= i ==> js[k] == k
    ensures FisherYates(s, js, i) == s
    decreases i
  {
    if i > 0 {
      assert Swap(s, i, js[i]) == s;
      FisherYatesFixed(s, js, i - 1);
    }
  }

  /** `shuffleArray`: the Fisher-Yates loop over the array, in place. */
  method ShuffleArray<T>(a: array<T>, js: seq<nat>)
    requires |js| == a.Length && ValidChoices(js)
    modifies a
    ensures a[..] == FisherYates(old(a[..]), js, a.Length - 1)
    ensures multiset(a[..]) == multiset(old(a[..]))
  {
    var i := a.Length - 1;
    while i > 0
      invariant -1 <= i < a.Length
      invariant FisherYates(a[..], js, i) == FisherYates(old(a[..]), js, a.Length - 1)
    {
      var j := js[i];
      ghost var before := a[..];
      var t := a[i];
      a[i] := a[j];
      a[j] := t;
      assert a[..] == Swap(before, i, j);
      i := i - 1;
    }
    FisherYatesPermutes(old(a[..]), js, a.Length - 1);
  }

  /**
   * `shuffleArray` applied to a freshly built array holding `s`, as
   * `initializeGame` does with `cardPairs`: the resulting order.
   */
  method ShuffleCopy<T>(s: seq<T>, js: seq<nat>) returns (r: seq<T>)
    requires |js| == |s| && ValidChoices(js)
    ensures r == FisherYates(s, js, |s| - 1)
    ensures multiset(r) == multiset(s)
  {
    var a := new T[|s|](i requires 0 <= i < |s| => s[i]);
    assert a[..] == s;
    ShuffleArray(a, js);
    r := a[..];
  }

  /**
   * The deck of `initializeGame` for the `totalCards` of an accepted grid:
   * one picture per pair taken cyclically from `animalImages`, the list
   * doubled, then shuffled with the index choices `js`.
   */
  method DealCards(totalCards: nat, js: seq<nat>) returns (cards: seq<Symbol>)
    requires totalCards % 2 == 0
    requires |js| == totalCards && ValidChoices(js)
    ensures |cards| == totalCards
    ensures exists sel :: Cyclic(sel, totalCards / 2, AnimalImages) &&
                          multiset(cards) == multiset(sel + sel) &&
                          cards == FisherYates(sel + sel, js, totalCards - 1)
    ensures forall x :: x in cards ==> multiset(cards)[x] % 2 == 0 && multiset(cards)[x] >= 2
    ensures totalCards <= 20 ==> forall x :: x in cards ==> multiset(cards)[x] == 2
  {
    var uniquePairs := totalCards / 2;
    var selected := SelectImages(uniquePairs, AnimalImages);
    assert Cyclic(selected, uniquePairs, AnimalImages);
    var cardPairs := selected + selected;
    cards := ShuffleCopy(cardPairs, js);
    ShuffledPairs(selected, uniquePairs, cards);
    assert Cyclic(selected, totalCards / 2, AnimalImages) &&
           multiset(cards) == multiset(selected + selected) &&
           cards == FisherYates(selected + selected, js, totalCards - 1);
  }

  /**
   * Any rearrangement of the doubled cyclic selection has every picture an
   * even, non-zero number of times, and exactly twice for at most ten pairs.
   */
  lemma ShuffledPairs(sel: seq<Symbol>, uniquePairs: nat, cards: seq<Symbol>)
    requires Cyclic(sel, uniquePairs, AnimalImages)
    requires multiset(cards) == multiset(sel + sel)
    ensures forall x :: x in cards ==> multiset(cards)[x] % 2 == 0 && multiset(cards)[x] >= 2
    ensures uniquePairs <= 10 ==> forall x :: x in cards ==> multiset(cards)[x] == 2
  {
    PairedDeck(sel);
    assert forall x :: x in cards <==> x in sel + sel by {
      forall x ensures x in cards <==> x in sel + sel {
        assert x in cards <==> x in multiset(cards);
        assert x in sel + sel <==> x in multiset(sel + sel);
      }
    }
    if uniquePairs <= 10 {
      AnimalDeckExactPairs(sel, uniquePairs);
    }
  }
}
