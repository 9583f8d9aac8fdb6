/** The 108-card UNO deck built by UnoGame::prepareDeck (game/uno_game.cpp).
    The arena of cards is built once, in a fixed order; card identity i is the
    i-th card created. */
module Decks {
  import opened Cards
  import opened Piles

  /** Number of cards in the deck (DECK_SIZE). */
  const DECK_SIZE: nat := 108

  /** The colours in the order prepareDeck walks them. */
  const DeckColors: seq<Color> := [Blue, Green, Red, Yellow]

  /** The values every colour holds twice, in the order prepareDeck pushes them:
      Draw2, Skip, Reverse, then 1 to 9 (the even offsets of a colour block). */
  function Doubles(): seq<int> {
    seq(12, DoubleAt)
  }

  /** The i-th double value: the value at the even offset 2i of a colour block. */
  function DoubleAt(i: int): int {
    if i < 0 then 0 else BlockValue(2 * i)
  }

  /** Two copies of each value of `vals`, in colour c. */
  function Pairs(c: Color, vals: seq<int>): (r: seq<Card>)
    ensures |r| == 2 * |vals|
  {
    if vals == [] then [] else Pairs(c, vals[..|vals| - 1]) + [Card(c, vals[|vals| - 1]), Card(c, vals[|vals| - 1])]
  }

  /** The 25 cards of one colour: the doubled values, then one zero. */
  function ColorBlock(c: Color): seq<Card> {
    Pairs(c, Doubles()) + [Card(c, 0)]
  }

  /** The colour blocks of the colours `cs`, in order. */
  function ColorBlocks(cs: seq<Color>): (r: seq<Card>)
    ensures |r| == 25 * |cs|
  {
    if cs == [] then [] else ColorBlocks(cs[..|cs| - 1]) + ColorBlock(cs[|cs| - 1])
  }

  /** k rounds of one Wild and one WildDraw4 (the wild cards are created Blue). */
  function Wilds(k: nat): (r: seq<Card>)
    ensures |r| == 2 * k
  {
    if k == 0 then [] else Wilds(k - 1) + [Card(Blue, WILD), Card(Blue, WILD_DRAW4)]
  }

  /** The whole arena, in creation order. */
  function StandardDeck(): seq<Card> {
    ColorBlocks(DeckColors) + Wilds(4)
  }

  /** The colour of the block that position `id` of the arena falls in. */
  function BlockColor(id: nat): Color {
    if id < 25 then Blue else if id < 50 then Green else if id < 75 then Red else Yellow
  }

  /** The value a colour block holds at offset j (0 <= j < 25): the doubled values
      Draw2, Skip, Reverse, 1..9, then a single zero. */
  function BlockValue(j: nat): (v: int)
    ensures 0 <= v <= SKIP
  {
    if j >= 24 then 0
    else if j < 2 then DRAW2
    else if j < 4 then SKIP
    else if j < 6 then REVERSE
    else j / 2 - 2
  }

  /** The card created at position id, computed from the layout prepareDeck
      produces (FaceIsStandard shows the two agree). */
  function Face(id: nat): Card {
    if id < 100 then Card(BlockColor(id), BlockValue(id % 25))
    else Card(Blue, if id % 2 == 0 then WILD else WILD_DRAW4)
  }

  /** How many copies of a colour and value the standard deck holds. */
  function Copies(c: Color, v: int): nat {
    if v == WILD || v == WILD_DRAW4 then (if c == Blue then 4 else 0)
    else if v == 0 then 1
    else if 1 <= v <= 12 then 2
    else 0
  }

  /** prepareDeck: per colour two of each double value and one zero, then four
      rounds of Wild and WildDraw4. */
  method PrepareDeck() returns (deck: seq<Card>)
    ensures deck == StandardDeck()
  {
    var colors := [Blue, Green, Red, Yellow];
    var doubles := DoubleValues();
    deck := [];
    var i := 0;
    while i < |colors|
      invariant 0 <= i <= |colors|
      invariant colors == DeckColors
      invariant deck == ColorBlocks(DeckColors[..i])
    {
      deck := PushColorBlock(deck, colors[i], doubles);
      assert DeckColors[..i + 1][..i] == DeckColors[..i];
      i := i + 1;
    }
    assert DeckColors[..4] == DeckColors;
    var k := 0;
    while k < 4
      invariant 0 <= k <= 4
      invariant deck == ColorBlocks(DeckColors) + Wilds(k)
    {
      deck := deck + [Card(Blue, WILD)];
      deck := deck + [Card(Blue, WILD_DRAW4)];
      k := k + 1;
    }
  }

  /** The values prepareDeck doubles: Draw2, Skip, Reverse, then 1 to 9. */
  method DoubleValues() returns (doubles: seq<int>)
    ensures doubles == Doubles()
  {
    doubles := [DRAW2, SKIP, REVERSE];
    var val := 1;
    while val <= 9
      invariant 1 <= val <= 10
      invariant doubles == Doubles()[..val + 2]
    {
      doubles := doubles + [val];
      val := val + 1;
    }
  }

  /** The cards of colour c that prepareDeck appends: two of each double value,
      then one zero. */
  method PushColorBlock(deck: seq<Card>, c: Color, doubles: seq<int>) returns (r: seq<Card>)
    requires doubles == Doubles()
    ensures r == deck + ColorBlock(c)
  {
    r := deck;
    var j := 0;
    while j < |doubles|
      invariant 0 <= j <= |doubles|
      invariant r == deck + Pairs(c, Doubles()[..j])
    {
      assert Doubles()[..j + 1][..j] == Doubles()[..j];
      r := r + [Card(c, doubles[j])];
      r := r + [Card(c, doubles[j])];
      j := j + 1;
    }
    assert Doubles()[..j] == Doubles();
    r := r + [Card(c, 0)];
  }

  lemma DeckSize()
    ensures |StandardDeck()| == DECK_SIZE
  {
  }

  lemma {:induction false} PairsCount(c: Color, vals: seq<int>, x: Card)
    ensures multiset(Pairs(c, vals))[x] == if x.color == c then 2 * multiset(vals)[x.value] else 0
  {
    if vals != [] {
      var n := |vals| - 1;
      PairsCount(c, vals[..n], x);
      assert vals == vals[..n] + [vals[n]];
    }
  }

  /** A sequence without repeats holds each of its elements once. */
  lemma {:induction false} NoRepeatsCount(s: seq<int>, v: int)
    requires forall i, j :: 0 <= i < j < |s| ==> s[i] != s[j]
    ensures multiset(s)[v] == if v in s then 1 else 0
  {
    if s != [] {
      var n := |s| - 1;
      NoRepeatsCount(s[..n], v);
      assert s == s[..n] + [s[n]];
      assert s[n] !in s[..n];
    }
  }

  lemma DoublesCount(v: int)
    ensures multiset(Doubles())[v] == if 1 <= v <= 12 then 1 else 0
  {
    NoRepeatsCount(Doubles(), v);
    if 1 <= v <= 9 {
      assert Doubles()[v + 2] == v;
    } else if v == DRAW2 {
      assert Doubles()[0] == v;
    } else if v == SKIP {
      assert Doubles()[1] == v;
    } else if v == REVERSE {
      assert Doubles()[2] == v;
    }
  }

  lemma ColorBlockCount(c: Color, x: Card)
    ensures multiset(ColorBlock(c))[x] == BlockCopies(c, x)
  {
    PairsCount(c, Doubles(), x);
    DoublesCount(x.value);
  }

  lemma {:induction false} WildsCount(k: nat, x: Card)
    ensures multiset(Wilds(k))[x] == if x == Card(Blue, WILD) || x == Card(Blue, WILD_DRAW4) then k else 0
  {
    if k > 0 {
      WildsCount(k - 1, x);
    }
  }

  /** The composition of the deck: one zero and two of each of 1-9, Draw2, Skip and
      Reverse per colour, and four Wild and four WildDraw4 (created Blue). */
  lemma FourBlocks()
    ensures ColorBlocks(DeckColors) == ColorBlock(Blue) + ColorBlock(Green) + ColorBlock(Red) + ColorBlock(Yellow)
  {
    assert DeckColors[..3] == [Blue, Green, Red];
    assert ColorBlocks(DeckColors) == ColorBlocks([Blue, Green, Red]) + ColorBlock(Yellow);
    assert [Blue, Green, Red][..2] == [Blue, Green];
    assert ColorBlocks([Blue, Green, Red]) == ColorBlocks([Blue, Green]) + ColorBlock(Red);
    assert [Blue, Green][..1] == [Blue];
    assert ColorBlocks([Blue, Green]) == ColorBlocks([Blue]) + ColorBlock(Green);
    assert [Blue][..0] == [];
    assert ColorBlocks([Blue]) == ColorBlock(Blue);
  }

  lemma CountOfFive(b1: seq<Card>, b2: seq<Card>, b3: seq<Card>, b4: seq<Card>, w: seq<Card>, x: Card)
    ensures multiset(b1 + b2 + b3 + b4 + w)[x] == multiset(b1)[x] + multiset(b2)[x] + multiset(b3)[x] + multiset(b4)[x] + multiset(w)[x]
  {
  }

  function BlockCopies(c: Color, x: Card): nat {
    if x.color != c then 0 else if x.value == 0 then 1 else if 1 <= x.value <= 12 then 2 else 0
  }

  lemma CopiesBySum(x: Card)
    ensures Copies(x.color, x.value) == BlockCopies(Blue, x) + BlockCopies(Green, x) + BlockCopies(Red, x) + BlockCopies(Yellow, x)
      + (if x == Card(Blue, WILD) || x == Card(Blue, WILD_DRAW4) then 4 else 0)
  {
  }

  lemma DeckComposition(x: Card)
    ensures multiset(StandardDeck())[x] == Copies(x.color, x.value)
  {
    FourBlocks();
    var b1, b2, b3, b4, w := ColorBlock(Blue), ColorBlock(Green), ColorBlock(Red), ColorBlock(Yellow), Wilds(4);
    assert StandardDeck() == b1 + b2 + b3 + b4 + w;
    ColorBlockCount(Blue, x);
    ColorBlockCount(Green, x);
    ColorBlockCount(Red, x);
    ColorBlockCount(Yellow, x);
    WildsCount(4, x);
    CountOfFive(b1, b2, b3, b4, w, x);
    CopiesBySum(x);
  }

  lemma {:induction false} PairsAt(c: Color, vals: seq<int>, j: nat)
    requires j < 2 * |vals|
    ensures Pairs(c, vals)[j] == Card(c, vals[j / 2])
  {
    var n := |vals| - 1;
    if j < 2 * n {
      PairsAt(c, vals[..n], j);
    }
  }

  lemma ColorBlockAt(c: Color, j: nat)
    requires j < 25
    ensures ColorBlock(c)[j] == Card(c, BlockValue(j))
  {
    if j < 24 {
      PairsAt(c, Doubles(), j);
    }
  }

  lemma {:induction false} ColorBlocksAt(cs: seq<Color>, k: nat)
    requires k < 25 * |cs|
    ensures ColorBlocks(cs)[k] == ColorBlock(cs[k / 25])[k % 25]
  {
    var n := |cs| - 1;
    if k < 25 * n {
      ColorBlocksAt(cs[..n], k);
    }
  }

  lemma {:induction false} WildsAt(k: nat, i: nat)
    requires i < 2 * k
    ensures Wilds(k)[i] == Card(Blue, if i % 2 == 0 then WILD else WILD_DRAW4)
  {
    if i < 2 * (k - 1) {
      WildsAt(k - 1, i);
    }
  }

  /** The computed layout is the arena prepareDeck builds. */
  lemma FaceIsStandard(id: nat)
    requires id < DECK_SIZE
    ensures Face(id) == StandardDeck()[id]
  {
    if id < 100 {
      ColorBlocksAt(DeckColors, id);
      ColorBlockAt(DeckColors[id / 25], id % 25);
    } else {
      WildsAt(4, id - 100);
    }
  }

  /** Every card of the deck is valid. */
  lemma DeckIsValid(id: CardId)
    requires id < DECK_SIZE
    ensures StandardDeck()[id].IsValid()
  {
    var x := StandardDeck()[id];
    assert x in multiset(StandardDeck());
    DeckComposition(x);
  }

  lemma {:induction false} ColorBlocksHaveNoWild(cs: seq<Color>, k: nat)
    requires k < |ColorBlocks(cs)|
    ensures !ColorBlocks(cs)[k].IsWild()
  {
    var n := |cs| - 1;
    var front := ColorBlocks(cs[..n]);
    if k < |front| {
      ColorBlocksHaveNoWild(cs[..n], k);
    } else {
      var block := ColorBlock(cs[n]);
      var x := block[k - |front|];
      assert x in multiset(block);
      PairsCount(cs[n], Doubles(), x);
      DoublesCount(x.value);
    }
  }

  /** The only WildDraw4 cards are the identities 101, 103, 105 and 107. */
  lemma WildDraw4Ids(id: CardId)
    requires id < DECK_SIZE
    ensures StandardDeck()[id].value == WILD_DRAW4 <==> id in {101, 103, 105, 107}
  {
    if id < 100 {
      ColorBlocksHaveNoWild(DeckColors, id);
    } else {
      assert Wilds(4) == [Card(Blue, WILD), Card(Blue, WILD_DRAW4), Card(Blue, WILD), Card(Blue, WILD_DRAW4),
                          Card(Blue, WILD), Card(Blue, WILD_DRAW4), Card(Blue, WILD), Card(Blue, WILD_DRAW4)];
    }
  }

  /** Any five distinct identities of the arena include one that is not a WildDraw4. */
  lemma SomeNotWildDraw4(ids: seq<CardId>) returns (k: nat)
    requires Distinct(ids)
    requires forall i :: 0 <= i < |ids| ==> ids[i] < DECK_SIZE
    requires |ids| > 4
    ensures k < |ids| && Face(ids[k]).value != WILD_DRAW4
  {
    if forall i :: 0 <= i < |ids| ==> Face(ids[i]).value == WILD_DRAW4 {
      forall x | x in Elements(ids)
        ensures x in {101, 103, 105, 107}
      {
        var i :| 0 <= i < |ids| && ids[i] == x;
        FaceIsStandard(x);
        WildDraw4Ids(x);
      }
      DistinctSetSize(ids);
      SubsetSize(Elements(ids), {101, 103, 105, 107});
      assert false;
    }
    k :| k < |ids| && Face(ids[k]).value != WILD_DRAW4;
  }
}
