/** Generic facts about sequences used by the card, evaluator and game modules:
    counting, distinctness, extrema, a descending sort and element-wise projection. */
module Sequences {

  datatype Option<T> = None | Some(value: T)

  /** The position of the first occurrence of `x` (Python's `list.index`). */
  function FirstIndex<T(==)>(s: seq<T>, x: T): (k: nat)
    requires x in s
    ensures k < |s| && s[k] == x && x !in s[..k]
  {
    if s[0] == x then 0
    else
      var k' := FirstIndex(s[1..], x);
      assert s[..k' + 1] == [s[0]] + s[1..][..k'];
      k' + 1
  }

  /** Python's `list.remove(x)`: drops the first occurrence of `x` and keeps the other
      elements in order. */
  function RemoveFirst<T(==)>(s: seq<T>, x: T): (r: seq<T>)
    ensures multiset(r) == multiset(s) - multiset{x}
    ensures x !in s ==> r == s
    ensures x in s ==>
      exists k :: 0 <= k < |s| && s[k] == x && x !in s[..k] && r == s[..k] + s[k + 1..]
  {
    if x in s then
      var k := FirstIndex(s, x);
      assert s == s[..k] + [x] + s[k + 1..];
      s[..k] + s[k + 1..]
    else
      assert multiset(s)[x] == 0;
      s
  }

  /** Removing a value that was just appended to a list without it gives the list back. */
  lemma {:induction false} RemoveLast<T>(s: seq<T>, x: T)
    requires x !in s
    ensures RemoveFirst(s + [x], x) == s
  {
    if s != [] {
      assert (s + [x])[1..] == s[1..] + [x];
      RemoveLast(s[1..], x);
    }
  }

  /** Number of occurrences of `x` in `s` (a dictionary counter filled by a loop). */
  function Count<T(==)>(s: seq<T>, x: T): (n: nat)
    ensures n <= |s|
  {
    if s == [] then 0 else (if s[0] == x then 1 else 0) + Count(s[1..], x)
  }

  /** The set of values of a sequence (Python's `set(list)`). */
  function Elements<T>(s: seq<T>): set<T> {
    set x | x in s
  }

  /** No value occurs twice. */
  predicate Distinct<T(==)>(s: seq<T>) {
    forall i, j :: 0 <= i < j < |s| ==> s[i] != s[j]
  }

  /** The sequence obtained by applying `f` to every element (a list comprehension). */
  function Project<T, K>(s: seq<T>, f: T -> K): seq<K> {
    seq(|s|, i requires 0 <= i < |s| => f(s[i]))
  }

  /** Python's `max(list)` on a non-empty list. */
  function SeqMax(s: seq<int>): (m: int)
    requires s != []
    ensures m in s && forall i :: 0 <= i < |s| ==> s[i] <= m
  {
    if |s| == 1 then s[0]
    else
      var rest := SeqMax(s[1..]);
      if s[0] >= rest then s[0] else rest
  }

  /** Python's `min(list)` on a non-empty list. */
  function SeqMin(s: seq<int>): (m: int)
    requires s != []
    ensures m in s && forall i :: 0 <= i < |s| ==> m <= s[i]
  {
    if |s| == 1 then s[0]
    else
      var rest := SeqMin(s[1..]);
      if s[0] <= rest then s[0] else rest
  }

  predicate Descending(s: seq<int>) {
    forall i, j :: 0 <= i < j < |s| ==> s[i] >= s[j]
  }

  /** Prepending a value no smaller than every element keeps a sequence descending. */
  lemma ConsDescending(x: int, t: seq<int>)
    requires Descending(t) && forall k :: 0 <= k < |t| ==> t[k] <= x
    ensures Descending([x] + t)
  {
    var r := [x] + t;
    forall i, j | 0 <= i < j < |r| ensures r[i] >= r[j] {
      assert r[j] == t[j - 1];
      if i > 0 {
        assert r[i] == t[i - 1];
      }
    }
  }

  /** Inserts `x` into a descending sequence, keeping it descending. */
  function Insert(x: int, s: seq<int>): (r: seq<int>)
    requires Descending(s)
    ensures |r| == |s| + 1 && Descending(r)
    ensures multiset(r) == multiset(s) + multiset{x}
  {
    if s == [] || x >= s[0] then
      ConsDescending(x, s);
      [x] + s
    else
      var tail := Insert(x, s[1..]);
      assert s == [s[0]] + s[1..];
      assert forall k :: 0 <= k < |tail| ==> tail[k] <= s[0] by {
        forall k | 0 <= k < |tail| ensures tail[k] <= s[0] {
          assert tail[k] in multiset(s[1..]) + multiset{x};
          if tail[k] != x {
            assert tail[k] in s[1..];
          }
        }
      }
      ConsDescending(s[0], tail);
      [s[0]] + tail
  }

  /** Python's `sorted(values, reverse=True)`, as an insertion sort. */
  function SortDescending(s: seq<int>): (r: seq<int>)
    ensures |r| == |s| && Descending(r) && multiset(r) == multiset(s)
  {
    if s == [] then []
    else
      assert s == [s[0]] + s[1..];
      Insert(s[0], SortDescending(s[1..]))
  }

  /** The count of `x` is its multiplicity. */
  lemma {:induction false} CountIsMultiplicity<T>(s: seq<T>, x: T)
    ensures Count(s, x) == multiset(s)[x]
  {
    if s != [] {
      assert s == [s[0]] + s[1..];
      CountIsMultiplicity(s[1..], x);
    }
  }

  /** Every element equals `x` exactly when all of `s` is counted. */
  lemma {:induction false} CountAll<T>(s: seq<T>, x: T)
    ensures Count(s, x) == |s| <==> forall i :: 0 <= i < |s| ==> s[i] == x
  {
    if s != [] {
      CountAll(s[1..], x);
      if Count(s, x) == |s| {
        assert s[0] == x;
      }
      if forall i :: 0 <= i < |s| ==> s[i] == x {
        assert forall i :: 0 <= i < |s[1..]| ==> s[1..][i] == s[i + 1];
      }
    }
  }

  /** Two different values share the sequence: their counts add up to at most its length. */
  lemma {:induction false} CountTwo<T>(s: seq<T>, x: T, y: T)
    requires x != y
    ensures Count(s, x) + Count(s, y) <= |s|
  {
    if s != [] {
      CountTwo(s[1..], x, y);
    }
  }

  /** A value that is counted occurs in the sequence. */
  lemma CountPositive<T>(s: seq<T>, x: T)
    requires Count(s, x) > 0
    ensures x in s
  {
  }

  /** A value counted twice makes the sequence not distinct. */
  lemma {:induction false} CountTwiceNotDistinct<T>(s: seq<T>, x: T)
    requires Count(s, x) >= 2
    ensures !Distinct(s)
  {
    if s[0] == x {
      CountPositive(s[1..], x);
      var j :| 0 <= j < |s[1..]| && s[1..][j] == x;
      assert s[0] == s[j + 1];
    } else {
      CountTwiceNotDistinct(s[1..], x);
      var i, j :| 0 <= i < j < |s[1..]| && s[1..][i] == s[1..][j];
      assert s[i + 1] == s[j + 1];
    }
  }

  /** In a distinct sequence no value is counted more than once. */
  lemma CountDistinct<T>(s: seq<T>, x: T)
    requires Distinct(s)
    ensures Count(s, x) <= 1
  {
    if Count(s, x) >= 2 {
      CountTwiceNotDistinct(s, x);
    }
  }

  /** Distinctness is the same as every multiplicity being at most one. */
  lemma {:induction false} DistinctIffMultiplicity<T>(s: seq<T>)
    ensures Distinct(s) <==> forall x :: multiset(s)[x] <= 1
  {
    if Distinct(s) {
      forall x ensures multiset(s)[x] <= 1 {
        CountDistinct(s, x);
        CountIsMultiplicity(s, x);
      }
    }
    if !Distinct(s) {
      var i, j :| 0 <= i < j < |s| && s[i] == s[j];
      assert s == s[..i] + [s[i]] + s[i + 1..j] + [s[j]] + s[j + 1..];
      assert multiset(s)[s[i]] >= 2;
    }
  }

  /** Distinctness depends only on the multiset of values. */
  lemma PermutationDistinct<T>(a: seq<T>, b: seq<T>)
    requires multiset(a) == multiset(b)
    ensures Distinct(a) <==> Distinct(b)
  {
    DistinctIffMultiplicity(a);
    DistinctIffMultiplicity(b);
  }

  /** A sequence whose multiset is contained in that of a distinct one is distinct. */
  lemma SubMultisetDistinct<T>(a: seq<T>, b: seq<T>)
    requires multiset(a) <= multiset(b) && Distinct(b)
    ensures Distinct(a)
  {
    DistinctIffMultiplicity(a);
    DistinctIffMultiplicity(b);
    assert forall x :: multiset(a)[x] <= multiset(b)[x];
  }

  /** Python's `len(set(s)) == len(s)` is distinctness. */
  lemma {:induction false} DistinctIffSetSize<T>(s: seq<T>)
    ensures |Elements(s)| <= |s|
    ensures Distinct(s) <==> |Elements(s)| == |s|
  {
    if s == [] {
      assert Elements(s) == {};
    } else {
      var t := s[1..];
      DistinctIffSetSize(t);
      assert Elements(s) == {s[0]} + Elements(t);
      if s[0] in t {
        assert Elements(s) == Elements(t);
        var j :| 0 <= j < |t| && t[j] == s[0];
        assert s[0] == s[j + 1];
      } else {
        assert |Elements(s)| == |Elements(t)| + 1;
        if Distinct(t) {
          forall i, j | 0 <= i < j < |s| ensures s[i] != s[j] {
            if i > 0 {
              assert s[i] == t[i - 1] && s[j] == t[j - 1];
            } else {
              assert s[j] == t[j - 1];
            }
          }
        } else {
          var i, j :| 0 <= i < j < |t| && t[i] == t[j];
          assert s[i + 1] == s[j + 1];
        }
      }
    }
  }

  /** A subset is no larger than its superset, and equal to it when as large. */
  lemma SubsetSize<T>(a: set<T>, b: set<T>)
    requires a <= b
    ensures |a| <= |b| && (|a| == |b| ==> a == b)
  {
    assert b == a + (b - a);
    assert a * (b - a) == {};
  }

  /** Projection respects permutation: equal multisets of inputs give equal multisets of outputs. */
  lemma {:induction false} ProjectPermutation<T, K>(a: seq<T>, b: seq<T>, f: T -> K)
    requires multiset(a) == multiset(b)
    ensures multiset(Project(a, f)) == multiset(Project(b, f))
    decreases |a|
  {
    if a == [] {
      assert |b| == |multiset(b)| == 0;
    } else {
      var x := a[0];
      assert x in multiset(a);
      var j :| 0 <= j < |b| && b[j] == x;
      RemoveMatching(a, b, j);
      ProjectPermutation(a[1..], b[..j] + b[j + 1..], f);
      ProjectRemove(a, 0, f);
      assert a[..0] + a[1..] == a[1..];
      ProjectRemove(b, j, f);
    }
  }

  /** Projecting a sequence projects its element at `j` once and the remaining elements. */
  lemma ProjectRemove<T, K>(b: seq<T>, j: nat, f: T -> K)
    requires j < |b|
    ensures multiset(Project(b, f)) == multiset{f(b[j])} + multiset(Project(b[..j] + b[j + 1..], f))
  {
    var left, right := Project(b[..j], f), Project(b[j + 1..], f);
    assert Project(b, f) == left + [f(b[j])] + right by {
      var bx := b[..j] + [b[j]];
      assert b == bx + b[j + 1..];
      ProjectConcat(bx, b[j + 1..], f);
      ProjectConcat(b[..j], [b[j]], f);
    }
    assert Project(b[..j] + b[j + 1..], f) == left + right by {
      ProjectConcat(b[..j], b[j + 1..], f);
    }
  }

  lemma ProjectConcat<T, K>(a: seq<T>, b: seq<T>, f: T -> K)
    ensures Project(a + b, f) == Project(a, f) + Project(b, f)
  {
  }

  /** The head of a descending permutation of `s` is the maximum of `s`. */
  lemma SortedHead(r: seq<int>, s: seq<int>)
    requires Descending(r) && multiset(r) == multiset(s) && s != []
    ensures r[0] == SeqMax(s)
  {
    var m := SeqMax(s);
    assert m in multiset(r);
    assert r[0] in multiset(s);
  }

  /** Removing the head of one of two permutations and an equal element of the other
      leaves permutations. */
  lemma RemoveMatching<T>(r: seq<T>, s: seq<T>, i: nat)
    requires multiset(r) == multiset(s) && r != [] && i < |s| && r[0] == s[i]
    ensures multiset(r[1..]) == multiset(s[..i] + s[i + 1..])
  {
    assert r == [r[0]] + r[1..];
    assert s == s[..i] + [s[i]] + s[i + 1..];
    assert multiset(r) == multiset{r[0]} + multiset(r[1..]);
    assert multiset(s) == multiset(s[..i]) + multiset{s[i]} + multiset(s[i + 1..]);
    forall y ensures multiset(r[1..])[y] == multiset(s[..i] + s[i + 1..])[y] {
      assert multiset(r)[y] == multiset(s)[y];
    }
  }

  /** The second entry of a descending permutation of `s`, when `s` holds one value `a`
      at index `i` and its other entries are at most `b < a`, one of them equal to `b`. */
  lemma SortedSecond(r: seq<int>, s: seq<int>, i: nat, j: nat, a: int, b: int)
    requires Descending(r) && multiset(r) == multiset(s)
    requires i < |s| && j < |s| && i != j && s[i] == a && s[j] == b && b < a
    requires forall k :: 0 <= k < |s| && k != i ==> s[k] <= b
    ensures |r| >= 2 && r[0] == a && r[1] == b
  {
    assert |r| == |multiset(r)| == |s|;
    SortedHead(r, s);
    var m := SeqMax(s);
    assert m == a by {
      var k :| 0 <= k < |s| && s[k] == m;
      assert s[i] <= m;
    }
    var others := s[..i] + s[i + 1..];
    RemoveMatching(r, s, i);
    assert b in multiset(r[1..]) by {
      if j < i { assert others[j] == b; } else { assert others[j - 1] == b; }
    }
    assert r[1] >= b by {
      var t :| 0 <= t < |r[1..]| && r[1..][t] == b;
      assert r[1] >= r[t + 1];
    }
    assert r[1] <= b by {
      assert r[1] in multiset(others);
      var k :| 0 <= k < |others| && others[k] == r[1];
      if k < i { assert others[k] == s[k]; } else { assert others[k] == s[k + 1]; }
    }
  }
}

/** Cards, the 52-card deck and the player's hand. */
module Cards {
  import opened Sequences

  datatype Suit = Hearts | Diamonds | Clubs | Spades

  /** The suits in the order of the source's `suits` list. */
  const Suits: seq<Suit> := [Hearts, Diamonds, Clubs, Spades]

  /** A rank is its position in the source's `ranks` list: 0 is "2", 8 is "10",
      9 is jack, 10 queen, 11 king and 12 ace. */
  type Rank = r: int | 0 <= r < 13

  const Ace: Rank := 12
  const Two: Rank := 0

  /** An immutable (suit, rank) pair; equal pairs are the same card. */
  datatype Card = Card(suit: Suit, rank: Rank)

  function SuitIndex(s: Suit): (k: nat)
    ensures k < 4 && Suits[k] == s
  {
    match s
    case Hearts => 0
    case Diamonds => 1
    case Clubs => 2
    case Spades => 3
  }

  /** The unshuffled deck: every suit in turn, every rank within a suit. */
  function OrderedDeck(): (d: seq<Card>)
    ensures |d| == 52 && forall i :: 0 <= i < 52 ==> SuitIndex(d[i].suit) * 13 + d[i].rank == i
  {
    assert forall k :: 0 <= k < 4 ==> SuitIndex(Suits[k]) == k;
    seq(52, i requires 0 <= i < 52 => Card(Suits[i / 13], i % 13))
  }

  /** The ordered deck holds 52 cards, each (suit, rank) pair exactly once. */
  lemma OrderedDeckComplete()
    ensures |OrderedDeck()| == 52 && Distinct(OrderedDeck())
    ensures forall c: Card :: c in OrderedDeck()
  {
    var d := OrderedDeck();
    forall i, j | 0 <= i < j < 52 ensures d[i] != d[j] {
      if i / 13 == j / 13 {
        assert i % 13 != j % 13;
      } else {
        assert SuitIndex(Suits[i / 13]) == i / 13;
        assert SuitIndex(Suits[j / 13]) == j / 13;
      }
    }
    forall c: Card ensures c in d {
      var k := SuitIndex(c.suit) * 13 + c.rank;
      assert k / 13 == SuitIndex(c.suit) && k % 13 == c.rank;
      assert d[k] == c;
    }
  }

  /** A valid result of shuffling the ordered deck: a permutation of it (the length
      follows from the multiset and is spelled out for the sake of indexing). */
  predicate IsShuffled(cards: seq<Card>) {
    |cards| == 52 && multiset(cards) == multiset(OrderedDeck())
  }

  /** A shuffled deck holds 52 cards, no two alike, and every card. */
  lemma ShuffledDeck(cards: seq<Card>)
    requires IsShuffled(cards)
    ensures |cards| == 52 && Distinct(cards)
    ensures forall c: Card :: c in cards
  {
    OrderedDeckComplete();
    PermutationDistinct(cards, OrderedDeck());
    forall c: Card ensures c in cards {
      assert c in OrderedDeck();
      assert c in multiset(OrderedDeck());
    }
  }

  /** The deck: a list of cards from which cards are popped off the end. */
  class Deck {
    var cards: seq<Card>

    /** A fresh deck in the order produced by the shuffle. */
    constructor (shuffled: seq<Card>)
      requires IsShuffled(shuffled)
      ensures cards == shuffled
    {
      cards := shuffled;
    }

    /** Removes and returns the last card; an empty deck yields None (the source's
        `pop` raises IndexError there) and stays empty. */
    method Deal() returns (c: Option<Card>)
      modifies this
      ensures old(cards) == [] ==> c == None && cards == []
      ensures old(cards) != [] ==>
        c == Some(old(cards)[|old(cards)| - 1]) && cards == old(cards)[..|old(cards)| - 1]
    {
      if cards == [] {
        c := None;
      } else {
        c := Some(cards[|cards| - 1]);
        cards := cards[..|cards| - 1];
      }
    }
  }

  /** The player's hand, in deal order. */
  class Hand {
    var cards: seq<Card>

    constructor ()
      ensures cards == []
    {
      cards := [];
    }

    method AddCard(c: Card)
      modifies this
      ensures cards == old(cards) + [c]
    {
      cards := cards + [c];
    }

    /** Overwrites position `index`; an index past the end changes nothing and
        reports failure (the source raises IndexError). */
    method ReplaceCard(index: nat, c: Card) returns (ok: bool)
      modifies this
      ensures ok == (index < |old(cards)|)
      ensures cards == if ok then old(cards)[index := c] else old(cards)
    {
      ok := index < |cards|;
      if ok {
        cards := cards[index := c];
      }
    }
  }

  /** Ten successive deals from a fresh deck all succeed and give ten different cards,
      the last ten of the shuffled order, last first: a round draws five cards and at
      most five replacements. */
  method DealTen(shuffled: seq<Card>) returns (dealt: seq<Card>)
    requires IsShuffled(shuffled)
    ensures |dealt| == 10 && Distinct(dealt)
    ensures forall k :: 0 <= k < 10 ==> dealt[k] == shuffled[51 - k]
  {
    ShuffledDeck(shuffled);
    var deck := new Deck(shuffled);
    dealt := [];
    for k := 0 to 10
      invariant deck.cards == shuffled[..52 - k]
      invariant |dealt| == k
      invariant forall m :: 0 <= m < k ==> dealt[m] == shuffled[51 - m]
    {
      var c := deck.Deal();
      dealt := dealt + [c.value];
    }
    forall i, j | 0 <= i < j < 10 ensures dealt[i] != dealt[j] {
      assert dealt[i] == shuffled[51 - i] && dealt[j] == shuffled[51 - j];
    }
  }
}

/** The hand evaluator of `evaluate_hand`: counts ranks and suits, tests for a flush
    and a straight, and classifies by the first matching rule. */
module HandEvaluator {
  import opened Sequences
  import opened Cards

  /** The nine categories, listed in the order in which the rules are tried. */
  datatype Category =
    | StraightFlush | FourOfAKind | FullHouse | Flush | Straight
    | ThreeOfAKind | TwoPair | OnePair | HighCard
  {
    /** The name the source returns with the category. */
    function Name(): string {
      match this
      case StraightFlush => "Straight Flush"
      case FourOfAKind => "Four of a Kind"
      case FullHouse => "Full House"
      case Flush => "Flush"
      case Straight => "Straight"
      case ThreeOfAKind => "Three of a Kind"
      case TwoPair => "Two Pair"
      case OnePair => "One Pair"
      case HighCard => "High Card"
    }

    /** The payout multiplier, as an exact rational (the source's 1.5, 1.2 and 0.5 are floats). */
    function Multiplier(): (m: real)
      ensures 0.5 <= m <= 10.0
      ensures m < 1.0 <==> this == HighCard
    {
      match this
      case StraightFlush => 10.0
      case FourOfAKind => 5.0
      case FullHouse => 4.0
      case Flush => 3.0
      case Straight => 2.0
      case ThreeOfAKind => 1.5
      case TwoPair => 1.2
      case OnePair => 1.0
      case HighCard => 0.5
    }
  }

  function RankOf(c: Card): Rank { c.rank }
  function SuitOf(c: Card): Suit { c.suit }

  /** `rank_indices`, in deal order (sorting it changes neither its set, its maximum nor its minimum). */
  function RanksOf(h: seq<Card>): seq<Rank> {
    seq(|h|, i requires 0 <= i < |h| => h[i].rank)
  }

  function SuitsOf(h: seq<Card>): seq<Suit> {
    seq(|h|, i requires 0 <= i < |h| => h[i].suit)
  }

  /** The rank and suit sequences are the projections of the hand, so facts proved about
      projections apply to them. */
  lemma RanksAndSuitsAreProjections(h: seq<Card>)
    ensures RanksOf(h) == Project(h, RankOf) && SuitsOf(h) == Project(h, SuitOf)
  {
    assert forall i :: 0 <= i < |h| ==> Project(h, RankOf)[i] == RankOf(h[i]);
    assert forall i :: 0 <= i < |h| ==> Project(h, SuitOf)[i] == SuitOf(h[i]);
  }

  /** `ranks_count.values()`: the number of cards of each rank, in rank order. */
  function RankCounts(h: seq<Card>): (r: seq<int>)
    ensures |r| == 13 && forall k :: 0 <= k < 13 ==> 0 <= r[k] <= |h|
  {
    seq(13, (k: int) requires 0 <= k < 13 => Count(RanksOf(h), k as Rank))
  }

  /** `suits_count.values()`: the number of cards of each suit, in suit order. */
  function SuitCounts(h: seq<Card>): (r: seq<int>)
    ensures |r| == 4 && forall k :: 0 <= k < 4 ==> 0 <= r[k] <= |h|
  {
    seq(4, k requires 0 <= k < 4 => Count(SuitsOf(h), Suits[k]))
  }

  /** Each counter ends at the number of cards of its rank or suit. */
  lemma CountsAreMultiplicities(h: seq<Card>)
    ensures forall k: Rank :: RankCounts(h)[k] == multiset(RanksOf(h))[k]
    ensures forall s: Suit :: SuitCounts(h)[SuitIndex(s)] == multiset(SuitsOf(h))[s]
  {
    forall k: Rank ensures RankCounts(h)[k] == multiset(RanksOf(h))[k] {
      CountIsMultiplicity(RanksOf(h), k);
    }
    forall s: Suit ensures SuitCounts(h)[SuitIndex(s)] == multiset(SuitsOf(h))[s] {
      CountIsMultiplicity(SuitsOf(h), s);
    }
  }

  /** `rank_counts`: the rank counts, largest first. */
  function RankProfile(h: seq<Card>): (r: seq<int>)
    ensures |r| == 13 && Descending(r) && multiset(r) == multiset(RankCounts(h))
  {
    SortDescending(RankCounts(h))
  }

  /** The largest suit count is five. */
  predicate IsFlush(h: seq<Card>)
    ensures IsFlush(h) ==> |h| >= 5
  {
    SeqMax(SuitCounts(h)) == 5
  }

  /** Five different rank indices whose largest and smallest differ by four. An ace is
      always index 12, so ace-2-3-4-5 spans twelve and is not a straight. */
  predicate IsStraight(h: seq<Card>)
    ensures IsStraight(h) ==> |h| >= 5 && SeqMin(RanksOf(h)) <= 8
  {
    var idx := RanksOf(h);
    DistinctIffSetSize(idx);
    |Elements(idx)| == 5 && (assert idx != [] by { assert Elements(idx) != {}; }
    SeqMax(idx) - SeqMin(idx) == 4)
  }

  /** `evaluate_hand`: the first rule that matches decides the category. */
  function EvaluateHand(h: seq<Card>): Category {
    var counts := RankProfile(h);
    var flush := IsFlush(h);
    var straight := IsStraight(h);
    if straight && flush then StraightFlush
    else if counts[0] == 4 then FourOfAKind
    else if counts[0] == 3 && counts[1] == 2 then FullHouse
    else if flush then Flush
    else if straight then Straight
    else if counts[0] == 3 then ThreeOfAKind
    else if counts[0] == 2 && counts[1] == 2 then TwoPair
    else if counts[0] == 2 then OnePair
    else HighCard
  }

  /** How the rule order ranks the flush and straight tests: a straight flush is exactly a
      straight that is a flush; a flush is beaten only by a straight flush, four of a kind or
      a full house, and a straight likewise. */
  lemma EvaluateHandRules(h: seq<Card>)
    ensures EvaluateHand(h) == StraightFlush <==> IsStraight(h) && IsFlush(h)
    ensures EvaluateHand(h) == Flush ==> IsFlush(h) && !IsStraight(h)
    ensures EvaluateHand(h) == Straight ==> IsStraight(h) && !IsFlush(h)
    ensures IsFlush(h) ==> EvaluateHand(h) in {StraightFlush, FourOfAKind, FullHouse, Flush}
    ensures IsStraight(h) ==> EvaluateHand(h) in {StraightFlush, FourOfAKind, FullHouse, Straight}
  {
  }

  /** Five cards on five different ranks cannot pair up, so a straight that is not a flush
      is a Straight. */
  lemma StraightWithoutFlush(h: seq<Card>)
    requires |h| == 5 && IsStraight(h) && !IsFlush(h)
    ensures EvaluateHand(h) == Straight
  {
    DistinctIffSetSize(RanksOf(h));
    DistinctRanksProfile(h);
  }

  /** Five consecutive rank indices starting at `lo`. */
  function Run(lo: int): set<int> {
    {lo, lo + 1, lo + 2, lo + 3, lo + 4}
  }

  /** A five-card hand is a flush exactly when all its cards share one suit. */
  lemma FlushIffOneSuit(h: seq<Card>)
    requires |h| == 5
    ensures IsFlush(h) <==> forall i :: 0 <= i < 5 ==> h[i].suit == h[0].suit
  {
    var ss, sc := SuitsOf(h), SuitCounts(h);
    if IsFlush(h) {
      var k :| 0 <= k < 4 && sc[k] == 5;
      CountAll(ss, Suits[k]);
      assert forall i :: 0 <= i < 5 ==> h[i].suit == ss[i] == Suits[k];
    }
    if forall i :: 0 <= i < 5 ==> h[i].suit == h[0].suit {
      var x := h[0].suit;
      assert |ss| == 5 && forall i :: 0 <= i < |ss| ==> ss[i] == x;
      CountAll(ss, x);
      assert sc[SuitIndex(x)] == 5;
      var m := SeqMax(sc);
      var k :| 0 <= k < 4 && sc[k] == m;
      assert sc[k] == Count(ss, Suits[k]) <= 5;
    }
  }

  /** A five-card hand is a straight exactly when its ranks are pairwise different and
      the highest is four above the lowest. */
  lemma StraightIffDistinctSpan(h: seq<Card>)
    requires |h| == 5
    ensures IsStraight(h) <==>
      (forall i, j :: 0 <= i < j < 5 ==> h[i].rank != h[j].rank) &&
      SeqMax(RanksOf(h)) - SeqMin(RanksOf(h)) == 4
  {
    var idx := RanksOf(h);
    DistinctIffSetSize(idx);
    assert forall i :: 0 <= i < 5 ==> idx[i] == h[i].rank;
  }

  /** A five-card hand is a straight exactly when its ranks are five consecutive ranks. */
  lemma StraightIffRun(h: seq<Card>)
    requires |h| == 5
    ensures IsStraight(h) <==> exists lo :: 0 <= lo <= 8 && Elements(RanksOf(h)) == Run(lo)
  {
    if IsStraight(h) {
      var lo := StraightIsRun(h);
    }
    if exists lo :: 0 <= lo <= 8 && Elements(RanksOf(h)) == Run(lo) {
      var lo :| 0 <= lo <= 8 && Elements(RanksOf(h)) == Run(lo);
      RunIsStraight(h, lo);
    }
  }

  lemma StraightIsRun(h: seq<Card>) returns (lo: int)
    requires |h| == 5 && IsStraight(h)
    ensures 0 <= lo <= 8 && Elements(RanksOf(h)) == Run(lo)
  {
    var idx := RanksOf(h);
    var e := Elements(idx);
    lo := SeqMin(idx);
    var hi := SeqMax(idx);
    forall x | x in e ensures x in Run(lo) {
      var i :| 0 <= i < 5 && idx[i] == x;
      assert lo <= x <= hi;
    }
    RunFacts(lo);
    SubsetSize(e, Run(lo));
  }

  lemma RunIsStraight(h: seq<Card>, lo: int)
    requires |h| == 5 && 0 <= lo <= 8 && Elements(RanksOf(h)) == Run(lo)
    ensures IsStraight(h)
  {
    var idx := RanksOf(h);
    RunFacts(lo);
    var hi, low := SeqMax(idx), SeqMin(idx);
    assert hi <= lo + 4 by { assert hi in Run(lo); }
    assert low >= lo by { assert low in Run(lo); }
    assert lo + 4 in idx && lo in idx by { assert lo + 4 in Run(lo) && lo in Run(lo); }
  }

  lemma RunFacts(lo: int)
    ensures |Run(lo)| == 5
    ensures forall x :: x in Run(lo) <==> lo <= x <= lo + 4
  {
  }

  /** A hand holding an ace and a two is never a straight: an ace counts high only. */
  lemma AceLowIsNotStraight(h: seq<Card>, i: nat, j: nat)
    requires i < |h| && j < |h| && h[i].rank == Ace && h[j].rank == Two
    ensures !IsStraight(h)
    ensures EvaluateHand(h) != Straight && EvaluateHand(h) != StraightFlush
  {
    var idx := RanksOf(h);
    assert idx[i] == 12 && idx[j] == 0;
  }

  /** With exactly four cards of one rank the hand is a four of a kind, whatever the fifth card. */
  lemma FourOfAKindAnyKicker(h: seq<Card>, r: Rank)
    requires |h| == 5 && Count(RanksOf(h), r) == 4
    ensures EvaluateHand(h) == FourOfAKind
  {
    var idx, rc := RanksOf(h), RankCounts(h);
    CountTwiceNotDistinct(idx, r);
    DistinctIffSetSize(idx);
    forall k | 0 <= k < 13 && k != r ensures rc[k] <= 1 {
      CountTwo(idx, k, r);
    }
    SortedHead(RankProfile(h), rc);
    var m := SeqMax(rc);
    var k :| 0 <= k < 13 && rc[k] == m;
    assert rc[r] == 4;
  }

  /** Three cards of one rank and two of another make a full house. */
  lemma FullHouseFromCounts(h: seq<Card>, three: Rank, two: Rank)
    requires |h| == 5 && three != two
    requires Count(RanksOf(h), three) == 3 && Count(RanksOf(h), two) == 2
    ensures EvaluateHand(h) == FullHouse
  {
    var idx, rc := RanksOf(h), RankCounts(h);
    CountTwiceNotDistinct(idx, three);
    DistinctIffSetSize(idx);
    forall k | 0 <= k < 13 && k != three ensures rc[k] <= 2 {
      CountTwo(idx, k, three);
    }
    SortedSecond(RankProfile(h), rc, three, two, 3, 2);
  }

  /** Of two permutations of one sequence the maxima and the minima agree. */
  lemma ExtremaPermutation(s: seq<int>, t: seq<int>)
    requires multiset(s) == multiset(t) && s != []
    ensures t != [] && SeqMax(s) == SeqMax(t) && SeqMin(s) == SeqMin(t)
  {
    assert s[0] in multiset(t);
    assert SeqMax(s) in multiset(t) && SeqMax(t) in multiset(s);
    assert SeqMin(s) in multiset(t) && SeqMin(t) in multiset(s);
  }

  /** The evaluation depends only on which cards are held, not on their order. */
  lemma EvaluatePermutation(a: seq<Card>, b: seq<Card>)
    requires multiset(a) == multiset(b)
    ensures EvaluateHand(a) == EvaluateHand(b)
  {
    RanksAndSuitsAreProjections(a);
    RanksAndSuitsAreProjections(b);
    ProjectPermutation(a, b, RankOf);
    ProjectPermutation(a, b, SuitOf);
    CountsPermutation(RanksOf(a), RanksOf(b));
    CountsPermutation(SuitsOf(a), SuitsOf(b));
    assert RankCounts(a) == RankCounts(b);
    assert SuitCounts(a) == SuitCounts(b);
    StraightPermutation(a, b);
  }

  lemma CountsPermutation<T>(s: seq<T>, t: seq<T>)
    requires multiset(s) == multiset(t)
    ensures forall x :: Count(s, x) == Count(t, x)
  {
    forall x ensures Count(s, x) == Count(t, x) {
      CountIsMultiplicity(s, x);
      CountIsMultiplicity(t, x);
    }
  }

  lemma StraightPermutation(a: seq<Card>, b: seq<Card>)
    requires multiset(RanksOf(a)) == multiset(RanksOf(b))
    ensures IsStraight(a) == IsStraight(b)
  {
    var ra, rb := RanksOf(a), RanksOf(b);
    assert Elements(ra) == Elements(rb) by {
      forall x ensures x in ra <==> x in rb {
        assert x in ra <==> x in multiset(ra);
        assert x in rb <==> x in multiset(rb);
      }
    }
    if ra != [] {
      ExtremaPermutation(ra, rb);
    } else {
      assert |rb| == |multiset(rb)| == 0;
    }
  }

  /** Five cards of one suit on five consecutive ranks are a straight flush. */
  lemma ConsecutiveOneSuitIsStraightFlush(h: seq<Card>, lo: int)
    requires |h| == 5 && 0 <= lo <= 8 && Elements(RanksOf(h)) == Run(lo)
    requires forall i :: 0 <= i < 5 ==> h[i].suit == h[0].suit
    ensures EvaluateHand(h) == StraightFlush
  {
    FlushIffOneSuit(h);
    StraightIffRun(h);
  }

  /** Ten, jack, queen, king and ace of one suit: the ace-high straight flush. */
  lemma RoyalIsStraightFlush(s: Suit)
    ensures EvaluateHand([Card(s, 8), Card(s, 9), Card(s, 10), Card(s, 11), Card(s, 12)]) == StraightFlush
  {
    var h := [Card(s, 8), Card(s, 9), Card(s, 10), Card(s, 11), Card(s, 12)];
    assert RanksOf(h) == [8, 9, 10, 11, 12];
    assert Elements(RanksOf(h)) == Run(8);
    ConsecutiveOneSuitIsStraightFlush(h, 8);
  }

  /** When no rank repeats, the largest rank count is one. */
  lemma DistinctRanksProfile(h: seq<Card>)
    requires h != [] && Distinct(RanksOf(h))
    ensures RankProfile(h)[0] == 1
  {
    var idx, rc := RanksOf(h), RankCounts(h);
    forall k | 0 <= k < 13 ensures rc[k] <= 1 {
      CountDistinct(idx, k);
    }
    CountIsMultiplicity(idx, idx[0]);
    assert rc[idx[0]] >= 1;
    SortedHead(RankProfile(h), rc);
    var m := SeqMax(rc);
    var k :| 0 <= k < 13 && rc[k] == m;
  }

  /** Five different ranks, neither a flush nor a straight: high card. */
  lemma HighCardWhenNothingMatches(h: seq<Card>)
    requires |h| == 5 && Distinct(RanksOf(h)) && !IsFlush(h) && !IsStraight(h)
    ensures EvaluateHand(h) == HighCard
  {
    DistinctRanksProfile(h);
  }

  /** Ace, two, three, four and five are no straight: all of one suit they are a flush,
      otherwise high card. */
  lemma WheelIsNoStraight(h: seq<Card>)
    requires |h| == 5 && Elements(RanksOf(h)) == {Ace, 0, 1, 2, 3}
    ensures EvaluateHand(h) == if forall i :: 0 <= i < 5 ==> h[i].suit == h[0].suit then Flush else HighCard
  {
    var idx := RanksOf(h);
    assert Ace in idx && 0 in idx;
    var i :| 0 <= i < 5 && idx[i] == Ace;
    var j :| 0 <= j < 5 && idx[j] == 0;
    AceLowIsNotStraight(h, i, j);
    FlushIffOneSuit(h);
    DistinctIffSetSize(idx);
    assert |Elements(idx)| == 5;
    DistinctRanksProfile(h);
  }
}

/** The round and session logic of `play_poker`, without drawing, event polling and delays. */
module PokerGame {
  import opened Sequences
  import opened Cards
  import opened HandEvaluator

  /** The source's `num_games` and `initial_money`. */
  const DefaultNumGames: nat := 5
  const DefaultInitialMoney: real := 1000.0

  /** A position in the five-card hand: the index of a card the player clicked. */
  type Position = i: int | 0 <= i < 5

  /** The bet a placement produces from the entered text, given the money at that moment:
      `None` stands for text that `int()` rejects. */
  function ClampBet(input: Option<int>, money: real): (bet: real)
    ensures money >= 0.0 ==> 0.0 <= bet <= money
    ensures input.None? ==> bet == 0.0
    ensures input.Some? && money >= 0.0 ==>
      (0 <= input.value && input.value as real <= money ==> bet == input.value as real) &&
      (input.value < 0 ==> bet == 0.0) &&
      (input.value as real > money ==> bet == money)
  {
    match input
    case None => 0.0
    case Some(n) => if n as real > money then money else if n < 0 then 0.0 else n as real
  }

  /** The selection after a click on position `i`: removed when selected, appended otherwise. */
  function Toggled(selected: seq<Position>, i: Position): (r: seq<Position>)
    ensures i in selected ==> multiset(r) == multiset(selected) - multiset{i}
    ensures i !in selected ==> r == selected + [i]
  {
    if i in selected then RemoveFirst(selected, i) else selected + [i]
  }

  /** A click flips whether `i` is selected and nothing else; the selection stays free of repeats. */
  lemma ToggledMembership(selected: seq<Position>, i: Position)
    requires Distinct(selected)
    ensures Distinct(Toggled(selected, i))
    ensures forall p: Position :: p in Toggled(selected, i) <==> (p in selected) != (p == i)
  {
    var t := Toggled(selected, i);
    DistinctIffMultiplicity(selected);
    DistinctIffMultiplicity(t);
    if i in selected {
      assert forall p :: multiset(t)[p] <= multiset(selected)[p];
      forall p: Position ensures p in t <==> (p in selected) != (p == i) {
        assert p in t <==> p in multiset(t);
        assert p in selected <==> p in multiset(selected);
      }
    } else {
      assert forall p :: multiset(t)[p] == multiset(selected)[p] + (if p == i then 1 else 0);
      assert multiset(selected)[i] == 0;
    }
  }

  /** Clicking the same card twice restores the set of selected positions, and when the
      card was not selected before, the very same list. */
  lemma ToggleTwice(selected: seq<Position>, i: Position)
    requires Distinct(selected)
    ensures Elements(Toggled(Toggled(selected, i), i)) == Elements(selected)
    ensures i !in selected ==> Toggled(Toggled(selected, i), i) == selected
  {
    ToggledMembership(selected, i);
    ToggledMembership(Toggled(selected, i), i);
    if i !in selected {
      RemoveLast(selected, i);
    }
  }

  /** At most five different positions can be selected. */
  lemma SelectionAtMostFive(selected: seq<Position>)
    requires Distinct(selected)
    ensures |selected| <= 5
  {
    var all: set<Position> := {0, 1, 2, 3, 4};
    var e := Elements(selected);
    DistinctIffSetSize(selected);
    assert e <= all by {
      forall p | p in e ensures p in all {
        assert 0 <= p < 5;
      }
    }
    SubsetSize(e, all);
  }

  /** The hand after `for i in selected_indices`: each selected position in turn receives
      the card dealt from the end of the deck. */
  function Exchanged(hand: seq<Card>, selected: seq<Position>, deck: seq<Card>): (r: seq<Card>)
    requires |hand| == 5 && |selected| <= |deck|
    ensures |r| == 5
    decreases selected
  {
    if selected == [] then hand
    else Exchanged(hand[selected[0] := deck[|deck| - 1]], selected[1..], deck[..|deck| - 1])
  }

  /** The k-th selected position receives the k-th card from the end of the deck; the
      positions not selected keep their cards. */
  lemma {:induction false} ExchangedPositions(hand: seq<Card>, selected: seq<Position>, deck: seq<Card>)
    requires |hand| == 5 && |selected| <= |deck| && Distinct(selected)
    ensures forall p: Position :: p !in selected ==> Exchanged(hand, selected, deck)[p] == hand[p]
    ensures forall k :: 0 <= k < |selected| ==>
      Exchanged(hand, selected, deck)[selected[k]] == deck[|deck| - 1 - k]
    decreases selected
  {
    if selected != [] {
      var h', s', d' := hand[selected[0] := deck[|deck| - 1]], selected[1..], deck[..|deck| - 1];
      assert Distinct(s');
      ExchangedPositions(h', s', d');
      var r := Exchanged(hand, selected, deck);
      assert r == Exchanged(h', s', d');
      assert selected[0] !in s';
      forall k | 0 <= k < |selected| ensures r[selected[k]] == deck[|deck| - 1 - k] {
        if k > 0 {
          assert selected[k] == s'[k - 1];
        }
      }
    }
  }

  /** The exchange only moves cards from the deck into the hand and discards the replaced
      ones, so no card ever appears twice among the hand and the deck. */
  lemma {:induction false} ExchangedMultiset(hand: seq<Card>, selected: seq<Position>, deck: seq<Card>)
    requires |hand| == 5 && |selected| <= |deck|
    ensures multiset(Exchanged(hand, selected, deck)) + multiset(deck[..|deck| - |selected|])
      <= multiset(hand) + multiset(deck)
    decreases selected
  {
    if selected != [] {
      var y := deck[|deck| - 1];
      var h', s', d' := hand[selected[0] := y], selected[1..], deck[..|deck| - 1];
      ExchangedMultiset(h', s', d');
      assert Exchanged(hand, selected, deck) == Exchanged(h', s', d');
      assert d'[..|d'| - |s'|] == deck[..|deck| - |selected|];
      var x := hand[selected[0]];
      assert deck == d' + [y];
      assert multiset(deck) == multiset(d') + multiset{y};
      assert multiset(h') == multiset(hand) - multiset{x} + multiset{y};
      assert x in multiset(hand);
      assert multiset(h') + multiset(d') == (multiset(hand) - multiset{x}) + multiset(deck);
      assert (multiset(hand) - multiset{x}) + multiset(deck) <= multiset(hand) + multiset(deck);
    } else {
      assert deck[..|deck|] == deck;
    }
  }

  lemma ExchangedUnique(hand: seq<Card>, selected: seq<Position>, deck: seq<Card>)
    requires |hand| == 5 && |selected| <= |deck| && Distinct(hand + deck)
    ensures Distinct(Exchanged(hand, selected, deck) + deck[..|deck| - |selected|])
  {
    ExchangedMultiset(hand, selected, deck);
    SubMultisetDistinct(Exchanged(hand, selected, deck) + deck[..|deck| - |selected|], hand + deck);
  }

  /** The deal at the start of a round: a new deck in the shuffled order, and five cards
      taken one by one off its end into a new hand. */
  method DealRound(shuffled: seq<Card>) returns (deck: Deck, hand: Hand)
    requires IsShuffled(shuffled)
    ensures fresh(deck) && fresh(hand)
    ensures deck.cards == shuffled[..47]
    ensures |hand.cards| == 5 && forall i :: 0 <= i < 5 ==> hand.cards[i] == shuffled[51 - i]
    ensures Distinct(hand.cards + deck.cards)
  {
    deck := new Deck(shuffled);
    hand := new Hand();
    for k := 0 to 5
      invariant deck.cards == shuffled[..52 - k]
      invariant |hand.cards| == k && forall i :: 0 <= i < k ==> hand.cards[i] == shuffled[51 - i]
      invariant multiset(hand.cards) + multiset(deck.cards) == multiset(shuffled)
    {
      assert shuffled[..52 - k] == shuffled[..51 - k] + [shuffled[51 - k]];
      var c := deck.Deal();
      hand.AddCard(c.value);
    }
    ShuffledDeck(shuffled);
    PermutationDistinct(hand.cards + deck.cards, shuffled);
  }

  /** A settled bet pays back between half and ten times itself, and a positive bet pays
      back less than itself exactly when the final hand is High Card. */
  lemma Winnings(bet: real, c: Category)
    requires bet >= 0.0
    ensures 0.5 * bet <= bet * c.Multiplier() <= 10.0 * bet
    ensures bet > 0.0 ==> (bet * c.Multiplier() < bet <==> c == HighCard)
  {
  }

  /** The state of `play_poker`: bankroll, bet, round counter, the round's deck and hand,
      the selected positions and whether the one exchange of the round has happened. */
  class Game {
    const numGames: nat
    const initialMoney: real
    var currentMoney: real
    var bet: real
    var currentGame: nat
    var selected: seq<Position>
    var exchangeDone: bool
    var deck: Deck?
    var hand: Hand?
    /** Inside a round (the inner event loop); false between rounds and on the final screen. */
    var playing: bool

    ghost predicate Valid()
      reads this, deck, hand
    {
      && initialMoney >= 0.0 && currentMoney >= 0.0 && bet >= 0.0
      && currentGame <= numGames
      && (!playing ==> bet == 0.0)
      && (playing ==>
            && deck != null && hand != null && currentGame < numGames
            && |hand.cards| == 5 && Distinct(selected) && |selected| <= 5
            && Distinct(hand.cards + deck.cards)
            && (!exchangeDone ==> |deck.cards| == 47))
    }

    /** The summary screen: every round played, waiting for a retry. */
    predicate SessionEnded()
      reads this
    {
      !playing && currentGame >= numGames
    }

    /** The start of `play_poker`: full bankroll, round 0, no bet. */
    constructor (numGames: nat, initialMoney: real)
      requires initialMoney >= 0.0
      ensures Valid() && !playing && deck == null && hand == null
      ensures this.numGames == numGames && this.initialMoney == initialMoney
      ensures currentMoney == initialMoney && currentGame == 0 && bet == 0.0
    {
      this.numGames := numGames;
      this.initialMoney := initialMoney;
      currentMoney := initialMoney;
      currentGame := 0;
      bet := 0.0;
      selected := [];
      exchangeDone := false;
      deck := null;
      hand := null;
      playing := false;
    }

    /** The top of the outer loop: while rounds remain, a fresh deck (in the given shuffled
        order) and five cards dealt from its end; selection and exchange flag cleared. */
    method StartRound(shuffled: seq<Card>) returns (started: bool)
      requires Valid() && IsShuffled(shuffled)
      modifies this
      ensures Valid()
      ensures started == (!old(playing) && old(currentGame) < numGames)
      ensures started ==>
        && fresh(deck) && fresh(hand) && playing && selected == [] && !exchangeDone
        && deck.cards == shuffled[..47]
        && |hand.cards| == 5 && (forall i :: 0 <= i < 5 ==> hand.cards[i] == shuffled[51 - i])
      ensures !started ==>
        && deck == old(deck) && hand == old(hand) && playing == old(playing)
        && selected == old(selected) && exchangeDone == old(exchangeDone)
      ensures currentMoney == old(currentMoney) && bet == old(bet) && currentGame == old(currentGame)
    {
      started := !playing && currentGame < numGames;
      if started {
        var d, h := DealRound(shuffled);
        deck, hand := d, h;
        selected, exchangeDone, playing := [], false, true;
      }
    }

    /** A click on card `i` toggles its selection. */
    method ToggleSelection(i: Position)
      requires Valid() && playing
      modifies this
      ensures Valid()
      ensures selected == Toggled(old(selected), i)
      ensures currentMoney == old(currentMoney) && bet == old(bet) && currentGame == old(currentGame)
      ensures deck == old(deck) && hand == old(hand) && exchangeDone == old(exchangeDone) && playing
    {
      ToggledMembership(selected, i);
      if i in selected {
        selected := RemoveFirst(selected, i);
      } else {
        selected := selected + [i];
      }
      SelectionAtMostFive(selected);
    }

    /** Placing a bet: the entered amount clamped to [0, money] and debited at once. A
        second placement debits again; the earlier bet is not refunded. */
    method PlaceBet(input: Option<int>)
      requires Valid() && playing
      modifies this
      ensures Valid()
      ensures bet == ClampBet(input, old(currentMoney))
      ensures currentMoney == old(currentMoney) - bet
      ensures currentGame == old(currentGame) && selected == old(selected)
      ensures deck == old(deck) && hand == old(hand) && exchangeDone == old(exchangeDone) && playing
    {
      match input
      case None =>
        bet := 0.0;
      case Some(n) =>
        bet := n as real;
        if bet > currentMoney {
          bet := currentMoney;
        } else if bet < 0.0 {
          bet := 0.0;
        }
        currentMoney := currentMoney - bet;
    }

    /** The exchange button: only once per round and only with a positive bet, each selected
        position in turn gets the next card off the deck; the selection is cleared. */
    method Exchange() returns (done: bool)
      requires Valid() && playing
      modifies this, deck, hand
      ensures Valid()
      ensures done == (!old(exchangeDone) && old(bet) > 0.0)
      ensures deck == old(deck) && hand == old(hand)
      ensures done ==>
        && hand.cards == Exchanged(old(hand.cards), old(selected), old(deck.cards))
        && deck.cards == old(deck.cards)[..|old(deck.cards)| - |old(selected)|]
        && selected == [] && exchangeDone
      ensures !done ==>
        && hand.cards == old(hand.cards) && deck.cards == old(deck.cards)
        && selected == old(selected) && exchangeDone == old(exchangeDone)
      ensures currentMoney == old(currentMoney) && bet == old(bet) && currentGame == old(currentGame) && playing
    {
      done := !exchangeDone && bet > 0.0;
      if done {
        var d, h, sel := deck, hand, selected;
        ghost var h0, d0 := h.cards, d.cards;
        var k := 0;
        while k < |sel|
          invariant 0 <= k <= |sel| <= |d0|
          invariant deck == d && hand == h && selected == sel && bet == old(bet)
          invariant currentMoney == old(currentMoney) && currentGame == old(currentGame) && playing
          invariant d.cards == d0[..|d0| - k] && |h.cards| == 5
          invariant Exchanged(h.cards, sel[k..], d.cards) == Exchanged(h0, sel, d0)
        {
          var c := d.Deal();
          var ok := h.ReplaceCard(sel[k], c.value);
          assert sel[k..][1..] == sel[k + 1..];
          k := k + 1;
        }
        assert sel[k..] == [];
        ExchangedUnique(h0, sel, d0);
        selected := [];
        exchangeDone := true;
      }
    }

    /** The end of a frame after the exchange: the hand is evaluated, the bet times the
        multiplier is credited, the round counter advances and the bet is cleared. */
    method Settle() returns (settled: bool)
      requires Valid() && playing
      modifies this
      ensures Valid()
      ensures settled == old(exchangeDone)
      ensures deck == old(deck) && hand == old(hand) && selected == old(selected)
      ensures exchangeDone == old(exchangeDone)
      ensures settled ==>
        && currentMoney == old(currentMoney) + old(bet) * EvaluateHand(hand.cards).Multiplier()
        && currentGame == old(currentGame) + 1 && bet == 0.0 && !playing
      ensures !settled ==>
        currentMoney == old(currentMoney) && currentGame == old(currentGame) && bet == old(bet) && playing
    {
      settled := exchangeDone;
      if settled {
        var category := EvaluateHand(hand.cards);
        Winnings(bet, category);
        currentMoney, currentGame := currentMoney + bet * category.Multiplier(), currentGame + 1;
        bet, playing := 0.0, false;
      }
    }

    /** The retry button of the summary screen: bankroll and round counter back to their
        initial values. */
    method Restart() returns (restarted: bool)
      requires Valid()
      modifies this
      ensures Valid()
      ensures restarted == old(SessionEnded())
      ensures restarted ==> currentMoney == initialMoney && currentGame == 0
      ensures !restarted ==> currentMoney == old(currentMoney) && currentGame == old(currentGame)
      ensures bet == old(bet) && playing == old(playing) && deck == old(deck) && hand == old(hand)
      ensures selected == old(selected) && exchangeDone == old(exchangeDone)
    {
      restarted := SessionEnded();
      if restarted {
        currentMoney := initialMoney;
        currentGame := 0;
      }
    }
  }

  /** One session of a single round: bet 100 out of 1000, exchange the first two cards,
      settle, then retry from the summary screen. */
  method OneRoundSession(shuffled: seq<Card>)
    returns (afterBet: real, secondExchange: bool, finalHand: seq<Card>, afterSettle: real,
             ended: bool, afterRestart: real)
    requires IsShuffled(shuffled)
    ensures afterBet == 900.0 && !secondExchange
    ensures finalHand == [shuffled[46], shuffled[45], shuffled[49], shuffled[48], shuffled[47]]
    ensures afterSettle == 900.0 + 100.0 * EvaluateHand(finalHand).Multiplier()
    ensures EvaluateHand(finalHand) == OnePair ==> afterSettle == 1000.0
    ensures ended && afterRestart == 1000.0
  {
    var g := OpenRound(shuffled);
    afterBet := g.currentMoney;
    ghost var before := g.hand.cards;
    var done := g.Exchange();
    assert done;
    secondExchange := g.Exchange();
    finalHand := g.hand.cards;
    HandAfterExchange(before, shuffled, finalHand);
    var settled := g.Settle();
    afterSettle := g.currentMoney;
    ended := g.SessionEnded();
    var restarted := g.Restart();
    afterRestart := g.currentMoney;
  }

  /** The first part of the single-round session: deal, bet 100, select the first two cards. */
  method OpenRound(shuffled: seq<Card>) returns (g: Game)
    requires IsShuffled(shuffled)
    ensures fresh(g) && fresh(g.deck) && fresh(g.hand) && g.Valid() && g.playing
    ensures g.numGames == 1 && g.initialMoney == 1000.0 && g.currentGame == 0
    ensures g.currentMoney == 900.0 && g.bet == 100.0 && g.selected == [0, 1] && !g.exchangeDone
    ensures g.deck.cards == shuffled[..47]
    ensures |g.hand.cards| == 5 && forall i :: 0 <= i < 5 ==> g.hand.cards[i] == shuffled[51 - i]
  {
    g := new Game(1, 1000.0);
    var started := g.StartRound(shuffled);
    g.PlaceBet(Some(100));
    g.ToggleSelection(0);
    assert g.selected == [0];
    g.ToggleSelection(1);
  }

  lemma HandAfterExchange(before: seq<Card>, shuffled: seq<Card>, after: seq<Card>)
    requires |shuffled| == 52 && |before| == 5
    requires forall i :: 0 <= i < 5 ==> before[i] == shuffled[51 - i]
    requires after == Exchanged(before, [0, 1], shuffled[..47])
    ensures after == [shuffled[46], shuffled[45], shuffled[49], shuffled[48], shuffled[47]]
  {
  }

  /** Bets placed one after another within a round, starting from 1000: each is clamped
      to the money left and debited again. */
  method BetSequence(shuffled: seq<Card>) returns (bets: seq<real>, money: seq<real>)
    requires IsShuffled(shuffled)
    ensures bets == [0.0, 100.0, 50.0, 850.0, 0.0]
    ensures money == [1000.0, 900.0, 850.0, 0.0, 0.0]
  {
    var g := new Game(DefaultNumGames, DefaultInitialMoney);
    var started := g.StartRound(shuffled);
    g.PlaceBet(Some(-5));
    bets, money := [g.bet], [g.currentMoney];
    g.PlaceBet(Some(100));
    bets, money := bets + [g.bet], money + [g.currentMoney];
    g.PlaceBet(Some(50));
    bets, money := bets + [g.bet], money + [g.currentMoney];
    g.PlaceBet(Some(5000));
    bets, money := bets + [g.bet], money + [g.currentMoney];
    g.PlaceBet(None);
    bets, money := bets + [g.bet], money + [g.currentMoney];
  }

  /** A round that can no longer end: the whole bankroll is bet, then a bet that `int()`
      rejects (or 0) replaces it without a refund. With money and bet both 0 every later bet
      clamps to 0, the exchange needs a positive bet and settlement needs the exchange, so
      the round stays open and no new round can start. */
  method LockedRound(shuffled: seq<Card>, later: Option<int>)
    returns (money: real, bet: real, exchanged: bool, settled: bool, playing: bool, started: bool)
    requires IsShuffled(shuffled)
    ensures money == 0.0 && bet == 0.0
    ensures !exchanged && !settled && playing && !started
  {
    var g := new Game(DefaultNumGames, DefaultInitialMoney);
    started := g.StartRound(shuffled);
    g.PlaceBet(Some(1000));
    g.PlaceBet(None);
    g.PlaceBet(later);
    exchanged := g.Exchange();
    settled := g.Settle();
    started := g.StartRound(shuffled);
    money, bet, playing := g.currentMoney, g.bet, g.playing;
  }
}
