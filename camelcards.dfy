/** Day 7 (`src/puzzle07.rs`): poker-like hands of five cards, each hand with a
    bid. Hands are grouped into cards with their counts (`Hand::from`), ranked
    by their kind with or without jokers (`Hand::rank`), compared rank first
    and then card by card (`Hand::cmp`, `compare_cards`); `analyze` sorts the
    bids from the strongest hand down and adds up `position * bid`. */
module CamelCards {
  import opened Text

  datatype Ordering = Less | Equal | Greater

  function Flip(o: Ordering): Ordering
  {
    match o
    case Less => Greater
    case Equal => Equal
    case Greater => Less
  }

  /** `usize::cmp`. */
  function CompareNat(a: nat, b: nat): (o: Ordering)
    ensures o == Equal <==> a == b
    ensures o == Less <==> a < b
  {
    if a < b then Less else if a == b then Equal else Greater
  }

  // ---------------------------------------------------------------------------
  // compare_cards

  /** The cards from the strongest to the weakest. */
  const Order: seq<char> := "AKQJT98765432"

  predicate IsCard(c: char) { c in Order }

  /** `str::find` for a single character: the first position of `c`. */
  function Find(s: seq<char>, c: char): Option<nat>
  {
    if s == [] then None
    else if s[0] == c then Some(0)
    else
      var rest := Find(s[1..], c);
      if rest.None? then None else Some(rest.value + 1)
  }

  /** `find` gives the first position of `c`, or None when `c` does not occur. */
  lemma {:induction false} FindSpec(s: seq<char>, c: char)
    ensures var r := Find(s, c);
      (r.Some? ==> r.value < |s| && s[r.value] == c && forall k :: 0 <= k < r.value ==> s[k] != c) &&
      (r.None? <==> c !in s)
  {
    if s != [] && s[0] != c {
      FindSpec(s[1..], c);
      assert forall k :: 1 <= k < |s| ==> s[k] == s[1..][k - 1];
    }
  }

  /** The position of a card in `Order` (0 is the ace), as `order.find`
      gives it; `|Order|` for any other character. */
  function Index(c: char): nat
  {
    var f := Find(Order, c);
    if f.Some? then f.value else |Order|
  }

  lemma OrderDistinct()
    ensures forall a, b :: 0 <= a < b < |Order| ==> Order[a] != Order[b]
  {
  }

  /** A card's index is its position in `Order`; any other character's index
      is `|Order|`. */
  lemma IndexSpec(c: char)
    ensures IsCard(c) <==> Index(c) < |Order|
    ensures Index(c) < |Order| ==> Order[Index(c)] == c
  {
    FindSpec(Order, c);
  }

  /** `Index` inverts `Order`. */
  lemma IndexOfOrder(p: nat)
    requires p < |Order|
    ensures Index(Order[p]) == p
  {
    FindSpec(Order, Order[p]);
    OrderDistinct();
  }

  /** `compare_cards`: Greater when `a` stands before `b` in the order, that
      is when `b`'s position is the larger. The `unwrap`s require both to be
      cards. */
  function CompareCards(a: char, b: char): (o: Ordering)
    requires IsCard(a) && IsCard(b)
    ensures o == Equal <==> a == b
  {
    FindSpec(Order, a);
    FindSpec(Order, b);
    CompareNat(Find(Order, b).value, Find(Order, a).value)
  }

  /** Card comparison is a strict order on the thirteen cards: equal only for
      the same card, antisymmetric, transitive. */
  lemma CardOrder(a: char, b: char, c: char)
    requires IsCard(a) && IsCard(b) && IsCard(c)
    ensures CompareCards(a, b) == Equal <==> a == b
    ensures CompareCards(a, b) == Flip(CompareCards(b, a))
    ensures CompareCards(a, b) == Greater && CompareCards(b, c) == Greater ==> CompareCards(a, c) == Greater
  {
    IndexSpec(a);
    IndexSpec(b);
  }

  lemma CardExamples()
    ensures CompareCards('A', 'K') == Greater
    ensures CompareCards('J', 'T') == Greater
    ensures CompareCards('K', 'J') == Greater
    ensures CompareCards('Q', 'Q') == Equal
  {
  }

  /** Comparing two cards compares their positions in `Order`, reversed. */
  lemma CompareByIndex(a: char, b: char)
    requires IsCard(a) && IsCard(b)
    ensures CompareCards(a, b) == CompareNat(Index(b), Index(a))
  {
    FindSpec(Order, a);
    FindSpec(Order, b);
  }

  // ---------------------------------------------------------------------------
  // Hand::from

  /** A card of the hand and how often it occurs. */
  datatype Card = Card(value: char, count: nat)

  function Count(h: seq<char>, c: char): nat
  {
    multiset(h)[c]
  }

  lemma {:induction false} CountBound(h: seq<char>, c: char)
    ensures Count(h, c) <= |h|
  {
    if h != [] {
      CountBound(h[..|h| - 1], c);
      assert h == h[..|h| - 1] + [h[|h| - 1]];
    }
  }

  /** `d` with `c` added at the end, unless `d` holds it already. */
  function Adjoin(d: seq<char>, c: char): seq<char>
  {
    if c in d then d else d + [c]
  }

  /** The distinct characters of `h`, in order of first occurrence. */
  function Distinct(h: seq<char>): seq<char>
  {
    if h == [] then [] else Adjoin(Distinct(h[..|h| - 1]), h[|h| - 1])
  }

  /** Each character of `h` once, and nothing else. */
  lemma {:induction false} DistinctSpec(h: seq<char>)
    ensures forall c :: c in Distinct(h) <==> c in h
    ensures forall i, j :: 0 <= i < j < |Distinct(h)| ==> Distinct(h)[i] != Distinct(h)[j]
  {
    if h != [] {
      DistinctSpec(h[..|h| - 1]);
      assert h == h[..|h| - 1] + [h[|h| - 1]];
    }
  }

  /** The map of `Hand::from` as a list: each distinct character with its
      number of occurrences. */
  function Tally(h: seq<char>): (cs: seq<Card>)
    ensures |cs| == |Distinct(h)|
  {
    var d := Distinct(h);
    seq(|d|, k requires 0 <= k < |d| => Card(d[k], Count(h, d[k])))
  }

  /** `x` sorts before `y` in `Hand::from`: larger count first, then the
      stronger card. */
  predicate Before(x: Card, y: Card)
  {
    x.count > y.count || (x.count == y.count && Index(x.value) < Index(y.value))
  }

  /** Inserts `x` in front of the first entry it sorts before. */
  function Insert(cs: seq<Card>, x: Card): seq<Card>
  {
    if cs == [] then [x]
    else if Before(x, cs[0]) then [x] + cs
    else [cs[0]] + Insert(cs[1..], x)
  }

  /** The `sort_by` of `Hand::from`, as an insertion sort. */
  function Sort(cs: seq<Card>): seq<Card>
  {
    if cs == [] then [] else Insert(Sort(cs[..|cs| - 1]), cs[|cs| - 1])
  }

  lemma {:induction false} InsertPerm(cs: seq<Card>, x: Card)
    ensures multiset(Insert(cs, x)) == multiset(cs) + multiset{x}
    decreases |cs|
  {
    if cs != [] && !Before(x, cs[0]) {
      InsertPerm(cs[1..], x);
      assert cs == [cs[0]] + cs[1..];
    }
  }

  lemma {:induction false} SortPerm(cs: seq<Card>)
    ensures multiset(Sort(cs)) == multiset(cs)
    decreases |cs|
  {
    if cs != [] {
      SortPerm(cs[..|cs| - 1]);
      InsertPerm(Sort(cs[..|cs| - 1]), cs[|cs| - 1]);
      assert cs == cs[..|cs| - 1] + [cs[|cs| - 1]];
    }
  }

  /** The `cards` of `Hand::from`. */
  function Groups(h: seq<char>): seq<Card>
  {
    Sort(Tally(h))
  }

  predicate Ordered(cs: seq<Card>)
  {
    forall i, j :: 0 <= i < j < |cs| ==> Before(cs[i], cs[j])
  }

  /** Every entry is a card of the hand with its true count. */
  predicate Counted(h: seq<char>, cs: seq<Card>)
  {
    forall k :: 0 <= k < |cs| ==>
      IsCard(cs[k].value) && cs[k].count == Count(h, cs[k].value) && 0 < cs[k].count <= |h|
  }

  /** A hand the puzzle deals: five cards. */
  predicate ValidHand(h: seq<char>)
  {
    |h| == 5 && forall i :: 0 <= i < |h| ==> IsCard(h[i])
  }

  lemma CountPositive(h: seq<char>, c: char)
    requires c in h
    ensures Count(h, c) > 0
  {
  }

  lemma TallyCounted(h: seq<char>)
    requires forall i :: 0 <= i < |h| ==> IsCard(h[i])
    ensures Counted(h, Tally(h))
  {
    var t := Tally(h);
    forall k | 0 <= k < |t|
      ensures IsCard(t[k].value) && t[k].count == Count(h, t[k].value) && 0 < t[k].count <= |h|
    {
      var c := Distinct(h)[k];
      DistinctSpec(h);
      assert c in h;
      CountBound(h, c);
    }
  }

  /** Two entries with different cards are ordered one way or the other. */
  lemma BeforeTotal(x: Card, y: Card)
    requires IsCard(x.value) && IsCard(y.value) && x.value != y.value
    ensures Before(x, y) || Before(y, x)
  {
    IndexSpec(x.value);
    IndexSpec(y.value);
  }

  lemma BeforeTransitive(x: Card, y: Card, z: Card)
    requires Before(x, y) && Before(y, z)
    ensures Before(x, z)
  {
  }

  predicate Cards(cs: seq<Card>)
  {
    forall k :: 0 <= k < |cs| ==> IsCard(cs[k].value)
  }

  /** An entry before all of an ordered list keeps it ordered. */
  lemma ConsOrdered(y: Card, rest: seq<Card>)
    requires Ordered(rest)
    requires forall j :: 0 <= j < |rest| ==> Before(y, rest[j])
    ensures Ordered([y] + rest)
  {
    var r := [y] + rest;
    forall i, j | 0 <= i < j < |r|
      ensures Before(r[i], r[j])
    {
      assert r[j] == rest[j - 1];
      if i > 0 {
        assert r[i] == rest[i - 1];
      }
    }
  }

  lemma InsertMember(cs: seq<Card>, x: Card, j: nat)
    requires j < |Insert(cs, x)|
    ensures Insert(cs, x)[j] == x || Insert(cs, x)[j] in cs
  {
    InsertPerm(cs, x);
    var r := Insert(cs, x);
    assert r[j] in multiset(r);
    if r[j] != x {
      assert r[j] in multiset(cs);
    }
  }

  lemma {:induction false} InsertOrdered(cs: seq<Card>, x: Card)
    requires Ordered(cs) && Cards(cs) && IsCard(x.value)
    requires forall k :: 0 <= k < |cs| ==> cs[k].value != x.value
    ensures Ordered(Insert(cs, x))
    decreases |cs|
  {
    if cs == [] {
    } else if Before(x, cs[0]) {
      forall j | 0 <= j < |cs|
        ensures Before(x, cs[j])
      {
        if j > 0 {
          BeforeTransitive(x, cs[0], cs[j]);
        }
      }
      ConsOrdered(x, cs);
    } else {
      var rest := cs[1..];
      assert Ordered(rest) by {
        forall i, j | 0 <= i < j < |rest|
          ensures Before(rest[i], rest[j])
        {
          assert rest[i] == cs[i + 1] && rest[j] == cs[j + 1];
        }
      }
      InsertOrdered(rest, x);
      BeforeTotal(x, cs[0]);
      var ins := Insert(rest, x);
      forall j | 0 <= j < |ins|
        ensures Before(cs[0], ins[j])
      {
        InsertMember(rest, x, j);
        if ins[j] != x {
          var m :| 0 <= m < |rest| && rest[m] == ins[j];
          assert cs[m + 1] == rest[m];
        }
      }
      ConsOrdered(cs[0], ins);
    }
  }

  predicate Unique(cs: seq<Card>)
  {
    forall i, j :: 0 <= i < j < |cs| ==> cs[i].value != cs[j].value
  }

  lemma {:induction false} SortOrdered(cs: seq<Card>)
    requires Cards(cs) && Unique(cs)
    ensures Ordered(Sort(cs))
    decreases |cs|
  {
    if cs != [] {
      var init := cs[..|cs| - 1];
      var last := cs[|cs| - 1];
      SortOrdered(init);
      SortPerm(init);
      var sorted := Sort(init);
      forall k | 0 <= k < |sorted|
        ensures IsCard(sorted[k].value) && sorted[k].value != last.value
      {
        assert sorted[k] in multiset(sorted);
        var m :| 0 <= m < |init| && init[m] == sorted[k];
        assert cs[m] == init[m];
      }
      InsertOrdered(sorted, last);
    }
  }

  /** `Hand::from` groups the hand: every entry is a card of the hand with its
      count, the entries are sorted by count and then by card, both
      descending (so no card has two entries), and every card of the hand has
      an entry. */
  lemma GroupsSpec(h: seq<char>)
    requires forall i :: 0 <= i < |h| ==> IsCard(h[i])
    ensures Counted(h, Groups(h))
    ensures Ordered(Groups(h))
    ensures forall c :: c in h ==> exists k :: 0 <= k < |Groups(h)| && Groups(h)[k].value == c
  {
    var t := Tally(h);
    var g := Groups(h);
    DistinctSpec(h);
    TallyCounted(h);
    SortOrdered(t);
    SortPerm(t);
    forall k | 0 <= k < |g|
      ensures IsCard(g[k].value) && g[k].count == Count(h, g[k].value) && 0 < g[k].count <= |h|
    {
      assert g[k] in multiset(t);
    }
    forall c | c in h
      ensures exists k :: 0 <= k < |g| && g[k].value == c
    {
      DistinctSpec(h);
      var m :| 0 <= m < |Distinct(h)| && Distinct(h)[m] == c;
      assert t[m] in multiset(g);
      var k :| 0 <= k < |g| && g[k] == t[m];
    }
  }

  /** The distinct cards of a hand of five, card by card. */
  lemma DistinctFive(a: char, b: char, c: char, d: char, e: char)
    ensures Distinct([a, b, c, d, e]) == Adjoin(Adjoin(Adjoin(Adjoin([a], b), c), d), e)
  {
    var h := [a, b, c, d, e];
    var h4, h3, h2, h1 := h[..4], h[..3], h[..2], h[..1];
    assert h4[..3] == h3 && h3[..2] == h2 && h2[..1] == h1 && h1[..0] == [];
    assert Distinct(h1) == [a];
    assert Distinct(h2) == Adjoin(Distinct(h1), b);
    assert Distinct(h3) == Adjoin(Distinct(h2), c);
    assert Distinct(h4) == Adjoin(Distinct(h3), d);
    assert h[..4] == h4;
  }

  lemma DistinctExample()
    ensures Distinct("32T3K") == "32TK"
  {
    DistinctFive('3', '2', 'T', '3', 'K');
  }

  lemma TallyExample()
    ensures Tally("32T3K") == [Card('3', 2), Card('2', 1), Card('T', 1), Card('K', 1)]
  {
    DistinctExample();
    var m := multiset("32T3K");
    assert m == multiset{'3', '3', '2', 'T', 'K'};
    assert m['3'] == 2 && m['2'] == 1 && m['T'] == 1 && m['K'] == 1;
  }

  lemma InsertTwo()
    ensures Insert([Card('3', 2)], Card('2', 1)) == [Card('3', 2), Card('2', 1)]
  {
    assert [Card('3', 2)][1..] == [];
  }

  lemma InsertTen()
    ensures Insert([Card('3', 2), Card('2', 1)], Card('T', 1)) == [Card('3', 2), Card('T', 1), Card('2', 1)]
  {
    IndexOfOrder(4);
    IndexOfOrder(12);
    assert [Card('3', 2), Card('2', 1)][1..] == [Card('2', 1)];
  }

  lemma InsertKing()
    ensures Insert([Card('3', 2), Card('T', 1), Card('2', 1)], Card('K', 1)) ==
              [Card('3', 2), Card('K', 1), Card('T', 1), Card('2', 1)]
  {
    IndexOfOrder(1);
    IndexOfOrder(4);
    assert [Card('3', 2), Card('T', 1), Card('2', 1)][1..] == [Card('T', 1), Card('2', 1)];
  }

  lemma SortExample()
    ensures Sort([Card('3', 2), Card('2', 1), Card('T', 1), Card('K', 1)]) ==
              [Card('3', 2), Card('K', 1), Card('T', 1), Card('2', 1)]
  {
    var t := [Card('3', 2), Card('2', 1), Card('T', 1), Card('K', 1)];
    assert t[..3] == [Card('3', 2), Card('2', 1), Card('T', 1)];
    assert t[..3][..2] == [Card('3', 2), Card('2', 1)];
    assert t[..3][..2][..1] == [Card('3', 2)];
    assert Sort([Card('3', 2)]) == [Card('3', 2)] by {
      assert [Card('3', 2)][..0] == [];
    }
    InsertTwo();
    InsertTen();
    InsertKing();
  }

  /** The grouping of the test hand "32T3K". */
  lemma GroupsExample()
    ensures Groups("32T3K") == [Card('3', 2), Card('K', 1), Card('T', 1), Card('2', 1)]
  {
    TallyExample();
    SortExample();
  }

  // ---------------------------------------------------------------------------
  // Hand::rank

  /** A hand as the source keeps it: the text and its grouped cards. */
  datatype Hand = Hand(hand: seq<char>, cards: seq<Card>)

  /** `Hand::from`. */
  function FromHand(h: seq<char>): Hand
  {
    Hand(h, Groups(h))
  }
  /** `Hand::from` keeps the text and gives one group per distinct card: the
      tally, reordered. */
  lemma FromHandGroups(h: seq<char>)
    ensures FromHand(h).hand == h
    ensures |FromHand(h).cards| == |Distinct(h)| && multiset(FromHand(h).cards) == multiset(Tally(h))
  {
    var tally := Tally(h);
    SortPerm(tally);
    assert |Sort(tally)| == |multiset(Sort(tally))| == |multiset(tally)| == |tally|;
  }

  /** `iter().position`: the first entry for card `v`. */
  function Position(cs: seq<Card>, v: char): (r: Option<nat>)
    ensures r.Some? ==> r.value < |cs| && cs[r.value].value == v
  {
    if cs == [] then None
    else if cs[0].value == v then Some(0)
    else
      var rest := Position(cs[1..], v);
      if rest.None? then None else Some(rest.value + 1)
  }

  lemma {:induction false} PositionNone(cs: seq<Card>, v: char)
    requires Position(cs, v).None?
    ensures forall k :: 0 <= k < |cs| ==> cs[k].value != v
  {
    if cs != [] {
      PositionNone(cs[1..], v);
      assert forall k :: 1 <= k < |cs| ==> cs[k] == cs[1..][k - 1];
    }
  }

  /** The first half of `rank`: with jokers, the 'J' entry is taken out and
      its count returned. */
  function Jokers(cards: seq<Card>, joker: bool): (seq<Card>, nat)
  {
    if !joker then (cards, 0)
    else
      var p := Position(cards, 'J');
      if p.None? then (cards, 0)
      else (cards[..p.value] + cards[p.value + 1..], cards[p.value].count)
  }

  /** The second half of `rank`: the kind from the largest group plus the
      jokers, and the second group. None where the source indexes past the
      end of `cards`. */
  function Classify(rest: seq<Card>, jokers: nat, total: nat): Option<nat>
  {
    if jokers != 5 && |rest| == 0 then None
    else
      var first := if jokers == 5 then 5 else rest[0].count + jokers;
      if first == 5 then Some(7)
      else if first == 4 then Some(6)
      else if first == 3 || first == 2 then
        if |rest| < 2 then None
        else if first == 3 then Some(if rest[1].count == 2 then 5 else 4)
        else Some(if rest[1].count == 2 then 3 else 2)
      else if first == 1 then Some(if total == 5 then 1 else 0)
      else Some(0)
  }

  /** `Hand::rank`; None where it panics. */
  function Rank(hand: Hand, joker: bool): (r: Option<nat>)
    ensures r.Some? ==> r.value <= 7
  {
    var (rest, jokers) := Jokers(hand.cards, joker);
    Classify(rest, jokers, |hand.cards|)
  }

  /** The kind of a five-card hand from the number of different cards and the
      size of the largest group: five of a kind 7, four of a kind 6, full
      house 5, three of a kind 4, two pair 3, one pair 2, high card 1. */
  function Kind(variety: nat, most: nat): nat
  {
    if most == 5 then 7
    else if most == 4 then 6
    else if most == 3 then (if variety == 2 then 5 else 4)
    else if most == 2 then (if variety == 3 then 3 else 2)
    else if most == 1 then 1
    else 0
  }

  /** The largest count among the characters of `d`, leaving out 'J' when
      jokers are wild. */
  function MaxCount(h: seq<char>, d: seq<char>, joker: bool): nat
  {
    if d == [] then 0
    else
      var c := d[|d| - 1];
      var here := if joker && c == 'J' then 0 else Count(h, c);
      var before := MaxCount(h, d[..|d| - 1], joker);
      if here > before then here else before
  }

  /** The number of different cards, jokers not counted when they are wild. */
  function Variety(h: seq<char>, joker: bool): nat
  {
    var d := Distinct(h);
    if joker && 'J' in h then |d| - 1 else |d|
  }

  /** The number of jokers. */
  function Wild(h: seq<char>, joker: bool): nat
  {
    if joker then Count(h, 'J') else 0
  }

  function SumCounts(cs: seq<Card>): nat
  {
    if cs == [] then 0 else cs[0].count + SumCounts(cs[1..])
  }

  /** Counts that never increase and are all positive. */
  predicate Descending(cs: seq<Card>)
  {
    (forall i, j :: 0 <= i < j < |cs| ==> cs[i].count >= cs[j].count) &&
    (forall k :: 0 <= k < |cs| ==> cs[k].count > 0)
  }

  lemma DescendingTail(cs: seq<Card>)
    requires Descending(cs) && |cs| > 0
    ensures Descending(cs[1..])
  {
    var t := cs[1..];
    assert forall k :: 0 <= k < |t| ==> t[k] == cs[k + 1];
  }

  /** Positive counts add up to at least their number, and to exactly their
      number when each is at most one. */
  lemma {:induction false} SumAtLeast(cs: seq<Card>, bound: nat)
    requires Descending(cs)
    requires forall k :: 0 <= k < |cs| ==> cs[k].count <= bound
    ensures SumCounts(cs) >= |cs|
    ensures bound <= 1 ==> SumCounts(cs) == |cs|
    ensures |cs| > 0 ==> SumCounts(cs) >= cs[0].count
    decreases |cs|
  {
    if cs != [] {
      DescendingTail(cs);
      SumAtLeast(cs[1..], bound);
    }
  }

  /** The decision of `rank` on the groups left after the jokers agrees with
      the kind by variety and largest group. */
  lemma Classification(rest: seq<Card>, jokers: nat, total: nat)
    requires Descending(rest)
    requires SumCounts(rest) + jokers == 5
    requires jokers == 0 ==> total == |rest|
    ensures Classify(rest, jokers, total) ==
              Some(Kind(|rest|, if rest == [] then jokers else rest[0].count + jokers))
  {
    if |rest| == 1 {
      ClassifySingle(rest, jokers, total);
    } else if |rest| >= 2 {
      ClassifyMany(rest, jokers, total);
    }
  }

  /** One group and the jokers make five of a kind. */
  lemma ClassifySingle(rest: seq<Card>, jokers: nat, total: nat)
    requires Descending(rest) && |rest| == 1
    requires SumCounts(rest) + jokers == 5
    ensures Classify(rest, jokers, total) == Some(Kind(1, rest[0].count + jokers))
  {
    assert SumCounts(rest) == rest[0].count + SumCounts(rest[1..]);
    assert rest[1..] == [];
  }

  /** With two groups or more, the second group tells the full house from
      three of a kind, and two pair from one pair. */
  lemma ClassifyMany(rest: seq<Card>, jokers: nat, total: nat)
    requires Descending(rest) && |rest| >= 2
    requires SumCounts(rest) + jokers == 5
    requires jokers == 0 ==> total == |rest|
    ensures Classify(rest, jokers, total) == Some(Kind(|rest|, rest[0].count + jokers))
  {
    var a, b := rest[0].count, rest[1].count;
    var tail := rest[2..];
    assert rest[1..][1..] == tail;
    assert SumCounts(rest) == a + b + SumCounts(tail);
    DescendingTail(rest);
    DescendingTail(rest[1..]);
    assert forall k :: 0 <= k < |tail| ==> tail[k].count <= b by {
      forall k | 0 <= k < |tail|
        ensures tail[k].count <= b
      {
        assert tail[k] == rest[k + 2];
      }
    }
    SumAtLeast(tail, b);
    assert 1 <= b <= a;
  }

  // The counts of the groups add up to the length of the hand.

  lemma {:induction false} SumAppend(a: seq<Card>, b: seq<Card>)
    ensures SumCounts(a + b) == SumCounts(a) + SumCounts(b)
    decreases |a|
  {
    if a != [] {
      SumAppend(a[1..], b);
      assert (a + b)[1..] == a[1..] + b;
    } else {
      assert a + b == b;
    }
  }

  lemma {:induction false} InsertSum(cs: seq<Card>, x: Card)
    ensures SumCounts(Insert(cs, x)) == SumCounts(cs) + x.count
    decreases |cs|
  {
    if cs != [] && !Before(x, cs[0]) {
      InsertSum(cs[1..], x);
      assert ([cs[0]] + Insert(cs[1..], x))[1..] == Insert(cs[1..], x);
    } else if cs != [] {
      assert ([x] + cs)[1..] == cs;
    }
  }

  lemma {:induction false} SortSum(cs: seq<Card>)
    ensures SumCounts(Sort(cs)) == SumCounts(cs)
    decreases |cs|
  {
    if cs != [] {
      var init := cs[..|cs| - 1];
      SortSum(init);
      InsertSum(Sort(init), cs[|cs| - 1]);
      SumAppend(init, [cs[|cs| - 1]]);
      assert cs == init + [cs[|cs| - 1]];
    }
  }

  /** The total count in `h` of the characters of `d`. */
  function SumOver(h: seq<char>, d: seq<char>): nat
  {
    if d == [] then 0 else Count(h, d[0]) + SumOver(h, d[1..])
  }

  lemma {:induction false} TallySum(h: seq<char>, d: seq<char>)
    ensures SumCounts(seq(|d|, k requires 0 <= k < |d| => Card(d[k], Count(h, d[k])))) == SumOver(h, d)
    decreases |d|
  {
    if d != [] {
      var t := seq(|d|, k requires 0 <= k < |d| => Card(d[k], Count(h, d[k])));
      var u := seq(|d[1..]|, k requires 0 <= k < |d[1..]| => Card(d[1..][k], Count(h, d[1..][k])));
      TallySum(h, d[1..]);
      assert t[1..] == u;
    }
  }

  lemma {:induction false} SumOverSnoc(h: seq<char>, x: char, d: seq<char>)
    ensures SumOver(h + [x], d) == SumOver(h, d) + multiset(d)[x]
    decreases |d|
  {
    if d != [] {
      SumOverSnoc(h, x, d[1..]);
      assert multiset(h + [x]) == multiset(h) + multiset{x};
      assert d == [d[0]] + d[1..];
    }
  }

  lemma {:induction false} SumOverEmpty(d: seq<char>)
    ensures SumOver([], d) == 0
    decreases |d|
  {
    if d != [] {
      SumOverEmpty(d[1..]);
    }
  }

  lemma {:induction false} Once(d: seq<char>, x: char)
    requires forall i, j :: 0 <= i < j < |d| ==> d[i] != d[j]
    requires x in d
    ensures multiset(d)[x] == 1
    decreases |d|
  {
    assert d == [d[0]] + d[1..];
    if d[0] != x {
      Once(d[1..], x);
    } else {
      assert x !in d[1..];
    }
  }

  lemma {:induction false} SumOverAll(h: seq<char>, d: seq<char>)
    requires forall i, j :: 0 <= i < j < |d| ==> d[i] != d[j]
    requires forall c :: c in h ==> c in d
    ensures SumOver(h, d) == |h|
    decreases |h|
  {
    if h == [] {
      SumOverEmpty(d);
    } else {
      var init := h[..|h| - 1];
      var x := h[|h| - 1];
      assert h == init + [x];
      SumOverAll(init, d);
      SumOverSnoc(init, x, d);
      Once(d, x);
    }
  }

  /** The groups of a dealt hand count its five cards, largest first. */
  lemma GroupsSum(h: seq<char>)
    requires ValidHand(h)
    ensures Descending(Groups(h))
    ensures SumCounts(Groups(h)) == 5
    ensures |Groups(h)| == |Distinct(h)|
  {
    var t := Tally(h);
    var g := Groups(h);
    GroupsSpec(h);
    SortPerm(t);
    assert |g| == |multiset(g)| == |multiset(t)| == |t|;
    SortSum(t);
    TallySum(h, Distinct(h));
    DistinctSpec(h);
    SumOverAll(h, Distinct(h));
  }

  /** Taking one group out keeps the order. */
  lemma RemoveDescending(g: seq<Card>, p: nat)
    requires Descending(g) && p < |g|
    ensures Descending(g[..p] + g[p + 1..])
  {
    var rest := g[..p] + g[p + 1..];
    forall k | 0 <= k < |rest|
      ensures rest[k] == g[if k < p then k else k + 1]
    {
    }
  }

  /** Taking one group out removes its count. */
  lemma RemoveSum(g: seq<Card>, p: nat)
    requires p < |g|
    ensures SumCounts(g[..p] + g[p + 1..]) + g[p].count == SumCounts(g)
  {
    SumAppend(g[..p], g[p + 1..]);
    SumAppend(g[..p], [g[p]] + g[p + 1..]);
    assert g == g[..p] + ([g[p]] + g[p + 1..]);
    assert SumCounts([g[p]] + g[p + 1..]) == g[p].count + SumCounts(g[p + 1..]);
  }

  lemma {:induction false} MaxCountSpec(h: seq<char>, d: seq<char>, joker: bool)
    ensures forall c :: c in d && !(joker && c == 'J') ==> Count(h, c) <= MaxCount(h, d, joker)
    ensures MaxCount(h, d, joker) > 0 ==>
              exists c :: c in d && !(joker && c == 'J') && Count(h, c) == MaxCount(h, d, joker)
    decreases |d|
  {
    if d != [] {
      var init := d[..|d| - 1];
      MaxCountSpec(h, init, joker);
      assert d == init + [d[|d| - 1]];
    }
  }

  /** What `Hand::from` makes of a hand, as proved of `Groups` below. */
  predicate Grouped(h: seq<char>, g: seq<Card>)
  {
    Counted(h, g) && Ordered(g) && Descending(g) && SumCounts(g) == |h| &&
    |g| == |Distinct(h)| &&
    (forall c :: c in h ==> exists k :: 0 <= k < |g| && g[k].value == c)
  }

  /** The groups left after the jokers are the other cards of the hand, each
      with its count. */
  predicate Others(h: seq<char>, rest: seq<Card>, joker: bool)
  {
    (forall c :: c in h && !(joker && c == 'J') ==>
       exists k :: 0 <= k < |rest| && rest[k].value == c) &&
    (forall k :: 0 <= k < |rest| ==>
       rest[k].count == Count(h, rest[k].value) && rest[k].value in h &&
       !(joker && rest[k].value == 'J'))
  }

  lemma GroupsGrouped(h: seq<char>)
    requires ValidHand(h)
    ensures Grouped(h, Groups(h))
  {
    GroupsSpec(h);
    GroupsSum(h);
  }

  lemma GroupedMembers(h: seq<char>, g: seq<Card>)
    requires Grouped(h, g)
    ensures forall k :: 0 <= k < |g| ==> g[k].value in h
  {
    forall k | 0 <= k < |g|
      ensures g[k].value in h
    {
      assert g[k].count > 0;
    }
  }

  /** No card has two groups. */
  lemma GroupedUnique(h: seq<char>, g: seq<Card>)
    requires Grouped(h, g)
    ensures forall i, j :: 0 <= i < j < |g| ==> g[i].value != g[j].value
  {
    forall i, j | 0 <= i < j < |g|
      ensures g[i].value != g[j].value
    {
      assert Before(g[i], g[j]);
    }
  }

  /** Where each group of `g` lands once group `q` is taken out. */
  lemma RemovedAt(g: seq<Card>, q: nat, rest: seq<Card>)
    requires q < |g| && rest == g[..q] + g[q + 1..]
    ensures |rest| == |g| - 1
    ensures forall k :: 0 <= k < |rest| ==> rest[k] == g[if k < q then k else k + 1]
  {
  }

  /** Every card other than 'J' keeps a group. */
  lemma RestCovers(h: seq<char>, g: seq<Card>, q: nat)
    requires Grouped(h, g)
    requires q < |g| && g[q].value == 'J'
    ensures var rest := g[..q] + g[q + 1..];
            forall c :: c in h && c != 'J' ==> exists k :: 0 <= k < |rest| && rest[k].value == c
  {
    var rest := g[..q] + g[q + 1..];
    RemovedAt(g, q, rest);
    forall c | c in h && c != 'J'
      ensures exists k :: 0 <= k < |rest| && rest[k].value == c
    {
      var k :| 0 <= k < |g| && g[k].value == c;
      assert k != q;
      assert rest[if k < q then k else k - 1] == g[k];
    }
  }

  /** Every group left is a card of the hand other than 'J', with its count. */
  lemma RestCounts(h: seq<char>, g: seq<Card>, q: nat)
    requires Grouped(h, g)
    requires q < |g| && g[q].value == 'J'
    ensures var rest := g[..q] + g[q + 1..];
            forall k :: 0 <= k < |rest| ==>
              rest[k].count == Count(h, rest[k].value) && rest[k].value in h && rest[k].value != 'J'
  {
    var rest := g[..q] + g[q + 1..];
    GroupedMembers(h, g);
    GroupedUnique(h, g);
    RemovedAt(g, q, g[..q] + g[q + 1..]);
    forall k | 0 <= k < |rest|
      ensures rest[k].count == Count(h, rest[k].value) && rest[k].value in h && rest[k].value != 'J'
    {
      var j := if k < q then k else k + 1;
      assert rest[k] == g[j] && j != q;
    }
  }

  /** The groups other than the 'J' group are the other cards. */
  lemma RestOthers(h: seq<char>, g: seq<Card>, q: nat)
    requires Grouped(h, g)
    requires q < |g| && g[q].value == 'J'
    ensures Others(h, g[..q] + g[q + 1..], true)
  {
    RestCovers(h, g, q);
    RestCounts(h, g, q);
  }

  /** Taking out the 'J' group leaves the other cards. */
  lemma WithoutJoker(h: seq<char>, g: seq<Card>, q: nat)
    requires |h| == 5 && Grouped(h, g)
    requires q < |g| && g[q].value == 'J'
    ensures var rest := g[..q] + g[q + 1..];
            Descending(rest) && SumCounts(rest) + g[q].count == 5 &&
            |rest| == Variety(h, true) && g[q].count == Wild(h, true) && Others(h, rest, true)
  {
    RemoveDescending(g, q);
    RemoveSum(g, q);
    RestOthers(h, g, q);
    assert g[q].count > 0;
  }

  /** Without a 'J' group nothing is taken out. */
  lemma NoJoker(h: seq<char>, g: seq<Card>, joker: bool)
    requires |h| == 5 && Grouped(h, g)
    requires joker ==> Position(g, 'J').None?
    ensures |g| == Variety(h, joker) && Wild(h, joker) == 0 && Others(h, g, joker)
  {
    GroupedMembers(h, g);
    if joker {
      PositionNone(g, 'J');
      assert 'J' !in h;
      assert multiset(h)['J'] == 0;
    }
  }

  /** After the jokers are taken out, the groups left are the other cards of
      the hand, largest first, and they count five cards with the jokers. */
  lemma JokersFacts(h: seq<char>, g: seq<Card>, joker: bool)
    requires |h| == 5 && Grouped(h, g)
    ensures var rest := Jokers(g, joker).0;
            var jokers := Jokers(g, joker).1;
            Descending(rest) && SumCounts(rest) + jokers == 5 &&
            (jokers == 0 ==> |rest| == |g|) &&
            |rest| == Variety(h, joker) && jokers == Wild(h, joker) && Others(h, rest, joker)
  {
    var p := Position(g, 'J');
    if joker && p.Some? {
      WithoutJoker(h, g, p.value);
      assert g[p.value].count > 0;
    } else {
      NoJoker(h, g, joker);
    }
  }

  /** The first of the groups left by the jokers is the largest count among
      the other cards. */
  lemma LargestOther(h: seq<char>, rest: seq<Card>, joker: bool)
    requires Descending(rest) && Others(h, rest, joker)
    ensures MaxCount(h, Distinct(h), joker) == if rest == [] then 0 else rest[0].count
  {
    var d := Distinct(h);
    DistinctSpec(h);
    MaxCountSpec(h, d, joker);
    var m := MaxCount(h, d, joker);
    if m > 0 {
      var c :| c in d && !(joker && c == 'J') && Count(h, c) == m;
      var k :| 0 <= k < |rest| && rest[k].value == c;
      assert rest[0].value in d;
      assert rest[0].count >= rest[k].count;
    }
  }

  /** What `Rank` needs of the groups left after the jokers, in numbers: the
      facts its classification rests on. */
  lemma JokersParts(h: seq<char>, g: seq<Card>, joker: bool)
    requires |h| == 5 && Grouped(h, g)
    ensures var rest := Jokers(g, joker).0;
            var jokers := Jokers(g, joker).1;
            Descending(rest) && SumCounts(rest) + jokers == 5 &&
            (jokers == 0 ==> |rest| == |g|) &&
            |rest| == Variety(h, joker) && jokers == Wild(h, joker) &&
            MaxCount(h, Distinct(h), joker) == (if rest == [] then 0 else rest[0].count)
  {
    JokersFacts(h, g, joker);
    LargestOther(h, Jokers(g, joker).0, joker);
  }

  lemma RankOf(h: seq<char>, g: seq<Card>, joker: bool)
    requires |h| == 5 && Grouped(h, g)
    ensures Rank(Hand(h, g), joker) ==
              Some(Kind(Variety(h, joker), MaxCount(h, Distinct(h), joker) + Wild(h, joker)))
  {
    var rest := Jokers(g, joker).0;
    var jokers := Jokers(g, joker).1;
    JokersParts(h, g, joker);
    Classification(rest, jokers, |g|);
  }

  /** `Hand::rank` never panics on a dealt hand, and classifies it by the
      number of different cards and the largest group: without jokers
      directly, with jokers by adding them to the largest group of the other
      cards. */
  lemma RankKind(h: seq<char>, joker: bool)
    requires ValidHand(h)
    ensures Rank(FromHand(h), joker) ==
              Some(Kind(Variety(h, joker), MaxCount(h, Distinct(h), joker) + Wild(h, joker)))
  {
    GroupsGrouped(h);
    RankOf(h, Groups(h), joker);
  }

  // The ranks of the source's tests. Each lemma computes, on the test's
  // hand, the kind that `RankKind` says `Hand::rank` returns; the hand is a
  // parameter so that the grouping is not unrolled on a literal.

  /** The largest count is `m` when card `c` has it and no card has more. */
  lemma MaxCountIs(h: seq<char>, joker: bool, c: char, m: nat)
    requires c in h && !(joker && c == 'J') && Count(h, c) == m
    requires forall x :: !(joker && x == 'J') ==> Count(h, x) <= m
    ensures MaxCount(h, Distinct(h), joker) == m
  {
    DistinctSpec(h);
    MaxCountSpec(h, Distinct(h), joker);
  }

  /** A hand holding one pair and three singles has two as its largest count. */
  lemma PairMost(h: seq<char>, a: char, b: char, c: char, e: char)
    requires multiset(h) == multiset{a, a, b, c, e}
    requires a != b && a != c && a != e && b != c && b != e && c != e
    ensures a in h && Count(h, a) == 2
    ensures forall x :: Count(h, x) <= 2
  {
    assert a in multiset(h);
  }

  lemma HighPairMost(h: seq<char>)
    requires h == "32T3K"
    ensures MaxCount(h, Distinct(h), false) == 2
  {
    assert multiset(h) == multiset{'3', '3', '2', 'T', 'K'};
    PairMost(h, '3', '2', 'T', 'K');
    MaxCountIs(h, false, '3', 2);
  }

  /** "32T3K" is one pair without jokers. */
  lemma RankHighPair(h: seq<char>)
    requires h == "32T3K"
    ensures ValidHand(h)
    ensures Kind(Variety(h, false), MaxCount(h, Distinct(h), false) + Wild(h, false)) == 2
  {
    DistinctExample();
    HighPairMost(h);
  }

  lemma FiveJokersVariety(h: seq<char>)
    requires h == "JJJJJ"
    ensures ValidHand(h) && Variety(h, true) == 0 && Wild(h, true) == 5
  {
    DistinctFive('J', 'J', 'J', 'J', 'J');
    assert multiset(h) == multiset{'J', 'J', 'J', 'J', 'J'};
    assert h[0] == 'J' && Count(h, 'J') == 5;
  }

  lemma FiveJokersMost(h: seq<char>)
    requires h == "JJJJJ"
    ensures MaxCount(h, Distinct(h), true) == 0
  {
    DistinctFive('J', 'J', 'J', 'J', 'J');
    assert MaxCount(h, "J", true) == MaxCount(h, [], true);
  }

  /** "JJJJJ" is five of a kind with jokers. */
  lemma RankFiveJokers(h: seq<char>)
    requires h == "JJJJJ"
    ensures ValidHand(h)
    ensures Kind(Variety(h, true), MaxCount(h, Distinct(h), true) + Wild(h, true)) == 7
  {
    FiveJokersVariety(h);
    FiveJokersMost(h);
  }

  lemma FourJokersVariety(h: seq<char>)
    requires h == "AJJJJ"
    ensures ValidHand(h) && Variety(h, true) == 1 && Wild(h, true) == 4
  {
    DistinctFive('A', 'J', 'J', 'J', 'J');
    assert multiset(h) == multiset{'A', 'J', 'J', 'J', 'J'};
    assert h[4] == 'J' && Count(h, 'J') == 4;
  }

  lemma FourJokersMost(h: seq<char>)
    requires h == "AJJJJ"
    ensures MaxCount(h, Distinct(h), true) == 1
  {
    assert multiset(h) == multiset{'A', 'J', 'J', 'J', 'J'};
    assert h[0] == 'A';
    MaxCountIs(h, true, 'A', 1);
  }

  /** "AJJJJ" is five of a kind with jokers. */
  lemma RankFourJokers(h: seq<char>)
    requires h == "AJJJJ"
    ensures ValidHand(h)
    ensures Kind(Variety(h, true), MaxCount(h, Distinct(h), true) + Wild(h, true)) == 7
  {
    FourJokersVariety(h);
    FourJokersMost(h);
  }

  lemma ThreeJokersVariety(h: seq<char>)
    requires h == "AKJJJ"
    ensures ValidHand(h) && Variety(h, true) == 2 && Wild(h, true) == 3
  {
    DistinctFive('A', 'K', 'J', 'J', 'J');
    assert multiset(h) == multiset{'A', 'K', 'J', 'J', 'J'};
    assert h[4] == 'J' && Count(h, 'J') == 3;
  }

  lemma ThreeJokersMost(h: seq<char>)
    requires h == "AKJJJ"
    ensures MaxCount(h, Distinct(h), true) == 1
  {
    assert multiset(h) == multiset{'A', 'K', 'J', 'J', 'J'};
    assert h[0] == 'A';
    MaxCountIs(h, true, 'A', 1);
  }

  /** "AKJJJ" is four of a kind with jokers. */
  lemma RankThreeJokers(h: seq<char>)
    requires h == "AKJJJ"
    ensures ValidHand(h)
    ensures Kind(Variety(h, true), MaxCount(h, Distinct(h), true) + Wild(h, true)) == 6
  {
    ThreeJokersVariety(h);
    ThreeJokersMost(h);
  }

  lemma TwoJokersVariety(h: seq<char>)
    requires h == "AK3JJ"
    ensures ValidHand(h) && Variety(h, true) == 3 && Wild(h, true) == 2
  {
    assert Variety(h, true) == 3 by {
      DistinctFive('A', 'K', '3', 'J', 'J');
      assert h[4] == 'J';
    }
    assert Wild(h, true) == 2 by {
      assert multiset(h) == multiset{'A', 'K', '3', 'J', 'J'};
    }
  }

  lemma TwoJokersMost(h: seq<char>)
    requires h == "AK3JJ"
    ensures MaxCount(h, Distinct(h), true) == 1
  {
    assert multiset(h) == multiset{'A', 'K', '3', 'J', 'J'};
    assert h[0] == 'A';
    MaxCountIs(h, true, 'A', 1);
  }

  /** "AK3JJ" is three of a kind with jokers. */
  lemma RankTwoJokers(h: seq<char>)
    requires h == "AK3JJ"
    ensures ValidHand(h)
    ensures Kind(Variety(h, true), MaxCount(h, Distinct(h), true) + Wild(h, true)) == 4
  {
    TwoJokersVariety(h);
    TwoJokersMost(h);
  }

  lemma OneJokerVariety(h: seq<char>)
    requires h == "AK32J"
    ensures ValidHand(h) && Variety(h, true) == 4 && Wild(h, true) == 1
  {
    assert Variety(h, true) == 4 by {
      DistinctFive('A', 'K', '3', '2', 'J');
      assert h[4] == 'J';
    }
    assert Wild(h, true) == 1 by {
      assert multiset(h) == multiset{'A', 'K', '3', '2', 'J'};
    }
  }

  lemma OneJokerMost(h: seq<char>)
    requires h == "AK32J"
    ensures MaxCount(h, Distinct(h), true) == 1
  {
    assert multiset(h) == multiset{'A', 'K', '3', '2', 'J'};
    assert h[0] == 'A';
    MaxCountIs(h, true, 'A', 1);
  }

  /** "AK32J" is one pair with jokers. */
  lemma RankOneJoker(h: seq<char>)
    requires h == "AK32J"
    ensures ValidHand(h)
    ensures Kind(Variety(h, true), MaxCount(h, Distinct(h), true) + Wild(h, true)) == 2
  {
    OneJokerVariety(h);
    OneJokerMost(h);
  }

  // Jokers never make a hand weaker.

  /** Without jokers the largest count also looks at 'J'. */
  lemma {:induction false} MaxCountJoker(h: seq<char>, d: seq<char>)
    ensures var plain := MaxCount(h, d, false);
            var wild := MaxCount(h, d, true);
            var j := if 'J' in d then Count(h, 'J') else 0;
            plain == if wild > j then wild else j
    decreases |d|
  {
    if d != [] {
      var init := d[..|d| - 1];
      MaxCountJoker(h, init);
      assert d == init + [d[|d| - 1]];
    }
  }

  /** Two different cards together occur at most as often as the hand is
      long. */
  lemma {:induction false} CountPair(h: seq<char>, c: char, e: char)
    requires c != e
    ensures Count(h, c) + Count(h, e) <= |h|
    decreases |h|
  {
    if h != [] {
      var init := h[..|h| - 1];
      CountPair(init, c, e);
      assert h == init + [h[|h| - 1]];
      assert multiset(h) == multiset(init) + multiset{h[|h| - 1]};
    }
  }

  /** A hand of one card only holds it `|h|` times. */
  lemma {:induction false} CountAll(h: seq<char>, c: char)
    requires forall i :: 0 <= i < |h| ==> h[i] == c
    ensures Count(h, c) == |h|
    decreases |h|
  {
    if h != [] {
      var init := h[..|h| - 1];
      CountAll(init, c);
      assert h == init + [c];
      assert multiset(h) == multiset(init) + multiset{c};
    }
  }

  /** A larger group always makes a stronger kind. */
  lemma KindStronger(v: nat, w: nat, m: nat, n: nat)
    requires 1 <= m < n <= 5
    ensures Kind(w, n) > Kind(v, m)
  {
  }

  /** How the jokers change the variety and the largest group. */
  lemma JokerCounts(h: seq<char>)
    requires |h| == 5
    ensures Wild(h, false) == 0
    ensures 'J' !in h ==>
              Variety(h, true) == Variety(h, false) && Wild(h, true) == 0 &&
              MaxCount(h, Distinct(h), true) == MaxCount(h, Distinct(h), false)
    ensures 'J' in h && MaxCount(h, Distinct(h), true) == 0 ==>
              Wild(h, true) == 5 && MaxCount(h, Distinct(h), false) == 5 &&
              forall i :: 0 <= i < |h| ==> h[i] == 'J'
    ensures 'J' in h && MaxCount(h, Distinct(h), true) > 0 ==>
              1 <= MaxCount(h, Distinct(h), false) < MaxCount(h, Distinct(h), true) + Wild(h, true) <= 5
  {
    var d := Distinct(h);
    DistinctSpec(h);
    MaxCountJoker(h, d);
    MaxCountSpec(h, d, true);
    var b := MaxCount(h, d, true);
    var j := Count(h, 'J');
    if 'J' in h {
      assert 'J' in d && j > 0;
      if b == 0 {
        forall i | 0 <= i < |h|
          ensures h[i] == 'J'
        {
          assert h[i] in d;
        }
        CountAll(h, 'J');
      } else {
        var c :| c in d && c != 'J' && Count(h, c) == b;
        CountPair(h, c, 'J');
      }
    } else {
      assert 'J' !in d && 'J' !in multiset(h);
    }
  }

  /** The kind with jokers against the kind without, on the numbers. */
  lemma KindJoker(jokerIn: bool, others: bool, wildVariety: nat, plainVariety: nat,
                  wildMost: nat, plainMost: nat, jokers: nat)
    requires !jokerIn ==> wildVariety == plainVariety && jokers == 0 && wildMost == plainMost
    requires jokerIn && wildMost == 0 ==> jokers == 5 && plainMost == 5 && !others
    requires jokerIn && wildMost > 0 ==> 1 <= plainMost < wildMost + jokers <= 5
    ensures Kind(wildVariety, wildMost + jokers) >= Kind(plainVariety, plainMost)
    ensures !jokerIn ==> Kind(wildVariety, wildMost + jokers) == Kind(plainVariety, plainMost)
    ensures jokerIn && others ==> Kind(wildVariety, wildMost + jokers) > Kind(plainVariety, plainMost)
  {
    if jokerIn && wildMost > 0 {
      KindStronger(plainVariety, wildVariety, plainMost, wildMost + jokers);
    }
  }

  /** The kind with jokers against the kind without. */
  lemma JokerKind(h: seq<char>)
    requires |h| == 5
    ensures var wild := Kind(Variety(h, true), MaxCount(h, Distinct(h), true) + Wild(h, true));
            var plain := Kind(Variety(h, false), MaxCount(h, Distinct(h), false) + Wild(h, false));
            wild >= plain &&
            ('J' !in h ==> wild == plain) &&
            ('J' in h && (exists i :: 0 <= i < |h| && h[i] != 'J') ==> wild > plain)
  {
    JokerCounts(h);
    var others := exists i :: 0 <= i < |h| && h[i] != 'J';
    KindJoker('J' in h, others, Variety(h, true), Variety(h, false),
              MaxCount(h, Distinct(h), true), MaxCount(h, Distinct(h), false) + Wild(h, false),
              Wild(h, true));
  }

  /** With jokers a hand ranks at least as high as without, strictly higher
      when it holds a joker and another card, and the same without jokers. */
  lemma JokerStronger(h: seq<char>)
    requires ValidHand(h)
    ensures Rank(FromHand(h), true).Some? && Rank(FromHand(h), false).Some?
    ensures Rank(FromHand(h), true).value >= Rank(FromHand(h), false).value
    ensures 'J' !in h ==> Rank(FromHand(h), true) == Rank(FromHand(h), false)
    ensures 'J' in h && (exists i :: 0 <= i < |h| && h[i] != 'J') ==>
              Rank(FromHand(h), true).value > Rank(FromHand(h), false).value
  {
    RankKind(h, true);
    RankKind(h, false);
    JokerKind(h);
  }

  // ---------------------------------------------------------------------------
  // Hand::cmp

  /** A hand as `analyze` builds it from a dealt hand. */
  predicate Dealt(a: Hand)
  {
    ValidHand(a.hand) && a == FromHand(a.hand)
  }

  /** A hand `cmp` can compare with another such hand without panicking:
      it has a rank, and five cards. */
  predicate Ranked(a: Hand, joker: bool)
  {
    Rank(a, joker).Some? && |a.hand| == 5 && AllCards(a.hand)
  }

  lemma DealtRanked(a: Hand, joker: bool)
    requires Dealt(a)
    ensures Ranked(a, joker)
  {
    RankKind(a.hand, joker);
  }

  predicate AllCards(x: seq<char>)
  {
    forall i :: 0 <= i < |x| ==> IsCard(x[i])
  }

  /** The card-by-card part of `cmp`: the first position where the cards
      differ decides, with `compare_cards`. */
  function Lexicographic(x: seq<char>, y: seq<char>): Ordering
    requires |x| <= |y| && AllCards(x) && AllCards(y)
  {
    if x == [] then Equal
    else
      var o := CompareCards(x[0], y[0]);
      if o != Equal then o else Lexicographic(x[1..], y[1..])
  }

  /** What `cmp` returns: the ranks decide, and equal ranks are decided
      card by card. */
  function HandOrder(a: Hand, b: Hand, joker: bool): Ordering
    requires Ranked(a, joker) && Ranked(b, joker)
  {
    var o := CompareNat(Rank(a, joker).value, Rank(b, joker).value);
    if o != Equal then o else Lexicographic(a.hand, b.hand)
  }

  /** `Hand::cmp`. */
  method Compare(a: Hand, b: Hand, joker: bool) returns (ordering: Ordering)
    requires Ranked(a, joker) && Ranked(b, joker)
    ensures ordering == HandOrder(a, b, joker)
  {
    ordering := CompareNat(Rank(a, joker).value, Rank(b, joker).value);
    if ordering == Equal {
      for i := 0 to |a.hand|
        invariant ordering == Equal
        invariant Lexicographic(a.hand, b.hand) == Lexicographic(a.hand[i..], b.hand[i..])
      {
        assert a.hand[i..][1..] == a.hand[i + 1..] && b.hand[i..][1..] == b.hand[i + 1..];
        ordering := CompareCards(a.hand[i], b.hand[i]);
        if ordering != Equal {
          break;
        }
      }
    }
  }

  lemma {:induction false} LexicographicFlip(x: seq<char>, y: seq<char>)
    requires |x| == |y| && AllCards(x) && AllCards(y)
    ensures Lexicographic(x, y) == Flip(Lexicographic(y, x))
    ensures Lexicographic(x, y) == Equal <==> x == y
    decreases |x|
  {
    if x != [] {
      CardOrder(x[0], y[0], y[0]);
      LexicographicFlip(x[1..], y[1..]);
      assert x == [x[0]] + x[1..] && y == [y[0]] + y[1..];
    }
  }

  lemma {:induction false} LexicographicTransitive(x: seq<char>, y: seq<char>, z: seq<char>)
    requires |x| == |y| == |z| && AllCards(x) && AllCards(y) && AllCards(z)
    requires Lexicographic(x, y) != Less && Lexicographic(y, z) != Less
    ensures Lexicographic(x, z) != Less
    ensures Lexicographic(x, y) == Greater || Lexicographic(y, z) == Greater ==> Lexicographic(x, z) == Greater
    decreases |x|
  {
    if x != [] {
      IndexSpec(x[0]);
      IndexSpec(y[0]);
      IndexSpec(z[0]);
      if x[0] == y[0] && y[0] == z[0] {
        LexicographicTransitive(x[1..], y[1..], z[1..]);
      }
    }
  }

  /** `cmp` is antisymmetric, and Equal only for the same cards. */
  lemma HandOrderFlip(a: Hand, b: Hand, joker: bool)
    requires Ranked(a, joker) && Ranked(b, joker)
    ensures HandOrder(a, b, joker) == Flip(HandOrder(b, a, joker))
    ensures HandOrder(a, b, joker) == Equal <==> Rank(a, joker) == Rank(b, joker) && a.hand == b.hand
  {
    LexicographicFlip(a.hand, b.hand);
  }

  /** `cmp` is transitive: at least as strong as a hand at least as strong
      as a third, and stronger when either step is. */
  lemma HandOrderTransitive(a: Hand, b: Hand, c: Hand, joker: bool)
    requires Ranked(a, joker) && Ranked(b, joker) && Ranked(c, joker)
    requires HandOrder(a, b, joker) != Less && HandOrder(b, c, joker) != Less
    ensures HandOrder(a, c, joker) != Less
    ensures HandOrder(a, b, joker) == Greater || HandOrder(b, c, joker) == Greater ==>
              HandOrder(a, c, joker) == Greater
  {
    if Rank(a, joker) == Rank(b, joker) && Rank(b, joker) == Rank(c, joker) {
      LexicographicTransitive(a.hand, b.hand, c.hand);
    }
  }

  // ---------------------------------------------------------------------------
  // analyze

  /** A line of the input: a hand and its bid. */
  datatype Bid = Bid(hand: Hand, bid: nat)

  predicate AllRanked(bs: seq<Bid>, joker: bool)
  {
    forall k {:trigger Ranked(bs[k].hand, joker)} :: 0 <= k < |bs| ==> Ranked(bs[k].hand, joker)
  }

  lemma RankedTail(bs: seq<Bid>, joker: bool)
    requires AllRanked(bs, joker) && bs != []
    ensures AllRanked(bs[1..], joker)
  {
    forall k | 0 <= k < |bs| - 1
      ensures Ranked(bs[1..][k].hand, joker)
    {
      assert bs[1..][k] == bs[k + 1];
    }
  }

  /** Inserts `x` behind every bid at least as strong, so that bids with the
      same hand keep their order, as with the stable `sort_by`
      (`SortSameHand`). */
  function InsertBid(bs: seq<Bid>, x: Bid, joker: bool): (r: seq<Bid>)
    requires AllRanked(bs, joker) && Ranked(x.hand, joker)
    ensures multiset(r) == multiset(bs) + multiset{x}
  {
    if bs == [] then [x]
    else if HandOrder(x.hand, bs[0].hand, joker) == Greater then [x] + bs
    else
      RankedTail(bs, joker);
      assert bs == [bs[0]] + bs[1..];
      [bs[0]] + InsertBid(bs[1..], x, joker)
  }

  /** `bids.sort_by(|a, b| b.hand.cmp(&a.hand, use_joker))`: the strongest
      hand first. */
  function SortBids(bs: seq<Bid>, joker: bool): (r: seq<Bid>)
    requires AllRanked(bs, joker)
    ensures multiset(r) == multiset(bs)
  {
    if bs == [] then []
    else
      var init := bs[..|bs| - 1];
      assert bs == init + [bs[|bs| - 1]];
      var sorted := SortBids(init, joker);
      assert forall k :: 0 <= k < |sorted| ==> sorted[k] in multiset(init);
      InsertBid(sorted, bs[|bs| - 1], joker)
  }

  /** From the strongest hand down. */
  predicate Strongest(bs: seq<Bid>, joker: bool)
    requires AllRanked(bs, joker)
  {
    forall i, j {:trigger HandOrder(bs[i].hand, bs[j].hand, joker)} ::
      0 <= i < j < |bs| ==> HandOrder(bs[i].hand, bs[j].hand, joker) != Less
  }

  lemma InsertRanked(bs: seq<Bid>, x: Bid, joker: bool)
    requires AllRanked(bs, joker) && Ranked(x.hand, joker)
    ensures AllRanked(InsertBid(bs, x, joker), joker)
  {
    var r := InsertBid(bs, x, joker);
    forall k | 0 <= k < |r|
      ensures Ranked(r[k].hand, joker)
    {
      assert r[k] in multiset(bs) + multiset{x};
    }
  }

  lemma ConsRanked(y: Bid, rest: seq<Bid>, joker: bool)
    requires AllRanked(rest, joker) && Ranked(y.hand, joker)
    ensures AllRanked([y] + rest, joker)
  {
    var r := [y] + rest;
    forall k | 0 <= k < |r|
      ensures Ranked(r[k].hand, joker)
    {
      if k > 0 {
        assert r[k] == rest[k - 1];
      }
    }
  }

  /** The new head is at least as strong as every bid behind it. */
  lemma ConsHead(y: Bid, rest: seq<Bid>, joker: bool)
    requires AllRanked(rest, joker) && Ranked(y.hand, joker)
    requires forall j :: 0 <= j < |rest| ==> HandOrder(y.hand, rest[j].hand, joker) != Less
    ensures AllRanked([y] + rest, joker)
    ensures forall j :: 0 < j < |[y] + rest| ==> HandOrder(([y] + rest)[0].hand, ([y] + rest)[j].hand, joker) != Less
  {
    ConsRanked(y, rest, joker);
    var r := [y] + rest;
    forall j | 0 < j < |r|
      ensures HandOrder(r[0].hand, r[j].hand, joker) != Less
    {
      assert r[0] == y && r[j] == rest[j - 1];
    }
  }

  /** Behind the new head the order of the sorted list is kept. */
  lemma ConsTail(y: Bid, rest: seq<Bid>, joker: bool)
    requires AllRanked(rest, joker) && Ranked(y.hand, joker) && Strongest(rest, joker)
    ensures AllRanked([y] + rest, joker)
    ensures forall i, j :: 0 < i < j < |[y] + rest| ==> HandOrder(([y] + rest)[i].hand, ([y] + rest)[j].hand, joker) != Less
  {
    ConsRanked(y, rest, joker);
    var r := [y] + rest;
    forall i, j | 0 < i < j < |r|
      ensures HandOrder(r[i].hand, r[j].hand, joker) != Less
    {
      assert HandOrder(rest[i - 1].hand, rest[j - 1].hand, joker) != Less;
      assert r[i] == rest[i - 1] && r[j] == rest[j - 1];
    }
  }

  /** A bid at least as strong as every bid of a sorted list can go first. */
  lemma ConsStrongest(y: Bid, rest: seq<Bid>, joker: bool)
    requires AllRanked(rest, joker) && Ranked(y.hand, joker) && Strongest(rest, joker)
    requires forall j :: 0 <= j < |rest| ==> HandOrder(y.hand, rest[j].hand, joker) != Less
    ensures AllRanked([y] + rest, joker) && Strongest([y] + rest, joker)
  {
    ConsHead(y, rest, joker);
    ConsTail(y, rest, joker);
  }

  lemma InsertFront(bs: seq<Bid>, x: Bid, joker: bool)
    requires AllRanked(bs, joker) && Ranked(x.hand, joker) && Strongest(bs, joker)
    requires bs != [] && HandOrder(x.hand, bs[0].hand, joker) == Greater
    ensures Strongest([x] + bs, joker)
  {
    forall j | 0 <= j < |bs|
      ensures HandOrder(x.hand, bs[j].hand, joker) != Less
    {
      if j > 0 {
        HandOrderTransitive(x.hand, bs[0].hand, bs[j].hand, joker);
      }
    }
    ConsStrongest(x, bs, joker);
  }

  lemma InsertBehind(bs: seq<Bid>, x: Bid, joker: bool)
    requires AllRanked(bs, joker) && Ranked(x.hand, joker) && Strongest(bs, joker)
    requires bs != [] && HandOrder(x.hand, bs[0].hand, joker) != Greater
    requires AllRanked(InsertBid(bs[1..], x, joker), joker) && Strongest(InsertBid(bs[1..], x, joker), joker)
    ensures Strongest([bs[0]] + InsertBid(bs[1..], x, joker), joker)
  {
    var rest := InsertBid(bs[1..], x, joker);
    HandOrderFlip(x.hand, bs[0].hand, joker);
    forall j | 0 <= j < |rest|
      ensures HandOrder(bs[0].hand, rest[j].hand, joker) != Less
    {
      assert rest[j] in multiset(bs[1..]) + multiset{x};
      if rest[j] != x {
        var m :| 0 <= m < |bs[1..]| && bs[1..][m] == rest[j];
        assert bs[m + 1] == rest[j];
      }
    }
    ConsStrongest(bs[0], rest, joker);
  }

  /** Inserting into a list sorted from the strongest hand keeps it sorted. */
  lemma {:induction false} InsertStrongest(bs: seq<Bid>, x: Bid, joker: bool)
    requires AllRanked(bs, joker) && Ranked(x.hand, joker) && Strongest(bs, joker)
    ensures AllRanked(InsertBid(bs, x, joker), joker)
    ensures Strongest(InsertBid(bs, x, joker), joker)
    decreases |bs|
  {
    InsertRanked(bs, x, joker);
    if bs != [] {
      if HandOrder(x.hand, bs[0].hand, joker) == Greater {
        InsertFront(bs, x, joker);
      } else {
        InsertStrongest(bs[1..], x, joker);
        InsertBehind(bs, x, joker);
      }
    }
  }

  /** The sort puts the strongest hand first and keeps the bids. */
  lemma {:induction false} SortStrongest(bs: seq<Bid>, joker: bool)
    requires AllRanked(bs, joker)
    ensures AllRanked(SortBids(bs, joker), joker)
    ensures Strongest(SortBids(bs, joker), joker)
    decreases |bs|
  {
    if bs != [] {
      var init := bs[..|bs| - 1];
      SortStrongest(init, joker);
      InsertStrongest(SortBids(init, joker), bs[|bs| - 1], joker);
    }
  }

  /** The bids holding hand `h`, in their order. */
  function SameHand(bs: seq<Bid>, h: Hand): (r: seq<Bid>)
    ensures |r| <= |bs|
  {
    if bs == [] then [] else (if bs[0].hand == h then [bs[0]] else []) + SameHand(bs[1..], h)
  }

  lemma {:induction false} SameHandAppend(a: seq<Bid>, b: seq<Bid>, h: Hand)
    ensures SameHand(a + b, h) == SameHand(a, h) + SameHand(b, h)
    decreases |a|
  {
    if a == [] {
      assert a + b == b;
    } else {
      assert (a + b)[0] == a[0] && (a + b)[1..] == a[1..] + b;
      SameHandAppend(a[1..], b, h);
    }
  }

  lemma {:induction false} SameHandNone(bs: seq<Bid>, h: Hand)
    requires forall k :: 0 <= k < |bs| ==> bs[k].hand != h
    ensures SameHand(bs, h) == []
    decreases |bs|
  {
    if bs != [] {
      SameHandNone(bs[1..], h);
    }
  }

  /** No bid of a sorted list that `x` beats at its head holds `x`'s hand. */
  lemma BelowHead(bs: seq<Bid>, x: Bid, joker: bool)
    requires AllRanked(bs, joker) && Ranked(x.hand, joker) && Strongest(bs, joker)
    requires bs != [] && HandOrder(x.hand, bs[0].hand, joker) == Greater
    ensures forall k :: 0 <= k < |bs| ==> bs[k].hand != x.hand
  {
    HandOrderFlip(x.hand, bs[0].hand, joker);
    forall k | 0 <= k < |bs|
      ensures bs[k].hand != x.hand
    {
      if k > 0 {
        assert HandOrder(bs[0].hand, bs[k].hand, joker) != Less;
      }
    }
  }

  /** Inserting into a sorted list puts `x` behind every bid with its hand. */
  lemma {:induction false} InsertSameHand(bs: seq<Bid>, x: Bid, joker: bool, h: Hand)
    requires AllRanked(bs, joker) && Ranked(x.hand, joker) && Strongest(bs, joker)
    ensures SameHand(InsertBid(bs, x, joker), h) == SameHand(bs, h) + (if x.hand == h then [x] else [])
    decreases |bs|
  {
    InsertUnfold(bs, x, joker);
    if bs == [] {
      SameHandOne(x, h);
    } else if HandOrder(x.hand, bs[0].hand, joker) == Greater {
      InsertFrontSameHand(bs, x, joker, h);
    } else {
      StrongestTail(bs, joker);
      InsertSameHand(bs[1..], x, joker, h);
      BehindSameHand(bs, InsertBid(bs[1..], x, joker), if x.hand == h then [x] else [], h);
    }
  }

  /** One step of `InsertBid`. */
  lemma InsertUnfold(bs: seq<Bid>, x: Bid, joker: bool)
    requires AllRanked(bs, joker) && Ranked(x.hand, joker)
    ensures bs == [] ==> InsertBid(bs, x, joker) == [x]
    ensures bs != [] && HandOrder(x.hand, bs[0].hand, joker) == Greater ==> InsertBid(bs, x, joker) == [x] + bs
    ensures bs != [] && HandOrder(x.hand, bs[0].hand, joker) != Greater ==>
              AllRanked(bs[1..], joker) && InsertBid(bs, x, joker) == [bs[0]] + InsertBid(bs[1..], x, joker)
  {
  }

  lemma StrongestTail(bs: seq<Bid>, joker: bool)
    requires AllRanked(bs, joker) && Strongest(bs, joker) && bs != []
    ensures AllRanked(bs[1..], joker) && Strongest(bs[1..], joker)
  {
    var t := bs[1..];
    forall k | 0 <= k < |t|
      ensures Ranked(t[k].hand, joker)
    {
      assert t[k] == bs[k + 1];
    }
    forall i, j | 0 <= i < j < |t|
      ensures HandOrder(t[i].hand, t[j].hand, joker) != Less
    {
      assert t[i] == bs[i + 1] && t[j] == bs[j + 1];
    }
  }

  /** `x` in front of a sorted list it beats. */
  lemma InsertFrontSameHand(bs: seq<Bid>, x: Bid, joker: bool, h: Hand)
    requires AllRanked(bs, joker) && Ranked(x.hand, joker) && Strongest(bs, joker)
    requires bs != [] && HandOrder(x.hand, bs[0].hand, joker) == Greater
    ensures SameHand([x] + bs, h) == SameHand(bs, h) + (if x.hand == h then [x] else [])
  {
    if x.hand == h {
      BelowHead(bs, x, joker);
      SameHandNone(bs, h);
    }
    SameHandOne(x, h);
    SameHandAppend([x], bs, h);
  }

  /** The head stays in front of the bids inserted behind it. */
  lemma BehindSameHand(bs: seq<Bid>, inserted: seq<Bid>, tail: seq<Bid>, h: Hand)
    requires bs != [] && SameHand(inserted, h) == SameHand(bs[1..], h) + tail
    ensures SameHand([bs[0]] + inserted, h) == SameHand(bs, h) + tail
  {
    var head := SameHand([bs[0]], h);
    var rest := SameHand(bs[1..], h);
    calc {
      SameHand([bs[0]] + inserted, h);
    == { SameHandAppend([bs[0]], inserted, h); }
      head + (rest + tail);
    == { AppendAssoc(head, rest, tail); }
      (head + rest) + tail;
    == { SameHandAppend([bs[0]], bs[1..], h); assert [bs[0]] + bs[1..] == bs; }
      SameHand(bs, h) + tail;
    }
  }

  /** The sort is stable: the bids holding the same hand keep their order, as
      `sort_by` keeps them. */
  lemma {:induction false} SortSameHand(bs: seq<Bid>, joker: bool, h: Hand)
    requires AllRanked(bs, joker)
    ensures SameHand(SortBids(bs, joker), h) == SameHand(bs, h)
    decreases |bs|
  {
    if bs != [] {
      var n := |bs| - 1;
      var init := bs[..n];
      var last := bs[n];
      SnocLast(bs, n);
      RankedSplit(bs, joker);
      SortSameHand(init, joker, h);
      SortStrongest(init, joker);
      SortSnoc(init, last, joker);
      InsertSameHand(SortBids(init, joker), last, joker, h);
      SameHandAppend(init, [last], h);
      SameHandOne(last, h);
    }
  }

  lemma RankedSplit(bs: seq<Bid>, joker: bool)
    requires AllRanked(bs, joker) && bs != []
    ensures AllRanked(bs[..|bs| - 1], joker) && Ranked(bs[|bs| - 1].hand, joker)
  {
    var init := bs[..|bs| - 1];
    forall k | 0 <= k < |init|
      ensures Ranked(init[k].hand, joker)
    {
      assert init[k] == bs[k];
    }
  }

  lemma SameHandOne(b: Bid, h: Hand)
    ensures SameHand([b], h) == if b.hand == h then [b] else []
  {
    assert [b][1..] == [];
  }

  /** The bid amounts, in order. */
  function Amounts(bs: seq<Bid>): (r: seq<nat>)
    ensures |r| == |bs|
  {
    seq(|bs|, k requires 0 <= k < |bs| => bs[k].bid)
  }

  /** The winnings of bids sorted from the strongest hand down: the first of
      `n` bids is paid `n` times, the last once. */
  function Winnings(amounts: seq<nat>): nat
  {
    if amounts == [] then 0 else |amounts| * amounts[0] + Winnings(amounts[1..])
  }

  /** The same winnings counted from the weakest hand up: the hand of rank
      `k + 1` is paid `k + 1` times. */
  function RankedSum(amounts: seq<nat>): nat
  {
    if amounts == [] then 0
    else RankedSum(amounts[..|amounts| - 1]) + |amounts| * amounts[|amounts| - 1]
  }

  function Reverse(amounts: seq<nat>): (r: seq<nat>)
    ensures |r| == |amounts|
  {
    if amounts == [] then [] else Reverse(amounts[1..]) + [amounts[0]]
  }

  /** Paying from the top down with a decreasing rank is paying each hand
      its rank counted from the bottom. */
  lemma {:induction false} WinningsRanked(amounts: seq<nat>)
    ensures Winnings(amounts) == RankedSum(Reverse(amounts))
    decreases |amounts|
  {
    if amounts != [] {
      WinningsRanked(amounts[1..]);
      var r := Reverse(amounts);
      assert r[..|r| - 1] == Reverse(amounts[1..]);
    }
  }

  /** The loop of `analyze`: `sum += bid_rank * bid; bid_rank -= 1`. */
  method Payout(bids: seq<Bid>) returns (sum: nat)
    ensures sum == Winnings(Amounts(bids))
  {
    var amounts := Amounts(bids);
    var rank := |bids|;
    sum := 0;
    for k := 0 to |bids|
      invariant rank == |bids| - k
      invariant sum + Winnings(amounts[k..]) == Winnings(amounts)
    {
      assert amounts[k..][1..] == amounts[k + 1..];
      sum := sum + rank * bids[k].bid;
      rank := rank - 1;
    }
  }

  /** The first two whitespace-separated words of a line: a hand of five
      cards and a bid. None where a word is missing or the bid does not parse,
      where `analyze` panics. Also None for a hand that is not five cards from
      "AKQJT98765432": the model only deals such hands (see the README). */
  function ParseBid(line: seq<char>): (r: Option<Bid>)
    ensures r.Some? ==> Dealt(r.value.hand)
  {
    var words := Words(line);
    if |words| < 2 || !ValidHand(words[0]) then None
    else
      var bid := ParseNat(words[1]);
      if bid.None? then None else Some(Bid(FromHand(words[0]), bid.value))
  }

  /** The bids of all lines, or None at the first line that does not parse. */
  function ParseBids(lines: seq<seq<char>>): (r: Option<seq<Bid>>)
    ensures r.Some? ==> |r.value| == |lines| && forall k :: 0 <= k < |r.value| ==> Dealt(r.value[k].hand)
  {
    if lines == [] then Some([])
    else
      var init := ParseBids(lines[..|lines| - 1]);
      var bid := ParseBid(lines[|lines| - 1]);
      if init.None? || bid.None? then None else Some(init.value + [bid.value])
  }

  lemma AllDealtRanked(bs: seq<Bid>, joker: bool)
    requires forall k :: 0 <= k < |bs| ==> Dealt(bs[k].hand)
    ensures AllRanked(bs, joker)
  {
    forall k | 0 <= k < |bs|
      ensures Ranked(bs[k].hand, joker)
    {
      DealtRanked(bs[k].hand, joker);
    }
  }

  /** What `analyze` returns: part 2 plays with jokers; the bids are sorted
      from the strongest hand down and paid by rank. */
  function Total(lines: seq<seq<char>>, part: int): (r: Option<nat>)
    ensures r.Some? <==> ParseBids(lines).Some?
  {
    var joker := part == 2;
    var bids := ParseBids(lines);
    if bids.None? then None
    else
      AllDealtRanked(bids.value, joker);
      Some(Winnings(Amounts(SortBids(bids.value, joker))))
  }

  lemma {:induction false} ParseBidsPanic(lines: seq<seq<char>>, n: nat)
    requires n <= |lines| && ParseBids(lines[..n]).None?
    ensures ParseBids(lines).None?
    decreases |lines|
  {
    if n < |lines| {
      assert lines[..|lines| - 1][..n] == lines[..n];
      ParseBidsPanic(lines[..|lines| - 1], n);
    } else {
      assert lines[..n] == lines;
    }
  }

  /** `analyze`; None where the source panics. */
  method Analyze(lines: seq<seq<char>>, part: int) returns (r: Option<nat>)
    ensures r == Total(lines, part)
  {
    var joker := part == 2;
    var bids: seq<Bid> := [];
    for i := 0 to |lines|
      invariant ParseBids(lines[..i]) == Some(bids)
    {
      assert lines[..i + 1][..i] == lines[..i];
      var bid := ParseBid(lines[i]);
      if bid.None? {
        ParseBidsPanic(lines, i + 1);
        return None;
      }
      bids := bids + [bid.value];
    }
    assert lines[..|lines|] == lines;
    AllDealtRanked(bids, joker);
    var sorted := SortBids(bids, joker);
    var sum := Payout(sorted);
    return Some(sum);
  }

  // ---------------------------------------------------------------------------
  // The example of the source's test

  lemma FiveFivesVariety(h: seq<char>)
    requires h == "T55J5"
    ensures ValidHand(h) && Variety(h, false) == 3 && Variety(h, true) == 2 && Wild(h, true) == 1
  {
    DistinctFive('T', '5', '5', 'J', '5');
    assert multiset(h) == multiset{'T', '5', '5', 'J', '5'};
    assert h[3] == 'J' && Count(h, 'J') == 1;
  }

  lemma FiveFivesMost(h: seq<char>)
    requires h == "T55J5"
    ensures MaxCount(h, Distinct(h), false) == 3 && MaxCount(h, Distinct(h), true) == 3
  {
    assert multiset(h) == multiset{'T', '5', '5', 'J', '5'};
    assert h[1] == '5';
    MaxCountIs(h, false, '5', 3);
    MaxCountIs(h, true, '5', 3);
  }

  lemma KingsVariety(h: seq<char>)
    requires h == "KK677"
    ensures ValidHand(h) && Variety(h, false) == 3 && Variety(h, true) == 3 && Wild(h, true) == 0
  {
    DistinctFive('K', 'K', '6', '7', '7');
    assert multiset(h) == multiset{'K', 'K', '6', '7', '7'};
    assert 'J' !in multiset(h);
  }

  lemma KingsMost(h: seq<char>)
    requires h == "KK677"
    ensures MaxCount(h, Distinct(h), false) == 2 && MaxCount(h, Distinct(h), true) == 2
  {
    assert multiset(h) == multiset{'K', 'K', '6', '7', '7'};
    assert h[0] == 'K';
    MaxCountIs(h, false, 'K', 2);
    MaxCountIs(h, true, 'K', 2);
  }

  lemma TensVariety(h: seq<char>)
    requires h == "KTJJT"
    ensures ValidHand(h) && Variety(h, false) == 3 && Variety(h, true) == 2 && Wild(h, true) == 2
  {
    DistinctFive('K', 'T', 'J', 'J', 'T');
    assert multiset(h) == multiset{'K', 'T', 'J', 'J', 'T'};
    assert h[2] == 'J' && Count(h, 'J') == 2;
  }

  lemma TensMost(h: seq<char>)
    requires h == "KTJJT"
    ensures MaxCount(h, Distinct(h), false) == 2 && MaxCount(h, Distinct(h), true) == 2
  {
    assert multiset(h) == multiset{'K', 'T', 'J', 'J', 'T'};
    assert h[1] == 'T';
    MaxCountIs(h, false, 'T', 2);
    MaxCountIs(h, true, 'T', 2);
  }

  lemma QueensVariety(h: seq<char>)
    requires h == "QQQJA"
    ensures ValidHand(h) && Variety(h, false) == 3 && Variety(h, true) == 2 && Wild(h, true) == 1
  {
    DistinctFive('Q', 'Q', 'Q', 'J', 'A');
    assert multiset(h) == multiset{'Q', 'Q', 'Q', 'J', 'A'};
    assert h[3] == 'J' && Count(h, 'J') == 1;
  }

  lemma QueensMost(h: seq<char>)
    requires h == "QQQJA"
    ensures MaxCount(h, Distinct(h), false) == 3 && MaxCount(h, Distinct(h), true) == 3
  {
    assert multiset(h) == multiset{'Q', 'Q', 'Q', 'J', 'A'};
    assert h[0] == 'Q';
    MaxCountIs(h, false, 'Q', 3);
    MaxCountIs(h, true, 'Q', 3);
  }

  lemma OnePairVariety(h: seq<char>)
    requires h == "32T3K"
    ensures ValidHand(h) && Variety(h, false) == 4 && Variety(h, true) == 4 && Wild(h, true) == 0
  {
    DistinctExample();
    assert multiset(h) == multiset{'3', '2', 'T', '3', 'K'};
    assert 'J' !in multiset(h);
  }

  lemma OnePairMost(h: seq<char>)
    requires h == "32T3K"
    ensures MaxCount(h, Distinct(h), false) == 2 && MaxCount(h, Distinct(h), true) == 2
  {
    assert multiset(h) == multiset{'3', '2', 'T', '3', 'K'};
    assert h[0] == '3';
    MaxCountIs(h, false, '3', 2);
    MaxCountIs(h, true, '3', 2);
  }

  // The card-by-card comparisons the example's sort makes between hands of
  // the same rank.

  /** Hands that start with the same card are decided by the rest. */
  lemma LexicographicSameHead(x: seq<char>, y: seq<char>)
    requires 0 < |x| <= |y| && AllCards(x) && AllCards(y) && x[0] == y[0]
    ensures Lexicographic(x, y) == Lexicographic(x[1..], y[1..])
  {
  }

  /** Hands that start with different cards are decided by those cards. */
  lemma LexicographicHead(x: seq<char>, y: seq<char>)
    requires 0 < |x| <= |y| && AllCards(x) && AllCards(y) && x[0] != y[0]
    ensures Lexicographic(x, y) == CompareCards(x[0], y[0])
  {
  }

  lemma TenBelowKing()
    ensures CompareCards('T', 'K') == Less
  {
    IndexOfOrder(1);
    IndexOfOrder(4);
    CompareByIndex('T', 'K');
  }

  lemma TwoPairCards()
    ensures AllCards("KTJJT") && AllCards("KK677") && AllCards("TJJT") && AllCards("K677")
    ensures "KTJJT"[1..] == "TJJT" && "KK677"[1..] == "K677"
  {
  }

  lemma TiePlainTwoPair()
    ensures Lexicographic("KTJJT", "KK677") == Less
  {
    TwoPairCards();
    LexicographicSameHead("KTJJT", "KK677");
    LexicographicHead("TJJT", "K677");
    TenBelowKing();
  }

  lemma TieQueensFives()
    ensures Lexicographic("QQQJA", "T55J5") == Greater
  {
    assert CompareCards('Q', 'T') == Greater;
  }

  lemma TieTensFives()
    ensures Lexicographic("KTJJT", "T55J5") == Greater
  {
    assert CompareCards('K', 'T') == Greater;
  }

  lemma TieQueensTens()
    ensures Lexicographic("QQQJA", "KTJJT") == Less
  {
    assert CompareCards('Q', 'K') == Less;
  }

  /** Sorting one more bid inserts it into the others, sorted. */
  lemma SortSnoc(bs: seq<Bid>, x: Bid, joker: bool)
    requires AllRanked(bs, joker) && Ranked(x.hand, joker)
    ensures AllRanked(bs + [x], joker) && AllRanked(SortBids(bs, joker), joker)
    ensures SortBids(bs + [x], joker) == InsertBid(SortBids(bs, joker), x, joker)
  {
    forall k | 0 <= k < |bs| + 1
      ensures Ranked((bs + [x])[k].hand, joker)
    {
      if k < |bs| {
        assert (bs + [x])[k] == bs[k];
      }
    }
    SortStrongest(bs, joker);
    assert (bs + [x])[..|bs|] == bs;
  }

  /** A bid that beats the first bid goes in front of it. */
  lemma InsertHere(bs: seq<Bid>, x: Bid, joker: bool)
    requires AllRanked(bs, joker) && Ranked(x.hand, joker) && bs != []
    requires HandOrder(x.hand, bs[0].hand, joker) == Greater
    ensures InsertBid(bs, x, joker) == [x] + bs
  {
  }

  /** A bid that does not beat the first bid goes behind it. */
  lemma InsertPast(bs: seq<Bid>, x: Bid, joker: bool)
    requires AllRanked(bs, joker) && Ranked(x.hand, joker) && bs != []
    requires HandOrder(x.hand, bs[0].hand, joker) != Greater
    ensures AllRanked(bs[1..], joker)
    ensures InsertBid(bs, x, joker) == [bs[0]] + InsertBid(bs[1..], x, joker)
  {
    RankedTail(bs, joker);
  }

  /** A bid that beats the second bid but not the first goes between them. */
  lemma InsertSecond(bs: seq<Bid>, x: Bid, joker: bool)
    requires AllRanked(bs, joker) && Ranked(x.hand, joker) && |bs| >= 2
    requires HandOrder(x.hand, bs[0].hand, joker) != Greater
    requires HandOrder(x.hand, bs[1].hand, joker) == Greater
    ensures InsertBid(bs, x, joker) == [bs[0]] + ([x] + bs[1..])
  {
    InsertPast(bs, x, joker);
    assert bs[1..][0] == bs[1];
    InsertHere(bs[1..], x, joker);
  }

  /** A bid that beats the third bid but neither of the first two goes
      behind the first two. */
  lemma InsertThird(bs: seq<Bid>, x: Bid, joker: bool)
    requires AllRanked(bs, joker) && Ranked(x.hand, joker) && |bs| >= 3
    requires HandOrder(x.hand, bs[0].hand, joker) != Greater
    requires HandOrder(x.hand, bs[1].hand, joker) != Greater
    requires HandOrder(x.hand, bs[2].hand, joker) == Greater
    ensures InsertBid(bs, x, joker) == [bs[0]] + ([bs[1]] + ([x] + bs[2..]))
  {
    InsertPast(bs, x, joker);
    assert bs[1..][0] == bs[1] && bs[1..][1] == bs[2] && bs[1..][1..] == bs[2..];
    InsertSecond(bs[1..], x, joker);
  }

  lemma SortOne(A: Bid, joker: bool)
    requires Ranked(A.hand, joker)
    ensures AllRanked([A], joker) && SortBids([A], joker) == [A]
  {
    assert [A][..0] == [];
  }

  lemma Display2<X>(P: X, Q: X)
    ensures [P] + [Q] == [P, Q] && [P, Q][0] == P && [P, Q][1] == Q
  {
  }

  lemma Display3<X>(P: X, Q: X, R: X)
    ensures [P, Q] + [R] == [P, Q, R] && [P, Q, R][0] == P && [P, Q, R][1] == Q && [P, Q, R][2] == R
    ensures [P] + ([R] + [P, Q][1..]) == [P, R, Q]
  {
  }

  lemma Display4<X>(P: X, Q: X, R: X, S: X)
    ensures [P, Q, R] + [S] == [P, Q, R, S]
    ensures [P, Q, R, S][0] == P && [P, Q, R, S][1] == Q && [P, Q, R, S][2] == R && [P, Q, R, S][3] == S
    ensures [S] + [P, Q, R] == [S, P, Q, R]
    ensures [P] + ([Q] + ([S] + [P, Q, R][2..])) == [P, Q, S, R]
  {
  }

  lemma Display5<X>(P: X, Q: X, R: X, S: X, T: X)
    ensures [P, Q, R, S] + [T] == [P, Q, R, S, T]
    ensures [T] + [P, Q, R, S] == [T, P, Q, R, S]
    ensures [P] + ([T] + [P, Q, R, S][1..]) == [P, T, Q, R, S]
  {
  }

  /** Two bids, the second stronger: the sort swaps them. */
  lemma SortTwo(A: Bid, B: Bid, joker: bool)
    requires Ranked(A.hand, joker) && Ranked(B.hand, joker)
    requires HandOrder(B.hand, A.hand, joker) == Greater
    ensures AllRanked([A, B], joker)
    ensures SortBids([A, B], joker) == [B, A]
  {
    SortOne(A, joker);
    Display2(A, B);
    Display2(B, A);
    SortSnoc([A], B, joker);
    InsertHere([A], B, joker);
  }

  /** A third bid weaker than the strongest and stronger than the weakest
      goes between them. */
  lemma SortThree(A: Bid, B: Bid, C: Bid, joker: bool)
    requires Ranked(A.hand, joker) && Ranked(B.hand, joker) && Ranked(C.hand, joker)
    requires HandOrder(B.hand, A.hand, joker) == Greater
    requires HandOrder(C.hand, B.hand, joker) == Less && HandOrder(C.hand, A.hand, joker) == Greater
    ensures AllRanked([A, B, C], joker)
    ensures SortBids([A, B, C], joker) == [B, C, A]
  {
    SortTwo(A, B, joker);
    Display3(A, B, C);
    Display3(B, A, C);
    Display2(B, A);
    SortSnoc([A, B], C, joker);
    InsertSecond([B, A], C, joker);
  }

  /** Without jokers, the fourth bid goes third. */
  lemma SortPlainFour(A: Bid, B: Bid, C: Bid, D: Bid)
    requires Ranked(A.hand, false) && Ranked(B.hand, false) && Ranked(C.hand, false) && Ranked(D.hand, false)
    requires HandOrder(B.hand, A.hand, false) == Greater
    requires HandOrder(C.hand, B.hand, false) == Less && HandOrder(C.hand, A.hand, false) == Greater
    requires HandOrder(D.hand, B.hand, false) == Less && HandOrder(D.hand, C.hand, false) == Less
    requires HandOrder(D.hand, A.hand, false) == Greater
    ensures AllRanked([A, B, C, D], false)
    ensures SortBids([A, B, C, D], false) == [B, C, D, A]
  {
    SortThree(A, B, C, false);
    Display4(A, B, C, D);
    Display4(B, C, A, D);
    Display3(B, C, A);
    SortSnoc([A, B, C], D, false);
    InsertThird([B, C, A], D, false);
  }

  /** Without jokers, five bids whose hands compare as in the example sort
      as fifth, second, third, fourth, first. */
  lemma SortPlainExample(A: Bid, B: Bid, C: Bid, D: Bid, E: Bid)
    requires Ranked(A.hand, false) && Ranked(B.hand, false) && Ranked(C.hand, false)
    requires Ranked(D.hand, false) && Ranked(E.hand, false)
    requires HandOrder(B.hand, A.hand, false) == Greater
    requires HandOrder(C.hand, B.hand, false) == Less && HandOrder(C.hand, A.hand, false) == Greater
    requires HandOrder(D.hand, B.hand, false) == Less && HandOrder(D.hand, C.hand, false) == Less
    requires HandOrder(D.hand, A.hand, false) == Greater && HandOrder(E.hand, B.hand, false) == Greater
    ensures AllRanked([A, B, C, D, E], false)
    ensures SortBids([A, B, C, D, E], false) == [E, B, C, D, A]
  {
    SortPlainFour(A, B, C, D);
    Display5(A, B, C, D, E);
    Display5(B, C, D, A, E);
    Display4(B, C, D, A);
    SortSnoc([A, B, C, D], E, false);
    InsertHere([B, C, D, A], E, false);
  }

  /** With jokers, the fourth bid goes first. */
  lemma SortJokerFour(A: Bid, B: Bid, C: Bid, D: Bid)
    requires Ranked(A.hand, true) && Ranked(B.hand, true) && Ranked(C.hand, true) && Ranked(D.hand, true)
    requires HandOrder(B.hand, A.hand, true) == Greater
    requires HandOrder(C.hand, B.hand, true) == Less && HandOrder(C.hand, A.hand, true) == Greater
    requires HandOrder(D.hand, B.hand, true) == Greater
    ensures AllRanked([A, B, C, D], true)
    ensures SortBids([A, B, C, D], true) == [D, B, C, A]
  {
    SortThree(A, B, C, true);
    Display4(A, B, C, D);
    Display4(B, C, A, D);
    Display3(B, C, A);
    SortSnoc([A, B, C], D, true);
    InsertHere([B, C, A], D, true);
  }

  /** With jokers, five bids whose hands compare as in the example sort as
      fourth, fifth, second, third, first. */
  lemma SortJokerExample(A: Bid, B: Bid, C: Bid, D: Bid, E: Bid)
    requires Ranked(A.hand, true) && Ranked(B.hand, true) && Ranked(C.hand, true)
    requires Ranked(D.hand, true) && Ranked(E.hand, true)
    requires HandOrder(B.hand, A.hand, true) == Greater
    requires HandOrder(C.hand, B.hand, true) == Less && HandOrder(C.hand, A.hand, true) == Greater
    requires HandOrder(D.hand, B.hand, true) == Greater
    requires HandOrder(E.hand, D.hand, true) == Less && HandOrder(E.hand, B.hand, true) == Greater
    ensures AllRanked([A, B, C, D, E], true)
    ensures SortBids([A, B, C, D, E], true) == [D, E, B, C, A]
  {
    SortJokerFour(A, B, C, D);
    Display5(A, B, C, D, E);
    Display5(D, B, C, A, E);
    Display4(D, B, C, A);
    SortSnoc([A, B, C, D], E, true);
    InsertSecond([D, B, C, A], E, true);
  }

  lemma CardNotWhitespace(c: char)
    requires IsCard(c)
    ensures !IsWhitespace(c)
  {
  }

  /** A line of a hand, one space and a number parses to that hand and bid. */
  lemma ParseBidLine(h: seq<char>, amount: seq<char>)
    requires ValidHand(h) && |amount| > 0 && AllDigits(amount)
    ensures ParseBid(h + " " + amount) == Some(Bid(FromHand(h), DigitsValue(amount)))
  {
    forall j | 0 <= j < |h|
      ensures !IsWhitespace(h[j])
    {
      CardNotWhitespace(h[j]);
    }
    WordsPair(h, amount);
    ParseDigits(amount);
  }

  /** One more line that parses adds its bid at the end. */
  lemma ParseBidsSnoc(lines: seq<seq<char>>, line: seq<char>, bs: seq<Bid>, b: Bid)
    requires ParseBids(lines) == Some(bs) && ParseBid(line) == Some(b)
    ensures ParseBids(lines + [line]) == Some(bs + [b])
  {
    assert (lines + [line])[..|lines|] == lines;
  }

  lemma Amounts5(P: Bid, Q: Bid, R: Bid, S: Bid, T: Bid)
    ensures Amounts([P, Q, R, S, T]) == [P.bid, Q.bid, R.bid, S.bid, T.bid]
  {
  }

  /** Five bids, strongest first, are paid five, four, three, two and one
      times their amount. */
  lemma Winnings5(a: nat, b: nat, c: nat, d: nat, e: nat)
    ensures Winnings([a, b, c, d, e]) == 5 * a + 4 * b + 3 * c + 2 * d + e
  {
    assert Winnings([e]) == e by { assert [e][1..] == []; }
    assert Winnings([d, e]) == 2 * d + e by { assert [d, e][1..] == [e]; }
    assert Winnings([c, d, e]) == 3 * c + 2 * d + e by { assert [c, d, e][1..] == [d, e]; }
    assert Winnings([b, c, d, e]) == 4 * b + 3 * c + 2 * d + e by { assert [b, c, d, e][1..] == [c, d, e]; }
    assert [a, b, c, d, e][1..] == [b, c, d, e];
  }

  /** The input of the source's test. */
  const ExampleLines: seq<seq<char>> := ["32T3K 765", "T55J5 684", "KK677 28", "KTJJT 220", "QQQJA 483"]

  /** The bids of the example's lines. */
  const ExampleBids: seq<Bid> := [
    Bid(FromHand("32T3K"), 765), Bid(FromHand("T55J5"), 684), Bid(FromHand("KK677"), 28),
    Bid(FromHand("KTJJT"), 220), Bid(FromHand("QQQJA"), 483)]

  lemma ExampleLine(k: nat, h: seq<char>, amount: seq<char>, n: nat)
    requires k < |ExampleLines| && ExampleLines[k] == h + " " + amount
    requires ValidHand(h) && |amount| > 0 && AllDigits(amount) && DigitsValue(amount) == n
    requires k < |ExampleBids| && ExampleBids[k] == Bid(FromHand(h), n)
    ensures ParseBid(ExampleLines[k]) == Some(ExampleBids[k])
  {
    ParseBidLine(h, amount);
  }

  lemma TwoDigits(s: seq<char>)
    requires |s| == 2 && AllDigits(s)
    ensures DigitsValue(s) == 10 * DigitValue(s[0]) + DigitValue(s[1])
  {
    assert DigitsValue(s[..1]) == DigitValue(s[0]) by {
      assert s[..1][..0] == [] && s[..1][0] == s[0];
    }
  }

  lemma ThreeDigits(s: seq<char>)
    requires |s| == 3 && AllDigits(s)
    ensures DigitsValue(s) == 100 * DigitValue(s[0]) + 10 * DigitValue(s[1]) + DigitValue(s[2])
  {
    TwoDigits(s[..2]);
    assert s[..2][0] == s[0] && s[..2][1] == s[1];
  }

  lemma LineOnePair()
    ensures ParseBid(ExampleLines[0]) == Some(ExampleBids[0])
  {
    ThreeDigits("765");
    ExampleLine(0, "32T3K", "765", 765);
  }

  lemma LineFiveFives()
    ensures ParseBid(ExampleLines[1]) == Some(ExampleBids[1])
  {
    ThreeDigits("684");
    ExampleLine(1, "T55J5", "684", 684);
  }

  lemma LineKings()
    ensures ParseBid(ExampleLines[2]) == Some(ExampleBids[2])
  {
    TwoDigits("28");
    ExampleLine(2, "KK677", "28", 28);
  }

  lemma LineTens()
    ensures ParseBid(ExampleLines[3]) == Some(ExampleBids[3])
  {
    ThreeDigits("220");
    ExampleLine(3, "KTJJT", "220", 220);
  }

  lemma LineQueens()
    ensures ParseBid(ExampleLines[4]) == Some(ExampleBids[4])
  {
    ThreeDigits("483");
    ExampleLine(4, "QQQJA", "483", 483);
  }

  /** Lines that each parse give their bids, in order. */
  lemma {:induction false} ParseBidsAll(lines: seq<seq<char>>, bs: seq<Bid>)
    requires |lines| == |bs|
    requires forall k :: 0 <= k < |lines| ==> ParseBid(lines[k]) == Some(bs[k])
    ensures ParseBids(lines) == Some(bs)
    decreases |lines|
  {
    if lines != [] {
      var n := |lines| - 1;
      ParsedPrefix(lines, bs, n);
      ParseBidsAll(lines[..n], bs[..n]);
      ParseBidsStep(lines, bs, n);
    }
  }

  lemma ParsedPrefix(lines: seq<seq<char>>, bs: seq<Bid>, n: nat)
    requires n <= |lines| == |bs|
    requires forall k :: 0 <= k < |lines| ==> ParseBid(lines[k]) == Some(bs[k])
    ensures forall k :: 0 <= k < n ==> ParseBid(lines[..n][k]) == Some(bs[..n][k])
  {
    forall k | 0 <= k < n
      ensures ParseBid(lines[..n][k]) == Some(bs[..n][k])
    {
      assert lines[..n][k] == lines[k] && bs[..n][k] == bs[k];
    }
  }

  /** The last line parsed after the others: the whole list parses. */
  lemma ParseBidsStep(lines: seq<seq<char>>, bs: seq<Bid>, n: nat)
    requires n + 1 == |lines| == |bs|
    requires ParseBids(lines[..n]) == Some(bs[..n]) && ParseBid(lines[n]) == Some(bs[n])
    ensures ParseBids(lines) == Some(bs)
  {
    ParseBidsSnoc(lines[..n], lines[n], bs[..n], bs[n]);
    SnocLast(lines, n);
    SnocLast(bs, n);
  }

  /** The five lines of the example parse to their hands and bids. */
  lemma ExampleParse()
    ensures ParseBids(ExampleLines) == Some(ExampleBids)
  {
    LineOnePair();
    LineFiveFives();
    LineKings();
    LineTens();
    LineQueens();
    forall k | 0 <= k < 5
      ensures ParseBid(ExampleLines[k]) == Some(ExampleBids[k])
    {
      assert k == 0 || k == 1 || k == 2 || k == 3 || k == 4;
    }
    ParseBidsAll(ExampleLines, ExampleBids);
  }

  lemma PlainOnePair(h: seq<char>)
    requires h == "32T3K"
    ensures Rank(FromHand(h), false) == Some(2)
  {
    OnePairVariety(h);
    OnePairMost(h);
    RankKind(h, false);
  }

  lemma JokerOnePair(h: seq<char>)
    requires h == "32T3K"
    ensures Rank(FromHand(h), true) == Some(2)
  {
    PlainOnePair(h);
    assert 'J' !in h;
    JokerStronger(h);
  }

  lemma PlainFiveFives(h: seq<char>)
    requires h == "T55J5"
    ensures Rank(FromHand(h), false) == Some(4)
  {
    FiveFivesVariety(h);
    FiveFivesMost(h);
    RankKind(h, false);
  }

  lemma JokerFiveFives(h: seq<char>)
    requires h == "T55J5"
    ensures Rank(FromHand(h), true) == Some(6)
  {
    FiveFivesVariety(h);
    FiveFivesMost(h);
    RankKind(h, true);
  }

  lemma PlainKings(h: seq<char>)
    requires h == "KK677"
    ensures Rank(FromHand(h), false) == Some(3)
  {
    KingsVariety(h);
    KingsMost(h);
    RankKind(h, false);
  }

  lemma JokerKings(h: seq<char>)
    requires h == "KK677"
    ensures Rank(FromHand(h), true) == Some(3)
  {
    PlainKings(h);
    assert 'J' !in h;
    JokerStronger(h);
  }

  lemma PlainTens(h: seq<char>)
    requires h == "KTJJT"
    ensures Rank(FromHand(h), false) == Some(3)
  {
    TensVariety(h);
    TensMost(h);
    RankKind(h, false);
  }

  lemma JokerTens(h: seq<char>)
    requires h == "KTJJT"
    ensures Rank(FromHand(h), true) == Some(6)
  {
    TensVariety(h);
    TensMost(h);
    RankKind(h, true);
  }

  lemma PlainQueens(h: seq<char>)
    requires h == "QQQJA"
    ensures Rank(FromHand(h), false) == Some(4)
  {
    QueensVariety(h);
    QueensMost(h);
    RankKind(h, false);
  }

  lemma JokerQueens(h: seq<char>)
    requires h == "QQQJA"
    ensures Rank(FromHand(h), true) == Some(6)
  {
    QueensVariety(h);
    QueensMost(h);
    RankKind(h, true);
  }

  /** Different ranks decide `cmp`. */
  lemma OrderByRank(a: Hand, b: Hand, joker: bool, ka: nat, kb: nat)
    requires Ranked(a, joker) && Ranked(b, joker)
    requires Rank(a, joker) == Some(ka) && Rank(b, joker) == Some(kb) && ka > kb
    ensures HandOrder(a, b, joker) == Greater && HandOrder(b, a, joker) == Less
  {
  }

  /** Equal ranks leave `cmp` to the cards. */
  lemma OrderByCards(a: Hand, b: Hand, joker: bool)
    requires Ranked(a, joker) && Ranked(b, joker) && Rank(a, joker) == Rank(b, joker)
    ensures HandOrder(a, b, joker) == Lexicographic(a.hand, b.hand)
  {
  }

  /** How the example's hands compare without jokers. */
  lemma PlainOrder(A: Bid, B: Bid, C: Bid, D: Bid, E: Bid)
    requires Ranked(A.hand, false) && Ranked(B.hand, false) && Ranked(C.hand, false)
    requires Ranked(D.hand, false) && Ranked(E.hand, false)
    requires Rank(A.hand, false) == Some(2) && Rank(B.hand, false) == Some(4) && Rank(C.hand, false) == Some(3)
    requires Rank(D.hand, false) == Some(3) && Rank(E.hand, false) == Some(4)
    requires B.hand.hand == "T55J5" && C.hand.hand == "KK677" && D.hand.hand == "KTJJT" && E.hand.hand == "QQQJA"
    ensures HandOrder(B.hand, A.hand, false) == Greater
    ensures HandOrder(C.hand, B.hand, false) == Less && HandOrder(C.hand, A.hand, false) == Greater
    ensures HandOrder(D.hand, B.hand, false) == Less && HandOrder(D.hand, C.hand, false) == Less
    ensures HandOrder(D.hand, A.hand, false) == Greater && HandOrder(E.hand, B.hand, false) == Greater
  {
    OrderByRank(B.hand, A.hand, false, 4, 2);
    OrderByRank(B.hand, C.hand, false, 4, 3);
    OrderByRank(C.hand, A.hand, false, 3, 2);
    OrderByRank(B.hand, D.hand, false, 4, 3);
    OrderByRank(D.hand, A.hand, false, 3, 2);
    OrderByCards(D.hand, C.hand, false);
    TiePlainTwoPair();
    OrderByCards(E.hand, B.hand, false);
    TieQueensFives();
  }

  /** How the example's hands compare with jokers. */
  lemma JokerOrder(A: Bid, B: Bid, C: Bid, D: Bid, E: Bid)
    requires Ranked(A.hand, true) && Ranked(B.hand, true) && Ranked(C.hand, true)
    requires Ranked(D.hand, true) && Ranked(E.hand, true)
    requires Rank(A.hand, true) == Some(2) && Rank(B.hand, true) == Some(6) && Rank(C.hand, true) == Some(3)
    requires Rank(D.hand, true) == Some(6) && Rank(E.hand, true) == Some(6)
    requires B.hand.hand == "T55J5" && D.hand.hand == "KTJJT" && E.hand.hand == "QQQJA"
    ensures HandOrder(B.hand, A.hand, true) == Greater
    ensures HandOrder(C.hand, B.hand, true) == Less && HandOrder(C.hand, A.hand, true) == Greater
    ensures HandOrder(D.hand, B.hand, true) == Greater
    ensures HandOrder(E.hand, D.hand, true) == Less && HandOrder(E.hand, B.hand, true) == Greater
  {
    OrderByRank(B.hand, A.hand, true, 6, 2);
    OrderByRank(B.hand, C.hand, true, 6, 3);
    OrderByRank(C.hand, A.hand, true, 3, 2);
    OrderByCards(D.hand, B.hand, true);
    TieTensFives();
    OrderByCards(E.hand, D.hand, true);
    TieQueensTens();
    OrderByCards(E.hand, B.hand, true);
    TieQueensFives();
  }

  /** `analyze` on lines that parse: the winnings of their bids, sorted. */
  lemma TotalOf(lines: seq<seq<char>>, bs: seq<Bid>, part: int)
    requires ParseBids(lines) == Some(bs) && AllRanked(bs, part == 2)
    ensures Total(lines, part) == Some(Winnings(Amounts(SortBids(bs, part == 2))))
  {
  }

  /** The source's test, part 1: the example pays 6440. */
  lemma WinningsPlainExample()
    ensures Total(ExampleLines, 1) == Some(6440)
  {
    ExampleParse();
    var A, B, C, D, E := ExampleBids[0], ExampleBids[1], ExampleBids[2], ExampleBids[3], ExampleBids[4];
    assert ExampleBids == [A, B, C, D, E];
    PlainOnePair("32T3K");
    PlainFiveFives("T55J5");
    PlainKings("KK677");
    PlainTens("KTJJT");
    PlainQueens("QQQJA");
    PlainOrder(A, B, C, D, E);
    SortPlainExample(A, B, C, D, E);
    TotalOf(ExampleLines, ExampleBids, 1);
    Amounts5(E, B, C, D, A);
    Winnings5(483, 684, 28, 220, 765);
  }

  /** The source's test, part 2: with jokers the example pays 5905. */
  lemma WinningsJokerExample()
    ensures Total(ExampleLines, 2) == Some(5905)
  {
    ExampleParse();
    var A, B, C, D, E := ExampleBids[0], ExampleBids[1], ExampleBids[2], ExampleBids[3], ExampleBids[4];
    assert ExampleBids == [A, B, C, D, E];
    JokerOnePair("32T3K");
    JokerFiveFives("T55J5");
    JokerKings("KK677");
    JokerTens("KTJJT");
    JokerQueens("QQQJA");
    JokerOrder(A, B, C, D, E);
    SortJokerExample(A, B, C, D, E);
    TotalOf(ExampleLines, ExampleBids, 2);
    Amounts5(D, E, B, C, A);
    Winnings5(220, 483, 684, 28, 765);
  }
}
