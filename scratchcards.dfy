/** Day 4: scratchcards. Each card lists winning numbers and the numbers drawn;
    its matches score points (part 1) or win copies of the cards below it
    (part 2). */
module Scratchcards {
  import opened Text

  // ---------------------------------------------------------------------------
  // parse_line

  function ToSet(s: seq<nat>): set<nat>
  {
    set x | x in s
  }

  /** The number of distinct drawn numbers that are winning numbers (the
      `HashSet` intersection). */
  function Matches(winning: seq<nat>, drawn: seq<nat>): nat
  {
    |ToSet(drawn) * ToSet(winning)|
  }

  lemma {:induction false} SubsetSize(a: set<nat>, b: set<nat>)
    requires a <= b
    ensures |a| <= |b|
    decreases |a|
  {
    if a != {} {
      var x :| x in a;
      SubsetSize(a - {x}, b - {x});
    }
  }

  /** Matching is symmetric and bounded by either side's distinct numbers. */
  lemma MatchesBounds(winning: seq<nat>, drawn: seq<nat>)
    ensures Matches(winning, drawn) == Matches(drawn, winning)
    ensures Matches(winning, drawn) <= |ToSet(drawn)| && Matches(winning, drawn) <= |ToSet(winning)|
  {
    assert ToSet(drawn) * ToSet(winning) == ToSet(winning) * ToSet(drawn);
    SubsetSize(ToSet(drawn) * ToSet(winning), ToSet(drawn));
    SubsetSize(ToSet(drawn) * ToSet(winning), ToSet(winning));
  }

  /** A number drawn again adds no match; a new winning number adds one. */
  lemma MatchesSnoc(winning: seq<nat>, drawn: seq<nat>, x: nat)
    ensures x in drawn ==> Matches(winning, drawn + [x]) == Matches(winning, drawn)
    ensures x !in drawn && x in winning ==> Matches(winning, drawn + [x]) == Matches(winning, drawn) + 1
    ensures x !in winning ==> Matches(winning, drawn + [x]) == Matches(winning, drawn)
  {
    var before := ToSet(drawn) * ToSet(winning);
    if x in winning && x !in drawn {
      assert ToSet(drawn + [x]) * ToSet(winning) == before + {x};
    } else {
      assert ToSet(drawn + [x]) * ToSet(winning) == before;
    }
  }

  /** `a ^ b`, Rust's bitwise exclusive or, on naturals: addition without
      carries, so never more than the sum, with the sum's parity, and zero for
      equal operands. */
  function Xor(a: nat, b: nat): (x: nat)
    ensures x <= a + b && x % 2 == (a + b) % 2
    ensures a == b ==> x == 0
    decreases a + b
  {
    if a == 0 then b
    else if b == 0 then a
    else
      var rest := Xor(a / 2, b / 2);
      XorDigit(a, b, rest);
      2 * rest + (if a % 2 == b % 2 then 0 else 1)
  }

  /** The lowest bit of `a ^ b` put below the exclusive or of the higher bits. */
  lemma XorDigit(a: nat, b: nat, rest: nat)
    requires rest <= a / 2 + b / 2
    requires a == b ==> rest == 0
    ensures var x := 2 * rest + (if a % 2 == b % 2 then 0 else 1);
            x <= a + b && x % 2 == (a + b) % 2 && (a == b ==> x == 0)
  {
    var qa, ra, qb, rb := a / 2, a % 2, b / 2, b % 2;
    assert a == 2 * qa + ra && b == 2 * qb + rb;
    assert a + b == 2 * (qa + qb) + ra + rb;
    if ra == rb {
      assert a + b == 2 * (qa + qb + ra);
    } else {
      assert a + b == 2 * (qa + qb) + 1;
    }
  }

  lemma XorOne(m: nat)
    ensures Xor(1, m) == if m % 2 == 0 then m + 1 else m - 1
  {
    if m > 0 {
      assert Xor(0, m / 2) == m / 2;
    }
  }

  /** `2 ^ copy` flips bit 1 of `copy`: it adds 2 or takes 2 away. */
  lemma XorTwo(copy: nat)
    ensures Xor(2, copy) == if (copy / 2) % 2 == 0 then copy + 2 else copy - 2
  {
    if copy > 0 {
      XorOne(copy / 2);
    }
  }

  /** `parse_line`'s first result as written: `2 ^ copy`, the match count
      with bit 1 flipped, two more or two less. */
  function Win(copy: nat): (w: nat)
    ensures w == copy + 2 || w + 2 == copy
  {
    XorTwo(copy);
    Xor(2, copy)
  }

  function Pow2(n: nat): (p: nat)
    ensures p >= 1
  {
    if n == 0 then 1 else 2 * Pow2(n - 1)
  }

  /** The score the card game defines: nothing without a match, one point for
      the first match and double for every further one. */
  function Points(copy: nat): nat
  {
    if copy == 0 then 0 else Pow2(copy - 1)
  }

  /** Points start at one and double with every further match. */
  lemma PointsDouble(copy: nat)
    ensures Points(0) == 0 && Points(1) == 1
    ensures copy >= 1 ==> Points(copy + 1) == 2 * Points(copy)
  {
  }

  /** The winning and the drawn numbers of the test card, as sets. */
  lemma CardOneSets()
    ensures ToSet([41, 48, 83, 86, 17]) == {41, 48, 83, 86, 17}
    ensures ToSet([83, 86, 6, 31, 17, 9, 48, 53]) == {83, 86, 6, 31, 17, 9, 48, 53}
  {
    var w := [41, 48, 83, 86, 17];
    assert w[0] == 41 && w[1] == 48 && w[2] == 83 && w[3] == 86 && w[4] == 17;
    var d := [83, 86, 6, 31, 17, 9, 48, 53];
    assert d[0] == 83 && d[1] == 86 && d[2] == 6 && d[3] == 31 && d[4] == 17 && d[5] == 9 && d[6] == 48 && d[7] == 53;
  }

  lemma CardOneMatches()
    ensures Matches([41, 48, 83, 86, 17], [83, 86, 6, 31, 17, 9, 48, 53]) == 4
  {
    CardOneSets();
    assert {83, 86, 6, 31, 17, 9, 48, 53} * {41, 48, 83, 86, 17} == {48, 83, 86, 17};
  }

  lemma WinFour()
    ensures Win(4) == 6 && Points(4) == 8
  {
    XorTwo(4);
  }

  lemma WinCounterexample()
    ensures Matches([41, 48, 83, 86, 17], [83, 86, 6, 31, 17, 9, 48, 53]) == 4
    ensures Win(4) == 6 && Points(4) == 8
  {
    CardOneMatches();
    WinFour();
  }

  lemma {:induction false} Pow2Grows(n: nat)
    requires n >= 4
    ensures Pow2(n) >= n + 4
  {
    if n > 4 {
      Pow2Grows(n - 1);
    }
  }

  /** `2 ^ copy` is never the score the game defines, whatever the number of matches. */
  lemma WinNeverPoints(copy: nat)
    ensures Win(copy) != Points(copy)
  {
    XorTwo(copy);
    if copy >= 5 {
      Pow2Grows(copy - 1);
    } else {
      assert Pow2(4) == 16;
    }
  }

  /** The example's match counts give 13 either way. */
  lemma WinExampleTotal()
    ensures Win(4) + Win(2) + Win(2) + Win(1) + Win(0) + Win(0) == 13
    ensures Points(4) + Points(2) + Points(2) + Points(1) + Points(0) + Points(0) == 13
  {
    XorTwo(4);
    XorTwo(2);
    XorTwo(1);
    XorTwo(0);
  }

  /** `parse_line`: the win and the match count of a card; None where an
      `unwrap` panics (no ':' or no '|', or a number that does not parse). */
  function ParseLine(line: seq<char>): Option<(nat, nat)>
  {
    var halves := Split(Trim(line), ':');
    if |halves| < 2 then None
    else
      var parts := Split(Trim(halves[1]), '|');
      var winning := ParseAll(Words(Trim(parts[0])));
      if winning.None? || |parts| < 2 then None
      else
        var drawn := ParseAll(Words(Trim(parts[1])));
        if drawn.None? then None
        else
          var copy := Matches(winning.value, drawn.value);
          Some((Win(copy), copy))
  }

  /** The bar splits the numbers into the two lists, each trimmed to itself. */
  lemma CardLists(winning: seq<char>, drawn: seq<char>)
    requires Solid(winning) && Solid(drawn) && '|' !in winning && '|' !in drawn
    ensures Split(Trim(" " + (winning + " | " + drawn)), '|') == [winning + " ", " " + drawn]
    ensures Trim(winning + " ") == winning && Trim(" " + drawn) == drawn
  {
    var numbers := winning + " | " + drawn;
    NumbersSolid(winning, drawn);
    TrimLead(' ', numbers);
    NumbersSplit(winning, drawn);
    TrimTrail(winning, ' ');
    TrimSolid(winning);
    TrimLead(' ', drawn);
    TrimSolid(drawn);
  }

  lemma NumbersSplit(winning: seq<char>, drawn: seq<char>)
    requires '|' !in winning && '|' !in drawn
    ensures Split(winning + " | " + drawn, '|') == [winning + " ", " " + drawn]
  {
    AroundBar(winning, drawn);
    SplitFirst(winning + " ", '|', " " + drawn);
    SplitNone(" " + drawn, '|');
  }

  lemma AroundBar(winning: seq<char>, drawn: seq<char>)
    requires '|' !in winning && '|' !in drawn
    ensures winning + " | " + drawn == (winning + " ") + ['|'] + (" " + drawn)
    ensures '|' !in winning + " " && '|' !in " " + drawn
  {
  }

  lemma NumbersSolid(winning: seq<char>, drawn: seq<char>)
    requires Solid(winning) && Solid(drawn)
    ensures Trim(winning + " | " + drawn) == winning + " | " + drawn
  {
    var numbers := winning + " | " + drawn;
    assert numbers[0] == winning[0] && numbers[|numbers| - 1] == drawn[|drawn| - 1];
    TrimSolid(numbers);
  }

  /** A card line "heading: winning | drawn" gives the matches between the
      numbers of its two lists, or None when a word of either list is not a
      number. */
  lemma ParseLineParts(heading: seq<char>, winning: seq<char>, drawn: seq<char>)
    requires Solid(heading) && Solid(winning) && Solid(drawn)
    requires ':' !in heading && ':' !in winning && ':' !in drawn
    requires '|' !in winning && '|' !in drawn
    ensures var w := ParseAll(Words(winning));
            var d := ParseAll(Words(drawn));
            ParseLine(heading + ": " + winning + " | " + drawn)
              == if w.None? || d.None? then None
                 else Some((Win(Matches(w.value, d.value)), Matches(w.value, d.value)))
  {
    var numbers := winning + " | " + drawn;
    var line := heading + ": " + winning + " | " + drawn;
    assert line == heading + ": " + numbers;
    ColonHalves(heading, numbers);
    CardLists(winning, drawn);
    ParseLineOf(line, heading, " " + numbers, winning + " ", " " + drawn, winning, drawn);
  }

  /** `parse_line` once its splits and trims are known. */
  lemma ParseLineOf(line: seq<char>, heading: seq<char>, numbers: seq<char>,
                    first: seq<char>, second: seq<char>, winning: seq<char>, drawn: seq<char>)
    requires Split(Trim(line), ':') == [heading, numbers]
    requires Split(Trim(numbers), '|') == [first, second]
    requires Trim(first) == winning && Trim(second) == drawn
    ensures var w := ParseAll(Words(winning));
            var d := ParseAll(Words(drawn));
            ParseLine(line)
              == if w.None? || d.None? then None
                 else Some((Win(Matches(w.value, d.value)), Matches(w.value, d.value)))
  {
    var halves := Split(Trim(line), ':');
    assert |halves| == 2 && halves[1] == numbers;
    var parts := Split(Trim(halves[1]), '|');
    assert |parts| == 2 && parts[0] == first && parts[1] == second;
  }

  // ---------------------------------------------------------------------------
  // fetch_copies

  /** An entry of the copy store: how many more cards it pays for, and how
      many copies it pays each time. */
  type Entry = (nat, nat)

  /** What `fetch_copies` returns: the weights of the entries still paying. */
  function Due(es: seq<Entry>): nat
  {
    if es == [] then 0
    else Due(es[..|es| - 1]) + (if es[|es| - 1].0 > 0 then es[|es| - 1].1 else 0)
  }

  /** What `fetch_copies` leaves: each paying entry one step further, those
      that reach 0 (or were at 0) removed, order kept. */
  function Survivors(es: seq<Entry>): (rest: seq<Entry>)
    ensures |rest| <= |es|
    ensures forall k :: 0 <= k < |rest| ==> rest[k].0 > 0
  {
    if es == [] then []
    else
      Survivors(es[..|es| - 1]) + Step(es[|es| - 1])
  }

  lemma DueAppend(a: seq<Entry>, b: seq<Entry>)
    ensures Due(a + b) == Due(a) + Due(b)
    decreases |b|
  {
    if b != [] {
      assert (a + b)[..|a + b| - 1] == a + b[..|b| - 1];
      DueAppend(a, b[..|b| - 1]);
    } else {
      assert a + b == a;
    }
  }

  lemma SurvivorsAppend(a: seq<Entry>, b: seq<Entry>)
    ensures Survivors(a + b) == Survivors(a) + Survivors(b)
    decreases |b|
  {
    if b != [] {
      assert (a + b)[..|a + b| - 1] == a + b[..|b| - 1];
      SurvivorsAppend(a, b[..|b| - 1]);
    } else {
      assert a + b == a;
    }
  }

  /** The `Vec<(usize, usize)>` of copies `analyze` keeps between cards. */
  class CopyStore {
    var entries: seq<Entry>

    constructor ()
      ensures entries == []
    {
      entries := [];
    }

    method Push(entry: Entry)
      modifies this
      ensures entries == old(entries) + [entry]
    {
      entries := entries + [entry];
    }

    /** `fetch_copies`: one pass with a manual index; an entry that reaches 0
        is removed in place and the index stays. */
    method Fetch() returns (copies: nat)
      modifies this
      ensures copies == Due(old(entries))
      ensures entries == Survivors(old(entries))
    {
      if |entries| == 0 {
        return 0;
      }
      copies, entries := Sweep(entries);
    }
  }

  /** The loop of `fetch_copies` over a non-empty store, with its manual index. */
  method Sweep(start: seq<Entry>) returns (copies: nat, store: seq<Entry>)
    requires |start| > 0
    ensures copies == Due(start)
    ensures store == Survivors(start)
  {
    copies := 0;
    var index := 0;
    store := start;
    ghost var done := 0;
    while true
      invariant done < |start|
      invariant index == |Survivors(start[..done])|
      invariant store == Survivors(start[..done]) + start[done..]
      invariant copies == Due(start[..done])
      decreases |start| - done
    {
      SweepStep(start, done);
      var pay;
      store, index, pay := Visit(store, index);
      copies := copies + pay;
      done := done + 1;
      assert store == Survivors(start[..done]) + start[done..];
      if index >= |store| {
        assert |start[done..]| == 0;
        break;
      }
    }
    assert done == |start|;
    assert start[..done] == start;
  }

  /** The body of the `fetch_copies` loop on the entry at `index`: pay its
      weight if it still pays, step it, and remove it in place once at 0. */
  method Visit(store: seq<Entry>, index: nat) returns (next: seq<Entry>, nextIndex: nat, pay: nat)
    requires index < |store|
    ensures pay == if store[index].0 > 0 then store[index].1 else 0
    ensures next == store[..index] + Step(store[index]) + store[index + 1..]
    ensures nextIndex == index + |Step(store[index])|
  {
    next := store;
    pay := 0;
    if next[index].0 > 0 {
      pay := next[index].1;
      next := next[index := (next[index].0 - 1, next[index].1)];
    }
    if next[index].0 == 0 {
      next := next[..index] + next[index + 1..];
      nextIndex := index;
    } else {
      nextIndex := index + 1;
      assert next == store[..index] + [next[index]] + store[index + 1..];
    }
  }

  /** What one fetch leaves of one entry. */
  function Step(e: Entry): (r: seq<Entry>)
    ensures |r| <= 1
  {
    if e.0 > 1 then [(e.0 - 1, e.1)] else []
  }

  lemma Splice(kept: seq<Entry>, rest: seq<Entry>)
    requires |rest| > 0
    ensures (kept + rest)[|kept|] == rest[0]
    ensures (kept + rest)[..|kept|] == kept
    ensures (kept + rest)[|kept| + 1..] == rest[1..]
  {
  }

  /** Visiting the first unprocessed entry of a partly swept store leaves the
      store swept one entry further, with the index just past the survivors. */
  lemma SweepStep(start: seq<Entry>, done: nat)
    requires done < |start|
    ensures var kept := Survivors(start[..done]);
            var store := kept + start[done..];
            |kept| < |store| &&
            store[..|kept|] + Step(store[|kept|]) + store[|kept| + 1..] ==
              Survivors(start[..done + 1]) + start[done + 1..] &&
            |kept| + |Step(store[|kept|])| == |Survivors(start[..done + 1])| &&
            (if store[|kept|].0 > 0 then store[|kept|].1 else 0) + Due(start[..done]) ==
              Due(start[..done + 1])
  {
    var kept := Survivors(start[..done]);
    FetchStep(start, done);
    Splice(kept, start[done..]);
  }

  /** One more entry of the store processed. */
  lemma FetchStep(es: seq<Entry>, done: nat)
    requires done < |es|
    ensures Survivors(es[..done + 1]) == Survivors(es[..done]) + Step(es[done])
    ensures Due(es[..done + 1]) == Due(es[..done]) + (if es[done].0 > 0 then es[done].1 else 0)
    ensures es[done..][1..] == es[done + 1..]
  {
    assert es[..done + 1][..done] == es[..done];
  }

  // ---------------------------------------------------------------------------
  // analyze, part 2

  /** The entries pushed for a card with `copy` matches and `n` copies. */
  function Pushed(copy: nat, n: nat): seq<Entry>
  {
    (if copy > 0 then [(copy, 1)] else []) + [(copy, n)]
  }

  /** The state of the part 2 loop after the first `i` cards: the sum so far
      and the store. */
  datatype Game = Game(sum: nat, store: seq<Entry>)

  function Play(copies: seq<nat>, i: nat): Game
    requires i <= |copies|
  {
    if i == 0 then Game(0, [])
    else
      var before := Play(copies, i - 1);
      var n := Due(before.store);
      Game(before.sum + n + 1, Survivors(before.store) + Pushed(copies[i - 1], n))
  }

  /** The reference count of card `i`: the original plus one copy for every
      instance of each earlier card `j` whose matches reach card `i`. */
  function Instances(copies: seq<nat>, i: nat): nat
    requires i < |copies|
    decreases i, 1
  {
    1 + Won(copies, i, i)
  }

  /** The instances of the cards before `m` that win a copy of card `i`. */
  function Won(copies: seq<nat>, i: nat, m: nat): nat
    requires m <= i < |copies|
    decreases m, 0
  {
    if m == 0 then 0
    else Won(copies, i, m - 1) + (if m - 1 + copies[m - 1] >= i then Instances(copies, m - 1) else 0)
  }

  /** The total number of cards, by the reference count. */
  function TotalInstances(copies: seq<nat>, i: nat): nat
    requires i <= |copies|
  {
    if i == 0 then 0 else TotalInstances(copies, i - 1) + Instances(copies, i - 1)
  }

  /** The entries card `copy` holds `age` fetches after it pushed them. */
  function Pending(copy: nat, n: nat, age: nat): seq<Entry>
  {
    if age == 0 then Pushed(copy, n)
    else if copy > age then [(copy - age, 1), (copy - age, n)]
    else []
  }

  lemma PendingStep(copy: nat, n: nat, age: nat)
    ensures Survivors(Pending(copy, n, age)) == Pending(copy, n, age + 1)
    ensures Due(Pending(copy, n, age)) == if copy > age then 1 + n else 0
  {
    var p := Pending(copy, n, age);
    if |p| == 2 {
      assert p[..1][..0] == p[..0];
      assert Survivors(p[..1]) == Survivors([]) + (if p[0].0 > 1 then [(p[0].0 - 1, p[0].1)] else []);
      assert Due(p[..1]) == if p[0].0 > 0 then p[0].1 else 0;
    } else if |p| == 1 {
      assert |p[..0]| == 0;
    }
  }

  /** The store right before card `i` is fetched: what the cards before `m`
      still hold, card `j` having pushed `ns[j]` copies. */
  function Store(copies: seq<nat>, ns: seq<nat>, m: nat, i: nat): seq<Entry>
    requires m <= i <= |copies| && m <= |ns|
  {
    if m == 0 then []
    else Store(copies, ns, m - 1, i) + Pending(copies[m - 1], ns[m - 1], i - m)
  }

  /** The instances of the cards before `m` whose matches reach card `i`, card
      `j` counting `1 + ns[j]`. */
  function Paying(copies: seq<nat>, ns: seq<nat>, i: nat, m: nat): nat
    requires m <= |copies| && m <= |ns|
  {
    if m == 0 then 0
    else Paying(copies, ns, i, m - 1) + (if m - 1 + copies[m - 1] >= i then 1 + ns[m - 1] else 0)
  }

  lemma {:induction false} StoreDue(copies: seq<nat>, ns: seq<nat>, m: nat, i: nat)
    requires m <= i <= |copies| && m <= |ns|
    ensures Due(Store(copies, ns, m, i)) == Paying(copies, ns, i, m)
  {
    if m > 0 {
      StoreDue(copies, ns, m - 1, i);
      StoreDueStep(copies, ns, m, i);
    }
  }

  lemma StoreDueStep(copies: seq<nat>, ns: seq<nat>, m: nat, i: nat)
    requires 0 < m <= i <= |copies| && m <= |ns|
    ensures Due(Store(copies, ns, m, i)) ==
              Due(Store(copies, ns, m - 1, i)) + (if m - 1 + copies[m - 1] >= i then 1 + ns[m - 1] else 0)
  {
    var last := Pending(copies[m - 1], ns[m - 1], i - m);
    DueAppend(Store(copies, ns, m - 1, i), last);
    PendingStep(copies[m - 1], ns[m - 1], i - m);
  }

  lemma {:induction false} StoreStep(copies: seq<nat>, ns: seq<nat>, m: nat, i: nat)
    requires m <= i < |copies| && m <= |ns|
    ensures Survivors(Store(copies, ns, m, i)) == Store(copies, ns, m, i + 1)
  {
    if m > 0 {
      StoreStep(copies, ns, m - 1, i);
      StoreStepLast(copies, ns, m, i);
    }
  }

  /** One more card on top of a store that already steps correctly. */
  lemma StoreStepLast(copies: seq<nat>, ns: seq<nat>, m: nat, i: nat)
    requires 0 < m <= i < |copies| && m <= |ns|
    requires Survivors(Store(copies, ns, m - 1, i)) == Store(copies, ns, m - 1, i + 1)
    ensures Survivors(Store(copies, ns, m, i)) == Store(copies, ns, m, i + 1)
  {
    var front := Store(copies, ns, m - 1, i);
    var last := Pending(copies[m - 1], ns[m - 1], i - m);
    SurvivorsAppend(front, last);
    PendingStep(copies[m - 1], ns[m - 1], i - m);
    assert i + 1 - m == i - m + 1;
  }

  /** The copies each card before `i` won, by the reference count. */
  function Extra(copies: seq<nat>, i: nat): (ns: seq<nat>)
    requires i <= |copies|
    ensures |ns| == i && forall j :: 0 <= j < i ==> ns[j] == Instances(copies, j) - 1
  {
    seq(i, j requires 0 <= j < i => Instances(copies, j) - 1)
  }

  lemma {:induction false} WonPaying(copies: seq<nat>, ns: seq<nat>, i: nat, m: nat)
    requires m <= i < |copies| && m <= |ns|
    requires forall j :: 0 <= j < m ==> ns[j] == Instances(copies, j) - 1
    ensures Won(copies, i, m) == Paying(copies, ns, i, m)
  {
    if m > 0 {
      WonPaying(copies, ns, i, m - 1);
    }
  }

  /** Only the counts of the cards before `m` matter. */
  lemma {:induction false} StorePrefix(copies: seq<nat>, a: seq<nat>, b: seq<nat>, m: nat, i: nat)
    requires m <= i <= |copies| && m <= |a| && m <= |b| && a[..m] == b[..m]
    ensures Store(copies, a, m, i) == Store(copies, b, m, i)
  {
    if m > 0 {
      assert a[..m - 1] == b[..m - 1] && a[m - 1] == b[m - 1];
      StorePrefix(copies, a, b, m - 1, i);
    }
  }

  /** The part 2 loop counts every card as often as the reference count says,
      and its store is exactly what the earlier cards still hold. */
  lemma {:induction false} PlayCounts(copies: seq<nat>, i: nat)
    requires i <= |copies|
    ensures Play(copies, i).store == Store(copies, Extra(copies, i), i, i)
    ensures Play(copies, i).sum == TotalInstances(copies, i)
  {
    if i > 0 {
      PlayCounts(copies, i - 1);
      PlayCountsStep(copies, i);
    }
  }

  /** Card `i - 1` fetches what the store says it is due, and the store moves on. */
  lemma PlayCountsStep(copies: seq<nat>, i: nat)
    requires 0 < i <= |copies|
    requires Play(copies, i - 1).store == Store(copies, Extra(copies, i - 1), i - 1, i - 1)
    requires Play(copies, i - 1).sum == TotalInstances(copies, i - 1)
    ensures Play(copies, i).store == Store(copies, Extra(copies, i), i, i)
    ensures Play(copies, i).sum == TotalInstances(copies, i)
  {
    var ns := Extra(copies, i);
    var prev := Extra(copies, i - 1);
    ExtraPrefix(copies, i);
    StorePrefix(copies, prev, ns, i - 1, i - 1);
    var before := Play(copies, i - 1).store;
    assert before == Store(copies, ns, i - 1, i - 1);
    StoreDueExtra(copies, i, ns);
    PlayStore(copies, i, ns);
    PlayUnfold(copies, i);
    assert ns[i - 1] + 1 == Instances(copies, i - 1);
  }

  /** The counts before card `i - 1` do not depend on the cards after it. */
  lemma ExtraPrefix(copies: seq<nat>, i: nat)
    requires 0 < i <= |copies|
    ensures Extra(copies, i - 1)[..i - 1] == Extra(copies, i)[..i - 1]
  {
    var prev := Extra(copies, i - 1);
    var ns := Extra(copies, i);
    assert forall j :: 0 <= j < i - 1 ==> prev[j] == ns[j];
  }

  /** What card `i - 1` fetches is the copies the earlier cards won of it. */
  lemma StoreDueExtra(copies: seq<nat>, i: nat, ns: seq<nat>)
    requires 0 < i <= |copies| && ns == Extra(copies, i)
    ensures Due(Store(copies, ns, i - 1, i - 1)) == ns[i - 1]
  {
    StoreDue(copies, ns, i - 1, i - 1);
    WonPaying(copies, ns, i - 1, i - 1);
    assert Instances(copies, i - 1) == 1 + Won(copies, i - 1, i - 1);
  }

  lemma PlayStore(copies: seq<nat>, i: nat, ns: seq<nat>)
    requires 0 < i <= |copies| && i <= |ns|
    requires Play(copies, i - 1).store == Store(copies, ns, i - 1, i - 1)
    requires Due(Play(copies, i - 1).store) == ns[i - 1]
    ensures Play(copies, i).store == Store(copies, ns, i, i)
  {
    var before := Play(copies, i - 1).store;
    calc {
      Play(copies, i).store;
    == { PlayUnfold(copies, i); }
      Survivors(before) + Pushed(copies[i - 1], Due(before));
    ==
      Survivors(Store(copies, ns, i - 1, i - 1)) + Pushed(copies[i - 1], ns[i - 1]);
    == { StoreSurvive(copies, ns, i); }
      Store(copies, ns, i - 1, i) + Pushed(copies[i - 1], ns[i - 1]);
    == { StoreUnfold(copies, ns, i); }
      Store(copies, ns, i, i);
    }
  }

  /** The store card `i - 1` leaves after its fetch. */
  lemma StoreSurvive(copies: seq<nat>, ns: seq<nat>, i: nat)
    requires 0 < i <= |copies| && i <= |ns|
    ensures Survivors(Store(copies, ns, i - 1, i - 1)) == Store(copies, ns, i - 1, i)
  {
    var j := i - 1;
    StoreStep(copies, ns, j, j);
    assert j + 1 == i;
  }

  /** One step of the part 2 loop. */
  lemma PlayUnfold(copies: seq<nat>, i: nat)
    requires 0 < i <= |copies|
    ensures var before := Play(copies, i - 1);
            Play(copies, i) == Game(before.sum + Due(before.store) + 1,
                                    Survivors(before.store) + Pushed(copies[i - 1], Due(before.store)))
  {
  }

  /** The store before card `i` fetches, with card `i - 1`'s fresh entries last. */
  lemma StoreUnfold(copies: seq<nat>, ns: seq<nat>, i: nat)
    requires 0 < i <= |copies| && i <= |ns|
    ensures Store(copies, ns, i, i) == Store(copies, ns, i - 1, i) + Pushed(copies[i - 1], ns[i - 1])
  {
    assert Pending(copies[i - 1], ns[i - 1], 0) == Pushed(copies[i - 1], ns[i - 1]);
  }

  /** The part 2 result is the reference total over all the cards. */
  lemma PlayTotal(copies: seq<nat>)
    ensures Play(copies, |copies|).sum == TotalInstances(copies, |copies|)
  {
    PlayCounts(copies, |copies|);
  }

  /** The example's match counts give 30 cards. */
  lemma ExampleCards()
    ensures TotalInstances([4, 2, 2, 1, 0, 0], 6) == 30
  {
    var cs := [4, 2, 2, 1, 0, 0];
    assert Instances(cs, 0) == 1;
    assert Instances(cs, 1) == 2;
    assert Instances(cs, 2) == 4;
    assert Instances(cs, 3) == 8;
    assert Instances(cs, 4) == 14;
    assert Instances(cs, 5) == 1;
  }

  // ---------------------------------------------------------------------------
  // analyze

  /** `parse_line` on every line. */
  function Parsed(lines: seq<seq<char>>): (ps: seq<Option<(nat, nat)>>)
    ensures |ps| == |lines|
  {
    if lines == [] then [] else Parsed(lines[..|lines| - 1]) + [ParseLine(lines[|lines| - 1])]
  }

  /** The cards' (win, matches) pairs; None once a line has panicked. */
  function Collect(ps: seq<Option<(nat, nat)>>): (cards: Option<seq<(nat, nat)>>)
    ensures cards.Some? ==> |cards.value| == |ps|
  {
    if ps == [] then Some([])
    else
      var before := Collect(ps[..|ps| - 1]);
      var card := ps[|ps| - 1];
      if before.None? || card.None? then None else Some(before.value + [card.value])
  }

  function Cards(lines: seq<seq<char>>): Option<seq<(nat, nat)>>
  {
    Collect(Parsed(lines))
  }

  function Wins(cards: seq<(nat, nat)>): nat
  {
    if cards == [] then 0 else Wins(cards[..|cards| - 1]) + cards[|cards| - 1].0
  }

  function MatchCounts(cards: seq<(nat, nat)>): (cs: seq<nat>)
    ensures |cs| == |cards|
  {
    if cards == [] then [] else MatchCounts(cards[..|cards| - 1]) + [cards[|cards| - 1].1]
  }

  /** `analyze`: the sum of the wins (part 1) or the number of cards won
      (any other part); None when a line panics. */
  function Score(lines: seq<seq<char>>, part: int): Option<nat>
  {
    var cards := Cards(lines);
    if cards.None? then None
    else if part == 1 then Some(Wins(cards.value))
    else Some(Play(MatchCounts(cards.value), |cards.value|).sum)
  }

  /** Each line is parsed on its own. */
  lemma {:induction false} ParsedAt(lines: seq<seq<char>>, k: nat)
    requires k < |lines|
    ensures Parsed(lines)[k] == ParseLine(lines[k])
    decreases |lines|
  {
    var init := lines[..|lines| - 1];
    assert Parsed(lines) == Parsed(init) + [ParseLine(lines[|lines| - 1])];
    if k < |lines| - 1 {
      ParsedAt(init, k);
      assert init[k] == lines[k];
    }
  }

  lemma {:induction false} ParsedPrefix(lines: seq<seq<char>>, n: nat)
    requires n <= |lines|
    ensures Parsed(lines[..n]) == Parsed(lines)[..n]
  {
    var prefix := lines[..n];
    forall k | 0 <= k < n
      ensures Parsed(prefix)[k] == Parsed(lines)[k]
    {
      ParsedAt(prefix, k);
      ParsedAt(lines, k);
      assert prefix[k] == lines[k];
    }
  }

  /** A line that panics ends `analyze`, whatever follows. */
  lemma {:induction false} CollectPanic(ps: seq<Option<(nat, nat)>>, n: nat)
    requires n <= |ps| && Collect(ps[..n]).None?
    ensures Collect(ps).None?
    decreases |ps|
  {
    if n < |ps| {
      assert ps[..|ps| - 1][..n] == ps[..n];
      CollectPanic(ps[..|ps| - 1], n);
    } else {
      assert ps[..n] == ps;
    }
  }

  lemma CollectSnoc(ps: seq<Option<(nat, nat)>>, p: Option<(nat, nat)>)
    ensures Collect(ps + [p]) == if Collect(ps).None? || p.None? then None else Some(Collect(ps).value + [p.value])
  {
    assert (ps + [p])[..|ps|] == ps;
  }

  /** Play only looks at the match counts of the cards it has played. */
  lemma {:induction false} PlayPrefix(a: seq<nat>, b: seq<nat>, i: nat)
    requires i <= |a| && i <= |b| && a[..i] == b[..i]
    ensures Play(a, i) == Play(b, i)
  {
    if i > 0 {
      assert a[..i - 1] == b[..i - 1] && a[i - 1] == b[i - 1];
      PlayPrefix(a, b, i - 1);
    }
  }

  /** `parse_line` on line `i`. */
  method NextCard(lines: seq<seq<char>>, i: nat) returns (card: Option<(nat, nat)>)
    requires i < |lines|
    ensures Parsed(lines[..i + 1]) == Parsed(lines[..i]) + [card]
  {
    card := ParseLine(lines[i]);
    assert lines[..i + 1][..i] == lines[..i];
  }

  /** The state of part 2 after one more card. */
  lemma PlaySnoc(copies: seq<nat>, copy: nat)
    ensures Play(copies + [copy], |copies| + 1) ==
              Game(Play(copies, |copies|).sum + Due(Play(copies, |copies|).store) + 1,
                   Survivors(Play(copies, |copies|).store) + Pushed(copy, Due(Play(copies, |copies|).store)))
  {
    assert (copies + [copy])[..|copies|] == copies;
    PlayPrefix(copies + [copy], copies, |copies|);
  }

  lemma MatchCountsSnoc(cards: seq<(nat, nat)>, card: (nat, nat))
    ensures MatchCounts(cards + [card]) == MatchCounts(cards) + [card.1]
  {
    assert (cards + [card])[..|cards|] == cards;
  }

  lemma WinsSnoc(cards: seq<(nat, nat)>, card: (nat, nat))
    ensures Wins(cards + [card]) == Wins(cards) + card.0
  {
    assert (cards + [card])[..|cards|] == cards;
  }

  lemma ScorePanic(lines: seq<seq<char>>, part: int)
    requires Collect(Parsed(lines)).None?
    ensures Score(lines, part).None?
  {
  }

  /** A line that panics within the first `n` ends the whole analysis. */
  lemma ScorePanicAt(lines: seq<seq<char>>, n: nat, part: int)
    requires n <= |lines| && Collect(Parsed(lines[..n])).None?
    ensures Score(lines, part).None?
  {
    ParsedPrefix(lines, n);
    CollectPanic(Parsed(lines), n);
    ScorePanic(lines, part);
  }

  lemma ScoreCards(lines: seq<seq<char>>, part: int, cards: seq<(nat, nat)>)
    requires Collect(Parsed(lines)) == Some(cards)
    ensures Score(lines, part) ==
              Some(if part == 1 then Wins(cards) else Play(MatchCounts(cards), |MatchCounts(cards)|).sum)
  {
  }

  /** Part 2 of `analyze` counts every card by the reference rule: one
      original plus one copy per instance of each earlier card whose matches
      reach it. */
  lemma ScoreCountsInstances(lines: seq<seq<char>>, part: int)
    requires part != 1 && Cards(lines).Some?
    ensures Score(lines, part) == Some(TotalInstances(MatchCounts(Cards(lines).value), |lines|))
  {
    PlayTotal(MatchCounts(Cards(lines).value));
  }

  /** One card of part 2: fetch the copies it won, then push its own. */
  method Round(store: CopyStore, ghost counts: seq<nat>, copy: nat) returns (n: nat)
    requires store.entries == Play(counts, |counts|).store
    modifies store
    ensures Play(counts + [copy], |counts| + 1).sum == Play(counts, |counts|).sum + n + 1
    ensures store.entries == Play(counts + [copy], |counts| + 1).store
  {
    ghost var before := Play(counts, |counts|);
    PlaySnoc(counts, copy);
    n := store.Fetch();
    assert n == Due(before.store);
    ghost var kept := store.entries;
    if copy > 0 {
      store.Push((copy, 1));
      store.Push((copy, n));
      AppendAssoc(kept, [(copy, 1)], [(copy, n)]);
    } else {
      store.Push((copy, n));
    }
    assert store.entries == kept + Pushed(copy, n);
    assert store.entries == Survivors(before.store) + Pushed(copy, Due(before.store));
  }

  /** The body of `analyze`'s loop once the card is parsed. */
  method Turn(store: CopyStore, part: int, card: (nat, nat), sum: nat,
              ghost cards: seq<(nat, nat)>, ghost counts: seq<nat>) returns (next: nat)
    requires counts == MatchCounts(cards)
    requires part == 1 ==> sum == Wins(cards)
    requires part != 1 ==> sum == Play(counts, |counts|).sum && store.entries == Play(counts, |counts|).store
    modifies store
    ensures counts + [card.1] == MatchCounts(cards + [card])
    ensures part == 1 ==> next == Wins(cards + [card])
    ensures part != 1 ==> next == Play(counts + [card.1], |counts| + 1).sum
    ensures part != 1 ==> store.entries == Play(counts + [card.1], |counts| + 1).store
  {
    MatchCountsSnoc(cards, card);
    WinsSnoc(cards, card);
    var win := card.0;
    var copy := card.1;
    if part == 1 {
      next := sum + win;
    } else {
      var n := Round(store, counts, copy);
      next := sum + n + 1;
    }
  }

  /** Where `analyze` stands after the first `i` lines: they all parsed into
      `cards`, and the sum and the store are what the reference game says. */
  ghost predicate Progress(lines: seq<seq<char>>, i: nat, part: int, sum: nat, entries: seq<Entry>,
                           cards: seq<(nat, nat)>, counts: seq<nat>)
    requires i <= |lines|
  {
    && Collect(Parsed(lines[..i])) == Some(cards) && |cards| == i
    && counts == MatchCounts(cards)
    && (part == 1 ==> sum == Wins(cards))
    && (part != 1 ==> sum == Play(counts, |counts|).sum && entries == Play(counts, |counts|).store)
  }

  /** One pass of `analyze`'s loop: parse line `i`, then take the card's turn. */
  method Advance(lines: seq<seq<char>>, i: nat, part: int, store: CopyStore, sum: nat,
                 ghost cards: seq<(nat, nat)>, ghost counts: seq<nat>) returns (card: Option<(nat, nat)>, next: nat)
    requires i < |lines| && Progress(lines, i, part, sum, store.entries, cards, counts)
    modifies store
    ensures card.None? ==> Score(lines, part).None?
    ensures card.Some? ==>
              Progress(lines, i + 1, part, next, store.entries, cards + [card.value], counts + [card.value.1])
  {
    card := NextCard(lines, i);
    CollectSnoc(Parsed(lines[..i]), card);
    if card.None? {
      ScorePanicAt(lines, i + 1, part);
      return card, sum;
    }
    next := Turn(store, part, card.value, sum, cards, counts);
  }

  /** `analyze`: part 2 keeps the copies in a store that every card fetches
      from, then pushes its own copies onto. */
  method Analyze(lines: seq<seq<char>>, part: int) returns (r: Option<nat>)
    ensures r == Score(lines, part)
  {
    var sum: nat := 0;
    var store := new CopyStore();
    ghost var cards: seq<(nat, nat)> := [];
    ghost var counts: seq<nat> := [];
    for i := 0 to |lines|
      invariant Progress(lines, i, part, sum, store.entries, cards, counts)
    {
      var card, next := Advance(lines, i, part, store, sum, cards, counts);
      if card.None? {
        return None;
      }
      sum := next;
      cards := cards + [card.value];
      counts := counts + [card.value.1];
    }
    assert lines[..|lines|] == lines;
    ScoreCards(lines, part, cards);
    return Some(sum);
  }
}
