/** Day 2: games of coloured cubes drawn from a bag. A line reads
    `Game <id>: <count> <colour>, ...; <count> <colour>, ...`. In limit mode a
    game is possible when no draw exceeds the bag's count for its colour; in
    power mode the line's value is the product of the largest count drawn of
    each colour. */
module CubeGame {
  import opened Text

  /** One `<count> <colour>` element of a round. */
  datatype Draw = Draw(count: nat, color: seq<char>)

  /** What `analyse_line` does: it panics on an `unwrap`, or returns. */
  datatype Verdict = Panicked | Returned(result: Option<nat>)

  // ---------------------------------------------------------------------------
  // The text of a line
  // ---------------------------------------------------------------------------

  /** The game id and the text of the rounds: the trimmed line split at ':',
      the id the second space-separated piece of the trimmed first half. None
      where an `unwrap` panics (no ':', no second piece, not a number). */
  function Header(line: seq<char>): Option<(nat, seq<char>)>
  {
    var halves := Split(Trim(line), ':');
    if |halves| < 2 then None
    else
      var id := Piece(Trim(halves[0]), ' ', 1);
      if id.None? then None
      else
        var n := ParseNat(id.value);
        if n.None? then None else Some((n.value, Trim(halves[1])))
  }

  /** One element of a round: the first space-separated piece is the count, the
      second the colour. None where an `unwrap` panics. */
  function ParseDraw(element: seq<char>): Option<Draw>
  {
    var words := Split(Trim(element), ' ');
    var count := ParseNat(Trim(words[0]));
    if count.None? || |words| < 2 then None
    else Some(Draw(count.value, Trim(words[1])))
  }

  /** A heading word and a number: the space splits them. */
  lemma HeadingPieces(game: seq<char>, id: seq<char>)
    requires ' ' !in game && ' ' !in id
    ensures Split(game + " " + id, ' ') == [game, id]
  {
    assert game + " " + id == game + [' '] + id;
    SplitFirst(game, ' ', id);
    SplitNone(id, ' ');
  }

  /** `analyse_line`'s first steps, given what each split and trim gives. */
  lemma HeaderOf(line: seq<char>, heading: seq<char>, game: seq<char>, id: seq<char>, rounds: seq<char>, n: nat)
    requires Split(Trim(line), ':') == [heading, " " + rounds] && Trim(heading) == heading
    requires Split(heading, ' ') == [game, id] && ParseNat(id) == Some(n) && Trim(" " + rounds) == rounds
    ensures Header(line) == Some((n, rounds))
  {
    HeaderSplit(line, heading, " " + rounds);
    PieceOf(heading, ' ', [game, id], 1);
  }

  /** `Header` on a line whose two halves are known. */
  lemma HeaderSplit(line: seq<char>, first: seq<char>, second: seq<char>)
    requires Split(Trim(line), ':') == [first, second]
    ensures Header(line) ==
              var id := Piece(Trim(first), ' ', 1);
              if id.None? then None
              else
                var n := ParseNat(id.value);
                if n.None? then None else Some((n.value, Trim(second)))
  {
    var halves := Split(Trim(line), ':');
    assert halves[0] == first && halves[1] == second;
  }

  /** A line "game id: rounds" gives the id's value and the rounds, whatever
      the heading word. */
  lemma HeaderParts(game: seq<char>, id: seq<char>, rounds: seq<char>)
    requires Solid(game) && ' ' !in game && ':' !in game
    requires |id| > 0 && AllDigits(id)
    requires Solid(rounds) && ':' !in rounds
    ensures Header(game + " " + id + ": " + rounds) == Some((DigitsValue(id), rounds))
  {
    var heading := game + " " + id;
    assert IsDigit(id[|id| - 1]) && heading[|heading| - 1] == id[|id| - 1];
    assert ':' !in heading && ' ' !in id;
    ColonHalves(heading, rounds);
    TrimSolid(heading);
    HeadingPieces(game, id);
    ParseDigits(id);
    TrimLead(' ', rounds);
    TrimSolid(rounds);
    HeaderOf(heading + ": " + rounds, heading, game, id, rounds, DigitsValue(id));
  }

  /** `analyse_line`'s parse of one element, given what the splits and trims give. */
  lemma DrawOf(element: seq<char>, count: seq<char>, color: seq<char>, n: nat)
    requires Split(Trim(element), ' ') == [count, color] && Trim(count) == count && Trim(color) == color
    requires ParseNat(count) == Some(n)
    ensures ParseDraw(element) == Some(Draw(n, color))
  {
    var words := Split(Trim(element), ' ');
    assert |words| == 2 && words[0] == count && words[1] == color;
  }

  lemma LeadSpace(a: seq<char>, b: seq<char>)
    ensures " " + a + " " + b == [' '] + (a + " " + b)
  {
  }

  /** An element "count colour" gives that draw. */
  lemma DrawSolid(count: seq<char>, color: seq<char>)
    requires |count| > 0 && AllDigits(count)
    requires Solid(color) && ' ' !in color
    ensures ParseDraw(count + " " + color) == Some(Draw(DigitsValue(count), color))
  {
    var element := count + " " + color;
    assert IsDigit(count[0]) && IsDigit(count[|count| - 1]) && element[0] == count[0];
    assert ' ' !in count;
    TrimSolid(element);
    HeadingPieces(count, color);
    TrimSolid(count);
    TrimSolid(color);
    ParseDigits(count);
    DrawOf(element, count, color, DigitsValue(count));
  }

  /** `analyse_line` trims an element before it splits it. */
  lemma DrawTrimmed(element: seq<char>, other: seq<char>)
    requires Trim(element) == Trim(other)
    ensures ParseDraw(element) == ParseDraw(other)
  {
  }

  /** An element "count colour", with or without the space after the comma,
      gives that draw. */
  lemma DrawParts(count: seq<char>, color: seq<char>)
    requires |count| > 0 && AllDigits(count)
    requires Solid(color) && ' ' !in color
    ensures ParseDraw(count + " " + color) == Some(Draw(DigitsValue(count), color))
    ensures ParseDraw(" " + count + " " + color) == Some(Draw(DigitsValue(count), color))
  {
    var element := count + " " + color;
    DrawSolid(count, color);
    LeadSpace(count, color);
    TrimLead(' ', element);
    DrawTrimmed(" " + count + " " + color, element);
  }

  /** The elements of one round, split at ','. */
  function RoundElements(round: seq<char>): seq<seq<char>>
  {
    Split(Trim(round), ',')
  }

  /** The draws of one round, each None where its `unwrap`s panic. */
  function RoundDraws(round: seq<char>): (ds: seq<Option<Draw>>)
    ensures |ds| == |RoundElements(round)|
    ensures forall j :: 0 <= j < |ds| ==> ds[j] == ParseDraw(RoundElements(round)[j])
  {
    var elements := RoundElements(round);
    seq(|elements|, j requires 0 <= j < |elements| => ParseDraw(elements[j]))
  }

  /** The draws of every round, round by round. */
  function Groups(rounds: seq<seq<char>>): (gs: seq<seq<Option<Draw>>>)
    ensures |gs| == |rounds| && forall k :: 0 <= k < |rounds| ==> gs[k] == RoundDraws(rounds[k])
  {
    seq(|rounds|, k requires 0 <= k < |rounds| => RoundDraws(rounds[k]))
  }

  /** The groups one after the other, as the nested loops visit them. */
  function Flatten(groups: seq<seq<Option<Draw>>>): seq<Option<Draw>>
  {
    if groups == [] then [] else Flatten(groups[..|groups| - 1]) + groups[|groups| - 1]
  }

  /** The draws of all rounds in the order the nested loops visit them. */
  function Draws(rounds: seq<seq<char>>): seq<Option<Draw>>
  {
    Flatten(Groups(rounds))
  }

  lemma {:induction false} FlattenAppend(a: seq<seq<Option<Draw>>>, b: seq<seq<Option<Draw>>>)
    ensures Flatten(a + b) == Flatten(a) + Flatten(b)
    decreases |b|
  {
    if b == [] {
      assert a + b == a;
    } else {
      var n := |b|;
      assert (a + b)[..|a + b| - 1] == a + b[..n - 1];
      FlattenAppend(a, b[..n - 1]);
    }
  }

  // ---------------------------------------------------------------------------
  // The scan over the draws
  // ---------------------------------------------------------------------------

  /** The loop state of `analyse_line`: whether an `unwrap` panicked, the
      `possible` flag and the `minimal_bag`. */
  datatype Scan = Scan(panicked: bool, possible: bool, minimal: map<seq<char>, nat>)

  const Start := Scan(false, true, map[])

  /** The loops end on a panic or once `possible` is false. */
  predicate Stopped(s: Scan)
  {
    s.panicked || !s.possible
  }

  /** The largest count of `color` seen so far (`unwrap_or(&0)`). */
  function Seen(minimal: map<seq<char>, nat>, color: seq<char>): nat
  {
    if color in minimal then minimal[color] else 0
  }

  /** The minimal bag after a draw: its count replaces a smaller one. */
  function Raise(minimal: map<seq<char>, nat>, draw: Draw): map<seq<char>, nat>
  {
    if draw.count > Seen(minimal, draw.color) then minimal[draw.color := draw.count] else minimal
  }

  /** One element of the inner loop. */
  function Step(s: Scan, draw: Option<Draw>, bag: map<seq<char>, nat>, limit: bool): Scan
  {
    if Stopped(s) then s
    else
      if draw.None? then s.(panicked := true)
      else if limit then
        if draw.value.color !in bag then s.(panicked := true)
        else s.(possible := draw.value.count <= bag[draw.value.color])
      else s.(minimal := Raise(s.minimal, draw.value))
  }

  /** The state after the given elements. */
  function Run(elements: seq<Option<Draw>>, bag: map<seq<char>, nat>, limit: bool): Scan
  {
    if elements == [] then Start
    else Step(Run(elements[..|elements| - 1], bag, limit), elements[|elements| - 1], bag, limit)
  }

  /** Once stopped, the scan ignores what follows, malformed or not. */
  lemma {:induction false} RunStopped(a: seq<Option<Draw>>, b: seq<Option<Draw>>, bag: map<seq<char>, nat>, limit: bool)
    requires Stopped(Run(a, bag, limit))
    ensures Run(a + b, bag, limit) == Run(a, bag, limit)
    decreases |b|
  {
    if b == [] {
      assert a + b == a;
    } else {
      var n := |b|;
      assert (a + b)[..|a + b| - 1] == a + b[..n - 1];
      RunStopped(a, b[..n - 1], bag, limit);
    }
  }

  /** Where the scan stops inside group `i`, all groups end there. */
  lemma RunRest(groups: seq<seq<Option<Draw>>>, i: nat, j: nat, bag: map<seq<char>, nat>, limit: bool)
    requires i < |groups| && j < |groups[i]|
    requires Stopped(Run(Flatten(groups[..i]) + groups[i][..j + 1], bag, limit))
    ensures Run(Flatten(groups), bag, limit) == Run(Flatten(groups[..i]) + groups[i][..j + 1], bag, limit)
  {
    var elements := groups[i];
    var prefix := Flatten(groups[..i]) + elements[..j + 1];
    assert groups == groups[..i + 1] + groups[i + 1..];
    FlattenAppend(groups[..i + 1], groups[i + 1..]);
    assert groups[..i + 1][..i] == groups[..i];
    assert Flatten(groups[..i + 1]) == Flatten(groups[..i]) + elements;
    assert elements == elements[..j + 1] + elements[j + 1..];
    assert Flatten(groups) == prefix + (elements[j + 1..] + Flatten(groups[i + 1..]));
    RunStopped(prefix, elements[j + 1..] + Flatten(groups[i + 1..]), bag, limit);
  }

  // ---------------------------------------------------------------------------
  // What the scan computes
  // ---------------------------------------------------------------------------

  /** Every element is a draw whose colour the bag knows. */
  predicate WellFormed(elements: seq<Option<Draw>>, bag: map<seq<char>, nat>)
  {
    forall i :: 0 <= i < |elements| ==> elements[i].Some? && elements[i].value.color in bag
  }

  /** No draw exceeds the bag. */
  predicate WithinBag(elements: seq<Option<Draw>>, bag: map<seq<char>, nat>)
    requires WellFormed(elements, bag)
  {
    forall i :: 0 <= i < |elements| ==> elements[i].value.count <= bag[elements[i].value.color]
  }

  /** In limit mode, well-formed draws never panic, and the game stays possible
      exactly when no draw exceeds the bag. */
  lemma {:induction false} RunLimit(elements: seq<Option<Draw>>, bag: map<seq<char>, nat>)
    requires WellFormed(elements, bag)
    ensures !Run(elements, bag, true).panicked
    ensures Run(elements, bag, true).possible <==> WithinBag(elements, bag)
  {
    if elements != [] {
      var n := |elements|;
      var prefix := elements[..n - 1];
      assert forall i :: 0 <= i < n - 1 ==> prefix[i] == elements[i];
      RunLimit(prefix, bag);
      if !WithinBag(prefix, bag) {
        var i :| 0 <= i < n - 1 && prefix[i].value.count > bag[prefix[i].value.color];
        assert elements[i] == prefix[i];
      }
    }
  }

  /** The first draw over the limit decides the game: what follows is never
      looked at, even text that would make an `unwrap` panic. */
  lemma RunLimitStops(elements: seq<Option<Draw>>, bag: map<seq<char>, nat>, k: nat)
    requires k < |elements| && WellFormed(elements[..k + 1], bag)
    requires WithinBag(elements[..k], bag)
    requires elements[k].value.count > bag[elements[k].value.color]
    ensures Run(elements, bag, true).possible == false && !Run(elements, bag, true).panicked
  {
    var upto := elements[..k + 1];
    assert upto[..k] == elements[..k];
    assert forall i :: 0 <= i < k ==> elements[..k][i] == upto[i];
    assert WellFormed(elements[..k], bag);
    RunLimit(elements[..k], bag);
    assert elements == upto + elements[k + 1..];
    RunStopped(upto, elements[k + 1..], bag, true);
  }

  /** Every element is a draw. */
  predicate Parsed(elements: seq<Option<Draw>>)
  {
    forall i :: 0 <= i < |elements| ==> elements[i].Some?
  }

  /** The minimal bag: each colour drawn with a positive count maps to the
      largest count drawn of it, and nothing else is a key. */
  predicate MinimalFor(minimal: map<seq<char>, nat>, elements: seq<Option<Draw>>)
    requires Parsed(elements)
  {
    (forall i :: 0 <= i < |elements| ==> elements[i].value.count <= Seen(minimal, elements[i].value.color)) &&
    (forall c :: c in minimal ==>
       minimal[c] > 0 && exists i :: 0 <= i < |elements| && elements[i].value == Draw(minimal[c], c))
  }

  /** In power mode, parsed draws never panic or stop, and the scan ends with
      the minimal bag. */
  lemma {:induction false} RunPower(elements: seq<Option<Draw>>, bag: map<seq<char>, nat>)
    requires Parsed(elements)
    ensures !Stopped(Run(elements, bag, false))
    ensures MinimalFor(Run(elements, bag, false).minimal, elements)
  {
    if elements != [] {
      var n := |elements|;
      var prefix := elements[..n - 1];
      assert forall i :: 0 <= i < n - 1 ==> prefix[i] == elements[i];
      RunPower(prefix, bag);
      assert elements == prefix + [elements[n - 1]];
      RaiseCovers(Run(prefix, bag, false).minimal, prefix, elements[n - 1]);
      RaiseAttained(Run(prefix, bag, false).minimal, prefix, elements[n - 1]);
    }
  }

  /** After a draw, every count drawn so far is at most its colour's entry. */
  lemma RaiseCovers(minimal: map<seq<char>, nat>, prefix: seq<Option<Draw>>, x: Option<Draw>)
    requires Parsed(prefix) && x.Some? && MinimalFor(minimal, prefix)
    ensures var elements := prefix + [x];
            Parsed(elements) &&
            forall i :: 0 <= i < |elements| ==> elements[i].value.count <= Seen(Raise(minimal, x.value), elements[i].value.color)
  {
    var elements := prefix + [x];
    forall i | 0 <= i < |elements|
      ensures elements[i].Some? && elements[i].value.count <= Seen(Raise(minimal, x.value), elements[i].value.color)
    {
      if i < |prefix| {
        assert elements[i] == prefix[i];
      }
    }
  }

  /** After a draw, every entry is positive and is the count of some draw. */
  lemma RaiseAttained(minimal: map<seq<char>, nat>, prefix: seq<Option<Draw>>, x: Option<Draw>)
    requires Parsed(prefix) && x.Some? && MinimalFor(minimal, prefix)
    ensures var elements := prefix + [x];
            var after := Raise(minimal, x.value);
            forall c :: c in after ==>
              after[c] > 0 && exists i :: 0 <= i < |elements| && elements[i].value == Draw(after[c], c)
  {
    var elements := prefix + [x];
    var after := Raise(minimal, x.value);
    forall c | c in after
      ensures after[c] > 0 && exists i :: 0 <= i < |elements| && elements[i].value == Draw(after[c], c)
    {
      if c == x.value.color && x.value.count > Seen(minimal, c) {
        assert elements[|prefix|].value == Draw(after[c], c);
      } else {
        var i :| 0 <= i < |prefix| && prefix[i].value == Draw(minimal[c], c);
        assert elements[i].value == Draw(after[c], c);
      }
    }
  }

  // ---------------------------------------------------------------------------
  // The power of the minimal bag
  // ---------------------------------------------------------------------------

  /** The product of the map's counts, in no particular order. */
  ghost function MapProduct<K>(m: map<K, nat>): nat
    decreases |m|
  {
    if m == map[] then 1
    else
      var c :| c in m;
      assert |m - {c}| < |m| by { assert m.Keys == (m - {c}).Keys + {c}; }
      m[c] * MapProduct(m - {c})
  }

  /** The product can take the colours in any order, as the iteration over a
      `HashMap` does. */
  lemma {:induction false} MapProductRemove<K>(m: map<K, nat>, c: K)
    requires c in m
    ensures MapProduct(m) == m[c] * MapProduct(m - {c})
    decreases |m|
  {
    var d :| d in m && MapProduct(m) == m[d] * MapProduct(m - {d});
    if d != c {
      FewerKeys(m, d);
      MapProductRemove(m - {d}, c);
      FewerKeys(m - {c}, d);
      MapProductRemove(m - {c}, d);
      RemoveBoth(m, c, d);
      MulSwap(m[d], m[c], MapProduct(m - {c} - {d}));
    }
  }

  lemma FewerKeys<K>(m: map<K, nat>, d: K)
    requires d in m
    ensures |m - {d}| < |m|
  {
    assert m.Keys == (m - {d}).Keys + {d};
  }

  lemma RemoveBoth<K>(m: map<K, nat>, c: K, d: K)
    ensures m - {d} - {c} == m - {c} - {d}
  {
  }

  lemma MulSwap(a: nat, b: nat, x: nat)
    ensures a * (b * x) == b * (a * x)
  {
    calc {
      a * (b * x);
      (a * b) * x;
      (b * a) * x;
      b * (a * x);
    }
  }

  /** `power *= number` for one colour `c`: the running product times what is
      left still makes the whole. */
  method PowerStep<K>(power: nat, rest: map<K, nat>, c: K) returns (next: nat)
    requires c in rest
    ensures next * MapProduct(rest - {c}) == power * MapProduct(rest)
    ensures |rest - {c}| < |rest|
  {
    next := power * rest[c];
    MapProductRemove(rest, c);
    FewerKeys(rest, c);
    MulAssoc(power, rest[c], MapProduct(rest - {c}));
  }

  lemma MulAssoc(a: nat, b: nat, x: nat)
    ensures a * (b * x) == (a * b) * x
  {
  }

  /** A product of positive counts is positive. */
  lemma {:induction false} MapProductPositive<K>(m: map<K, nat>)
    requires forall c :: c in m ==> m[c] > 0
    ensures MapProduct(m) > 0
    decreases |m|
  {
    if m != map[] {
      var c :| c in m;
      assert m.Keys == (m - {c}).Keys + {c};
      MapProductRemove(m, c);
      MapProductPositive(m - {c});
    }
  }

  /** `for (_, number) in minimal_bag { power *= number }`. */
  method Power<K>(minimal: map<K, nat>) returns (power: nat)
    ensures power == MapProduct(minimal)
  {
    power := 1;
    var rest := minimal;
    while rest != map[]
      invariant power * MapProduct(rest) == MapProduct(minimal)
      decreases |rest|
    {
      var c :| c in rest;
      power := PowerStep(power, rest, c);
      rest := rest - {c};
    }
    ProductDone(power, rest, minimal);
  }

  /** The loop is over: the colours left multiply to 1. */
  lemma ProductDone<K>(power: nat, rest: map<K, nat>, minimal: map<K, nat>)
    requires rest == map[] && power * MapProduct(rest) == MapProduct(minimal)
    ensures power == MapProduct(minimal)
  {
  }

  // ---------------------------------------------------------------------------
  // analyse_line and calculate_lines
  // ---------------------------------------------------------------------------

  /** What the line returns once the loops are over. */
  ghost function Outcome(id: nat, s: Scan, limit: bool): Verdict
  {
    if s.panicked then Panicked
    else if limit then Returned(if s.possible then Some(id) else None)
    else Returned(Some(MapProduct(s.minimal)))
  }

  /** `analyse_line`, with `limit` choosing the mode. */
  ghost function LineVerdict(line: seq<char>, bag: map<seq<char>, nat>, limit: bool): Verdict
  {
    var header := Header(line);
    if header.None? then Panicked
    else Outcome(header.value.0, Run(Draws(Split(header.value.1, ';')), bag, limit), limit)
  }

  /** The scan one element further. */
  lemma RunSnoc(seen: seq<Option<Draw>>, draw: Option<Draw>, bag: map<seq<char>, nat>, limit: bool)
    ensures Run(seen + [draw], bag, limit) == Step(Run(seen, bag, limit), draw, bag, limit)
  {
    assert (seen + [draw])[..|seen|] == seen;
  }

  lemma FlattenNext(groups: seq<seq<Option<Draw>>>, i: nat)
    requires i < |groups|
    ensures Flatten(groups[..i + 1]) == Flatten(groups[..i]) + groups[i]
  {
    assert groups[..i + 1][..i] == groups[..i];
  }

  lemma SnocPrefix<X>(p: seq<X>, s: seq<X>, j: nat)
    requires j < |s|
    ensures p + s[..j] + [s[j]] == p + s[..j + 1]
  {
    assert s[..j] + [s[j]] == s[..j + 1];
  }

  /** The nested loops of `analyse_line` over the rounds and their draws, left
      as soon as an `unwrap` panics or the game is impossible. A draw's parse
      is consulted only when the loop reaches it, so text after the stop never
      panics. */
  method ScanGroups(groups: seq<seq<Option<Draw>>>, bag: map<seq<char>, nat>, limit: bool) returns (s: Scan)
    ensures s == Run(Flatten(groups), bag, limit)
  {
    var possible := true;
    var minimal: map<seq<char>, nat> := map[];
    ghost var seen: seq<Option<Draw>> := [];
    var i := 0;
    while i < |groups|
      invariant 0 <= i <= |groups| && possible
      invariant seen == Flatten(groups[..i])
      invariant Run(seen, bag, limit) == Scan(false, possible, minimal)
    {
      var draws := groups[i];
      FlattenNext(groups, i);
      var j := 0;
      while j < |draws|
        invariant 0 <= j <= |draws| && possible
        invariant seen == Flatten(groups[..i]) + draws[..j]
        invariant Run(seen, bag, limit) == Scan(false, possible, minimal)
      {
        var draw := draws[j];
        RunSnoc(seen, draw, bag, limit);
        SnocPrefix(Flatten(groups[..i]), draws, j);
        seen := seen + [draw];
        if draw.None? {
          RunRest(groups, i, j, bag, limit);
          return Scan(true, possible, minimal);
        }
        var count, color := draw.value.count, draw.value.color;
        if limit {
          if color !in bag {
            RunRest(groups, i, j, bag, limit);
            return Scan(true, possible, minimal);
          }
          possible := count <= bag[color];
        } else {
          if count > Seen(minimal, color) {
            minimal := minimal[color := count];
          }
        }
        if !possible {
          RunRest(groups, i, j, bag, limit);
          return Scan(false, possible, minimal);
        }
        j := j + 1;
      }
      assert draws[..j] == draws;
      i := i + 1;
    }
    assert groups[..i] == groups;
    return Scan(false, possible, minimal);
  }

  /** `analyse_line`: the header, the scan of the rounds, then the id or the
      power. */
  method AnalyseLine(line: seq<char>, bag: map<seq<char>, nat>, limit: bool) returns (v: Verdict)
    ensures v == LineVerdict(line, bag, limit)
  {
    var header := Header(line);
    if header.None? {
      return Panicked;
    }
    var id, text := header.value.0, header.value.1;
    var scan := ScanGroups(Groups(Split(text, ';')), bag, limit);
    if scan.panicked {
      return Panicked;
    }
    if limit {
      return Returned(if scan.possible then Some(id) else None);
    }
    var power := Power(scan.minimal);
    return Returned(Some(power));
  }

  /** The sum of the values returned, skipping the impossible games; None once
      a line has panicked. */
  function SumVerdicts(vs: seq<Verdict>): Option<nat>
  {
    if vs == [] then Some(0)
    else
      var before := SumVerdicts(vs[..|vs| - 1]);
      var v := vs[|vs| - 1];
      if before.None? || v.Panicked? then None
      else Some(before.value + (if v.result.Some? then v.result.value else 0))
  }

  /** Once a prefix has panicked, so has the whole. */
  lemma SumPrefixPanicked(vs: seq<Verdict>, n: nat)
    requires n <= |vs| && SumVerdicts(vs[..n]).None?
    ensures SumVerdicts(vs).None?
  {
    SumPanicked(vs[..n]);
    var k :| 0 <= k < n && vs[..n][k].Panicked?;
    assert vs[k].Panicked?;
    SumPanicked(vs);
  }

  /** The sum is None exactly when some line panicked. */
  lemma {:induction false} SumPanicked(vs: seq<Verdict>)
    ensures SumVerdicts(vs).None? <==> exists k :: 0 <= k < |vs| && vs[k].Panicked?
  {
    if vs != [] {
      var init := vs[..|vs| - 1];
      SumPanicked(init);
      assert forall k :: 0 <= k < |init| ==> init[k] == vs[k];
    }
  }

  lemma SumSnoc(vs: seq<Verdict>, v: Verdict)
    ensures SumVerdicts(vs + [v]) ==
              if SumVerdicts(vs).None? || v.Panicked? then None
              else Some(SumVerdicts(vs).value + (if v.result.Some? then v.result.value else 0))
  {
    assert (vs + [v])[..|vs|] == vs;
  }

  /** What `analyse_line` does on each line; limit mode is part 1. */
  ghost function Verdicts(lines: seq<seq<char>>, bag: map<seq<char>, nat>, part: int): (vs: seq<Verdict>)
    ensures |vs| == |lines|
  {
    seq(|lines|, k requires 0 <= k < |lines| => LineVerdict(lines[k], bag, part == 1))
  }

  /** `calculate_lines`: the sum of the values the lines return, skipping the
      impossible games; None when a line panics. */
  ghost function Total(lines: seq<seq<char>>, bag: map<seq<char>, nat>, part: int): Option<nat>
  {
    SumVerdicts(Verdicts(lines, bag, part))
  }

  /** The verdicts of a prefix of the lines are a prefix of the verdicts. */
  lemma VerdictsPrefix(lines: seq<seq<char>>, bag: map<seq<char>, nat>, part: int, n: nat)
    requires n <= |lines|
    ensures Verdicts(lines[..n], bag, part) == Verdicts(lines, bag, part)[..n]
  {
    var vs := Verdicts(lines, bag, part);
    var ps := Verdicts(lines[..n], bag, part);
    assert forall k :: 0 <= k < n ==> ps[k] == vs[k];
  }

  /** The verdict of the next line extends the verdicts so far. */
  lemma VerdictsSnoc(lines: seq<seq<char>>, bag: map<seq<char>, nat>, part: int, i: nat, v: Verdict)
    requires i < |lines| && v == LineVerdict(lines[i], bag, part == 1)
    ensures Verdicts(lines[..i + 1], bag, part) == Verdicts(lines[..i], bag, part) + [v]
  {
    var ps := Verdicts(lines[..i + 1], bag, part);
    VerdictsPrefix(lines[..i + 1], bag, part, i);
    PrefixPrefix(lines, i, i + 1);
    assert ps[i] == v;
    SnocLast(ps, i);
  }

  /** `analyse_line` on the next line, which extends the verdicts so far. */
  method AnalyseNext(lines: seq<seq<char>>, bag: map<seq<char>, nat>, part: int, i: nat) returns (v: Verdict)
    requires i < |lines|
    ensures Verdicts(lines[..i + 1], bag, part) == Verdicts(lines[..i], bag, part) + [v]
  {
    v := AnalyseLine(lines[i], bag, part == 1);
    VerdictsSnoc(lines, bag, part, i, v);
  }

  /** The body of `calculate_lines`' loop: the value of one more line added to
      the sum. */
  method Accumulate(ghost vs: seq<Verdict>, total: nat, v: Verdict) returns (next: Option<nat>)
    requires SumVerdicts(vs) == Some(total)
    ensures next == SumVerdicts(vs + [v])
  {
    SumSnoc(vs, v);
    if v.Panicked? {
      return None;
    }
    if v.result.Some? {
      return Some(total + v.result.value);
    }
    return Some(total);
  }

  /** `calculate_lines`: one `analyse_line` per line, in order. */
  method CalculateLines(lines: seq<seq<char>>, bag: map<seq<char>, nat>, part: int) returns (sum: Option<nat>)
    ensures sum == Total(lines, bag, part)
  {
    ghost var vs: seq<Verdict> := [];
    var total: nat := 0;
    for i := 0 to |lines|
      invariant vs == Verdicts(lines[..i], bag, part)
      invariant SumVerdicts(vs) == Some(total)
    {
      var v := AnalyseNext(lines, bag, part, i);
      var next := Accumulate(vs, total, v);
      vs := vs + [v];
      if next.None? {
        VerdictsPrefix(lines, bag, part, i + 1);
        SumPrefixPanicked(Verdicts(lines, bag, part), i + 1);
        return None;
      }
      total := next.value;
    }
    assert lines[..|lines|] == lines;
    return Some(total);
  }

  /** In limit mode a well-formed line returns its id exactly when no draw
      exceeds the bag, and None otherwise. */
  lemma LimitVerdict(line: seq<char>, bag: map<seq<char>, nat>)
    requires Header(line).Some?
    requires WellFormed(Draws(Split(Header(line).value.1, ';')), bag)
    ensures var elements := Draws(Split(Header(line).value.1, ';'));
            LineVerdict(line, bag, true) ==
              Returned(if WithinBag(elements, bag) then Some(Header(line).value.0) else None)
  {
    RunLimit(Draws(Split(Header(line).value.1, ';')), bag);
  }

  /** In power mode a line whose elements are all draws returns the product of
      its minimal bag, which is positive. */
  lemma PowerVerdict(line: seq<char>, bag: map<seq<char>, nat>)
    requires Header(line).Some?
    requires Parsed(Draws(Split(Header(line).value.1, ';')))
    ensures var elements := Draws(Split(Header(line).value.1, ';'));
            var minimal := Run(elements, bag, false).minimal;
            MinimalFor(minimal, elements) && LineVerdict(line, bag, false) == Returned(Some(MapProduct(minimal))) &&
            MapProduct(minimal) > 0
  {
    var elements := Draws(Split(Header(line).value.1, ';'));
    RunPower(elements, bag);
    MapProductPositive(Run(elements, bag, false).minimal);
  }

  /** The first example game's minimal bag: 4 red, 2 green and 6 blue, power 48. */
  lemma ExamplePower()
    ensures MapProduct(map["red" := 4, "green" := 2, "blue" := 6]) == 48
  {
    var m := map["red" := 4, "green" := 2, "blue" := 6];
    MapProductRemove(m, "red");
    var m1 := m - {"red"};
    assert m1 == map["green" := 2, "blue" := 6];
    MapProductRemove(m1, "green");
    var m2 := m1 - {"green"};
    assert m2 == map["blue" := 6];
    MapProductRemove(m2, "blue");
    assert m2 - {"blue"} == map[];
  }
}
