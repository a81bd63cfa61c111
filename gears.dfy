/** Day 3: gear ratios. A number of the engine schematic counts when a symbol
    touches it, in its own row or a neighbouring one; a '*' touched by exactly
    two numbers is a gear, worth their product. */
module GearRatios {
  import opened Text

  /** A maximal run of digits in a row: its first and last column and its value. */
  datatype NumberGroup = NumberGroup(start: nat, end: nat, number: nat)

  /** A symbol of a row, with the numbers pushed onto it when it is a '*'. */
  datatype Symbol = Symbol(column: nat, character: char, gears: seq<nat>)

  // ---------------------------------------------------------------------------
  // number_groups

  /** The group `check_end_of_number` pushes: the run open at `start`, closed
      just before `index`; nothing when no run is open. */
  function Close(line: seq<char>, start: Option<nat>, index: nat): seq<NumberGroup>
    requires index <= |line|
    requires start.Some? ==> start.value < index && AllDigits(line[start.value..index])
  {
    if start.None? then [] else [NumberGroup(start.value, index - 1, DigitsValue(line[start.value..index]))]
  }

  /** The state of `number_groups`' loop before column `index`: an open run
      holds digits only, up to `index`, and is not preceded by a digit; with no
      run open, the previous character is not a digit. */
  predicate OpenRun(line: seq<char>, index: nat, start: Option<nat>)
  {
    index <= |line| &&
    if start.None? then index == 0 || !IsDigit(line[index - 1])
    else
      start.value < index && AllDigits(line[start.value..index]) &&
      (start.value == 0 || !IsDigit(line[start.value - 1]))
  }

  /** A digit opens a run or extends the open one. */
  lemma Extend(line: seq<char>, index: nat, start: Option<nat>)
    requires OpenRun(line, index, start) && index < |line| && IsDigit(line[index])
    ensures OpenRun(line, index + 1, if start.None? then Some(index) else start)
  {
    if start.Some? {
      assert line[start.value..index + 1] == line[start.value..index] + [line[index]];
    }
  }

  /** The groups `number_groups` pushes from column `index` on, with the run
      `start` open. */
  function GroupsFrom(line: seq<char>, index: nat, start: Option<nat>): seq<NumberGroup>
    requires OpenRun(line, index, start)
    decreases |line| - index
  {
    if index == |line| then Close(line, start, index)
    else if IsDigit(line[index]) then
      Extend(line, index, start);
      GroupsFrom(line, index + 1, if start.None? then Some(index) else start)
    else Close(line, start, index) + GroupsFrom(line, index + 1, None)
  }

  /** `number_groups`: the digit runs of a row. */
  function Runs(line: seq<char>): seq<NumberGroup>
  {
    GroupsFrom(line, 0, None)
  }

  /** `g` is a maximal run of digits of `line`, with its decimal value. */
  predicate IsRun(line: seq<char>, g: NumberGroup)
  {
    g.start <= g.end < |line| && AllDigits(line[g.start..g.end + 1]) &&
    (g.start == 0 || !IsDigit(line[g.start - 1])) &&
    (g.end + 1 == |line| || !IsDigit(line[g.end + 1])) &&
    g.number == DigitsValue(line[g.start..g.end + 1])
  }

  /** Every group of `gs` is a maximal run starting at `from` or later. */
  predicate AllRuns(line: seq<char>, gs: seq<NumberGroup>, from: nat)
  {
    forall j :: 0 <= j < |gs| ==> IsRun(line, gs[j]) && from <= gs[j].start
  }

  /** The groups come left to right, with a gap between neighbours. */
  predicate Ordered(gs: seq<NumberGroup>)
  {
    forall j :: 0 <= j < |gs| - 1 ==> gs[j].end + 1 < gs[j + 1].start
  }

  /** Every digit from column `from` on lies in a group. */
  predicate Covers(line: seq<char>, gs: seq<NumberGroup>, from: nat)
  {
    forall k :: from <= k < |line| && IsDigit(line[k]) ==>
      exists j :: 0 <= j < |gs| && gs[j].start <= k <= gs[j].end
  }

  /** `gs` lists, left to right, every maximal digit run of `line` from column
      `from` on. */
  predicate RunsFrom(line: seq<char>, gs: seq<NumberGroup>, from: nat)
  {
    AllRuns(line, gs, from) && Ordered(gs) && Covers(line, gs, from)
  }

  /** The run closed at a non-digit, or at the end of the row, is maximal. */
  lemma CloseIsRun(line: seq<char>, index: nat, start: Option<nat>)
    requires OpenRun(line, index, start) && start.Some?
    requires index == |line| || !IsDigit(line[index])
    ensures IsRun(line, Close(line, start, index)[0])
  {
  }

  /** The groups lie in columns `from` to `n - 1`. */
  predicate Within(gs: seq<NumberGroup>, from: nat, n: nat)
  {
    forall j :: 0 <= j < |gs| ==> from <= gs[j].start <= gs[j].end < n
  }

  /** Where the groups pushed from `index` on lie. */
  lemma {:induction false} GroupsFromBounds(line: seq<char>, index: nat, start: Option<nat>)
    requires OpenRun(line, index, start)
    ensures Within(GroupsFrom(line, index, start), if start.Some? then start.value else index, |line|)
    decreases |line| - index
  {
    if index < |line| {
      if IsDigit(line[index]) {
        Extend(line, index, start);
        var next := if start.None? then Some(index) else start;
        GroupsFromBounds(line, index + 1, next);
        assert GroupsFrom(line, index, start) == GroupsFrom(line, index + 1, next);
      } else {
        GroupsFromBounds(line, index + 1, None);
        var from := if start.Some? then start.value else index;
        var head := Close(line, start, index);
        assert Within(head, from, |line|);
        WithinConcat(head, GroupsFrom(line, index + 1, None), from, index + 1, |line|);
      }
    }
  }

  /** Groups within two stretches, the second to the right of the first, lie
      within their union. */
  lemma WithinConcat(head: seq<NumberGroup>, rest: seq<NumberGroup>, from: nat, mid: nat, n: nat)
    requires Within(head, from, n) && Within(rest, mid, n) && from <= mid
    ensures Within(head + rest, from, n)
  {
    var gs := head + rest;
    forall j | 0 <= j < |gs|
      ensures from <= gs[j].start <= gs[j].end < n
    {
      if j >= |head| {
        assert gs[j] == rest[j - |head|];
      }
    }
  }

  lemma {:induction false} GroupsFromAllRuns(line: seq<char>, index: nat, start: Option<nat>)
    requires OpenRun(line, index, start)
    ensures AllRuns(line, GroupsFrom(line, index, start), if start.Some? then start.value else index)
    decreases |line| - index
  {
    if index == |line| {
      if start.Some? {
        CloseIsRun(line, index, start);
      }
    } else if IsDigit(line[index]) {
      Extend(line, index, start);
      GroupsFromAllRuns(line, index + 1, if start.None? then Some(index) else start);
    } else {
      GroupsFromAllRuns(line, index + 1, None);
      var head := Close(line, start, index);
      var rest := GroupsFrom(line, index + 1, None);
      if start.Some? {
        CloseIsRun(line, index, start);
      }
      var gs := head + rest;
      forall j | 0 <= j < |gs|
        ensures IsRun(line, gs[j]) && (if start.Some? then start.value else index) <= gs[j].start
      {
        if j >= |head| {
          assert gs[j] == rest[j - |head|];
        }
      }
    }
  }

  lemma {:induction false} GroupsFromOrdered(line: seq<char>, index: nat, start: Option<nat>)
    requires OpenRun(line, index, start)
    ensures Ordered(GroupsFrom(line, index, start))
    decreases |line| - index
  {
    if index < |line| {
      if IsDigit(line[index]) {
        Extend(line, index, start);
        GroupsFromOrdered(line, index + 1, if start.None? then Some(index) else start);
      } else {
        GroupsFromOrdered(line, index + 1, None);
        GroupsFromBounds(line, index + 1, None);
        var head := Close(line, start, index);
        var rest := GroupsFrom(line, index + 1, None);
        var gs := head + rest;
        forall j | 0 <= j < |gs| - 1
          ensures gs[j].end + 1 < gs[j + 1].start
        {
          if j >= |head| {
            assert gs[j] == rest[j - |head|] && gs[j + 1] == rest[j + 1 - |head|];
          } else {
            assert gs[j] == head[0] && gs[j + 1] == rest[0];
          }
        }
      }
    }
  }

  lemma {:induction false} GroupsFromCovers(line: seq<char>, index: nat, start: Option<nat>)
    requires OpenRun(line, index, start)
    ensures Covers(line, GroupsFrom(line, index, start), if start.Some? then start.value else index)
    decreases |line| - index
  {
    var from := if start.Some? then start.value else index;
    var gs := GroupsFrom(line, index, start);
    if index == |line| {
      if start.Some? {
        forall k | from <= k < |line| && IsDigit(line[k])
          ensures exists j :: 0 <= j < |gs| && gs[j].start <= k <= gs[j].end
        {
          assert gs[0].start <= k <= gs[0].end;
        }
      }
    } else if IsDigit(line[index]) {
      Extend(line, index, start);
      GroupsFromCovers(line, index + 1, if start.None? then Some(index) else start);
    } else {
      GroupsFromCovers(line, index + 1, None);
      var head := Close(line, start, index);
      var rest := GroupsFrom(line, index + 1, None);
      assert gs == head + rest;
      forall k | from <= k < |line| && IsDigit(line[k])
        ensures exists j :: 0 <= j < |gs| && gs[j].start <= k <= gs[j].end
      {
        if k < index {
          assert gs[0].start <= k <= gs[0].end;
        } else if k > index {
          var j :| 0 <= j < |rest| && rest[j].start <= k <= rest[j].end;
          assert gs[j + |head|] == rest[j];
        }
      }
    }
  }

  /** `number_groups` returns exactly the maximal digit runs, left to right. */
  lemma RunsAreMaximal(line: seq<char>)
    ensures RunsFrom(line, Runs(line), 0)
  {
    GroupsFromAllRuns(line, 0, None);
    GroupsFromOrdered(line, 0, None);
    GroupsFromCovers(line, 0, None);
  }
  /** A row has numbers exactly when it has a digit. */
  lemma RunsIffDigit(line: seq<char>)
    ensures Runs(line) != [] <==> exists k :: 0 <= k < |line| && IsDigit(line[k])
  {
    RunsAreMaximal(line);
    var gs := Runs(line);
    if gs != [] {
      assert IsRun(line, gs[0]);
      assert line[gs[0].start..gs[0].end + 1][0] == line[gs[0].start];
    }
  }

  /** The number group test with two groups: "11.22" has 11 in columns 0..1
      and 22 in columns 3..4. */
  lemma RunsExample()
    ensures Runs("11.22") == [NumberGroup(0, 1, 11), NumberGroup(3, 4, 22)]
  {
    var line := "11.22";
    assert line[3..5] == ['2', '2'] && line[0..2] == ['1', '1'];
    ParseTwoDigits('2', '2');
    ParseTwoDigits('1', '1');
    assert GroupsFrom(line, 5, Some(3)) == [NumberGroup(3, 4, 22)];
    assert GroupsFrom(line, 3, None) == [NumberGroup(3, 4, 22)];
    assert GroupsFrom(line, 2, Some(0)) == [NumberGroup(0, 1, 11), NumberGroup(3, 4, 22)];
  }

  /** The single-group tests: a run at the start, inside, and at the end of the row. */
  lemma RunsStartExample()
    ensures Runs("123......") == [NumberGroup(0, 2, 123)]
  {
    var line := "123......";
    assert line[0..3] == ['1', '2'] + ['3'];
    DigitsSnoc(['1', '2'], '3');
    ParseTwoDigits('1', '2');
    assert GroupsFrom(line, 4, None) == [];
    assert GroupsFrom(line, 3, Some(0)) == [NumberGroup(0, 2, 123)];
  }

  lemma RunsInnerExample()
    ensures Runs("....321..") == [NumberGroup(4, 6, 321)]
  {
    var line := "....321..";
    assert line[4..7] == ['3', '2'] + ['1'];
    DigitsSnoc(['3', '2'], '1');
    ParseTwoDigits('3', '2');
    assert GroupsFrom(line, 8, None) == [];
    assert GroupsFrom(line, 7, Some(4)) == [NumberGroup(4, 6, 321)];
    assert GroupsFrom(line, 4, None) == [NumberGroup(4, 6, 321)];
  }

  lemma RunsEndExample()
    ensures Runs("......99") == [NumberGroup(6, 7, 99)]
  {
    var line := "......99";
    assert line[6..8] == ['9', '9'];
    ParseTwoDigits('9', '9');
    assert GroupsFrom(line, 8, Some(6)) == [NumberGroup(6, 7, 99)];
    assert GroupsFrom(line, 6, None) == [NumberGroup(6, 7, 99)];
  }

  /** `check_end_of_number`: closes the open run at `index`, if there is one,
      and leaves no run open. */
  method CheckEndOfNumber(start: Option<nat>, index: nat, line: seq<char>, groups: seq<NumberGroup>)
    returns (next: Option<nat>, pushed: seq<NumberGroup>)
    requires index <= |line|
    requires start.Some? ==> start.value < index && AllDigits(line[start.value..index])
    ensures next.None?
    ensures start.None? ==> pushed == groups
    ensures start.Some? ==>
              pushed == groups + [NumberGroup(start.value, index - 1, DigitsValue(line[start.value..index]))]
  {
    if start.Some? {
      pushed := groups + [NumberGroup(start.value, index - 1, DigitsValue(line[start.value..index]))];
      return None, pushed;
    }
    return start, groups;
  }

  /** A digit keeps every group still to come. */
  lemma DigitStep(line: seq<char>, index: nat, start: Option<nat>, groups: seq<NumberGroup>)
    requires OpenRun(line, index, start) && index < |line| && IsDigit(line[index])
    requires groups + GroupsFrom(line, index, start) == Runs(line)
    ensures OpenRun(line, index + 1, if start.None? then Some(index) else start)
    ensures groups + GroupsFrom(line, index + 1, if start.None? then Some(index) else start) == Runs(line)
  {
    Extend(line, index, start);
  }

  /** Any other character closes the open run, which joins the groups found. */
  lemma EndStep(line: seq<char>, index: nat, start: Option<nat>, groups: seq<NumberGroup>)
    requires OpenRun(line, index, start) && index < |line| && !IsDigit(line[index])
    requires groups + GroupsFrom(line, index, start) == Runs(line)
    ensures OpenRun(line, index + 1, None)
    ensures (groups + Close(line, start, index)) + GroupsFrom(line, index + 1, None) == Runs(line)
  {
    var rest := GroupsFrom(line, index + 1, None);
    assert GroupsFrom(line, index, start) == Close(line, start, index) + rest;
    assert groups + (Close(line, start, index) + rest) == (groups + Close(line, start, index)) + rest;
  }

  /** `number_groups`: one pass over the row with the open run in `start`. */
  method NumberGroups(line: seq<char>) returns (groups: seq<NumberGroup>)
    ensures groups == Runs(line)
  {
    groups := [];
    var start: Option<nat> := None;
    for index := 0 to |line|
      invariant OpenRun(line, index, start)
      invariant groups + GroupsFrom(line, index, start) == Runs(line)
    {
      if IsDigit(line[index]) {
        DigitStep(line, index, start, groups);
        if start.None? {
          start := Some(index);
        }
      } else {
        EndStep(line, index, start, groups);
        start, groups := CheckEndOfNumber(start, index, line, groups);
      }
    }
    var _, closed := CheckEndOfNumber(start, |line|, line, groups);
    groups := closed;
  }

  // ---------------------------------------------------------------------------
  // symbol_locations

  /** Anything but a digit or '.' is a symbol. */
  predicate IsSymbol(c: char)
  {
    !IsDigit(c) && c != '.'
  }

  /** `symbol_locations`: the symbols of a row, left to right, with no gears. */
  function SymbolsOf(line: seq<char>): (syms: seq<Symbol>)
    ensures forall j :: 0 <= j < |syms| ==>
              syms[j].column < |line| && syms[j].character == line[syms[j].column] &&
              IsSymbol(syms[j].character) && syms[j].gears == []
    ensures forall j :: 0 <= j < |syms| - 1 ==> syms[j].column < syms[j + 1].column
  {
    if line == [] then []
    else
      var init := SymbolsOf(line[..|line| - 1]);
      var c := line[|line| - 1];
      if IsSymbol(c) then init + [Symbol(|line| - 1, c, [])] else init
  }

  /** Every symbol of the row is listed. */
  lemma {:induction false} SymbolsComplete(line: seq<char>, k: nat)
    requires k < |line| && IsSymbol(line[k])
    ensures exists j :: 0 <= j < |SymbolsOf(line)| && SymbolsOf(line)[j].column == k
    decreases |line|
  {
    var init := line[..|line| - 1];
    var syms := SymbolsOf(line);
    if k == |line| - 1 {
      assert syms[|syms| - 1].column == k;
    } else {
      SymbolsComplete(init, k);
      var j :| 0 <= j < |SymbolsOf(init)| && SymbolsOf(init)[j].column == k;
      assert syms[j] == SymbolsOf(init)[j];
    }
  }

  /** `symbol_locations`: one pass over the row. */
  method SymbolLocations(line: seq<char>) returns (syms: seq<Symbol>)
    ensures syms == SymbolsOf(line)
  {
    syms := [];
    for index := 0 to |line|
      invariant syms == SymbolsOf(line[..index])
    {
      assert line[..index + 1][..index] == line[..index];
      if IsSymbol(line[index]) {
        syms := syms + [Symbol(index, line[index], [])];
      }
    }
    assert line[..|line|] == line;
  }

  /** The symbol location test: the first symbol of "...*......" is in column 3. */
  lemma SymbolColumnExample()
    ensures |SymbolsOf("...*......")| > 0 && SymbolsOf("...*......")[0].column == 3
  {
    var line := "...*......";
    var syms := SymbolsOf(line);
    SymbolsComplete(line, 3);
    assert forall j :: 0 <= j < |syms| ==> syms[j].column == 3;
  }

  // ---------------------------------------------------------------------------
  // has_symbol_in_range

  /** The columns `has_symbol_in_range` accepts: one either side of the group,
      clipped at column 0. */
  predicate Touches(g: NumberGroup, column: nat)
  {
    (if g.start == 0 then 0 else g.start - 1) <= column <= g.end + 1
  }

  /** The first symbol from index `from` on that touches the group. */
  function FirstTouching(g: NumberGroup, syms: seq<Symbol>, from: nat): (r: Option<nat>)
    ensures r.None? <==> forall j :: from <= j < |syms| ==> !Touches(g, syms[j].column)
    ensures r.Some? ==>
              from <= r.value < |syms| && Touches(g, syms[r.value].column) &&
              forall j :: from <= j < r.value ==> !Touches(g, syms[j].column)
    decreases |syms| - from
  {
    if from >= |syms| then None
    else if Touches(g, syms[from].column) then Some(from)
    else FirstTouching(g, syms, from + 1)
  }

  /** `has_symbol_in_range`'s answer. */
  predicate Found(g: NumberGroup, syms: seq<Symbol>)
  {
    FirstTouching(g, syms, 0).Some?
  }

  /** The symbols after `has_symbol_in_range`: the first touching symbol, when it
      is a '*', has the group's number pushed onto its gears; nothing else
      changes. */
  function Mark(g: NumberGroup, syms: seq<Symbol>): (marked: seq<Symbol>)
    ensures |marked| == |syms|
    ensures forall j :: 0 <= j < |syms| ==>
              marked[j].column == syms[j].column && marked[j].character == syms[j].character
    ensures forall j :: 0 <= j < |syms| && FirstTouching(g, syms, 0) == Some(j) && syms[j].character == '*' ==>
              marked[j].gears == syms[j].gears + [g.number]
    ensures forall j :: 0 <= j < |syms| && marked[j] != syms[j] ==>
              FirstTouching(g, syms, 0) == Some(j) && syms[j].character == '*'
  {
    var hit := FirstTouching(g, syms, 0);
    if hit.Some? && syms[hit.value].character == '*' then
      syms[hit.value := syms[hit.value].(gears := syms[hit.value].gears + [g.number])]
    else syms
  }

  /** `has_symbol_in_range`: scans the row's symbols in order and stops at the
      first one in range, pushing the number when it is a '*'. */
  method HasSymbolInRange(g: NumberGroup, symbols: array<Symbol>) returns (found: bool)
    modifies symbols
    ensures found == Found(g, old(symbols[..]))
    ensures symbols[..] == Mark(g, old(symbols[..]))
  {
    var start := if g.start == 0 then 0 else g.start - 1;
    var end := g.end + 1;
    for j := 0 to symbols.Length
      invariant symbols[..] == old(symbols[..])
      invariant FirstTouching(g, symbols[..], 0) == FirstTouching(g, symbols[..], j)
    {
      if start <= symbols[j].column <= end {
        if symbols[j].character == '*' {
          symbols[j] := symbols[j].(gears := symbols[j].gears + [g.number]);
        }
        return true;
      }
    }
    return false;
  }

  /** The range test: a group in columns 0..2 is touched by a symbol in columns
      0 to 3 but not 5; one in columns 5..7 by columns 4 to 8, not 3 or 9. */
  lemma TouchesExamples()
    ensures forall c :: 0 <= c <= 3 ==> Found(NumberGroup(0, 2, 123), [Symbol(c, '+', [])])
    ensures !Found(NumberGroup(0, 2, 123), [Symbol(5, '+', [])])
    ensures forall c :: 4 <= c <= 8 ==> Found(NumberGroup(5, 7, 123), [Symbol(c, '+', [])])
    ensures !Found(NumberGroup(5, 7, 123), [Symbol(3, '+', [])])
    ensures !Found(NumberGroup(5, 7, 123), [Symbol(9, '+', [])])
  {
  }

  /** Only the columns of the symbols matter to the search. */
  lemma {:induction false} FirstTouchingColumns(g: NumberGroup, a: seq<Symbol>, b: seq<Symbol>, from: nat)
    requires |a| == |b| && forall j :: 0 <= j < |a| ==> a[j].column == b[j].column
    ensures FirstTouching(g, a, from) == FirstTouching(g, b, from)
    decreases |a| - from
  {
    if from < |a| {
      FirstTouchingColumns(g, a, b, from + 1);
    }
  }

  // ---------------------------------------------------------------------------
  // analyze

  /** A group of row `row`, as `analyze` visits it. */
  datatype Visit = Visit(row: nat, group: NumberGroup)

  /** The rows whose symbols `analyze` checks for a group of row `r`. */
  predicate Near(r: nat, row: nat, count: nat)
  {
    row < count && (row + 1 == r || row == r || row == r + 1)
  }

  /** Whether any of the `has_symbol_in_range` calls for a visit succeeds. */
  predicate Hit(table: seq<seq<Symbol>>, v: Visit)
    requires v.row < |table|
  {
    (v.row > 0 && Found(v.group, table[v.row - 1])) ||
    Found(v.group, table[v.row]) ||
    (v.row < |table| - 1 && Found(v.group, table[v.row + 1]))
  }

  /** A visit hits exactly when a symbol of a neighbouring row (or its own)
      lies in the group's range. */
  lemma HitIff(table: seq<seq<Symbol>>, v: Visit)
    requires v.row < |table|
    ensures Hit(table, v) <==>
              exists r: nat, j: nat :: Near(v.row, r, |table|) && 0 <= j < |table[r]| && Touches(v.group, table[r][j].column)
  {
    if Hit(table, v) {
      var r := if v.row > 0 && Found(v.group, table[v.row - 1]) then v.row - 1
               else if Found(v.group, table[v.row]) then v.row else v.row + 1;
      var j := FirstTouching(v.group, table[r], 0).value;
      assert Near(v.row, r, |table|) && Touches(v.group, table[r][j].column);
    } else {
      forall r: nat, j: nat | Near(v.row, r, |table|) && j < |table[r]|
        ensures !Touches(v.group, table[r][j].column)
      {
      }
    }
  }

  /** One row with `has_symbol_in_range` applied. */
  function MarkRow(table: seq<seq<Symbol>>, r: nat, g: NumberGroup): seq<seq<Symbol>>
    requires r < |table|
  {
    table[r := Mark(g, table[r])]
  }

  /** Two tables with the same symbols in the same places, gears aside. */
  predicate SameLayout(a: seq<seq<Symbol>>, b: seq<seq<Symbol>>)
  {
    |a| == |b| &&
    (forall r :: 0 <= r < |a| ==> |a[r]| == |b[r]|) &&
    forall r, j :: 0 <= r < |a| && 0 <= j < |a[r]| && j < |b[r]| ==>
      a[r][j].column == b[r][j].column && a[r][j].character == b[r][j].character
  }

  lemma MarkRowLayout(table: seq<seq<Symbol>>, r: nat, g: NumberGroup)
    requires r < |table|
    ensures SameLayout(MarkRow(table, r, g), table)
  {
    var t: seq<seq<Symbol>> := MarkRow(table, r, g);
    forall k: nat, j: nat | k < |t| && j < |t[k]| && j < |table[k]|
      ensures t[k][j].column == table[k][j].column && t[k][j].character == table[k][j].character
    {
      if k != r {
        assert t[k] == table[k];
      }
    }
  }

  lemma SameLayoutTrans(a: seq<seq<Symbol>>, b: seq<seq<Symbol>>, c: seq<seq<Symbol>>)
    requires SameLayout(a, b) && SameLayout(b, c)
    ensures SameLayout(a, c)
  {
  }

  /** The symbol table after one visit: the group's row and its neighbours,
      in that order. */
  function Touch(table: seq<seq<Symbol>>, v: Visit): seq<seq<Symbol>>
    requires v.row < |table|
  {
    var r := v.row;
    var above := if r > 0 then MarkRow(table, r - 1, v.group) else table;
    var here := MarkRow(above, r, v.group);
    if r < |table| - 1 then MarkRow(here, r + 1, v.group) else here
  }

  /** A visit only pushes gears. */
  lemma TouchLayout(table: seq<seq<Symbol>>, v: Visit)
    requires v.row < |table|
    ensures SameLayout(Touch(table, v), table)
  {
    var r := v.row;
    var above := if r > 0 then MarkRow(table, r - 1, v.group) else table;
    if r > 0 {
      MarkRowLayout(table, r - 1, v.group);
    }
    var here := MarkRow(above, r, v.group);
    MarkRowLayout(above, r, v.group);
    SameLayoutTrans(here, above, table);
    if r < |table| - 1 {
      MarkRowLayout(here, r + 1, v.group);
      SameLayoutTrans(MarkRow(here, r + 1, v.group), here, table);
    }
  }

  /** The visits of `analyze`'s first loop, row by row, left to right. */
  function RowVisits(row: nat, gs: seq<NumberGroup>): (vs: seq<Visit>)
    ensures |vs| == |gs| && forall k :: 0 <= k < |gs| ==> vs[k] == Visit(row, gs[k])
  {
    seq(|gs|, k requires 0 <= k < |gs| => Visit(row, gs[k]))
  }

  function VisitsOf(lines: seq<seq<char>>): (vs: seq<Visit>)
    ensures forall k :: 0 <= k < |vs| ==> vs[k].row < |lines|
  {
    if lines == [] then []
    else VisitsOf(lines[..|lines| - 1]) + RowVisits(|lines| - 1, Runs(lines[|lines| - 1]))
  }

  predicate InTable(table: seq<seq<Symbol>>, visits: seq<Visit>)
  {
    forall k :: 0 <= k < |visits| ==> visits[k].row < |table|
  }

  /** The symbol table after the visits. */
  function Marked(table: seq<seq<Symbol>>, visits: seq<Visit>): (t: seq<seq<Symbol>>)
    requires InTable(table, visits)
    ensures SameLayout(t, table)
  {
    if visits == [] then table
    else
      var before := Marked(table, visits[..|visits| - 1]);
      var v := visits[|visits| - 1];
      TouchLayout(before, v);
      SameLayoutTrans(Touch(before, v), before, table);
      Touch(before, v)
  }

  /** The part 1 sum: the numbers of the visits that hit a symbol. */
  function AdjacentSum(table: seq<seq<Symbol>>, visits: seq<Visit>): nat
    requires InTable(table, visits)
  {
    if visits == [] then 0
    else
      var v := visits[|visits| - 1];
      AdjacentSum(table, visits[..|visits| - 1]) + (if Hit(table, v) then v.group.number else 0)
  }

  /** The part 2 sum over one row: the products of the '*'s with two gears. */
  function RowGears(syms: seq<Symbol>): nat
  {
    if syms == [] then 0
    else
      var s := syms[|syms| - 1];
      RowGears(syms[..|syms| - 1]) + (if s.character == '*' && |s.gears| == 2 then s.gears[0] * s.gears[1] else 0)
  }

  function TableGears(table: seq<seq<Symbol>>): nat
  {
    if table == [] then 0 else TableGears(table[..|table| - 1]) + RowGears(table[|table| - 1])
  }

  /** The symbols of every row, before any gear is pushed. */
  function SymbolTable(lines: seq<seq<char>>): (t: seq<seq<Symbol>>)
    ensures |t| == |lines| && forall i :: 0 <= i < |lines| ==> t[i] == SymbolsOf(lines[i])
  {
    seq(|lines|, i requires 0 <= i < |lines| => SymbolsOf(lines[i]))
  }

  /** `analyze`'s result: part 1 sums the numbers touching a symbol, part 2 the
      gear ratios; any other part gives 0. */
  function Answer(lines: seq<seq<char>>, part: int): nat
  {
    Score(SymbolTable(lines), VisitsOf(lines), part)
  }

  function Score(table: seq<seq<Symbol>>, visits: seq<Visit>, part: int): nat
    requires InTable(table, visits)
  {
    (if part == 1 then AdjacentSum(table, visits) else 0) +
    (if part == 2 then TableGears(Marked(table, visits)) else 0)
  }

  /** Whether a table of the same layout is searched makes no difference. */
  lemma HitLayout(a: seq<seq<Symbol>>, b: seq<seq<Symbol>>, v: Visit)
    requires SameLayout(a, b) && v.row < |a|
    ensures Hit(a, v) == Hit(b, v)
  {
    if v.row > 0 {
      FirstTouchingColumns(v.group, a[v.row - 1], b[v.row - 1], 0);
    }
    FirstTouchingColumns(v.group, a[v.row], b[v.row], 0);
    if v.row < |a| - 1 {
      FirstTouchingColumns(v.group, a[v.row + 1], b[v.row + 1], 0);
    }
  }

  /** The numbers a '*' collects: those of the visits whose group it is the
      first touching symbol of, in a row near the group's. */
  function Collected(table: seq<seq<Symbol>>, visits: seq<Visit>, r: nat, j: nat): seq<nat>
    requires r < |table| && j < |table[r]|
  {
    if visits == [] then []
    else
      var v := visits[|visits| - 1];
      Collected(table, visits[..|visits| - 1], r, j) +
      (if Near(v.row, r, |table|) && FirstTouching(v.group, table[r], 0) == Some(j) && table[r][j].character == '*'
       then [v.group.number] else [])
  }

  /** After the visits, each symbol's gears are the numbers it collected. */
  lemma {:induction false} MarkedGears(table: seq<seq<Symbol>>, visits: seq<Visit>, r: nat, j: nat)
    requires InTable(table, visits) && r < |table| && j < |table[r]|
    ensures Marked(table, visits)[r][j].gears == table[r][j].gears + Collected(table, visits, r, j)
  {
    if visits != [] {
      var init := visits[..|visits| - 1];
      var v := visits[|visits| - 1];
      MarkedGears(table, init, r, j);
      MarkedGearsStep(table, Marked(table, init), v, r, j);
    }
  }

  /** One more visit, on a table of the original layout. */
  lemma MarkedGearsStep(table: seq<seq<Symbol>>, before: seq<seq<Symbol>>, v: Visit, r: nat, j: nat)
    requires SameLayout(before, table) && v.row < |table| && r < |table| && j < |table[r]|
    ensures SameLayout(Touch(before, v), table)
    ensures Touch(before, v)[r][j].gears ==
              before[r][j].gears +
              (if Near(v.row, r, |table|) && FirstTouching(v.group, table[r], 0) == Some(j) && table[r][j].character == '*'
               then [v.group.number] else [])
  {
    TouchLayout(before, v);
    SameLayoutTrans(Touch(before, v), before, table);
    FirstTouchingColumns(v.group, before[r], table[r], 0);
    TouchGears(before, v, r, j);
  }

  /** One visit pushes onto a symbol exactly when it is the first touching
      '*' of a near row. */
  lemma TouchGears(table: seq<seq<Symbol>>, v: Visit, r: nat, j: nat)
    requires v.row < |table| && r < |table| && j < |table[r]|
    ensures SameLayout(Touch(table, v), table)
    ensures Touch(table, v)[r][j].gears ==
              table[r][j].gears +
              (if Near(v.row, r, |table|) && FirstTouching(v.group, table[r], 0) == Some(j) && table[r][j].character == '*'
               then [v.group.number] else [])
  {
    TouchLayout(table, v);
    var t := Touch(table, v);
    if Near(v.row, r, |table|) {
      assert t[r] == Mark(v.group, table[r]);
    } else {
      assert t[r] == table[r];
    }
  }

  // The method side of `analyze`: every row's symbols live in an array of
  // their own, which `has_symbol_in_range` updates in place.

  predicate Distinct(rows: seq<array<Symbol>>)
  {
    forall a, b :: 0 <= a < b < |rows| ==> rows[a] != rows[b]
  }

  ghost function Contents(rows: seq<array<Symbol>>): (t: seq<seq<Symbol>>)
    reads set k | 0 <= k < |rows| :: rows[k]
    ensures |t| == |rows| && forall k :: 0 <= k < |rows| ==> t[k] == rows[k][..]
  {
    if rows == [] then [] else Contents(rows[..|rows| - 1]) + [rows[|rows| - 1][..]]
  }

  /** `has_symbol_in_range` on row `r` of the table. */
  method TouchRow(g: NumberGroup, rows: seq<array<Symbol>>, r: nat) returns (found: bool)
    requires r < |rows| && Distinct(rows)
    modifies rows[r]
    ensures found == Found(g, old(Contents(rows))[r])
    ensures Contents(rows) == MarkRow(old(Contents(rows)), r, g)
  {
    found := HasSymbolInRange(g, rows[r]);
    forall k | 0 <= k < |rows| && k != r
      ensures rows[k][..] == old(rows[k][..])
    {
      assert rows[k] != rows[r];
    }
  }

  /** The body of `analyze`'s inner loop: the group's row and its neighbours,
      every call evaluated (`|=` does not short-circuit). */
  method VisitGroup(rows: seq<array<Symbol>>, v: Visit) returns (hit: bool)
    requires v.row < |rows| && Distinct(rows)
    modifies set k | 0 <= k < |rows| :: rows[k]
    ensures hit == Hit(old(Contents(rows)), v)
    ensures Contents(rows) == Touch(old(Contents(rows)), v)
  {
    var i := v.row;
    ghost var table := Contents(rows);
    hit := false;
    if i > 0 {
      var above := TouchRow(v.group, rows, i - 1);
      hit := hit || above;
    }
    ghost var marked := if i > 0 then MarkRow(table, i - 1, v.group) else table;
    assert Contents(rows) == marked && marked[i] == table[i];
    var here := TouchRow(v.group, rows, i);
    hit := hit || here;
    ghost var middle := MarkRow(marked, i, v.group);
    assert Contents(rows) == middle;
    if i < |rows| - 1 {
      assert middle[i + 1] == table[i + 1];
      var below := TouchRow(v.group, rows, i + 1);
      hit := hit || below;
    }
  }

  lemma VisitsSnoc(lines: seq<seq<char>>, i: nat)
    requires i < |lines|
    ensures VisitsOf(lines[..i + 1]) == VisitsOf(lines[..i]) + RowVisits(i, Runs(lines[i]))
  {
    assert lines[..i + 1][..i] == lines[..i];
  }

  lemma RowVisitsSnoc(i: nat, gs: seq<NumberGroup>, n: nat)
    requires n < |gs|
    ensures RowVisits(i, gs[..n + 1]) == RowVisits(i, gs[..n]) + [Visit(i, gs[n])]
  {
  }

  lemma VisitSnoc(table: seq<seq<Symbol>>, seen: seq<Visit>, v: Visit)
    requires InTable(table, seen) && v.row < |table|
    ensures InTable(table, seen + [v])
    ensures Marked(table, seen + [v]) == Touch(Marked(table, seen), v)
    ensures AdjacentSum(table, seen + [v]) == AdjacentSum(table, seen) + (if Hit(table, v) then v.group.number else 0)
  {
    assert (seen + [v])[..|seen|] == seen;
  }

  /** `analyze`'s `symbol_locations` of every row, each in an array of its own. */
  method SymbolRows(lines: seq<seq<char>>) returns (rows: seq<array<Symbol>>)
    ensures Distinct(rows) && Contents(rows) == SymbolTable(lines)
    ensures forall k :: 0 <= k < |rows| ==> fresh(rows[k])
  {
    rows := [];
    for i := 0 to |lines|
      invariant |rows| == i && Distinct(rows)
      invariant forall k :: 0 <= k < i ==> fresh(rows[k]) && rows[k][..] == SymbolsOf(lines[k])
    {
      var syms := SymbolLocations(lines[i]);
      var row := new Symbol[|syms|](k requires 0 <= k < |syms| => syms[k]);
      rows := rows + [row];
    }
  }

  /** One group of `analyze`'s inner loop: its rows are searched and marked,
      and in part 1 its number is added when a symbol touches it. */
  method VisitStep(rows: seq<array<Symbol>>, v: Visit, part: int,
                   ghost table: seq<seq<Symbol>>, ghost done: seq<Visit>, sum: nat)
    returns (total: nat)
    requires v.row < |rows| && Distinct(rows) && |table| == |rows| && InTable(table, done)
    requires Contents(rows) == Marked(table, done)
    requires sum == if part == 1 then AdjacentSum(table, done) else 0
    modifies set k | 0 <= k < |rows| :: rows[k]
    ensures InTable(table, done + [v])
    ensures Contents(rows) == Marked(table, done + [v])
    ensures total == if part == 1 then AdjacentSum(table, done + [v]) else 0
  {
    HitLayout(Contents(rows), table, v);
    var hasSymbol := VisitGroup(rows, v);
    total := sum;
    if hasSymbol && part == 1 {
      total := total + v.group.number;
    }
    VisitSnoc(table, done, v);
  }

  /** `analyze`'s inner loop: the groups of row `i`, one after the other. */
  method VisitLine(rows: seq<array<Symbol>>, i: nat, groups: seq<NumberGroup>, part: int,
                   ghost table: seq<seq<Symbol>>, ghost seen: seq<Visit>, sum: nat)
    returns (total: nat)
    requires i < |rows| && Distinct(rows) && |table| == |rows| && InTable(table, seen)
    requires Contents(rows) == Marked(table, seen)
    requires sum == if part == 1 then AdjacentSum(table, seen) else 0
    modifies set k | 0 <= k < |rows| :: rows[k]
    ensures InTable(table, seen + RowVisits(i, groups))
    ensures Contents(rows) == Marked(table, seen + RowVisits(i, groups))
    ensures total == if part == 1 then AdjacentSum(table, seen + RowVisits(i, groups)) else 0
  {
    total := sum;
    ghost var done := seen;
    for n := 0 to |groups|
      invariant done == seen + RowVisits(i, groups[..n]) && InTable(table, done)
      invariant Contents(rows) == Marked(table, done)
      invariant total == if part == 1 then AdjacentSum(table, done) else 0
    {
      var v := Visit(i, groups[n]);
      total := VisitStep(rows, v, part, table, done, total);
      RowVisitsSnoc(i, groups, n);
      done := done + [v];
    }
    assert groups[..|groups|] == groups;
  }

  /** `analyze`'s first loop: every group of every row, with the part 1 sum. */
  method VisitRows(lines: seq<seq<char>>, rows: seq<array<Symbol>>, part: int) returns (sum: nat)
    requires |rows| == |lines| && Distinct(rows)
    modifies set k | 0 <= k < |rows| :: rows[k]
    ensures Contents(rows) == Marked(old(Contents(rows)), VisitsOf(lines))
    ensures sum == if part == 1 then AdjacentSum(old(Contents(rows)), VisitsOf(lines)) else 0
  {
    ghost var table := Contents(rows);
    ghost var seen: seq<Visit> := [];
    sum := 0;
    for i := 0 to |lines|
      invariant seen == VisitsOf(lines[..i]) && InTable(table, seen)
      invariant Contents(rows) == Marked(table, seen)
      invariant sum == if part == 1 then AdjacentSum(table, seen) else 0
    {
      var groups := NumberGroups(lines[i]);
      VisitsSnoc(lines, i);
      sum := VisitLine(rows, i, groups, part, table, seen, sum);
      seen := seen + RowVisits(i, groups);
    }
    assert lines[..|lines|] == lines;
  }

  /** `analyze`'s second loop: the ratios of the '*'s with exactly two gears,
      in part 2 only. */
  method GearRatios(rows: seq<array<Symbol>>, part: int) returns (sum: nat)
    ensures sum == if part == 2 then TableGears(Contents(rows)) else 0
  {
    ghost var table := Contents(rows);
    sum := 0;
    for i := 0 to |rows|
      invariant sum == if part == 2 then TableGears(table[..i]) else 0
    {
      var row := rows[i];
      ghost var before := sum;
      for j := 0 to row.Length
        invariant sum == before + if part == 2 then RowGears(row[..j]) else 0
      {
        var symbol := row[j];
        assert row[..j + 1][..j] == row[..j];
        if symbol.character == '*' {
          if part == 2 && |symbol.gears| == 2 {
            sum := sum + symbol.gears[0] * symbol.gears[1];
          }
        }
      }
      assert row[..row.Length] == table[i];
      assert table[..i + 1][..i] == table[..i];
    }
    assert table[..|rows|] == table;
  }

  /** `analyze`: the symbols of every row first, then each row's groups against
      the symbols of the rows around it, then the gears. */
  method Analyze(lines: seq<seq<char>>, part: int) returns (sum: nat)
    ensures sum == Answer(lines, part)
  {
    var rows := SymbolRows(lines);
    VisitsInTable(lines);
    var numbers := VisitRows(lines, rows, part);
    var gears := GearRatios(rows, part);
    sum := numbers + gears;
  }

  /** Every visit of `analyze` is to a row of the table. */
  lemma VisitsInTable(lines: seq<seq<char>>)
    ensures InTable(SymbolTable(lines), VisitsOf(lines))
  {
  }
}
