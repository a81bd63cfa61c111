/** Day 1: calibration values. A line's value is its first and last digit read
    as a two-digit number; in part 2 spelled-out digit names count too, after
    one left-to-right and one right-to-left substitution. */
module Trebuchet {
  import opened Text

  /** The spelled-out digits, "one" at index 0 standing for 1. */
  const Names: seq<seq<char>> := ["one", "two", "three", "four", "five", "six", "seven", "eight", "nine"]

  predicate IsLowerLetter(c: char) { 'a' <= c <= 'z' }

  lemma NamesAreWords()
    ensures |Names| == 9
    ensures forall k, j :: 0 <= k < 9 && 0 <= j < |Names[k]| ==> IsLowerLetter(Names[k][j])
    ensures forall k :: 0 <= k < 9 ==> 3 <= |Names[k]| <= 5
  {
  }

  // ---------------------------------------------------------------------------
  // extract_number
  // ---------------------------------------------------------------------------

  /** The digits of a line in order (the `flat_map` over `is_digit(10)`). */
  function Digits(line: seq<char>): (ds: seq<char>)
    ensures AllDigits(ds) && |ds| <= |line|
    ensures ds == [] <==> forall i :: 0 <= i < |line| ==> !IsDigit(line[i])
  {
    if line == [] then []
    else
      var rest := Digits(line[1..]);
      assert forall i :: 1 <= i < |line| ==> line[i] == line[1..][i - 1];
      if IsDigit(line[0]) then [line[0]] + rest else rest
  }

  /** The first digit of the line is the first of its digits. */
  lemma {:induction false} DigitsFirst(line: seq<char>)
    requires Digits(line) != []
    ensures exists i :: 0 <= i < |line| && line[i] == Digits(line)[0] &&
                        forall j :: 0 <= j < i ==> !IsDigit(line[j])
  {
    if !IsDigit(line[0]) {
      DigitsFirst(line[1..]);
      var i :| 0 <= i < |line[1..]| && line[1..][i] == Digits(line[1..])[0] &&
               forall j :: 0 <= j < i ==> !IsDigit(line[1..][j]);
      assert line[i + 1] == Digits(line)[0];
      assert forall j :: 1 <= j < i + 1 ==> line[j] == line[1..][j - 1];
    }
  }

  /** The last digit of the line is the last of its digits. */
  lemma {:induction false} DigitsLast(line: seq<char>)
    requires Digits(line) != []
    ensures exists i :: 0 <= i < |line| && line[i] == Digits(line)[|Digits(line)| - 1] &&
                        forall j :: i < j < |line| ==> !IsDigit(line[j])
  {
    var rest := Digits(line[1..]);
    if rest == [] {
      assert forall j :: 1 <= j < |line| ==> line[j] == line[1..][j - 1];
    } else {
      DigitsLast(line[1..]);
      var i :| 0 <= i < |line[1..]| && line[1..][i] == rest[|rest| - 1] &&
               forall j :: i < j < |line[1..]| ==> !IsDigit(line[1..][j]);
      assert line[i + 1] == rest[|rest| - 1];
      assert forall j :: i + 1 < j < |line| ==> line[j] == line[1..][j - 1];
    }
  }

  /** The two-character number `first last` (the `parse` of the two-char string). */
  function TwoDigits(first: char, last: char): (n: nat)
    requires IsDigit(first) && IsDigit(last)
    ensures n < 100
  {
    10 * DigitValue(first) + DigitValue(last)
  }

  /** The text the digits are taken from: in part 2 names are replaced first,
      left to right, then right to left. */
  function Substituted(line: seq<char>, part: int): seq<char>
  {
    if part == 2 then ReplaceNames(ReplaceNames(line, false), true) else line
  }

  /** First and last digit of a text; a lone digit is used twice; no digit at
      all gives 0. */
  function Calibration(text: seq<char>): (n: nat)
    ensures n < 100
    ensures Digits(text) == [] ==> n == 0
    ensures var ds := Digits(text);
            ds != [] ==> n == 10 * DigitValue(ds[0]) + DigitValue(ds[|ds| - 1])
  {
    var ds := Digits(text);
    if |ds| >= 2 then TwoDigits(ds[0], ds[|ds| - 1])
    else if |ds| == 1 then TwoDigits(ds[0], ds[0])
    else 0
  }

  /** `extract_number`: the calibration value of the line, after the two
      substitutions in part 2. */
  function ExtractNumber(line: seq<char>, part: int): (n: nat)
    ensures n < 100
  {
    Calibration(Substituted(line, part))
  }

  // ---------------------------------------------------------------------------
  // replace_number_names
  // ---------------------------------------------------------------------------

  /** Name `k` is spelled out at `start`. */
  predicate NameAt(line: seq<char>, start: int, k: nat)
    requires k < |Names|
  {
    0 <= start && start + |Names[k]| <= |line| && line[start..start + |Names[k]|] == Names[k]
  }

  /** The first name, in list order, spelled out at `start` (the inner `for`
      loop when the position is the start of the word). */
  function NameFrom(line: seq<char>, start: int, k: nat): (r: Option<nat>)
    requires k <= |Names|
    ensures r.Some? ==> k <= r.value < |Names| && NameAt(line, start, r.value) &&
                        forall k' :: k <= k' < r.value ==> !NameAt(line, start, k')
    ensures r.None? ==> forall k' :: k <= k' < |Names| ==> !NameAt(line, start, k')
    decreases |Names| - k
  {
    if k == |Names| then None
    else if NameAt(line, start, k) then Some(k)
    else NameFrom(line, start, k + 1)
  }

  /** Name `k` is spelled out with its last letter at `end`. */
  predicate NameEndsAt(line: seq<char>, end: nat, k: nat)
    requires k < |Names|
  {
    |Names[k]| <= end + 1 && NameAt(line, end + 1 - |Names[k]|, k)
  }

  /** The first name, in list order, that ends at `end` (the inner loop when the
      position is the last character of the word). */
  function NameEndingFrom(line: seq<char>, end: nat, k: nat): (r: Option<nat>)
    requires k <= |Names|
    ensures r.Some? ==> k <= r.value < |Names| && NameEndsAt(line, end, r.value) &&
                        forall k' :: k <= k' < r.value ==> !NameEndsAt(line, end, k')
    ensures r.None? ==> forall k' :: k <= k' < |Names| ==> !NameEndsAt(line, end, k')
    decreases |Names| - k
  {
    if k == |Names| then None
    else if NameEndsAt(line, end, k) then Some(k)
    else NameEndingFrom(line, end, k + 1)
  }

  /** Name `k` at `start` replaced by its digit. */
  function Splice(line: seq<char>, start: nat, k: nat): (r: seq<char>)
    requires k < |Names| && NameAt(line, start, k)
    ensures |r| == |line| - |Names[k]| + 1
  {
    line[..start] + [DigitChar(k + 1)] + line[start + |Names[k]|..]
  }

  /** Name `k` ending at `end` replaced by its digit. */
  function SpliceEnd(line: seq<char>, end: nat, k: nat): seq<char>
    requires k < |Names| && NameEndsAt(line, end, k)
  {
    Splice(line, end + 1 - |Names[k]|, k)
  }

  /** Neither a digit nor the start of a name at `d`. */
  predicate QuietStart(line: seq<char>, d: nat)
    requires d < |line|
  {
    !IsDigit(line[d]) && forall k :: 0 <= k < |Names| ==> !NameAt(line, d, k)
  }

  /** Left to right from `position`, name `k` at `q` is the first thing the scan
      meets: no digit and no other name starts before it. */
  predicate ForwardHit(line: seq<char>, position: nat, q: nat, k: nat)
  {
    position <= q < |line| && k < |Names| && NameAt(line, q, k) &&
    (forall k' :: 0 <= k' < k ==> !NameAt(line, q, k')) &&
    forall d: nat :: position <= d < q ==> QuietStart(line, d)
  }

  /** Left to right from `position`: where the scan replaces a name, or None
      when it meets a digit first or reaches the end. */
  function ForwardStop(line: seq<char>, position: nat): (r: Option<(nat, nat)>)
    ensures r.Some? ==> r.value.1 < |Names| && NameAt(line, r.value.0, r.value.1)
    decreases |line| - position
  {
    if position >= |line| then None
    else if IsDigit(line[position]) then None
    else
      var found := NameFrom(line, position, 0);
      if found.Some? then Some((position, found.value)) else ForwardStop(line, position + 1)
  }

  /** The forward scan stops at the first name it meets. */
  lemma {:induction false} ForwardStopHit(line: seq<char>, position: nat)
    ensures ForwardStop(line, position).Some? ==>
              ForwardHit(line, position, ForwardStop(line, position).value.0, ForwardStop(line, position).value.1)
    decreases |line| - position
  {
    if position < |line| && !IsDigit(line[position]) && NameFrom(line, position, 0).None? {
      ForwardStopHit(line, position + 1);
    }
  }

  /** Neither a digit nor the end of a name at `d`. */
  predicate QuietEnd(line: seq<char>, d: nat)
    requires d < |line|
  {
    !IsDigit(line[d]) && forall k :: 0 <= k < |Names| ==> !NameEndsAt(line, d, k)
  }

  /** Right to left over the positions below `count`, name `k` ending at `e` is
      the first thing the scan meets: no digit and no other name ends after it. */
  predicate BackwardHit(line: seq<char>, count: nat, e: nat, k: nat)
    requires count <= |line|
  {
    e < count && k < |Names| && NameEndsAt(line, e, k) &&
    (forall k' :: 0 <= k' < k ==> !NameEndsAt(line, e, k')) &&
    forall d: nat :: e < d < count ==> QuietEnd(line, d)
  }

  /** Right to left over the positions below `count`: where the scan replaces a
      name (its last position and index), or None when it meets a digit first
      or reaches the start. */
  function BackwardStop(line: seq<char>, count: nat): (r: Option<(nat, nat)>)
    requires count <= |line|
    ensures r.Some? ==> r.value.1 < |Names| && NameEndsAt(line, r.value.0, r.value.1)
  {
    if count == 0 then None
    else if IsDigit(line[count - 1]) then None
    else
      var found := NameEndingFrom(line, count - 1, 0);
      if found.Some? then Some((count - 1, found.value)) else BackwardStop(line, count - 1)
  }

  lemma BackwardHitExtend(line: seq<char>, count: nat, e: nat, k: nat)
    requires count < |line| && BackwardHit(line, count, e, k) && QuietEnd(line, count)
    ensures BackwardHit(line, count + 1, e, k)
  {
  }

  /** The backward scan stops at the first name end it meets. */
  lemma {:induction false} BackwardStopHit(line: seq<char>, count: nat)
    requires count <= |line|
    ensures BackwardStop(line, count).Some? ==>
              BackwardHit(line, count, BackwardStop(line, count).value.0, BackwardStop(line, count).value.1)
  {
    if count > 0 && !IsDigit(line[count - 1]) {
      var found := NameEndingFrom(line, count - 1, 0);
      if found.None? {
        BackwardStopHit(line, count - 1);
        BackwardStopSkip(line, count);
        var r := BackwardStop(line, count - 1);
        if r.Some? {
          BackwardHitExtend(line, count - 1, r.value.0, r.value.1);
        }
      } else {
        BackwardHitHere(line, count, found.value);
      }
    }
  }

  /** No digit and no name ends at `count - 1`: the scan moves on. */
  lemma BackwardStopSkip(line: seq<char>, count: nat)
    requires 0 < count <= |line| && !IsDigit(line[count - 1]) && NameEndingFrom(line, count - 1, 0).None?
    ensures BackwardStop(line, count) == BackwardStop(line, count - 1) && QuietEnd(line, count - 1)
  {
  }

  /** A name ends at `count - 1`: the scan stops there. */
  lemma BackwardHitHere(line: seq<char>, count: nat, k: nat)
    requires 0 < count <= |line| && !IsDigit(line[count - 1]) && NameEndingFrom(line, count - 1, 0) == Some(k)
    ensures BackwardStop(line, count) == Some((count - 1, k)) && BackwardHit(line, count, count - 1, k)
  {
  }

  /** Where `replace_number_names` replaces a name, as (start, index). */
  function Replacement(line: seq<char>, reverse: bool): (r: Option<(nat, nat)>)
    ensures r.Some? ==> r.value.1 < |Names| && NameAt(line, r.value.0, r.value.1)
  {
    if reverse then
      var stop := BackwardStop(line, |line|);
      if stop.Some? then Some((stop.value.0 + 1 - |Names[stop.value.1]|, stop.value.1)) else None
    else ForwardStop(line, 0)
  }

  /** What `replace_number_names` returns. */
  function ReplaceNames(line: seq<char>, reverse: bool): (r: seq<char>)
    ensures |r| <= |line|
    ensures r == line <==> Replacement(line, reverse).None?
  {
    var replacement := Replacement(line, reverse);
    if replacement.None? then line else Splice(line, replacement.value.0, replacement.value.1)
  }

  /** The line with at most one name replaced by its digit, which shortens it
      by the name's length less one and changes it. */
  lemma ReplaceNamesShape(line: seq<char>, reverse: bool)
    ensures Replacement(line, reverse).None? ==> ReplaceNames(line, reverse) == line
    ensures Replacement(line, reverse).Some? ==>
              var (start, k) := Replacement(line, reverse).value;
              var r := ReplaceNames(line, reverse);
              r != line && |r| == |line| - |Names[k]| + 1 &&
              r[..start] == line[..start] && r[start] == DigitChar(k + 1) &&
              r[start + 1..] == line[start + |Names[k]|..]
  {
    var replacement := Replacement(line, reverse);
    if replacement.Some? {
      SpliceChanges(line, replacement.value.0, replacement.value.1);
    }
  }

  /** The names from index `k` on that start (left to right) or end (right to
      left) at `position`: the first of them found. */
  function NameSearch(line: seq<char>, position: nat, reverse: bool, k: nat): Option<nat>
    requires k <= |Names|
  {
    if reverse then NameEndingFrom(line, position, k) else NameFrom(line, position, k)
  }

  /** One round of the inner loop: name `k` is skipped when it cannot fit,
      found when it is spelled at its start, and passed over otherwise. */
  lemma NameSearchStep(line: seq<char>, position: nat, reverse: bool, k: nat)
    requires position < |line| && k < |Names|
    ensures var start := if reverse then position + 1 - |Names[k]| else position;
            var skip := (!reverse && position + |Names[k]| > |line|) || (reverse && start < 0);
            if skip || line[start..start + |Names[k]|] != Names[k] then NameSearch(line, position, reverse, k) == NameSearch(line, position, reverse, k + 1)
            else NameSearch(line, position, reverse, k) == Some(k)
  {
  }

  /** The inner loop of `replace_number_names` over the names in order. */
  method FindName(line: seq<char>, position: nat, reverse: bool) returns (found: Option<nat>)
    requires position < |line|
    ensures found == NameSearch(line, position, reverse, 0)
  {
    var k := 0;
    while k < |Names|
      invariant 0 <= k <= |Names|
      invariant NameSearch(line, position, reverse, 0) == NameSearch(line, position, reverse, k)
    {
      NameSearchStep(line, position, reverse, k);
      var text := Names[k];
      var start := if reverse then position + 1 - |text| else position;
      var skip := (!reverse && position + |text| > |line|) || (reverse && start < 0);
      if !skip && line[start..start + |text|] == text {
        return Some(k);
      }
      k := k + 1;
    }
    return None;
  }

  /** The stop of the scan that starts at loop step `step`. */
  function StopFrom(line: seq<char>, reverse: bool, step: nat): Option<(nat, nat)>
    requires step <= |line|
  {
    if reverse then BackwardStop(line, |line| - step) else ForwardStop(line, step)
  }

  /** One round of the position loop: a digit ends the scan, a name found at
      the position is where it stops, and otherwise it goes on with the next
      position. */
  lemma StopFromStep(line: seq<char>, reverse: bool, step: nat, position: nat)
    requires step < |line| && position == if reverse then |line| - 1 - step else step
    ensures position < |line|
    ensures StopFrom(line, reverse, step) ==
              if IsDigit(line[position]) then None
              else if NameSearch(line, position, reverse, 0).Some? then Some((position, NameSearch(line, position, reverse, 0).value))
              else StopFrom(line, reverse, step + 1)
  {
  }

  /** Where the scan stops, the name is replaced. */
  lemma ReplaceNamesAtStop(line: seq<char>, reverse: bool, position: nat, k: nat)
    requires StopFrom(line, reverse, 0) == Some((position, k))
    ensures k < |Names|
    ensures var start := if reverse then position + 1 - |Names[k]| else position;
            0 <= start && start + |Names[k]| <= |line| &&
            ReplaceNames(line, reverse) == line[..start] + [DigitChar(k + 1)] + line[start + |Names[k]|..]
  {
    var r := Replacement(line, reverse);
    assert r.Some?;
  }

  /** Where the scan does not stop, the line is returned unchanged. */
  lemma ReplaceNamesQuiet(line: seq<char>, reverse: bool)
    requires StopFrom(line, reverse, 0).None?
    ensures ReplaceNames(line, reverse) == line
  {
    assert Replacement(line, reverse).None?;
  }

  /** The position loop of `replace_number_names`: where it stops on a name,
      as (position, index), or None when it meets a digit first or runs out. */
  method ScanStop(line: seq<char>, reverse: bool) returns (stop: Option<(nat, nat)>)
    ensures stop == StopFrom(line, reverse, 0)
  {
    var step := 0;
    while step < |line|
      invariant 0 <= step <= |line|
      invariant StopFrom(line, reverse, 0) == StopFrom(line, reverse, step)
    {
      var position := if reverse then |line| - 1 - step else step;
      StopFromStep(line, reverse, step, position);
      if IsDigit(line[position]) {
        return None;
      }
      var found := FindName(line, position, reverse);
      if found.Some? {
        return Some((position, found.value));
      }
      step := step + 1;
    }
    return None;
  }

  /** `replace_number_names`: the name where the scan stops replaced by its
      digit, or the line unchanged. */
  method ReplaceNumberNames(line: seq<char>, reverse: bool) returns (result: seq<char>)
    ensures result == ReplaceNames(line, reverse)
  {
    var stop := ScanStop(line, reverse);
    if stop.None? {
      ReplaceNamesQuiet(line, reverse);
      return line;
    }
    var (position, k) := stop.value;
    ReplaceNamesAtStop(line, reverse, position, k);
    var start := if reverse then position + 1 - |Names[k]| else position;
    var before, after := line[..start], line[start + |Names[k]|..];
    return before + [DigitChar(k + 1)] + after;
  }

  // ---------------------------------------------------------------------------
  // What a substitution does
  // ---------------------------------------------------------------------------

  /** A spelled name is made of lower-case letters, so it holds no digit. */
  lemma NameNotDigit(line: seq<char>, start: int, k: nat, j: nat)
    requires k < |Names| && NameAt(line, start, k) && j < |Names[k]|
    ensures !IsDigit(line[start + j])
  {
    NamesAreWords();
    assert line[start + j] == line[start..start + |Names[k]|][j];
  }

  /** Replacing a name changes the line: a digit takes the place of a letter. */
  lemma SpliceChanges(line: seq<char>, start: nat, k: nat)
    requires k < |Names| && NameAt(line, start, k)
    ensures Splice(line, start, k) != line
  {
    NameNotDigit(line, start, k, 0);
    assert Splice(line, start, k)[start] == DigitChar(k + 1);
  }

  /** Left to right, nothing is replaced exactly when every name that occurs is
      preceded by a digit. */
  lemma {:induction false} ForwardStopNone(line: seq<char>, position: nat)
    ensures ForwardStop(line, position).None? <==>
              forall q: int, k: nat :: position <= q && k < |Names| && NameAt(line, q, k) ==>
                exists d :: position <= d < q && IsDigit(line[d])
    decreases |line| - position
  {
    if position >= |line| {
    } else if IsDigit(line[position]) {
      forall q: int, k: nat | position <= q && k < |Names| && NameAt(line, q, k)
        ensures exists d :: position <= d < q && IsDigit(line[d])
      {
        if q == position {
          NameNotDigit(line, q, k, 0);
        }
      }
    } else if NameFrom(line, position, 0).None? {
      ForwardStopNone(line, position + 1);
      if ForwardStop(line, position + 1).None? {
        forall q: int, k: nat | position <= q && k < |Names| && NameAt(line, q, k)
          ensures exists d :: position <= d < q && IsDigit(line[d])
        {
          assert q != position;
        }
      } else {
        var q: int, k: nat :| position + 1 <= q && k < |Names| && NameAt(line, q, k) &&
                              !exists d :: position + 1 <= d < q && IsDigit(line[d]);
        assert !exists d :: position <= d < q && IsDigit(line[d]);
      }
    }
  }

  /** Every name that ends below `count` is followed by a digit below `count`. */
  predicate EndsBlocked(line: seq<char>, count: nat)
    requires count <= |line|
  {
    forall e: nat, k: nat :: e < count && k < |Names| && NameEndsAt(line, e, k) ==>
      exists d :: e < d < count && IsDigit(line[d])
  }

  /** A digit at `count - 1` blocks every name that ends before it. */
  lemma EndsBlockedByDigit(line: seq<char>, count: nat)
    requires 0 < count <= |line| && IsDigit(line[count - 1])
    ensures EndsBlocked(line, count)
  {
    forall e: nat, k: nat | e < count && k < |Names| && NameEndsAt(line, e, k)
      ensures exists d :: e < d < count && IsDigit(line[d])
    {
      if e == count - 1 {
        NameNotDigit(line, e + 1 - |Names[k]|, k, |Names[k]| - 1);
      }
    }
  }

  /** A position that is neither a digit nor the end of a name changes nothing. */
  lemma EndsBlockedSkip(line: seq<char>, count: nat)
    requires 0 < count <= |line| && QuietEnd(line, count - 1)
    ensures EndsBlocked(line, count) <==> EndsBlocked(line, count - 1)
  {
    if EndsBlocked(line, count - 1) {
      forall e: nat, k: nat | e < count && k < |Names| && NameEndsAt(line, e, k)
        ensures exists d :: e < d < count && IsDigit(line[d])
      {
        assert e != count - 1;
      }
    } else {
      var e: nat, k: nat :| e < count - 1 && k < |Names| && NameEndsAt(line, e, k) &&
                            !exists d :: e < d < count - 1 && IsDigit(line[d]);
      assert !exists d :: e < d < count && IsDigit(line[d]);
    }
  }

  /** Right to left, nothing is replaced exactly when every name that ends below
      `count` is followed by a digit below `count`. */
  lemma {:induction false} BackwardStopNone(line: seq<char>, count: nat)
    requires count <= |line|
    ensures BackwardStop(line, count).None? <==> EndsBlocked(line, count)
  {
    if count == 0 {
    } else if IsDigit(line[count - 1]) {
      EndsBlockedByDigit(line, count);
    } else if NameEndingFrom(line, count - 1, 0).None? {
      BackwardStopNone(line, count - 1);
      EndsBlockedSkip(line, count);
    } else {
      var k := NameEndingFrom(line, count - 1, 0).value;
      assert NameEndsAt(line, count - 1, k);
    }
  }

  /** A line that spells no name has the same value in both parts. */
  lemma NoNamesSameValue(line: seq<char>)
    requires forall q: int, k: nat :: k < |Names| ==> !NameAt(line, q, k)
    ensures ExtractNumber(line, 2) == ExtractNumber(line, 1)
  {
    ForwardStopNone(line, 0);
    assert StopFrom(line, false, 0).None?;
    ReplaceNamesQuiet(line, false);
    BackwardStopNone(line, |line|);
    assert StopFrom(line, true, 0).None?;
    ReplaceNamesQuiet(line, true);
    assert Substituted(line, 2) == Substituted(line, 1);
  }

  /** The right-to-left pass keeps a leading digit: no name can start on it. */
  lemma BackwardKeepsHead(line: seq<char>)
    requires line != [] && IsDigit(line[0])
    ensures var r := ReplaceNames(line, true); r != [] && r[0] == line[0]
  {
    var replacement := Replacement(line, true);
    if replacement.Some? {
      var (start, k) := replacement.value;
      if start == 0 {
        NameNotDigit(line, 0, k, 0);
      }
    }
  }

  /** A line that starts with a spelled name takes that name's digit as its
      first digit in part 2, even when a digit follows later. */
  lemma LeadingNameCounts(line: seq<char>, k: nat)
    requires k < |Names| && NameAt(line, 0, k)
    requires forall k' :: 0 <= k' < k ==> !NameAt(line, 0, k')
    ensures ExtractNumber(line, 2) / 10 == k + 1
  {
    NameNotDigit(line, 0, k, 0);
    assert ForwardStop(line, 0) == Some((0, k));
    var once := ReplaceNames(line, false);
    assert once[0] == DigitChar(k + 1);
    BackwardKeepsHead(once);
    var twice := ReplaceNames(once, true);
    assert twice == Substituted(line, 2);
    var ds := Digits(twice);
    assert ds[0] == twice[0];
  }

  // ---------------------------------------------------------------------------
  // sum_lines
  // ---------------------------------------------------------------------------

  /** The sum of the lines' calibration values. */
  function Total(lines: seq<seq<char>>, part: int): nat
  {
    if lines == [] then 0 else Total(lines[..|lines| - 1], part) + ExtractNumber(lines[|lines| - 1], part)
  }

  /** Every value has two digits at most. */
  lemma {:induction false} TotalBound(lines: seq<seq<char>>, part: int)
    ensures Total(lines, part) <= 99 * |lines|
  {
    if lines != [] {
      TotalBound(lines[..|lines| - 1], part);
    }
  }

  /** `sum_lines`: the values of all lines added up. */
  method SumLines(lines: seq<seq<char>>, part: int) returns (sum: nat)
    ensures sum == Total(lines, part)
  {
    sum := 0;
    for i := 0 to |lines|
      invariant sum == Total(lines[..i], part)
    {
      assert lines[..i + 1][..i] == lines[..i];
      sum := sum + ExtractNumber(lines[i], part);
    }
    assert lines[..|lines|] == lines;
  }

  // ---------------------------------------------------------------------------
  // Where a single pass stops
  // ---------------------------------------------------------------------------

  /** The search in list order from `j` finds name `k` when no name between
      them is spelled at `start`. */
  lemma {:induction false} NameFromFinds(line: seq<char>, start: int, j: nat, k: nat)
    requires j <= k < |Names| && NameAt(line, start, k)
    requires forall k' :: j <= k' < k ==> !NameAt(line, start, k')
    ensures NameFrom(line, start, j) == Some(k)
    decreases k - j
  {
    if j < k {
      NameFromFinds(line, start, j + 1, k);
    }
  }

  /** The search in list order from `j` finds name `k` when no name between
      them ends at `end`. */
  lemma {:induction false} NameEndingFromFinds(line: seq<char>, end: nat, j: nat, k: nat)
    requires j <= k < |Names| && NameEndsAt(line, end, k)
    requires forall k' :: j <= k' < k ==> !NameEndsAt(line, end, k')
    ensures NameEndingFrom(line, end, j) == Some(k)
    decreases k - j
  {
    if j < k {
      NameEndingFromFinds(line, end, j + 1, k);
    }
  }

  /** Left to right, a line that starts with a digit is returned unchanged. */
  lemma LeadingDigitUnchanged(line: seq<char>)
    requires line != [] && IsDigit(line[0])
    ensures ReplaceNames(line, false) == line
  {
  }

  /** Right to left, a line that ends with a digit is returned unchanged. */
  lemma TrailingDigitUnchanged(line: seq<char>)
    requires line != [] && IsDigit(line[|line| - 1])
    ensures ReplaceNames(line, true) == line
  {
  }

  /** Left to right, the first name (in list order) spelled at the start of the
      line is replaced. */
  lemma LeadingName(line: seq<char>, k: nat)
    requires k < |Names| && NameAt(line, 0, k) && forall k' :: 0 <= k' < k ==> !NameAt(line, 0, k')
    ensures ReplaceNames(line, false) == [DigitChar(k + 1)] + line[|Names[k]|..]
  {
    NameFromFinds(line, 0, 0, k);
    NameNotDigit(line, 0, k, 0);
    assert ForwardStop(line, 0) == Some((0, k));
  }

  /** A name whose first letter no earlier name has, spelled at the start, is replaced. */
  lemma FirstLetterName(line: seq<char>, k: nat)
    requires k < |Names| && NameAt(line, 0, k)
    requires forall k' :: 0 <= k' < k ==> Names[k'][0] != Names[k][0]
    ensures ReplaceNames(line, false) == [DigitChar(k + 1)] + line[|Names[k]|..]
  {
    NamesAreWords();
    assert line[0] == line[..|Names[k]|][0];
    LeadingName(line, k);
  }

  /** Right to left, the scan stops at once on a name ending with the line's
      last character. */
  lemma TrailingStop(line: seq<char>, end: nat, k: nat)
    requires end + 1 == |line| && NameEndingFrom(line, end, 0) == Some(k)
    ensures BackwardStop(line, |line|) == Some((end, k))
  {
    NameNotDigit(line, end + 1 - |Names[k]|, k, |Names[k]| - 1);
    assert !IsDigit(line[end]);
  }

  /** Right to left, the first name (in list order) ending with the line's last
      character is replaced. */
  lemma TrailingName(line: seq<char>, end: nat, k: nat)
    requires end + 1 == |line| && k < |Names| && NameEndsAt(line, end, k)
    requires forall k' :: 0 <= k' < k ==> !NameEndsAt(line, end, k')
    ensures ReplaceNames(line, true) == line[..end + 1 - |Names[k]|] + [DigitChar(k + 1)]
  {
    NameEndingFromFinds(line, end, 0, k);
    TrailingStop(line, end, k);
    assert Replacement(line, true) == Some((end + 1 - |Names[k]|, k));
    var r := ReplaceNames(line, true);
    var start := end + 1 - |Names[k]|;
    assert r[start + 1..] == [];
    assert r == r[..start] + [r[start]] + r[start + 1..];
  }

  // ---------------------------------------------------------------------------
  // The source's tests
  // ---------------------------------------------------------------------------

  /** Two digits give the number they spell. */
  lemma ExtractTwoDigitsExample()
    ensures ExtractNumber("12", 1) == 12
  {
    assert Digits("12") == "12";
  }

  /** A lone digit is used twice, wherever it stands. */
  lemma ExtractLoneDigitExamples()
    ensures ExtractNumber("3", 1) == 33
    ensures ExtractNumber("foo3", 1) == 33
    ensures ExtractNumber("foo3bar", 1) == 33
    ensures ExtractNumber("3bar", 1) == 33
  {
    assert Digits("3") == "3";
    assert Digits("foo3") == "3";
    assert Digits("foo3bar") == "3";
    assert Digits("3bar") == "3";
  }

  /** A leading name is replaced; a line that starts (left to right) or ends
      (right to left) with a digit is kept as it is. */
  lemma ReplaceExamples()
    ensures ReplaceNames("two1nine", false) == "21nine"
    ensures ReplaceNames("1twonine", false) == "1twonine"
    ensures ReplaceNames("1two9", true) == "1two9"
  {
    var line := "two1nine";
    assert line[0] == 't' && line[..3] == "two";
    LeadingName(line, 1);
    LeadingDigitUnchanged("1twonine");
    TrailingDigitUnchanged("1two9");
  }

  /** "eight" is the first name, in list order, that starts with 'e'. */
  lemma EightFirstWithE()
    ensures Names[7][0] == 'e' && forall k :: 0 <= k < 7 ==> Names[k][0] != 'e'
  {
  }

  /** Left to right, "eight" wins over the "two" that shares its "t". */
  lemma ReplaceOverlapExample()
    ensures ReplaceNames("eightwothree", false) == "8wothree"
  {
    var line := "eightwothree";
    assert line[..5] == "eight";
    EightFirstWithE();
    FirstLetterName(line, 7);
  }

  /** Right to left, the last name is replaced and the earlier one kept. */
  lemma ReplaceBackwardExample()
    ensures ReplaceNames("1twonine", true) == "1two9"
  {
    var line := "1twonine";
    assert line[7] == 'e' && line[5..8] == "ine" && line[4..8] == "nine" && line[3..8] == "onine";
    TrailingName(line, 7, 8);
    assert line[..4] == "1two";
  }
}
