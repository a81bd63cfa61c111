/** Day 6: toy boat races. Holding the button for `c` of a race's `t`
    milliseconds gives speed `c` for the remaining `t - c` milliseconds; a race
    is won by beating its record distance. */
module BoatRace {
  import opened Text

  /** `calculate_distance`: the distance covered when charging for `charging`
      of `total` milliseconds; `total - charging` would underflow otherwise. */
  function Distance(charging: nat, total: nat): (d: nat)
    requires charging <= total
    ensures d == 0 <==> charging == 0 || charging == total
  {
    (total - charging) * charging
  }

  /** Charging for `c` or for `t - c` goes equally far. */
  lemma DistanceSymmetric(c: nat, t: nat)
    requires c <= t
    ensures Distance(c, t) == Distance(t - c, t)
  {
  }

  /** The distance grows while the charging time is below half the race:
      `(t - a) a - (t - b) b == (a - b)(t - a - b)`. */
  lemma DistanceGrows(b: nat, a: nat, t: nat)
    requires b <= a && a + b <= t
    ensures Distance(b, t) <= Distance(a, t)
  {
    assert Distance(a, t) - Distance(b, t) == (a - b) * (t - a - b);
  }

  /** No charging time goes further than a quarter of the squared race time. */
  lemma DistanceBound(c: nat, t: nat)
    requires c <= t
    ensures 4 * Distance(c, t) <= t * t
  {
    var r := t - c;
    var d := r - c;
    calc {
      t * t;
      (r + c) * (r + c);
      r * r + 2 * r * c + c * c;
      (d + c) * (d + c) + 2 * r * c + c * c;
      d * d + 2 * d * c + 2 * c * c + 2 * r * c;
      d * d + 2 * (r - c) * c + 2 * c * c + 2 * r * c;
      d * d + 4 * r * c;
    }
    assert d * d >= 0;
  }

  lemma DistanceExamples()
    ensures Distance(0, 7) == 0 && Distance(1, 7) == 6 && Distance(2, 7) == 10
    ensures Distance(3, 7) == 12 && Distance(4, 7) == 12 && Distance(5, 7) == 10
  {
  }

  /** The charging times of `1..t` that beat the record. */
  ghost function Winning(t: nat, record: nat): set<nat>
  {
    set c: nat | 1 <= c < t && Distance(c, t) > record
  }

  /** How many charging times in `from..t` beat the record. */
  function CountFrom(t: nat, record: nat, from: nat): nat
    decreases t - from
  {
    if from >= t then 0
    else (if Distance(from, t) > record then 1 else 0) + CountFrom(t, record, from + 1)
  }

  /** The count the race's closure returns: charging times in `1..t`. */
  function WinCount(t: nat, record: nat): (w: nat)
    ensures w == 0 <==> forall c :: 1 <= c < t ==> Distance(c, t) <= record
  {
    CountFromSet(t, record, 1);
    var winning := set c: nat | 1 <= c < t && Distance(c, t) > record;
    assert winning == {} <==> forall c :: 1 <= c < t ==> Distance(c, t) <= record by {
      assert forall c :: 1 <= c < t && Distance(c, t) > record ==> c in winning;
      if winning != {} {
        var c :| c in winning;
        assert 1 <= c < t && Distance(c, t) > record;
      }
    }
    CountFrom(t, record, 1)
  }

  lemma {:induction false} CountFromSet(t: nat, record: nat, from: nat)
    requires from >= 1
    ensures CountFrom(t, record, from) == |set c: nat | from <= c < t && Distance(c, t) > record|
    decreases t - from
  {
    var here := set c: nat | from <= c < t && Distance(c, t) > record;
    if from < t {
      CountFromSet(t, record, from + 1);
      var later := set c: nat | from + 1 <= c < t && Distance(c, t) > record;
      if Distance(from, t) > record {
        assert here == later + {from};
      } else {
        assert here == later;
      }
    } else {
      assert here == {};
    }
  }

  /** The count is the number of winning charging times. */
  lemma WinCountIsWinning(t: nat, record: nat)
    ensures WinCount(t, record) == |Winning(t, record)|
  {
    CountFromSet(t, record, 1);
    assert Winning(t, record) == set c: nat | 1 <= c < t && Distance(c, t) > record;
  }

  /** `c` wins exactly when `t - c` does. */
  lemma WinningSymmetric(t: nat, record: nat, c: nat)
    requires 1 <= c < t
    ensures c in Winning(t, record) <==> t - c in Winning(t, record)
  {
    DistanceSymmetric(c, t);
  }

  lemma {:induction false} CountLosing(t: nat, record: nat, from: nat, lo: nat)
    requires 1 <= lo && 2 * lo <= t && Distance(lo - 1, t) <= record
    requires t - lo < from
    ensures CountFrom(t, record, from) == 0
    decreases t - from
  {
    if from < t {
      DistanceSymmetric(from, t);
      DistanceGrows(t - from, lo - 1, t);
      CountLosing(t, record, from + 1, lo);
    }
  }

  lemma {:induction false} CountWinning(t: nat, record: nat, from: nat, lo: nat)
    requires 1 <= lo && 2 * lo <= t && Distance(lo - 1, t) <= record < Distance(lo, t)
    requires lo <= from <= t - lo + 1
    ensures CountFrom(t, record, from) == t - lo + 1 - from
    decreases t - from
  {
    if from <= t - lo {
      if 2 * from <= t {
        DistanceGrows(lo, from, t);
      } else {
        DistanceSymmetric(from, t);
        DistanceGrows(lo, t - from, t);
      }
      CountWinning(t, record, from + 1, lo);
    } else {
      CountLosing(t, record, from, lo);
    }
  }

  lemma {:induction false} CountBelow(t: nat, record: nat, from: nat, lo: nat)
    requires 1 <= lo && 2 * lo <= t && Distance(lo - 1, t) <= record
    requires 1 <= from <= lo
    ensures CountFrom(t, record, from) == CountFrom(t, record, lo)
    decreases lo - from
  {
    if from < lo {
      DistanceGrows(from, lo - 1, t);
      CountBelow(t, record, from + 1, lo);
    }
  }

  /** The winning charging times are the interval `lo..=t-lo`, where `lo` is the
      first one that beats the record. */
  lemma WinCountClosedForm(t: nat, record: nat, lo: nat)
    requires 1 <= lo && 2 * lo <= t && Distance(lo - 1, t) <= record < Distance(lo, t)
    ensures WinCount(t, record) == t + 1 - 2 * lo
  {
    CountBelow(t, record, 1, lo);
    CountWinning(t, record, lo, lo);
  }

  /** The product `fold(1, |acc, win| acc * win)`. */
  function Product(ws: seq<nat>): (p: nat)
    ensures p == 0 <==> exists i :: 0 <= i < |ws| && ws[i] == 0
  {
    if ws == [] then 1
    else
      var rest := Product(ws[1..]);
      assert forall i :: 1 <= i < |ws| ==> ws[i] == ws[1..][i - 1];
      assert rest == 0 ==> exists i :: 1 <= i < |ws| && ws[i] == 0;
      ws[0] * rest
  }

  /** The win count of each race, as `zip` pairs times with records. */
  function Wins(times: seq<nat>, records: seq<nat>): (ws: seq<nat>)
    ensures |ws| == if |times| < |records| then |times| else |records|
    ensures forall i :: 0 <= i < |ws| ==> ws[i] == WinCount(times[i], records[i])
  {
    if times == [] || records == [] then []
    else [WinCount(times[0], records[0])] + Wins(times[1..], records[1..])
  }

  /** `parse_numbers`: the numbers after the heading of a line; with
      `ignoreWhitespace` the spaces are removed first, so the digit groups join
      into one number. None where the `unwrap`s panic. */
  function ParseNumbers(line: seq<char>, ignoreWhitespace: bool): (r: Option<seq<nat>>)
    ensures SplitOnceWhitespace(line).None? ==> r.None?
  {
    match SplitOnceWhitespace(line)
    case None => None
    case Some((_, data)) =>
      var data := if ignoreWhitespace then Remove(data, ' ') else data;
      ParseAll(Words(data))
  }

  /** `analyze`: the product of the win counts of the races on the first two
      lines; None where the input has fewer lines or a `parse` panics. */
  function Analyze(lines: seq<seq<char>>, part: int): (r: Option<nat>)
    ensures |lines| < 2 ==> r.None?
  {
    if |lines| < 2 then None
    else
      match (ParseNumbers(lines[0], part == 2), ParseNumbers(lines[1], part == 2))
      case (Some(times), Some(records)) => Some(Product(Wins(times, records)))
      case _ => None
  }

  /** The example races: 4, 8 and 9 ways to win, 288 together. */
  lemma ExampleRaces()
    ensures Wins([7, 15, 30], [9, 40, 200]) == [4, 8, 9]
    ensures Product(Wins([7, 15, 30], [9, 40, 200])) == 288
  {
    WinCountClosedForm(7, 9, 2);
    WinCountClosedForm(15, 40, 4);
    WinCountClosedForm(30, 200, 11);
    var ws := Wins([7, 15, 30], [9, 40, 200]);
    assert ws == [4, 8, 9];
    assert Product([9]) == 9;
  }

  /** The joined race of 71530 milliseconds against 940200: 71503 ways to win. */
  lemma ExampleJoinedRace()
    ensures WinCount(71530, 940200) == 71503
  {
    WinCountClosedForm(71530, 940200, 14);
  }

  /** A line is its heading, one whitespace character and the data. */
  lemma ParseNumbersLabel(heading: seq<char>, data: seq<char>, ignoreWhitespace: bool)
    requires forall i :: 0 <= i < |heading| ==> !IsWhitespace(heading[i])
    ensures ParseNumbers(heading + " " + data, ignoreWhitespace) ==
              ParseAll(Words(if ignoreWhitespace then Remove(data, ' ') else data))
  {
    SplitOnceLead(heading, " " + data);
    assert heading + " " + data == heading + (" " + data);
    assert (" " + data)[1..] == data;
  }

  /** Once the spaces are gone, data without other whitespace is one word, so
      the joined race is a single number. */
  lemma JoinedSingleNumber(heading: seq<char>, data: seq<char>)
    requires forall i :: 0 <= i < |heading| ==> !IsWhitespace(heading[i])
    requires forall i :: 0 <= i < |data| ==> IsWhitespace(data[i]) ==> data[i] == ' '
    ensures ParseNumbers(heading + " " + data, true).Some? ==> |ParseNumbers(heading + " " + data, true).value| <= 1
  {
    ParseNumbersLabel(heading, data, true);
    var joined := Remove(data, ' ');
    forall i | 0 <= i < |joined|
      ensures !IsWhitespace(joined[i])
    {
      var x := joined[i];
      assert multiset(joined)[x] > 0;
      assert x in multiset(data);
    }
    WordsNoWhitespace(joined);
  }
}
