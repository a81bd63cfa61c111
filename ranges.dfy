/** The interval algebra of the seed almanac (src/puzzle05.rs): a `Range` is the
    half-open interval [start, start + size), a `RangeMap` translates one source
    range onto a target base, `Apply` splits a range against one map and
    `Normalized` sorts and merges a list of ranges.

    `Apply` and `Normalized(_, false)` are the code as written. `ApplyFixed` and
    `Normalized(_, true)` are the corrected definitions; the lemmas below say
    exactly where the two differ. */
module Ranges {
  import opened Text

  datatype Range = Range(start: nat, size: nat)

  /** A map from the source range `range` to `target`: `RangeMap::new(source, size, target)`. */
  datatype RangeMap = RangeMap(range: Range, target: nat)

  // ---------------------------------------------------------------------------
  // Range
  // ---------------------------------------------------------------------------

  predicate Contains(r: Range, v: nat)
  {
    r.start <= v < r.start + r.size
  }

  /** The last value of a non-empty range; `end()` underflows on a range of size 0 at 0. */
  function End(r: Range): (e: nat)
    requires r.size >= 1
    ensures Contains(r, e) && !Contains(r, e + 1)
  {
    r.start + r.size - 1
  }

  predicate ContainsEdges(r: Range, other: Range)
    requires other.size >= 1
  {
    Contains(r, other.start) || Contains(r, End(other))
  }

  predicate Overlaps(r: Range, other: Range)
    requires r.size >= 1 && other.size >= 1
  {
    ContainsEdges(r, other) || ContainsEdges(other, r)
  }

  /** Testing only the four edges is enough: two non-empty ranges overlap exactly
      when they share a value, whichever way round they are asked. */
  lemma OverlapsIffShared(a: Range, b: Range)
    requires a.size >= 1 && b.size >= 1
    ensures Overlaps(a, b) <==> exists v :: Contains(a, v) && Contains(b, v)
    ensures Overlaps(a, b) == Overlaps(b, a)
  {
    if Contains(a, b.start) {
      assert Contains(a, b.start) && Contains(b, b.start);
    } else if Contains(a, End(b)) {
      assert Contains(a, End(b)) && Contains(b, End(b));
    } else if Contains(b, a.start) {
      assert Contains(a, a.start) && Contains(b, a.start);
    } else if Contains(b, End(a)) {
      assert Contains(a, End(a)) && Contains(b, End(a));
    } else {
      forall v: nat | Contains(a, v)
        ensures !Contains(b, v)
      {
        if a.start <= b.start {
          assert v < b.start;
        } else {
          assert b.start + b.size <= a.start;
        }
      }
    }
  }

  /** `contains` tests the interval from the start to `end()`, both included;
      an empty range contains nothing. */
  lemma ContainsInterval(r: Range, v: nat)
    ensures Contains(r, v) <==> r.size >= 1 && r.start <= v <= End(r)
  {
  }

  /** The edge test of one range finds only shared values, and misses a
      shared value only when the other range reaches past it on both sides. */
  lemma EdgesOneWay(r: Range, other: Range)
    requires r.size >= 1 && other.size >= 1
    ensures ContainsEdges(r, other) ==> exists v :: Contains(r, v) && Contains(other, v)
    ensures (exists v :: Contains(r, v) && Contains(other, v)) && !ContainsEdges(r, other) ==>
              other.start < r.start && End(r) < End(other)
  {
    if ContainsEdges(r, other) {
      if Contains(r, other.start) {
        assert Contains(other, other.start);
      } else {
        assert Contains(other, End(other));
      }
    }
  }

  /** The source's overlap test: (2,3) misses (0,2) and (5,2) and meets (1,2), (4,2), (1,5) and (2,4). */
  lemma OverlapsExamples()
    ensures !Overlaps(Range(2, 3), Range(0, 2)) && !Overlaps(Range(2, 3), Range(5, 2))
    ensures Overlaps(Range(2, 3), Range(1, 2)) && Overlaps(Range(2, 3), Range(4, 2))
    ensures Overlaps(Range(2, 3), Range(1, 5)) && Overlaps(Range(2, 3), Range(2, 4))
  {
  }

  function Offset(r: Range, v: nat): (o: Option<nat>)
    ensures o.Some? <==> Contains(r, v)
    ensures o.Some? ==> r.start + o.value == v
  {
    if Contains(r, v) then Some(v - r.start) else None
  }

  // ---------------------------------------------------------------------------
  // RangeMap
  // ---------------------------------------------------------------------------

  predicate MapContains(m: RangeMap, v: nat)
  {
    Contains(m.range, v)
  }

  /** The translated value; `get` asserts containment first. */
  function Get(m: RangeMap, v: nat): (w: nat)
    requires MapContains(m, v)
    ensures Contains(Range(m.target, m.range.size), w)
    ensures w - m.target == v - m.range.start
  {
    m.target + Offset(m.range, v).value
  }

  /** Distinct values of a map's domain land on distinct targets. */
  lemma GetInjective(m: RangeMap, u: nat, v: nat)
    requires MapContains(m, u) && MapContains(m, v)
    ensures Get(m, u) == Get(m, v) <==> u == v
  {
  }

  /** The source's map test: (2,3)->7 holds 2, 3 and 4 but not 1 or 5, and sends them to 7, 8 and 9. */
  lemma MapExample()
    ensures var m := RangeMap(Range(2, 3), 7);
            !MapContains(m, 1) && MapContains(m, 2) && MapContains(m, 3) && MapContains(m, 4) && !MapContains(m, 5) &&
            Get(m, 2) == 7 && Get(m, 3) == 8 && Get(m, 4) == 9
  {
  }

  /** `RangeMap::apply` as written: the parts of `r` left unmapped and the parts
      translated, in the five cases of the source, tested in its order. */
  function Apply(m: RangeMap, r: Range): (parts: (seq<Range>, seq<Range>))
    requires m.range.size >= 1 && r.size >= 1
    ensures AllNonEmpty(parts.0) && AllNonEmpty(parts.1)
    ensures 1 <= |parts.0| + |parts.1| <= 3
    ensures forall x :: x in parts.1 ==> m.target <= x.start && x.start + x.size <= m.target + m.range.size
  {
    if Overlaps(m.range, r) then
      if !Contains(m.range, r.start) && MapContains(m, End(r)) then
        // start outside, end inside
        var difference := End(r) - m.range.start + 1;
        ([Range(r.start, r.size - difference)], [Range(Get(m, m.range.start), difference)])
      else if Contains(m.range, r.start) && !MapContains(m, End(r)) then
        // start inside, end outside
        var difference := m.range.size - (r.start - m.range.start);
        ([Range(End(m.range), r.size - difference)], [Range(Get(m, r.start), difference)])
      else if !Contains(m.range, r.start) && !MapContains(m, End(r)) then
        // start outside, end outside
        var difference2 := End(r) - m.range.start + 1;
        ([Range(r.start, m.range.start - r.start), Range(End(m.range) + 1, r.size - difference2)],
         [Range(m.target, m.range.size)])
      else
        ([], [Range(Get(m, r.start), r.size)])
    else
      ([r], [])
  }

  predicate AllNonEmpty(rs: seq<Range>)
  {
    forall i :: 0 <= i < |rs| ==> rs[i].size >= 1
  }

  // The geometric cases, named.

  /** `r` starts inside the map's domain and ends beyond it. */
  predicate HeadInside(m: RangeMap, r: Range)
    requires m.range.size >= 1 && r.size >= 1
  {
    Contains(m.range, r.start) && !Contains(m.range, End(r))
  }

  /** The map's domain lies strictly inside `r`. */
  predicate DomainInside(m: RangeMap, r: Range)
    requires m.range.size >= 1 && r.size >= 1
  {
    r.start < m.range.start && End(m.range) < End(r)
  }

  /** The corrected split: in the two defective cases the unmapped suffix is
      [End(domain) + 1, End(r)]; every other case is `Apply` unchanged. */
  function ApplyFixed(m: RangeMap, r: Range): (parts: (seq<Range>, seq<Range>))
    requires m.range.size >= 1 && r.size >= 1
    ensures Partitions(m, r, parts)
    ensures 1 <= |parts.0| + |parts.1| <= 3
  {
    if HeadInside(m, r) then
      HeadInsideLaw(m, r);
      ([Range(End(m.range) + 1, End(r) - End(m.range))], [Range(Get(m, r.start), End(m.range) - r.start + 1)])
    else if DomainInside(m, r) then
      DomainInsideLaw(m, r);
      ([Range(r.start, m.range.start - r.start), Range(End(m.range) + 1, End(r) - End(m.range))],
       [Range(m.target, m.range.size)])
    else
      ApplyPartitions(m, r);
      Apply(m, r)
  }

  /** The split as written (`fixed` false) or corrected (`fixed` true). */
  function ApplyWith(m: RangeMap, r: Range, fixed: bool): (parts: (seq<Range>, seq<Range>))
    requires m.range.size >= 1 && r.size >= 1
    ensures AllNonEmpty(parts.0) && AllNonEmpty(parts.1)
    ensures 1 <= |parts.0| + |parts.1| <= 3
  {
    if fixed then ApplyFixed(m, r) else Apply(m, r)
  }

  // ---------------------------------------------------------------------------
  // Value sets
  // ---------------------------------------------------------------------------

  ghost function Values(r: Range): set<nat>
  {
    set v: nat | v < r.start + r.size && Contains(r, v)
  }

  /** Every value some range of `rs` holds. */
  ghost function Span(rs: seq<Range>): set<nat>
  {
    if rs == [] then {} else Values(rs[0]) + Span(rs[1..])
  }

  /** The values of `s` the map leaves alone. */
  ghost function Outside(m: RangeMap, s: set<nat>): set<nat>
  {
    set v | v in s && !MapContains(m, v)
  }

  /** The images under the map of the values of `s` it covers. */
  ghost function Inside(m: RangeMap, s: set<nat>): set<nat>
  {
    set v | v in s && MapContains(m, v) :: Get(m, v)
  }

  ghost predicate Disjoint(rs: seq<Range>)
  {
    forall i, j, v :: 0 <= i < j < |rs| && Contains(rs[i], v) ==> !Contains(rs[j], v)
  }

  /** The coverage law of a split: the unmapped parts hold exactly the values of
      `r` outside the domain, the mapped parts exactly the images of the values
      inside it, no part is empty and the unmapped parts do not overlap. */
  ghost predicate Partitions(m: RangeMap, r: Range, parts: (seq<Range>, seq<Range>))
  {
    && Span(parts.0) == Outside(m, Values(r))
    && Span(parts.1) == Inside(m, Values(r))
    && AllNonEmpty(parts.0) && AllNonEmpty(parts.1)
    && Disjoint(parts.0)
  }

  lemma {:induction false} SpanAppend(a: seq<Range>, b: seq<Range>)
    ensures Span(a + b) == Span(a) + Span(b)
  {
    if a == [] {
      assert a + b == b;
    } else {
      assert (a + b)[0] == a[0];
      assert (a + b)[1..] == a[1..] + b;
      SpanAppend(a[1..], b);
    }
  }

  lemma SpanPair(a: Range, b: Range)
    ensures Span([a]) == Values(a)
    ensures Span([a, b]) == Values(a) + Values(b)
  {
    assert [a][1..] == [];
    assert Span([a]) == Values(a) + Span([]);
    assert [a, b][1..] == [b];
    assert Span([b]) == Values(b) + Span([]) by { assert [b][1..] == []; }
    assert Span([a, b]) == Values(a) + Span([b]);
  }

  lemma {:induction false} SpanContains(rs: seq<Range>, v: nat)
    ensures v in Span(rs) <==> exists i :: 0 <= i < |rs| && Contains(rs[i], v)
  {
    if rs != [] {
      SpanContains(rs[1..], v);
      if v in Span(rs[1..]) {
        var i :| 0 <= i < |rs[1..]| && Contains(rs[1..][i], v);
        assert Contains(rs[i + 1], v);
      }
      if exists i :: 0 <= i < |rs| && Contains(rs[i], v) {
        var i :| 0 <= i < |rs| && Contains(rs[i], v);
        if i > 0 {
          assert Contains(rs[1..][i - 1], v);
        }
      }
    }
  }

  /** Where the domain and `r` overlap, between `lo` and `hi` inclusive, the
      covered values map onto one interval and the rest of `r` is a prefix and a
      suffix. */
  lemma PartitionLaw(m: RangeMap, r: Range)
    requires m.range.size >= 1 && r.size >= 1
    ensures var lo := if r.start < m.range.start then m.range.start else r.start;
            var hi := if End(r) < End(m.range) then End(r) else End(m.range);
            if lo <= hi then
              && Inside(m, Values(r)) == Values(Range(m.target + (lo - m.range.start), hi - lo + 1))
              && Outside(m, Values(r)) == Values(Range(r.start, lo - r.start)) + Values(Range(hi + 1, End(r) - hi))
            else
              Inside(m, Values(r)) == {} && Outside(m, Values(r)) == Values(r)
  {
    var lo := if r.start < m.range.start then m.range.start else r.start;
    var hi := if End(r) < End(m.range) then End(r) else End(m.range);
    if lo <= hi {
      var image := Range(m.target + (lo - m.range.start), hi - lo + 1);
      forall w | w in Values(image)
        ensures w in Inside(m, Values(r))
      {
        var v := m.range.start + (w - m.target);
        assert v in Values(r) && MapContains(m, v) && Get(m, v) == w;
      }
      assert Inside(m, Values(r)) == Values(image);
      assert Outside(m, Values(r)) == Values(Range(r.start, lo - r.start)) + Values(Range(hi + 1, End(r) - hi));
    } else {
      assert Outside(m, Values(r)) == Values(r);
    }
  }

  // ---------------------------------------------------------------------------
  // How Apply as written relates to the coverage law
  // ---------------------------------------------------------------------------

  /** `Apply` agrees with the corrected split everywhere except the
      start-inside-end-outside case, and the domain-inside case when the prefix
      before the domain and the suffix after it differ in length. */
  lemma ApplyAgreesWithFixed(m: RangeMap, r: Range)
    requires m.range.size >= 1 && r.size >= 1
    ensures Apply(m, r) == ApplyFixed(m, r) <==>
              !HeadInside(m, r) && !(DomainInside(m, r) && m.range.start - r.start != End(r) - End(m.range))
  {
    if DomainInside(m, r) {
      assert Overlaps(m.range, r) by { assert Contains(r, m.range.start); }
    }
  }

  /** Hence `Apply` satisfies the coverage law outside those two cases. */
  lemma ApplyPartitions(m: RangeMap, r: Range)
    requires m.range.size >= 1 && r.size >= 1
    requires !HeadInside(m, r)
    requires DomainInside(m, r) ==> m.range.start - r.start == End(r) - End(m.range)
    ensures Partitions(m, r, Apply(m, r))
  {
    if !Overlaps(m.range, r) {
      DisjointLaw(m, r);
    } else if !Contains(m.range, r.start) && MapContains(m, End(r)) {
      TailInsideLaw(m, r);
    } else if DomainInside(m, r) {
      DomainInsideLaw(m, r);
    } else {
      WithinLaw(m, r);
    }
  }

  /** A range the domain does not touch stays whole and unmapped. */
  lemma DisjointLaw(m: RangeMap, r: Range)
    requires m.range.size >= 1 && r.size >= 1
    requires !Overlaps(m.range, r)
    ensures Partitions(m, r, ([r], []))
  {
    PartitionLaw(m, r);
    SpanPair(r, r);
  }

  /** A range that starts before the domain and ends inside it. */
  lemma TailInsideLaw(m: RangeMap, r: Range)
    requires m.range.size >= 1 && r.size >= 1
    requires r.start < m.range.start && Contains(m.range, End(r))
    ensures Partitions(m, r, ([Range(r.start, m.range.start - r.start)],
                              [Range(m.target, End(r) - m.range.start + 1)]))
  {
    PartitionLaw(m, r);
    var prefix := Range(r.start, m.range.start - r.start);
    SpanPair(prefix, prefix);
    var image := Range(m.target, End(r) - m.range.start + 1);
    SpanPair(image, image);
  }

  /** A range that lies inside the domain is mapped whole. */
  lemma WithinLaw(m: RangeMap, r: Range)
    requires m.range.size >= 1 && r.size >= 1
    requires Contains(m.range, r.start) && Contains(m.range, End(r))
    ensures Partitions(m, r, ([], [Range(Get(m, r.start), r.size)]))
  {
    PartitionLaw(m, r);
    var image := Range(Get(m, r.start), r.size);
    SpanPair(image, image);
  }

  /** The corrected split of a range that starts inside the domain and ends beyond it. */
  lemma HeadInsideLaw(m: RangeMap, r: Range)
    requires m.range.size >= 1 && r.size >= 1
    requires HeadInside(m, r)
    ensures Partitions(m, r, ([Range(End(m.range) + 1, End(r) - End(m.range))],
                              [Range(Get(m, r.start), End(m.range) - r.start + 1)]))
  {
    PartitionLaw(m, r);
    var suffix := Range(End(m.range) + 1, End(r) - End(m.range));
    SpanPair(suffix, suffix);
    var image := Range(Get(m, r.start), End(m.range) - r.start + 1);
    SpanPair(image, image);
  }

  /** The corrected split of a range that holds the whole domain strictly inside it. */
  lemma DomainInsideLaw(m: RangeMap, r: Range)
    requires m.range.size >= 1 && r.size >= 1
    requires DomainInside(m, r)
    ensures Partitions(m, r, ([Range(r.start, m.range.start - r.start), Range(End(m.range) + 1, End(r) - End(m.range))],
                              [Range(m.target, m.range.size)]))
  {
    PartitionLaw(m, r);
    SpanPair(Range(r.start, m.range.start - r.start), Range(End(m.range) + 1, End(r) - End(m.range)));
    var image := Range(m.target, m.range.size);
    SpanPair(image, image);
  }

  /** Start inside, end outside, as written: the sizes still add up to `r.size`,
      but the unmapped part starts at End(domain), one too low, so it holds a
      value of the domain and misses the last value of `r`, which nothing maps. */
  lemma ApplyHeadInsideShifted(m: RangeMap, r: Range)
    requires m.range.size >= 1 && r.size >= 1
    requires HeadInside(m, r)
    ensures var (unmapped, mapped) := Apply(m, r);
            && |unmapped| == 1 && |mapped| == 1
            && unmapped[0].start == End(m.range)
            && unmapped[0].size + mapped[0].size == r.size
            && End(m.range) in Span(unmapped) && MapContains(m, End(m.range))
            && End(r) !in Span(unmapped) && !MapContains(m, End(r))
            && !Partitions(m, r, Apply(m, r))
  {
    var (unmapped, mapped) := Apply(m, r);
    SpanPair(unmapped[0], unmapped[0]);
    assert Overlaps(m.range, r) by { assert Contains(m.range, r.start); }
    assert End(r) in Outside(m, Values(r));
  }

  /** Domain inside `r`, as written: the suffix after the domain is given the
      length of the prefix before it, so the split drops the values beyond it
      when the suffix is longer and invents values past End(r) when it is shorter. */
  lemma ApplyDomainInsideSuffix(m: RangeMap, r: Range)
    requires m.range.size >= 1 && r.size >= 1
    requires DomainInside(m, r)
    ensures var (unmapped, mapped) := Apply(m, r);
            && |unmapped| == 2 && |mapped| == 1
            && unmapped[1].start == End(m.range) + 1
            && unmapped[1].size == unmapped[0].size == m.range.start - r.start
            && (unmapped[0].size < End(r) - End(m.range) ==> End(r) !in Span(unmapped) && End(r) in Outside(m, Values(r)))
            && (unmapped[0].size > End(r) - End(m.range) ==> End(r) + 1 in Span(unmapped) && End(r) + 1 !in Values(r))
  {
    assert Overlaps(m.range, r) by { assert Contains(r, m.range.start); }
    var (unmapped, mapped) := Apply(m, r);
    SpanPair(unmapped[0], unmapped[1]);
  }

  // The source's tests, one lemma each: map (2,3)->10 or (2,3)->7 on ranges below,
  // above, overlapping from below, from above, around and inside the domain.

  lemma ApplyBelowRange()
    ensures Apply(RangeMap(Range(2, 3), 10), Range(0, 2)) == ([Range(0, 2)], [])
  {
    assert !Overlaps(Range(2, 3), Range(0, 2));
  }

  lemma ApplyAboveRange()
    ensures Apply(RangeMap(Range(2, 3), 7), Range(5, 2)) == ([Range(5, 2)], [])
  {
  }

  lemma ApplyOverlappingBelow()
    ensures Apply(RangeMap(Range(2, 3), 7), Range(0, 5)) == ([Range(0, 2)], [Range(7, 3)])
    ensures Apply(RangeMap(Range(3, 3), 10), Range(0, 5)) == ([Range(0, 3)], [Range(10, 2)])
  {
  }

  /** The first test of this shape, on (2,5), is ApplyHeadInsideCounterexample. */
  lemma ApplyOverlappingAbove()
    ensures Apply(RangeMap(Range(2, 3), 10), Range(3, 5)) == ([Range(4, 3)], [Range(11, 2)])
  {
  }

  lemma ApplyOverlappingFully()
    ensures Apply(RangeMap(Range(2, 3), 10), Range(0, 7)) == ([Range(0, 2), Range(5, 2)], [Range(10, 3)])
  {
  }

  lemma ApplyInside()
    ensures Apply(RangeMap(Range(2, 5), 10), Range(2, 2)) == ([], [Range(10, 2)])
  {
  }

  /** The pinned output ([(4,2)], [(10,3)]) on (2,5) leaves the domain value 4
      unmapped and loses 6; the corrected split gives ([(5,2)], [(10,3)]). */
  lemma ApplyHeadInsideCounterexample()
    ensures Apply(RangeMap(Range(2, 3), 10), Range(2, 5)) == ([Range(4, 2)], [Range(10, 3)])
    ensures ApplyFixed(RangeMap(Range(2, 3), 10), Range(2, 5)) == ([Range(5, 2)], [Range(10, 3)])
  {
  }

  /** On (0,8), prefix 2 and suffix 3 differ: the value 7 is lost as written. */
  lemma ApplyDomainInsideCounterexample()
    ensures Apply(RangeMap(Range(2, 3), 10), Range(0, 8)) == ([Range(0, 2), Range(5, 2)], [Range(10, 3)])
    ensures ApplyFixed(RangeMap(Range(2, 3), 10), Range(0, 8)) == ([Range(0, 2), Range(5, 3)], [Range(10, 3)])
  {
  }

  // ---------------------------------------------------------------------------
  // Normalization
  // ---------------------------------------------------------------------------

  predicate SortedByStart(rs: seq<Range>)
  {
    forall i, j :: 0 <= i < j < |rs| ==> rs[i].start <= rs[j].start
  }

  /** Consecutive ranges leave a gap of at least one value between them, so
      starts strictly increase and no two ranges touch. */
  predicate Separated(rs: seq<Range>)
  {
    forall i :: 0 <= i < |rs| - 1 ==> rs[i].start + rs[i].size < rs[i + 1].start
  }

  /** Places `x` before the first range that starts at or after it. */
  function InsertByStart(x: Range, s: seq<Range>): (t: seq<Range>)
  {
    if s == [] || x.start <= s[0].start then [x] + s
    else [s[0]] + InsertByStart(x, s[1..])
  }

  lemma {:induction false} InsertByStartPermutes(x: Range, s: seq<Range>)
    ensures multiset(InsertByStart(x, s)) == multiset(s) + multiset{x}
  {
    if s != [] && x.start > s[0].start {
      assert s == [s[0]] + s[1..];
      InsertByStartPermutes(x, s[1..]);
    }
  }

  lemma {:induction false} InsertByStartSorted(x: Range, s: seq<Range>)
    requires SortedByStart(s)
    ensures SortedByStart(InsertByStart(x, s))
  {
    if s != [] && x.start > s[0].start {
      InsertByStartSorted(x, s[1..]);
      var rest := InsertByStart(x, s[1..]);
      InsertByStartPermutes(x, s[1..]);
      forall k | 0 <= k < |rest|
        ensures s[0].start <= rest[k].start
      {
        assert rest[k] in multiset(rest);
        assert rest[k] == x || rest[k] in multiset(s[1..]);
      }
    }
  }

  /** `sort_by` on the start: stable, so ranges with equal starts keep their order. */
  function SortByStart(rs: seq<Range>): (sorted: seq<Range>)
    ensures SortedByStart(sorted)
    ensures multiset(sorted) == multiset(rs)
  {
    if rs == [] then []
    else
      assert rs == [rs[0]] + rs[1..];
      InsertByStartPermutes(rs[0], SortByStart(rs[1..]));
      InsertByStartSorted(rs[0], SortByStart(rs[1..]));
      InsertByStart(rs[0], SortByStart(rs[1..]))
  }

  /** As written: the merged range runs from `current.start` to the end of `next`. */
  function Absorb(current: Range, next: Range): (merged: Range)
    requires next.size >= 1 && current.start <= next.start
    ensures merged.size >= 1 && merged.start == current.start && End(merged) == End(next)
  {
    Range(current.start, End(next) - current.start + 1)
  }

  /** Corrected: the merged range runs to the later of the two ends. */
  function AbsorbFixed(current: Range, next: Range): Range
    requires current.size >= 1 && next.size >= 1 && current.start <= next.start
  {
    var last := if End(current) < End(next) then End(next) else End(current);
    Range(current.start, last - current.start + 1)
  }

  /** The merge as written loses values exactly when `next` ends before `current` does. */
  lemma AbsorbCovers(current: Range, next: Range)
    requires current.size >= 1 && next.size >= 1 && current.start <= next.start <= End(current) + 1
    ensures Values(AbsorbFixed(current, next)) == Values(current) + Values(next)
    ensures Values(Absorb(current, next)) == Values(current) + Values(next) <==> End(current) <= End(next)
  {
    if End(next) < End(current) {
      assert End(current) !in Values(Absorb(current, next));
    }
  }

  /** The scan of `normalize`: merge each next range into `current` while it
      starts no later than one past the end of `current`, else emit `current`. */
  function MergeFrom(current: Range, rest: seq<Range>, fixed: bool): (merged: seq<Range>)
    requires current.size >= 1 && AllNonEmpty(rest) && SortedByStart(rest)
    requires rest != [] ==> current.start <= rest[0].start
    ensures |merged| >= 1 && |merged| <= |rest| + 1 && merged[0].start == current.start
    ensures AllNonEmpty(merged) && Separated(merged)
    decreases |rest|
  {
    if rest == [] then [current]
    else if rest[0].start <= End(current) + 1 then
      MergeFrom(if fixed then AbsorbFixed(current, rest[0]) else Absorb(current, rest[0]), rest[1..], fixed)
    else
      [current] + MergeFrom(rest[0], rest[1..], fixed)
  }

  /** `normalize`: sort by start, then merge. `fixed` selects the corrected merge. */
  function Normalized(rs: seq<Range>, fixed: bool): (n: seq<Range>)
    requires AllNonEmpty(rs)
    ensures |n| == 0 <==> |rs| == 0
    ensures |n| <= |rs|
    ensures AllNonEmpty(n) && Separated(n)
  {
    var sorted := SortByStart(rs);
    MultisetNonEmpty(sorted, rs);
    if sorted == [] then [] else MergeFrom(sorted[0], sorted[1..], fixed)
  }

  lemma MultisetNonEmpty(sorted: seq<Range>, rs: seq<Range>)
    requires multiset(sorted) == multiset(rs) && AllNonEmpty(rs)
    ensures AllNonEmpty(sorted) && |sorted| == |rs|
  {
    forall i | 0 <= i < |sorted|
      ensures sorted[i].size >= 1
    {
      assert sorted[i] in multiset(rs);
    }
    assert |multiset(sorted)| == |multiset(rs)|;
  }

  /** The as-written merge of `current` with the suffix of `s` from `i`. */
  ghost function MergeTail(current: Range, s: seq<Range>, i: nat): seq<Range>
    requires current.size >= 1 && AllNonEmpty(s) && SortedByStart(s)
    requires i <= |s| && (i < |s| ==> current.start <= s[i].start)
  {
    assert AllNonEmpty(s[i..]) && SortedByStart(s[i..]);
    MergeFrom(current, s[i..], false)
  }

  /** One step of the scan at index `i` of `s`: what `MergeScan` still has to
      produce after `updated` is unchanged by absorbing `s[i]` or by pushing
      `current` and starting again from `s[i]`. */
  lemma MergeFromStep(updated: seq<Range>, current: Range, s: seq<Range>, i: nat)
    requires current.size >= 1 && AllNonEmpty(s) && SortedByStart(s)
    requires i < |s| && current.start <= s[i].start
    ensures i + 1 < |s| ==> s[i].start <= s[i + 1].start
    ensures s[i].start <= End(current) + 1 ==>
      updated + MergeTail(current, s, i) == updated + MergeTail(Range(current.start, End(s[i]) - current.start + 1), s, i + 1)
    ensures s[i].start > End(current) + 1 ==>
      updated + MergeTail(current, s, i) == (updated + [current]) + MergeTail(s[i], s, i + 1)
  {
    assert s[i..][1..] == s[i + 1..];
    if s[i].start > End(current) + 1 {
      var pending := MergeTail(s[i], s, i + 1);
      assert MergeTail(current, s, i) == [current] + pending;
      assert updated + ([current] + pending) == (updated + [current]) + pending;
    }
  }

  /** `normalize` as written: sort, then merge in one scan. */
  method Normalize(ranges: seq<Range>) returns (updated: seq<Range>)
    requires AllNonEmpty(ranges)
    ensures updated == Normalized(ranges, false)
  {
    var sorted := SortByStart(ranges);
    MultisetNonEmpty(sorted, ranges);
    if |sorted| == 0 {
      return [];
    }
    updated := MergeScan(sorted);
  }

  /** The scan of `normalize`: keeps the range being built in `current` and
      pushes each finished range onto `updated`. */
  method MergeScan(sorted: seq<Range>) returns (updated: seq<Range>)
    requires sorted != [] && AllNonEmpty(sorted) && SortedByStart(sorted)
    ensures updated == MergeFrom(sorted[0], sorted[1..], false)
  {
    ghost var goal := MergeTail(sorted[0], sorted, 1);
    updated := [];
    var current := sorted[0];
    var i := 1;
    while i < |sorted|
      invariant 1 <= i <= |sorted|
      invariant current.size >= 1
      invariant i < |sorted| ==> current.start <= sorted[i].start
      invariant updated + MergeTail(current, sorted, i) == goal
    {
      var range := sorted[i];
      MergeFromStep(updated, current, sorted, i);
      if range.start <= End(current) + 1 {
        current := Range(current.start, End(range) - current.start + 1);
      } else {
        updated := updated + [current];
        current := range;
      }
      i := i + 1;
    }
    updated := updated + [current];
    assert updated == goal;
  }

  lemma {:induction false} SpanMember(rs: seq<Range>, v: nat)
    ensures v in Span(rs) <==> exists x :: x in rs && Contains(x, v)
  {
    if rs != [] {
      SpanMember(rs[1..], v);
      if v in Span(rs[1..]) {
        var x :| x in rs[1..] && Contains(x, v);
        assert x in rs;
      }
      if exists x :: x in rs && Contains(x, v) {
        var x :| x in rs && Contains(x, v);
        if x != rs[0] {
          assert x in rs[1..];
        }
      }
    }
  }

  /** The span depends only on which ranges are present, not on their order. */
  lemma SpanPermutation(a: seq<Range>, b: seq<Range>)
    requires multiset(a) == multiset(b)
    ensures Span(a) == Span(b)
  {
    forall v | v in Span(a)
      ensures v in Span(b)
    {
      SpanMember(a, v);
      SpanMember(b, v);
      var x :| x in a && Contains(x, v);
      assert x in multiset(b);
    }
    forall v | v in Span(b)
      ensures v in Span(a)
    {
      SpanMember(a, v);
      SpanMember(b, v);
      var x :| x in b && Contains(x, v);
      assert x in multiset(a);
    }
  }

  /** The corrected merge keeps exactly the values of the ranges it scans. */
  lemma {:induction false} MergeFromFixedSpan(current: Range, rest: seq<Range>)
    requires current.size >= 1 && AllNonEmpty(rest) && SortedByStart(rest)
    requires rest != [] ==> current.start <= rest[0].start
    ensures Span(MergeFrom(current, rest, true)) == Values(current) + Span(rest)
    decreases |rest|
  {
    if rest == [] {
      SpanPair(current, current);
    } else if rest[0].start <= End(current) + 1 {
      AbsorbCovers(current, rest[0]);
      MergeFromFixedSpan(AbsorbFixed(current, rest[0]), rest[1..]);
    } else {
      MergeFromFixedSpan(rest[0], rest[1..]);
      SpanAppend([current], MergeFrom(rest[0], rest[1..], true));
      SpanPair(current, current);
    }
  }

  /** Corrected `normalize` represents the same values as its input. */
  lemma NormalizedFixedCovers(rs: seq<Range>)
    requires AllNonEmpty(rs)
    ensures Span(Normalized(rs, true)) == Span(rs)
  {
    var sorted := SortByStart(rs);
    SpanPermutation(sorted, rs);
    MultisetNonEmpty(sorted, rs);
    if sorted != [] {
      MergeFromFixedSpan(sorted[0], sorted[1..]);
      assert sorted == [sorted[0]] + sorted[1..];
      SpanAppend([sorted[0]], sorted[1..]);
      SpanPair(sorted[0], sorted[0]);
    }
  }

  /** Both merges keep the smallest start: the first output range starts at the
      lowest start of the input, which is what the engine reads off at the end. */
  lemma NormalizedLowest(rs: seq<Range>, fixed: bool)
    requires AllNonEmpty(rs) && rs != []
    ensures forall i :: 0 <= i < |rs| ==> Normalized(rs, fixed)[0].start <= rs[i].start
    ensures exists i :: 0 <= i < |rs| && rs[i].start == Normalized(rs, fixed)[0].start
  {
    var sorted := SortByStart(rs);
    MultisetNonEmpty(sorted, rs);
    forall i | 0 <= i < |rs|
      ensures sorted[0].start <= rs[i].start
    {
      assert rs[i] in multiset(sorted);
    }
    assert sorted[0] in multiset(rs);
  }

  /** With the corrected merge, the first start is the smallest value held. */
  lemma NormalizedFixedMinimum(rs: seq<Range>)
    requires AllNonEmpty(rs) && rs != []
    ensures Normalized(rs, true)[0].start in Span(rs)
    ensures forall v :: v in Span(rs) ==> Normalized(rs, true)[0].start <= v
  {
    var n := Normalized(rs, true);
    NormalizedFixedCovers(rs);
    NormalizedLowest(rs, true);
    SpanMember(n, n[0].start);
    assert n[0] in n && Contains(n[0], n[0].start);
    forall v | v in Span(rs)
      ensures n[0].start <= v
    {
      SpanMember(rs, v);
      var x :| x in rs && Contains(x, v);
      var i :| 0 <= i < |rs| && rs[i] == x;
    }
  }

  lemma {:induction false} SeparatedSorted(rs: seq<Range>)
    requires Separated(rs)
    ensures SortedByStart(rs)
    decreases |rs|
  {
    if |rs| > 1 {
      SeparatedSorted(rs[1..]);
      forall i, j | 0 <= i < j < |rs|
        ensures rs[i].start <= rs[j].start
      {
        if i > 0 {
          assert rs[1..][i - 1] == rs[i] && rs[1..][j - 1] == rs[j];
        } else if j > 1 {
          assert rs[1..][0] == rs[1] && rs[1..][j - 1] == rs[j];
        }
      }
    }
  }

  lemma {:induction false} SortSortedIdentity(rs: seq<Range>)
    requires SortedByStart(rs)
    ensures SortByStart(rs) == rs
  {
    if rs != [] {
      SortSortedIdentity(rs[1..]);
      assert rs == [rs[0]] + rs[1..];
    }
  }

  lemma SeparatedTail(s: seq<Range>)
    requires s != [] && AllNonEmpty(s) && Separated(s)
    ensures AllNonEmpty(s[1..]) && Separated(s[1..]) && SortedByStart(s[1..])
    ensures |s| > 1 ==> s[1].start > End(s[0]) + 1
  {
    SeparatedSorted(s);
  }

  /** A next range that starts past `End(current) + 1` closes `current`. */
  lemma MergeFromGap(current: Range, rest: seq<Range>, fixed: bool)
    requires current.size >= 1 && AllNonEmpty(rest) && SortedByStart(rest)
    requires rest != [] && rest[0].start > End(current) + 1
    ensures MergeFrom(current, rest, fixed) == [current] + MergeFrom(rest[0], rest[1..], fixed)
  {
  }

  lemma {:induction false} MergeSeparatedIdentity(s: seq<Range>, fixed: bool)
    requires s != [] && AllNonEmpty(s) && Separated(s)
    ensures SortedByStart(s[1..]) && (|s| > 1 ==> s[0].start <= s[1].start)
    ensures MergeFrom(s[0], s[1..], fixed) == s
    decreases |s|
  {
    SeparatedTail(s);
    if |s| > 1 {
      var t := s[1..];
      MergeSeparatedIdentity(t, fixed);
      assert MergeFrom(t[0], t[1..], fixed) == t;
      MergeFromGap(s[0], t, fixed);
      assert MergeFrom(s[0], t, fixed) == [s[0]] + t;
      assert [s[0]] + t == s;
    }
  }

  /** Ranges already apart and in order come out of `normalize` unchanged. */
  lemma NormalizedSeparated(rs: seq<Range>, fixed: bool)
    requires AllNonEmpty(rs) && Separated(rs)
    ensures Normalized(rs, fixed) == rs
  {
    SeparatedSorted(rs);
    SortSortedIdentity(rs);
    if rs != [] {
      MergeSeparatedIdentity(rs, fixed);
    }
  }

  /** `normalize` leaves its own output unchanged, as written and corrected. */
  lemma NormalizedIdempotent(rs: seq<Range>, fixed: bool)
    requires AllNonEmpty(rs)
    ensures Normalized(Normalized(rs, fixed), fixed) == Normalized(rs, fixed)
  {
    var n := Normalized(rs, fixed);
    SeparatedSorted(n);
    SortSortedIdentity(n);
    if n != [] {
      MergeSeparatedIdentity(n, fixed);
    }
  }

  /** The source's tests: touching ranges merge, a gap of one value is kept. */
  lemma NormalizeNeighbours()
    ensures Normalized([Range(0, 2), Range(2, 2)], false) == [Range(0, 4)]
    ensures Normalized([], false) == []
  {
    SortSortedIdentity([Range(0, 2), Range(2, 2)]);
  }

  lemma NormalizeKeepsGaps()
    ensures Normalized([Range(0, 2), Range(3, 2)], false) == [Range(0, 2), Range(3, 2)]
  {
    SortSortedIdentity([Range(0, 2), Range(3, 2)]);
  }

  /** A later range inside the accumulator shrinks it as written: (0,10) and
      (2,2) give (0,4), so the value 5 is lost; corrected, the result is (0,10). */
  lemma NormalizeShrinksCounterexample()
    ensures Normalized([Range(0, 10), Range(2, 2)], false) == [Range(0, 4)]
    ensures 5 in Span([Range(0, 10), Range(2, 2)]) && 5 !in Span([Range(0, 4)])
    ensures Normalized([Range(0, 10), Range(2, 2)], true) == [Range(0, 10)]
  {
    SortSortedIdentity([Range(0, 10), Range(2, 2)]);
    SpanPair(Range(0, 10), Range(2, 2));
    SpanPair(Range(0, 4), Range(0, 4));
  }

  /** With equal starts the stable sort keeps input order, and as written the
      last range of the group decides the merged end. */
  lemma NormalizeOrderMatters()
    ensures Normalized([Range(0, 10), Range(0, 3)], false) == [Range(0, 3)]
  {
    SortSortedIdentity([Range(0, 10), Range(0, 3)]);
  }

  lemma NormalizeOrderMattersSwapped()
    ensures Normalized([Range(0, 3), Range(0, 10)], false) == [Range(0, 10)]
  {
    SortSortedIdentity([Range(0, 3), Range(0, 10)]);
  }
}
