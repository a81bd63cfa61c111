/** The drivers of the almanac puzzle: a chain of stages, each a list of range
    maps, pushes single seeds (`map_value`) or whole seed ranges (`apply_map`)
    through to locations, and `analyze` keeps the lowest location.

    Point semantics: `StageValue` / `ChainValue`. Interval semantics: the worklist
    engine `RunMaps` / `RunStages` / `LowestFrom`, as written (`fixed` false) or
    with the corrected split and merge of module Ranges (`fixed` true). The two
    theorems at the end say that on one-value ranges both engines agree with the
    point semantics, and that the corrected engine yields exactly the lowest
    location of any seed in the range. */
module Almanac {
  import opened Text
  import opened Ranges

  /** `usize::MAX` on a 64-bit target, the start value of `analyze`'s minimum. */
  const UsizeMax: nat := 0xFFFF_FFFF_FFFF_FFFF

  /** Every map of a stage has a non-empty domain. */
  predicate ValidStage(maps: seq<RangeMap>)
  {
    forall k :: 0 <= k < |maps| ==> maps[k].range.size >= 1
  }

  predicate ValidChain(chain: seq<seq<RangeMap>>)
  {
    forall s :: 0 <= s < |chain| ==> ValidStage(chain[s])
  }

  lemma ValidTails(maps: seq<RangeMap>, chain: seq<seq<RangeMap>>)
    ensures ValidStage(maps) && maps != [] ==> ValidStage(maps[1..])
    ensures ValidChain(chain) && chain != [] ==> ValidStage(chain[0]) && ValidChain(chain[1..])
  {
    assert forall k :: 1 <= k < |maps| ==> maps[1..][k - 1] == maps[k];
    assert forall k :: 1 <= k < |chain| ==> chain[1..][k - 1] == chain[k];
  }

  // ---------------------------------------------------------------------------
  // Point semantics: map_value
  // ---------------------------------------------------------------------------

  /** `maps[k]` is the first map of the stage that holds `v`. */
  predicate FirstHolder(maps: seq<RangeMap>, k: nat, v: nat)
    requires k < |maps|
  {
    MapContains(maps[k], v) && forall j :: 0 <= j < k ==> !MapContains(maps[j], v)
  }

  /** One stage on one value: the first map that holds `v` translates it; a
      value no map holds passes through unchanged. */
  function StageValue(maps: seq<RangeMap>, v: nat): (w: nat)
    requires ValidStage(maps)
    ensures (forall k :: 0 <= k < |maps| ==> !MapContains(maps[k], v)) ==> w == v
    ensures forall k: nat :: k < |maps| && FirstHolder(maps, k, v) ==> w == Get(maps[k], v)
  {
    if maps == [] then v
    else if MapContains(maps[0], v) then Get(maps[0], v)
    else
      assert forall k :: 1 <= k < |maps| ==> maps[1..][k - 1] == maps[k];
      StageValue(maps[1..], v)
  }

  /** The whole chain on one value, stage after stage. */
  function ChainValue(chain: seq<seq<RangeMap>>, v: nat): nat
    requires ValidChain(chain)
  {
    if chain == [] then v else ChainValue(chain[1..], StageValue(chain[0], v))
  }

  /** `map_value`: per stage, scan the maps and stop at the first that holds the value. */
  method MapValue(chain: seq<seq<RangeMap>>, seed: nat) returns (value: nat)
    requires ValidChain(chain)
    ensures value == ChainValue(chain, seed)
  {
    value := seed;
    var k := 0;
    while k < |chain|
      invariant 0 <= k <= |chain|
      invariant ChainValue(chain[k..], value) == ChainValue(chain, seed)
    {
      var maps := chain[k];
      ghost var before := value;
      var j := 0;
      while j < |maps|
        invariant 0 <= j <= |maps| && value == before
        invariant StageValue(maps[j..], before) == StageValue(maps, before)
      {
        if MapContains(maps[j], value) {
          value := Get(maps[j], value);
          break;
        }
        assert maps[j..][1..] == maps[j + 1..];
        j := j + 1;
      }
      assert chain[k..][1..] == chain[k + 1..];
      k := k + 1;
    }
  }

  // ---------------------------------------------------------------------------
  // Interval semantics: apply_map
  // ---------------------------------------------------------------------------

  /** One map applied to every range of the worklist in order, the unmapped and
      the mapped parts each concatenated in that order. */
  function ApplyEach(m: RangeMap, rs: seq<Range>, fixed: bool): (parts: (seq<Range>, seq<Range>))
    requires m.range.size >= 1 && AllNonEmpty(rs)
    ensures AllNonEmpty(parts.0) && AllNonEmpty(parts.1)
    ensures |rs| <= |parts.0| + |parts.1| <= 3 * |rs|
  {
    if rs == [] then ([], [])
    else
      var (unmapped, mapped) := ApplyEach(m, rs[..|rs| - 1], fixed);
      var (u, v) := ApplyWith(m, rs[|rs| - 1], fixed);
      (unmapped + u, mapped + v)
  }

  /** One map of a stage: normalize the unmapped worklist, split it, and move the
      translated parts to the mapped worklist, where later maps of the stage do
      not see them. */
  function StepMap(m: RangeMap, unmapped: seq<Range>, mapped: seq<Range>, fixed: bool): (next: (seq<Range>, seq<Range>))
    requires m.range.size >= 1 && AllNonEmpty(unmapped) && AllNonEmpty(mapped)
    ensures AllNonEmpty(next.0) && AllNonEmpty(next.1)
    ensures |unmapped| + |mapped| >= 1 ==> |next.0| + |next.1| >= 1
  {
    var (u, v) := ApplyEach(m, Normalized(unmapped, fixed), fixed);
    (u, mapped + v)
  }

  /** The maps of one stage in order. */
  function RunMaps(maps: seq<RangeMap>, unmapped: seq<Range>, mapped: seq<Range>, fixed: bool): (last: (seq<Range>, seq<Range>))
    requires ValidStage(maps) && AllNonEmpty(unmapped) && AllNonEmpty(mapped)
    ensures AllNonEmpty(last.0) && AllNonEmpty(last.1)
    ensures |unmapped| + |mapped| >= 1 ==> |last.0| + |last.1| >= 1
    decreases |maps|
  {
    if maps == [] then (unmapped, mapped)
    else
      var (u, v) := StepMap(maps[0], unmapped, mapped, fixed);
      RunMaps(maps[1..], u, v, fixed)
  }

  /** The stages in order; each starts by moving the mapped worklist back into
      the unmapped one. */
  function RunStages(chain: seq<seq<RangeMap>>, unmapped: seq<Range>, mapped: seq<Range>, fixed: bool): (last: (seq<Range>, seq<Range>))
    requires ValidChain(chain) && AllNonEmpty(unmapped) && AllNonEmpty(mapped)
    ensures AllNonEmpty(last.0) && AllNonEmpty(last.1)
    ensures |unmapped| + |mapped| >= 1 ==> |last.0| + |last.1| >= 1
    decreases |chain|
  {
    if chain == [] then (unmapped, mapped)
    else
      var (u, v) := RunMaps(chain[0], unmapped + mapped, [], fixed);
      RunStages(chain[1..], u, v, fixed)
  }

  /** What `apply_map` returns: the first start after the final normalize. */
  function LowestFrom(seed: Range, chain: seq<seq<RangeMap>>, fixed: bool): nat
    requires seed.size >= 1 && ValidChain(chain)
  {
    var (u, v) := RunStages(chain, [seed], [], fixed);
    Normalized(u + v, fixed)[0].start
  }

  /** The inner loop of `apply_map`: split every range of the normalized worklist. */
  method SplitRanges(m: RangeMap, ranges: seq<Range>) returns (unmapped: seq<Range>, mapped: seq<Range>)
    requires m.range.size >= 1 && AllNonEmpty(ranges)
    ensures (unmapped, mapped) == ApplyEach(m, ranges, false)
  {
    unmapped, mapped := [], [];
    var i := 0;
    while i < |ranges|
      invariant 0 <= i <= |ranges|
      invariant (unmapped, mapped) == ApplyEach(m, ranges[..i], false)
    {
      assert ranges[..i + 1][..i] == ranges[..i];
      var (u, v) := Apply(m, ranges[i]);
      unmapped := unmapped + u;
      mapped := mapped + v;
      i := i + 1;
    }
    assert ranges[..i] == ranges;
  }

  /** The loop of `apply_map` over the maps of one stage. */
  method RunStage(maps: seq<RangeMap>, unmapped0: seq<Range>, mapped0: seq<Range>) returns (unmapped: seq<Range>, mapped: seq<Range>)
    requires ValidStage(maps) && AllNonEmpty(unmapped0) && AllNonEmpty(mapped0)
    ensures (unmapped, mapped) == RunMaps(maps, unmapped0, mapped0, false)
  {
    unmapped, mapped := unmapped0, mapped0;
    var j := 0;
    while j < |maps|
      invariant 0 <= j <= |maps|
      invariant AllNonEmpty(unmapped) && AllNonEmpty(mapped)
      invariant RunMaps(maps[j..], unmapped, mapped, false) == RunMaps(maps, unmapped0, mapped0, false)
    {
      RunMapsStep(maps, j, unmapped, mapped, false);
      var ranges := Normalize(unmapped);
      var u, v := SplitRanges(maps[j], ranges);
      unmapped := u;
      mapped := mapped + v;
      j := j + 1;
    }
  }

  /** The maps of a stage from `j` on: the map at `j`, then the rest. */
  lemma RunMapsStep(maps: seq<RangeMap>, j: nat, unmapped: seq<Range>, mapped: seq<Range>, fixed: bool)
    requires ValidStage(maps) && j < |maps| && AllNonEmpty(unmapped) && AllNonEmpty(mapped)
    ensures ValidStage(maps[j..]) && ValidStage(maps[j + 1..]) && maps[j].range.size >= 1
    ensures var next := StepMap(maps[j], unmapped, mapped, fixed);
            RunMaps(maps[j..], unmapped, mapped, fixed) == RunMaps(maps[j + 1..], next.0, next.1, fixed)
  {
    assert maps[j..][1..] == maps[j + 1..];
  }

  /** The stages from `k` on: the stage at `k`, then the rest. */
  lemma RunStagesStep(chain: seq<seq<RangeMap>>, k: nat, unmapped: seq<Range>, mapped: seq<Range>, fixed: bool)
    requires ValidChain(chain) && k < |chain| && AllNonEmpty(unmapped) && AllNonEmpty(mapped)
    ensures ValidChain(chain[k..]) && ValidChain(chain[k + 1..]) && ValidStage(chain[k])
    ensures AllNonEmpty(unmapped + mapped)
    ensures var next := RunMaps(chain[k], unmapped + mapped, [], fixed);
            RunStages(chain[k..], unmapped, mapped, fixed) == RunStages(chain[k + 1..], next.0, next.1, fixed)
  {
    assert chain[k..][1..] == chain[k + 1..];
  }

  /** `apply_map`: the seed range through every stage, then the lowest start. */
  method ApplyMap(seed: Range, chain: seq<seq<RangeMap>>) returns (lowest: nat)
    requires seed.size >= 1 && ValidChain(chain)
    ensures lowest == LowestFrom(seed, chain, false)
  {
    var unmapped := [seed];
    var mapped: seq<Range> := [];
    var k := 0;
    while k < |chain|
      invariant 0 <= k <= |chain|
      invariant AllNonEmpty(unmapped) && AllNonEmpty(mapped)
      invariant RunStages(chain[k..], unmapped, mapped, false) == RunStages(chain, [seed], [], false)
    {
      RunStagesStep(chain, k, unmapped, mapped, false);
      unmapped := unmapped + mapped;
      mapped := [];
      unmapped, mapped := RunStage(chain[k], unmapped, mapped);
      k := k + 1;
    }
    var ranges := Normalize(unmapped + mapped);
    lowest := ranges[0].start;
  }

  // ---------------------------------------------------------------------------
  // One-value ranges: the interval engine agrees with map_value
  // ---------------------------------------------------------------------------

  /** A one-value range is translated whole or left whole, by either split. */
  lemma ApplyPoint(m: RangeMap, v: nat, fixed: bool)
    requires m.range.size >= 1
    ensures ApplyWith(m, Range(v, 1), fixed) ==
              if MapContains(m, v) then ([], [Range(Get(m, v), 1)]) else ([Range(v, 1)], [])
  {
    var r := Range(v, 1);
    if MapContains(m, v) {
      assert Overlaps(m.range, r) by { assert Contains(m.range, r.start); }
      assert !HeadInside(m, r) && !DomainInside(m, r);
    } else {
      assert !Contains(r, m.range.start) by { assert m.range.start != v; }
      assert !Overlaps(m.range, r);
    }
  }

  lemma NormalizedSingle(r: Range, fixed: bool)
    requires r.size >= 1
    ensures Normalized([r], fixed) == [r]
  {
    assert [r][1..] == [];
    assert SortByStart([r]) == InsertByStart(r, SortByStart([]));
  }

  /** With nothing left unmapped a stage changes nothing. */
  lemma {:induction false} RunMapsIdle(maps: seq<RangeMap>, mapped: seq<Range>, fixed: bool)
    requires ValidStage(maps) && AllNonEmpty(mapped)
    ensures RunMaps(maps, [], mapped, fixed) == ([], mapped)
    decreases |maps|
  {
    if maps != [] {
      assert Normalized([], fixed) == [];
      assert mapped + [] == mapped;
      ValidTails(maps, []);
      RunMapsIdle(maps[1..], mapped, fixed);
    }
  }

  /** One map on a one-value worklist. */
  lemma StepMapPoint(m: RangeMap, v: nat, fixed: bool)
    requires m.range.size >= 1
    ensures StepMap(m, [Range(v, 1)], [], fixed) ==
              if MapContains(m, v) then ([], [Range(Get(m, v), 1)]) else ([Range(v, 1)], [])
  {
    var r := Range(v, 1);
    NormalizedSingle(r, fixed);
    ApplyEachSingle(m, r, fixed);
    ApplyPoint(m, v, fixed);
    assert [] + ApplyWith(m, r, fixed).1 == ApplyWith(m, r, fixed).1;
  }

  lemma ApplyEachSingle(m: RangeMap, r: Range, fixed: bool)
    requires m.range.size >= 1 && r.size >= 1
    ensures ApplyEach(m, [r], fixed) == ApplyWith(m, r, fixed)
  {
    assert [r][..0] == [];
    var (u, w) := ApplyWith(m, r, fixed);
    assert [] + u == u && [] + w == w;
  }

  /** A stage takes a one-value worklist to the one value `StageValue` gives. */
  lemma {:induction false} RunMapsPoint(maps: seq<RangeMap>, v: nat, fixed: bool)
    requires ValidStage(maps)
    ensures RunMaps(maps, [Range(v, 1)], [], fixed).0 + RunMaps(maps, [Range(v, 1)], [], fixed).1
              == [Range(StageValue(maps, v), 1)]
    decreases |maps|
  {
    if maps != [] {
      ValidTails(maps, []);
      if MapContains(maps[0], v) {
        RunMapsHit(maps, v, fixed);
      } else {
        StepMapPoint(maps[0], v, fixed);
        RunMapsPoint(maps[1..], v, fixed);
      }
    }
  }

  /** The first map holds the value: the rest of the stage leaves its image alone. */
  lemma RunMapsHit(maps: seq<RangeMap>, v: nat, fixed: bool)
    requires ValidStage(maps) && maps != [] && MapContains(maps[0], v)
    ensures RunMaps(maps, [Range(v, 1)], [], fixed) == ([], [Range(StageValue(maps, v), 1)])
  {
    ValidTails(maps, []);
    StepMapPoint(maps[0], v, fixed);
    RunMapsIdle(maps[1..], [Range(Get(maps[0], v), 1)], fixed);
  }

  lemma {:induction false} RunStagesPoint(chain: seq<seq<RangeMap>>, unmapped: seq<Range>, mapped: seq<Range>, v: nat, fixed: bool)
    requires ValidChain(chain) && AllNonEmpty(unmapped) && AllNonEmpty(mapped)
    requires unmapped + mapped == [Range(v, 1)]
    ensures var (u, w) := RunStages(chain, unmapped, mapped, fixed); u + w == [Range(ChainValue(chain, v), 1)]
    decreases |chain|
  {
    if chain != [] {
      RunMapsPoint(chain[0], v, fixed);
      var (u, w) := RunMaps(chain[0], unmapped + mapped, [], fixed);
      ValidTails([], chain);
      RunStagesPoint(chain[1..], u, w, StageValue(chain[0], v), fixed);
    }
  }

  /** Theorem: one seed given as a range of length 1 reaches the location
      `map_value` computes, whichever engine runs. */
  lemma PointLowest(chain: seq<seq<RangeMap>>, v: nat, fixed: bool)
    requires ValidChain(chain)
    ensures LowestFrom(Range(v, 1), chain, fixed) == ChainValue(chain, v)
  {
    RunStagesPoint(chain, [Range(v, 1)], [], v, fixed);
    NormalizedSingle(Range(ChainValue(chain, v), 1), fixed);
  }

  // ---------------------------------------------------------------------------
  // The corrected engine computes the lowest location of the seed range
  // ---------------------------------------------------------------------------

  ghost function StageImage(maps: seq<RangeMap>, s: set<nat>): set<nat>
    requires ValidStage(maps)
  {
    set v | v in s :: StageValue(maps, v)
  }

  ghost function ChainImage(chain: seq<seq<RangeMap>>, s: set<nat>): set<nat>
    requires ValidChain(chain)
  {
    set v | v in s :: ChainValue(chain, v)
  }

  /** The corrected split of a whole worklist keeps the values outside the
      domain and translates the ones inside, nothing lost, nothing added. */
  lemma {:induction false} ApplyEachFixedSpans(m: RangeMap, rs: seq<Range>)
    requires m.range.size >= 1 && AllNonEmpty(rs)
    ensures Span(ApplyEach(m, rs, true).0) == Outside(m, Span(rs))
    ensures Span(ApplyEach(m, rs, true).1) == Inside(m, Span(rs))
  {
    if rs != [] {
      var init, last := rs[..|rs| - 1], rs[|rs| - 1];
      ApplyEachFixedSpans(m, init);
      SpanSnoc(rs);
      var (unmapped, mapped) := ApplyEach(m, init, true);
      var (u, w) := ApplyFixed(m, last);
      SpanAppend(unmapped, u);
      SpanAppend(mapped, w);
      SplitUnion(m, Span(init), Values(last));
    }
  }

  lemma SpanSnoc(rs: seq<Range>)
    requires rs != []
    ensures Span(rs) == Span(rs[..|rs| - 1]) + Values(rs[|rs| - 1])
  {
    assert rs == rs[..|rs| - 1] + [rs[|rs| - 1]];
    SpanAppend(rs[..|rs| - 1], [rs[|rs| - 1]]);
    SpanPair(rs[|rs| - 1], rs[|rs| - 1]);
  }

  lemma SplitUnion(m: RangeMap, a: set<nat>, b: set<nat>)
    ensures Outside(m, a + b) == Outside(m, a) + Outside(m, b)
    ensures Inside(m, a + b) == Inside(m, a) + Inside(m, b)
  {
  }

  /** The first map of a stage takes what it holds; the rest of the stage sees only what is left. */
  lemma StageImageSplit(maps: seq<RangeMap>, s: set<nat>)
    requires ValidStage(maps) && maps != []
    ensures ValidStage(maps[1..])
    ensures StageImage(maps, s) == Inside(maps[0], s) + StageImage(maps[1..], Outside(maps[0], s))
  {
    assert forall k :: 1 <= k < |maps| ==> maps[1..][k - 1] == maps[k];
    var m := maps[0];
    forall w | w in StageImage(maps, s)
      ensures w in Inside(m, s) + StageImage(maps[1..], Outside(m, s))
    {
      var v :| v in s && w == StageValue(maps, v);
      if !MapContains(m, v) {
        assert v in Outside(m, s);
      }
    }
    forall w | w in Inside(m, s) + StageImage(maps[1..], Outside(m, s))
      ensures w in StageImage(maps, s)
    {
      if w in Inside(m, s) {
        var v :| v in s && MapContains(m, v) && w == Get(m, v);
        assert w == StageValue(maps, v);
      } else {
        var v :| v in Outside(m, s) && w == StageValue(maps[1..], v);
        assert w == StageValue(maps, v);
      }
    }
  }

  /** A corrected stage ends with exactly the stage's image of the values it was given. */
  lemma {:induction false} RunMapsFixedImage(maps: seq<RangeMap>, unmapped: seq<Range>, mapped: seq<Range>)
    requires ValidStage(maps) && AllNonEmpty(unmapped) && AllNonEmpty(mapped)
    ensures var (u, w) := RunMaps(maps, unmapped, mapped, true);
            Span(u) + Span(w) == Span(mapped) + StageImage(maps, Span(unmapped))
    decreases |maps|
  {
    if maps == [] {
      assert StageImage(maps, Span(unmapped)) == Span(unmapped);
    } else {
      var m := maps[0];
      var n := Normalized(unmapped, true);
      NormalizedFixedCovers(unmapped);
      ApplyEachFixedSpans(m, n);
      SpanAppend(mapped, ApplyEach(m, n, true).1);
      StageImageSplit(maps, Span(unmapped));
      var (u, w) := StepMap(m, unmapped, mapped, true);
      RunMapsFixedImage(maps[1..], u, w);
    }
  }

  lemma ChainImageStep(chain: seq<seq<RangeMap>>, s: set<nat>)
    requires ValidChain(chain) && chain != []
    ensures ValidStage(chain[0]) && ValidChain(chain[1..])
    ensures ChainImage(chain, s) == ChainImage(chain[1..], StageImage(chain[0], s))
  {
    assert forall k :: 1 <= k < |chain| ==> chain[1..][k - 1] == chain[k];
    forall w | w in ChainImage(chain, s)
      ensures w in ChainImage(chain[1..], StageImage(chain[0], s))
    {
      var v :| v in s && w == ChainValue(chain, v);
      assert StageValue(chain[0], v) in StageImage(chain[0], s);
    }
    forall w | w in ChainImage(chain[1..], StageImage(chain[0], s))
      ensures w in ChainImage(chain, s)
    {
      var x :| x in StageImage(chain[0], s) && w == ChainValue(chain[1..], x);
      var v :| v in s && x == StageValue(chain[0], v);
      assert w == ChainValue(chain, v);
    }
  }

  /** A corrected run ends with exactly the chain's image of the values it was given. */
  lemma {:induction false} RunStagesFixedImage(chain: seq<seq<RangeMap>>, unmapped: seq<Range>, mapped: seq<Range>)
    requires ValidChain(chain) && AllNonEmpty(unmapped) && AllNonEmpty(mapped)
    ensures var (u, w) := RunStages(chain, unmapped, mapped, true);
            Span(u) + Span(w) == ChainImage(chain, Span(unmapped) + Span(mapped))
    decreases |chain|
  {
    if chain == [] {
      assert ChainImage(chain, Span(unmapped) + Span(mapped)) == Span(unmapped) + Span(mapped);
    } else {
      SpanAppend(unmapped, mapped);
      ChainImageStep(chain, Span(unmapped) + Span(mapped));
      RunMapsFixedImage(chain[0], unmapped + mapped, []);
      var (u, w) := RunMaps(chain[0], unmapped + mapped, [], true);
      RunStagesFixedImage(chain[1..], u, w);
    }
  }

  /** Theorem: with the corrected split and merge, `apply_map` returns the lowest
      location of any seed of the range, and that location is reached by one. */
  lemma LowestFromFixed(seed: Range, chain: seq<seq<RangeMap>>)
    requires seed.size >= 1 && ValidChain(chain)
    ensures exists v :: Contains(seed, v) && LowestFrom(seed, chain, true) == ChainValue(chain, v)
    ensures forall v :: Contains(seed, v) ==> LowestFrom(seed, chain, true) <= ChainValue(chain, v)
  {
    var (u, w) := RunStages(chain, [seed], [], true);
    RunStagesFixedImage(chain, [seed], []);
    SpanPair(seed, seed);
    SpanAppend(u, w);
    NormalizedFixedMinimum(u + w);
    var lowest := LowestFrom(seed, chain, true);
    assert lowest in ChainImage(chain, Values(seed));
    forall v | Contains(seed, v)
      ensures lowest <= ChainValue(chain, v)
    {
      assert v in Values(seed);
      assert ChainValue(chain, v) in ChainImage(chain, Values(seed));
    }
  }

  /** A chain of one stage with one map: the split of the seed, merged. */
  lemma SingleMapChain(m: RangeMap, seed: Range, fixed: bool)
    requires m.range.size >= 1 && seed.size >= 1
    ensures ValidChain([[m]])
    ensures var (u, w) := ApplyWith(m, seed, fixed); LowestFrom(seed, [[m]], fixed) == Normalized(u + w, fixed)[0].start
  {
    NormalizedSingle(seed, fixed);
    ApplyEachSingle(m, seed, fixed);
    assert [seed] + [] == [seed];
    var (u, w) := ApplyWith(m, seed, fixed);
    assert [] + w == w;
    assert StepMap(m, [seed], [], fixed) == (u, w);
    assert RunMaps([m], [seed], [], fixed) == (u, w);
    assert [[m]][1..] == [];
    assert RunStages([[m]], [seed], [], fixed) == RunStages([], u, w, fixed);
  }

  /** When one map splits the seed into one kept and one mapped range, the
      answer is the lower of their two starts. */
  lemma LowestOfPair(m: RangeMap, seed: Range, fixed: bool, kept: Range, moved: Range)
    requires m.range.size >= 1 && seed.size >= 1
    requires ApplyWith(m, seed, fixed) == ([kept], [moved]) && kept.start < moved.start
    ensures ValidChain([[m]]) && LowestFrom(seed, [[m]], fixed) == kept.start
  {
    SingleMapChain(m, seed, fixed);
    PairLowest(kept, moved, fixed);
  }

  lemma PairLowest(kept: Range, moved: Range, fixed: bool)
    requires kept.size >= 1 && moved.size >= 1 && kept.start < moved.start
    ensures Normalized([kept] + [moved], fixed)[0].start == kept.start
  {
    var parts := [kept] + [moved];
    assert parts[0] == kept && parts[1] == moved && |parts| == 2;
    NormalizedLowest(parts, fixed);
  }

  /** As written, `apply_map` can undershoot: map (2,3)->10 on seeds 2..6 sends
      2,3,4 to 10,11,12 and keeps 5,6, so the lowest location is 5, but the
      shifted split keeps the mapped value 4 as if it were unmapped. */
  lemma ApplyMapUndershoots()
    ensures ValidChain([[RangeMap(Range(2, 3), 10)]])
    ensures LowestFrom(Range(2, 5), [[RangeMap(Range(2, 3), 10)]], false) == 4
  {
    ApplyHeadInsideCounterexample();
    LowestOfPair(RangeMap(Range(2, 3), 10), Range(2, 5), false, Range(4, 2), Range(10, 3));
  }

  /** The locations of seeds 2..6 under that map are 10, 11, 12, 5 and 6. */
  lemma UndershootLocations()
    ensures ValidChain([[RangeMap(Range(2, 3), 10)]])
    ensures forall v :: Contains(Range(2, 5), v) ==> ChainValue([[RangeMap(Range(2, 3), 10)]], v) >= 5
    ensures ChainValue([[RangeMap(Range(2, 3), 10)]], 5) == 5
  {
  }

  /** The corrected engine answers 5 on the same input. */
  lemma ApplyMapFixedExample()
    ensures ValidChain([[RangeMap(Range(2, 3), 10)]])
    ensures LowestFrom(Range(2, 5), [[RangeMap(Range(2, 3), 10)]], true) == 5
  {
    ApplyHeadInsideCounterexample();
    LowestOfPair(RangeMap(Range(2, 3), 10), Range(2, 5), true, Range(5, 2), Range(10, 3));
  }

  // ---------------------------------------------------------------------------
  // Seeds, maps and analyze
  // ---------------------------------------------------------------------------

  /** The seed list read as (start, length) pairs. */
  function SeedRanges(seeds: seq<nat>): (rs: seq<Range>)
    ensures |rs| == |seeds| / 2
    ensures forall k :: 0 <= k < |rs| ==> rs[k] == Range(seeds[2 * k], seeds[2 * k + 1])
  {
    if |seeds| < 2 then []
    else
      var rest := SeedRanges(seeds[2..]);
      assert forall k :: 1 <= k < |rest| + 1 ==> seeds[2 * k] == seeds[2..][2 * (k - 1)];
      [Range(seeds[0], seeds[1])] + rest
  }

  /** The seed list a list of ranges is written as. */
  function Flatten(rs: seq<Range>): (seeds: seq<nat>)
    ensures |seeds| == 2 * |rs|
  {
    if rs == [] then [] else [rs[0].start, rs[0].size] + Flatten(rs[1..])
  }

  lemma {:induction false} SeedRangesFlatten(rs: seq<Range>)
    ensures SeedRanges(Flatten(rs)) == rs
  {
    if rs != [] {
      SeedRangesFlatten(rs[1..]);
      assert Flatten(rs)[2..] == Flatten(rs[1..]);
    }
  }

  lemma {:induction false} FlattenSeedRanges(seeds: seq<nat>)
    requires |seeds| % 2 == 0
    ensures Flatten(SeedRanges(seeds)) == seeds
    decreases |seeds|
  {
    if |seeds| >= 2 {
      FlattenSeedRanges(seeds[2..]);
      var rs := SeedRanges(seeds);
      assert rs[1..] == SeedRanges(seeds[2..]);
      assert seeds == [seeds[0], seeds[1]] + seeds[2..];
    }
  }

  /** Taking the pair at `i` keeps what is taken and what is left summing to
      all the pairs. */
  lemma SeedRangesPush(seeds: seq<nat>, i: nat, ranges: seq<Range>)
    requires i + 2 <= |seeds| && ranges + SeedRanges(seeds[i..]) == SeedRanges(seeds)
    ensures (ranges + [Range(seeds[i], seeds[i + 1])]) + SeedRanges(seeds[i + 2..]) == SeedRanges(seeds)
  {
    assert seeds[i..][2..] == seeds[i + 2..];
    assert SeedRanges(seeds[i..]) == [Range(seeds[i], seeds[i + 1])] + SeedRanges(seeds[i + 2..]);
  }

  lemma SeedRangesDone(seeds: seq<nat>, ranges: seq<Range>)
    requires ranges + SeedRanges(seeds[|seeds|..]) == SeedRanges(seeds)
    ensures ranges == SeedRanges(seeds)
  {
    assert seeds[|seeds|..] == [];
  }

  /** `get_seed_ranges`: takes the seeds two at a time until none are left; the
      `unwrap`s panic on an empty or odd-length list. */
  method GetSeedRanges(seeds: seq<nat>) returns (ranges: seq<Range>)
    requires |seeds| > 0 && |seeds| % 2 == 0
    ensures ranges == SeedRanges(seeds)
  {
    ranges := [];
    var i := 0;
    while true
      invariant i % 2 == 0 && i + 2 <= |seeds|
      invariant ranges + SeedRanges(seeds[i..]) == SeedRanges(seeds)
      decreases |seeds| - i
    {
      SeedRangesPush(seeds, i, ranges);
      var base, size := seeds[i], seeds[i + 1];
      ranges := ranges + [Range(base, size)];
      i := i + 2;
      if i == |seeds| {
        SeedRangesDone(seeds, ranges);
        break;
      }
    }
  }

  /** `parse_seeds`: the numbers after the label. A line of one or two words adds
      no seed at all; None where `unwrap` panics on a word that is not a number. */
  function ParseSeeds(line: seq<char>): (r: Option<seq<nat>>)
    ensures |Words(line)| <= 2 ==> r == Some([])
  {
    var words := Words(line);
    if |words| > 2 then ParseAll(words[1..]) else Some([])
  }

  /** Past the label, every word of a seed line must be a number, and the seeds
      are those numbers in order. */
  lemma ParseSeedsWords(line: seq<char>)
    requires |Words(line)| > 2
    ensures ParseSeeds(line).Some? <==> forall i :: 1 <= i < |Words(line)| ==> ParseNat(Words(line)[i]).Some?
    ensures ParseSeeds(line).Some? ==>
              |ParseSeeds(line).value| == |Words(line)| - 1 &&
              forall i :: 0 <= i < |ParseSeeds(line).value| ==> ParseSeeds(line).value[i] == ParseNat(Words(line)[i + 1]).value
  {
    var words := Words(line);
    ParseAllTail(words);
    assert ParseSeeds(line) == ParseAll(words[1..]);
  }

  /** `parse_map`: "target source size" becomes the map of `size` values from
      `source` to `target`; None where `unwrap` or the indexing panics. */
  function ParseMap(line: seq<char>): (r: Option<RangeMap>)
    ensures r.Some? <==> |Words(line)| >= 3 && forall i :: 0 <= i < |Words(line)| ==> ParseNat(Words(line)[i]).Some?
    ensures r.Some? ==> r.value == RangeMap(Range(ParseNat(Words(line)[1]).value, ParseNat(Words(line)[2]).value),
                                            ParseNat(Words(line)[0]).value)
  {
    match ParseAll(Words(line))
    case Some(ns) => if |ns| >= 3 then Some(RangeMap(Range(ns[1], ns[2]), ns[0])) else None
    case None => None
  }

  lemma SeedLineWords()
    ensures Words("seeds: 2 5 7") == ["seeds:", "2", "5", "7"]
  {
    var ws := ["seeds:", "2", "5", "7"];
    assert Join(ws, ' ') == "seeds: 2 5 7";
    WordsJoin(ws);
  }

  /** Any line whose words are those of the example seed line gives its seeds;
      `SeedLineWords` shows "seeds: 2 5 7" is such a line. */
  lemma ParseSeedsExample(line: seq<char>)
    requires Words(line) == ["seeds:", "2", "5", "7"]
    ensures ParseSeeds(line) == Some([2, 5, 7])
  {
    var ws := ["seeds:", "2", "5", "7"];
    ParseOneDigit('2');
    ParseOneDigit('5');
    ParseOneDigit('7');
    var digits := ws[1..];
    assert digits[0] == ['2'] && digits[1] == ['5'] && digits[2] == ['7'];
    assert forall i :: 0 <= i < |digits| ==> ParseNat(digits[i]).Some?;
    assert Words(line)[1..] == digits;
    var ns := ParseAll(digits).value;
    assert ns[0] == 2 && ns[1] == 5 && ns[2] == 7;
    assert ns == [2, 5, 7];
  }

  /** A single seed is dropped: the line has only two words. */
  lemma ParseSeedsSingle()
    ensures ParseSeeds("seeds: 7") == Some([])
  {
    var ws := ["seeds:", "7"];
    assert Join(ws, ' ') == "seeds: 7";
    WordsJoin(ws);
  }

  lemma MapLineWords()
    ensures Words("50 98 2") == ["50", "98", "2"]
  {
    var ws := ["50", "98", "2"];
    assert Join(ws, ' ') == "50 98 2";
    WordsJoin(ws);
  }

  /** A line of a two-digit target, a two-digit start and a one-digit length. */
  lemma ParseMapDigits(line: seq<char>, a: char, b: char, c: char, d: char, e: char)
    requires IsDigit(a) && IsDigit(b) && IsDigit(c) && IsDigit(d) && IsDigit(e)
    requires Words(line) == [[a, b], [c, d], [e]]
    ensures ParseMap(line) ==
              Some(RangeMap(Range(10 * DigitValue(c) + DigitValue(d), DigitValue(e)), 10 * DigitValue(a) + DigitValue(b)))
  {
    ParseTwoDigits(a, b);
    ParseTwoDigits(c, d);
    ParseOneDigit(e);
    ParseMapOf(line, Words(line), 10 * DigitValue(a) + DigitValue(b), 10 * DigitValue(c) + DigitValue(d), DigitValue(e));
  }

  /** A line of three numbers gives the map they describe. */
  lemma ParseMapOf(line: seq<char>, ws: seq<seq<char>>, target: nat, start: nat, size: nat)
    requires Words(line) == ws && |ws| == 3
    requires ParseNat(ws[0]) == Some(target) && ParseNat(ws[1]) == Some(start) && ParseNat(ws[2]) == Some(size)
    ensures ParseMap(line) == Some(RangeMap(Range(start, size), target))
  {
    forall i | 0 <= i < |ws|
      ensures ParseNat(ws[i]).Some?
    {
      if i == 0 {
      } else if i == 1 {
      } else {
        assert i == 2;
      }
    }
  }

  /** Any line whose words are those of the example map line gives its map;
      `MapLineWords` shows "50 98 2" is such a line. */
  lemma ParseMapExample(line: seq<char>)
    requires Words(line) == ["50", "98", "2"]
    ensures ParseMap(line) == Some(RangeMap(Range(98, 2), 50))
  {
    ParseMapDigits(line, '5', '0', '9', '8', '2');
  }

  /** `lowest` is what `analyze` leaves in `min`: `usize::MAX` lowered to the
      smallest of `values`. */
  predicate IsLowest(lowest: nat, values: seq<nat>)
  {
    && lowest <= UsizeMax
    && (forall i :: 0 <= i < |values| ==> lowest <= values[i])
    && (lowest == UsizeMax || exists i :: 0 <= i < |values| && values[i] == lowest)
  }

  /** One more value through `if value < min { min = value }`. */
  lemma LowerStep(lowest: nat, values: seq<nat>, i: nat)
    requires i < |values| && IsLowest(lowest, values[..i])
    ensures IsLowest(if values[i] < lowest then values[i] else lowest, values[..i + 1])
  {
    assert values[..i + 1] == values[..i] + [values[i]];
  }

  /** The location of each seed (part 1). */
  function SeedLocations(seeds: seq<nat>, chain: seq<seq<RangeMap>>): (ls: seq<nat>)
    requires ValidChain(chain)
    ensures |ls| == |seeds| && forall i :: 0 <= i < |seeds| ==> ls[i] == ChainValue(chain, seeds[i])
  {
    seq(|seeds|, i requires 0 <= i < |seeds| => ChainValue(chain, seeds[i]))
  }

  /** What `apply_map` returns for each seed range (part 2). */
  function RangeLocations(ranges: seq<Range>, chain: seq<seq<RangeMap>>): (ls: seq<nat>)
    requires ValidChain(chain) && AllNonEmpty(ranges)
    ensures |ls| == |ranges| && forall i :: 0 <= i < |ranges| ==> ls[i] == LowestFrom(ranges[i], chain, false)
  {
    seq(|ranges|, i requires 0 <= i < |ranges| => LowestFrom(ranges[i], chain, false))
  }

  /** `analyze` after parsing: the lowest location over the seeds (part 1) or
      over the seed ranges (part 2). */
  method Analyze(seeds: seq<nat>, chain: seq<seq<RangeMap>>, part: int) returns (lowest: nat)
    requires ValidChain(chain)
    requires part == 2 ==> |seeds| > 0 && |seeds| % 2 == 0 && AllNonEmpty(SeedRanges(seeds))
    ensures part != 2 ==> IsLowest(lowest, SeedLocations(seeds, chain))
    ensures part == 2 ==> IsLowest(lowest, RangeLocations(SeedRanges(seeds), chain))
  {
    if part == 2 {
      var ranges := GetSeedRanges(seeds);
      lowest := LowestOverRanges(ranges, chain);
    } else {
      lowest := LowestOverSeeds(seeds, chain);
    }
  }

  /** The part 1 loop: the lowest location over the seeds. */
  method LowestOverSeeds(seeds: seq<nat>, chain: seq<seq<RangeMap>>) returns (lowest: nat)
    requires ValidChain(chain)
    ensures IsLowest(lowest, SeedLocations(seeds, chain))
  {
    lowest := UsizeMax;
    ghost var locations := SeedLocations(seeds, chain);
    var i := 0;
    while i < |seeds|
      invariant 0 <= i <= |seeds|
      invariant IsLowest(lowest, locations[..i])
    {
      var value := MapValue(chain, seeds[i]);
      LowerStep(lowest, locations, i);
      if value < lowest {
        lowest := value;
      }
      i := i + 1;
    }
    assert locations[..i] == locations;
  }

  /** The part 2 loop: the lowest location over the seed ranges. */
  method LowestOverRanges(ranges: seq<Range>, chain: seq<seq<RangeMap>>) returns (lowest: nat)
    requires ValidChain(chain) && AllNonEmpty(ranges)
    ensures IsLowest(lowest, RangeLocations(ranges, chain))
  {
    lowest := UsizeMax;
    ghost var locations := RangeLocations(ranges, chain);
    var i := 0;
    while i < |ranges|
      invariant 0 <= i <= |ranges|
      invariant IsLowest(lowest, locations[..i])
    {
      var value := ApplyMap(ranges[i], chain);
      LowerStep(lowest, locations, i);
      if value < lowest {
        lowest := value;
      }
      i := i + 1;
    }
    assert locations[..i] == locations;
  }
}
