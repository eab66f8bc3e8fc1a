/** Day 5: seeds folded through an ordered chain of almanac layers
    (src/bin/day5.rs). Each layer is a list of rows
    `(destination_start, source_start, length)`; a value is translated by
    the first row whose source contains it, and passes unchanged when no
    row does. Values are `u64` in the source and `nat` here. */
module Day5 {
  import opened Common
  import Ranges

  datatype MappingRow = MappingRow(destinationStart: nat, sourceStart: nat, length: nat)

  type Layer = seq<MappingRow>

  /** `source_contains`: note the upper bound `source_start + length`,
      one past the last source value of the row. */
  predicate SourceContains(row: MappingRow, x: nat)
  {
    row.sourceStart <= x <= row.sourceStart + row.length
  }

  /** `get_destination`: the offset from the source start is kept. The
      source subtracts in `u64`, so it is only called on values at or
      above `source_start`. */
  function GetDestination(row: MappingRow, x: nat): (y: nat)
    requires row.sourceStart <= x
    ensures y >= row.destinationStart
    ensures y - row.destinationStart == x - row.sourceStart
  {
    row.destinationStart + (x - row.sourceStart)
  }

  /** `iter().find(|map| map.source_contains(item))`, as an index:
      the first row, in list order, whose source contains `x`. */
  function FindRow(layer: Layer, x: nat, from: nat := 0): (r: Option<nat>)
    requires from <= |layer|
    ensures r.Some? ==> from <= r.value < |layer| && SourceContains(layer[r.value], x)
    ensures r.Some? ==> forall j :: from <= j < r.value ==> !SourceContains(layer[j], x)
    ensures r.None? <==> forall j :: from <= j < |layer| ==> !SourceContains(layer[j], x)
    decreases |layer| - from
  {
    if from == |layer| then None
    else if SourceContains(layer[from], x) then Some(from)
    else FindRow(layer, x, from + 1)
  }

  /** One layer: translate by the first matching row, otherwise keep. */
  function ApplyLayer(layer: Layer, x: nat): nat
  {
    match FindRow(layer, x)
    case Some(i) => GetDestination(layer[i], x)
    case None => x
  }

  /** `get_location_for_seed`: `fold` over the layers, left to right. */
  function GetLocationForSeed(seed: nat, mappings: seq<Layer>): nat
    decreases |mappings|
  {
    if mappings == [] then seed
    else GetLocationForSeed(ApplyLayer(mappings[0], seed), mappings[1..])
  }

  function Locations(seeds: seq<nat>, mappings: seq<Layer>): (locs: seq<int>)
    ensures |locs| == |seeds|
    ensures forall i :: 0 <= i < |seeds| ==> locs[i] == GetLocationForSeed(seeds[i], mappings)
  {
    seq(|seeds|, i requires 0 <= i < |seeds| => GetLocationForSeed(seeds[i], mappings) as int)
  }

  /** `solve_part1`: the least location over all seeds; `None` stands for
      the `unwrap()` panic on an empty seed list. */
  function SolvePart1(seeds: seq<nat>, mappings: seq<Layer>): (r: Option<int>)
    ensures r.None? <==> seeds == []
    ensures r.Some? ==> exists i :: 0 <= i < |seeds| && r.value == GetLocationForSeed(seeds[i], mappings)
    ensures r.Some? ==> forall i :: 0 <= i < |seeds| ==> r.value <= GetLocationForSeed(seeds[i], mappings)
  {
    var locs := Locations(seeds, mappings);
    var r := MinOption(locs);
    assert r.Some? ==> exists i :: 0 <= i < |locs| && r.value == locs[i];
    r
  }

  /** `start <= x < start + length - 1`: the values
      `num::range(start, start + length - 1)` yields. The half-open range
      stops one short of the pair's last seed, so it is empty when
      `length <= 1`. */
  predicate InPair(start: nat, length: nat, x: nat)
  {
    start <= x < start as int + length - 1
  }

  function PairSeeds(start: nat, length: nat): (s: seq<nat>)
    ensures forall i :: 0 <= i < |s| ==> InPair(start, length, s[i])
  {
    var n := if length >= 1 then length - 1 else 0;
    seq(n, i requires 0 <= i < n => start + i)
  }

  lemma PairSeedsComplete(start: nat, length: nat, x: nat)
    requires InPair(start, length, x)
    ensures x in PairSeeds(start, length)
  {
    assert PairSeeds(start, length)[x - start] == x;
  }

  /** The seeds of part 2: consecutive `(start, length)` pairs, as
      `tuples()` groups them; an odd trailing number is dropped. */
  function Part2Seeds(seeds: seq<nat>): seq<nat>
    decreases |seeds|
  {
    if |seeds| < 2 then [] else PairSeeds(seeds[0], seeds[1]) + Part2Seeds(seeds[2..])
  }

  /** `x` is tried by part 2 exactly when it lies in the range of some
      pair. */
  predicate InSomePair(seeds: seq<nat>, x: nat)
  {
    exists k :: 0 <= k < |seeds| / 2 && InPair(seeds[2 * k], seeds[2 * k + 1], x)
  }

  lemma {:induction false} Part2SeedsMembership(seeds: seq<nat>, x: nat)
    ensures x in Part2Seeds(seeds) <==> InSomePair(seeds, x)
    decreases |seeds|
  {
    if |seeds| >= 2 {
      Part2SeedsMembership(seeds[2..], x);
      InSomePairCons(seeds, x);
      PairSeedsMembership(seeds[0], seeds[1], x);
      assert Part2Seeds(seeds) == PairSeeds(seeds[0], seeds[1]) + Part2Seeds(seeds[2..]);
    }
  }

  lemma PairSeedsMembership(start: nat, length: nat, x: nat)
    ensures x in PairSeeds(start, length) <==> InPair(start, length, x)
  {
    if InPair(start, length, x) {
      PairSeedsComplete(start, length, x);
    }
  }

  /** The first pair, then the pairs of the rest. */
  lemma InSomePairCons(seeds: seq<nat>, x: nat)
    requires |seeds| >= 2
    ensures InSomePair(seeds, x) <==> InPair(seeds[0], seeds[1], x) || InSomePair(seeds[2..], x)
  {
    var rest := seeds[2..];
    if InSomePair(seeds, x) && !InPair(seeds[0], seeds[1], x) {
      var k :| 0 <= k < |seeds| / 2 && InPair(seeds[2 * k], seeds[2 * k + 1], x);
      assert k > 0;
      assert rest[2 * (k - 1)] == seeds[2 * k] && rest[2 * (k - 1) + 1] == seeds[2 * k + 1];
    }
    if InPair(seeds[0], seeds[1], x) {
      assert InPair(seeds[2 * 0], seeds[2 * 0 + 1], x);
    }
    if InSomePair(rest, x) {
      var k :| 0 <= k < |rest| / 2 && InPair(rest[2 * k], rest[2 * k + 1], x);
      assert rest[2 * k] == seeds[2 * (k + 1)] && rest[2 * k + 1] == seeds[2 * (k + 1) + 1];
    }
  }

  /** `solve_part2`: the least location over the part-2 seeds; `None`
      for the `unwrap()` panic when no pair yields a seed. */
  function SolvePart2(seeds: seq<nat>, mappings: seq<Layer>): Option<int>
  {
    SolvePart1(Part2Seeds(seeds), mappings)
  }

  /** Part 2 fails exactly when every pair has length at most 1, and
      otherwise yields the least location over the seeds it tries. */
  lemma SolvePart2Spec(seeds: seq<nat>, mappings: seq<Layer>)
    ensures SolvePart2(seeds, mappings).None? <==> forall k :: 0 <= k < |seeds| / 2 ==> seeds[2 * k + 1] <= 1
    ensures var r := SolvePart2(seeds, mappings);
            r.Some? ==> exists x :: InSomePair(seeds, x) && r.value == GetLocationForSeed(x, mappings)
    ensures var r := SolvePart2(seeds, mappings);
            r.Some? ==> forall x :: InSomePair(seeds, x) ==> r.value <= GetLocationForSeed(x, mappings)
  {
    var candidates := Part2Seeds(seeds);
    var r := SolvePart2(seeds, mappings);
    if exists k :: 0 <= k < |seeds| / 2 && seeds[2 * k + 1] > 1 {
      var k :| 0 <= k < |seeds| / 2 && seeds[2 * k + 1] > 1;
      assert InPair(seeds[2 * k], seeds[2 * k + 1], seeds[2 * k]);
      Part2SeedsMembership(seeds, seeds[2 * k]);
    } else if candidates != [] {
      Part2SeedsMembership(seeds, candidates[0]);
    }
    if r.Some? {
      var i :| 0 <= i < |candidates| && r.value == GetLocationForSeed(candidates[i], mappings);
      Part2SeedsMembership(seeds, candidates[i]);
      forall x | InSomePair(seeds, x) ensures r.value <= GetLocationForSeed(x, mappings) {
        Part2SeedsMembership(seeds, x);
        var j :| 0 <= j < |candidates| && candidates[j] == x;
      }
    }
  }

  // ---------------------------------------------------------------------
  // `MappingRange`: rows turned into closed source and destination ranges

  datatype MappingRange = MappingRange(source: Ranges.Range, destination: Ranges.Range)

  /** `MappingRange::unmapped(start, end)`: the identity piece `[start, end]`. */
  function Unmapped(start: int, end: int): (m: MappingRange)
    ensures m.source == m.destination
    ensures m.source.lower == start && m.source.upper == end
  {
    MappingRange(Ranges.FromPair((start, end)), Ranges.FromPair((start, end)))
  }

  /** `From<&MappingRow>`: closed ranges `[s, s + len - 1]` and
      `[d, d + len - 1]`. */
  function FromRow(row: MappingRow): (m: MappingRange)
    ensures m.source.lower == row.sourceStart && m.destination.lower == row.destinationStart
    ensures m.source.upper - m.source.lower == m.destination.upper - m.destination.lower
    ensures row.length >= 1 ==> m.source.WellFormed() && m.destination.WellFormed()
    ensures forall x: nat :: m.source.Contains(x) <==> row.sourceStart <= x < row.sourceStart + row.length
  {
    MappingRange(Ranges.FromPair((row.sourceStart, row.sourceStart + row.length - 1)),
                 Ranges.FromPair((row.destinationStart, row.destinationStart + row.length - 1)))
  }

  // ---------------------------------------------------------------------
  // Properties

  /** Inside its closed source range, a row sends `x` to the point at the
      same offset in its closed destination range. */
  lemma RowTranslatesRange(row: MappingRow, x: nat)
    requires FromRow(row).source.Contains(x)
    ensures SourceContains(row, x)
    ensures FromRow(row).destination.Contains(GetDestination(row, x))
  {
  }

  /** `source_contains` also accepts `source_start + length`, which lies
      outside the row's closed range: that value is translated to
      `destination_start + length`. */
  lemma SourceContainsOnePastEnd(row: MappingRow)
    ensures SourceContains(row, row.sourceStart + row.length)
    ensures !FromRow(row).source.Contains(row.sourceStart + row.length)
    ensures GetDestination(row, row.sourceStart + row.length) == row.destinationStart + row.length
  {
  }

  /** Within a layer the first containing row, in list order, decides. */
  lemma ApplyLayerFirstMatch(layer: Layer, x: nat, i: nat)
    requires i < |layer| && SourceContains(layer[i], x)
    requires forall j :: 0 <= j < i ==> !SourceContains(layer[j], x)
    ensures ApplyLayer(layer, x) == GetDestination(layer[i], x)
  {
    assert FindRow(layer, x).Some?;
  }

  /** A value no row contains passes through the layer unchanged. */
  lemma ApplyLayerNoMatch(layer: Layer, x: nat)
    requires forall j :: 0 <= j < |layer| ==> !SourceContains(layer[j], x)
    ensures ApplyLayer(layer, x) == x
  {
  }

  /** An empty chain returns the seed itself. */
  lemma EmptyChainIsIdentity(seed: nat)
    ensures GetLocationForSeed(seed, []) == seed
  {
  }

  /** The chain is a left fold: running `m1 + m2` is running `m1`, then
      `m2` on the result. */
  lemma {:induction false} ChainComposes(seed: nat, m1: seq<Layer>, m2: seq<Layer>)
    ensures GetLocationForSeed(seed, m1 + m2) == GetLocationForSeed(GetLocationForSeed(seed, m1), m2)
    decreases |m1|
  {
    if m1 == [] {
      assert m1 + m2 == m2;
    } else {
      assert (m1 + m2)[1..] == m1[1..] + m2;
      ChainComposes(ApplyLayer(m1[0], seed), m1[1..], m2);
    }
  }

  /** In particular the last layer is applied last. */
  lemma LastLayerAppliedLast(seed: nat, mappings: seq<Layer>, last: Layer)
    ensures GetLocationForSeed(seed, mappings + [last]) == ApplyLayer(last, GetLocationForSeed(seed, mappings))
  {
    ChainComposes(seed, mappings, [last]);
  }

  // ---------------------------------------------------------------------
  // The puzzle's published almanac

  /** The seven layers of the published example, seed-to-soil first. */
  function ExampleAlmanac(): seq<Layer>
  {
    [SeedToSoil(), SoilToFertilizer(), FertilizerToWater(), WaterToLight(),
     LightToTemperature(), TemperatureToHumidity(), HumidityToLocation()]
  }

  function SeedToSoil(): Layer
  {
    [MappingRow(50, 98, 2), MappingRow(52, 50, 48)]
  }

  function SoilToFertilizer(): Layer
  {
    [MappingRow(0, 15, 37), MappingRow(37, 52, 2), MappingRow(39, 0, 15)]
  }

  function FertilizerToWater(): Layer
  {
    [MappingRow(49, 53, 8), MappingRow(0, 11, 42), MappingRow(42, 0, 7), MappingRow(57, 7, 4)]
  }

  function WaterToLight(): Layer
  {
    [MappingRow(88, 18, 7), MappingRow(18, 25, 70)]
  }

  function LightToTemperature(): Layer
  {
    [MappingRow(45, 77, 23), MappingRow(81, 45, 19), MappingRow(68, 64, 13)]
  }

  function TemperatureToHumidity(): Layer
  {
    [MappingRow(0, 69, 1), MappingRow(1, 0, 69)]
  }

  function HumidityToLocation(): Layer
  {
    [MappingRow(60, 56, 37), MappingRow(56, 93, 4)]
  }

  /** One layer of the chain from layer `k` on. */
  lemma LocationStep(y: nat, m: seq<Layer>, k: nat)
    requires k < |m|
    ensures GetLocationForSeed(y, m[k..]) == GetLocationForSeed(ApplyLayer(m[k], y), m[k + 1..])
  {
    assert m[k..][0] == m[k] && m[k..][1..] == m[k + 1..];
  }

  /** The chain of seven layers, applied one after the other. */
  lemma LocationThroughSeven(x: nat, m: seq<Layer>)
    requires |m| == 7
    ensures GetLocationForSeed(x, m)
         == ApplyLayer(m[6], ApplyLayer(m[5], ApplyLayer(m[4], ApplyLayer(m[3],
              ApplyLayer(m[2], ApplyLayer(m[1], ApplyLayer(m[0], x)))))))
  {
    assert m[0..] == m;
    var y1 := ApplyLayer(m[0], x);
    var y2 := ApplyLayer(m[1], y1);
    var y3 := ApplyLayer(m[2], y2);
    var y4 := ApplyLayer(m[3], y3);
    var y5 := ApplyLayer(m[4], y4);
    var y6 := ApplyLayer(m[5], y5);
    LocationStep(x, m, 0);
    LocationStep(y1, m, 1);
    LocationStep(y2, m, 2);
    LocationStep(y3, m, 3);
    LocationStep(y4, m, 4);
    LocationStep(y5, m, 5);
    LocationStep(y6, m, 6);
    assert |m[7..]| == 0;
  }

  /** Seed 14 reaches location 43. */
  lemma ExampleSeed14(x: nat)
    requires x == 14
    ensures GetLocationForSeed(x, ExampleAlmanac()) == 43
  {
    LocationThroughSeven(x, ExampleAlmanac());
    ApplyLayerNoMatch(SeedToSoil(), 14);
    ApplyLayerFirstMatch(SoilToFertilizer(), 14, 2);
    ApplyLayerFirstMatch(FertilizerToWater(), 53, 0);
    ApplyLayerFirstMatch(WaterToLight(), 49, 1);
    ApplyLayerNoMatch(LightToTemperature(), 42);
    ApplyLayerFirstMatch(TemperatureToHumidity(), 42, 1);
    ApplyLayerNoMatch(HumidityToLocation(), 43);
  }

  /** Seed 13 reaches location 35. */
  lemma ExampleSeed13(x: nat)
    requires x == 13
    ensures GetLocationForSeed(x, ExampleAlmanac()) == 35
  {
    LocationThroughSeven(x, ExampleAlmanac());
    ApplyLayerNoMatch(SeedToSoil(), 13);
    ApplyLayerFirstMatch(SoilToFertilizer(), 13, 2);
    ApplyLayerFirstMatch(FertilizerToWater(), 52, 1);
    ApplyLayerFirstMatch(WaterToLight(), 41, 1);
    ApplyLayerNoMatch(LightToTemperature(), 34);
    ApplyLayerFirstMatch(TemperatureToHumidity(), 34, 1);
    ApplyLayerNoMatch(HumidityToLocation(), 35);
  }

  /** A location reached by some seed, and below no seed's location, is
      the answer of part 1. */
  lemma SolvePart1Attains(seeds: seq<nat>, mappings: seq<Layer>, j: nat, v: int)
    requires j < |seeds| && GetLocationForSeed(seeds[j], mappings) == v
    requires forall i :: 0 <= i < |seeds| ==> v <= GetLocationForSeed(seeds[i], mappings)
    ensures SolvePart1(seeds, mappings) == Some(v)
  {
    var r := SolvePart1(seeds, mappings);
    assert r.value <= v;
  }

  /** Part 1 on the published almanac gives 35, the value the test
      asserts, even with the inclusive `source_contains`. */
  lemma ExamplePart1(seeds: seq<nat>)
    requires seeds == [79, 14, 55, 13]
    ensures SolvePart1(seeds, ExampleAlmanac()) == Some(35)
  {
    var m := ExampleAlmanac();
    ExampleFirstPair(seeds[0]);
    ExampleSeed14(seeds[1]);
    ExampleSecondPair(seeds[2]);
    ExampleSeed13(seeds[3]);
    SolvePart1OfFour(seeds, m, 82, 43, 86, 35);
  }

  /** Part 1 over four seeds is the least of their four locations. */
  lemma SolvePart1OfFour(seeds: seq<nat>, mappings: seq<Layer>, a: int, b: int, c: int, d: int)
    requires |seeds| == 4
    requires GetLocationForSeed(seeds[0], mappings) == a && GetLocationForSeed(seeds[1], mappings) == b
    requires GetLocationForSeed(seeds[2], mappings) == c && GetLocationForSeed(seeds[3], mappings) == d
    requires d <= a && d <= b && d <= c
    ensures SolvePart1(seeds, mappings) == Some(d)
  {
    forall i | 0 <= i < |seeds| ensures d <= GetLocationForSeed(seeds[i], mappings) {
      if i == 0 { } else if i == 1 { } else if i == 2 { } else { }
    }
    SolvePart1Attains(seeds, mappings, 3, d);
  }

  /** The seeds part 2 tries from the pair `79 14`: seeds 82 to 91 end
      at 46 to 55, the others at 82 to 84. */
  lemma ExampleFirstPair(x: nat)
    requires 79 <= x < 92
    ensures GetLocationForSeed(x, ExampleAlmanac()) == if x >= 82 then x - 36 else x + 3
  {
    ExampleThroughLayers(x);
    ExampleFirstPairToLight(x);
    ExampleFirstPairFromLight(x - 5);
  }

  /** The example's location for a seed, layer by layer. */
  lemma ExampleThroughLayers(x: nat)
    ensures GetLocationForSeed(x, ExampleAlmanac())
         == ApplyLayer(HumidityToLocation(), ApplyLayer(TemperatureToHumidity(),
              ApplyLayer(LightToTemperature(), ApplyLayer(WaterToLight(),
              ApplyLayer(FertilizerToWater(), ApplyLayer(SoilToFertilizer(),
              ApplyLayer(SeedToSoil(), x)))))))
  {
    LocationThroughSeven(x, ExampleAlmanac());
  }

  /** The last three layers for the lights the pair `79 14` reaches. */
  lemma ExampleFirstPairFromLight(y: nat)
    requires 74 <= y < 87
    ensures ApplyLayer(HumidityToLocation(), ApplyLayer(TemperatureToHumidity(),
              ApplyLayer(LightToTemperature(), y)))
         == if y >= 77 then y - 31 else y + 8
  {
    if y >= 77 {
      ApplyLayerFirstMatch(LightToTemperature(), y, 0);
      ApplyLayerFirstMatch(TemperatureToHumidity(), y - 32, 1);
      ApplyLayerNoMatch(HumidityToLocation(), y - 31);
    } else {
      ApplyLayerFirstMatch(LightToTemperature(), y, 2);
      ApplyLayerNoMatch(TemperatureToHumidity(), y + 4);
      ApplyLayerFirstMatch(HumidityToLocation(), y + 4, 0);
    }
  }

  /** The first four layers move the pair `79 14` down by 5. */
  lemma ExampleFirstPairToLight(x: nat)
    requires 79 <= x < 92
    ensures ApplyLayer(WaterToLight(), ApplyLayer(FertilizerToWater(),
              ApplyLayer(SoilToFertilizer(), ApplyLayer(SeedToSoil(), x)))) == x - 5
  {
    ApplyLayerFirstMatch(SeedToSoil(), x, 1);
    ApplyLayerNoMatch(SoilToFertilizer(), x + 2);
    ApplyLayerNoMatch(FertilizerToWater(), x + 2);
    ApplyLayerFirstMatch(WaterToLight(), x + 2, 1);
  }

  /** The seeds part 2 tries from the pair `55 13` all end at 57 or
      beyond. */
  lemma ExampleSecondPair(x: nat)
    requires 55 <= x < 67
    ensures GetLocationForSeed(x, ExampleAlmanac())
         == if x < 60 then x + 31 else if x <= 62 then x + 35 else x - 6
  {
    ExampleThroughLayers(x);
    ExampleSecondPairToLight(x);
    ExampleSecondPairFromLight(if x < 60 then x - 9 else x - 5);
  }

  /** The last three layers for the lights the pair `55 13` reaches. */
  lemma ExampleSecondPairFromLight(y: nat)
    requires 46 <= y < 62
    ensures ApplyLayer(HumidityToLocation(), ApplyLayer(TemperatureToHumidity(),
              ApplyLayer(LightToTemperature(), y)))
         == if y <= 57 then y + 40 else y - 1
  {
    ApplyLayerFirstMatch(LightToTemperature(), y, 1);
    ApplyLayerNoMatch(TemperatureToHumidity(), y + 36);
    if y <= 57 {
      ApplyLayerFirstMatch(HumidityToLocation(), y + 36, 0);
    } else {
      ApplyLayerFirstMatch(HumidityToLocation(), y + 36, 1);
    }
  }

  /** The first four layers move the pair `55 13` down by 9 below seed
      60 and by 5 from there. */
  lemma ExampleSecondPairToLight(x: nat)
    requires 55 <= x < 67
    ensures ApplyLayer(WaterToLight(), ApplyLayer(FertilizerToWater(),
              ApplyLayer(SoilToFertilizer(), ApplyLayer(SeedToSoil(), x))))
         == if x < 60 then x - 9 else x - 5
  {
    ApplyLayerFirstMatch(SeedToSoil(), x, 1);
    ApplyLayerNoMatch(SoilToFertilizer(), x + 2);
    if x < 60 {
      ApplyLayerFirstMatch(FertilizerToWater(), x + 2, 0);
      ApplyLayerFirstMatch(WaterToLight(), x - 2, 1);
    } else {
      ApplyLayerNoMatch(FertilizerToWater(), x + 2);
      ApplyLayerFirstMatch(WaterToLight(), x + 2, 1);
    }
  }

  /** A location reached by some seed that part 2 tries, and below the
      location of every such seed, is the answer of part 2. */
  lemma SolvePart2Attains(seeds: seq<nat>, mappings: seq<Layer>, best: nat, v: int)
    requires InSomePair(seeds, best) && GetLocationForSeed(best, mappings) == v
    requires forall x :: InSomePair(seeds, x) ==> v <= GetLocationForSeed(x, mappings)
    ensures SolvePart2(seeds, mappings) == Some(v)
  {
    SolvePart2Spec(seeds, mappings);
    var k :| 0 <= k < |seeds| / 2 && InPair(seeds[2 * k], seeds[2 * k + 1], best);
    assert seeds[2 * k + 1] > 1;
  }

  /** The seeds part 2 tries on the published seeds. */
  lemma ExamplePairs(seeds: seq<nat>, x: nat)
    requires seeds == [79, 14, 55, 13]
    ensures InSomePair(seeds, x) <==> 79 <= x < 92 || 55 <= x < 67
  {
    assert InPair(seeds[2 * 0], seeds[2 * 0 + 1], x) <==> 79 <= x < 92;
    assert InPair(seeds[2 * 1], seeds[2 * 1 + 1], x) <==> 55 <= x < 67;
  }

  /** Every seed part 2 tries on the published example ends at 46 or
      beyond. */
  lemma ExamplePairsBound(x: nat)
    requires 79 <= x < 92 || 55 <= x < 67
    ensures 46 <= GetLocationForSeed(x, ExampleAlmanac())
  {
    if x >= 79 {
      ExampleFirstPair(x);
    } else {
      ExampleSecondPair(x);
    }
  }

  /** Part 2 on the published almanac gives 46, the value the test
      asserts, even though the last seed of each pair is never tried. */
  lemma ExamplePart2(seeds: seq<nat>)
    requires seeds == [79, 14, 55, 13]
    ensures SolvePart2(seeds, ExampleAlmanac()) == Some(46)
  {
    ExamplePairs(seeds, 82);
    ExampleFirstPair(82);
    forall x | InSomePair(seeds, x) ensures 46 <= GetLocationForSeed(x, ExampleAlmanac()) {
      ExamplePairs(seeds, x);
      ExamplePairsBound(x);
    }
    SolvePart2Attains(seeds, ExampleAlmanac(), 82, 46);
  }
}
