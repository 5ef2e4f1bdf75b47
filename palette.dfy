/**
 * The palette algorithms of utils.hpp, as the loops the source runs, each proved equal
 * to a recursive specification whose properties are lemmas: remove_duplicates,
 * extract_dominant_colors, find_closest_color and quantize_to_palette.
 * Distances in RGB are compared on their exact radicands (see Utils.Closer).
 */
module Palette {
  import opened Numeric
  import opened Basic
  import opened Utils

  // ---------------------------------------------------------------------------
  // remove_duplicates.

  /** Some colour of `kept` is closer to c than the threshold. */
  predicate NearAny(c: RGB, kept: seq<RGB>, threshold: real) {
    exists k :: 0 <= k < |kept| && Closer(c, kept[k], threshold)
  }

  /** The colours remove_duplicates keeps: each input colour in turn, unless it is near one already kept. */
  function Deduplicated(palette: seq<RGB>, threshold: real): (unique: seq<RGB>)
    ensures |unique| <= |palette|
    ensures |palette| > 0 ==> |unique| > 0 && unique[0] == palette[0]
  {
    if palette == [] then []
    else
      var kept := Deduplicated(palette[..|palette| - 1], threshold);
      var c := palette[|palette| - 1];
      if NearAny(c, kept, threshold) then kept else kept + [c]
  }

  /** remove_duplicates: the nested loops, pushing each colour no kept colour is near. */
  method RemoveDuplicates(palette: seq<RGB>, threshold: real) returns (unique: seq<RGB>)
    ensures unique == Deduplicated(palette, threshold)
  {
    unique := [];
    for i := 0 to |palette|
      invariant unique == Deduplicated(palette[..i], threshold)
    {
      var color := palette[i];
      var isDuplicate := false;
      var j := 0;
      while j < |unique| && !isDuplicate
        invariant 0 <= j <= |unique|
        invariant isDuplicate ==> NearAny(color, unique, threshold)
        invariant !isDuplicate ==> forall k :: 0 <= k < j ==> !Closer(color, unique[k], threshold)
      {
        if Closer(color, unique[j], threshold) {
          isDuplicate := true;
        }
        j := j + 1;
      }
      assert palette[..i + 1][..i] == palette[..i];
      if !isDuplicate {
        unique := unique + [color];
      }
    }
    assert palette[..|palette|] == palette;
  }

  /** idx lists, in increasing order, positions of p that hold the colours of u. */
  predicate IndexedBy(u: seq<RGB>, p: seq<RGB>, idx: seq<nat>) {
    && |idx| == |u|
    && (forall k :: 0 <= k < |idx| ==> idx[k] < |p| && u[k] == p[idx[k]])
    && (forall k, l :: 0 <= k < l < |idx| ==> idx[k] < idx[l])
  }

  /** The kept colours are an order-preserving subsequence of the input. */
  lemma {:induction false} DeduplicatedSubsequence(palette: seq<RGB>, threshold: real) returns (idx: seq<nat>)
    ensures IndexedBy(Deduplicated(palette, threshold), palette, idx)
    decreases |palette|
  {
    if palette == [] {
      idx := [];
    } else {
      var n := |palette| - 1;
      var prefix := palette[..n];
      var kept := Deduplicated(prefix, threshold);
      idx := DeduplicatedSubsequence(prefix, threshold);
      IndexedExtend(kept, palette, n, idx);
      if !NearAny(palette[n], kept, threshold) {
        idx := idx + [n];
      }
    }
  }

  /** Indices into a prefix index the whole sequence; the next position can be appended. */
  lemma IndexedExtend(u: seq<RGB>, p: seq<RGB>, n: nat, idx: seq<nat>)
    requires n < |p| && IndexedBy(u, p[..n], idx)
    ensures IndexedBy(u, p, idx)
    ensures IndexedBy(u + [p[n]], p, idx + [n])
  {
    assert forall k :: 0 <= k < |idx| ==> p[..n][idx[k]] == p[idx[k]];
  }

  /** No two colours of u, in either order, are closer than the threshold. */
  predicate Separated(u: seq<RGB>, threshold: real) {
    forall k, l :: 0 <= k < l < |u| ==> !Closer(u[k], u[l], threshold) && !Closer(u[l], u[k], threshold)
  }

  /** No two kept colours are closer than the threshold. */
  lemma {:induction false} DeduplicatedSeparated(palette: seq<RGB>, threshold: real)
    ensures Separated(Deduplicated(palette, threshold), threshold)
    decreases |palette|
  {
    if palette != [] {
      var prefix := palette[..|palette| - 1];
      DeduplicatedSeparated(prefix, threshold);
      var kept := Deduplicated(prefix, threshold);
      var c := palette[|palette| - 1];
      if !NearAny(c, kept, threshold) {
        SeparatedAppend(kept, c, threshold);
      }
    }
  }

  /** Appending a colour near none of a separated sequence keeps it separated. */
  lemma SeparatedAppend(kept: seq<RGB>, c: RGB, threshold: real)
    requires Separated(kept, threshold) && !NearAny(c, kept, threshold)
    ensures Separated(kept + [c], threshold)
  {
    var unique := kept + [c];
    forall k, l | 0 <= k < l < |unique|
      ensures !Closer(unique[k], unique[l], threshold) && !Closer(unique[l], unique[k], threshold)
    {
      if l == |kept| {
        assert !Closer(c, kept[k], threshold);
        CloserSymmetric(kept[k], c, threshold);
      } else {
        assert unique[k] == kept[k] && unique[l] == kept[l];
      }
    }
  }

  /** What is kept from a prefix of the input is a prefix of what is kept from all of it. */
  lemma {:induction false} DeduplicatedPrefix(palette: seq<RGB>, threshold: real, n: nat)
    requires n <= |palette|
    ensures Deduplicated(palette[..n], threshold) <= Deduplicated(palette, threshold)
    decreases |palette| - n
  {
    if n < |palette| {
      DeduplicatedPrefix(palette, threshold, n + 1);
      assert palette[..n + 1][..n] == palette[..n];
    } else {
      assert palette[..n] == palette;
    }
  }

  /**
   * Every input colour is either kept, right after what its predecessors kept, or dropped
   * because it is near a colour kept before it.
   */
  lemma DeduplicatedCovers(palette: seq<RGB>, threshold: real, i: nat)
    requires i < |palette|
    ensures var before := Deduplicated(palette[..i], threshold);
            var unique := Deduplicated(palette, threshold);
            before <= unique &&
            (NearAny(palette[i], before, threshold) || before + [palette[i]] <= unique)
  {
    DeduplicatedPrefix(palette, threshold, i);
    DeduplicatedPrefix(palette, threshold, i + 1);
    assert palette[..i + 1][..i] == palette[..i];
  }

  /** A threshold of at most 0 drops nothing. */
  lemma {:induction false} DeduplicatedKeepsAll(palette: seq<RGB>, threshold: real)
    requires threshold <= 0.0
    ensures Deduplicated(palette, threshold) == palette
    decreases |palette|
  {
    if palette != [] {
      var prefix := palette[..|palette| - 1];
      DeduplicatedKeepsAll(prefix, threshold);
      assert prefix + [palette[|palette| - 1]] == palette;
    }
  }

  // ---------------------------------------------------------------------------
  // extract_dominant_colors.

  /**
   * The starting min_distance, std::numeric_limits<double>::max(): every real squared
   * distance, at most 3 * 255 * 255, is below it.
   */
  const NO_DISTANCE: nat := 3 * 255 * 255 + 1

  /** The inner loop's min_distance: the smaller of each squared distance from c to a selected colour and the start. */
  function MinDistanceTo(c: RGB, selected: seq<RGB>): (d: nat)
    ensures d <= NO_DISTANCE
    ensures selected == [] ==> d == NO_DISTANCE
  {
    if selected == [] then NO_DISTANCE
    else
      var n := |selected| - 1;
      var d := RgbDistanceSquared(c, selected[n]);
      var rest := MinDistanceTo(c, selected[..n]);
      if d < rest then d else rest
  }

  /** min_distance is the smallest squared distance from c to a selected colour, and it is reached. */
  lemma {:induction false} MinDistanceIsMinimum(c: RGB, selected: seq<RGB>)
    ensures forall k :: 0 <= k < |selected| ==> MinDistanceTo(c, selected) <= RgbDistanceSquared(c, selected[k])
    ensures selected != [] ==> exists k :: 0 <= k < |selected| && MinDistanceTo(c, selected) == RgbDistanceSquared(c, selected[k])
  {
    if selected != [] {
      var n := |selected| - 1;
      MinDistanceIsMinimum(c, selected[..n]);
      if n > 0 {
        var k :| 0 <= k < n && MinDistanceTo(c, selected[..n]) == RgbDistanceSquared(c, selected[..n][k]);
        assert selected[..n][k] == selected[k];
      }
      assert forall k :: 0 <= k < n ==> selected[..n][k] == selected[k];
    }
  }

  /** The min_distance of every remaining colour to the selection. */
  function MinDistances(remaining: seq<RGB>, selected: seq<RGB>): (ds: seq<nat>)
    ensures |ds| == |remaining|
    ensures forall i :: 0 <= i < |ds| ==> ds[i] == MinDistanceTo(remaining[i], selected)
  {
    seq(|remaining|, i requires 0 <= i < |remaining| => MinDistanceTo(remaining[i], selected))
  }

  /**
   * The scan over the first n min-distances: the index and value of the first largest
   * one, or index 0 and distance 0 when none is above 0 (best_distance starts at 0 and
   * only a strictly larger value replaces it).
   */
  function BestUpTo(ds: seq<nat>, n: nat): (best: (nat, nat))
    requires 0 < |ds| && n <= |ds|
    ensures best.0 < |ds|
    ensures forall j :: 0 <= j < n ==> ds[j] <= best.1
    ensures best.1 == 0 ==> best.0 == 0
    ensures 0 < best.1 ==> best.0 < n && best.1 == ds[best.0]
    ensures 0 < best.1 ==> forall j :: 0 <= j < best.0 ==> ds[j] < best.1
  {
    if n == 0 then (0, 0)
    else
      var prev := BestUpTo(ds, n - 1);
      if ds[n - 1] > prev.1 then (n - 1, ds[n - 1]) else prev
  }

  /** The position the scan picks: the first remaining colour farthest from the selection. */
  function BestIndex(remaining: seq<RGB>, selected: seq<RGB>): (i: nat)
    requires remaining != []
    ensures i < |remaining|
  {
    BestUpTo(MinDistances(remaining, selected), |remaining|).0
  }

  /**
   * The greedy step: the picked colour is farthest from the selection (largest
   * min_distance), and the first such colour.
   */
  lemma BestIndexIsFarthest(remaining: seq<RGB>, selected: seq<RGB>)
    requires remaining != []
    ensures var i := BestIndex(remaining, selected);
            && (forall j :: 0 <= j < |remaining| ==> MinDistanceTo(remaining[j], selected) <= MinDistanceTo(remaining[i], selected))
            && (forall j :: 0 <= j < i ==> MinDistanceTo(remaining[j], selected) < MinDistanceTo(remaining[i], selected))
  {
    var ds := MinDistances(remaining, selected);
    var best := BestUpTo(ds, |remaining|);
    if best.1 == 0 {
      assert ds[0] <= 0;
    }
  }

  /** The outer loop: pick the farthest remaining colour until the limit or the input runs out. */
  function Extracted(selected: seq<RGB>, remaining: seq<RGB>, limit: nat): seq<RGB>
    decreases |remaining|
  {
    if |selected| >= limit || remaining == [] then selected
    else
      var i := BestIndex(remaining, selected);
      Extracted(selected + [remaining[i]], remaining[..i] + remaining[i + 1..], limit)
  }

  /** The largest size a vector can reach is below 2^63. */
  const MAX_SIZE: nat := 0x8000_0000_0000_0000

  /** static_cast<size_t>(count) on a 64-bit size_t: a negative count wraps to a huge limit. */
  function SizeOf(count: Int32): (n: nat)
    ensures 0 <= count ==> n == count
    ensures count < 0 ==> n == count + 0x1_0000_0000_0000_0000 && MAX_SIZE < n
  {
    if count < 0 then count + 0x1_0000_0000_0000_0000 else count
  }

  function Min(x: nat, y: nat): nat {
    if x < y then x else y
  }

  /** What extract_dominant_colors returns. */
  function DominantColors(colors: seq<RGB>, count: Int32): seq<RGB> {
    if colors == [] then [] else Extracted([], colors, SizeOf(count))
  }

  /** extract_dominant_colors's innermost loop: min_distance from c over the selected colours. */
  method MinDistance(c: RGB, selected: seq<RGB>) returns (minDistance: nat)
    ensures minDistance == MinDistanceTo(c, selected)
  {
    minDistance := NO_DISTANCE;
    for k := 0 to |selected|
      invariant minDistance == MinDistanceTo(c, selected[..k])
    {
      var dist := RgbDistanceSquared(c, selected[k]);
      assert selected[..k + 1][..k] == selected[..k];
      minDistance := if dist < minDistance then dist else minDistance;
    }
    assert selected[..|selected|] == selected;
  }

  /**
   * extract_dominant_colors's scan: best_distance from 0, best_index from 0, replaced by
   * any remaining colour whose min_distance is strictly larger.
   */
  method FarthestIndex(remaining: seq<RGB>, selected: seq<RGB>) returns (bestIndex: nat)
    requires remaining != []
    ensures bestIndex == BestIndex(remaining, selected)
  {
    var bestDistance := 0;
    bestIndex := 0;
    ghost var ds := MinDistances(remaining, selected);
    for i := 0 to |remaining|
      invariant bestIndex == BestUpTo(ds, i).0 && bestDistance == BestUpTo(ds, i).1
    {
      var minDistance := MinDistance(remaining[i], selected);
      assert minDistance == ds[i];
      assert BestUpTo(ds, i + 1) == if ds[i] > BestUpTo(ds, i).1 then (i, ds[i]) else BestUpTo(ds, i);
      if minDistance > bestDistance {
        bestDistance := minDistance;
        bestIndex := i;
      }
    }
  }

  /** extract_dominant_colors: pick the farthest remaining colour, push it, erase it, until count or the input runs out. */
  method ExtractDominantColors(colors: seq<RGB>, count: Int32) returns (dominant: seq<RGB>)
    ensures dominant == DominantColors(colors, count)
  {
    if colors == [] {
      return [];
    }
    dominant := [];
    var remaining := colors;
    var limit := SizeOf(count);
    while |dominant| < limit && remaining != []
      invariant Extracted(dominant, remaining, limit) == DominantColors(colors, count)
      decreases |remaining|
    {
      var bestIndex := FarthestIndex(remaining, dominant);
      var bestColor := remaining[bestIndex];
      dominant, remaining := dominant + [bestColor], remaining[..bestIndex] + remaining[bestIndex + 1..];
    }
  }

  /**
   * The outer loop keeps what it selected, stops at the limit or when the input is used
   * up, and draws every pick from the remaining colours without reuse.
   */
  lemma {:induction false} ExtractedLaws(selected: seq<RGB>, remaining: seq<RGB>, limit: nat)
    ensures var r := Extracted(selected, remaining, limit);
            && selected <= r
            && |r| == (if |selected| >= limit then |selected| else Min(limit, |selected| + |remaining|))
            && multiset(r) <= multiset(selected) + multiset(remaining)
    decreases |remaining|
  {
    if |selected| < limit && remaining != [] {
      var i := BestIndex(remaining, selected);
      var rest := remaining[..i] + remaining[i + 1..];
      var next := selected + [remaining[i]];
      ExtractedLaws(next, rest, limit);
      assert Extracted(selected, remaining, limit) == Extracted(next, rest, limit);
      RemovedOne(remaining, i);
      assert multiset(next) + multiset(rest) == multiset(selected) + multiset(remaining);
    }
  }

  /** Erasing position i and appending what was there keeps the multiset. */
  lemma RemovedOne(s: seq<RGB>, i: nat)
    requires i < |s|
    ensures multiset(s[..i] + s[i + 1..]) + multiset{s[i]} == multiset(s)
  {
    assert s == s[..i] + [s[i]] + s[i + 1..];
  }

  /** With nothing selected yet every colour is at the starting distance, so the first pick is the first colour. */
  lemma FirstPickIsFirst(colors: seq<RGB>)
    requires colors != []
    ensures BestIndex(colors, []) == 0
  {
    var ds := MinDistances(colors, []);
    assert ds[0] == NO_DISTANCE;
  }

  /**
   * extract_dominant_colors: empty input gives nothing; otherwise min(count, |colors|)
   * colours (all of them for a negative count), drawn from the input without reuse.
   */
  lemma DominantColorsLaws(colors: seq<RGB>, count: Int32)
    ensures colors == [] ==> DominantColors(colors, count) == []
    ensures 0 <= count ==> |DominantColors(colors, count)| == Min(count, |colors|)
    ensures count < 0 && |colors| < MAX_SIZE ==> |DominantColors(colors, count)| == |colors|
    ensures multiset(DominantColors(colors, count)) <= multiset(colors)
  {
    if colors != [] {
      ExtractedLaws([], colors, SizeOf(count));
    }
  }

  /** extract_dominant_colors picks colors[0] first. */
  lemma DominantColorsFirst(colors: seq<RGB>, count: Int32)
    requires colors != [] && 0 < count
    ensures |DominantColors(colors, count)| > 0 && DominantColors(colors, count)[0] == colors[0]
  {
    var limit := SizeOf(count);
    FirstPickIsFirst(colors);
    var rest := colors[..0] + colors[1..];
    assert [] + [colors[0]] == [colors[0]];
    assert DominantColors(colors, count) == Extracted([], colors, limit);
    assert Extracted([], colors, limit) == Extracted([colors[0]], rest, limit);
    ExtractedLaws([colors[0]], rest, limit);
  }

  // ---------------------------------------------------------------------------
  // find_closest_color and quantize_to_palette.

  /**
   * The position find_closest_color's loop holds after the first n palette entries (it
   * starts at 0), for a distance to the target `dist`.
   */
  function ClosestIndex(dist: RGB -> real, palette: seq<RGB>, n: nat): (k: nat)
    requires 0 < |palette| && n <= |palette|
    ensures k < |palette| && (k < n || k == 0)
    ensures forall j :: 0 <= j < n ==> dist(palette[k]) <= dist(palette[j])
    ensures forall j :: 0 <= j < k ==> dist(palette[k]) < dist(palette[j])
  {
    if n == 0 then 0
    else
      var k := ClosestIndex(dist, palette, n - 1);
      if dist(palette[n - 1]) < dist(palette[k]) then n - 1 else k
  }

  /** The colour distance to a fixed target. */
  function DistanceTo(m: Libm, target: RGB): RGB -> real {
    c => ColorDistance(m, target, c)
  }

  /** What find_closest_color returns, for a distance to the target `dist`. */
  function ClosestBy(dist: RGB -> real, target: RGB, palette: seq<RGB>): RGB {
    if palette == [] then target else palette[ClosestIndex(dist, palette, |palette|)]
  }

  /**
   * find_closest_color returns the target for an empty palette, otherwise a palette entry
   * at the smallest distance, the first one on ties.
   */
  lemma ClosestByIsClosest(dist: RGB -> real, target: RGB, palette: seq<RGB>)
    ensures var c := ClosestBy(dist, target, palette);
            && (palette == [] ==> c == target)
            && (palette != [] ==> c in palette)
            && (forall j :: 0 <= j < |palette| ==> dist(c) <= dist(palette[j]))
            && (palette != [] ==>
                  exists k :: 0 <= k < |palette| && c == palette[k] &&
                    (forall j :: 0 <= j < k ==> dist(c) < dist(palette[j])))
  {
    if palette != [] {
      var k := ClosestIndex(dist, palette, |palette|);
      assert ClosestBy(dist, target, palette) == palette[k];
    }
  }

  /** find_closest_color with the LAB colour distance. */
  function Closest(m: Libm, target: RGB, palette: seq<RGB>): RGB {
    ClosestBy(DistanceTo(m, target), target, palette)
  }

  /** find_closest_color: start with palette[0], replace it by any strictly closer entry. */
  method FindClosestColor(m: Libm, target: RGB, palette: seq<RGB>) returns (closest: RGB)
    ensures closest == Closest(m, target, palette)
  {
    if palette == [] {
      return target;
    }
    ghost var dist := DistanceTo(m, target);
    closest := palette[0];
    var minDistance := ColorDistance(m, target, closest);
    ghost var k := 0;
    for i := 0 to |palette|
      invariant k == ClosestIndex(dist, palette, i)
      invariant closest == palette[k] && minDistance == dist(closest)
    {
      var distance := ColorDistance(m, target, palette[i]);
      assert distance == dist(palette[i]);
      if distance < minDistance {
        minDistance := distance;
        closest := palette[i];
        k := i;
      }
    }
  }

  /** quantize_to_palette: every colour replaced by its closest palette entry, in order. */
  method QuantizeToPalette(m: Libm, colors: seq<RGB>, palette: seq<RGB>) returns (quantized: seq<RGB>)
    ensures |quantized| == |colors|
    ensures forall i :: 0 <= i < |colors| ==> quantized[i] == Closest(m, colors[i], palette)
  {
    quantized := [];
    for i := 0 to |colors|
      invariant |quantized| == i
      invariant forall j :: 0 <= j < i ==> quantized[j] == Closest(m, colors[j], palette)
    {
      var c := FindClosestColor(m, colors[i], palette);
      quantized := quantized + [c];
    }
  }
}
