/** The index logic of `RspProcessor.rsp_compute_rate`: breathing cycles run
    from one signal maximum to the next, a cycle is kept when exactly one
    signal minimum lies strictly inside it, and the trough of a kept cycle is
    the first position of its smallest sample. Finding the extrema and
    turning them into a rate are left to the caller. */
module Respiration {

  /** A candidate breathing cycle, from one maximum to the next (sample indices). */
  datatype Cycle = Cycle(start: nat, end: nat)

  predicate Ascending(m: seq<nat>) {
    forall i, j :: 0 <= i < j < |m| ==> m[i] < m[j]
  }

  /** `np.vstack([m[:-1], m[1:]]).T`: the pairs of consecutive maxima. */
  function Candidates(m: seq<nat>): (r: seq<Cycle>)
    ensures |r| == if |m| == 0 then 0 else |m| - 1
    ensures forall i :: 0 <= i < |r| ==> r[i] == Cycle(m[i], m[i + 1])
  {
    if |m| == 0 then [] else seq(|m| - 1, i requires 0 <= i < |m| - 1 => Cycle(m[i], m[i + 1]))
  }

  /** The minima strictly between `start` and `end`. */
  function Inside(minima: seq<int>, start: int, end: int): (r: seq<int>)
    ensures |r| <= |minima|
    ensures forall x :: x in r <==> x in minima && start < x < end
  {
    if minima == [] then []
    else (if start < minima[0] < end then [minima[0]] else []) + Inside(minima[1..], start, end)
  }

  /** `_check_contains_trough`: exactly one minimum lies strictly inside the cycle. */
  predicate ContainsTrough(c: Cycle, minima: seq<int>): (b: bool)
    ensures b ==> exists k :: 0 <= k < |minima| && c.start < minima[k] < c.end
  {
    var inside := Inside(minima, c.start, c.end);
    assert |inside| == 1 ==> inside[0] in minima && c.start < inside[0] < c.end;
    |inside| == 1
  }

  /** Position `k` holds the only minimum strictly between `start` and `end`. */
  predicate OnlyInside(minima: seq<int>, k: int, start: int, end: int) {
    0 <= k < |minima| && start < minima[k] < end &&
    forall j :: 0 <= j < |minima| && j != k ==> !(start < minima[j] < end)
  }

  /** A cycle contains a trough iff exactly one position of the minima holds a
      value strictly between its ends; a minimum at either end does not count. */
  lemma {:induction false} ContainsTroughMeaning(c: Cycle, minima: seq<int>)
    ensures ContainsTrough(c, minima) <==> exists k :: OnlyInside(minima, k, c.start, c.end)
  {
    OneInside(minima, c.start, c.end);
  }

  lemma {:induction false} OneInside(minima: seq<int>, start: int, end: int)
    ensures |Inside(minima, start, end)| == 1 <==> exists k :: OnlyInside(minima, k, start, end)
  {
    if minima != [] {
      var t := minima[1..];
      OneInside(t, start, end);
      if start < minima[0] < end {
        if |Inside(t, start, end)| == 0 {
          forall j | 0 <= j < |minima| && j != 0 ensures !(start < minima[j] < end) {
            assert minima[j] == t[j - 1] && t[j - 1] in t;
            assert Inside(t, start, end) == [];
          }
          assert OnlyInside(minima, 0, start, end);
        } else {
          var x := Inside(t, start, end)[0];
          assert x in t;
          var i :| 0 <= i < |t| && t[i] == x;
          assert minima[i + 1] == x;
          forall k | 0 <= k < |minima| ensures !OnlyInside(minima, k, start, end) {
            if k == 0 {
              assert i + 1 != k;
            } else {
              assert 0 != k;
            }
          }
        }
      } else {
        if exists k :: OnlyInside(t, k, start, end) {
          var k :| OnlyInside(t, k, start, end);
          assert OnlyInside(minima, k + 1, start, end) by {
            forall j | 0 <= j < |minima| && j != k + 1 ensures !(start < minima[j] < end) {
              if j > 0 {
                assert minima[j] == t[j - 1];
              }
            }
          }
        }
        if exists k :: OnlyInside(minima, k, start, end) {
          var k :| OnlyInside(minima, k, start, end);
          assert k != 0;
          assert OnlyInside(t, k - 1, start, end) by {
            forall j | 0 <= j < |t| && j != k - 1 ensures !(start < t[j] < end) {
              assert t[j] == minima[j + 1];
            }
          }
        }
      }
    }
  }

  /** `cycles[mask]`: the candidates that contain a trough, in their order. */
  function Kept(cycles: seq<Cycle>, minima: seq<int>): (r: seq<Cycle>)
    ensures |r| <= |cycles|
    ensures forall c :: c in r <==> c in cycles && ContainsTrough(c, minima)
  {
    if cycles == [] then []
    else (if ContainsTrough(cycles[0], minima) then [cycles[0]] else []) + Kept(cycles[1..], minima)
  }

  /** Cycles that follow each other without overlap. */
  predicate Chained(cs: seq<Cycle>) {
    (forall i :: 0 <= i < |cs| ==> cs[i].start < cs[i].end) &&
    (forall i, j :: 0 <= i < j < |cs| ==> cs[i].end <= cs[j].start)
  }

  /** The candidates of ascending maxima are chained, and so is every selection of them in order. */
  lemma {:induction false} CandidatesChained(m: seq<nat>)
    requires Ascending(m)
    ensures Chained(Candidates(m))
  {
    var cs := Candidates(m);
    forall i, j | 0 <= i < j < |cs| ensures cs[i].end <= cs[j].start {
      assert cs[i].end == m[i + 1] && cs[j].start == m[j];
    }
  }

  /** Filtering keeps the order: the kept cycles of a chained list are chained. */
  lemma {:induction false} KeptChained(cycles: seq<Cycle>, minima: seq<int>)
    requires Chained(cycles)
    ensures Chained(Kept(cycles, minima))
  {
    if cycles != [] {
      var tail := cycles[1..];
      assert Chained(tail);
      KeptChained(tail, minima);
      if ContainsTrough(cycles[0], minima) {
        HeadFirst(cycles);
        ChainedCons(cycles[0], Kept(tail, minima));
      }
    }
  }

  /** The first cycle of a chained list ends before any later one starts. */
  lemma {:induction false} HeadFirst(cycles: seq<Cycle>)
    requires Chained(cycles) && cycles != []
    ensures forall c :: c in cycles[1..] ==> cycles[0].end <= c.start
  {
    forall c | c in cycles[1..] ensures cycles[0].end <= c.start {
      var k :| 0 <= k < |cycles[1..]| && cycles[1..][k] == c;
      assert cycles[k + 1] == c;
    }
  }

  lemma {:induction false} ChainedCons(c: Cycle, rest: seq<Cycle>)
    requires Chained(rest) && c.start < c.end
    requires forall x :: x in rest ==> c.end <= x.start
    ensures Chained([c] + rest)
  {
    var r := [c] + rest;
    forall i, j | 0 <= i < j < |r| ensures r[i].end <= r[j].start {
      assert r[j] == rest[j - 1];
      if i > 0 {
        assert r[i] == rest[i - 1];
      } else {
        assert r[j] in rest;
      }
    }
  }

  /** The ends of the kept cycles, flattened: `[s0, e0, s1, e1, ...]`. */
  function Flatten(cs: seq<Cycle>): (r: seq<nat>)
    ensures |r| == 2 * |cs|
    ensures forall i :: 0 <= i < |cs| ==> r[2 * i] == cs[i].start && r[2 * i + 1] == cs[i].end
  {
    if cs == [] then []
    else
      var rest := Flatten(cs[1..]);
      var r := [cs[0].start, cs[0].end] + rest;
      assert forall i :: 1 <= i < |cs| ==> r[2 * i] == rest[2 * (i - 1)] && r[2 * i + 1] == rest[2 * (i - 1) + 1];
      r
  }

  predicate NonDecreasing(p: seq<nat>) {
    forall i, j :: 0 <= i < j < |p| ==> p[i] <= p[j]
  }

  /** `np.split(s, points)` with ascending points, from position `lo` on. */
  function SplitFrom<T>(s: seq<T>, lo: nat, points: seq<nat>): (r: seq<seq<T>>)
    requires NonDecreasing(points)
    requires lo <= |s|
    requires forall i :: 0 <= i < |points| ==> lo <= points[i] <= |s|
    ensures |r| == |points| + 1
    ensures forall k :: 0 <= k < |r| ==>
      r[k] == s[(if k == 0 then lo else points[k - 1])..(if k < |points| then points[k] else |s|)]
    decreases |points|
  {
    if points == [] then [s[lo..]]
    else
      var rest := SplitFrom(s, points[0], points[1..]);
      [s[lo..points[0]]] + rest
  }

  /** `pieces[1::2]`. */
  function OddPieces<T>(pieces: seq<seq<T>>): (r: seq<seq<T>>)
    ensures |r| == |pieces| / 2
    ensures forall i :: 0 <= i < |r| ==> r[i] == pieces[2 * i + 1]
  {
    seq(|pieces| / 2, i requires 0 <= i < |pieces| / 2 => pieces[2 * i + 1])
  }

  /** `np.argmin`: the first position of the smallest sample. */
  function ArgMin(xs: seq<real>): (r: nat)
    requires |xs| > 0
    ensures r < |xs|
    ensures forall j :: 0 <= j < |xs| ==> xs[r] <= xs[j]
    ensures forall j :: 0 <= j < r ==> xs[j] > xs[r]
  {
    if |xs| == 1 then 0
    else
      var k := ArgMin(xs[1..]);
      if xs[0] <= xs[1..][k] then 0 else k + 1
  }

  /** The rows of `signal` the kept cycles stand for, as `np.split` cuts them. */
  function CycleSegments(signal: seq<real>, kept: seq<Cycle>): (r: seq<seq<real>>)
    requires Chained(kept)
    requires forall i :: 0 <= i < |kept| ==> kept[i].end <= |signal|
    ensures |r| == |kept|
  {
    var points := Flatten(kept);
    assert NonDecreasing(points) by {
      forall i, j | 0 <= i < j < |points| ensures points[i] <= points[j] {
        var a, b := i / 2, j / 2;
        assert points[i] == if i % 2 == 0 then kept[a].start else kept[a].end;
        assert points[j] == if j % 2 == 0 then kept[b].start else kept[b].end;
      }
    }
    assert forall i :: 0 <= i < |points| ==> points[i] <= |signal| by {
      forall i | 0 <= i < |points| ensures points[i] <= |signal| {
        assert points[i] == if i % 2 == 0 then kept[i / 2].start else kept[i / 2].end;
      }
    }
    OddPieces(SplitFrom(signal, 0, points))
  }

  /** Each segment is the part of the signal from the start of its cycle up to its end. */
  lemma {:induction false} SegmentsAreCycles(signal: seq<real>, kept: seq<Cycle>)
    requires Chained(kept)
    requires forall i :: 0 <= i < |kept| ==> kept[i].end <= |signal|
    ensures forall i :: 0 <= i < |kept| ==> CycleSegments(signal, kept)[i] == signal[kept[i].start..kept[i].end]
  {
    var points := Flatten(kept);
    forall i | 0 <= i < |kept| ensures CycleSegments(signal, kept)[i] == signal[kept[i].start..kept[i].end] {
      assert points[2 * i] == kept[i].start && points[2 * i + 1] == kept[i].end;
    }
  }

  /** The kept cycles of ascending maxima within the signal are chained and within the signal. */
  lemma {:induction false} KeptInSignal(signal: seq<real>, maxima: seq<nat>, minima: seq<int>)
    requires Ascending(maxima)
    requires forall i :: 0 <= i < |maxima| ==> maxima[i] < |signal|
    ensures var kept := Kept(Candidates(maxima), minima);
      Chained(kept) && forall i :: 0 <= i < |kept| ==> kept[i].end <= |signal|
  {
    var cycles := Candidates(maxima);
    var kept := Kept(cycles, minima);
    CandidatesChained(maxima);
    KeptChained(cycles, minima);
    forall i | 0 <= i < |kept| ensures kept[i].end <= |signal| {
      assert kept[i] in cycles;
    }
  }

  /** The peaks and troughs of the kept breathing cycles. */
  datatype Extrema = Extrema(peaks: seq<nat>, troughs: seq<nat>)

  /** The cycle selection of `rsp_compute_rate`, given the signal, its maxima
      above the threshold and its minima: the peaks are the starts of the kept
      cycles and each trough is the start plus the argmin of the cycle's samples. */
  function SelectCycles(signal: seq<real>, maxima: seq<nat>, minima: seq<int>): (r: Extrema)
    requires Ascending(maxima)
    requires forall i :: 0 <= i < |maxima| ==> maxima[i] < |signal|
    ensures |r.peaks| == |r.troughs| <= |Candidates(maxima)|
    ensures forall i :: 0 <= i < |r.peaks| ==> r.peaks[i] in maxima && r.peaks[i] <= r.troughs[i] < |signal|
  {
    var kept := Kept(Candidates(maxima), minima);
    KeptInSignal(signal, maxima, minima);
    assert forall i :: 0 <= i < |kept| ==> kept[i].start in maxima by {
      forall i | 0 <= i < |kept| ensures kept[i].start in maxima {
        var cycles := Candidates(maxima);
        assert kept[i] in cycles;
        var j :| 0 <= j < |cycles| && cycles[j] == kept[i];
        assert kept[i].start == maxima[j];
      }
    }
    ExtremaOf(signal, kept)
  }

  /** The peaks and troughs of chained cycles within the signal. */
  function ExtremaOf(signal: seq<real>, kept: seq<Cycle>): (r: Extrema)
    requires Chained(kept)
    requires forall i :: 0 <= i < |kept| ==> kept[i].end <= |signal|
    ensures |r.peaks| == |r.troughs| == |kept|
    ensures forall i :: 0 <= i < |kept| ==> r.peaks[i] == kept[i].start && kept[i].start <= r.troughs[i] < kept[i].end
  {
    var segments := CycleSegments(signal, kept);
    SegmentsAreCycles(signal, kept);
    Extrema(
      seq(|kept|, i requires 0 <= i < |kept| => kept[i].start),
      seq(|kept|, i requires 0 <= i < |kept| => ArgMin(segments[i]) + kept[i].start))
  }

  /** `t` is the first position of the smallest sample of cycle `c`. */
  predicate IsTrough(signal: seq<real>, c: Cycle, t: nat)
    requires c.end <= |signal|
  {
    c.start <= t < c.end &&
    (forall u :: c.start <= u < c.end ==> signal[t] <= signal[u]) &&
    (forall u :: c.start <= u < t ==> signal[u] > signal[t])
  }

  /** The peaks are the starts of the kept cycles, strictly ascending; each
      trough lies in its cycle, at the first position of the cycle's smallest sample. */
  lemma {:induction false} SelectCyclesMeaning(signal: seq<real>, maxima: seq<nat>, minima: seq<int>)
    requires Ascending(maxima)
    requires forall i :: 0 <= i < |maxima| ==> maxima[i] < |signal|
    ensures var r := SelectCycles(signal, maxima, minima);
      var kept := Kept(Candidates(maxima), minima);
      |r.peaks| == |kept| &&
      (forall i, j :: 0 <= i < j < |r.peaks| ==> r.peaks[i] < r.peaks[j]) &&
      forall i :: 0 <= i < |kept| ==>
        r.peaks[i] == kept[i].start && kept[i].end <= |signal| && IsTrough(signal, kept[i], r.troughs[i])
  {
    var kept := Kept(Candidates(maxima), minima);
    KeptInSignal(signal, maxima, minima);
    ExtremaOfMeaning(signal, kept);
  }

  lemma {:induction false} ExtremaOfMeaning(signal: seq<real>, kept: seq<Cycle>)
    requires Chained(kept)
    requires forall i :: 0 <= i < |kept| ==> kept[i].end <= |signal|
    ensures var r := ExtremaOf(signal, kept);
      (forall i, j :: 0 <= i < j < |r.peaks| ==> r.peaks[i] < r.peaks[j]) &&
      forall i :: 0 <= i < |kept| ==> r.peaks[i] == kept[i].start && IsTrough(signal, kept[i], r.troughs[i])
  {
    var r := ExtremaOf(signal, kept);
    ChainedStartsAscending(kept);
    SegmentsAreCycles(signal, kept);
    forall i | 0 <= i < |kept| ensures IsTrough(signal, kept[i], r.troughs[i]) {
      TroughOfSegment(signal, kept[i]);
    }
  }

  lemma {:induction false} ChainedStartsAscending(cs: seq<Cycle>)
    requires Chained(cs)
    ensures forall i, j :: 0 <= i < j < |cs| ==> cs[i].start < cs[j].start
  {
    forall i, j | 0 <= i < j < |cs| ensures cs[i].start < cs[j].start {
      assert cs[i].start < cs[i].end <= cs[j].start;
    }
  }

  /** The argmin of a cycle's samples, shifted by its start, is the cycle's trough. */
  lemma {:induction false} TroughOfSegment(signal: seq<real>, c: Cycle)
    requires c.start < c.end <= |signal|
    ensures IsTrough(signal, c, ArgMin(signal[c.start..c.end]) + c.start)
  {
    var seg := signal[c.start..c.end];
    var t := ArgMin(seg) + c.start;
    forall u | c.start <= u < c.end ensures signal[t] <= signal[u] {
      assert seg[u - c.start] == signal[u];
    }
    forall u | c.start <= u < t ensures signal[u] > signal[t] {
      assert seg[u - c.start] == signal[u];
    }
  }
}
