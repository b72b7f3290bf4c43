/** Fractile labels. The builder only relies on two facts about the labels the
    quantile cut produces: each is in 1..N, and a larger standardized value never
    gets a smaller label. `RankFractiles` is one labelling with both facts. */
module Fractiles {
  import opened Sequences

  /** A factor's standardized value for one security and the fractile it falls in. */
  datatype Score = Score(z: real, fractile: int)

  /** `labels` is a fractile labelling of the values `zs` into `n` buckets. */
  predicate ValidFractiles(zs: seq<real>, labels: seq<int>, n: int) {
    && |zs| == |labels|
    && (forall i :: 0 <= i < |labels| ==> 1 <= labels[i] <= n)
    && (forall i, j :: 0 <= i < |zs| && 0 <= j < |zs| && zs[i] <= zs[j] ==> labels[i] <= labels[j])
  }

  /** In a valid labelling, a value in a higher bucket is strictly larger. */
  lemma HigherLabelLargerValue(zs: seq<real>, labels: seq<int>, n: int, i: int, j: int)
    requires ValidFractiles(zs, labels, n)
    requires 0 <= i < |zs| && 0 <= j < |zs| && labels[i] < labels[j]
    ensures zs[i] < zs[j]
  {
  }

  function Below(v: real): real -> bool {
    x => x < v
  }

  /** How many of the values are strictly smaller than `v`. */
  function CountBelow(zs: seq<real>, v: real): nat {
    |Filter(zs, Below(v))|
  }

  /** Rank-band labelling: a value with `c` of the `m` values below it gets
      label 1 + (c * n) / m, so equal values share a label and the bands of a
      sorted distinct sequence are contiguous and as equal in size as possible. */
  function RankFractiles(zs: seq<real>, n: int): (labels: seq<int>)
    requires n >= 1
    ensures ValidFractiles(zs, labels, n)
  {
    var labels := seq(|zs|, i requires 0 <= i < |zs| => 1 + CountBelow(zs, zs[i]) * n / |zs|);
    RankFractilesInRange(zs, n, labels);
    RankFractilesMonotone(zs, n, labels);
    labels
  }

  lemma RankFractilesInRange(zs: seq<real>, n: int, labels: seq<int>)
    requires n >= 1
    requires |labels| == |zs|
    requires forall i :: 0 <= i < |zs| ==> labels[i] == 1 + CountBelow(zs, zs[i]) * n / |zs|
    ensures forall i :: 0 <= i < |labels| ==> 1 <= labels[i] <= n
  {
    forall i | 0 <= i < |zs|
      ensures 1 <= labels[i] <= n
    {
      FilterDropsFailing(zs, Below(zs[i]), i);
      ScaledRankBelow(CountBelow(zs, zs[i]), |zs|, n);
    }
  }

  lemma RankFractilesMonotone(zs: seq<real>, n: int, labels: seq<int>)
    requires n >= 1
    requires |labels| == |zs|
    requires forall i :: 0 <= i < |zs| ==> labels[i] == 1 + CountBelow(zs, zs[i]) * n / |zs|
    ensures forall i, j :: 0 <= i < |zs| && 0 <= j < |zs| && zs[i] <= zs[j] ==> labels[i] <= labels[j]
  {
    forall i, j | 0 <= i < |zs| && 0 <= j < |zs| && zs[i] <= zs[j]
      ensures labels[i] <= labels[j]
    {
      FilterCountMonotone(zs, Below(zs[i]), Below(zs[j]));
      ScaledRankMonotone(CountBelow(zs, zs[i]), CountBelow(zs, zs[j]), n, |zs|);
    }
  }

  lemma ScaledRankMonotone(a: nat, b: nat, n: nat, m: nat)
    requires a <= b && m > 0
    ensures a * n / m <= b * n / m
  {
    MulMonotone(a, b, n);
    DivMonotone(a * n, b * n, m);
  }

  lemma MulMonotone(a: nat, b: nat, n: nat)
    requires a <= b
    ensures a * n <= b * n
  {
  }

  lemma DivMonotone(a: int, b: int, m: int)
    requires 0 <= a <= b && m > 0
    ensures a / m <= b / m
  {
    if a / m > b / m {
      MulMonotone(b / m + 1, a / m, m);
    }
  }

  lemma ScaledRankBelow(c: nat, m: nat, n: nat)
    requires c < m && n >= 1
    ensures 0 <= c * n / m < n
  {
    MulMonotone(c + 1, m, n);
    if c * n / m >= n {
      MulMonotone(n, c * n / m, m);
    }
  }

  /** On strictly increasing values, the label of position i is 1 + (i * n) / m:
      the sorted values are cut into n contiguous bands. */
  lemma RankFractilesOfSorted(zs: seq<real>, n: int)
    requires n >= 1
    requires forall i, j :: 0 <= i < j < |zs| ==> zs[i] < zs[j]
    ensures forall i :: 0 <= i < |zs| ==> RankFractiles(zs, n)[i] == 1 + i * n / |zs|
  {
    forall i | 0 <= i < |zs|
      ensures RankFractiles(zs, n)[i] == 1 + i * n / |zs|
    {
      CountBelowSorted(zs, i);
    }
  }

  /** In a strictly increasing sequence, exactly the i values before position i are below it. */
  lemma CountBelowSorted(zs: seq<real>, i: int)
    requires forall i, j :: 0 <= i < j < |zs| ==> zs[i] < zs[j]
    requires 0 <= i < |zs|
    ensures CountBelow(zs, zs[i]) == i
  {
    assert zs == zs[..i] + zs[i..];
    FilterConcat(zs[..i], zs[i..], Below(zs[i]));
    FilterKeepsAll(zs[..i], Below(zs[i]));
    FilterKeepsNone(zs[i..], Below(zs[i]));
  }

  /** Eight increasing values cut into quartiles give two securities per quartile. */
  lemma EightIntoQuartiles(zs: seq<real>)
    requires |zs| == 8
    requires forall i, j :: 0 <= i < j < |zs| ==> zs[i] < zs[j]
    ensures RankFractiles(zs, 4) == [1, 1, 2, 2, 3, 3, 4, 4]
  {
    RankFractilesOfSorted(zs, 4);
    QuartileBands(RankFractiles(zs, 4));
  }

  lemma QuartileBands(labels: seq<int>)
    requires |labels| == 8
    requires forall i :: 0 <= i < 8 ==> labels[i] == 1 + i * 4 / 8
    ensures labels == [1, 1, 2, 2, 3, 3, 4, 4]
  {
    assert labels[0] == 1 && labels[1] == 1 && labels[2] == 2 && labels[3] == 2;
    assert labels[4] == 3 && labels[5] == 3 && labels[6] == 4 && labels[7] == 4;
  }
}
