/**
  Age-based marker opacity (`getOpacity`, src/utils/map.js:27-49).

  The source turns a worksite's update date into a percentage of a 60-day
  window (that date arithmetic is not part of this model: the percentage is
  an input), picks the opacity bucket closest to it with an array `reduce`,
  and then discards the bucket and returns full opacity.
*/
module Opacity {
  import opened Reals

  /** The opacity buckets, in percent, in the order the source lists them. */
  const OpacityBuckets: seq<int> := [100, 85, 70, 45, 30, 20]

  /** `Math.abs(b - percentage)`. */
  function Distance(b: int, percentage: real): real {
    Abs(b as real - percentage)
  }

  /** `k` is the first index of `s[..n]` whose element lies at minimal distance from `p`. */
  ghost predicate IsFirstClosestIndex(s: seq<int>, n: int, p: real, k: int) {
    && 0 <= k < n <= |s|
    && (forall j :: 0 <= j < n ==> Distance(s[k], p) <= Distance(s[j], p))
    && (forall j :: 0 <= j < k ==> Distance(s[k], p) < Distance(s[j], p))
  }

  /** One step of the reducer: keep `prev` unless `curr` is strictly closer. */
  function Closer(prev: int, curr: int, p: real): int {
    if Distance(curr, p) < Distance(prev, p) then curr else prev
  }

  /** `rest.reduce(reducer, prev)`: a left fold of the reducer. */
  function Fold(prev: int, rest: seq<int>, p: real): int
    decreases |rest|
  {
    if rest == [] then prev else Fold(Closer(prev, rest[0], p), rest[1..], p)
  }

  /** `s.reduce(reducer)` without an initial value: the fold seeded with the first element
      (on an empty array the source would throw; its bucket list is never empty). */
  function ClosestBucketIn(s: seq<int>, p: real): int
    requires |s| > 0
  {
    Fold(s[0], s[1..], p)
  }

  /** One reducer step extends the first closest index of `s[..i]` to one of `s[..i + 1]`. */
  lemma StepFirstClosest(s: seq<int>, i: nat, k: nat, p: real)
    requires i < |s|
    requires IsFirstClosestIndex(s, i, p, k)
    ensures var k' := if Distance(s[i], p) < Distance(s[k], p) then i else k;
      IsFirstClosestIndex(s, i + 1, p, k') && Closer(s[k], s[i], p) == s[k']
  {
  }

  /** The index the fold ends on when it starts from index `k`, the first closest index
      of `s[..i]`: the first closest index of the whole list, holding the fold's result. */
  ghost function FoldIndex(s: seq<int>, i: nat, k: nat, p: real): (k': nat)
    requires IsFirstClosestIndex(s, i, p, k)
    ensures IsFirstClosestIndex(s, |s|, p, k')
    ensures Fold(s[k], s[i..], p) == s[k']
    decreases |s| - i
  {
    if i == |s| then
      assert s[i..] == [];
      k
    else
      var next := if Distance(s[i], p) < Distance(s[k], p) then i else k;
      StepFirstClosest(s, i, k, p);
      assert Fold(s[k], s[i..], p) == Fold(s[next], s[i + 1..], p) by {
        assert s[i..][0] == s[i] && s[i..][1..] == s[i + 1..];
      }
      FoldIndex(s, i + 1, next, p)
  }

  /** The reduce returns the element at the first index of minimal distance from the
      percentage: a closest element, the earliest one on a tie because the comparison is a
      strict `<`. */
  lemma ClosestBucketInIsFirstClosest(s: seq<int>, p: real)
    requires |s| > 0
    ensures exists k :: IsFirstClosestIndex(s, |s|, p, k) && ClosestBucketIn(s, p) == s[k]
  {
    assert IsFirstClosestIndex(s, 1, p, 0);
    var k := FoldIndex(s, 1, 0, p);
    assert IsFirstClosestIndex(s, |s|, p, k) && ClosestBucketIn(s, p) == s[k];
  }

  /** The bucket the source computes for a percentage. */
  function ClosestBucket(percentage: real): (r: int)
    ensures r in OpacityBuckets
    ensures forall b :: b in OpacityBuckets ==> Distance(r, percentage) <= Distance(b, percentage)
    ensures exists k :: IsFirstClosestIndex(OpacityBuckets, |OpacityBuckets|, percentage, k)
                        && r == OpacityBuckets[k]
  {
    ClosestBucketInIsFirstClosest(OpacityBuckets, percentage);
    ClosestBucketIn(OpacityBuckets, percentage)
  }

  /** Halfway between 100 and 85 both are 7.5 away; the earlier bucket, 100, wins. */
  lemma TieKeepsEarlierBucket()
    ensures ClosestBucket(92.5) == 100
  {
    var r := ClosestBucket(92.5);
    assert |OpacityBuckets| == 6;
    var k :| IsFirstClosestIndex(OpacityBuckets, 6, 92.5, k) && r == OpacityBuckets[k];
    assert 0 <= k < 6;
    assert Distance(OpacityBuckets[0], 92.5) == 7.5;
    assert forall j :: 0 <= j < 6 ==> Distance(OpacityBuckets[j], 92.5) >= 7.5;
  }

  /** `getOpacity`: whatever the date, the marker is drawn fully opaque; the closest
      bucket is computed and then discarded. */
  function GetOpacity(percentage: real): (r: real)
    ensures r == 1.0
  {
    var _ := ClosestBucket(percentage);
    1.0
  }
}
