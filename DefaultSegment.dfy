/**
 * Choosing the default segment of a new node from the segment statistics: the candidate segment with the lowest
 * average weight, or the fallback segment when the statistics cannot be read.
 */
module DefaultSegment {
  import opened Common
  import opened PyStr

  /** The segment a node is put in when the statistics are not available. */
  const SegmentFallback: int := 5

  /** The weight every candidate has to undercut. */
  const StartWeight: int := 9999

  /** A value of the statistics file as `int` reads it: a JSON string or a JSON integer. */
  datatype JsonValue = Text(s: string) | Number(n: int)

  /** One entry of the statistics: its key and its `Sum` and `Count` fields, `None` when a field is missing. */
  datatype Entry = Entry(key: string, sum: Option<JsonValue>, count: Option<JsonValue>)

  /** `int(v)`: `None` where it raises `ValueError`. */
  function IntOf(v: JsonValue): (r: Option<int>)
    ensures v.Number? ==> r == Some(v.n)
  {
    match v
    case Text(s) => ParseInt(s)
    case Number(n) => Some(n)
  }

  /** The segments a node may be given by default: 1 to 8 except 6. */
  predicate IsCandidate(segment: int) {
    0 < segment && segment != 6 && segment < 9
  }

  /** `int(a / b)`: the quotient rounded toward zero. */
  function TruncDiv(a: int, b: int): (q: int)
    requires b != 0
    ensures var p := q * b;
      (a >= 0 ==> 0 <= p <= a && a - p < Abs(b)) && (a < 0 ==> a <= p <= 0 && p - a < Abs(b))
  {
    var m := Abs(a) / Abs(b);
    DivBounds(Abs(a), Abs(b));
    var q := if (a >= 0) == (b > 0) then m else -m;
    assert q * b == if a >= 0 then m * Abs(b) else -(m * Abs(b)) by {
      if b > 0 {
        assert Abs(b) == b;
      } else {
        assert Abs(b) == -b && (-m) * b == m * Abs(b);
      }
    }
    q
  }

  /** The absolute value. */
  function Abs(x: int): (r: nat)
    ensures r == x || r == -x
  {
    if x < 0 then -x else x
  }

  /** Euclidean division of naturals leaves less than the divisor. */
  lemma DivBounds(a: nat, b: nat)
    requires b > 0
    ensures 0 <= (a / b) * b <= a && a - (a / b) * b < b
  {
  }

  /** What one entry contributes to the choice. */
  datatype Step =
    | Skip                            // not a candidate, or a count of `'0'`
    | Weigh(segment: int, weight: int) // a candidate with its average weight
    | Fails                           // the entry raises: the fallback is used

  /** What the loop makes of one entry. */
  function StepOf(e: Entry): (r: Step)
    ensures r.Weigh? ==> IsCandidate(r.segment) && ParseInt(e.key) == Some(r.segment)
    ensures r.Weigh? ==>
              && e.count.Some? && e.count.value != Text("0") && e.sum.Some?
              && IntOf(e.count.value).Some? && IntOf(e.count.value).value != 0 && IntOf(e.sum.value).Some?
              && r.weight == TruncDiv(IntOf(e.sum.value).value, IntOf(e.count.value).value)
    ensures r.Skip? <==>
              && ParseInt(e.key).Some?
              && (!IsCandidate(ParseInt(e.key).value) || (e.count.Some? && e.count.value == Text("0")))
  {
    match ParseInt(e.key)
    case None => Fails
    case Some(segment) =>
      if !IsCandidate(segment) then Skip
      else if e.count.None? then Fails
      else if e.count.value == Text("0") then Skip
      else if e.sum.None? then Fails
      else
        var sum, count := IntOf(e.sum.value), IntOf(e.count.value);
        if sum.None? || count.None? || count.value == 0 then Fails
        else Weigh(segment, TruncDiv(sum.value, count.value))
  }

  /** The steps of `entries`, in order. */
  function Steps(entries: seq<Entry>): (steps: seq<Step>)
    ensures |steps| == |entries| && forall k | 0 <= k < |entries| :: steps[k] == StepOf(entries[k])
  {
    seq(|entries|, k requires 0 <= k < |entries| => StepOf(entries[k]))
  }

  /**
   * The loop from the front: a failing step ends in the fallback, a candidate replaces the choice so far only
   * when it weighs strictly less.
   */
  function Pick(steps: seq<Step>, minWeight: int, chosen: Option<int>): Option<int> {
    if steps == [] then chosen
    else
      match steps[0]
      case Fails => Some(SegmentFallback)
      case Skip => Pick(steps[1..], minWeight, chosen)
      case Weigh(segment, weight) =>
        if weight < minWeight then Pick(steps[1..], weight, Some(segment))
        else Pick(steps[1..], minWeight, chosen)
  }

  /**
   * The default segment for the statistics `stats` (`None` where reading them raised, an empty list when the file
   * does not exist); `None` as result when no candidate weighs less than the start weight.
   */
  function ChooseSegment(stats: Option<seq<Entry>>): Option<int> {
    match stats
    case None => Some(SegmentFallback)
    case Some(entries) => Pick(Steps(entries), StartWeight, None)
  }

  /** `GetDefaultSegment`: the loop over the statistics entries. */
  method GetDefaultSegment(stats: Option<seq<Entry>>) returns (defaultSeg: Option<int>)
    ensures defaultSeg == ChooseSegment(stats)
  {
    if stats.None? {
      return Some(SegmentFallback);
    }
    var entries := stats.value;
    ghost var steps := Steps(entries);
    var minWeight := StartWeight;
    defaultSeg := None;
    var i := 0;
    while i < |entries|
      invariant 0 <= i <= |entries|
      invariant Pick(steps, StartWeight, None) == Pick(steps[i..], minWeight, defaultSeg)
    {
      var e := entries[i];
      assert steps[i..][0] == StepOf(e) && steps[i..][1..] == steps[i + 1..];
      var segment := ParseInt(e.key);
      if segment.None? {
        return Some(SegmentFallback);
      }
      if 0 < segment.value && segment.value != 6 && segment.value < 9 {
        if e.count.None? {
          return Some(SegmentFallback);
        }
        if e.count.value != Text("0") {
          if e.sum.None? {
            return Some(SegmentFallback);
          }
          var sum := IntOf(e.sum.value);
          var count := IntOf(e.count.value);
          if sum.None? || count.None? || count.value == 0 {
            return Some(SegmentFallback);
          }
          var weight := TruncDiv(sum.value, count.value);
          if weight < minWeight {
            minWeight := weight;
            defaultSeg := Some(segment.value);
          }
        }
      }
      i := i + 1;
    }
  }

  /** No entry raises. */
  predicate NoFailure(steps: seq<Step>) {
    forall k | 0 <= k < |steps| :: !steps[k].Fails?
  }

  /**
   * Step `k` is the first of the lightest candidates and weighs less than `minWeight`: every candidate weighs at
   * least as much, every earlier one more.
   */
  predicate FirstLightest(steps: seq<Step>, k: int, minWeight: int) {
    && 0 <= k < |steps| && steps[k].Weigh? && steps[k].weight < minWeight
    && (forall j | 0 <= j < |steps| && steps[j].Weigh? :: steps[j].weight >= steps[k].weight)
    && (forall j | 0 <= j < k && steps[j].Weigh? :: steps[j].weight > steps[k].weight)
  }

  /** A step that raises makes the fallback the result, whatever comes before it. */
  lemma {:induction false} PickFails(steps: seq<Step>, minWeight: int, chosen: Option<int>, k: nat)
    requires k < |steps| && steps[k].Fails?
    ensures Pick(steps, minWeight, chosen) == Some(SegmentFallback)
  {
    if k > 0 && !steps[0].Fails? {
      assert steps[1..][k - 1] == steps[k];
      var m := if steps[0].Weigh? && steps[0].weight < minWeight then steps[0].weight else minWeight;
      var c := if steps[0].Weigh? && steps[0].weight < minWeight then Some(steps[0].segment) else chosen;
      PickFails(steps[1..], m, c, k - 1);
    }
  }

  /** Without failures, the choice so far is kept when no candidate undercuts `minWeight`. */
  lemma {:induction false} PickKeeps(steps: seq<Step>, minWeight: int, chosen: Option<int>)
    requires NoFailure(steps)
    requires forall j | 0 <= j < |steps| && steps[j].Weigh? :: steps[j].weight >= minWeight
    ensures Pick(steps, minWeight, chosen) == chosen
  {
    if steps != [] {
      assert forall j | 1 <= j < |steps| :: steps[j] == steps[1..][j - 1];
      PickKeeps(steps[1..], minWeight, chosen);
    }
  }

  /** Without failures, a candidate that undercuts `minWeight` makes the result the first of the lightest candidates. */
  lemma {:induction false} PickLightest(steps: seq<Step>, minWeight: int, chosen: Option<int>)
    requires NoFailure(steps)
    requires exists j | 0 <= j < |steps| :: steps[j].Weigh? && steps[j].weight < minWeight
    ensures exists k :: FirstLightest(steps, k, minWeight) && Pick(steps, minWeight, chosen) == Some(steps[k].segment)
  {
    var rest := steps[1..];
    assert forall j | 1 <= j < |steps| :: steps[j] == rest[j - 1];
    assert NoFailure(rest);
    if steps[0].Weigh? && steps[0].weight < minWeight {
      var w := steps[0].weight;
      if exists j | 0 <= j < |rest| :: rest[j].Weigh? && rest[j].weight < w {
        PickLightest(rest, w, Some(steps[0].segment));
        var k :| FirstLightest(rest, k, w) && Pick(rest, w, Some(steps[0].segment)) == Some(rest[k].segment);
        ShiftLightest(steps, k, w, minWeight);
      } else {
        PickKeeps(rest, w, Some(steps[0].segment));
      }
    } else {
      var j :| 0 <= j < |steps| && steps[j].Weigh? && steps[j].weight < minWeight;
      assert rest[j - 1] == steps[j];
      PickLightest(rest, minWeight, chosen);
      var k :| FirstLightest(rest, k, minWeight) && Pick(rest, minWeight, chosen) == Some(rest[k].segment);
      ShiftLightest(steps, k, minWeight, minWeight);
    }
  }

  /** The first lightest candidate after the head, below a bound the head does not undercut, is the first overall. */
  lemma ShiftLightest(steps: seq<Step>, k: int, m: int, minWeight: int)
    requires steps != [] && FirstLightest(steps[1..], k, m) && m <= minWeight
    requires steps[0].Weigh? ==> steps[0].weight >= m
    ensures FirstLightest(steps, k + 1, minWeight)
  {
    assert forall j | 1 <= j < |steps| :: steps[j] == steps[1..][j - 1];
  }

  /**
   * The default segment: the fallback when the statistics cannot be read or an entry raises; otherwise no segment
   * when no candidate weighs less than 9999, and else the first of the lightest candidates.
   */
  lemma ChooseSegmentSpec(stats: Option<seq<Entry>>)
    ensures stats.None? ==> ChooseSegment(stats) == Some(SegmentFallback)
    ensures stats.Some? && !NoFailure(Steps(stats.value)) ==> ChooseSegment(stats) == Some(SegmentFallback)
    ensures stats.Some? && NoFailure(Steps(stats.value)) ==>
      var steps := Steps(stats.value);
      && (ChooseSegment(stats).None? <==>
          forall j | 0 <= j < |steps| && steps[j].Weigh? :: steps[j].weight >= StartWeight)
      && (ChooseSegment(stats).Some? ==>
            exists k :: (FirstLightest(steps, k, StartWeight)
                         && ChooseSegment(stats) == Some(steps[k].segment) && IsCandidate(steps[k].segment)))
  {
    if stats.Some? {
      var steps := Steps(stats.value);
      if !NoFailure(steps) {
        var k :| 0 <= k < |steps| && steps[k].Fails?;
        PickFails(steps, StartWeight, None, k);
      } else if exists j | 0 <= j < |steps| :: steps[j].Weigh? && steps[j].weight < StartWeight {
        PickLightest(steps, StartWeight, None);
      } else {
        PickKeeps(steps, StartWeight, None);
      }
    }
  }
}
