/**
 * The record handling of the linear-regression demo (horsepower against
 * fuel economy): projecting the cars dataset to two fields, dropping
 * incomplete records, and turning records and predictions into plot points
 * and training columns.
 */
module Linear2d {
  import opened Wrappers

  /** A numeric field of the dataset; None stands for `null` or a missing field. */
  type Num = Option<real>

  /** One entry of the cars dataset (`Car`). */
  datatype Car = Car(
    acceleration: Num,
    cylinders: Num,
    displacement: Num,
    horsepower: Num,
    milesPerGallon: Num,
    name: string,
    origin: string,
    weightInLbs: Num,
    year: string)

  /** The two fields the demo keeps (`DataType`). */
  datatype Record = Record(horsepower: Num, mpg: Num)

  /** A point handed to the scatter plot. */
  datatype Point = Point(x: Num, y: Num)

  /** Keeps the fuel economy and the horsepower of a car. */
  function Project(car: Car): Record
  {
    Record(car.horsepower, car.milesPerGallon)
  }

  /** The filter's test: both fields are present (`!= null` rejects null and undefined). */
  predicate IsComplete(d: Record)
  {
    d.mpg.Some? && d.horsepower.Some?
  }

  /** `carsData.map(...)`: one record per car, in order. */
  function ProjectAll(cars: seq<Car>): (data: seq<Record>)
    ensures |data| == |cars|
    ensures forall i :: 0 <= i < |cars| ==> data[i] == Project(cars[i])
  {
    if cars == [] then [] else [Project(cars[0])] + ProjectAll(cars[1..])
  }

  /** `.filter(...)`: the complete records, in their original order. */
  function KeepComplete(data: seq<Record>): (kept: seq<Record>)
    ensures |kept| <= |data|
    ensures forall d :: d in kept ==> d in data && IsComplete(d)
  {
    if data == [] then []
    else
      var n := |data| - 1;
      KeepComplete(data[..n]) + (if IsComplete(data[n]) then [data[n]] else [])
  }

  /** `getData` without the download: project every car, then drop incomplete records. */
  function GetData(cars: seq<Car>): seq<Record>
  {
    KeepComplete(ProjectAll(cars))
  }

  /**
   * The positions of the complete records, in increasing order: exactly the
   * positions the filter keeps.
   */
  function KeptPositions(data: seq<Record>): (idx: seq<int>)
    ensures forall k :: 0 <= k < |idx| ==> 0 <= idx[k] < |data| && IsComplete(data[idx[k]])
    ensures forall k, l :: 0 <= k < l < |idx| ==> idx[k] < idx[l]
    ensures forall j :: 0 <= j < |data| && IsComplete(data[j]) ==> j in idx
  {
    if data == [] then []
    else
      var n := |data| - 1;
      KeptPositions(data[..n]) + (if IsComplete(data[n]) then [n] else [])
  }

  /** The filter returns the record at each kept position, and nothing else. */
  lemma {:induction false} KeepCompleteAtKeptPositions(data: seq<Record>)
    ensures |KeepComplete(data)| == |KeptPositions(data)|
    ensures forall k :: 0 <= k < |KeptPositions(data)| ==> KeepComplete(data)[k] == data[KeptPositions(data)[k]]
  {
    if data != [] {
      var n := |data| - 1;
      var prev := data[..n];
      KeepCompleteAtKeptPositions(prev);
      var kept, idx := KeepComplete(prev), KeptPositions(prev);
      var last := if IsComplete(data[n]) then [n] else [];
      assert KeepComplete(data) == kept + (if IsComplete(data[n]) then [data[n]] else []);
      assert KeptPositions(data) == idx + last;
      forall k | 0 <= k < |idx + last|
        ensures KeepComplete(data)[k] == data[(idx + last)[k]]
      {
        if k < |idx| {
          assert kept[k] == prev[idx[k]];
        }
      }
    }
  }

  /**
   * `getData` keeps exactly the cars with both fields present, in their
   * original order, each projected to its fuel economy and horsepower.
   */
  lemma GetDataSelectsCompleteCars(cars: seq<Car>)
    ensures var idx := KeptPositions(ProjectAll(cars));
      && |GetData(cars)| == |idx|
      && (forall k :: 0 <= k < |idx| ==>
            (&& 0 <= idx[k] < |cars|
             && GetData(cars)[k].mpg == cars[idx[k]].milesPerGallon
             && GetData(cars)[k].horsepower == cars[idx[k]].horsepower))
      && (forall k, l :: 0 <= k < l < |idx| ==> idx[k] < idx[l])
      && (forall j :: 0 <= j < |cars| ==>
            (j in idx <==> cars[j].milesPerGallon.Some? && cars[j].horsepower.Some?))
  {
    var data := ProjectAll(cars);
    KeepCompleteAtKeptPositions(data);
  }

  /** Filtering records that are all complete changes nothing. */
  lemma {:induction false} KeepCompleteOfComplete(data: seq<Record>)
    requires forall d :: d in data ==> IsComplete(d)
    ensures KeepComplete(data) == data
  {
    if data != [] {
      var n := |data| - 1;
      KeepCompleteOfComplete(data[..n]);
      assert data == data[..n] + [data[n]];
    }
  }

  /** Filtering twice is filtering once. */
  lemma KeepCompleteIdempotent(data: seq<Record>)
    ensures KeepComplete(KeepComplete(data)) == KeepComplete(data)
  {
    KeepCompleteOfComplete(KeepComplete(data));
  }

  /** A record as a scatter-plot point: horsepower across, fuel economy up. */
  function ToPoint(d: Record): Point
  {
    Point(d.horsepower, d.mpg)
  }

  /**
   * `data.map(d => ({x: d.horsepower, y: d.mpg}))`, the `values` of `run`
   * and the `originalPoints` of `testModel`.
   */
  function ToPoints(data: seq<Record>): (points: seq<Point>)
    ensures |points| == |data|
    ensures forall i :: 0 <= i < |data| ==> points[i].x == data[i].horsepower && points[i].y == data[i].mpg
  {
    if data == [] then [] else [ToPoint(data[0])] + ToPoints(data[1..])
  }

  /** Every point plotted from `getData` has both coordinates. */
  lemma PlottedPointsAreDefined(cars: seq<Car>)
    ensures forall p :: p in ToPoints(GetData(cars)) ==> p.x.Some? && p.y.Some?
  {
    var data := GetData(cars);
    forall p | p in ToPoints(data) ensures p.x.Some? && p.y.Some? {
      var i :| 0 <= i < |data| && ToPoints(data)[i] == p;
      assert data[i] in data;
    }
  }

  lemma ToPointsAppend(a: seq<Record>, b: seq<Record>)
    ensures ToPoints(a + b) == ToPoints(a) + ToPoints(b)
  {
    assert forall i :: 0 <= i < |a| ==> (a + b)[i] == a[i];
    assert forall i :: 0 <= i < |b| ==> (a + b)[|a| + i] == b[i];
  }

  /**
   * `convertToTensor` shuffles `data` in place before `testModel` reads it,
   * so the `originalPoints` plotted there are a rearrangement of the
   * `values` plotted by `run`: for any shuffle, the same points occur the
   * same number of times.
   */
  lemma {:induction false} ShuffledPointsArePermutation(data: seq<Record>, shuffled: seq<Record>)
    requires multiset(shuffled) == multiset(data)
    ensures multiset(ToPoints(shuffled)) == multiset(ToPoints(data))
    decreases |shuffled|
  {
    if shuffled != [] {
      var x := shuffled[0];
      assert x in multiset(data);
      var i :| 0 <= i < |data| && data[i] == x;
      var rest := data[..i] + data[i + 1..];
      assert data == data[..i] + [x] + data[i + 1..];
      assert shuffled == [x] + shuffled[1..];
      assert multiset(data) == multiset(data[..i]) + multiset{x} + multiset(data[i + 1..]);
      assert multiset(shuffled) == multiset{x} + multiset(shuffled[1..]);
      assert multiset(rest) == multiset(data[..i]) + multiset(data[i + 1..]);
      assert multiset(shuffled[1..]) == multiset(shuffled) - multiset{x};
      ShuffledPointsArePermutation(rest, shuffled[1..]);
      ToPointsAppend(data[..i] + [x], data[i + 1..]);
      ToPointsAppend(data[..i], [x]);
      ToPointsAppend(data[..i], data[i + 1..]);
      ToPointsAppend([x], shuffled[1..]);
    } else {
      assert data == [];
    }
  }

  /** `inputs` in `convertToTensor`: the horsepower column. */
  function Inputs(data: seq<Record>): (inputs: seq<Num>)
    ensures |inputs| == |data|
    ensures forall i :: 0 <= i < |data| ==> inputs[i] == data[i].horsepower
  {
    if data == [] then [] else [data[0].horsepower] + Inputs(data[1..])
  }

  /**
   * `labels` as `convertToTensor` writes it: the horsepower column again, so the
   * network is trained to reproduce its own input.
   */
  function LabelsAsWritten(data: seq<Record>): (labels: seq<Num>)
    ensures labels == Inputs(data)
  {
    if data == [] then [] else [data[0].horsepower] + LabelsAsWritten(data[1..])
  }

  /** `labels` as evidently intended: the fuel-economy column. */
  function Labels(data: seq<Record>): (labels: seq<Num>)
    ensures |labels| == |data|
    ensures forall i :: 0 <= i < |data| ==> labels[i] == data[i].mpg
  {
    if data == [] then [] else [data[0].mpg] + Labels(data[1..])
  }

  /**
   * With the intended labels, the training pairs are exactly the points of
   * the "Horsepower v MPG" plot.
   */
  lemma TrainingPairsArePlottedPoints(data: seq<Record>)
    ensures |Inputs(data)| == |Labels(data)| == |ToPoints(data)|
    ensures forall i :: 0 <= i < |data| ==> ToPoints(data)[i] == Point(Inputs(data)[i], Labels(data)[i])
  {
  }

  /**
   * As written, the labels of a single car with different horsepower and
   * fuel economy are not its fuel economy.
   */
  lemma LabelsAsWrittenMissMpg()
    ensures var data := [Record(Some(130.0), Some(18.0))];
      LabelsAsWritten(data) != Labels(data)
  {
    var data := [Record(Some(130.0), Some(18.0))];
    assert LabelsAsWritten(data)[0] == Some(130.0);
    assert Labels(data)[0] == Some(18.0);
  }

  /** Reads `s[i]` the way JavaScript does: past the end it is `undefined`. */
  function ValueAt(s: seq<real>, i: nat): Num
  {
    if i < |s| then Some(s[i]) else None
  }

  /** `Array.from(xs).map((val, i) => ({x: val, y: preds[i]}))` in `testModel`. */
  function PredictedPoints(xs: seq<real>, preds: seq<real>): (points: seq<Point>)
    ensures |points| == |xs|
    ensures forall i :: 0 <= i < |xs| ==> points[i].x == Some(xs[i]) && points[i].y == ValueAt(preds, i)
  {
    if xs == [] then []
    else
      var n := |xs| - 1;
      PredictedPoints(xs[..n], preds) + [Point(Some(xs[n]), ValueAt(preds, n))]
  }

  /**
   * A corollary of `PredictedPoints`' contract: when there is a prediction
   * for every sample (both come from the same 100-point grid), every
   * predicted point is defined, with coordinates xs[i] and preds[i].
   */
  lemma PredictedPointsDefined(xs: seq<real>, preds: seq<real>)
    requires |preds| == |xs|
    ensures forall i :: 0 <= i < |xs| ==>
      PredictedPoints(xs, preds)[i].x.Some? && PredictedPoints(xs, preds)[i].x.value == xs[i] &&
      PredictedPoints(xs, preds)[i].y.Some? && PredictedPoints(xs, preds)[i].y.value == preds[i]
  {
  }
}
