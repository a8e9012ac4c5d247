/** The input structures of the codec — points, point clouds, bifiltrations
    and metric spaces — and the validation their constructors perform.
 */
module Geometry {
  import opened Results

  /** A point's appearance value: a single float, or a tuple of floats
      (a bifiltration needs exactly two). */
  datatype Appearance = Scalar(value: real) | Tuple(items: seq<real>)

  datatype Point = Point(appearance: Appearance, coords: seq<real>) {
    function Dimension(): nat { |coords| }
  }

  /** The `points` helper: one point per coordinate tuple, all sharing one
      appearance (a scalar for a point cloud, a pair for a bifiltration). */
  function MakePoints(tuples: seq<seq<real>>, appearance: Appearance): (ps: seq<Point>)
    ensures |ps| == |tuples|
    ensures forall i :: 0 <= i < |ps| ==> ps[i].coords == tuples[i] && ps[i].appearance == appearance
  {
    if |tuples| == 0 then [] else [Point(appearance, tuples[0])] + MakePoints(tuples[1..], appearance)
  }

  /** The first index at or after `from` whose element is `bad`, scanning
      in order as the constructors' validation loops do. */
  function FindFirst<T>(s: seq<T>, bad: T -> bool, from: nat): (r: Option<nat>)
    requires from <= |s|
    ensures r.Some? ==> from <= r.value < |s| && bad(s[r.value])
    ensures r.Some? ==> forall j :: from <= j < r.value ==> !bad(s[j])
    ensures r.None? ==> forall j :: from <= j < |s| ==> !bad(s[j])
    decreases |s| - from
  {
    if from == |s| then None
    else if bad(s[from]) then Some(from)
    else FindFirst(s, bad, from + 1)
  }

  datatype PointCloud = PointCloud(
    points: seq<Point>,
    secondParamName: Option<string>,
    comments: Option<string>,
    dimension: nat,
    maxDist: real)

  /** Every coordinate of every point, point by point. */
  function Coordinates(points: seq<Point>): (cs: seq<real>)
    ensures forall i, j :: 0 <= i < |points| && 0 <= j < |points[i].coords| ==> points[i].coords[j] in cs
  {
    if |points| == 0 then []
    else
      var init := points[..|points| - 1];
      var cs := Coordinates(init) + points[|points| - 1].coords;
      assert forall i :: 0 <= i < |init| ==> points[i] == init[i];
      cs
  }

  /** The running lower and upper bounds of `_calc_max_dist`, both
      starting from zero. */
  function LoHi(cs: seq<real>): (b: (real, real))
    ensures b.0 <= 0.0 <= b.1
    ensures forall x :: x in cs ==> b.0 <= x <= b.1
    ensures b.0 == 0.0 || b.0 in cs
    ensures b.1 == 0.0 || b.1 in cs
  {
    if |cs| == 0 then (0.0, 0.0)
    else
      var b := LoHi(cs[..|cs| - 1]);
      var c := cs[|cs| - 1];
      assert cs == cs[..|cs| - 1] + [c];
      (if c < b.0 then c else b.0, if c > b.1 then c else b.1)
  }

  /** The crude scale bound of a point cloud: the span from the smallest to
      the largest coordinate, with zero always inside the span. */
  function CrudeSpan(points: seq<Point>): (d: real)
    ensures d >= 0.0
    ensures d == LoHi(Coordinates(points)).1 - LoHi(Coordinates(points)).0
    ensures forall i, j :: 0 <= i < |points| && 0 <= j < |points[i].coords| ==>
      var b := LoHi(Coordinates(points)); b.0 <= points[i].coords[j] <= b.1
  {
    var b := LoHi(Coordinates(points));
    var d := b.1 - b.0;
    if d < 0.0 then -d else d
  }

  /** `_calc_max_dist` as the source writes it: two nested loops updating
      the running bounds, then the absolute difference. */
  method CalcMaxDist(points: seq<Point>) returns (d: real)
    ensures d == CrudeSpan(points)
    ensures d == LoHi(Coordinates(points)).1 - LoHi(Coordinates(points)).0
  {
    var lo, hi := 0.0, 0.0;
    for i := 0 to |points|
      invariant (lo, hi) == LoHi(Coordinates(points[..i]))
    {
      lo, hi := ScanCoords(Coordinates(points[..i]), points[i].coords, lo, hi);
      CoordinatesStep(points, i);
    }
    assert points[..|points|] == points;
    d := hi - lo;
    if d < 0.0 {
      d := -d;
    }
  }

  /** The inner loop of `_calc_max_dist`: the running bounds after `seen`
      become the running bounds after `seen + coords`. */
  method ScanCoords(ghost seen: seq<real>, coords: seq<real>, lo0: real, hi0: real) returns (lo: real, hi: real)
    requires (lo0, hi0) == LoHi(seen)
    ensures (lo, hi) == LoHi(seen + coords)
  {
    lo, hi := lo0, hi0;
    assert seen + coords[..0] == seen;
    for j := 0 to |coords|
      invariant (lo, hi) == LoHi(seen + coords[..j])
    {
      var coord := coords[j];
      LoHiStep(seen + coords[..j], coord);
      PrefixStep(seen, coords, j);
      if coord < lo {
        lo := coord;
      }
      if coord > hi {
        hi := coord;
      }
    }
    assert coords[..|coords|] == coords;
  }

  lemma PrefixStep(seen: seq<real>, coords: seq<real>, j: nat)
    requires j < |coords|
    ensures seen + coords[..j + 1] == seen + coords[..j] + [coords[j]]
  {
    assert coords[..j + 1] == coords[..j] + [coords[j]];
  }

  lemma CoordinatesStep(points: seq<Point>, i: nat)
    requires i < |points|
    ensures Coordinates(points[..i + 1]) == Coordinates(points[..i]) + points[i].coords
  {
    assert points[..i + 1][..i] == points[..i];
  }

  lemma LoHiStep(seen: seq<real>, c: real)
    ensures LoHi(seen + [c]) ==
      (if c < LoHi(seen).0 then c else LoHi(seen).0, if c > LoHi(seen).1 then c else LoHi(seen).1)
  {
    assert (seen + [c])[..|seen|] == seen;
  }

  /** `PointCloud(points, second_param_name, comments, max_dist)`.

      An empty name is no name; an absent or zero `max_dist` is replaced by
      the crude span; an empty point list fails on `points[0]`; otherwise the
      first point whose dimension differs from the first point's is
      reported with its index. */
  function NewPointCloud(points: seq<Point>, secondParamName: Option<string>,
                         comments: Option<string>, maxDist: Option<real>): (r: Result<PointCloud>)
    ensures |points| == 0 ==> r == Err(EmptyPointList)
    ensures |points| > 0 ==>
      (r.Err? <==> exists i :: 0 <= i < |points| && |points[i].coords| != |points[0].coords|)
    ensures r.Err? && |points| > 0 ==>
      && r.error.DimensionMismatch?
      && r.error.expected == |points[0].coords|
      && r.error.index < |points|
      && r.error.actual == |points[r.error.index].coords| != r.error.expected
      && forall j :: 0 <= j < r.error.index ==> |points[j].coords| == r.error.expected
    ensures r.Ok? ==>
      && r.value.points == points
      && r.value.comments == comments
      && r.value.dimension == |points[0].coords|
      && (forall i :: 0 <= i < |points| ==> |points[i].coords| == r.value.dimension)
      && (r.value.secondParamName.Some? <==> secondParamName.Some? && |secondParamName.value| > 0)
      && (r.value.secondParamName.Some? ==> r.value.secondParamName == secondParamName)
      && (maxDist.Some? && maxDist.value != 0.0 ==> r.value.maxDist == maxDist.value)
      && (maxDist.None? || maxDist.value == 0.0 ==> r.value.maxDist == CrudeSpan(points))
  {
    var name := if secondParamName.Some? && |secondParamName.value| > 0 then secondParamName else None;
    if |points| == 0 then Err(EmptyPointList)
    else
      var dim := points[0].Dimension();
      match FindFirst(points, (p: Point) => p.Dimension() != dim, 0)
      case Some(i) => Err(DimensionMismatch(dim, i, points[i].Dimension()))
      case None =>
        var m := if maxDist.Some? && maxDist.value != 0.0 then maxDist.value else CrudeSpan(points);
        Ok(PointCloud(points, name, comments, dim, m))
  }

  /** The invariant a constructed point cloud keeps. */
  ghost predicate ValidCloud(pc: PointCloud) {
    && |pc.points| > 0
    && pc.dimension == |pc.points[0].coords|
    && (forall i :: 0 <= i < |pc.points| ==> |pc.points[i].coords| == pc.dimension)
    && (pc.secondParamName.Some? ==> |pc.secondParamName.value| > 0)
  }

  lemma NewPointCloudValid(points: seq<Point>, secondParamName: Option<string>,
                           comments: Option<string>, maxDist: Option<real>)
    requires NewPointCloud(points, secondParamName, comments, maxDist).Ok?
    ensures ValidCloud(NewPointCloud(points, secondParamName, comments, maxDist).value)
  {
  }

  datatype Bifiltration = Bifiltration(xLabel: string, yLabel: string, points: seq<Point>)

  /** An appearance with a length of exactly two. */
  predicate IsPair(a: Appearance) {
    a.Tuple? && |a.items| == 2
  }

  /** `Bifiltration(x_label, y_label, points)`: fails, without saying which
      point, as soon as one appearance is not a 2-tuple. */
  function NewBifiltration(xLabel: string, yLabel: string, points: seq<Point>): (r: Result<Bifiltration>)
    ensures r.Ok? <==> forall i :: 0 <= i < |points| ==> IsPair(points[i].appearance)
    ensures r.Ok? ==> r.value == Bifiltration(xLabel, yLabel, points)
    ensures r.Err? ==> r.error == NotBifiltrationAppearance
  {
    match FindFirst(points, (p: Point) => !IsPair(p.appearance), 0)
    case Some(_) => Err(NotBifiltrationAppearance)
    case None => Ok(Bifiltration(xLabel, yLabel, points))
  }

  ghost predicate ValidBifiltration(b: Bifiltration) {
    forall i :: 0 <= i < |b.points| ==> IsPair(b.points[i].appearance)
  }

  /** Points built with a pair appearance always make a bifiltration. */
  lemma MakePointsBifiltration(xLabel: string, yLabel: string, tuples: seq<seq<real>>, a: real, b: real)
    ensures NewBifiltration(xLabel, yLabel, MakePoints(tuples, Tuple([a, b])))
         == Ok(Bifiltration(xLabel, yLabel, MakePoints(tuples, Tuple([a, b]))))
  {
  }

  /** Points built from non-empty tuples of one length make a point cloud of
      that dimension; with any tuple of another length the cloud is refused. */
  lemma MakePointsCloud(tuples: seq<seq<real>>, a: Appearance, name: Option<string>,
                        comments: Option<string>, maxDist: Option<real>)
    requires |tuples| > 0
    ensures NewPointCloud(MakePoints(tuples, a), name, comments, maxDist).Ok?
        <==> forall i :: 0 <= i < |tuples| ==> |tuples[i]| == |tuples[0]|
    ensures NewPointCloud(MakePoints(tuples, a), name, comments, maxDist).Ok? ==>
      NewPointCloud(MakePoints(tuples, a), name, comments, maxDist).value.dimension == |tuples[0]|
  {
    var ps := MakePoints(tuples, a);
    assert forall i :: 0 <= i < |ps| ==> |ps[i].coords| == |tuples[i]|;
  }

  /** A metric space: an upper-triangular distance matrix, optional
      appearance values (absent for a multi-critical space) and labels. */
  datatype MetricSpace = MetricSpace(
    appearanceLabel: string,
    distanceLabel: string,
    appearanceValues: Option<seq<real>>,
    distanceMatrix: seq<seq<real>>,
    comment: Option<string>)
}
