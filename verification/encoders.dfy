/** The three `save` methods: each turns an input structure into the lines
    of the engine's text input format. An entry of the result is the text
    the source writes between two of the newlines it writes itself, and the
    file is every entry followed by a newline. A label or name that holds a
    newline of its own stays one entry, though it spans several file lines.
 */
module Encoders {
  import opened Results
  import opened Text
  import opened Decimal
  import opened Numerals
  import opened Geometry

  /** A comment block: one line per line of the comment, each behind
      `prefix`; an absent or empty comment writes nothing. */
  function CommentLines(prefix: string, comment: Option<string>): (ls: seq<string>)
    ensures comment.None? || |comment.value| == 0 ==> |ls| == 0
    ensures comment.Some? && |comment.value| > 0 ==>
      && |ls| == |Split(comment.value, '\n')|
      && (forall i :: 0 <= i < |ls| ==> prefix <= ls[i])
      && DropEach(ls, |prefix|) == Split(comment.value, '\n')
  {
    if comment.Some? && |comment.value| > 0 then
      var pieces := Split(comment.value, '\n');
      DropPrefixed(prefix, pieces);
      Prefixed(prefix, pieces)
    else []
  }

  /** Stripping the prefixes and rejoining the lines gives the comment back. */
  lemma CommentRoundTrip(prefix: string, comment: string)
    requires |comment| > 0
    ensures Join(DropEach(CommentLines(prefix, Some(comment)), |prefix|), "\n") == comment
  {
    JoinSplit(comment, '\n');
  }

  /** The second-parameter line of a point cloud. */
  function NameLine(name: Option<string>): string {
    if name.Some? then name.value else "no function"
  }

  /** One point of a point cloud: each coordinate and a blank, then, when
      the cloud has a second parameter, the appearance and a blank. */
  function PointLine(p: Point, named: bool, num: Numerals): string
    requires named ==> p.appearance.Scalar?
  {
    Terminated(Render(num, p.coords), " ") + (if named then num.fmt(p.appearance.value) + " " else "")
  }

  /** What a reader of a point line sees: the coordinates, then the
      appearance exactly when the cloud is named. */
  lemma PointLineFields(p: Point, named: bool, num: Numerals)
    requires named ==> p.appearance.Scalar?
    requires Formats(num)
    ensures Fields(PointLine(p, named, num)) ==
      Render(num, p.coords) + (if named then [num.fmt(p.appearance.value)] else [])
    ensures |Fields(PointLine(p, named, num))| == |p.coords| + (if named then 1 else 0)
  {
    var ts := Render(num, p.coords) + (if named then [num.fmt(p.appearance.value)] else []);
    RenderTokens(num, p.coords);
    if named {
      var a := num.fmt(p.appearance.value);
      FmtToken(num, p.appearance.value);
      TerminatedAppend(Render(num, p.coords), [a], " ");
      assert [a][1..] == [];
      assert Terminated([a], " ") == a + " " + "";
      assert PointLine(p, named, num) == Terminated(ts, " ");
    } else {
      assert ts == Render(num, p.coords);
      assert Terminated(ts, " ") + "" == Terminated(ts, " ");
      assert PointLine(p, named, num) == Terminated(ts, " ");
    }
    assert AllTokens(ts);
    FieldsTerminated(ts, " ");
    assert Fields(PointLine(p, named, num)) == ts;
  }

  function PointLines(points: seq<Point>, named: bool, num: Numerals): (ls: seq<string>)
    requires named ==> forall i :: 0 <= i < |points| ==> points[i].appearance.Scalar?
    ensures |ls| == |points|
    ensures forall i :: 0 <= i < |points| ==> ls[i] == PointLine(points[i], named, num)
  {
    if |points| == 0 then [] else [PointLine(points[0], named, num)] + PointLines(points[1..], named, num)
  }

  /** The header of a point cloud after its comment block. */
  function CloudHeader(pc: PointCloud, num: Numerals): seq<string> {
    ["points", NatToString(pc.dimension), num.fmt(pc.maxDist), NameLine(pc.secondParamName)]
  }

  /** Where each part of a saved point cloud lands in its line list. */
  lemma CloudLayout(cs: seq<string>, header: seq<string>, body: seq<string>)
    requires |header| == 4
    ensures var ls := cs + header + body + [""];
      var c := |cs|;
      && |ls| == c + 4 + |body| + 1
      && ls[..c] == cs
      && ls[c] == header[0] && ls[c + 1] == header[1] && ls[c + 2] == header[2] && ls[c + 3] == header[3]
      && (forall i :: 0 <= i < |body| ==> ls[c + 4 + i] == body[i])
      && |ls[|ls| - 1]| == 0
  {
    assert (cs + header + body + [""])[..|cs|] == cs;
  }

  /** `PointCloud.save`: the comment block, `points`, the dimension, the
      scale bound, the name or `no function`, one line per point, and a final
      empty line. Formatting a tuple appearance fails at the first such
      point, and only when the cloud is named. */
  function SavePointCloud(pc: PointCloud, num: Numerals): (r: Result<seq<string>>)
    ensures r.Err? <==>
      pc.secondParamName.Some? && exists i :: 0 <= i < |pc.points| && !pc.points[i].appearance.Scalar?
    ensures r.Err? ==>
      && r.error.AppearanceNotScalar?
      && r.error.index < |pc.points|
      && !pc.points[r.error.index].appearance.Scalar?
      && forall j :: 0 <= j < r.error.index ==> pc.points[j].appearance.Scalar?
    ensures r.Ok? ==>
      var c := |CommentLines("# ", pc.comments)|;
      && |r.value| == c + 4 + |pc.points| + 1
      && r.value[..c] == CommentLines("# ", pc.comments)
      && r.value[c] == "points"
      && r.value[c + 1] == NatToString(pc.dimension)
      && r.value[c + 2] == num.fmt(pc.maxDist)
      && r.value[c + 3] == (if pc.secondParamName.Some? then pc.secondParamName.value else "no function")
      && (forall i :: 0 <= i < |pc.points| ==>
            r.value[c + 4 + i] == PointLine(pc.points[i], pc.secondParamName.Some?, num))
      && |r.value[|r.value| - 1]| == 0
  {
    var named := pc.secondParamName.Some?;
    var bad := if named then FindFirst(pc.points, (p: Point) => !p.appearance.Scalar?, 0) else None;
    match bad
    case Some(i) => Err(AppearanceNotScalar(i))
    case None =>
      var comments := CommentLines("# ", pc.comments);
      var ls := comments + CloudHeader(pc, num) + PointLines(pc.points, named, num) + [""];
      CloudLayout(comments, CloudHeader(pc, num), PointLines(pc.points, named, num));
      Ok(ls)
  }

  /** Every point line of a saved cloud has `dimension` coordinate fields,
      plus one appearance field exactly when the cloud is named. */
  lemma SavedPointFields(pc: PointCloud, num: Numerals, i: nat)
    requires ValidCloud(pc) && Formats(num)
    requires SavePointCloud(pc, num).Ok?
    requires i < |pc.points|
    ensures var ls := SavePointCloud(pc, num).value;
      var line := ls[|CommentLines("# ", pc.comments)| + 4 + i];
      && |Fields(line)| == pc.dimension + (if pc.secondParamName.Some? then 1 else 0)
      && Fields(line)[..pc.dimension] == Render(num, pc.points[i].coords)
      && (pc.secondParamName.Some? ==> Fields(line)[pc.dimension] == num.fmt(pc.points[i].appearance.value))
  {
    var named := pc.secondParamName.Some?;
    var p := pc.points[i];
    assert named ==> p.appearance.Scalar?;
    PointLineFields(p, named, num);
    var ts := Render(num, p.coords) + (if named then [num.fmt(p.appearance.value)] else []);
    assert ts[..pc.dimension] == Render(num, p.coords);
  }

  /** One point of a bifiltration: each coordinate, then each of the two
      appearance values, each followed by two blanks. */
  function BifiltrationLine(p: Point, num: Numerals): string
    requires IsPair(p.appearance)
  {
    Terminated(Render(num, p.coords), "  ") + Terminated(Render(num, p.appearance.items), "  ")
  }

  lemma BifiltrationLineFields(p: Point, num: Numerals)
    requires IsPair(p.appearance) && Formats(num)
    ensures Fields(BifiltrationLine(p, num)) == Render(num, p.coords) + Render(num, p.appearance.items)
    ensures |Fields(BifiltrationLine(p, num))| == |p.coords| + 2
  {
    var ts := Render(num, p.coords) + Render(num, p.appearance.items);
    RenderTokens(num, p.coords);
    RenderTokens(num, p.appearance.items);
    TerminatedAppend(Render(num, p.coords), Render(num, p.appearance.items), "  ");
    assert AllTokens(ts);
    FieldsTerminated(ts, "  ");
  }

  function BifiltrationLines(points: seq<Point>, num: Numerals): (ls: seq<string>)
    requires forall i :: 0 <= i < |points| ==> IsPair(points[i].appearance)
    ensures |ls| == |points|
    ensures forall i :: 0 <= i < |points| ==> ls[i] == BifiltrationLine(points[i], num)
  {
    if |points| == 0 then [] else [BifiltrationLine(points[0], num)] + BifiltrationLines(points[1..], num)
  }

  /** `Bifiltration.save`: `bifiltration`, the two labels, one line per
      point, and a final empty line. */
  function SaveBifiltration(b: Bifiltration, num: Numerals): (ls: seq<string>)
    requires ValidBifiltration(b)
    ensures |ls| == 3 + |b.points| + 1
    ensures ls[..3] == ["bifiltration", b.xLabel, b.yLabel]
    ensures forall i :: 0 <= i < |b.points| ==> ls[3 + i] == BifiltrationLine(b.points[i], num)
    ensures |ls[|ls| - 1]| == 0
  {
    ["bifiltration", b.xLabel, b.yLabel] + BifiltrationLines(b.points, num) + [""]
  }

  /** Every point line of a saved bifiltration holds the coordinates followed
      by exactly two appearance fields. */
  lemma SavedBifiltrationFields(b: Bifiltration, num: Numerals, i: nat)
    requires ValidBifiltration(b) && Formats(num)
    requires i < |b.points|
    ensures var f := Fields(SaveBifiltration(b, num)[3 + i]);
      && |f| == |b.points[i].coords| + 2
      && f[..|b.points[i].coords|] == Render(num, b.points[i].coords)
      && f[|b.points[i].coords|..] == Render(num, b.points[i].appearance.items)
  {
    BifiltrationLineFields(b.points[i], num);
  }

  /** The largest entry of a row prefix `row[..k]`. */
  function RowMax(row: seq<real>, k: nat): (m: real)
    requires 1 <= k <= |row|
    ensures forall j :: 0 <= j < k ==> row[j] <= m
    ensures exists j :: 0 <= j < k && row[j] == m
  {
    if k == 1 then row[0]
    else
      var m := RowMax(row, k - 1);
      if row[k - 1] > m then row[k - 1] else m
  }

  /** The largest of the first `k` rows' first `n` entries. */
  function MatrixMax(matrix: seq<seq<real>>, k: nat, n: nat): (m: real)
    requires 1 <= k <= |matrix| && n >= 1
    requires forall i :: 0 <= i < |matrix| ==> |matrix[i]| >= n
    ensures forall i, j :: 0 <= i < k && 0 <= j < n ==> matrix[i][j] <= m
    ensures exists i, j :: 0 <= i < k && 0 <= j < n && matrix[i][j] == m
  {
    if k == 1 then RowMax(matrix[0], n)
    else
      var m := MatrixMax(matrix, k - 1, n);
      var r := RowMax(matrix[k - 1], n);
      if r > m then r else m
  }

  /** `x` is an entry of the n-by-n block of `matrix` and no entry there
      is larger. */
  predicate IsLargestEntry(matrix: seq<seq<real>>, n: nat, x: real) {
    && (forall i, j :: 0 <= i < n && i < |matrix| && 0 <= j < n && j < |matrix[i]| ==> matrix[i][j] <= x)
    && (exists i, j :: 0 <= i < n && i < |matrix| && 0 <= j < n && j < |matrix[i]| && matrix[i][j] == x)
  }

  /** Row `r` of the upper triangle: the entries of columns `r+1 .. n-1`,
      each followed by a blank. */
  function UpperRow(matrix: seq<seq<real>>, r: nat, num: Numerals): string
    requires r < |matrix| && |matrix[r]| >= |matrix|
  {
    Terminated(Render(num, matrix[r][r + 1..|matrix|]), " ")
  }

  function UpperRows(matrix: seq<seq<real>>, from: nat, num: Numerals): (ls: seq<string>)
    requires from <= |matrix|
    requires forall i :: 0 <= i < |matrix| ==> |matrix[i]| >= |matrix|
    ensures |ls| == |matrix| - from
    ensures forall r :: from <= r < |matrix| ==> ls[r - from] == UpperRow(matrix, r, num)
    decreases |matrix| - from
  {
    if from == |matrix| then [] else [UpperRow(matrix, from, num)] + UpperRows(matrix, from + 1, num)
  }

  /** Where each part of a saved metric space lands in its line list. */
  lemma MetricLayout(cs: seq<string>, mode: seq<string>, name: string, top: string, rows: seq<string>)
    requires |mode| == 2
    ensures var ls := ["metric"] + cs + (mode + [name, top] + rows);
      var k := 1 + |cs|;
      && |ls| == k + 4 + |rows|
      && ls[0] == "metric"
      && ls[1..k] == cs
      && ls[k] == mode[0] && ls[k + 1] == mode[1]
      && ls[k + 2] == name && ls[k + 3] == top
      && forall j :: 0 <= j < |rows| ==> ls[k + 4 + j] == rows[j]
  {
    Middle(["metric"], cs, mode + [name, top] + rows);
  }

  /** The last row of the upper triangle has no entries. */
  lemma LastUpperRow(matrix: seq<seq<real>>, num: Numerals)
    requires |matrix| > 0
    requires forall i :: 0 <= i < |matrix| ==> |matrix[i]| >= |matrix|
    ensures |UpperRows(matrix, 0, num)[|matrix| - 1]| == 0
  {
    var n := |matrix|;
    assert matrix[n - 1][n..n] == [];
    assert UpperRow(matrix, n - 1, num) == Terminated([], " ");
  }

  /** The lines naming the second parameter of a metric space: the label
      and the values, or `no function` and the number of points. */
  function ModeLines(m: MetricSpace, num: Numerals): seq<string> {
    match m.appearanceValues
    case Some(vs) => [m.appearanceLabel, JoinSpaced(Render(num, vs))]
    case None => ["no function", NatToString(|m.distanceMatrix|)]
  }

  /** The error `MetricSpace.save` raises on a distance matrix, if any.
      Building the list for `max` indexes row by row, so the first row
      shorter than the matrix raises before `max` sees fewer than two
      entries. */
  function MatrixError(matrix: seq<seq<real>>): (e: Option<Error>)
    ensures (exists i :: 0 <= i < |matrix| && |matrix[i]| < |matrix|) ==>
      && e.Some? && e.value.ShortRow?
      && e.value.row < |matrix|
      && |matrix[e.value.row]| < |matrix|
      && forall j :: 0 <= j < e.value.row ==> |matrix[j]| >= |matrix|
    ensures (forall i :: 0 <= i < |matrix| ==> |matrix[i]| >= |matrix|) ==>
      (e.Some? <==> |matrix| < 2) && (e.Some? ==> e.value == TooFewPoints(|matrix|))
  {
    match FindFirst(matrix, (row: seq<real>) => |row| < |matrix|, 0)
    case Some(i) => Some(ShortRow(i))
    case None => if |matrix| < 2 then Some(TooFewPoints(|matrix|)) else None
  }

  /** `MetricSpace.save`. The maximum is taken over the whole n-by-n matrix,
      so every row must be at least n long (an IndexError otherwise) and
      there must be at least two entries (`max` of one float fails). */
  function SaveMetricSpace(m: MetricSpace, num: Numerals): (r: Result<seq<string>>)
    ensures var n := |m.distanceMatrix|;
      r.Err? <==> n < 2 || exists i :: 0 <= i < n && |m.distanceMatrix[i]| < n
    ensures r.Err? ==> MatrixError(m.distanceMatrix) == Some(r.error)
    ensures r.Ok? ==>
      var n := |m.distanceMatrix|;
      var k := 1 + |CommentLines("#", m.comment)|;
      && |r.value| == k + 4 + n
      && r.value[0] == "metric"
      && r.value[1..k] == CommentLines("#", m.comment)
      && (m.appearanceValues.None? ==> r.value[k] == "no function" && r.value[k + 1] == NatToString(n))
      && (m.appearanceValues.Some? ==>
            r.value[k] == m.appearanceLabel
            && r.value[k + 1] == JoinSpaced(Render(num, m.appearanceValues.value)))
      && r.value[k + 2] == m.distanceLabel
      && (exists x :: r.value[k + 3] == num.fmt(x) && IsLargestEntry(m.distanceMatrix, n, x))
      && (forall row :: 0 <= row < n ==> r.value[k + 4 + row] == UpperRow(m.distanceMatrix, row, num))
      && |r.value[|r.value| - 1]| == 0
  {
    var matrix := m.distanceMatrix;
    var n := |matrix|;
    match MatrixError(matrix)
    case Some(e) => Err(e)
    case None =>
      var top := MatrixMax(matrix, n, n);
      var cs := CommentLines("#", m.comment);
      var rows := UpperRows(matrix, 0, num);
      var ls := ["metric"] + cs + (ModeLines(m, num) + [m.distanceLabel, num.fmt(top)] + rows);
      MetricLayout(cs, ModeLines(m, num), m.distanceLabel, num.fmt(top), rows);
      LastUpperRow(matrix, num);
      Ok(ls)
  }

  /** A two-point matrix whose second row is short raises at that row, not
      for too few points. */
  lemma ShortRowExample(tag: string, comment: Option<string>, num: Numerals)
    ensures SaveMetricSpace(MetricSpace(tag, tag, None, [[0.0, 1.0], [0.0]], comment), num)
         == Err(ShortRow(1))
  {
    var matrix := [[0.0, 1.0], [0.0]];
    assert |matrix[1]| < |matrix|;
  }

  /** Row `r` of a saved metric space holds exactly the `n-1-r` entries of
      columns `r+1 .. n-1`, in order. */
  lemma UpperRowFields(matrix: seq<seq<real>>, r: nat, num: Numerals)
    requires r < |matrix| && |matrix[r]| >= |matrix|
    requires Formats(num)
    ensures Fields(UpperRow(matrix, r, num)) == Render(num, matrix[r][r + 1..|matrix|])
    ensures |Fields(UpperRow(matrix, r, num))| == |matrix| - 1 - r
  {
    RenderTokens(num, matrix[r][r + 1..|matrix|]);
    FieldsTerminated(Render(num, matrix[r][r + 1..|matrix|]), " ");
  }

  /** The appearance line of a saved metric space holds exactly the values. */
  lemma AppearanceLineFields(vs: seq<real>, num: Numerals)
    requires Formats(num)
    ensures Fields(JoinSpaced(Render(num, vs))) == Render(num, vs)
  {
    RenderTokens(num, vs);
    FieldsJoinSpaced(Render(num, vs));
  }

  /** A three-point multi-critical space writes `no function` and `3`, then
      rows of two, one and no entries. */
  lemma ThreePointExample(num: Numerals, d01: real, d02: real, d12: real)
    requires Formats(num)
    ensures var m := MetricSpace("a", "d", None,
        [[0.0, d01, d02], [0.0, 0.0, d12], [0.0, 0.0, 0.0]], None);
      var r := SaveMetricSpace(m, num);
      && r.Ok?
      && r.value[1] == "no function" && r.value[2] == "3"
      && |Fields(r.value[5])| == 2 && |Fields(r.value[6])| == 1 && |Fields(r.value[7])| == 0
  {
    var matrix := [[0.0, d01, d02], [0.0, 0.0, d12], [0.0, 0.0, 0.0]];
    var m := MetricSpace("a", "d", None, matrix, None);
    assert NatToString(3) == "3";
    UpperRowFields(matrix, 0, num);
    UpperRowFields(matrix, 1, num);
    UpperRowFields(matrix, 2, num);
  }
}
