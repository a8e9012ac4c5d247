/** The engine's `--betti` output and its parser: grade lists for both
    axes, then the three sparse multi-graded Betti tables xi_0, xi_1 and
    xi_2, one table row per line.
 */
module Betti {
  import opened Results
  import opened Text
  import opened Decimal

  /** The grades along each axis. */
  datatype Dimensions = Dimensions(xGrades: seq<Fraction>, yGrades: seq<Fraction>)

  /** Dimensions plus the three Betti tables; each row is the tuple of
      integers one line gives, normally `(x index, y index, value)`. */
  datatype MultiBetti = MultiBetti(dimensions: Dimensions, xi0: seq<seq<int>>, xi1: seq<seq<int>>, xi2: seq<seq<int>>)

  /** Which grade list `current_grades` points at. */
  datatype Axis = XAxis | YAxis

  /** An index into the three Betti tables. */
  type XiIndex = n: nat | n < 3

  /** The parser's variables: the lists built so far and the two "current
      list" selections, each possibly unset. */
  datatype BettiState = BettiState(
    xGrades: seq<Fraction>,
    yGrades: seq<Fraction>,
    xi0: seq<seq<int>>,
    xi1: seq<seq<int>>,
    xi2: seq<seq<int>>,
    grades: Option<Axis>,
    current: Option<XiIndex>)
  {
    function Xi(n: XiIndex): seq<seq<int>> {
      if n == 0 then xi0 else if n == 1 then xi1 else xi2
    }

    function Grades(a: Axis): seq<Fraction> {
      if a == XAxis then xGrades else yGrades
    }

    /** Both selections unset, lists kept. */
    function Reset(): BettiState {
      this.(grades := None, current := None)
    }
  }

  const Initial: BettiState := BettiState([], [], [], [], [], None, None)

  /** The state with `rows` appended to table `n` and nothing else changed. */
  function AddRows(s: BettiState, n: XiIndex, rows: seq<seq<int>>): (r: BettiState)
    ensures r.Xi(n) == s.Xi(n) + rows
    ensures forall m: XiIndex :: m != n ==> r.Xi(m) == s.Xi(m)
    ensures r.xGrades == s.xGrades && r.yGrades == s.yGrades
    ensures r.grades == s.grades && r.current == s.current
  {
    if n == 0 then s.(xi0 := s.xi0 + rows)
    else if n == 1 then s.(xi1 := s.xi1 + rows)
    else s.(xi2 := s.xi2 + rows)
  }

  /** The state with `gs` appended to the grades of `a` and nothing else
      changed. */
  function AddGrades(s: BettiState, a: Axis, gs: seq<Fraction>): (r: BettiState)
    ensures r.Grades(a) == s.Grades(a) + gs
    ensures forall b: Axis :: b != a ==> r.Grades(b) == s.Grades(b)
    ensures r.xi0 == s.xi0 && r.xi1 == s.xi1 && r.xi2 == s.xi2
    ensures r.grades == s.grades && r.current == s.current
  {
    if a == XAxis then s.(xGrades := s.xGrades + gs) else s.(yGrades := s.yGrades + gs)
  }

  /** `xi[int(line[3])]` for a line starting with `xi_`: a missing fourth
      character or an index past 2 raises, as does a non-digit. */
  function XiHeader(t: string): (r: Result<XiIndex>)
    requires "xi_" <= t
    ensures r.Ok? <==> |t| >= 4 && '0' <= t[3] <= '2'
    ensures r.Ok? ==> r.value == t[3] as int - '0' as int
  {
    ParseIntDigit(if |t| >= 4 then t[3] else ' ');
    if |t| < 4 then Err(BadXiHeader(t))
    else
      match ParseInt([t[3]])
      case None => Err(BadInt([t[3]]))
      case Some(n) => if 0 <= n < 3 then Ok(n) else Err(BadXiHeader(t))
  }

  /** A table line: the integers between its first and last characters,
      separated by commas. */
  function ParseRow(t: string): Result<seq<int>>
  {
    ParseInts(Split(Inner(t), ','))
  }

  /** One iteration of the loop of `_parse_betti`, on a stripped line. The
      branches are tried in the source's order: the two grade headers, the
      blank line, a grade value, an `xi_` header, a table row, and
      otherwise nothing. */
  function Step(s: BettiState, t: string): Result<BettiState>
  {
    if t == "x-grades" then Ok(s.(grades := Some(XAxis)))
    else if t == "y-grades" then Ok(s.(grades := Some(YAxis)))
    else if |t| == 0 then Ok(s.Reset())
    else if s.grades.Some? then
      var g :- ParseFraction(t);
      Ok(AddGrades(s, s.grades.value, [g]))
    else if "xi_" <= t then
      var n :- XiHeader(t);
      Ok(s.(current := Some(n)))
    else if s.current.Some? then
      var row :- ParseRow(t);
      Ok(AddRows(s, s.current.value, [row]))
    else Ok(s)
  }

  /** The loop over stripped lines; the first exception ends the parse. */
  function Run(s: BettiState, ts: seq<string>): Result<BettiState>
    decreases |ts|
  {
    if |ts| == 0 then Ok(s)
    else
      var s' :- Step(s, ts[0]);
      Run(s', ts[1..])
  }

  /** `_parse_betti`. */
  function ParseBetti(lines: seq<string>): Result<MultiBetti>
  {
    var s :- Run(Initial, StripAll(lines));
    Ok(MultiBetti(Dimensions(s.xGrades, s.yGrades), s.xi0, s.xi1, s.xi2))
  }

  /** Running over a concatenation runs over the first part, then over the
      second from where the first left off. */
  lemma {:induction false} RunConcat(s: BettiState, a: seq<string>, b: seq<string>)
    ensures Run(s, a + b) ==
      match Run(s, a)
      case Err(e) => Err(e)
      case Ok(m) => Run(m, b)
    decreases |a|
  {
    if |a| == 0 {
      assert a + b == b;
    } else {
      assert (a + b)[0] == a[0];
      assert (a + b)[1..] == a[1..] + b;
      var step := Step(s, a[0]);
      if step.Ok? {
        RunConcat(step.value, a[1..], b);
      }
    }
  }

  /** A line that neither selects a list nor is blank. */
  predicate Plain(t: string) {
    |t| > 0 && t != "x-grades" && t != "y-grades" && !("xi_" <= t)
  }

  /** Outside any section, lines that select no list change nothing. */
  lemma {:induction false} OutsideSectionsIgnored(s: BettiState, ts: seq<string>)
    requires s.grades.None? && s.current.None?
    requires forall i :: 0 <= i < |ts| ==> |ts[i]| == 0 || Plain(ts[i])
    ensures Run(s, ts) == Ok(s)
    decreases |ts|
  {
    if |ts| > 0 {
      assert Step(s, ts[0]) == Ok(s);
      OutsideSectionsIgnored(s, ts[1..]);
    }
  }

  /** Inside a grade section every line that is not a header or blank is
      read as a fraction and appended to the selected list, in order; the
      `xi_` test comes later and is never reached. */
  lemma {:induction false} GradeLines(s: BettiState, a: Axis, vs: seq<string>)
    requires s.grades == Some(a)
    requires forall i :: 0 <= i < |vs| ==> |vs[i]| > 0 && vs[i] != "x-grades" && vs[i] != "y-grades"
    ensures Run(s, vs) == (var gs :- ParseFractions(vs); Ok(AddGrades(s, a, gs)))
    decreases |vs|
  {
    if |vs| == 0 {
      assert AddGrades(s, a, []) == s;
    } else {
      match ParseFraction(vs[0])
      case Err(_) =>
      case Ok(g) =>
        var s' := AddGrades(s, a, [g]);
        GradeStep(s, a, vs[0]);
        RunCons(s, vs, s');
        GradeLines(s', a, vs[1..]);
        match ParseFractions(vs[1..])
        case Err(_) =>
        case Ok(gs) =>
          assert ParseFractions(vs) == Ok([g] + gs);
          AddGradesTwice(s, a, [g], gs);
    }
  }

  /** Texts that differ at some position are different. */
  lemma Differ(t: string, u: string, k: nat)
    requires k < |t| && k < |u| && t[k] != u[k]
    ensures t != u
  {
  }

  /** A well-formed `xi_N` header selects table N and changes nothing else. */
  lemma XiStep(s: BettiState, t: string)
    requires s.grades.None? && "xi_" <= t && |t| >= 4 && '0' <= t[3] <= '2'
    ensures Step(s, t) == Ok(s.(current := Some(t[3] as int - '0' as int)))
  {
    Differ(t, "x-grades", 1);
    Differ(t, "y-grades", 0);
  }

  lemma AddGradesTwice(s: BettiState, a: Axis, x: seq<Fraction>, y: seq<Fraction>)
    ensures AddGrades(AddGrades(s, a, x), a, y) == AddGrades(s, a, x + y)
  {
    assert s.Grades(a) + x + y == s.Grades(a) + (x + y);
  }

  lemma AddRowsTwice(s: BettiState, n: XiIndex, x: seq<seq<int>>, y: seq<seq<int>>)
    ensures AddRows(AddRows(s, n, x), n, y) == AddRows(s, n, x + y)
  {
    assert s.Xi(n) + x + y == s.Xi(n) + (x + y);
  }

  lemma RunCons(s: BettiState, ts: seq<string>, s': BettiState)
    requires |ts| > 0 && Step(s, ts[0]) == Ok(s')
    ensures Run(s, ts) == Run(s', ts[1..])
  {
  }

  lemma GradeStep(s: BettiState, a: Axis, t: string)
    requires s.grades == Some(a)
    requires |t| > 0 && t != "x-grades" && t != "y-grades"
    ensures Step(s, t) == (var g :- ParseFraction(t); Ok(AddGrades(s, a, [g])))
  {
  }

  lemma RowStep(s: BettiState, n: XiIndex, t: string)
    requires s.grades.None? && s.current == Some(n) && Plain(t)
    ensures Step(s, t) == (var r :- ParseRow(t); Ok(AddRows(s, n, [r])))
  {
  }

  /** An `xi_` line inside a grade section is a malformed fraction. */
  lemma XiLineInGradeSection(s: BettiState, t: string)
    requires s.grades.Some? && "xi_" <= t
    ensures Step(s, t) == Err(BadFraction(t))
  {
    assert t[0] == 'x';
    assert Strip(t) == t[..TrailingEnd(t)] by {
      assert LeadingSpaces(t) == 0;
    }
    var u := Strip(t);
    assert u[0] == 'x';
    SplitHead(u, '/');
  }

  /** Inside a table section every plain line adds exactly one row, the
      integers between its outer characters, in order. */
  lemma {:induction false} TableLines(s: BettiState, n: XiIndex, rows: seq<string>)
    requires s.grades.None? && s.current == Some(n)
    requires forall i :: 0 <= i < |rows| ==> Plain(rows[i])
    ensures Run(s, rows) == (var rs :- ParseRows(rows); Ok(AddRows(s, n, rs)))
    decreases |rows|
  {
    if |rows| == 0 {
      assert AddRows(s, n, []) == s;
    } else {
      var t := rows[0];
      assert Plain(t);
      match ParseRow(t)
      case Err(_) =>
      case Ok(r) =>
        var s' := AddRows(s, n, [r]);
        RowStep(s, n, t);
        RunCons(s, rows, s');
        TableLines(s', n, rows[1..]);
        match ParseRows(rows[1..])
        case Err(_) =>
        case Ok(rs) =>
          assert ParseRows(rows) == Ok([r] + rs);
          AddRowsTwice(s, n, [r], rs);
    }
  }

  /** `ParseRow` applied to each line: fails on the first it rejects. */
  function ParseRows(ts: seq<string>): Result<seq<seq<int>>>
  {
    MapRead(ParseRow, ts)
  }

  /** A header line, the lines under it and the blank line that closes
      the section. */
  function Section(header: string, body: seq<string>): seq<string>
  {
    [header] + body + [""]
  }

  /** A grade section: every line under the header is read as a fraction
      and appended to that axis, in order, and the closing blank line
      unsets both selections. */
  lemma GradeSection(s: BettiState, a: Axis, vs: seq<string>)
    requires forall i :: 0 <= i < |vs| ==> |vs[i]| > 0 && vs[i] != "x-grades" && vs[i] != "y-grades"
    ensures Run(s, Section(if a == XAxis then "x-grades" else "y-grades", vs)) ==
      (var gs :- ParseFractions(vs); Ok(AddGrades(s, a, gs).Reset()))
  {
    var h := if a == XAxis then "x-grades" else "y-grades";
    var s1 := s.(grades := Some(a));
    assert Step(s, h) == Ok(s1);
    assert Section(h, vs) == [h] + (vs + [""]);
    RunCons(s, Section(h, vs), s1);
    assert Section(h, vs)[1..] == vs + [""];
    RunConcat(s1, vs, [""]);
    GradeLines(s1, a, vs);
    match ParseFractions(vs)
    case Err(_) =>
    case Ok(gs) =>
      var s2 := AddGrades(s1, a, gs);
      assert Step(s2, "") == Ok(s2.Reset());
      assert s2.Reset() == AddGrades(s, a, gs).Reset();
  }

  /** A table section `xi_n`: every line under the header adds one row to
      table `n`, in order, and the closing blank line unsets both selections. */
  lemma TableSection(s: BettiState, h: string, rows: seq<string>)
    requires s.grades.None?
    requires "xi_" <= h && |h| >= 4 && '0' <= h[3] <= '2'
    requires forall i :: 0 <= i < |rows| ==> Plain(rows[i])
    ensures Run(s, Section(h, rows)) ==
      (var rs :- ParseRows(rows); Ok(AddRows(s, h[3] as int - '0' as int, rs).Reset()))
  {
    var n: XiIndex := h[3] as int - '0' as int;
    var s1 := s.(current := Some(n));
    XiStep(s, h);
    assert Section(h, rows) == [h] + (rows + [""]);
    RunCons(s, Section(h, rows), s1);
    assert Section(h, rows)[1..] == rows + [""];
    RunConcat(s1, rows, [""]);
    TableLines(s1, n, rows);
    match ParseRows(rows)
    case Err(_) =>
    case Ok(rs) =>
      var s2 := AddRows(s1, n, rs);
      assert Step(s2, "") == Ok(s2.Reset());
      assert s2.Reset() == AddRows(s, n, rs).Reset();
  }

  /** `str` of each fraction, one per line. */
  function GradeTexts(fs: seq<Fraction>): (ts: seq<string>)
    requires forall i :: 0 <= i < |fs| ==> fs[i].denominator > 0
    ensures |ts| == |fs|
    ensures forall i :: 0 <= i < |fs| ==> ts[i] == RatioToString(fs[i].numerator, fs[i].denominator)
  {
    if |fs| == 0 then [] else [RatioToString(fs[0].numerator, fs[0].denominator)] + GradeTexts(fs[1..])
  }

  /** A table row as `(a,b,c)`: the integers joined by commas, in
      parentheses. */
  function RowText(row: seq<int>): (t: string)
    ensures |t| >= 2 && t[0] == '(' && t[|t| - 1] == ')'
  {
    "(" + Join(IntTexts(row), ",") + ")"
  }

  function IntTexts(row: seq<int>): (ts: seq<string>)
    ensures |ts| == |row|
    ensures forall i :: 0 <= i < |row| ==> ts[i] == IntToString(row[i])
  {
    if |row| == 0 then [] else [IntToString(row[0])] + IntTexts(row[1..])
  }

  function RowTexts(rows: seq<seq<int>>): (ts: seq<string>)
    ensures |ts| == |rows|
    ensures forall i :: 0 <= i < |rows| ==> ts[i] == RowText(rows[i])
  {
    if |rows| == 0 then [] else [RowText(rows[0])] + RowTexts(rows[1..])
  }

  /** Reading the rendered grades gives them back exactly. */
  lemma GradeTextsRead(fs: seq<Fraction>)
    requires forall i :: 0 <= i < |fs| ==> fs[i].denominator > 0
    ensures ParseFractions(GradeTexts(fs)) == Ok(fs)
  {
    var ts := GradeTexts(fs);
    forall i | 0 <= i < |fs| ensures ParseFraction(ts[i]) == Ok(fs[i]) {
      FractionRoundTrip(fs[i].numerator, fs[i].denominator);
    }
    assert ParseFractions(ts).value == fs;
  }

  /** Reading a rendered row gives the row back. */
  lemma RowTextRead(row: seq<int>)
    requires |row| > 0
    ensures ParseRow(RowText(row)) == Ok(row)
  {
    var ts := IntTexts(row);
    var j := Join(ts, ",");
    assert Inner(RowText(row)) == j;
    SplitJoin(ts, ',');
    forall i | 0 <= i < |row| ensures ParseInt(ts[i]) == Some(row[i]) {
      IntToStringRoundTrip(row[i]);
    }
    assert ParseInts(ts).value == row;
  }

  lemma RowTextsRead(rows: seq<seq<int>>)
    requires forall i :: 0 <= i < |rows| ==> |rows[i]| > 0
    ensures ParseRows(RowTexts(rows)) == Ok(rows)
  {
    var ts := RowTexts(rows);
    forall i | 0 <= i < |rows| ensures ParseRow(ts[i]) == Ok(rows[i]) {
      RowTextRead(rows[i]);
    }
    assert ParseRows(ts).value == rows;
  }

  /** A Betti block in the layout the parser reads: the two grade sections,
      then the three table sections, each closed by a blank line. */
  function BettiText(xs: seq<Fraction>, ys: seq<Fraction>,
                     t0: seq<seq<int>>, t1: seq<seq<int>>, t2: seq<seq<int>>): seq<string>
    requires forall i :: 0 <= i < |xs| ==> xs[i].denominator > 0
    requires forall i :: 0 <= i < |ys| ==> ys[i].denominator > 0
  {
    Section("x-grades", GradeTexts(xs)) + (Section("y-grades", GradeTexts(ys)) + Tables(t0, t1, t2))
  }

  /** The three table sections of a Betti block, in order. */
  function Tables(t0: seq<seq<int>>, t1: seq<seq<int>>, t2: seq<seq<int>>): seq<string>
  {
    Section("xi_0", RowTexts(t0)) + (Section("xi_1", RowTexts(t1)) + Section("xi_2", RowTexts(t2)))
  }

  /** No line of `lines` has surrounding whitespace. */
  predicate Tight(lines: seq<string>) {
    forall i :: 0 <= i < |lines| ==> |lines[i]| == 0 || (!IsSpace(lines[i][0]) && !IsSpace(lines[i][|lines[i]| - 1]))
  }

  lemma StripAllTight(lines: seq<string>)
    requires Tight(lines)
    ensures StripAll(lines) == lines
  {
    forall i | 0 <= i < |lines| ensures Strip(lines[i]) == lines[i] {
      StripTight(lines[i]);
    }
  }

  lemma SectionTight(h: string, body: seq<string>)
    requires |h| > 0 && !IsSpace(h[0]) && !IsSpace(h[|h| - 1])
    requires Tight(body)
    ensures Tight(Section(h, body))
  {
    var sec := Section(h, body);
    assert forall i :: 1 <= i <= |body| ==> sec[i] == body[i - 1];
  }

  lemma TightConcat(a: seq<string>, b: seq<string>)
    requires Tight(a) && Tight(b)
    ensures Tight(a + b)
  {
    assert forall i :: |a| <= i < |a| + |b| ==> (a + b)[i] == b[i - |a|];
  }

  /** Rendered grades are neither blank nor grade headers. */
  lemma GradeTextsPlain(fs: seq<Fraction>)
    requires forall i :: 0 <= i < |fs| ==> fs[i].denominator > 0
    ensures Tight(GradeTexts(fs))
    ensures forall i :: 0 <= i < |fs| ==>
      |GradeTexts(fs)[i]| > 0 && GradeTexts(fs)[i] != "x-grades" && GradeTexts(fs)[i] != "y-grades"
  {
    var ts := GradeTexts(fs);
    forall i | 0 <= i < |ts|
      ensures |ts[i]| == 0 || (!IsSpace(ts[i][0]) && !IsSpace(ts[i][|ts[i]| - 1]))
      ensures |ts[i]| > 0 && ts[i] != "x-grades" && ts[i] != "y-grades"
    {
      GradeTextPlain(ts[i]);
    }
  }

  /** A rendered grade, seen only through what the renderer promises. */
  lemma GradeTextPlain(t: string)
    requires |t| > 0 && (t[0] == '-' || IsDigit(t[0])) && IsDigit(t[|t| - 1])
    ensures !IsSpace(t[0]) && !IsSpace(t[|t| - 1])
    ensures t != "x-grades" && t != "y-grades"
  {
    Differ(t, "x-grades", 0);
    Differ(t, "y-grades", 0);
  }

  /** Rendered rows are plain lines. */
  lemma RowTextsPlain(rows: seq<seq<int>>)
    ensures forall i :: 0 <= i < |rows| ==> Plain(RowTexts(rows)[i])
  {
    var ts := RowTexts(rows);
    forall i | 0 <= i < |ts| ensures Plain(ts[i]) {
      var t := ts[i];
      assert t[0] == '(';
      Differ(t, "x-grades", 0);
      Differ(t, "y-grades", 0);
      assert !("xi_" <= t);
    }
  }

  lemma RowTextsTight(rows: seq<seq<int>>)
    ensures Tight(RowTexts(rows))
  {
    var ts := RowTexts(rows);
    forall i | 0 <= i < |ts|
      ensures |ts[i]| == 0 || (!IsSpace(ts[i][0]) && !IsSpace(ts[i][|ts[i]| - 1]))
    {
      var t := ts[i];
      assert t[0] == '(' && t[|t| - 1] == ')';
    }
  }

  /** Reading a rendered Betti block gives back its grades, exactly, and
      its three tables. */
  lemma BettiRoundTrip(xs: seq<Fraction>, ys: seq<Fraction>,
                       t0: seq<seq<int>>, t1: seq<seq<int>>, t2: seq<seq<int>>)
    requires forall i :: 0 <= i < |xs| ==> xs[i].denominator > 0
    requires forall i :: 0 <= i < |ys| ==> ys[i].denominator > 0
    requires forall i :: 0 <= i < |t0| ==> |t0[i]| > 0
    requires forall i :: 0 <= i < |t1| ==> |t1[i]| > 0
    requires forall i :: 0 <= i < |t2| ==> |t2[i]| > 0
    ensures ParseBetti(BettiText(xs, ys, t0, t1, t2)) ==
      Ok(MultiBetti(Dimensions(xs, ys), t0, t1, t2))
  {
    BettiTextTight(xs, ys, t0, t1, t2);
    StripAllTight(BettiText(xs, ys, t0, t1, t2));
    BettiTextRun(xs, ys, t0, t1, t2);
    Filled(xs, ys, t0, t1, t2);
  }

  /** The parser's loop over a rendered Betti block fills the grade lists
      and then the three tables, section by section. */
  lemma BettiTextRun(xs: seq<Fraction>, ys: seq<Fraction>,
                     t0: seq<seq<int>>, t1: seq<seq<int>>, t2: seq<seq<int>>)
    requires forall i :: 0 <= i < |xs| ==> xs[i].denominator > 0
    requires forall i :: 0 <= i < |ys| ==> ys[i].denominator > 0
    requires forall i :: 0 <= i < |t0| ==> |t0[i]| > 0
    requires forall i :: 0 <= i < |t1| ==> |t1[i]| > 0
    requires forall i :: 0 <= i < |t2| ==> |t2[i]| > 0
    ensures Run(Initial, BettiText(xs, ys, t0, t1, t2)) ==
      Ok(AddRows(AddRows(AddRows(AddGrades(AddGrades(Initial, XAxis, xs).Reset(), YAxis, ys).Reset(),
           0, t0).Reset(), 1, t1).Reset(), 2, t2).Reset())
  {
    var s1 := AddGrades(Initial, XAxis, xs).Reset();
    var s2 := AddGrades(s1, YAxis, ys).Reset();
    var b := Section("y-grades", GradeTexts(ys));
    GradeSectionRun(Initial, XAxis, xs, b + Tables(t0, t1, t2));
    GradeSectionRun(s1, YAxis, ys, Tables(t0, t1, t2));
    TablesRun(s2, t0, t1, t2);
  }

  /** The three table sections, read from a state outside any grade
      section, add their rows to the three tables in turn. */
  lemma TablesRun(s: BettiState, t0: seq<seq<int>>, t1: seq<seq<int>>, t2: seq<seq<int>>)
    requires s.grades.None?
    requires forall i :: 0 <= i < |t0| ==> |t0[i]| > 0
    requires forall i :: 0 <= i < |t1| ==> |t1[i]| > 0
    requires forall i :: 0 <= i < |t2| ==> |t2[i]| > 0
    ensures Run(s, Tables(t0, t1, t2)) ==
      Ok(AddRows(AddRows(AddRows(s, 0, t0).Reset(), 1, t1).Reset(), 2, t2).Reset())
  {
    var d, e := Section("xi_1", RowTexts(t1)), Section("xi_2", RowTexts(t2));
    var s3 := AddRows(s, 0, t0).Reset();
    var s4 := AddRows(s3, 1, t1).Reset();
    TableSectionRun(s, "xi_0", t0, d + e);
    TableSectionRun(s3, "xi_1", t1, e);
    assert e == e + [];
    TableSectionRun(s4, "xi_2", t2, []);
  }

  /** Filling the initial state section by section leaves exactly the
      rendered lists, with both selections unset. */
  lemma Filled(xs: seq<Fraction>, ys: seq<Fraction>, t0: seq<seq<int>>, t1: seq<seq<int>>, t2: seq<seq<int>>)
    ensures AddRows(AddRows(AddRows(AddGrades(AddGrades(Initial, XAxis, xs).Reset(), YAxis, ys).Reset(),
              0, t0).Reset(), 1, t1).Reset(), 2, t2).Reset()
         == BettiState(xs, ys, t0, t1, t2, None, None)
  {
    assert [] + xs == xs && [] + ys == ys;
    assert [] + t0 == t0 && [] + t1 == t1 && [] + t2 == t2;
  }

  lemma BettiTextTight(xs: seq<Fraction>, ys: seq<Fraction>,
                       t0: seq<seq<int>>, t1: seq<seq<int>>, t2: seq<seq<int>>)
    requires forall i :: 0 <= i < |xs| ==> xs[i].denominator > 0
    requires forall i :: 0 <= i < |ys| ==> ys[i].denominator > 0
    ensures Tight(BettiText(xs, ys, t0, t1, t2))
  {
    var a, b := Section("x-grades", GradeTexts(xs)), Section("y-grades", GradeTexts(ys));
    var c, d, e := Section("xi_0", RowTexts(t0)), Section("xi_1", RowTexts(t1)), Section("xi_2", RowTexts(t2));
    assert Tables(t0, t1, t2) == c + (d + e);
    GradeSectionTight("x-grades", xs);
    GradeSectionTight("y-grades", ys);
    RowSectionTight("xi_0", t0);
    RowSectionTight("xi_1", t1);
    RowSectionTight("xi_2", t2);
    TightConcat(d, e);
    TightConcat(c, d + e);
    TightConcat(b, c + (d + e));
    TightConcat(a, b + (c + (d + e)));
  }

  lemma GradeSectionTight(h: string, fs: seq<Fraction>)
    requires |h| > 0 && !IsSpace(h[0]) && !IsSpace(h[|h| - 1])
    requires forall i :: 0 <= i < |fs| ==> fs[i].denominator > 0
    ensures Tight(Section(h, GradeTexts(fs)))
  {
    GradeTextsPlain(fs);
    SectionTight(h, GradeTexts(fs));
  }

  lemma RowSectionTight(h: string, rows: seq<seq<int>>)
    requires |h| > 0 && !IsSpace(h[0]) && !IsSpace(h[|h| - 1])
    ensures Tight(Section(h, RowTexts(rows)))
  {
    RowTextsTight(rows);
    SectionTight(h, RowTexts(rows));
  }

  /** A rendered grade section, then anything. */
  lemma GradeSectionRun(s: BettiState, a: Axis, fs: seq<Fraction>, rest: seq<string>)
    requires forall i :: 0 <= i < |fs| ==> fs[i].denominator > 0
    ensures Run(s, Section(if a == XAxis then "x-grades" else "y-grades", GradeTexts(fs)) + rest)
         == Run(AddGrades(s, a, fs).Reset(), rest)
  {
    GradeTextsPlain(fs);
    GradeTextsRead(fs);
    GradeSection(s, a, GradeTexts(fs));
    RunConcat(s, Section(if a == XAxis then "x-grades" else "y-grades", GradeTexts(fs)), rest);
  }

  /** A rendered table section, then anything. */
  lemma TableSectionRun(s: BettiState, h: string, rows: seq<seq<int>>, rest: seq<string>)
    requires s.grades.None?
    requires "xi_" <= h && |h| >= 4 && '0' <= h[3] <= '2'
    requires forall i :: 0 <= i < |rows| ==> |rows[i]| > 0
    ensures Run(s, Section(h, RowTexts(rows)) + rest)
         == Run(AddRows(s, h[3] as int - '0' as int, rows).Reset(), rest)
  {
    RowTextsPlain(rows);
    RowTextsRead(rows);
    TableSection(s, h, RowTexts(rows));
    RunConcat(s, Section(h, RowTexts(rows)), rest);
  }

  /** A block with two grades per axis and one row in xi_0: the grades are
      read exactly and the other two tables stay empty. */
  lemma BettiExample()
    ensures ParseBetti(["x-grades", "1/2", "1", "", "y-grades", "1", "2", "", "xi_0", "(0,0,1)", "", ""]) ==
      Ok(MultiBetti(Dimensions([Fraction(1, 2), Fraction(1, 1)], [Fraction(1, 1), Fraction(2, 1)]), [[0, 0, 1]], [], []))
  {
    var xs, ys := [Fraction(1, 2), Fraction(1, 1)], [Fraction(1, 1), Fraction(2, 1)];
    var lines := ["x-grades", "1/2", "1", "", "y-grades", "1", "2", "", "xi_0", "(0,0,1)", "", ""];
    ExampleTexts();
    ExampleLines("x-grades", "1/2", "1", "y-grades", "1", "2", "xi_0", "(0,0,1)");
    FirstTableBlock(lines, xs, ys, [[0, 0, 1]], ["1/2", "1"], ["1", "2"], ["(0,0,1)"]);
  }

  /** Two grade sections, a single table section xi_0 and a trailing blank
      line: the grades and the rows of xi_0, the other tables empty. */
  lemma FirstTableRun(xs: seq<Fraction>, ys: seq<Fraction>, t0: seq<seq<int>>)
    requires forall i :: 0 <= i < |xs| ==> xs[i].denominator > 0
    requires forall i :: 0 <= i < |ys| ==> ys[i].denominator > 0
    requires forall i :: 0 <= i < |t0| ==> |t0[i]| > 0
    ensures ParseBetti(Section("x-grades", GradeTexts(xs)) + (Section("y-grades", GradeTexts(ys)) +
                       (Section("xi_0", RowTexts(t0)) + [""]))) ==
      Ok(MultiBetti(Dimensions(xs, ys), t0, [], []))
  {
    var a, b, c := Section("x-grades", GradeTexts(xs)), Section("y-grades", GradeTexts(ys)), Section("xi_0", RowTexts(t0));
    FirstTableTight(xs, ys, t0);
    StripAllTight(a + (b + (c + [""])));
    var s1 := AddGrades(Initial, XAxis, xs).Reset();
    var s2 := AddGrades(s1, YAxis, ys).Reset();
    var s3 := AddRows(s2, 0, t0).Reset();
    GradeSectionRun(Initial, XAxis, xs, b + (c + [""]));
    GradeSectionRun(s1, YAxis, ys, c + [""]);
    TableSectionRun(s2, "xi_0", t0, [""]);
    assert Run(s3, [""]) == Ok(s3);
    Filled(xs, ys, t0, [], []);
    assert s3 == AddRows(AddRows(s3, 1, []).Reset(), 2, []).Reset();
  }

  lemma FirstTableTight(xs: seq<Fraction>, ys: seq<Fraction>, t0: seq<seq<int>>)
    requires forall i :: 0 <= i < |xs| ==> xs[i].denominator > 0
    requires forall i :: 0 <= i < |ys| ==> ys[i].denominator > 0
    ensures Tight(Section("x-grades", GradeTexts(xs)) + (Section("y-grades", GradeTexts(ys)) +
                  (Section("xi_0", RowTexts(t0)) + [""])))
  {
    var a, b, c := Section("x-grades", GradeTexts(xs)), Section("y-grades", GradeTexts(ys)), Section("xi_0", RowTexts(t0));
    GradeSectionTight("x-grades", xs);
    GradeSectionTight("y-grades", ys);
    RowSectionTight("xi_0", t0);
    TightConcat(c, [""]);
    TightConcat(b, c + [""]);
    TightConcat(a, b + (c + [""]));
  }

  /** `FirstTableRun` for a block given line by line. */
  lemma FirstTableBlock(lines: seq<string>, xs: seq<Fraction>, ys: seq<Fraction>, t0: seq<seq<int>>,
                        gx: seq<string>, gy: seq<string>, rt: seq<string>)
    requires forall i :: 0 <= i < |xs| ==> xs[i].denominator > 0
    requires forall i :: 0 <= i < |ys| ==> ys[i].denominator > 0
    requires forall i :: 0 <= i < |t0| ==> |t0[i]| > 0
    requires GradeTexts(xs) == gx && GradeTexts(ys) == gy && RowTexts(t0) == rt
    requires lines == Section("x-grades", gx) + (Section("y-grades", gy) + (Section("xi_0", rt) + [""]))
    ensures ParseBetti(lines) == Ok(MultiBetti(Dimensions(xs, ys), t0, [], []))
  {
    FirstTableRun(xs, ys, t0);
  }

  /** The lines of the example block, section by section. */
  lemma ExampleLines(hx: string, x0: string, x1: string, hy: string, y0: string, y1: string, ht: string, r: string)
    ensures [hx, x0, x1, "", hy, y0, y1, "", ht, r, "", ""] ==
      Section(hx, [x0, x1]) + (Section(hy, [y0, y1]) + (Section(ht, [r]) + [""]))
  {
  }

  /** The rendered grades and row of the example block. */
  lemma ExampleTexts()
    ensures GradeTexts([Fraction(1, 2), Fraction(1, 1)]) == ["1/2", "1"]
    ensures GradeTexts([Fraction(1, 1), Fraction(2, 1)]) == ["1", "2"]
    ensures RowTexts([[0, 0, 1]]) == ["(0,0,1)"]
  {
    SmallRatios();
    GradePair(Fraction(1, 2), Fraction(1, 1));
    GradePair(Fraction(1, 1), Fraction(2, 1));
    SmallRow();
  }

  lemma SmallRatios()
    ensures RatioToString(1, 2) == "1/2" && RatioToString(1, 1) == "1" && RatioToString(2, 1) == "2"
  {
    assert NatToString(1) == "1" && NatToString(2) == "2";
  }

  lemma GradePair(f: Fraction, g: Fraction)
    requires f.denominator > 0 && g.denominator > 0
    ensures GradeTexts([f, g]) == [RatioToString(f.numerator, f.denominator), RatioToString(g.numerator, g.denominator)]
  {
  }

  lemma SmallRow()
    ensures RowTexts([[0, 0, 1]]) == ["(0,0,1)"]
  {
    assert NatToString(0) == "0" && NatToString(1) == "1";
    assert IntTexts([0, 0, 1]) == ["0", "0", "1"];
    assert Join(["0", "0", "1"], ",") == "0,0,1";
    assert RowText([0, 0, 1]) == "(0,0,1)";
  }
}
