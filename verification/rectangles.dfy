/** The parameter-space rectangle of a persistence module: `Bounds`, the
    enclosing rectangle of two of them, and the parser of the engine's
    `--bounds` output.
 */
module Rectangles {
  import opened Results
  import opened Text
  import opened Numerals

  /** Lower-left and upper-right corners. A parsed corner holds one value per
      comma-separated field, so its length is not fixed by the type. */
  datatype Bounds = Bounds(lowerLeft: seq<real>, upperRight: seq<real>)

  /** Both corners have an x and a y component. */
  predicate Planar(b: Bounds) {
    |b.lowerLeft| >= 2 && |b.upperRight| >= 2
  }

  /** `outer` contains `inner` in both coordinates. */
  predicate Encloses(outer: Bounds, inner: Bounds)
    requires Planar(outer) && Planar(inner)
  {
    && outer.lowerLeft[0] <= inner.lowerLeft[0] && outer.lowerLeft[1] <= inner.lowerLeft[1]
    && inner.upperRight[0] <= outer.upperRight[0] && inner.upperRight[1] <= outer.upperRight[1]
  }

  function Min(a: real, b: real): real { if b < a then b else a }

  function Max(a: real, b: real): real { if b > a then b else a }

  /** `Bounds.common_bounds`: componentwise minimum of the lower-left corners
      and maximum of the upper-right corners. Reading component 1 of a
      shorter corner raises. */
  function CommonBounds(a: Bounds, b: Bounds): (r: Result<Bounds>)
    ensures r.Ok? <==> Planar(a) && Planar(b)
    ensures r.Err? ==> r.error == CornerTooShort
    ensures r.Ok? ==>
      && |r.value.lowerLeft| == 2 && |r.value.upperRight| == 2
      && (forall k :: 0 <= k < 2 ==>
            && r.value.lowerLeft[k] <= a.lowerLeft[k] && r.value.lowerLeft[k] <= b.lowerLeft[k]
            && (r.value.lowerLeft[k] == a.lowerLeft[k] || r.value.lowerLeft[k] == b.lowerLeft[k])
            && r.value.upperRight[k] >= a.upperRight[k] && r.value.upperRight[k] >= b.upperRight[k]
            && (r.value.upperRight[k] == a.upperRight[k] || r.value.upperRight[k] == b.upperRight[k]))
  {
    if !(Planar(a) && Planar(b)) then Err(CornerTooShort)
    else
      Ok(Bounds([Min(a.lowerLeft[0], b.lowerLeft[0]), Min(a.lowerLeft[1], b.lowerLeft[1])],
                [Max(a.upperRight[0], b.upperRight[0]), Max(a.upperRight[1], b.upperRight[1])]))
  }

  /** The common bounds enclose both inputs, and lie inside every rectangle
      that encloses both: they are the minimal enclosing rectangle. */
  lemma CommonBoundsMinimal(a: Bounds, b: Bounds, e: Bounds)
    requires Planar(a) && Planar(b) && Planar(e)
    ensures Encloses(CommonBounds(a, b).value, a) && Encloses(CommonBounds(a, b).value, b)
    ensures Encloses(e, a) && Encloses(e, b) ==> Encloses(e, CommonBounds(a, b).value)
  {
  }

  lemma CommonBoundsCommutative(a: Bounds, b: Bounds)
    ensures CommonBounds(a, b) == CommonBounds(b, a)
  {
  }

  /** Association either way gives the same rectangle, or both fail. */
  lemma CommonBoundsAssociative(a: Bounds, b: Bounds, c: Bounds)
    ensures (var ab :- CommonBounds(a, b); CommonBounds(ab, c))
         == (var bc :- CommonBounds(b, c); CommonBounds(a, bc))
  {
  }

  /** A rectangle with two-component corners is its own common bounds. */
  lemma CommonBoundsIdempotent(a: Bounds)
    requires |a.lowerLeft| == 2 && |a.upperRight| == 2
    ensures CommonBounds(a, a) == Ok(a)
  {
    assert a.lowerLeft == [a.lowerLeft[0], a.lowerLeft[1]];
    assert a.upperRight == [a.upperRight[0], a.upperRight[1]];
  }

  /** `line.startswith(prefix)`. */
  predicate HasPrefix(line: string, prefix: string) {
    prefix <= line
  }

  /** The corner a `low:` or `high:` line gives: the floats of the
      comma-separated fields after the first `skip` characters. */
  function Corner(num: Numerals, line: string, skip: nat): (r: Result<seq<real>>)
    ensures r.Ok? ==> |r.value| == |Split(Drop(line, skip), ',')|
  {
    ParseFloats(num, Split(Drop(line, skip), ','))
  }

  /** One iteration of `parse_bounds` on a stripped line: a `low:` line
      replaces the lower corner, a `high:` line the upper one, any other
      line changes nothing. */
  function BoundsStep(num: Numerals, acc: Bounds, line: string): (r: Result<Bounds>)
  {
    var acc' :- if HasPrefix(line, "low:") then
                 var low :- Corner(num, line, 5); Ok(acc.(lowerLeft := low))
               else Ok(acc);
    if HasPrefix(line, "high:") then
      var high :- Corner(num, line, 6); Ok(acc'.(upperRight := high))
    else Ok(acc')
  }

  function ScanBounds(num: Numerals, lines: seq<string>, acc: Bounds): Result<Bounds>
    decreases |lines|
  {
    if |lines| == 0 then Ok(acc)
    else
      var acc' :- BoundsStep(num, acc, lines[0]);
      ScanBounds(num, lines[1..], acc')
  }

  const Origin: Bounds := Bounds([0.0, 0.0], [0.0, 0.0])

  /** `parse_bounds`: both corners start at (0, 0). */
  function ParseBounds(num: Numerals, lines: seq<string>): Result<Bounds>
  {
    ScanBounds(num, StripAll(lines), Origin)
  }

  /** The index of the last line of `lines` that starts with `prefix`. */
  function LastWith(lines: seq<string>, prefix: string): (r: Option<nat>)
    ensures r.Some? ==> r.value < |lines| && HasPrefix(lines[r.value], prefix)
    ensures r.Some? ==> forall j :: r.value < j < |lines| ==> !HasPrefix(lines[j], prefix)
    ensures r.None? ==> forall i :: 0 <= i < |lines| ==> !HasPrefix(lines[i], prefix)
  {
    if |lines| == 0 then None
    else if HasPrefix(lines[|lines| - 1], prefix) then Some(|lines| - 1)
    else LastWith(lines[..|lines| - 1], prefix)
  }

  lemma LastWithUnique(lines: seq<string>, prefix: string, k: nat)
    requires k < |lines| && HasPrefix(lines[k], prefix)
    requires forall j :: k < j < |lines| ==> !HasPrefix(lines[j], prefix)
    ensures LastWith(lines, prefix) == Some(k)
  {
  }

  lemma LastWithNone(lines: seq<string>, prefix: string)
    requires forall j :: 0 <= j < |lines| ==> !HasPrefix(lines[j], prefix)
    ensures LastWith(lines, prefix) == None
  {
  }

  /** The last match of a list is the last match of its tail, or else its
      head when that matches. */
  lemma LastWithCons(lines: seq<string>, prefix: string)
    requires |lines| > 0
    ensures LastWith(lines, prefix) ==
      match LastWith(lines[1..], prefix)
      case Some(i) => Some(i + 1)
      case None => if HasPrefix(lines[0], prefix) then Some(0) else None
  {
    var rest := lines[1..];
    assert forall i :: 1 <= i < |lines| ==> lines[i] == rest[i - 1];
    match LastWith(rest, prefix)
    case Some(i) => LastWithUnique(lines, prefix, i + 1);
    case None =>
      if HasPrefix(lines[0], prefix) {
        LastWithUnique(lines, prefix, 0);
      } else {
        LastWithNone(lines, prefix);
      }
  }

  /** A `low:` or `high:` line carries readable floats. */
  predicate ReadableLine(num: Numerals, line: string) {
    && (HasPrefix(line, "low:") ==> Corner(num, line, 5).Ok?)
    && (HasPrefix(line, "high:") ==> Corner(num, line, 6).Ok?)
  }

  /** Every `low:` and `high:` line carries readable floats. */
  predicate CornersReadable(num: Numerals, lines: seq<string>) {
    forall i :: 0 <= i < |lines| ==> ReadableLine(num, lines[i])
  }

  /** The corner the scan ends with: the one given by the last line with
      that prefix, or the starting corner when there is none. */
  function Final(num: Numerals, lines: seq<string>, prefix: string, skip: nat, start: seq<real>): seq<real>
    requires CornersReadable(num, lines)
    requires (prefix == "low:" && skip == 5) || (prefix == "high:" && skip == 6)
  {
    match LastWith(lines, prefix)
    case None => start
    case Some(i) => Corner(num, lines[i], skip).value
  }

  /** One line either fails on an unreadable corner or replaces the corners
      its prefixes name. */
  lemma StepSpec(num: Numerals, acc: Bounds, line: string)
    ensures BoundsStep(num, acc, line).Ok? <==> ReadableLine(num, line)
    ensures BoundsStep(num, acc, line).Ok? ==> BoundsStep(num, acc, line).value == Bounds(
      if HasPrefix(line, "low:") then Corner(num, line, 5).value else acc.lowerLeft,
      if HasPrefix(line, "high:") then Corner(num, line, 6).value else acc.upperRight)
  {
  }

  lemma ReadableCons(num: Numerals, lines: seq<string>)
    requires |lines| > 0
    ensures CornersReadable(num, lines) <==> ReadableLine(num, lines[0]) && CornersReadable(num, lines[1..])
  {
    assert forall i :: 1 <= i < |lines| ==> lines[i] == lines[1..][i - 1];
  }

  lemma FinalCons(num: Numerals, lines: seq<string>, prefix: string, skip: nat, start: seq<real>)
    requires |lines| > 0 && CornersReadable(num, lines)
    requires (prefix == "low:" && skip == 5) || (prefix == "high:" && skip == 6)
    ensures CornersReadable(num, lines[1..])
    ensures Final(num, lines, prefix, skip, start) == Final(num, lines[1..], prefix, skip,
      if HasPrefix(lines[0], prefix) then Corner(num, lines[0], skip).value else start)
  {
    ReadableCons(num, lines);
    LastWithCons(lines, prefix);
    assert forall i :: 1 <= i < |lines| ==> lines[i] == lines[1..][i - 1];
  }

  lemma {:induction false} ScanBoundsLastWins(num: Numerals, lines: seq<string>, acc: Bounds)
    ensures ScanBounds(num, lines, acc).Ok? <==> CornersReadable(num, lines)
    ensures ScanBounds(num, lines, acc).Ok? ==>
      && ScanBounds(num, lines, acc).value.lowerLeft == Final(num, lines, "low:", 5, acc.lowerLeft)
      && ScanBounds(num, lines, acc).value.upperRight == Final(num, lines, "high:", 6, acc.upperRight)
    decreases |lines|
  {
    if |lines| > 0 {
      ReadableCons(num, lines);
      StepSpec(num, acc, lines[0]);
      var step := BoundsStep(num, acc, lines[0]);
      if step.Ok? {
        ScanBoundsLastWins(num, lines[1..], step.value);
        if CornersReadable(num, lines) {
          FinalCons(num, lines, "low:", 5, acc.lowerLeft);
          FinalCons(num, lines, "high:", 6, acc.upperRight);
        }
      }
    } else {
      LastWithNone(lines, "low:");
      LastWithNone(lines, "high:");
    }
  }

  /** `parse_bounds` succeeds exactly when every `low:`/`high:` line holds
      floats; each corner is then the one of its last line, or (0, 0). */
  lemma ParseBoundsLastWins(num: Numerals, lines: seq<string>)
    ensures ParseBounds(num, lines).Ok? <==> CornersReadable(num, StripAll(lines))
    ensures ParseBounds(num, lines).Ok? ==>
      && ParseBounds(num, lines).value.lowerLeft == Final(num, StripAll(lines), "low:", 5, [0.0, 0.0])
      && ParseBounds(num, lines).value.upperRight == Final(num, StripAll(lines), "high:", 6, [0.0, 0.0])
  {
    ScanBoundsLastWins(num, StripAll(lines), Origin);
  }

  /** With no `low:` or `high:` line the result is ((0, 0), (0, 0)). */
  lemma ParseBoundsDefault(num: Numerals, lines: seq<string>)
    requires forall i :: 0 <= i < |lines| ==> !HasPrefix(Strip(lines[i]), "low:") && !HasPrefix(Strip(lines[i]), "high:")
    ensures ParseBounds(num, lines) == Ok(Bounds([0.0, 0.0], [0.0, 0.0]))
  {
    var ts := StripAll(lines);
    ScanBoundsLastWins(num, ts, Origin);
    LastWithNone(ts, "low:");
    LastWithNone(ts, "high:");
  }

  /** A line with neither prefix can be dropped without changing the result. */
  lemma ParseBoundsIgnoresOtherLines(num: Numerals, pre: seq<string>, line: string, post: seq<string>)
    requires !HasPrefix(Strip(line), "low:") && !HasPrefix(Strip(line), "high:")
    ensures ParseBounds(num, pre + [line] + post) == ParseBounds(num, pre + post)
  {
    var x, t, y := StripAll(pre), Strip(line), StripAll(post);
    StripAllConcat(pre + [line], post);
    StripAllConcat(pre, [line]);
    StripAllConcat(pre, post);
    ScanConcat(num, x + [t], y, Origin);
    ScanConcat(num, x, [t], Origin);
    ScanConcat(num, x, y, Origin);
    assert StripAll([line]) == [t];
    match ScanBounds(num, x, Origin)
    case Ok(m) =>
      assert BoundsStep(num, m, t) == Ok(m);
      assert ScanBounds(num, [t], m) == Ok(m) by {
        assert [t][1..] == [];
      }
    case Err(_) =>
  }

  /** Scanning a concatenation scans the first part, then the second from
      where the first left off. */
  lemma {:induction false} ScanConcat(num: Numerals, x: seq<string>, y: seq<string>, acc: Bounds)
    ensures ScanBounds(num, x + y, acc) ==
      match ScanBounds(num, x, acc)
      case Err(e) => Err(e)
      case Ok(m) => ScanBounds(num, y, m)
    decreases |x|
  {
    if |x| == 0 {
      assert x + y == y;
    } else {
      assert (x + y)[0] == x[0];
      assert (x + y)[1..] == x[1..] + y;
      var step := BoundsStep(num, acc, x[0]);
      if step.Ok? {
        ScanConcat(num, x[1..], y, step.value);
      }
    }
  }
}
