/** The reader of the engine's barcode output: one line per slice, of the
    form `angle offset: birth death mK, birth death mK, ...`, where `K` is
    the bar's multiplicity.
 */
module Slices {
  import opened Results
  import opened Text
  import opened Decimal
  import opened Numerals

  /** A bar of a barcode: an interval with its multiplicity. */
  datatype Bar = Bar(birth: real, death: real, multiplicity: int)

  /** A slice of the parameter plane, keyed by its angle and offset, with
      the barcode read along it. */
  datatype Slice = Slice(angle: real, offset: real, bars: seq<Bar>)

  /** The pieces that survive `strip()` and the emptiness test, stripped,
      in their original order. */
  function Kept(ps: seq<string>): (ks: seq<string>)
    ensures |ks| <= |ps|
    ensures forall k :: 0 <= k < |ks| ==> |ks[k]| > 0
  {
    if |ps| == 0 then []
    else if |Strip(ps[0])| == 0 then Kept(ps[1..])
    else [Strip(ps[0])] + Kept(ps[1..])
  }

  /** One stripped bar token: exactly three blank-separated words, the
      birth and death as floats and the multiplicity as the integer after
      the third word's first character. */
  function ParseBar(num: Numerals, part: string): Result<Bar>
  {
    var ws := Split(part, ' ');
    if |ws| != 3 then Err(Unpack(3, |ws|))
    else
      var birth :- Need(num.parseFloat(ws[0]), BadFloat(ws[0]));
      var death :- Need(num.parseFloat(ws[1]), BadFloat(ws[1]));
      var mult :- Need(ParseInt(Drop(ws[2], 1)), BadInt(Drop(ws[2], 1)));
      Ok(Bar(birth, death, mult))
  }

  /** A bar token without exactly two blanks fails to unpack into three words. */
  lemma BarBlanks(num: Numerals, part: string)
    requires multiset(part)[' '] != 2
    ensures ParseBar(num, part) == Err(Unpack(3, multiset(part)[' '] + 1))
  {
    SplitCount(part, ' ');
    assert |Split(part, ' ')| != 3;
  }

  /** A bar read from a token has the floats of its first two words and, as
      multiplicity, the integer after the third word's first character. */
  lemma BarWordsRead(num: Numerals, part: string)
    requires ParseBar(num, part).Ok?
    ensures |Split(part, ' ')| == 3
    ensures num.parseFloat(Split(part, ' ')[0]) == Some(ParseBar(num, part).value.birth)
    ensures num.parseFloat(Split(part, ' ')[1]) == Some(ParseBar(num, part).value.death)
    ensures ParseInt(Drop(Split(part, ' ')[2], 1)) == Some(ParseBar(num, part).value.multiplicity)
  {
  }

  /** The loop both levels of the reader share: each piece is stripped
      and skipped when empty, otherwise read with `read`. The first failure
      is the result; otherwise there is one value per kept piece, in order. */
  function Each<T>(read: string -> Result<T>, ps: seq<string>): (r: Result<seq<T>>)
    ensures r.Ok? <==> forall k :: 0 <= k < |Kept(ps)| ==> read(Kept(ps)[k]).Ok?
    ensures r.Ok? ==> |r.value| == |Kept(ps)|
    ensures r.Ok? ==> forall k :: 0 <= k < |r.value| ==> read(Kept(ps)[k]) == Ok(r.value[k])
  {
    if |ps| == 0 then Ok([])
    else
      var t := Strip(ps[0]);
      if |t| == 0 then
        assert Kept(ps) == Kept(ps[1..]);
        Each(read, ps[1..])
      else
        assert Kept(ps) == [t] + Kept(ps[1..]);
        assert Kept(ps)[0] == t;
        assert forall k :: 0 <= k < |Kept(ps[1..])| ==> Kept(ps)[k + 1] == Kept(ps[1..])[k];
        var x :- read(t);
        var rest :- Each(read, ps[1..]);
        Ok([x] + rest)
  }

  function BarReader(num: Numerals): string -> Result<Bar> {
    part => ParseBar(num, part)
  }

  /** The bars of a slice body: one per non-empty comma-separated part. */
  function ParseBars(num: Numerals, body: string): Result<seq<Bar>> {
    Each(BarReader(num), Split(body, ','))
  }

  /** The bar count is the number of non-empty comma-separated parts, and
      each bar is read from its part. */
  lemma BarsPerPart(num: Numerals, body: string)
    ensures ParseBars(num, body).Ok? ==> |ParseBars(num, body).value| == |Kept(Split(body, ','))|
    ensures ParseBars(num, body).Ok? ==>
      forall k :: 0 <= k < |Kept(Split(body, ','))| ==>
        ParseBar(num, Kept(Split(body, ','))[k]) == Ok(ParseBars(num, body).value[k])
  {
    var ks := Kept(Split(body, ','));
    var read := BarReader(num);
    assert ParseBars(num, body) == Each(read, Split(body, ','));
    forall k | 0 <= k < |ks| ensures read(ks[k]) == ParseBar(num, ks[k]) {
    }
  }

  /** One stripped, non-empty line: a header and a body around its colon,
      the header an angle and an offset around its blank. The bars are read
      before the angle and the offset. */
  function ParseSlice(num: Numerals, t: string): Result<Slice>
  {
    var hb := Split(t, ':');
    if |hb| != 2 then Err(Unpack(2, |hb|))
    else
      var ao := Split(hb[0], ' ');
      if |ao| != 2 then Err(Unpack(2, |ao|))
      else
        var bars :- ParseBars(num, hb[1]);
        var angle :- Need(num.parseFloat(ao[0]), BadFloat(ao[0]));
        var offset :- Need(num.parseFloat(ao[1]), BadFloat(ao[1]));
        Ok(Slice(angle, offset, bars))
  }

  /** A line without exactly one colon fails to unpack into header and body. */
  lemma SliceColons(num: Numerals, t: string)
    requires multiset(t)[':'] != 1
    ensures ParseSlice(num, t) == Err(Unpack(2, multiset(t)[':'] + 1))
  {
    SplitCount(t, ':');
    assert |Split(t, ':')| != 2;
  }

  /** A header without exactly one blank fails to unpack into angle and
      offset. */
  lemma SliceHeaderBlanks(num: Numerals, t: string, h: string, body: string)
    requires t == h + ":" + body && ':' !in h && ':' !in body
    requires multiset(h)[' '] != 1
    ensures ParseSlice(num, t) == Err(Unpack(2, multiset(h)[' '] + 1))
  {
    assert t == h + [':'] + body;
    SplitAfter(h, ':', body);
    SplitWithout(body, ':');
    SplitCount(h, ' ');
    assert |Split(h, ' ')| != 2;
  }

  /** A slice read from a line takes its bars from the body and its key
      from the two header words. */
  lemma SliceParts(num: Numerals, t: string)
    requires ParseSlice(num, t).Ok?
    ensures
      var hb := Split(t, ':');
      var r := ParseSlice(num, t).value;
      && |hb| == 2
      && |Split(hb[0], ' ')| == 2
      && ParseBars(num, hb[1]) == Ok(r.bars)
      && num.parseFloat(Split(hb[0], ' ')[0]) == Some(r.angle)
      && num.parseFloat(Split(hb[0], ' ')[1]) == Some(r.offset)
  {
  }

  function SliceReader(num: Numerals): string -> Result<Slice> {
    line => ParseSlice(num, line)
  }

  /** `_parse_slices`. */
  function ParseSlices(num: Numerals, lines: seq<string>): Result<seq<Slice>> {
    Each(SliceReader(num), lines)
  }

  /** One slice per non-blank line, in the order of the lines. */
  lemma SlicePerLine(num: Numerals, lines: seq<string>)
    ensures ParseSlices(num, lines).Ok? ==> |ParseSlices(num, lines).value| == |Kept(lines)|
    ensures ParseSlices(num, lines).Ok? ==>
      forall k :: 0 <= k < |Kept(lines)| ==> ParseSlice(num, Kept(lines)[k]) == Ok(ParseSlices(num, lines).value[k])
  {
    var ks := Kept(lines);
    var read := SliceReader(num);
    assert ParseSlices(num, lines) == Each(read, lines);
    forall k | 0 <= k < |ks| ensures read(ks[k]) == ParseSlice(num, ks[k]) {
    }
  }

  /** A character a rendered float may hold: no whitespace and neither of
      the reader's separators. */
  predicate Inert(c: char) {
    !IsSpace(c) && c != ':' && c != ','
  }

  /** `'{:f}'` renders floats the reader can take apart again. */
  ghost predicate Separable(num: Numerals) {
    && Formats(num)
    && forall x: real, i :: 0 <= i < |num.fmt(x)| ==> Inert(num.fmt(x)[i])
  }

  lemma FmtInert(num: Numerals, x: real)
    requires Separable(num)
    ensures IsToken(num.fmt(x)) && ':' !in num.fmt(x) && ',' !in num.fmt(x)
    ensures !IsSpace(num.fmt(x)[0]) && !IsSpace(num.fmt(x)[|num.fmt(x)| - 1])
  {
    var t := num.fmt(x);
    assert |t| > 0;
    assert forall i :: 0 <= i < |t| ==> Inert(t[i]);
  }

  /** A bar as the engine writes it: `birth death mK`. */
  function BarText(num: Numerals, b: Bar): string {
    num.fmt(b.birth) + " " + num.fmt(b.death) + " m" + IntToString(b.multiplicity)
  }

  /** The comma-separated parts of a slice body, each after one blank. */
  function BarParts(num: Numerals, bars: seq<Bar>): (ps: seq<string>)
    ensures |ps| == |bars|
    ensures forall k :: 0 <= k < |bars| ==> ps[k] == " " + BarText(num, bars[k])
  {
    if |bars| == 0 then [] else [" " + BarText(num, bars[0])] + BarParts(num, bars[1..])
  }

  /** A slice line: `angle offset: bar, bar, ...`. */
  function SliceText(num: Numerals, s: Slice): string {
    num.fmt(s.angle) + " " + num.fmt(s.offset) + ":" + Join(BarParts(num, s.bars), ",")
  }

  function SliceLines(num: Numerals, ss: seq<Slice>): (ls: seq<string>)
    ensures |ls| == |ss|
    ensures forall k :: 0 <= k < |ss| ==> ls[k] == SliceText(num, ss[k])
  {
    if |ss| == 0 then [] else [SliceText(num, ss[0])] + SliceLines(num, ss[1..])
  }

  /** A bar with its end points to formatting precision. */
  function RoundBar(num: Numerals, b: Bar): Bar
    requires Reads(num)
  {
    Bar(Round(num, b.birth), Round(num, b.death), b.multiplicity)
  }

  function RoundBars(num: Numerals, bars: seq<Bar>): seq<Bar>
    requires Reads(num)
  {
    seq(|bars|, k requires 0 <= k < |bars| => RoundBar(num, bars[k]))
  }

  /** A slice with its key and bars to formatting precision. */
  function RoundSlice(num: Numerals, s: Slice): Slice
    requires Reads(num)
  {
    Slice(Round(num, s.angle), Round(num, s.offset), RoundBars(num, s.bars))
  }

  /** Reading the pieces recovers each non-blank one, stripped. */
  lemma {:induction false} KeptAll(ps: seq<string>, ts: seq<string>)
    requires |ps| == |ts|
    requires forall k :: 0 <= k < |ps| ==> Strip(ps[k]) == ts[k] && |ts[k]| > 0
    ensures Kept(ps) == ts
  {
    if |ps| > 0 {
      KeptAll(ps[1..], ts[1..]);
      assert [ts[0]] + ts[1..] == ts;
    }
  }

  /** A bar token is read back as the bar, to formatting precision. */
  lemma BarRead(num: Numerals, b: Bar)
    requires Separable(num) && Reads(num)
    ensures ParseBar(num, BarText(num, b)) == Ok(RoundBar(num, b))
  {
    var m := IntToString(b.multiplicity);
    FmtInert(num, b.birth);
    FmtInert(num, b.death);
    IntToStringRoundTrip(b.multiplicity);
    BarWords(num, b, num.fmt(b.birth), num.fmt(b.death), m);
  }

  lemma BarWords(num: Numerals, b: Bar, x: string, y: string, m: string)
    requires Reads(num) && x == num.fmt(b.birth) && y == num.fmt(b.death)
    requires ' ' !in x && ' ' !in y && ' ' !in m
    requires ParseInt(m) == Some(b.multiplicity)
    ensures ParseBar(num, x + " " + y + " m" + m) == Ok(RoundBar(num, b))
  {
    var w := "m" + m;
    assert x + " " + y + " m" + m == x + [' '] + (y + [' '] + w);
    ThreeWords(x, y, w);
    assert Drop(w, 1) == m;
    BarOfWords(num, x + " " + y + " m" + m, x, y, w, Round(num, b.birth), Round(num, b.death), b.multiplicity);
  }

  /** A token of three words whose parts read as two floats and an integer
      is that bar. */
  lemma BarOfWords(num: Numerals, t: string, x: string, y: string, w: string, birth: real, death: real, m: int)
    requires Split(t, ' ') == [x, y, w]
    requires num.parseFloat(x) == Some(birth) && num.parseFloat(y) == Some(death)
    requires ParseInt(Drop(w, 1)) == Some(m)
    ensures ParseBar(num, t) == Ok(Bar(birth, death, m))
  {
  }

  lemma ThreeWords(x: string, y: string, w: string)
    requires ' ' !in x && ' ' !in y && ' ' !in w
    ensures Split(x + [' '] + (y + [' '] + w), ' ') == [x, y, w]
  {
    SplitAfter(x, ' ', y + [' '] + w);
    SplitAfter(y, ' ', w);
    SplitWithout(w, ' ');
  }

  /** What a bar token holds besides the rendered floats. */
  lemma BarTextInert(num: Numerals, b: Bar)
    requires Separable(num)
    ensures ':' !in BarText(num, b) && ',' !in BarText(num, b)
    ensures !IsSpace(BarText(num, b)[0]) && !IsSpace(BarText(num, b)[|BarText(num, b)| - 1])
  {
    FmtInert(num, b.birth);
    FmtInert(num, b.death);
    var m := IntToString(b.multiplicity);
    assert ':' !in m && ',' !in m by {
      forall i | 0 <= i < |m| ensures m[i] != ':' && m[i] != ',' {
        assert m[i] == '-' || IsDigit(m[i]);
      }
    }
  }

  /** A written slice body is read back as its bars, to formatting precision. */
  lemma BarsRead(num: Numerals, bars: seq<Bar>)
    requires Separable(num) && Reads(num)
    ensures ParseBars(num, Join(BarParts(num, bars), ",")) == Ok(RoundBars(num, bars))
  {
    var ps := BarParts(num, bars);
    var want := RoundBars(num, bars);
    if |bars| == 0 {
      assert Join(ps, ",") == "";
      assert Split("", ',') == [""];
      assert Kept([""]) == [];
    } else {
      var ts := seq(|bars|, k requires 0 <= k < |bars| => BarText(num, bars[k]));
      forall k | 0 <= k < |ps|
        ensures ',' !in ps[k] && Strip(ps[k]) == ts[k] && |ts[k]| > 0
        ensures ParseBar(num, ts[k]) == Ok(want[k])
      {
        BarTextInert(num, bars[k]);
        StripSpaced(ts[k]);
        BarRead(num, bars[k]);
      }
      SplitJoin(ps, ',');
      KeptAll(ps, ts);
      BarsFrom(num, ps, ts, want);
    }
  }

  lemma BarsFrom(num: Numerals, ps: seq<string>, ts: seq<string>, want: seq<Bar>)
    requires Kept(ps) == ts && |ts| == |want|
    requires forall k :: 0 <= k < |ts| ==> ParseBar(num, ts[k]) == Ok(want[k])
    ensures Each(BarReader(num), ps) == Ok(want)
  {
    forall k | 0 <= k < |ts| ensures BarReader(num)(ts[k]) == Ok(want[k]) {
    }
    var r := Each(BarReader(num), ps);
    assert r.Ok?;
    assert r.value == want;
  }

  /** A written slice line is read back as the slice, to formatting precision. */
  lemma SliceRead(num: Numerals, s: Slice)
    requires Separable(num) && Reads(num)
    ensures ParseSlice(num, SliceText(num, s)) == Ok(RoundSlice(num, s))
  {
    FmtInert(num, s.angle);
    FmtInert(num, s.offset);
    BodyInert(num, s.bars);
    BarsRead(num, s.bars);
    SliceWords(num, s, num.fmt(s.angle), num.fmt(s.offset), Join(BarParts(num, s.bars), ","));
  }

  lemma SliceWords(num: Numerals, s: Slice, x: string, y: string, body: string)
    requires Reads(num) && x == num.fmt(s.angle) && y == num.fmt(s.offset)
    requires ' ' !in x && ' ' !in y && ':' !in x && ':' !in y && ':' !in body
    requires ParseBars(num, body) == Ok(RoundBars(num, s.bars))
    ensures ParseSlice(num, x + " " + y + ":" + body) == Ok(RoundSlice(num, s))
  {
    var h := x + [' '] + y;
    assert x + " " + y + ":" + body == h + [':'] + body;
    SplitAfter(h, ':', body);
    SplitWithout(body, ':');
    SplitAfter(x, ' ', y);
    SplitWithout(y, ' ');
  }

  lemma BodyInert(num: Numerals, bars: seq<Bar>)
    requires Separable(num)
    ensures ':' !in Join(BarParts(num, bars), ",")
  {
    forall k | 0 <= k < |bars| ensures ':' !in " " + BarText(num, bars[k]) {
      BarTextInert(num, bars[k]);
    }
    JoinWithout(BarParts(num, bars), ",", ':');
  }

  /** The ends of a written slice line: `strip()` leaves it alone. */
  lemma SliceTextTight(num: Numerals, s: Slice)
    requires Separable(num)
    ensures Strip(SliceText(num, s)) == SliceText(num, s) && |SliceText(num, s)| > 0
  {
    var t := SliceText(num, s);
    FmtInert(num, s.angle);
    var ps := BarParts(num, s.bars);
    if |ps| > 0 {
      var b := s.bars[|ps| - 1];
      BarTextInert(num, b);
      JoinEnds(ps, ",");
      assert ps[|ps| - 1] == " " + BarText(num, b);
    }
    StripTight(t);
  }

  /** `_parse_slices` reads back written slices in order, each to
      formatting precision. */
  lemma SlicesRoundTrip(num: Numerals, ss: seq<Slice>)
    requires Separable(num) && Reads(num)
    ensures ParseSlices(num, SliceLines(num, ss)) ==
      Ok(seq(|ss|, k requires 0 <= k < |ss| => RoundSlice(num, ss[k])))
  {
    var ls := SliceLines(num, ss);
    var want := seq(|ss|, k requires 0 <= k < |ss| => RoundSlice(num, ss[k]));
    forall k | 0 <= k < |ls|
      ensures Strip(ls[k]) == ls[k] && |ls[k]| > 0
      ensures SliceReader(num)(ls[k]) == Ok(want[k])
    {
      SliceTextTight(num, ss[k]);
      SliceRead(num, ss[k]);
    }
    KeptAll(ls, ls);
    var r := Each(SliceReader(num), ls);
    assert r.Ok?;
    assert r.value == want;
  }
}
