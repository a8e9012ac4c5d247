/** The float conversions the codec borrows from Python's runtime:
    `'{:f}'.format(x)` and `float(token)`.

    Their exact decimal behaviour is library code and is not modelled; a
    `Numerals` value supplies them, and the properties proved about the
    codec hold for every supply that meets the stated assumptions.
 */
module Numerals {
  import opened Results
  import opened Text

  datatype Numerals = Numerals(fmt: real -> string, parseFloat: string -> Option<real>)

  /** `'{:f}'` never renders an empty or blank-containing text. */
  ghost predicate Formats(num: Numerals) {
    forall x :: |num.fmt(x)| > 0 && ' ' !in num.fmt(x)
  }

  /** `float` accepts every text that `'{:f}'` renders. */
  ghost predicate Reads(num: Numerals) {
    forall x :: num.parseFloat(num.fmt(x)).Some?
  }

  /** The value read back from a rendered float: `x` to formatting precision. */
  function Round(num: Numerals, x: real): real
    requires Reads(num)
  {
    num.parseFloat(num.fmt(x)).value
  }

  /** The rendered tokens of a sequence of floats, in order. */
  function Render(num: Numerals, xs: seq<real>): (ts: seq<string>)
    ensures |ts| == |xs|
    ensures forall i :: 0 <= i < |xs| ==> ts[i] == num.fmt(xs[i])
  {
    if |xs| == 0 then [] else [num.fmt(xs[0])] + Render(num, xs[1..])
  }

  lemma FmtToken(num: Numerals, x: real)
    requires Formats(num)
    ensures IsToken(num.fmt(x))
  {
  }

  lemma RenderTokens(num: Numerals, xs: seq<real>)
    requires Formats(num)
    ensures AllTokens(Render(num, xs))
  {
    var ts := Render(num, xs);
    forall i | 0 <= i < |ts| ensures IsToken(ts[i]) {
      var x := xs[i];
      assert |num.fmt(x)| > 0 && ' ' !in num.fmt(x);
      assert ts[i] == num.fmt(x);
    }
  }

  /** `float` applied to each token: fails on the first it rejects. */
  function ParseFloats(num: Numerals, ts: seq<string>): (r: Result<seq<real>>)
    ensures r.Ok? ==> |r.value| == |ts|
    ensures r.Ok? <==> forall i :: 0 <= i < |ts| ==> num.parseFloat(ts[i]).Some?
    ensures r.Ok? ==> forall i :: 0 <= i < |ts| ==> r.value[i] == num.parseFloat(ts[i]).value
  {
    if |ts| == 0 then Ok([])
    else
      var x :- Need(num.parseFloat(ts[0]), BadFloat(ts[0]));
      var rest :- ParseFloats(num, ts[1..]);
      Ok([x] + rest)
  }
}
