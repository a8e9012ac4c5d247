/** The string operations the codec relies on, with Python's meaning:
    `strip()`, `split(sep)`, `sep.join(parts)`, `startswith`, slicing, and the
    whitespace-separated fields a reader of the engine's input format sees.
 */
module Text {

  /** The characters `bytes.strip()` removes: ASCII whitespace. */
  predicate IsSpace(c: char) {
    c == ' ' || c == '\t' || c == '\n' || c == '\r' || c == '\U{000B}' || c == '\U{000C}'
  }

  predicate AllSpace(s: string) {
    forall i :: 0 <= i < |s| ==> IsSpace(s[i])
  }

  /** The number of whitespace characters `s` starts with. */
  function LeadingSpaces(s: string): (k: nat)
    ensures k <= |s|
    ensures forall i :: 0 <= i < k ==> IsSpace(s[i])
    ensures k < |s| ==> !IsSpace(s[k])
  {
    if |s| > 0 && IsSpace(s[0]) then 1 + LeadingSpaces(s[1..]) else 0
  }

  /** The length of `s` without its trailing whitespace. */
  function TrailingEnd(s: string): (k: nat)
    ensures k <= |s|
    ensures forall i :: k <= i < |s| ==> IsSpace(s[i])
    ensures k > 0 ==> !IsSpace(s[k - 1])
  {
    if |s| > 0 && IsSpace(s[|s| - 1]) then TrailingEnd(s[..|s| - 1]) else |s|
  }

  /** `s.strip()`: the result is blank exactly when `s` is all whitespace,
      and otherwise neither starts nor ends with whitespace. */
  function Strip(s: string): (r: string)
    ensures |r| == 0 <==> AllSpace(s)
    ensures |r| > 0 ==> !IsSpace(r[0]) && !IsSpace(r[|r| - 1])
    ensures |r| <= |s|
  {
    var a := LeadingSpaces(s);
    if a == |s| then [] else s[a..TrailingEnd(s)]
  }

  /** A string that `strip()` leaves alone. */
  lemma StripTight(s: string)
    requires |s| == 0 || (!IsSpace(s[0]) && !IsSpace(s[|s| - 1]))
    ensures Strip(s) == s
  {
    if |s| > 0 {
      assert LeadingSpaces(s) == 0;
      assert TrailingEnd(s) == |s|;
    }
  }

  /** `s[k:]` with Python's forgiving bounds. */
  function Drop(s: string, k: nat): (r: string)
    ensures |s| >= k ==> |r| == |s| - k && s == s[..k] + r
    ensures |s| < k ==> |r| == 0
  {
    if |s| >= k then s[k..] else []
  }

  /** `s[1:-1]` with Python's forgiving bounds. */
  function Inner(s: string): (r: string)
    ensures |s| >= 2 ==> s == [s[0]] + r + [s[|s| - 1]]
    ensures |s| < 2 ==> |r| == 0
  {
    if |s| >= 2 then s[1..|s| - 1] else []
  }

  /** `s.split(sep)` for a one-character separator. */
  function Split(s: string, sep: char): (r: seq<string>)
    ensures |r| >= 1
    ensures forall i :: 0 <= i < |r| ==> sep !in r[i]
    decreases |s|
  {
    if |s| == 0 then [""]
    else if s[0] == sep then [""] + Split(s[1..], sep)
    else
      var rest := Split(s[1..], sep);
      [[s[0]] + rest[0]] + rest[1..]
  }

  /** `sep.join(parts)`. */
  function Join(parts: seq<string>, sep: string): string
  {
    if |parts| == 0 then ""
    else if |parts| == 1 then parts[0]
    else parts[0] + sep + Join(parts[1..], sep)
  }

  lemma {:induction false} JoinSplit(s: string, sep: char)
    ensures Join(Split(s, sep), [sep]) == s
    decreases |s|
  {
    if |s| == 0 {
    } else if s[0] == sep {
      JoinSplit(s[1..], sep);
      assert s == [sep] + s[1..];
    } else {
      var rest := Split(s[1..], sep);
      JoinSplit(s[1..], sep);
      if |rest| == 1 {
        assert s == [s[0]] + s[1..];
      } else {
        assert Join(rest, [sep]) == rest[0] + [sep] + Join(rest[1..], [sep]);
        assert s == [s[0]] + s[1..];
      }
    }
  }

  lemma {:induction false} SplitWithout(s: string, sep: char)
    requires sep !in s
    ensures Split(s, sep) == [s]
    decreases |s|
  {
    if |s| > 0 {
      SplitWithout(s[1..], sep);
      assert s == [s[0]] + s[1..];
    }
  }

  /** A separator ends the first piece; the rest splits on its own. */
  lemma {:induction false} SplitAfter(a: string, sep: char, rest: string)
    requires sep !in a
    ensures Split(a + [sep] + rest, sep) == [a] + Split(rest, sep)
    decreases |a|
  {
    if |a| == 0 {
      assert a + [sep] + rest == [sep] + rest;
      assert ([sep] + rest)[1..] == rest;
    } else {
      SplitAfter(a[1..], sep, rest);
      assert (a + [sep] + rest)[1..] == a[1..] + [sep] + rest;
      assert [a[0]] + a[1..] == a;
    }
  }

  /** Splitting a join recovers the parts when none holds the separator. */
  lemma {:induction false} SplitJoin(parts: seq<string>, sep: char)
    requires |parts| >= 1
    requires forall i :: 0 <= i < |parts| ==> sep !in parts[i]
    ensures Split(Join(parts, [sep]), sep) == parts
    decreases |parts|
  {
    if |parts| == 1 {
      SplitWithout(parts[0], sep);
    } else {
      SplitJoin(parts[1..], sep);
      SplitAfter(parts[0], sep, Join(parts[1..], [sep]));
      assert [parts[0]] + parts[1..] == parts;
    }
  }

  /** A text that does not start with the separator starts its first piece. */
  lemma SplitHead(s: string, sep: char)
    requires |s| > 0 && s[0] != sep
    ensures |Split(s, sep)[0]| > 0 && Split(s, sep)[0][0] == s[0]
  {
  }

  /** A text splits into one more piece than it has separators. */
  lemma {:induction false} SplitCount(s: string, sep: char)
    ensures |Split(s, sep)| == multiset(s)[sep] + 1
    decreases |s|
  {
    if |s| > 0 {
      SplitCount(s[1..], sep);
      assert s == [s[0]] + s[1..];
      assert multiset(s) == multiset([s[0]]) + multiset(s[1..]);
    }
  }

  /** A character in neither the parts nor the separator is not in the join. */
  lemma {:induction false} JoinWithout(parts: seq<string>, sep: string, c: char)
    requires forall i :: 0 <= i < |parts| ==> c !in parts[i]
    requires c !in sep
    ensures c !in Join(parts, sep)
    decreases |parts|
  {
    if |parts| > 1 {
      JoinWithout(parts[1..], sep, c);
    }
  }

  /** A join ends where its last part ends. */
  lemma {:induction false} JoinEnds(parts: seq<string>, sep: string)
    requires |parts| >= 1 && |parts[|parts| - 1]| > 0
    ensures |Join(parts, sep)| > 0
    ensures Join(parts, sep)[|Join(parts, sep)| - 1] == parts[|parts| - 1][|parts[|parts| - 1]| - 1]
    decreases |parts|
  {
    if |parts| > 1 {
      JoinEnds(parts[1..], sep);
    }
  }

  /** One blank before a tight text is all that `strip()` removes. */
  lemma StripSpaced(t: string)
    requires |t| > 0 && !IsSpace(t[0]) && !IsSpace(t[|t| - 1])
    ensures Strip(" " + t) == t
  {
    var s := " " + t;
    assert LeadingSpaces(s[1..]) == 0 by { assert s[1..] == t; }
    assert LeadingSpaces(s) == 1;
    assert TrailingEnd(s) == |s|;
    assert s[1..|s|] == t;
  }

  /** Each line stripped. */
  function StripAll(lines: seq<string>): (ts: seq<string>)
    ensures |ts| == |lines|
    ensures forall i :: 0 <= i < |lines| ==> ts[i] == Strip(lines[i])
  {
    if |lines| == 0 then [] else [Strip(lines[0])] + StripAll(lines[1..])
  }

  /** The middle part of a three-part concatenation, recovered by slicing. */
  lemma Middle<T>(a: seq<T>, b: seq<T>, c: seq<T>)
    ensures (a + b + c)[|a|..|a| + |b|] == b
  {
  }

  lemma StripAllConcat(x: seq<string>, y: seq<string>)
    ensures StripAll(x + y) == StripAll(x) + StripAll(y)
  {
    assert forall i :: |x| <= i < |x| + |y| ==> (x + y)[i] == y[i - |x|];
  }

  /** A token of the engine's input format: non-empty, no blank inside. */
  predicate IsToken(t: string) {
    |t| > 0 && ' ' !in t
  }

  predicate AllTokens(ts: seq<string>) {
    forall i :: 0 <= i < |ts| ==> IsToken(ts[i])
  }

  predicate Blanks(s: string) {
    |s| > 0 && forall i :: 0 <= i < |s| ==> s[i] == ' '
  }

  /** The longest blank-free prefix of `s`. */
  function Word(s: string): (w: string)
    ensures w <= s && ' ' !in w
    ensures |w| < |s| ==> s[|w|] == ' '
  {
    if |s| == 0 || s[0] == ' ' then "" else [s[0]] + Word(s[1..])
  }

  /** The blank-separated fields of a line, as a reader of the engine's
      input format sees them: runs of blanks separate, empty fields vanish. */
  function Fields(s: string): (r: seq<string>)
    ensures AllTokens(r)
    decreases |s|
  {
    if |s| == 0 then []
    else if s[0] == ' ' then Fields(s[1..])
    else
      var w := Word(s);
      [w] + Fields(s[|w|..])
  }

  /** Each token followed by `sep`: the shape of a loop that writes
      `token` then `sep` once per element. */
  function Terminated(ts: seq<string>, sep: string): string
  {
    if |ts| == 0 then "" else ts[0] + sep + Terminated(ts[1..], sep)
  }

  lemma {:induction false} TerminatedAppend(a: seq<string>, b: seq<string>, sep: string)
    ensures Terminated(a + b, sep) == Terminated(a, sep) + Terminated(b, sep)
  {
    if |a| > 0 {
      TerminatedAppend(a[1..], b, sep);
      assert (a + b)[0] == a[0];
      assert (a + b)[1..] == a[1..] + b;
    } else {
      assert a + b == b;
    }
  }

  lemma {:induction false} WordOfToken(t: string, rest: string)
    requires ' ' !in t
    requires |rest| == 0 || rest[0] == ' '
    ensures Word(t + rest) == t
    decreases |t|
  {
    if |t| > 0 {
      WordOfToken(t[1..], rest);
      assert (t + rest)[1..] == t[1..] + rest;
    }
  }

  lemma {:induction false} FieldsSkipBlanks(b: string, rest: string)
    requires forall i :: 0 <= i < |b| ==> b[i] == ' '
    ensures Fields(b + rest) == Fields(rest)
    decreases |b|
  {
    if |b| > 0 {
      FieldsSkipBlanks(b[1..], rest);
      assert (b + rest)[0] == ' ';
      assert (b + rest)[1..] == b[1..] + rest;
    } else {
      assert b + rest == rest;
    }
  }

  lemma FieldsCons(t: string, sep: string, rest: string)
    requires IsToken(t) && Blanks(sep)
    ensures Fields(t + sep + rest) == [t] + Fields(rest)
  {
    var s := t + sep + rest;
    assert s == t + (sep + rest);
    WordOfToken(t, sep + rest);
    assert s[|t|..] == sep + rest;
    FieldsSkipBlanks(sep, rest);
  }

  /** Writing tokens each followed by blanks is undone by `Fields`. */
  lemma {:induction false} FieldsTerminated(ts: seq<string>, sep: string)
    requires AllTokens(ts) && Blanks(sep)
    ensures Fields(Terminated(ts, sep)) == ts
  {
    if |ts| > 0 {
      FieldsTerminated(ts[1..], sep);
      FieldsCons(ts[0], sep, Terminated(ts[1..], sep));
      assert Terminated(ts, sep) == ts[0] + sep + Terminated(ts[1..], sep);
    }
  }

  /** The tokens, each followed by a blank, joined with one more blank
      between neighbours. */
  function JoinSpaced(ts: seq<string>): string
  {
    Join(Suffixed(ts, " "), " ")
  }

  function Suffixed(ts: seq<string>, suffix: string): (r: seq<string>)
    ensures |r| == |ts|
    ensures forall i :: 0 <= i < |ts| ==> r[i] == ts[i] + suffix
  {
    if |ts| == 0 then [] else [ts[0] + suffix] + Suffixed(ts[1..], suffix)
  }

  lemma {:induction false} FieldsJoinSpaced(ts: seq<string>)
    requires AllTokens(ts)
    ensures Fields(JoinSpaced(ts)) == ts
  {
    if |ts| == 1 {
      assert JoinSpaced(ts) == ts[0] + " " + "";
      FieldsCons(ts[0], " ", "");
    } else if |ts| > 1 {
      FieldsJoinSpaced(ts[1..]);
      var s := Suffixed(ts, " ");
      assert s[1..] == Suffixed(ts[1..], " ");
      assert JoinSpaced(ts) == ts[0] + "  " + JoinSpaced(ts[1..]);
      FieldsCons(ts[0], "  ", JoinSpaced(ts[1..]));
    }
  }

  /** Each line of `lines` with `prefix` prepended. */
  function Prefixed(prefix: string, lines: seq<string>): (r: seq<string>)
    ensures |r| == |lines|
    ensures forall i :: 0 <= i < |lines| ==> r[i] == prefix + lines[i]
  {
    if |lines| == 0 then [] else [prefix + lines[0]] + Prefixed(prefix, lines[1..])
  }

  /** Each string with its first `k` characters removed. */
  function DropEach(lines: seq<string>, k: nat): (r: seq<string>)
    ensures |r| == |lines|
    ensures forall i :: 0 <= i < |lines| ==> r[i] == Drop(lines[i], k)
  {
    if |lines| == 0 then [] else [Drop(lines[0], k)] + DropEach(lines[1..], k)
  }

  lemma DropPrefixed(prefix: string, lines: seq<string>)
    ensures DropEach(Prefixed(prefix, lines), |prefix|) == lines
  {
    var r := DropEach(Prefixed(prefix, lines), |prefix|);
    forall i | 0 <= i < |lines| ensures r[i] == lines[i] {
      assert (prefix + lines[i])[|prefix|..] == lines[i];
    }
  }
}
