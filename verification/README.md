# rivet-python codec, modelled in Dafny

This project models the text codec of `pyrivet/rivet.py`: the part of the
Python interface to the RIVET engine that writes the engine's input files
and reads its textual output. The process calls, temporary directories and
file handles around the codec are not modelled. The codec covers:

- the input structures and the validation their constructors perform:
  `Point`, `points`, `PointCloud` (with its crude scale bound
  `_calc_max_dist`), `Bifiltration` and `MetricSpace`;
- the three `save` methods, which write those structures as lines of the
  engine's input format;
- `Bounds.common_bounds` and the `--bounds` output reader `parse_bounds`;
- `Dimensions`, `MultiBetti` and the `--betti` output reader
  `_parse_betti`;
- the `--barcodes` output reader `_parse_slices`.

Modules, one file each:

| module | file | contents |
|---|---|---|
| `Results` | results.dfy | `Option`, `Result` and the `Error` kinds that stand for the exceptions the source raises; `MapRead` |
| `Text` | text.dfy | Python's `strip`, `split`, `join`, slicing and `startswith`, and the blank-separated fields a line holds; `strip` removes the six ASCII whitespace characters that `bytes.strip()` removes |
| `Numerals` | numerals.dfy | the float conversions `'{:f}'.format` and `float`, as a parameter |
| `Decimal` | decimal.dfy | `str(n)`, `int(s)` and `Fraction(s)` on ASCII digits |
| `Geometry` | geometry.dfy | points, point clouds, bifiltrations and metric spaces, and their constructors |
| `Encoders` | encoders.dfy | the three `save` methods |
| `Rectangles` | rectangles.dfy | `Bounds`, `common_bounds` and `parse_bounds` |
| `Betti` | betti.dfy | `Dimensions`, `MultiBetti` and `_parse_betti` |
| `Slices` | slices.dfy | bars, slices and `_parse_slices` |

Every exception the source can raise on these paths becomes an `Err`
value. The operations are pure functions; the saves return the written
lines. An entry of the returned list is the text the source writes between
two of the newlines it writes itself; the newline is not part of it. A label
or name that holds a newline of its own stays one entry, though it spans
several lines of the file, so the counts and positions the save contracts
state are of entries.

Python's `float` and `'{:f}'.format` are library code whose decimal rounding
is not modelled. Each operation that uses them takes a `Numerals` value that
supplies both. A property that needs something of them says what:

- `Formats`: the rendering is never empty and holds no blank;
- `Reads`: `float` accepts every rendering;
- `Separable` (for the barcode reader): a rendering holds no whitespace, no
  colon and no comma.

A float then round-trips only to formatting precision:
`Round(x) = float('{:f}'.format(x))`.

`int` and `Fraction` are modelled concretely, for the sign, the digits and
the `p/q` form. With them the integer and fraction round trips can be proved
exactly.

The model follows the code as written, including where it is stricter or
looser than the file formats it reads:

- A slice line is split at every colon, and its header at every blank.
  Unpacking into two parts then fails when there is a second colon or a
  second blank, rather than splitting once at the first.
- A Betti table row keeps every integer between its brackets, whatever
  their number, not just three.
- A metric space with fewer than two points cannot be saved, because
  `max(*[x])` with a single entry raises.

## Model

| member | source | states |
|---|---|---|
| Geometry.MakePoints | pyrivet/rivet.py:27-28 | one point per coordinate tuple, in order, each carrying that tuple and the shared appearance, whatever it is |
| Geometry.MakePointsBifiltration | pyrivet/rivet.py:27-28 | points built with a pair as their appearance are always accepted as a bifiltration, unchanged |
| Geometry.MakePointsCloud | pyrivet/rivet.py:27-28 | points built from a non-empty list of tuples make a point cloud exactly when all tuples have the first one's length, and its dimension is that length |
| Geometry.NewPointCloud | pyrivet/rivet.py:31-46 | an empty point list fails on `points[0]`. Otherwise it fails exactly when some point's dimension differs from the first point's, reporting the first such index with the expected and actual dimensions. On success it keeps the points and comments, drops an empty name, takes the first point's dimension and uses `max_dist` unless it is absent or zero, in which case the crude span is used |
| Geometry.NewPointCloudValid | pyrivet/rivet.py:31-46 | every constructed cloud is non-empty, has one dimension shared by all points, and has no empty name |
| Geometry.LoHi | pyrivet/rivet.py:48-57 | the running bounds: the lower bound is at most 0 and the upper at least 0, every coordinate lies between them, and each bound is 0 or one of the coordinates |
| Geometry.CrudeSpan | pyrivet/rivet.py:48-57 | the crude scale bound is non-negative and is exactly the width of the running bounds, a range that holds every coordinate of every point; with no coordinates at all it is 0 |
| Geometry.CalcMaxDist | pyrivet/rivet.py:48-57 | the two nested loops compute exactly the width of the running bounds over all coordinates, point by point |
| Geometry.ScanCoords | pyrivet/rivet.py:51-56 | the inner loop turns the bounds of the coordinates seen so far into the bounds of those plus one point's coordinates |
| Geometry.NewBifiltration | pyrivet/rivet.py:80-88 | succeeds exactly when every appearance is a 2-tuple, keeping the labels and points; otherwise it raises one error that does not say which point |
| Encoders.CommentLines | pyrivet/rivet.py:60-62 | an absent or empty comment writes nothing. Otherwise there is one line per newline-separated piece of the comment, each behind the prefix, and stripping the prefixes gives the pieces back |
| Encoders.CommentRoundTrip | pyrivet/rivet.py:60-62 | dropping each prefix and re-joining the lines with newlines gives the comment back |
| Encoders.PointLine | pyrivet/rivet.py:71-76 | one point line: each rendered coordinate followed by a blank, then the rendered appearance and a blank when the cloud is named. It has no contract of its own; `Encoders.PointLineFields` states what a reader sees in it |
| Encoders.PointLineFields | pyrivet/rivet.py:70-76 | the fields of a point line are the rendered coordinates, then the rendered appearance exactly when the cloud has a second parameter |
| Encoders.SavePointCloud | pyrivet/rivet.py:59-77 | fails exactly when the cloud is named and some appearance is not a scalar, reporting the first such point. Otherwise it writes the comment lines, `points`, the dimension, the rendered scale bound, the name or `no function`, one line per point in order, and a final empty line |
| Encoders.SavedPointFields | pyrivet/rivet.py:59-77 | in a saved valid cloud each point line has `dimension` coordinate fields, plus one appearance field exactly when named, and these render the point's values |
| Encoders.BifiltrationLine | pyrivet/rivet.py:95-101 | one bifiltration point line: each rendered coordinate and then each of the two appearance values, each followed by two blanks. Its contract is carried by `Encoders.BifiltrationLineFields` |
| Encoders.BifiltrationLineFields | pyrivet/rivet.py:94-101 | the fields of a bifiltration point line are the rendered coordinates followed by exactly the two rendered appearance values |
| Encoders.SaveBifiltration | pyrivet/rivet.py:90-102 | writes `bifiltration`, the two labels, one line per point in order and a final empty line |
| Encoders.SavedBifiltrationFields | pyrivet/rivet.py:90-102 | each saved point line holds the point's coordinates and then its two appearance values |
| Encoders.RowMax | pyrivet/rivet.py:132 | the largest entry of a row prefix: no entry is larger, and it is one of the entries |
| Encoders.MatrixMax | pyrivet/rivet.py:131-132 | the largest entry of the n-by-n block: no entry is larger, and it is one of the entries |
| Encoders.MatrixError | pyrivet/rivet.py:131-132 | when some row is shorter than the matrix, the error is the short-row error for the first such row. Otherwise there is an error exactly when there are fewer than two points, and it is the too-few-points error |
| Encoders.SaveMetricSpace | pyrivet/rivet.py:116-138 | fails exactly when there are fewer than two points or some row is shorter than the number of points, and the error is the one `Encoders.MatrixError` picks: the first short row, else too few points. Otherwise it writes, in order: `metric`; the `#` comment lines; the label and values, or `no function` and the point count; the distance label; a rendering of the largest entry of the matrix; one upper-triangle row per point; and the last row is empty |
| Encoders.ShortRowExample | pyrivet/rivet.py:131-132 | saving the matrix `[[0.0, 1.0], [0.0]]` fails at row 1 for being short, not for too few points |
| Encoders.UpperRow | pyrivet/rivet.py:135-138 | row r of the upper triangle: the entries of columns r+1 to n-1, each followed by a blank. Its contract is carried by `Encoders.UpperRowFields` |
| Encoders.UpperRowFields | pyrivet/rivet.py:134-138 | row r of the written matrix holds exactly the entries of columns r+1 to n-1, in order |
| Encoders.AppearanceLineFields | pyrivet/rivet.py:124-126 | the appearance line holds exactly the rendered values |
| Encoders.ThreePointExample | pyrivet/rivet.py:116-138 | a three-point multi-critical space writes `no function` and `3`, then rows of two, one and no entries |
| Rectangles.CommonBounds | pyrivet/rivet.py:262-272 | succeeds exactly when both corners of both rectangles have at least two components. The result's lower-left corner is the componentwise minimum of the inputs' lower-left corners, and its upper-right corner the componentwise maximum of their upper-right corners |
| Rectangles.CommonBoundsMinimal | pyrivet/rivet.py:262-272 | the common bounds enclose both rectangles and lie inside every rectangle that encloses both |
| Rectangles.CommonBoundsCommutative | pyrivet/rivet.py:262-272 | the order of the two rectangles does not matter |
| Rectangles.CommonBoundsAssociative | pyrivet/rivet.py:262-272 | combining three rectangles gives the same result, or the same failure, grouped either way |
| Rectangles.CommonBoundsIdempotent | pyrivet/rivet.py:262-272 | a rectangle whose corners have exactly two components is its own common bounds |
| Numerals.ParseFloats | pyrivet/rivet.py:282-283 | `map(float, parts)` succeeds exactly when every part reads as a float, giving one value per part in order |
| Rectangles.Corner | pyrivet/rivet.py:281-286 | a corner has one component per comma-separated field after the prefix |
| Rectangles.BoundsStep | pyrivet/rivet.py:281-286 | one iteration of the loop on a stripped line, with the `low:` test before the `high:` test. Its contract is carried by `Rectangles.StepSpec` |
| Rectangles.StepSpec | pyrivet/rivet.py:281-286 | one line fails exactly when a `low:` or `high:` prefix carries an unreadable field. Otherwise the line replaces the corners its prefixes name and leaves the other corner unchanged |
| Rectangles.ScanBoundsLastWins | pyrivet/rivet.py:278-286 | the loop succeeds exactly when every prefixed line is readable. Each corner is then the one given by the last line with its prefix, or the starting corner if there is none |
| Rectangles.ParseBounds | pyrivet/rivet.py:275-287 | `parse_bounds`: strip every line, then scan from the corners (0, 0) and (0, 0). Its contract is carried by `Rectangles.ParseBoundsLastWins`, `Rectangles.ParseBoundsDefault` and `Rectangles.ParseBoundsIgnoresOtherLines` |
| Rectangles.ParseBoundsLastWins | pyrivet/rivet.py:275-287 | on the stripped lines, `parse_bounds` succeeds exactly when every `low:` and `high:` line holds floats. Each corner is then given by its last line, or is (0, 0) |
| Rectangles.ParseBoundsDefault | pyrivet/rivet.py:275-287 | with no `low:` or `high:` line the result is ((0, 0), (0, 0)) |
| Rectangles.ParseBoundsIgnoresOtherLines | pyrivet/rivet.py:278-286 | a line with neither prefix can be removed without changing the result |
| Rectangles.LastWithCons | pyrivet/rivet.py:278-286 | the last matching line of a list is the last match of its tail, or its head when only that matches |
| Decimal.ParseInt | pyrivet/rivet.py:342 | `int` of a text: strip it, then an optional sign and a non-empty run of digits. Its contract is carried by `Decimal.IntToStringRoundTrip` and `Decimal.ParseIntDigit` |
| Decimal.IntToStringRoundTrip | pyrivet/rivet.py:342 | `int` reads back exactly what `str` writes, for every integer |
| Decimal.ParseIntDigit | pyrivet/rivet.py:340 | `int` of one character succeeds exactly on a digit and gives its value |
| Decimal.ParseInts | pyrivet/rivet.py:342 | `map(int, ...)` succeeds exactly when every token reads as an integer, giving one value per token in order |
| Decimal.ParseFraction | pyrivet/rivet.py:338 | `Fraction` of a text: strip it, an optional sign, then `p` or `p/q`; a value read has a positive denominator. `Decimal.FractionRoundTrip` and `Decimal.FractionZeroDenominator` state the rest |
| Decimal.FractionRoundTrip | pyrivet/rivet.py:338 | `Fraction` reads back exactly the numerator and denominator that `str` of a fraction writes, with either sign |
| Decimal.FractionZeroDenominator | pyrivet/rivet.py:338 | every text that strips to an optional sign, a run of digits, a slash and a run of digits worth zero is rejected with the zero-denominator error, not the malformed-text one |
| Decimal.ZeroDenominatorExamples | pyrivet/rivet.py:338 | ` -3/0` and `5/00` both raise the zero-denominator error |
| Betti.ParseRow | pyrivet/rivet.py:342 | a table line: the integers between its first and last characters, split at commas. Its contract is carried by `Betti.RowTextRead` and `Decimal.ParseInts` |
| Betti.Step | pyrivet/rivet.py:325-342 | one iteration of the loop of `_parse_betti`, trying the branches in the source's order. Its contract is carried by `Betti.XiStep`, `Betti.XiLineInGradeSection`, `Betti.GradeLines`, `Betti.TableLines` and `Betti.OutsideSectionsIgnored` |
| Betti.ParseBetti | pyrivet/rivet.py:316-344 | `_parse_betti`: strip every line, run the loop from the empty state, and package the lists. Its contract is carried by `Betti.BettiRoundTrip`, `Betti.FirstTableRun` and `Betti.BettiExample` |
| Betti.AddGrades | pyrivet/rivet.py:337-338 | appending a grade changes only the selected axis's list, which grows by exactly that grade |
| Betti.AddRows | pyrivet/rivet.py:341-342 | appending a row changes only the selected table, which grows by exactly that row |
| Betti.XiHeader | pyrivet/rivet.py:339-340 | an `xi_` header selects a table exactly when its fourth character is 0, 1 or 2, and selects the table with that number |
| Betti.RunConcat | pyrivet/rivet.py:324-342 | the loop over two blocks of lines runs the first block and then the second from the state the first left |
| Betti.OutsideSectionsIgnored | pyrivet/rivet.py:330-342 | outside any section, blank lines and lines that are not headers change nothing |
| Betti.GradeLines | pyrivet/rivet.py:337-338 | inside a grade section each non-header line is read as a fraction and appended to the selected axis, in order; the first unreadable line is the error |
| Betti.XiStep | pyrivet/rivet.py:339-340 | a well-formed `xi_N` header outside grade sections selects table N and changes nothing else |
| Betti.XiLineInGradeSection | pyrivet/rivet.py:337-340 | an `xi_` line inside a grade section is read as a fraction and fails, because that branch comes first |
| Betti.TableLines | pyrivet/rivet.py:341-342 | inside a table section each plain line adds exactly one row to the selected table, in order |
| Betti.GradeSection | pyrivet/rivet.py:330-338 | a grade header, its lines and the closing blank line append the read grades to that axis and unset both selections |
| Betti.TableSection | pyrivet/rivet.py:334-342 | an `xi_N` header, its rows and the closing blank line append the rows to table N and unset both selections |
| Betti.GradeTextsRead | pyrivet/rivet.py:338 | reading the rendered grades gives them back exactly |
| Betti.RowTextRead | pyrivet/rivet.py:342 | reading a rendered `(a,b,...)` row gives the row back |
| Betti.BettiRoundTrip | pyrivet/rivet.py:316-344 | reading a block of two grade sections and three table sections gives back exactly its grades and its three tables |
| Betti.FirstTableRun | pyrivet/rivet.py:316-344 | a block with the two grade sections and only the xi_0 section gives its grades and rows, with xi_1 and xi_2 empty |
| Betti.BettiExample | pyrivet/rivet.py:316-344 | the block `x-grades 1/2 1`, `y-grades 1 2`, `xi_0 (0,0,1)` reads as the grades [1/2, 1] and [1, 2], xi_0 = [(0,0,1)] and the other tables empty |
| Slices.ParseBar | pyrivet/rivet.py:360-361 | one stripped bar token. Its contract is carried by `Slices.BarBlanks`, `Slices.BarWordsRead` and `Slices.BarOfWords` |
| Slices.BarBlanks | pyrivet/rivet.py:360 | a bar token without exactly two blanks fails to unpack into three words, and the error reports the word count |
| Slices.BarWordsRead | pyrivet/rivet.py:360-361 | a bar read from a token takes its birth and death from the first two words, and its multiplicity is `int` of the third word without its first character |
| Slices.BarOfWords | pyrivet/rivet.py:360-361 | conversely, a token of three words that read as two floats and an integer is that bar |
| Slices.Each | pyrivet/rivet.py:349-352 | the strip-and-skip loop succeeds exactly when every kept piece is readable. It then yields one value per non-empty stripped piece, in order |
| Slices.BarsPerPart | pyrivet/rivet.py:356-361 | one bar per non-empty comma-separated part of the body, in order, each read from its part |
| Slices.ParseSlice | pyrivet/rivet.py:353-364 | one stripped, non-empty slice line, with the bars read before the angle and the offset. Its contract is carried by `Slices.SliceColons`, `Slices.SliceHeaderBlanks` and `Slices.SliceParts` |
| Slices.SliceColons | pyrivet/rivet.py:353 | a line without exactly one colon fails to unpack into header and body |
| Slices.SliceHeaderBlanks | pyrivet/rivet.py:354 | a header without exactly one blank fails to unpack into angle and offset |
| Slices.SliceParts | pyrivet/rivet.py:353-364 | a slice read from a line takes its bars from the body and its angle and offset from the two header words |
| Slices.ParseSlices | pyrivet/rivet.py:347-365 | `_parse_slices`: the strip-and-skip loop over the lines, reading one slice per kept line. Its contract is carried by `Slices.SlicePerLine` and `Slices.SlicesRoundTrip` |
| Slices.SlicePerLine | pyrivet/rivet.py:347-365 | one slice per non-blank line, in order, each read from its stripped line |
| Slices.SlicesRoundTrip | pyrivet/rivet.py:347-365 | reading written slice lines gives back every slice in order, with its angle, offset and bar values to formatting precision and its multiplicities exactly |

## Left out

- Process calls (`compute_file`, `barcodes_file`, `betti_file`, `bounds_file` and the functions around them) and `TempDir`: they run the engine and touch the file system, which is outside the codec.
- `out.seek(0)` and `out.truncate()` in `MetricSpace.save`: the model returns the written lines, so there is no earlier content to discard.
- Partial writes: when a `save` raises part-way, the lines already written stay in the file. The model returns only the error.
- Byte decoding: the readers take text lines. `str(line, 'utf-8')` and the engine's byte output are not modelled, and neither are non-ASCII whitespace and digits.
- Text.Strip: removes only the six ASCII whitespace characters `bytes.strip()` removes. That is exact for `_parse_betti` and `_parse_slices`, which strip bytes, and for `int` of bytes in `_parse_slices`. `str.strip()` in `parse_bounds`, and `int` and `Fraction` of decoded text in `_parse_betti`, also remove the separators `\x1c` to `\x1f` and non-ASCII whitespace. The model keeps those characters.
- Floats are exact `real` numbers. NaN, the infinities and rounding in arithmetic are not modelled. `float('nan')` is accepted by `parse_bounds`, and with NaN Python's `min` and `max` depend on argument order. So Rectangles.CommonBoundsCommutative and Rectangles.CommonBoundsAssociative hold only for corners without NaN, and the same goes for `max` in `MetricSpace.save` and `hi - lo` in `_calc_max_dist`.
- `'{:f}'.format` and `float`: their decimal behaviour is library code, so they are parameters. The round trips hold to formatting precision, under the stated assumptions on those parameters.
- Decimal.ParseFraction: reads only the forms `[sign]p` and `[sign]p/q` with surrounding whitespace. Python's decimal, exponent and underscore forms are not modelled.
- Decimal.Fraction: is not reduced to lowest terms, and equality is structural. `Fraction('2/4')` is kept as 2/4, while Python holds 1/2 and compares fractions, and so `Dimensions`, by value.
- Decimal.ParseInt: underscores and non-ASCII digits, which Python's `int` accepts, are not modelled.
- `__repr__` of `Bounds`, `Dimensions` and `MultiBetti`: it only formats values for display.
- `barcode.Bar` and `barcode.Barcode` are not part of this model. A bar is a plain datatype of birth, death and multiplicity, and a slice keeps its bars as a sequence.
- `Point` keeps its appearance as a scalar or a tuple of floats; only those appearances are modelled. Python allows any object there. Its `Bifiltration` constructor accepts any object with a length of 2, such as the string `"ab"` or `("a", "b")`, and only `Bifiltration.save` then fails, when `'{:f}'` cannot format an item. That acceptance and that save-time error are not modelled.
