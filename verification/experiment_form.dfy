/**
 * `ExperimentForm.handleSubmit`: the two comma-separated parameter lists are split at ',',
 * each piece trimmed and read with `parseFloat`, and the numbers that are not `NaN` and lie
 * in range are kept (temperatures in [0, 2], top_p values in [0, 1]). When either list
 * comes out empty the user is alerted and nothing is submitted; otherwise the prompt,
 * the model and both lists go to `onSubmit` unchanged.
 */
module ExperimentForm {
  import opened Wrappers
  import opened Text
  import opened Schemas

  const MaxTemperature: real := 2.0
  const MaxTopP: real := 1.0

  /** The initial contents of the two inputs. */
  const DefaultTemperatureText: string := "0.3, 0.7, 1.0"
  const DefaultTopPText: string := "0.9, 1.0"

  const InvalidParameters: string := "Please enter valid parameter values"

  /** `parseFloat(v.trim())`: one piece read as a number, `None` for `NaN`. */
  function ReadPiece(piece: string): Option<real> {
    ParseFloat(Trim(piece))
  }

  /** `.map(read)`. */
  function MapEach(pieces: seq<string>, read: string -> Option<real>): (vs: seq<Option<real>>)
    ensures |vs| == |pieces|
    ensures forall k :: 0 <= k < |pieces| ==> vs[k] == read(pieces[k])
  {
    seq(|pieces|, k requires 0 <= k < |pieces| => read(pieces[k]))
  }

  /** `.split(',').map(v => parseFloat(v.trim()))`: one value per comma-separated piece. */
  function ParsePieces(text: string): seq<Option<real>> {
    MapEach(Split(text, ","), ReadPiece)
  }

  /** `.filter(v => !isNaN(v) && v >= 0 && v <= hi)`. */
  function KeepInRange(vs: seq<Option<real>>, hi: real): (r: seq<real>)
    ensures forall k :: 0 <= k < |r| ==> 0.0 <= r[k] <= hi
    ensures |r| <= |vs|
  {
    if vs == [] then []
    else (if vs[0].Some? && 0.0 <= vs[0].value <= hi then [vs[0].value] else []) + KeepInRange(vs[1..], hi)
  }

  /** One parameter list as the form reads it. */
  function ParseRange(text: string, hi: real): seq<real> {
    KeepInRange(ParsePieces(text), hi)
  }

  /** What submitting the form does. */
  datatype Submission = Alert(message: string) | Submit(request: GenerateRequest)

  /** `handleSubmit`. */
  function HandleSubmit(prompt: string, model: string, temperatureText: string, topPText: string): (s: Submission)
    ensures s.Alert? <==>
      ParseRange(temperatureText, MaxTemperature) == [] || ParseRange(topPText, MaxTopP) == []
    ensures s.Alert? ==> s.message == InvalidParameters
    ensures s.Submit? ==> s.request == GenerateRequest(prompt, model,
      ParseRange(temperatureText, MaxTemperature), ParseRange(topPText, MaxTopP))
  {
    var temperatures := ParseRange(temperatureText, MaxTemperature);
    var topPs := ParseRange(topPText, MaxTopP);
    if temperatures == [] || topPs == [] then Alert(InvalidParameters)
    else Submit(GenerateRequest(prompt, model, temperatures, topPs))
  }

  // ---------------------------------------------------------------------------
  // Properties of the range filter
  // ---------------------------------------------------------------------------

  /**
   * Every value kept lies in [0, hi], and there are at most as many values as there are
   * comma-separated pieces, one more than the number of commas.
   */
  lemma ParseRangeBounds(text: string, hi: real)
    ensures forall k :: 0 <= k < |ParseRange(text, hi)| ==> 0.0 <= ParseRange(text, hi)[k] <= hi
    ensures |ParseRange(text, hi)| <= CountIn(text, {','}) + 1
  {
    var pieces := Split(text, ",");
    SplitCount(text, ',');
    assert |ParsePieces(text)| == |pieces| == CountIn(text, {','}) + 1;
  }

  /** A number is kept exactly when some piece parses to it and it lies in [0, hi]. */
  lemma {:induction false} KeepInRangeMembers(vs: seq<Option<real>>, hi: real, x: real)
    ensures x in KeepInRange(vs, hi) <==> Some(x) in vs && 0.0 <= x <= hi
  {
    if vs != [] {
      KeepInRangeMembers(vs[1..], hi, x);
      assert vs == [vs[0]] + vs[1..];
    }
  }

  /** Every index moved one place on, as when a piece is put in front. */
  function Shift(idx: seq<nat>): (r: seq<nat>)
    ensures |r| == |idx|
    ensures forall k :: 0 <= k < |idx| ==> r[k] == idx[k] + 1
  {
    seq(|idx|, k requires 0 <= k < |idx| => idx[k] + 1)
  }

  /** The indices of the pieces the filter keeps, in order. */
  function KeptIndices(vs: seq<Option<real>>, hi: real): seq<nat> {
    if vs == [] then []
    else (if vs[0].Some? && 0.0 <= vs[0].value <= hi then [0] else []) + Shift(KeptIndices(vs[1..], hi))
  }

  /** Kept value `k` is the number piece `KeptIndices(vs, hi)[k]` parses to. */
  lemma {:induction false} KeptIndicesValues(vs: seq<Option<real>>, hi: real)
    ensures |KeptIndices(vs, hi)| == |KeepInRange(vs, hi)|
    ensures forall k :: 0 <= k < |KeptIndices(vs, hi)| ==>
      KeptIndices(vs, hi)[k] < |vs| && vs[KeptIndices(vs, hi)[k]] == Some(KeepInRange(vs, hi)[k])
  {
    if vs != [] {
      KeptIndicesValues(vs[1..], hi);
      var rest := KeptIndices(vs[1..], hi);
      forall k | 0 <= k < |rest|
        ensures vs[Shift(rest)[k]] == Some(KeepInRange(vs[1..], hi)[k])
      {
        assert vs[Shift(rest)[k]] == vs[1..][rest[k]];
      }
    }
  }

  /** The kept indices increase strictly. */
  lemma {:induction false} KeptIndicesIncrease(vs: seq<Option<real>>, hi: real)
    ensures forall k :: 0 <= k < |KeptIndices(vs, hi)| ==> KeptIndices(vs, hi)[k] < |vs|
    ensures forall k, m :: 0 <= k < m < |KeptIndices(vs, hi)| ==> KeptIndices(vs, hi)[k] < KeptIndices(vs, hi)[m]
  {
    if vs != [] {
      KeptIndicesIncrease(vs[1..], hi);
    }
  }

  /** Every piece that parses to a number in [0, hi] has its index kept. */
  lemma {:induction false} KeptIndicesComplete(vs: seq<Option<real>>, hi: real, i: nat)
    requires i < |vs| && vs[i].Some? && 0.0 <= vs[i].value <= hi
    ensures i in KeptIndices(vs, hi)
  {
    if i > 0 {
      assert vs[1..][i - 1] == vs[i];
      KeptIndicesComplete(vs[1..], hi, i - 1);
      var rest := KeptIndices(vs[1..], hi);
      var k :| 0 <= k < |rest| && rest[k] == i - 1;
      assert Shift(rest)[k] == i;
    }
  }

  /**
   * The kept values are exactly the in-range numbers among the parsed pieces, in their
   * original order: value `k` comes from piece `idx[k]`, the pieces' indices increase, and
   * every piece that parses to a number in range is one of them (duplicates included).
   */
  lemma KeepInRangeInOrder(vs: seq<Option<real>>, hi: real) returns (idx: seq<nat>)
    ensures |idx| == |KeepInRange(vs, hi)|
    ensures forall k :: 0 <= k < |idx| ==> idx[k] < |vs| && vs[idx[k]] == Some(KeepInRange(vs, hi)[k])
    ensures forall k, m :: 0 <= k < m < |idx| ==> idx[k] < idx[m]
    ensures forall i :: 0 <= i < |vs| && vs[i].Some? && 0.0 <= vs[i].value <= hi ==> i in idx
  {
    idx := KeptIndices(vs, hi);
    KeptIndicesValues(vs, hi);
    KeptIndicesIncrease(vs, hi);
    forall i | 0 <= i < |vs| && vs[i].Some? && 0.0 <= vs[i].value <= hi
      ensures i in idx
    {
      KeptIndicesComplete(vs, hi, i);
    }
  }

  /** The values as the filter sees them again. */
  function Lift(xs: seq<real>): (vs: seq<Option<real>>)
    ensures |vs| == |xs|
    ensures forall k :: 0 <= k < |xs| ==> vs[k] == Some(xs[k])
  {
    if xs == [] then [] else [Some(xs[0])] + Lift(xs[1..])
  }

  /** Filtering values that already lie in [0, hi] keeps them all: the filter is idempotent. */
  lemma {:induction false} KeepInRangeIdempotent(xs: seq<real>, hi: real)
    requires forall k :: 0 <= k < |xs| ==> 0.0 <= xs[k] <= hi
    ensures KeepInRange(Lift(xs), hi) == xs
  {
    if xs != [] {
      KeepInRangeIdempotent(xs[1..], hi);
      assert Lift(xs)[1..] == Lift(xs[1..]);
    }
  }

  /** Re-applying the range filter to a parsed list leaves it unchanged. */
  lemma ParseRangeIdempotent(text: string, hi: real)
    ensures KeepInRange(Lift(ParseRange(text, hi)), hi) == ParseRange(text, hi)
  {
    KeepInRangeIdempotent(ParseRange(text, hi), hi);
  }

  // ---------------------------------------------------------------------------
  // The initial inputs and the submit guard
  // ---------------------------------------------------------------------------

  /** A piece "d.f" has nothing to trim. */
  lemma TrimPiece(d: char, f: char)
    requires IsDigit(d) && IsDigit(f)
    ensures Trim([d, '.', f]) == [d, '.', f]
  {
    assert !IsJsSpace(d) && !IsJsSpace(f);
    TrimUnpadded([d, '.', f]);
  }

  /** A piece " d.f" trims to "d.f". */
  lemma TrimSpacedPiece(d: char, f: char)
    requires IsDigit(d) && IsDigit(f)
    ensures Trim([' ', d, '.', f]) == [d, '.', f]
  {
    TrimLeadingSpace([' ', d, '.', f]);
    assert [' ', d, '.', f][1..] == [d, '.', f];
    TrimPiece(d, f);
  }

  /** Trimming "d.f" does not change what it reads as. */
  lemma TrimmedPiece(d: char, f: char)
    requires IsDigit(d) && IsDigit(f)
    ensures ParseFloat(Trim([d, '.', f])) == ParseFloat([d, '.', f])
  {
    TrimPiece(d, f);
  }

  /** Trimming " d.f" leaves "d.f". */
  lemma TrimmedSpacedPiece(d: char, f: char)
    requires IsDigit(d) && IsDigit(f)
    ensures ParseFloat(Trim([' ', d, '.', f])) == ParseFloat([d, '.', f])
  {
    TrimSpacedPiece(d, f);
  }

  /** "d.f" reads as the number d.f. */
  lemma DecimalPiece(d: char, f: char, v: real)
    requires IsDigit(d) && IsDigit(f)
    requires v == (DigitValue(d) * 10 + DigitValue(f)) as real / 10.0
    ensures ParseFloat([d, '.', f]) == Some(v)
  {
    var s := [d] + ['.'] + [f];
    assert s == [d, '.', f];
    ParseFloatDecimal([d], [f]);
    assert [d] + [f] == [d, f] && [d, f][..1] == [d] && [d][..0] == [];
    var x, p := DigitsValue([d] + [f]), Pow10(|[f]|);
    assert ParseFloat(s) == Some(x as real / p as real);
    assert DigitsValue([d]) == DigitValue(d);
    assert p == 10;
    TenthsOf(x, p);
  }

  lemma TenthsOf(x: nat, p: nat)
    requires p == 10
    ensures x as real / p as real == x as real / 10.0
  {
  }

  /** A piece "d.f" reads as the number d.f. */
  lemma PieceValue(d: char, f: char, v: real)
    requires IsDigit(d) && IsDigit(f)
    requires v == (DigitValue(d) * 10 + DigitValue(f)) as real / 10.0
    ensures ParseFloat(Trim([d, '.', f])) == Some(v)
  {
    TrimmedPiece(d, f);
    DecimalPiece(d, f, v);
  }

  /** A piece " d.f", with a leading blank, reads as the number d.f. */
  lemma SpacedPieceValue(d: char, f: char, v: real)
    requires IsDigit(d) && IsDigit(f)
    requires v == (DigitValue(d) * 10 + DigitValue(f)) as real / 10.0
    ensures ParseFloat(Trim([' ', d, '.', f])) == Some(v)
  {
    TrimmedSpacedPiece(d, f);
    DecimalPiece(d, f, v);
  }

  lemma DefaultTemperaturePieces()
    ensures Split(DefaultTemperatureText, ",") == ["0.3", " 0.7", " 1.0"]
  {
    var pieces := ["0.3", " 0.7", " 1.0"];
    assert DefaultTemperatureText == Join(pieces, ",");
    SplitJoin(pieces, ',');
  }

  lemma DefaultTopPPieces()
    ensures Split(DefaultTopPText, ",") == ["0.9", " 1.0"]
  {
    var pieces := ["0.9", " 1.0"];
    assert DefaultTopPText == Join(pieces, ",");
    SplitJoin(pieces, ',');
  }

  /** The pieces of the initial inputs, each trimmed and read. */
  lemma DefaultPieceValues()
    ensures ParseFloat(Trim("0.3")) == Some(0.3)
    ensures ParseFloat(Trim(" 0.7")) == Some(0.7)
    ensures ParseFloat(Trim(" 1.0")) == Some(1.0)
    ensures ParseFloat(Trim("0.9")) == Some(0.9)
  {
    assert 0.3 == (DigitValue('0') * 10 + DigitValue('3')) as real / 10.0;
    assert 0.7 == (DigitValue('0') * 10 + DigitValue('7')) as real / 10.0;
    assert 1.0 == (DigitValue('1') * 10 + DigitValue('0')) as real / 10.0;
    assert 0.9 == (DigitValue('0') * 10 + DigitValue('9')) as real / 10.0;
    PieceValue('0', '3', 0.3);
    SpacedPieceValue('0', '7', 0.7);
    SpacedPieceValue('1', '0', 1.0);
    PieceValue('0', '9', 0.9);
  }

  /** Two pieces that read as `va` and `vb` map to exactly those values. */
  lemma MapEachTwo(a: string, b: string, read: string -> Option<real>, va: Option<real>, vb: Option<real>)
    requires read(a) == va && read(b) == vb
    ensures MapEach([a, b], read) == [va, vb]
  {
  }

  /** Three pieces that read as `va`, `vb` and `vc` map to exactly those values. */
  lemma MapEachThree(a: string, b: string, c: string, read: string -> Option<real>,
                     va: Option<real>, vb: Option<real>, vc: Option<real>)
    requires read(a) == va && read(b) == vb && read(c) == vc
    ensures MapEach([a, b, c], read) == [va, vb, vc]
  {
  }

  lemma LiftTwo(a: real, b: real)
    ensures Lift([a, b]) == [Some(a), Some(b)]
  {
  }

  lemma LiftThree(a: real, b: real, c: real)
    ensures Lift([a, b, c]) == [Some(a), Some(b), Some(c)]
  {
  }

  /** A text whose pieces all parse to in-range numbers reads as exactly those numbers. */
  lemma RangeOfPieces(text: string, hi: real, xs: seq<real>)
    requires ParsePieces(text) == Lift(xs)
    requires forall k :: 0 <= k < |xs| ==> 0.0 <= xs[k] <= hi
    ensures ParseRange(text, hi) == xs
  {
    KeepInRangeIdempotent(xs, hi);
  }

  lemma DefaultTemperatureReads()
    ensures MapEach(["0.3", " 0.7", " 1.0"], ReadPiece) == Lift([0.3, 0.7, 1.0])
  {
    DefaultPieceValues();
    MapEachThree("0.3", " 0.7", " 1.0", ReadPiece, Some(0.3), Some(0.7), Some(1.0));
    LiftThree(0.3, 0.7, 1.0);
  }

  lemma DefaultTopPReads()
    ensures MapEach(["0.9", " 1.0"], ReadPiece) == Lift([0.9, 1.0])
  {
    DefaultPieceValues();
    MapEachTwo("0.9", " 1.0", ReadPiece, Some(0.9), Some(1.0));
    LiftTwo(0.9, 1.0);
  }

  lemma DefaultTemperatureValues()
    ensures ParsePieces(DefaultTemperatureText) == Lift([0.3, 0.7, 1.0])
  {
    DefaultTemperatureReads();
    DefaultTemperaturePieces();
  }

  lemma DefaultTopPValues()
    ensures ParsePieces(DefaultTopPText) == Lift([0.9, 1.0])
  {
    DefaultTopPReads();
    DefaultTopPPieces();
  }

  lemma DefaultTemperatureRange()
    ensures ParseRange(DefaultTemperatureText, MaxTemperature) == [0.3, 0.7, 1.0]
  {
    DefaultTemperatureValues();
    RangeOfPieces(DefaultTemperatureText, MaxTemperature, [0.3, 0.7, 1.0]);
  }

  lemma DefaultTopPRange()
    ensures ParseRange(DefaultTopPText, MaxTopP) == [0.9, 1.0]
  {
    DefaultTopPValues();
    RangeOfPieces(DefaultTopPText, MaxTopP, [0.9, 1.0]);
  }

  /** The initial inputs parse to [0.3, 0.7, 1.0] and [0.9, 1.0]. */
  lemma DefaultRanges()
    ensures ParseRange(DefaultTemperatureText, MaxTemperature) == [0.3, 0.7, 1.0]
    ensures ParseRange(DefaultTopPText, MaxTopP) == [0.9, 1.0]
  {
    DefaultTemperatureRange();
    DefaultTopPRange();
  }

  /** The temperature input "abc, 3.5, 0.5" as an example of what the filter drops. */
  const MixedTemperatureText: string := "abc, 3.5, 0.5"

  lemma MixedTemperaturePieces()
    ensures Split(MixedTemperatureText, ",") == ["abc", " 3.5", " 0.5"]
  {
    var pieces := ["abc", " 3.5", " 0.5"];
    assert MixedTemperatureText == Join(pieces, ",");
    SplitJoin(pieces, ',');
  }

  /** A piece that starts with a letter reads as `NaN`. */
  lemma LetterPieceNaN(piece: string)
    requires piece != [] && 'a' <= piece[0] <= 'z'
    requires !IsJsSpace(piece[|piece| - 1])
    ensures ParseFloat(Trim(piece)) == None
  {
    TrimUnpadded(piece);
    ParseFloatNaN(piece);
  }

  /** The numeric pieces of the mixed input, each trimmed and read. */
  lemma MixedPieceValues()
    ensures ParseFloat(Trim(" 3.5")) == Some(3.5)
    ensures ParseFloat(Trim(" 0.5")) == Some(0.5)
  {
    assert 3.5 == (DigitValue('3') * 10 + DigitValue('5')) as real / 10.0;
    assert 0.5 == (DigitValue('0') * 10 + DigitValue('5')) as real / 10.0;
    SpacedPieceValue('3', '5', 3.5);
    SpacedPieceValue('0', '5', 0.5);
  }

  lemma MixedTemperatureReads()
    ensures MapEach(["abc", " 3.5", " 0.5"], ReadPiece) == [None, Some(3.5), Some(0.5)]
  {
    LetterPieceNaN("abc");
    MixedPieceValues();
    MapEachThree("abc", " 3.5", " 0.5", ReadPiece, None, Some(3.5), Some(0.5));
  }

  /** Of three values, only those that parsed and lie in [0, hi] are kept, in order. */
  lemma KeepThree(a: Option<real>, b: Option<real>, c: Option<real>, hi: real)
    ensures KeepInRange([a, b, c], hi) ==
      (if a.Some? && 0.0 <= a.value <= hi then [a.value] else [])
      + (if b.Some? && 0.0 <= b.value <= hi then [b.value] else [])
      + (if c.Some? && 0.0 <= c.value <= hi then [c.value] else [])
  {
    assert [a, b, c][1..] == [b, c] && [b, c][1..] == [c] && [c][1..] == [];
    assert KeepInRange([c], hi) == (if c.Some? && 0.0 <= c.value <= hi then [c.value] else []);
    assert KeepInRange([b, c], hi)
      == (if b.Some? && 0.0 <= b.value <= hi then [b.value] else []) + KeepInRange([c], hi);
  }

  /**
   * The temperature input "abc, 3.5, 0.5" gives [0.5]: "abc" does not parse and 3.5 lies
   * above 2.
   */
  lemma MixedTemperatureRange()
    ensures ParseRange(MixedTemperatureText, MaxTemperature) == [0.5]
  {
    MixedTemperaturePieces();
    MixedTemperatureReads();
    KeepThree(None, Some(3.5), Some(0.5), MaxTemperature);
  }

  /**
   * Submitting the initial inputs sends a 3 x 2 grid; the back end's own default top_p
   * list, used when the field is absent, has three values instead.
   */
  lemma DefaultSubmission(prompt: string)
    ensures HandleSubmit(prompt, DefaultModel, DefaultTemperatureText, DefaultTopPText)
      == Submit(GenerateRequest(prompt, DefaultModel, [0.3, 0.7, 1.0], [0.9, 1.0]))
    ensures DefaultTopPs != [0.9, 1.0]
  {
    DefaultRanges();
  }

  /**
   * `handleSubmit` does not check the prompt (only the input's `required` attribute and the
   * disabled button hold an empty one back): an empty prompt with valid ranges is submitted,
   * and the back end's validation then rejects it.
   */
  lemma EmptyPromptReachesBackend(model: string, temperatureText: string, topPText: string)
    requires ParseRange(temperatureText, MaxTemperature) != [] && ParseRange(topPText, MaxTopP) != []
    ensures HandleSubmit("", model, temperatureText, topPText).Submit?
    ensures var req := HandleSubmit("", model, temperatureText, topPText).request;
      ParseGenerateRequest(Some(req.prompt), Some(req.model), Some(req.temperatureRange), Some(req.topPRange)).Failure?
  {
  }
}
