/** Day 15: the HASH algorithm over step strings and the 256 lens boxes it selects. */
module Day15Lenses {
  import opened Common

  // ---------------------------------------------------------------------------
  // The HASH value of a string (day15/puzzle1.js getValue, day15/puzzle2.js getBox)
  // ---------------------------------------------------------------------------

  /** The running value: start at 0, and for each character add its code, multiply by 17
      and keep the remainder modulo 256. */
  function Hash(s: string): (h: int)
    ensures 0 <= h < 256
  {
    if s == [] then 0 else (Hash(s[..|s| - 1]) + s[|s| - 1] as int) * 17 % 256
  }

  function Pow17(n: nat): (p: nat)
    ensures p >= 1
  {
    if n == 0 then 1 else 17 * Pow17(n - 1)
  }

  /** Closed form without intermediate reductions: the sum of code(s[i]) * 17^(|s| - i). */
  function HashPolynomial(s: string): int
  {
    if s == [] then 0 else s[0] as int * Pow17(|s|) + HashPolynomial(s[1..])
  }

  lemma {:induction false} HashPolynomialSnoc(s: string, c: char)
    ensures HashPolynomial(s + [c]) == (HashPolynomial(s) + c as int) * 17
  {
    if s == [] {
      assert [c][1..] == [];
    } else {
      assert (s + [c])[1..] == s[1..] + [c];
      HashPolynomialSnoc(s[1..], c);
      assert Pow17(|s| + 1) == 17 * Pow17(|s|);
    }
  }

  lemma ModuloShift(x: int, c: int)
    ensures ((x % 256 + c) * 17) % 256 == ((x + c) * 17) % 256
  {
    var q := x / 256;
    assert x == 256 * q + x % 256;
    assert (x + c) * 17 == (x % 256 + c) * 17 + 256 * (17 * q);
  }

  /** The reduced running value is the closed-form polynomial taken modulo 256. */
  lemma {:induction false} HashIsPolynomialModulo(s: string)
    ensures Hash(s) == HashPolynomial(s) % 256
  {
    if s != [] {
      var p, c := s[..|s| - 1], s[|s| - 1];
      assert s == p + [c];
      HashIsPolynomialModulo(p);
      HashPolynomialSnoc(p, c);
      ModuloShift(HashPolynomial(p), c as int);
    }
  }

  /** Appending a character updates the value by the step rule. */
  lemma HashStep(s: string, c: char)
    ensures Hash(s + [c]) == (Hash(s) + c as int) * 17 % 256
  {
    assert (s + [c])[..|s + [c]| - 1] == s;
  }

  /** day15/puzzle1.js getValue: the loop over the character codes. */
  method GetValue(step: string) returns (value: int)
    ensures value == Hash(step)
    ensures 0 <= value <= 255
  {
    value := 0;
    for i := 0 to |step|
      invariant value == Hash(step[..i])
    {
      var asciiCode := step[i] as int;
      value := value + asciiCode;
      value := value * 17;
      value := value % 256;
      HashStep(step[..i], step[i]);
      assert step[..i + 1] == step[..i] + [step[i]];
    }
    assert step[..|step|] == step;
  }

  /** day15/puzzle2.js getBox: the same computation, naming one of the 256 boxes. */
  method GetBox(lensLabel: string) returns (box: int)
    ensures box == Hash(lensLabel)
    ensures 0 <= box < 256
  {
    box := GetValue(lensLabel);
  }

  function SumHashes(steps: seq<string>): int
  {
    if steps == [] then 0 else SumHashes(steps[..|steps| - 1]) + Hash(steps[|steps| - 1])
  }

  lemma {:induction false} SumHashesBounds(steps: seq<string>)
    ensures 0 <= SumHashes(steps) <= 255 * |steps|
  {
    if steps != [] {
      SumHashesBounds(steps[..|steps| - 1]);
    }
  }

  /** day15/puzzle1.js solve: the sum of the HASH values of the steps. */
  method SolvePart1(sequence: seq<string>) returns (sumValues: int)
    ensures sumValues == SumHashes(sequence)
    ensures 0 <= sumValues <= 255 * |sequence|
  {
    sumValues := 0;
    for i := 0 to |sequence|
      invariant sumValues == SumHashes(sequence[..i])
    {
      var v := GetValue(sequence[i]);
      assert sequence[..i + 1][..i] == sequence[..i];
      sumValues := sumValues + v;
    }
    assert sequence[..|sequence|] == sequence;
    SumHashesBounds(sequence);
  }

  // ---------------------------------------------------------------------------
  // The boxes as values (day15/puzzle2.js solve loop, lines 6-32)
  // ---------------------------------------------------------------------------

  datatype Lens = Lens(lensLabel: string, focalLength: int)

  type Box = seq<Lens>

  /** One parsed step: `label-` or `label=focalLength`. */
  datatype Step = Remove(lensLabel: string) | Insert(lensLabel: string, focalLength: int)

  const BoxCount := 256

  function EmptyBoxes(): (boxes: seq<Box>)
    ensures |boxes| == BoxCount
    ensures forall b :: 0 <= b < |boxes| ==> boxes[b] == []
  {
    seq(BoxCount, _ => [])
  }

  /** Every lens sits in the box its label hashes to, and no box holds a label twice. */
  ghost predicate WellPlaced(boxes: seq<Box>)
  {
    && |boxes| == BoxCount
    && (forall b, j :: 0 <= b < |boxes| && 0 <= j < |boxes[b]| ==> Hash(boxes[b][j].lensLabel) == b)
    && (forall b :: 0 <= b < |boxes| ==> DistinctLabels(boxes[b]))
  }

  ghost predicate DistinctLabels(box: Box)
  {
    forall i, j :: 0 <= i < j < |box| ==> box[i].lensLabel != box[j].lensLabel
  }

  /** The lenses of `box` whose label is not `lensLabel`, in their order (Array.prototype.filter). */
  function WithoutLabel(box: Box, lensLabel: string): (r: Box)
  {
    if box == [] then []
    else if box[0].lensLabel == lensLabel then WithoutLabel(box[1..], lensLabel)
    else [box[0]] + WithoutLabel(box[1..], lensLabel)
  }

  /** `label-` leaves no lens with that label, keeps every other lens, and adds none. */
  lemma {:induction false} WithoutLabelContents(box: Box, lensLabel: string)
    ensures forall j :: 0 <= j < |WithoutLabel(box, lensLabel)| ==>
      WithoutLabel(box, lensLabel)[j].lensLabel != lensLabel && WithoutLabel(box, lensLabel)[j] in box
    ensures forall j :: 0 <= j < |box| && box[j].lensLabel != lensLabel ==> box[j] in WithoutLabel(box, lensLabel)
  {
    if box != [] {
      WithoutLabelContents(box[1..], lensLabel);
      assert box == [box[0]] + box[1..];
      forall j | 0 <= j < |box| && box[j].lensLabel != lensLabel ensures box[j] in WithoutLabel(box, lensLabel) {
        if j > 0 {
          assert box[j] == box[1..][j - 1];
        }
      }
    }
  }

  /** Index of the first lens labelled `lensLabel` (Array.prototype.find). */
  function FindLabel(box: Box, lensLabel: string): (r: Option<nat>)
    ensures r.Some? ==> r.value < |box| && box[r.value].lensLabel == lensLabel
    ensures r.Some? ==> forall j :: 0 <= j < r.value ==> box[j].lensLabel != lensLabel
    ensures r.None? ==> forall j :: 0 <= j < |box| ==> box[j].lensLabel != lensLabel
  {
    if box == [] then None
    else if box[0].lensLabel == lensLabel then Some(0)
    else match FindLabel(box[1..], lensLabel)
      case None => None
      case Some(i) => Some(i + 1)
  }

  /** `label=f`: change the focal length of the lens in place, or append a new lens. */
  function Upsert(box: Box, lensLabel: string, focalLength: int): Box
  {
    match FindLabel(box, lensLabel)
    case Some(i) => box[i := Lens(lensLabel, focalLength)]
    case None => box + [Lens(lensLabel, focalLength)]
  }

  function ApplyStep(boxes: seq<Box>, step: Step): (r: seq<Box>)
    requires |boxes| == BoxCount
    ensures |r| == BoxCount
  {
    var b := Hash(step.lensLabel);
    match step
    case Remove(lensLabel) => boxes[b := WithoutLabel(boxes[b], lensLabel)]
    case Insert(lensLabel, f) => boxes[b := Upsert(boxes[b], lensLabel, f)]
  }

  function ApplySteps(boxes: seq<Box>, steps: seq<Step>): (r: seq<Box>)
    requires |boxes| == BoxCount
    ensures |r| == BoxCount
  {
    if steps == [] then boxes else ApplyStep(ApplySteps(boxes, steps[..|steps| - 1]), steps[|steps| - 1])
  }

  lemma ApplyStepsPrefix(boxes: seq<Box>, steps: seq<Step>, i: int)
    requires |boxes| == BoxCount && 0 <= i < |steps|
    ensures ApplySteps(boxes, steps[..i + 1]) == ApplyStep(ApplySteps(boxes, steps[..i]), steps[i])
  {
    assert steps[..i + 1][..i] == steps[..i];
  }

  /** A step changes only the box its label hashes to. */
  lemma ApplyStepFrame(boxes: seq<Box>, step: Step, b: int)
    requires |boxes| == BoxCount
    requires 0 <= b < BoxCount && b != Hash(step.lensLabel)
    ensures ApplyStep(boxes, step)[b] == boxes[b]
  {
  }

  lemma {:induction false} WithoutAbsentLabel(box: Box, lensLabel: string)
    requires forall j :: 0 <= j < |box| ==> box[j].lensLabel != lensLabel
    ensures WithoutLabel(box, lensLabel) == box
  {
    if box != [] {
      WithoutAbsentLabel(box[1..], lensLabel);
      assert [box[0]] + box[1..] == box;
    }
  }

  lemma DistinctLabelsTail(box: Box)
    requires box != [] && DistinctLabels(box)
    ensures DistinctLabels(box[1..])
    ensures forall j :: 0 <= j < |box[1..]| ==> box[1..][j].lensLabel != box[0].lensLabel
  {
    forall i, j | 0 <= i < j < |box[1..]| ensures box[1..][i].lensLabel != box[1..][j].lensLabel {
      assert box[1..][i] == box[i + 1] && box[1..][j] == box[j + 1];
    }
    forall j | 0 <= j < |box[1..]| ensures box[1..][j].lensLabel != box[0].lensLabel {
      assert box[1..][j] == box[j + 1];
    }
  }

  lemma RemovePresentLabel(box: Box, lensLabel: string, i: nat)
    requires DistinctLabels(box)
    requires i < |box| && box[i].lensLabel == lensLabel
    ensures WithoutLabel(box, lensLabel) == box[..i] + box[i + 1..]
  {
    var before, after := box[..i], box[i + 1..];
    assert box == before + ([box[i]] + after);
    forall j | 0 <= j < |before| ensures before[j].lensLabel != lensLabel {
      assert before[j] == box[j];
    }
    forall j | 0 <= j < |after| ensures after[j].lensLabel != lensLabel {
      assert after[j] == box[i + 1 + j];
    }
    WithoutLabelAppend(before, [box[i]] + after, lensLabel);
    assert ([box[i]] + after)[1..] == after;
    WithoutAbsentLabel(before, lensLabel);
    WithoutAbsentLabel(after, lensLabel);
  }

  /** The filter distributes over concatenation. */
  lemma {:induction false} WithoutLabelAppend(a: Box, b: Box, lensLabel: string)
    ensures WithoutLabel(a + b, lensLabel) == WithoutLabel(a, lensLabel) + WithoutLabel(b, lensLabel)
  {
    if a == [] {
      assert a + b == b;
    } else {
      assert (a + b)[1..] == a[1..] + b;
      WithoutLabelAppend(a[1..], b, lensLabel);
    }
  }

  /** With distinct labels, `label-` deletes exactly the one lens with that label,
      keeping the others in order; without such a lens the box is unchanged. */
  lemma RemoveDeletesOne(box: Box, lensLabel: string)
    requires DistinctLabels(box)
    ensures match FindLabel(box, lensLabel)
      case Some(i) => WithoutLabel(box, lensLabel) == box[..i] + box[i + 1..]
      case None => WithoutLabel(box, lensLabel) == box
  {
    match FindLabel(box, lensLabel)
    case Some(i) => RemovePresentLabel(box, lensLabel, i);
    case None => WithoutAbsentLabel(box, lensLabel);
  }

  lemma {:induction false} WithoutLabelKeepsDistinct(box: Box, lensLabel: string)
    requires DistinctLabels(box)
    ensures DistinctLabels(WithoutLabel(box, lensLabel))
  {
    RemoveDeletesOne(box, lensLabel);
    match FindLabel(box, lensLabel)
    case Some(i) =>
      var r := box[..i] + box[i + 1..];
      forall p, q | 0 <= p < q < |r| ensures r[p].lensLabel != r[q].lensLabel {
        var p' := if p < i then p else p + 1;
        var q' := if q < i then q else q + 1;
        assert r[p] == box[p'] && r[q] == box[q'];
      }
    case None =>
  }

  /** `label=f` on a present label keeps the box's length and every other lens, and
      changes only that lens's focal length; on an absent label it appends at the end. */
  lemma UpsertEffect(box: Box, lensLabel: string, focalLength: int)
    ensures match FindLabel(box, lensLabel)
      case Some(i) =>
        && |Upsert(box, lensLabel, focalLength)| == |box|
        && Upsert(box, lensLabel, focalLength)[i] == Lens(box[i].lensLabel, focalLength)
        && forall j :: 0 <= j < |box| && j != i ==> Upsert(box, lensLabel, focalLength)[j] == box[j]
      case None => Upsert(box, lensLabel, focalLength) == box + [Lens(lensLabel, focalLength)]
  {
  }

  /** Every step keeps every lens in its own box and the labels of a box distinct. */
  lemma ApplyStepWellPlaced(boxes: seq<Box>, step: Step)
    requires WellPlaced(boxes)
    ensures WellPlaced(ApplyStep(boxes, step))
  {
    var b := Hash(step.lensLabel);
    var r := ApplyStep(boxes, step);
    match step
    case Remove(lensLabel) =>
      WithoutLabelKeepsDistinct(boxes[b], lensLabel);
      WithoutLabelContents(boxes[b], lensLabel);
    case Insert(lensLabel, f) =>
      var box := boxes[b];
      match FindLabel(box, lensLabel)
      case Some(i) =>
        assert r[b] == box[i := Lens(lensLabel, f)];
      case None =>
        assert r[b] == box + [Lens(lensLabel, f)];
        forall i, j | 0 <= i < j < |r[b]| ensures r[b][i].lensLabel != r[b][j].lensLabel {
          if j == |box| {
            assert r[b][i] == box[i];
          } else {
            assert r[b][i] == box[i] && r[b][j] == box[j];
          }
        }
  }

  lemma {:induction false} ApplyStepsWellPlaced(boxes: seq<Box>, steps: seq<Step>)
    requires WellPlaced(boxes)
    ensures WellPlaced(ApplySteps(boxes, steps))
  {
    if steps != [] {
      ApplyStepsWellPlaced(boxes, steps[..|steps| - 1]);
      ApplyStepWellPlaced(ApplySteps(boxes, steps[..|steps| - 1]), steps[|steps| - 1]);
    }
  }

  // ---------------------------------------------------------------------------
  // Focusing power (day15/puzzle2.js getFocusingPower)
  // ---------------------------------------------------------------------------

  /** Sum over the first |box| slots of (boxNumber + 1) * (slot + 1) * focalLength. */
  function BoxPower(boxNumber: int, box: Box): int
  {
    if box == [] then 0
    else BoxPower(boxNumber, box[..|box| - 1]) + (boxNumber + 1) * |box| * box[|box| - 1].focalLength
  }

  /** Sum of the box powers of boxes 0 .. |boxes| - 1. */
  function FocusingPower(boxes: seq<Box>): int
  {
    if boxes == [] then 0
    else FocusingPower(boxes[..|boxes| - 1]) + BoxPower(|boxes| - 1, boxes[|boxes| - 1])
  }

  lemma {:induction false} EmptyBoxesHaveNoPower(boxes: seq<Box>)
    requires forall b :: 0 <= b < |boxes| ==> boxes[b] == []
    ensures FocusingPower(boxes) == 0
  {
    if boxes != [] {
      EmptyBoxesHaveNoPower(boxes[..|boxes| - 1]);
    }
  }

  lemma {:induction false} BoxPowerNonNegative(boxNumber: nat, box: Box)
    requires forall j :: 0 <= j < |box| ==> box[j].focalLength >= 0
    ensures BoxPower(boxNumber, box) >= 0
  {
    if box != [] {
      BoxPowerNonNegative(boxNumber, box[..|box| - 1]);
    }
  }

  // ---------------------------------------------------------------------------
  // Parsing of a step (day15/puzzle2.js lines 7-16)
  // ---------------------------------------------------------------------------

  function IndexOfEquals(s: string): (r: Option<nat>)
    ensures r.Some? ==> r.value < |s| && s[r.value] == '='
    ensures r.Some? ==> forall j :: 0 <= j < r.value ==> s[j] != '='
    ensures r.None? ==> forall j :: 0 <= j < |s| ==> s[j] != '='
  {
    if s == [] then None
    else if s[0] == '=' then Some(0)
    else match IndexOfEquals(s[1..])
      case None => None
      case Some(i) => Some(i + 1)
  }

  /** A step the puzzle input can hold: `label-`, or a label, one `=` and a decimal focal length. */
  predicate WellFormedStep(step: string)
  {
    if |step| > 0 && step[|step| - 1] == '-' then true
    else match IndexOfEquals(step)
      case None => false
      case Some(k) => k + 1 < |step| && forall j :: k + 1 <= j < |step| ==> IsDigit(step[j])
  }

  /** A trailing `-` removes the label before it; otherwise the text before the `=` is the label
      and the digits after it the focal length. */
  function ParseStep(step: string): (r: Step)
    requires WellFormedStep(step)
    ensures r.Remove? <==> (|step| > 0 && step[|step| - 1] == '-')
    ensures r.Remove? ==> step == r.lensLabel + "-"
    ensures r.Insert? ==> '=' !in r.lensLabel && |r.lensLabel| < |step| && step[..|r.lensLabel| + 1] == r.lensLabel + "="
  {
    if |step| > 0 && step[|step| - 1] == '-' then Remove(step[..|step| - 1])
    else
      var k := IndexOfEquals(step).value;
      Insert(step[..k], DecimalValue(step[k + 1..]))
  }

  function ParseSteps(steps: seq<string>): (r: seq<Step>)
    requires forall i :: 0 <= i < |steps| ==> WellFormedStep(steps[i])
    ensures |r| == |steps|
    ensures forall i :: 0 <= i < |steps| ==> r[i] == ParseStep(steps[i])
  {
    seq(|steps|, i requires 0 <= i < |steps| => ParseStep(steps[i]))
  }

  // ---------------------------------------------------------------------------
  // The in-place boxes (day15/puzzle2.js boxContents)
  // ---------------------------------------------------------------------------

  class Facility {
    /** boxContents: 256 boxes, each a list of lenses. */
    var boxes: array<Box>

    ghost predicate Valid()
      reads this, boxes
    {
      boxes.Length == BoxCount && WellPlaced(boxes[..])
    }

    /** `Array.from({ length: 256 }, () => [])`. */
    constructor ()
      ensures Valid() && fresh(boxes)
      ensures boxes[..] == EmptyBoxes()
    {
      boxes := new Box[BoxCount](_ => []);
      new;
      assert boxes[..] == EmptyBoxes();
    }

    /** `label-`: filter the label out of the one box it hashes to. */
    method Remove(lensLabel: string)
      requires Valid()
      modifies boxes
      ensures Valid()
      ensures boxes[..] == ApplyStep(old(boxes[..]), Step.Remove(lensLabel))
    {
      var box := GetBox(lensLabel);
      boxes[box] := WithoutLabel(boxes[box], lensLabel);
      assert boxes[..] == old(boxes[..])[box := WithoutLabel(old(boxes[..])[box], lensLabel)];
      ApplyStepWellPlaced(old(boxes[..]), Step.Remove(lensLabel));
    }

    /** `label=f`: update the found lens in place or push a new one. */
    method Insert(lensLabel: string, lensFocalLength: int)
      requires Valid()
      modifies boxes
      ensures Valid()
      ensures boxes[..] == ApplyStep(old(boxes[..]), Step.Insert(lensLabel, lensFocalLength))
    {
      var box := GetBox(lensLabel);
      match FindLabel(boxes[box], lensLabel)
      case Some(i) =>
        boxes[box] := boxes[box][i := Lens(boxes[box][i].lensLabel, lensFocalLength)];
      case None =>
        boxes[box] := boxes[box] + [Lens(lensLabel, lensFocalLength)];
      assert boxes[..] == old(boxes[..])[box := Upsert(old(boxes[..])[box], lensLabel, lensFocalLength)];
      ApplyStepWellPlaced(old(boxes[..]), Step.Insert(lensLabel, lensFocalLength));
    }

    /** The nested forEach of getFocusingPower. */
    method GetFocusingPower() returns (focusingPower: int)
      requires Valid()
      ensures focusingPower == FocusingPower(boxes[..])
    {
      focusingPower := 0;
      for i := 0 to boxes.Length
        invariant focusingPower == FocusingPower(boxes[..i])
      {
        var boxContent := boxes[i];
        var boxPower := 0;
        for j := 0 to |boxContent|
          invariant boxPower == BoxPower(i, boxContent[..j])
        {
          boxPower := boxPower + (i + 1) * (j + 1) * boxContent[j].focalLength;
          assert boxContent[..j + 1][..j] == boxContent[..j];
        }
        assert boxContent[..|boxContent|] == boxContent;
        assert boxes[..i + 1][..i] == boxes[..i];
        focusingPower := focusingPower + boxPower;
      }
      assert boxes[..boxes.Length] == boxes[..];
    }
  }

  /** day15/puzzle2.js solve: run every step on fresh empty boxes and report the power. */
  method SolvePart2(sequence: seq<string>) returns (power: int)
    requires forall i :: 0 <= i < |sequence| ==> WellFormedStep(sequence[i])
    ensures power == FocusingPower(ApplySteps(EmptyBoxes(), ParseSteps(sequence)))
  {
    var facility := new Facility();
    var steps := ParseSteps(sequence);
    for i := 0 to |sequence|
      invariant fresh(facility.boxes)
      invariant facility.Valid()
      invariant facility.boxes[..] == ApplySteps(EmptyBoxes(), steps[..i])
    {
      ApplyStepsPrefix(EmptyBoxes(), steps, i);
      match steps[i]
      case Remove(lensLabel) => facility.Remove(lensLabel);
      case Insert(lensLabel, f) => facility.Insert(lensLabel, f);
    }
    assert steps[..|sequence|] == steps;
    power := facility.GetFocusingPower();
  }
}
