/** Day 19: machine parts with four ratings are sent through named workflows of rules until
    they are accepted ("A") or rejected ("R"). Part 1 walks each given part; part 2 counts the
    accepted rating combinations of a whole box of parts at once by splitting the box. */
module Day19Aplenty {
  import opened Common

  const InitialWorkflowName := "in"
  const AcceptedWorkflowName := "A"
  const RejectedWorkflowName := "R"

  /** The four ratings, x, m, a and s. */
  datatype Category = Cool | Musical | Aerodynamic | Shiny

  datatype Part = Part(x: int, m: int, a: int, s: int)

  function Rating(p: Part, c: Category): int
  {
    match c
    case Cool => p.x
    case Musical => p.m
    case Aerodynamic => p.a
    case Shiny => p.s
  }

  /** A condition such as `a<2006`: the category, the operator character and the amount. */
  datatype Condition = Condition(category: Category, op: char, amount: int)

  /** A rule with no condition sends everything to its destination. */
  datatype Rule = Rule(condition: Option<Condition>, destination: string)

  type Workflows = map<string, seq<Rule>>

  function CategoryOf(c: char): Option<Category>
  {
    if c == 'x' then Some(Cool)
    else if c == 'm' then Some(Musical)
    else if c == 'a' then Some(Aerodynamic)
    else if c == 's' then Some(Shiny)
    else None
  }

  predicate IsConditionText(text: string)
  {
    |text| >= 3 && CategoryOf(text[0]).Some? && forall i :: 2 <= i < |text| ==> IsDigit(text[i])
  }

  /** The first character names the category, the second is the operator, the rest the amount. */
  function ParseCondition(text: string): (c: Condition)
    requires IsConditionText(text)
    ensures Some(c.category) == CategoryOf(text[0]) && c.op == text[1] && c.amount == DecimalValue(text[2..])
  {
    Condition(CategoryOf(text[0]).value, text[1], DecimalValue(text[2..]))
  }

  lemma ParseConditionSample()
    ensures ParseCondition("a<2006") == Condition(Aerodynamic, '<', 2006)
    ensures ParseCondition("m>2090") == Condition(Musical, '>', 2090)
  {
    assert "a<2006"[2..] == "2006" && "2006"[..3] == "200" && "200"[..2] == "20" && "20"[..1] == "2" && "2"[..0] == "";
    assert "m>2090"[2..] == "2090" && "2090"[..3] == "209" && "209"[..2] == "20";
  }

  /** The operator `<` is a strict less-than; any other operator is taken as a strict greater-than. */
  predicate Satisfies(cond: Option<Condition>, p: Part)
  {
    match cond
    case None => true
    case Some(c) => if c.op == '<' then Rating(p, c.category) < c.amount else Rating(p, c.category) > c.amount
  }

  // ===========================================================================
  // Part 1: one part at a time
  // ===========================================================================

  /** The destination of the first rule whose condition the part satisfies. */
  function FirstMatch(rules: seq<Rule>, p: Part): (d: Option<string>)
    ensures d.Some? <==> exists i :: 0 <= i < |rules| && Satisfies(rules[i].condition, p)
    ensures d.Some? ==> exists i :: 0 <= i < |rules| && Satisfies(rules[i].condition, p) &&
                                   rules[i].destination == d.value &&
                                   forall j :: 0 <= j < i ==> !Satisfies(rules[j].condition, p)
  {
    if rules == [] then None
    else if Satisfies(rules[0].condition, p) then Some(rules[0].destination)
    else
      var d := FirstMatch(rules[1..], p);
      assert forall i :: 1 <= i < |rules| ==> rules[i] == rules[1..][i - 1];
      if d.Some? then
        var k :| 0 <= k < |rules[1..]| && Satisfies(rules[1..][k].condition, p) && rules[1..][k].destination == d.value &&
                 forall j :: 0 <= j < k ==> !Satisfies(rules[1..][j].condition, p);
        assert forall j :: 0 <= j < k + 1 ==> !Satisfies(rules[j].condition, p) by {
          forall j | 0 <= j < k + 1
            ensures !Satisfies(rules[j].condition, p)
          {
            if j > 0 {
              assert rules[j] == rules[1..][j - 1];
            }
          }
        }
        d
      else
        d
  }

  /** What a walk ends in: accepted, rejected, or a workflow none of whose rules matched (the
      source's function then returns nothing, which its caller treats as not accepted). */
  datatype Verdict = Accepted | Rejected | Unmatched

  /** The walk of a part from a workflow. None stands for the walk failing: a missing workflow,
      or more than `fuel` workflows visited. */
  function IsAcceptedPart(workflows: Workflows, p: Part, name: string, fuel: nat): Option<Verdict>
    decreases fuel
  {
    if name == AcceptedWorkflowName then Some(Accepted)
    else if name == RejectedWorkflowName then Some(Rejected)
    else if fuel == 0 || name !in workflows then None
    else
      match FirstMatch(workflows[name], p)
      case None => Some(Unmatched)
      case Some(destination) => IsAcceptedPart(workflows, p, destination, fuel - 1)
  }

  /** A walk that finishes within some fuel finishes the same way with any more fuel. */
  lemma {:induction false} AcceptedFuelIndependent(workflows: Workflows, p: Part, name: string, fuel: nat, more: nat)
    requires fuel <= more && IsAcceptedPart(workflows, p, name, fuel).Some?
    ensures IsAcceptedPart(workflows, p, name, more) == IsAcceptedPart(workflows, p, name, fuel)
    decreases fuel
  {
    if name != AcceptedWorkflowName && name != RejectedWorkflowName {
      match FirstMatch(workflows[name], p)
      case None =>
      case Some(destination) => AcceptedFuelIndependent(workflows, p, destination, fuel - 1, more - 1);
    }
  }

  /** The last rule of every workflow has no condition, as the loader builds it. */
  predicate LastRuleUnconditional(workflows: Workflows)
  {
    forall name :: name in workflows ==> |workflows[name]| > 0 && workflows[name][|workflows[name]| - 1].condition.None?
  }

  /** With an unconditional last rule some rule always matches, so no walk ends unmatched. */
  lemma {:induction false} NeverUnmatched(workflows: Workflows, p: Part, name: string, fuel: nat)
    requires LastRuleUnconditional(workflows)
    ensures IsAcceptedPart(workflows, p, name, fuel) != Some(Unmatched)
    decreases fuel
  {
    if name != AcceptedWorkflowName && name != RejectedWorkflowName && fuel > 0 && name in workflows {
      var rules := workflows[name];
      assert Satisfies(rules[|rules| - 1].condition, p);
      var d := FirstMatch(rules, p);
      NeverUnmatched(workflows, p, d.value, fuel - 1);
    }
  }

  function GetRating(p: Part): int
  {
    p.x + p.m + p.a + p.s
  }

  /** The sum of the ratings of the accepted parts; None when some walk fails. */
  function SumAcceptedRatings(workflows: Workflows, parts: seq<Part>, fuel: nat): Option<int>
  {
    if parts == [] then Some(0)
    else
      var rest := SumAcceptedRatings(workflows, parts[..|parts| - 1], fuel);
      var p := parts[|parts| - 1];
      match IsAcceptedPart(workflows, p, InitialWorkflowName, fuel)
      case None => None
      case Some(v) =>
        if rest.None? then None
        else Some(rest.value + (if v == Accepted then GetRating(p) else 0))
  }

  /** The accepted parts, in order. */
  function AcceptedParts(workflows: Workflows, parts: seq<Part>, fuel: nat): seq<Part>
  {
    if parts == [] then []
    else
      var p := parts[|parts| - 1];
      AcceptedParts(workflows, parts[..|parts| - 1], fuel) +
      (if IsAcceptedPart(workflows, p, InitialWorkflowName, fuel) == Some(Accepted) then [p] else [])
  }

  function RatingsOf(parts: seq<Part>): seq<int>
  {
    seq(|parts|, i requires 0 <= i < |parts| => GetRating(parts[i]))
  }

  /** When every walk succeeds, the sum is that of the ratings of the accepted parts. */
  lemma {:induction false} SumIsOverAccepted(workflows: Workflows, parts: seq<Part>, fuel: nat)
    requires forall i :: 0 <= i < |parts| ==> IsAcceptedPart(workflows, parts[i], InitialWorkflowName, fuel).Some?
    ensures SumAcceptedRatings(workflows, parts, fuel) == Some(Sum(RatingsOf(AcceptedParts(workflows, parts, fuel))))
  {
    if parts != [] {
      var prefix, p := parts[..|parts| - 1], parts[|parts| - 1];
      assert forall i :: 0 <= i < |prefix| ==> prefix[i] == parts[i];
      SumIsOverAccepted(workflows, prefix, fuel);
      var before := AcceptedParts(workflows, prefix, fuel);
      var extra := if IsAcceptedPart(workflows, p, InitialWorkflowName, fuel) == Some(Accepted) then [p] else [];
      assert RatingsOf(before + extra) == RatingsOf(before) + RatingsOf(extra);
      SumAppend(RatingsOf(before), RatingsOf(extra));
      if extra != [] {
        assert RatingsOf(extra) == [GetRating(p)];
        assert Sum([GetRating(p)]) == GetRating(p) by {
          assert [GetRating(p)][..0] == [];
        }
      }
    }
  }

  /** The forEach over the parts of solve. */
  method SolvePart1(workflows: Workflows, parts: seq<Part>, fuel: nat) returns (sum: Option<int>)
    ensures sum == SumAcceptedRatings(workflows, parts, fuel)
  {
    var total := 0;
    var k := 0;
    while k < |parts|
      invariant 0 <= k <= |parts|
      invariant SumAcceptedRatings(workflows, parts[..k], fuel) == Some(total)
    {
      assert parts[..k + 1][..k] == parts[..k];
      var verdict := IsAcceptedPart(workflows, parts[k], InitialWorkflowName, fuel);
      if verdict.None? {
        NoneStaysNone(workflows, parts, fuel, k + 1);
        return None;
      }
      if verdict.value == Accepted {
        total := total + GetRating(parts[k]);
      }
      k := k + 1;
    }
    assert parts[..k] == parts;
    sum := Some(total);
  }

  /** A walk that fails makes the whole sum fail. */
  lemma {:induction false} NoneStaysNone(workflows: Workflows, parts: seq<Part>, fuel: nat, n: nat)
    requires 0 < n <= |parts| && IsAcceptedPart(workflows, parts[n - 1], InitialWorkflowName, fuel).None?
    ensures SumAcceptedRatings(workflows, parts, fuel).None?
    decreases |parts|
  {
    if n < |parts| {
      var prefix := parts[..|parts| - 1];
      assert prefix[n - 1] == parts[n - 1];
      NoneStaysNone(workflows, prefix, fuel, n);
    } else {
      assert parts[|parts| - 1] == parts[n - 1];
    }
  }

  // ===========================================================================
  // Part 2: whole boxes of parts
  // ===========================================================================

  /** The inclusive range [lo, hi] of one rating. */
  datatype Interval = Interval(lo: int, hi: int)

  /** A box of parts: one range per category. */
  datatype PartBox = PartBox(x: Interval, m: Interval, a: Interval, s: Interval)

  const StartBox := PartBox(Interval(1, 4000), Interval(1, 4000), Interval(1, 4000), Interval(1, 4000))

  function Range(box: PartBox, c: Category): Interval
  {
    match c
    case Cool => box.x
    case Musical => box.m
    case Aerodynamic => box.a
    case Shiny => box.s
  }

  /** The box with the range of one category replaced, as an object spread does. */
  function WithRange(box: PartBox, c: Category, iv: Interval): (b: PartBox)
    ensures Range(b, c) == iv
    ensures forall d :: d != c ==> Range(b, d) == Range(box, d)
  {
    match c
    case Cool => box.(x := iv)
    case Musical => box.(m := iv)
    case Aerodynamic => box.(a := iv)
    case Shiny => box.(s := iv)
  }

  predicate Contains(box: PartBox, p: Part)
  {
    forall c :: Range(box, c).lo <= Rating(p, c) <= Range(box, c).hi
  }

  predicate NonEmpty(box: PartBox)
  {
    forall c :: Range(box, c).lo <= Range(box, c).hi
  }

  function Width(iv: Interval): int
  {
    iv.hi - iv.lo + 1
  }

  /** The number of rating combinations in a box. */
  function Size(box: PartBox): int
  {
    Width(box.x) * Width(box.m) * Width(box.a) * Width(box.s)
  }

  /** The part of a box that satisfies a condition and the part that does not; None for a part
      that would be empty. */
  datatype SplitResult = SplitResult(validParts: Option<PartBox>, invalidParts: Option<PartBox>)

  function SplitByCondition(box: PartBox, cond: Option<Condition>): SplitResult
  {
    match cond
    case None => SplitResult(Some(box), None)
    case Some(c) =>
      var left, right := Range(box, c.category).lo, Range(box, c.category).hi;
      if c.op == '<' then
        if c.amount <= left then SplitResult(None, Some(box))
        else if c.amount > right then SplitResult(Some(box), None)
        else SplitResult(Some(WithRange(box, c.category, Interval(left, c.amount - 1))),
                         Some(WithRange(box, c.category, Interval(c.amount, right))))
      else
        if c.amount >= right then SplitResult(None, Some(box))
        else if c.amount < left then SplitResult(Some(box), None)
        else SplitResult(Some(WithRange(box, c.category, Interval(c.amount + 1, right))),
                         Some(WithRange(box, c.category, Interval(left, c.amount))))
  }

  function OptContains(box: Option<PartBox>, p: Part): bool
  {
    box.Some? && Contains(box.value, p)
  }

  /** The split of a non-empty box: the two parts are non-empty, the valid part holds exactly
      the parts of the box that satisfy the condition and the invalid part exactly those that
      do not, and each differs from the box at most in the tested category. */
  lemma SplitPartition(box: PartBox, cond: Option<Condition>)
    requires NonEmpty(box)
    ensures var r := SplitByCondition(box, cond);
      (r.validParts.Some? || r.invalidParts.Some?) &&
      (r.validParts.Some? ==> NonEmpty(r.validParts.value)) &&
      (r.invalidParts.Some? ==> NonEmpty(r.invalidParts.value)) &&
      (forall p :: OptContains(r.validParts, p) <==> Contains(box, p) && Satisfies(cond, p)) &&
      (forall p :: OptContains(r.invalidParts, p) <==> Contains(box, p) && !Satisfies(cond, p))
    ensures var r := SplitByCondition(box, cond);
      cond.Some? ==> forall d :: d != cond.value.category ==>
        (r.validParts.Some? ==> Range(r.validParts.value, d) == Range(box, d)) &&
        (r.invalidParts.Some? ==> Range(r.invalidParts.value, d) == Range(box, d))
  {
    var r := SplitByCondition(box, cond);
    if cond.Some? {
      var c := cond.value;
      forall p
        ensures OptContains(r.validParts, p) <==> Contains(box, p) && Satisfies(cond, p)
        ensures OptContains(r.invalidParts, p) <==> Contains(box, p) && !Satisfies(cond, p)
      {
        ContainsSplit(box, p, c.category);
        if r.validParts.Some? {
          ContainsSplit(r.validParts.value, p, c.category);
        }
        if r.invalidParts.Some? {
          ContainsSplit(r.invalidParts.value, p, c.category);
        }
      }
    }
  }

  /** Membership in a box is membership in the tested range plus the other three ranges. */
  lemma ContainsSplit(box: PartBox, p: Part, c: Category)
    ensures Contains(box, p) <==>
      ((Range(box, c).lo <= Rating(p, c) <= Range(box, c).hi) &&
       forall d :: d != c ==> Range(box, d).lo <= Rating(p, d) <= Range(box, d).hi)
  {
  }

  function OptSize(box: Option<PartBox>): int
  {
    if box.Some? then Size(box.value) else 0
  }

  /** The size of a box is the width of one range times the widths of the other three. */
  function OtherWidths(box: PartBox, c: Category): int
  {
    match c
    case Cool => Width(box.m) * Width(box.a) * Width(box.s)
    case Musical => Width(box.x) * Width(box.a) * Width(box.s)
    case Aerodynamic => Width(box.x) * Width(box.m) * Width(box.s)
    case Shiny => Width(box.x) * Width(box.m) * Width(box.a)
  }

  lemma SizeFactor(box: PartBox, c: Category)
    ensures Size(box) == Width(Range(box, c)) * OtherWidths(box, c)
  {
    var x, m, a, s := Width(box.x), Width(box.m), Width(box.a), Width(box.s);
    match c
    case Cool =>
    case Musical => assert x * m * a * s == m * (x * a * s);
    case Aerodynamic => assert x * m * a * s == a * (x * m * s);
    case Shiny =>
  }

  lemma OtherWidthsKept(box: PartBox, c: Category, iv: Interval)
    ensures OtherWidths(WithRange(box, c, iv), c) == OtherWidths(box, c)
  {
  }

  /** The sizes of the two parts add up to the size of the box. */
  lemma SplitSizes(box: PartBox, cond: Option<Condition>)
    requires NonEmpty(box)
    ensures var r := SplitByCondition(box, cond);
      OptSize(r.validParts) + OptSize(r.invalidParts) == Size(box)
  {
    var r := SplitByCondition(box, cond);
    if cond.Some? && r.validParts.Some? && r.invalidParts.Some? {
      var c := cond.value.category;
      var v, w := r.validParts.value, r.invalidParts.value;
      var others := OtherWidths(box, c);
      SizeFactor(box, c);
      SizeFactor(v, c);
      SizeFactor(w, c);
      OtherWidthsKept(box, c, Range(v, c));
      OtherWidthsKept(box, c, Range(w, c));
      assert Width(Range(v, c)) + Width(Range(w, c)) == Width(Range(box, c));
      assert Width(Range(v, c)) * others + Width(Range(w, c)) * others == Width(Range(box, c)) * others;
    }
  }

  /** The count of accepted combinations in a box sent to a workflow; None when the walk fails:
      a missing workflow, or more than `fuel` workflows deep. */
  function CountAccepted(workflows: Workflows, box: PartBox, name: string, fuel: nat): Option<int>
    decreases fuel, 0
  {
    if name == AcceptedWorkflowName then Some(Size(box))
    else if name == RejectedWorkflowName then Some(0)
    else if fuel == 0 || name !in workflows then None
    else CountRules(workflows, workflows[name], box, fuel - 1)
  }

  /** The rules applied in order, each to what the earlier ones did not take; the walk stops
      when nothing is left. */
  function CountRules(workflows: Workflows, rules: seq<Rule>, box: PartBox, fuel: nat): Option<int>
    decreases fuel, 1, |rules|
  {
    if rules == [] then Some(0)
    else
      var r := SplitByCondition(box, rules[0].condition);
      var here := if r.validParts.Some? then CountAccepted(workflows, r.validParts.value, rules[0].destination, fuel) else Some(0);
      if here.None? then None
      else if r.invalidParts.None? then here
      else
        var rest := CountRules(workflows, rules[1..], r.invalidParts.value, fuel);
        if rest.None? then None else Some(here.value + rest.value)
  }

  /** The product over the four categories, in the order x, m, a, s. */
  method BoxSize(box: PartBox) returns (size: int)
    ensures size == Size(box)
  {
    var categories := [Cool, Musical, Aerodynamic, Shiny];
    size := 1;
    for k := 0 to 4
      invariant size == WidthProduct(box, categories[..k])
    {
      assert categories[..k + 1][..k] == categories[..k];
      size := size * Width(Range(box, categories[k]));
    }
    assert categories[..4] == categories;
    assert categories[..3] == [Cool, Musical, Aerodynamic] && categories[..3][..2] == [Cool, Musical];
    assert [Cool, Musical][..1] == [Cool] && [Cool][..0] == [];
    assert WidthProduct(box, [Cool]) == Width(box.x);
    assert WidthProduct(box, [Cool, Musical]) == Width(box.x) * Width(box.m);
    assert WidthProduct(box, [Cool, Musical, Aerodynamic]) == Width(box.x) * Width(box.m) * Width(box.a);
  }

  function WidthProduct(box: PartBox, cs: seq<Category>): int
  {
    if cs == [] then 1 else WidthProduct(box, cs[..|cs| - 1]) * Width(Range(box, cs[|cs| - 1]))
  }

  /** getAcceptedPartsCount: the loop over the rules keeps the count so far and the part of the
      box no rule has taken yet, recursing into each destination. */
  method GetAcceptedPartsCount(workflows: Workflows, box: PartBox, name: string, fuel: nat) returns (count: Option<int>)
    ensures count == CountAccepted(workflows, box, name, fuel)
    decreases fuel
  {
    if name == AcceptedWorkflowName {
      var size := BoxSize(box);
      return Some(size);
    }
    if name == RejectedWorkflowName {
      return Some(0);
    }
    if fuel == 0 || name !in workflows {
      return None;
    }
    var rules := workflows[name];
    var currentPossibleParts := box;
    var acceptedPartsCount := 0;
    var k := 0;
    var stopped := false;
    while k < |rules| && !stopped
      invariant 0 <= k <= |rules|
      invariant !stopped ==>
        CountAccepted(workflows, box, name, fuel) ==
        Plus(acceptedPartsCount, CountRules(workflows, rules[k..], currentPossibleParts, fuel - 1))
      invariant stopped ==> CountAccepted(workflows, box, name, fuel) == Some(acceptedPartsCount)
      decreases |rules| - k, if stopped then 0 else 1
    {
      var r := SplitByCondition(currentPossibleParts, rules[k].condition);
      assert rules[k..][0] == rules[k] && rules[k..][1..] == rules[k + 1..];
      if r.validParts.Some? {
        var here := GetAcceptedPartsCount(workflows, r.validParts.value, rules[k].destination, fuel - 1);
        if here.None? {
          return None;
        }
        acceptedPartsCount := acceptedPartsCount + here.value;
      }
      if r.invalidParts.None? {
        stopped := true;
      } else {
        currentPossibleParts := r.invalidParts.value;
        k := k + 1;
      }
    }
    count := Some(acceptedPartsCount);
  }

  function Plus(a: int, b: Option<int>): Option<int>
  {
    if b.None? then None else Some(a + b.value)
  }

  /** Part 2: the accepted combinations among ratings 1 to 4000. */
  method SolvePart2(workflows: Workflows, fuel: nat) returns (count: Option<int>)
    ensures count == CountAccepted(workflows, StartBox, InitialWorkflowName, fuel)
  {
    count := GetAcceptedPartsCount(workflows, StartBox, InitialWorkflowName, fuel);
  }

  // ---------------------------------------------------------------------------
  // What the count means
  // ---------------------------------------------------------------------------

  /** A non-empty box never yields more combinations than it holds, nor fewer than none. */
  lemma {:induction false} CountBounded(workflows: Workflows, box: PartBox, name: string, fuel: nat)
    requires NonEmpty(box)
    ensures CountAccepted(workflows, box, name, fuel).Some? ==> 0 <= CountAccepted(workflows, box, name, fuel).value <= Size(box)
    decreases fuel, 0
  {
    SizePositive(box);
    if name != AcceptedWorkflowName && name != RejectedWorkflowName && fuel > 0 && name in workflows {
      RulesBounded(workflows, workflows[name], box, fuel - 1);
    }
  }

  lemma {:induction false} RulesBounded(workflows: Workflows, rules: seq<Rule>, box: PartBox, fuel: nat)
    requires NonEmpty(box)
    ensures CountRules(workflows, rules, box, fuel).Some? ==> 0 <= CountRules(workflows, rules, box, fuel).value <= Size(box)
    decreases fuel, 1, |rules|
  {
    SizePositive(box);
    if rules != [] {
      var r := SplitByCondition(box, rules[0].condition);
      SplitPartition(box, rules[0].condition);
      SplitSizes(box, rules[0].condition);
      if r.validParts.Some? {
        CountBounded(workflows, r.validParts.value, rules[0].destination, fuel);
        SizePositive(r.validParts.value);
      }
      if r.invalidParts.Some? {
        RulesBounded(workflows, rules[1..], r.invalidParts.value, fuel);
        SizePositive(r.invalidParts.value);
      }
    }
  }

  lemma SizePositive(box: PartBox)
    requires NonEmpty(box)
    ensures Size(box) >= 1
  {
    assert Range(box, Cool).lo <= Range(box, Cool).hi && Range(box, Musical).lo <= Range(box, Musical).hi;
    assert Range(box, Aerodynamic).lo <= Range(box, Aerodynamic).hi && Range(box, Shiny).lo <= Range(box, Shiny).hi;
    var x, m, a, s := Width(box.x), Width(box.m), Width(box.a), Width(box.s);
    assert x * m >= 1;
    assert x * m * a >= 1;
  }

  /** The box holding one part only. */
  function Single(p: Part): PartBox
  {
    PartBox(Interval(p.x, p.x), Interval(p.m, p.m), Interval(p.a, p.a), Interval(p.s, p.s))
  }

  /** A one-part box is never cut: it goes whole to the valid side when the part satisfies the
      condition and whole to the invalid side otherwise. */
  lemma SplitSingle(p: Part, cond: Option<Condition>)
    ensures SplitByCondition(Single(p), cond) ==
      if Satisfies(cond, p) then SplitResult(Some(Single(p)), None) else SplitResult(None, Some(Single(p)))
  {
  }

  function CountOfVerdict(v: Option<Verdict>): Option<int>
  {
    match v
    case None => None
    case Some(Accepted) => Some(1)
    case Some(_) => Some(0)
  }

  /** Counting the box of a single part agrees with walking the part: 1 when it is accepted, 0
      when it is rejected or unmatched, and failure exactly when the walk fails. */
  lemma {:induction false} SingleCountIsWalk(workflows: Workflows, p: Part, name: string, fuel: nat)
    ensures CountAccepted(workflows, Single(p), name, fuel) == CountOfVerdict(IsAcceptedPart(workflows, p, name, fuel))
    decreases fuel, 0
  {
    if name == AcceptedWorkflowName {
      assert Size(Single(p)) == 1;
    } else if name != RejectedWorkflowName && fuel > 0 && name in workflows {
      SingleRulesIsFirstMatch(workflows, workflows[name], p, fuel - 1);
      var d := FirstMatch(workflows[name], p);
      if d.Some? {
        SingleCountIsWalk(workflows, p, d.value, fuel - 1);
      }
    }
  }

  lemma {:induction false} SingleRulesIsFirstMatch(workflows: Workflows, rules: seq<Rule>, p: Part, fuel: nat)
    ensures CountRules(workflows, rules, Single(p), fuel) ==
      match FirstMatch(rules, p)
      case None => Some(0)
      case Some(d) => CountAccepted(workflows, Single(p), d, fuel)
    decreases fuel, 1, |rules|
  {
    if rules != [] {
      SplitSingle(p, rules[0].condition);
      if !Satisfies(rules[0].condition, p) {
        SingleRulesIsFirstMatch(workflows, rules[1..], p, fuel);
      }
    }
  }
}
