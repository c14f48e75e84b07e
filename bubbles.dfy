/**
 * The arithmetic and string rules of the bubble chart: the colour policy of
 * updateBubbles, the hover radius, label visibility and the label line splitter.
 * Circle positions and radii come from d3's pack layout, which is not modelled:
 * radii are inputs here.
 */
module Bubbles {
  import opened JsValues
  import opened Records

  /** A `group` that is a count. */
  predicate AllWeighted(data: seq<Bubble>) {
    forall i | 0 <= i < |data| :: data[i].group.Weight?
  }

  /** d3.max over the counts of the data. */
  function MaxCount(data: seq<Bubble>): (m: int)
    requires |data| > 0 && AllWeighted(data)
    ensures exists i | 0 <= i < |data| :: data[i].group.count == m
    ensures forall i | 0 <= i < |data| :: data[i].group.count <= m
  {
    if |data| == 1 then data[0].group.count
    else
      var rest := MaxCount(data[1..]);
      assert forall i | 1 <= i < |data| :: data[i] == data[1..][i - 1];
      if data[0].group.count >= rest then data[0].group.count else rest
  }

  /**
   * toColorGradient of updateBubbles: a linear ramp from black to the gradient
   * colour over a domain, or the fallback `color || default`.
   */
  datatype ColorPolicy =
    | Gradient(lo: real, hi: real, target: Color)
    | Fallback(default: Color)

  /**
   * The policy chosen for a render: a gradient over [1, 1.5 * max] when a
   * gradient colour is given and there is data; the gradient colour itself when
   * there is none; black when no gradient colour is given.
   */
  function PolicyFor(gradientColor: Option<Color>, data: seq<Bubble>): (p: ColorPolicy)
    requires gradientColor.Some? && |data| > 0 ==> AllWeighted(data)
    ensures p.Gradient? <==> gradientColor.Some? && |data| > 0
    ensures p.Gradient? ==>
      && p.lo == 1.0 && p.target == gradientColor.value
      && (forall i | 0 <= i < |data| :: data[i].group.count as real * 1.5 <= p.hi)
      && (exists i | 0 <= i < |data| :: data[i].group.count as real * 1.5 == p.hi)
    ensures gradientColor.Some? && data == [] ==> p == Fallback(gradientColor.value)
    ensures gradientColor.None? ==> p == Fallback(Black)
  {
    match gradientColor
    case Some(c) =>
      if |data| > 0 then Gradient(1.0, MaxCount(data) as real * 1.5, c) else Fallback(c)
    case None => Fallback(Black)
  }

  /** What a circle is filled with. */
  datatype Fill =
    | Paint(color: Color)
    | Ramp(at: real, lo: real, hi: real, target: Color)  // the scale's colour at `at`
    | Invalid                                           // a value no colour parses from

  /** Applying the policy to a datum's group. */
  function FillOf(policy: ColorPolicy, group: Group): (f: Fill)
    ensures policy.Fallback? && group.Hue? ==> f == Paint(group.color)
    ensures policy.Fallback? && (group == NoGroup || group == Weight(0)) ==> f == Paint(policy.default)
    ensures policy.Gradient? && group.Weight? ==>
      f == Ramp(group.count as real, policy.lo, policy.hi, policy.target)
  {
    match policy
    case Gradient(lo, hi, target) =>
      if group.Weight? then Ramp(group.count as real, lo, hi, target) else Invalid
    case Fallback(default) =>
      match group
      case Hue(c) => Paint(c)
      case Weight(n) => if n == 0 then Paint(default) else Invalid
      case NoGroup => Paint(default)
  }

  /** Counts 10 and 20 give the gradient domain [1, 30]. */
  lemma GradientDomainExample(a: Bubble, b: Bubble)
    requires a.group == Weight(10) && b.group == Weight(20)
    ensures PolicyFor(Some(Primary), [a, b]) == Gradient(1.0, 30.0, Primary)
  {
    var data := [a, b];
    var m := MaxCount(data);
    assert m == 10 || m == 20;
    assert m >= data[1].group.count;
  }

  function Min(a: real, b: real): real {
    if a <= b then a else b
  }

  /**
   * calculateHoverBubbleRadius: min(1000 / r, 50) + r. For r = 0 the division
   * gives Infinity in JavaScript and the minimum is 50.
   */
  function HoverRadius(r: real): (h: real)
    requires r >= 0.0
    ensures r > 0.0 ==> r < h <= r + 50.0
    ensures r > 0.0 ==> (h == r + 50.0 <==> r <= 20.0)
    ensures r > 0.0 ==> h > 50.0
    ensures r == 0.0 ==> h == 50.0
  {
    if r == 0.0 then 50.0
    else
      HoverBumpFacts(r);
      Min(1000.0 / r, 50.0) + r
  }

  lemma HoverBumpFacts(r: real)
    requires r > 0.0
    ensures 1000.0 / r > 0.0
    ensures 1000.0 / r >= 50.0 <==> r <= 20.0
    ensures 1000.0 / r + r > 50.0
  {
    var q := 1000.0 / r;
    assert q * r == 1000.0;
    if r <= 20.0 {
      assert q * r <= q * 20.0;
    } else {
      assert q * r > q * 20.0;
    }
    // (r - 25)^2 + 375 > 0, divided by r
    var d := r - 25.0;
    if d >= 0.0 {
      assert d * d >= 0.0;
    } else {
      assert (-d) * (-d) >= 0.0;
    }
    assert d * d == r * r - 50.0 * r + 625.0;
    assert r * r - 50.0 * r + 1000.0 > 0.0;
    assert (q + r - 50.0) * r == 1000.0 + r * r - 50.0 * r;
  }

  lemma HoverExamples()
    ensures HoverRadius(50.0) == 70.0
    ensures HoverRadius(5.0) == 55.0
  {
  }

  /**
   * updateBubbleText's label colour: white when the radius it is shown at
   * (enlarged while hovered) exceeds 50, else transparent.
   */
  function LabelFill(hovered: bool, r: real): (c: Color)
    requires r >= 0.0
    ensures c in {White, Transparent}
    ensures !hovered ==> (c == White <==> r > 50.0)
    ensures hovered && r > 0.0 ==> c == White
    ensures hovered && r == 0.0 ==> c == Transparent
  {
    if (if hovered then HoverRadius(r) else r) > 50.0 then White else Transparent
  }

  /** The attributes a circle and its label carry at rest or under the pointer. */
  datatype CircleStyle = CircleStyle(r: real, fill: Fill, opacity: real, labelFill: Color)

  /** The `fill-opacity` a circle is given when it enters, and again on mouse-out. */
  const RestingOpacity: real := 0.7

  /**
   * The update pass: radius `d.r || 0`, the group's fill and the label shown
   * iff r > 50; it does not touch `fill-opacity`, so that stays as it was.
   */
  function UpdateStyle(r: real, group: Group, policy: ColorPolicy, opacity: real): (s: CircleStyle)
    requires r >= 0.0
    ensures s.r == r && s.fill == FillOf(policy, group) && s.opacity == opacity
    ensures s.labelFill == White <==> r > 50.0
  {
    CircleStyle(r, FillOf(policy, group), opacity, LabelFill(false, r))
  }

  /** At rest: the opacity set on enter, with the radius, fill and label rule of the update pass. */
  function RestingStyle(r: real, group: Group, policy: ColorPolicy): (s: CircleStyle)
    requires r >= 0.0
    ensures s.r == r && s.fill == FillOf(policy, group) && s.opacity == 0.7
    ensures s.labelFill == White <==> r > 50.0
    ensures s == UpdateStyle(r, group, policy, RestingOpacity)
  {
    CircleStyle(r, FillOf(policy, group), RestingOpacity, LabelFill(false, r))
  }

  /** mouseover: enlarged radius, the secondary colour, opacity 0.8, enlarged-radius label rule. */
  function HoverStyle(r: real): (s: CircleStyle)
    requires r >= 0.0
    ensures s.r == HoverRadius(r) && s.fill == Paint(Secondary) && s.opacity == 0.8
    ensures r > 0.0 ==> s.r > r && s.labelFill == White
    ensures r == 0.0 ==> s.r == 50.0 && s.labelFill == Transparent
  {
    CircleStyle(HoverRadius(r), Paint(Secondary), 0.8, LabelFill(true, r))
  }

  /** mouseout: back to `d.r`, the group's fill, opacity 0.7 and the resting label rule. */
  function MouseOutStyle(r: real, group: Group, policy: ColorPolicy): (s: CircleStyle)
    requires r >= 0.0
    ensures s == RestingStyle(r, group, policy)
  {
    CircleStyle(r, FillOf(policy, group), RestingOpacity, LabelFill(false, r))
  }

  // ---- the label splitter: name.split(/(?=[A-Z][^A-Z])/g) ----

  predicate IsUpper(c: char) {
    'A' <= c <= 'Z'
  }

  /**
   * Position q of s is where split cuts: the lookahead matches there (an
   * upper-case letter followed by a character that is not one), and q is
   * neither the start of the string (an empty match at the last cut is skipped)
   * nor past its end.
   */
  predicate IsCut(s: string, q: int) {
    0 < q && q + 1 < |s| && IsUpper(s[q]) && !IsUpper(s[q + 1])
  }

  /** The first cut at or after `from`, or |s| when there is none. */
  function NextCut(s: string, from: nat): (q: nat)
    requires from >= 1
    ensures q == |s| || (from <= q < |s| && IsCut(s, q))
    ensures forall p | from <= p < q :: !IsCut(s, p)
    ensures q <= |s| || from > |s|
    ensures q == |s| ==> forall p | from <= p < |s| :: !IsCut(s, p)
    decreases |s| - from
  {
    if from >= |s| then |s|
    else if IsCut(s, from) then from
    else NextCut(s, from + 1)
  }

  /** The lines of a label, one tspan each. */
  function SplitLabel(s: string): (lines: seq<string>)
    ensures |lines| >= 1
    decreases |s|
  {
    var q := NextCut(s, 1);
    if q >= |s| then [s] else [s[..q]] + SplitLabel(s[q..])
  }

  function Concat(lines: seq<string>): string {
    if lines == [] then "" else lines[0] + Concat(lines[1..])
  }

  lemma CutShift(s: string, q: nat, p: nat)
    requires 0 < q <= |s| && p > 0
    ensures IsCut(s[q..], p) <==> IsCut(s, q + p)
  {
  }

  /** Splitting loses nothing: the lines joined give back the name. */
  lemma {:induction false} SplitLabelJoins(s: string)
    ensures Concat(SplitLabel(s)) == s
    decreases |s|
  {
    var q := NextCut(s, 1);
    if q < |s| {
      SplitLabelJoins(s[q..]);
      assert s[..q] + s[q..] == s;
    }
  }

  /**
   * Every line but the first starts with an upper-case letter followed by a
   * character that is not one, no line is empty unless the name is, and no line
   * holds a cut of its own.
   */
  lemma {:induction false} SplitLabelLines(s: string)
    ensures |SplitLabel(s)| == 1 <==> forall p | 0 <= p < |s| :: !IsCut(s, p)
    ensures forall k | 1 <= k < |SplitLabel(s)| ::
      |SplitLabel(s)[k]| >= 2 && IsUpper(SplitLabel(s)[k][0]) && !IsUpper(SplitLabel(s)[k][1])
    ensures s != "" ==> forall k | 0 <= k < |SplitLabel(s)| :: SplitLabel(s)[k] != ""
    ensures forall k, p | 0 <= k < |SplitLabel(s)| && 0 <= p < |SplitLabel(s)[k]| :: !IsCut(SplitLabel(s)[k], p)
    decreases |s|
  {
    var q := NextCut(s, 1);
    var lines := SplitLabel(s);
    if q >= |s| {
      assert lines == [s];
    } else {
      var rest := s[q..];
      SplitLabelLines(rest);
      assert lines == [s[..q]] + SplitLabel(rest);
      assert IsCut(s, q);
      assert |lines| > 1;
      assert rest[0] == s[q] && rest[1] == s[q + 1];
      if |SplitLabel(rest)| > 1 {
        assert IsUpper(SplitLabel(rest)[1][0]);
      }
      forall p | 0 <= p < q ensures !IsCut(s[..q], p) {
        if IsCut(s[..q], p) {
          assert IsCut(s, p);
        }
      }
      forall k | 1 <= k < |lines|
        ensures |lines[k]| >= 2 && IsUpper(lines[k][0]) && !IsUpper(lines[k][1])
      {
        if k == 1 {
          var first := SplitLabel(rest)[0];
          var q2 := NextCut(rest, 1);
          assert !IsCut(rest, 1);
          assert q2 >= 2 || q2 == |rest|;
          assert first == (if q2 >= |rest| then rest else rest[..q2]);
        }
      }
    }
  }

  /**
   * The tspans of a label: `d.data.name.split(...)` needs a string; on any other
   * name (a numeric identifier used as fallback) the call throws.
   */
  function LabelLines(name: JsValue): (lines: Option<seq<string>>)
    ensures name.Str? <==> lines.Some?
    ensures name.Str? ==> Concat(lines.value) == name.s
  {
    if name.Str? then
      SplitLabelJoins(name.s);
      Some(SplitLabel(name.s))
    else None
  }

  lemma SplitExample()
    ensures SplitLabel("Hof") == ["Hof"]
    ensures SplitLabel("HofKammer") == ["Hof", "Kammer"]
  {
    assert !IsCut("Hof", 1) && !IsCut("Hof", 2);
    assert NextCut("Hof", 1) == 3;
    var s := "HofKammer";
    assert !IsCut(s, 1) && !IsCut(s, 2) && IsCut(s, 3);
    assert NextCut(s, 1) == 3;
    assert s[..3] == "Hof" && s[3..] == "Kammer";
    var t := "Kammer";
    assert forall p | 1 <= p < |t| :: !IsCut(t, p);
    assert NextCut(t, 1) == |t|;
  }
}
