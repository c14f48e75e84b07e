/**
 * The keyed data join of getLeaves and the render pass of updateBubbles built
 * on it: the circles on screen are matched with the new leaves by the key
 * `data.personID` (as a string, the way d3 compares keys); matched circles are
 * updated, unmatched leaves entered, unmatched circles exited.
 */
module Reconcile {
  import opened JsValues
  import opened Records
  import opened Bubbles

  /**
   * A leaf of the packed hierarchy: a datum and the radius d3.pack gave it.
   * With no data the hierarchy root has no children and is itself the only
   * leaf; its datum is the wrapper object, modelled as None.
   */
  datatype Leaf = Leaf(datum: Option<Bubble>, r: real)

  /** root.leaves() of pack(data): one leaf per datum in order, or the root alone. */
  function Leaves(data: seq<Bubble>, radii: seq<real>): (leaves: seq<Leaf>)
    requires |radii| == |data|
    ensures data == [] ==> leaves == [Leaf(None, 0.0)]
    ensures data != [] ==>
      |leaves| == |data| && forall i | 0 <= i < |data| :: leaves[i] == Leaf(Some(data[i]), radii[i])
  {
    if data == [] then [Leaf(None, 0.0)]
    else seq(|data|, i requires 0 <= i < |data| => Leaf(Some(data[i]), radii[i]))
  }

  /** The join key of a leaf: `d.data.personID`, stringified. */
  function LeafKey(leaf: Leaf): string {
    match leaf.datum
    case Some(b) => ToJsString(b.personId)
    case None => "undefined"
  }

  function LeafKeys(leaves: seq<Leaf>): (keys: seq<string>)
    ensures |keys| == |leaves|
    ensures forall i | 0 <= i < |leaves| :: keys[i] == LeafKey(leaves[i])
  {
    seq(|leaves|, i requires 0 <= i < |leaves| => LeafKey(leaves[i]))
  }

  /** The first position of `k` in `keys`, or |keys| when it does not occur. */
  function FirstIndex(keys: seq<string>, k: string): (i: nat)
    ensures i <= |keys|
    ensures i < |keys| <==> k in keys
    ensures i < |keys| ==> keys[i] == k
    ensures forall j | 0 <= j < i :: keys[j] != k
  {
    if keys == [] then 0
    else if keys[0] == k then 0
    else 1 + FirstIndex(keys[1..], k)
  }

  /** Where a new leaf goes: a new element, or the existing element it updates. */
  datatype Slot = Enter | Update(node: nat)

  /**
   * d3's join by key: the first element with a key claims it, the first leaf
   * with that key takes the element; later elements with a repeated key exit,
   * later leaves with a repeated key enter.
   */
  function SlotOf(oldKeys: seq<string>, newKeys: seq<string>, i: nat): (s: Slot)
    requires i < |newKeys|
    ensures s.Update? ==> s.node < |oldKeys| && oldKeys[s.node] == newKeys[i]
  {
    if FirstIndex(newKeys, newKeys[i]) == i && newKeys[i] in oldKeys
    then Update(FirstIndex(oldKeys, newKeys[i]))
    else Enter
  }

  function Slots(oldKeys: seq<string>, newKeys: seq<string>): (slots: seq<Slot>)
    ensures |slots| == |newKeys|
    ensures forall i | 0 <= i < |newKeys| :: slots[i] == SlotOf(oldKeys, newKeys, i)
  {
    seq(|newKeys|, i requires 0 <= i < |newKeys| => SlotOf(oldKeys, newKeys, i))
  }

  /** Whether the existing element at `j` is in the exit selection. */
  predicate Exits(oldKeys: seq<string>, newKeys: seq<string>, j: nat)
    requires j < |oldKeys|
  {
    !(FirstIndex(oldKeys, oldKeys[j]) == j && oldKeys[j] in newKeys)
  }

  /**
   * The join partitions both sides: every new leaf is entered or updates one
   * element; every old element is updated by exactly one leaf or exits.
   */
  lemma {:induction false} JoinPartitions(oldKeys: seq<string>, newKeys: seq<string>)
    ensures forall i, i' | 0 <= i < i' < |newKeys| && SlotOf(oldKeys, newKeys, i).Update? ::
      SlotOf(oldKeys, newKeys, i') != SlotOf(oldKeys, newKeys, i)
    ensures forall i | 0 <= i < |newKeys| && SlotOf(oldKeys, newKeys, i).Update? ::
      !Exits(oldKeys, newKeys, SlotOf(oldKeys, newKeys, i).node)
    ensures forall j | 0 <= j < |oldKeys| && !Exits(oldKeys, newKeys, j) ::
      exists i | 0 <= i < |newKeys| :: SlotOf(oldKeys, newKeys, i) == Update(j)
  {
    forall j | 0 <= j < |oldKeys| && !Exits(oldKeys, newKeys, j)
      ensures exists i | 0 <= i < |newKeys| :: SlotOf(oldKeys, newKeys, i) == Update(j)
    {
      var i := FirstIndex(newKeys, oldKeys[j]);
      assert SlotOf(oldKeys, newKeys, i) == Update(j);
    }
  }

  /** Keys without repetition, as the person identifiers of one render are. */
  predicate Distinct(keys: seq<string>) {
    forall i, j | 0 <= i < j < |keys| :: keys[i] != keys[j]
  }

  lemma FirstIndexOfDistinct(keys: seq<string>, i: nat)
    requires Distinct(keys) && i < |keys|
    ensures FirstIndex(keys, keys[i]) == i
  {
  }

  /** With distinct keys on both sides a leaf is updated iff its key is on screen, and an element exits iff its key is gone. */
  lemma JoinOfDistinctKeys(oldKeys: seq<string>, newKeys: seq<string>)
    requires Distinct(oldKeys) && Distinct(newKeys)
    ensures forall i | 0 <= i < |newKeys| ::
      SlotOf(oldKeys, newKeys, i).Update? <==> newKeys[i] in oldKeys
    ensures forall j | 0 <= j < |oldKeys| :: Exits(oldKeys, newKeys, j) <==> oldKeys[j] !in newKeys
  {
    forall i | 0 <= i < |newKeys| ensures FirstIndex(newKeys, newKeys[i]) == i {
      FirstIndexOfDistinct(newKeys, i);
    }
    forall j | 0 <= j < |oldKeys| ensures FirstIndex(oldKeys, oldKeys[j]) == j {
      FirstIndexOfDistinct(oldKeys, j);
    }
  }

  /** Old {A, B}, new {B, C}: A exits, B is updated, C enters. */
  lemma JoinExample()
    ensures Slots(["A", "B"], ["B", "C"]) == [Update(1), Enter]
    ensures Exits(["A", "B"], ["B", "C"], 0) && !Exits(["A", "B"], ["B", "C"], 1)
  {
    assert FirstIndex(["A", "B"], "B") == 1;
    assert FirstIndex(["B", "C"], "B") == 0;
    assert FirstIndex(["B", "C"], "C") == 1;
    assert "C" !in ["A", "B"];
    assert "A" !in ["B", "C"];
  }


  /**
   * A circle on screen, with the `g` element that holds it: the key of the
   * element's datum; the leaf bound to the circle itself (`d.data`, `d.r`),
   * which the mouse handlers read and only the update pass passes down from
   * the `g`; the attributes the last pass or event set (none on a circle no update
   * pass has reached); its label's lines; the `toColorGradient` of the render
   * that entered it, which its mouse-out and click handlers closed over; and a
   * `style("fill")` that a persons-mode click set, which hides the fill
   * attribute from then on.
   */
  datatype Circle = Circle(key: string, datum: Option<Bubble>, r: real, style: Option<CircleStyle>,
                           lines: Option<seq<string>>, policy: ColorPolicy, inlineFill: Option<Fill>)

  function Keys(scene: seq<Circle>): (keys: seq<string>)
    ensures |keys| == |scene|
    ensures forall i | 0 <= i < |scene| :: keys[i] == scene[i].key
  {
    seq(|scene|, i requires 0 <= i < |scene| => scene[i].key)
  }

  function GroupOf(datum: Option<Bubble>): Group {
    match datum
    case Some(b) => b.group
    case None => NoGroup
  }

  /** The label lines of a leaf's name. */
  function LinesOf(leaf: Leaf): Option<seq<string>> {
    match leaf.datum
    case Some(b) => LabelLines(b.name)
    case None => None
  }

  // ---- the document order of the `g` elements ----

  /** A `g` element of the svg after the enter pass: an old one, or the one appended for leaf `i`. */
  datatype Element = Old(j: nat) | New(i: nat)

  predicate SlotsWithin(slots: seq<Slot>, nOld: nat) {
    forall i | 0 <= i < |slots| && slots[i].Update? :: slots[i].node < nOld
  }

  /** The first leaf at or after `from` that updates an old element, or |slots| when none does. */
  function NextUpdate(slots: seq<Slot>, from: nat): (n: nat)
    requires from <= |slots|
    ensures from <= n <= |slots|
    ensures n < |slots| ==> slots[n].Update?
    ensures forall i | from <= i < n :: slots[i] == Enter
    decreases |slots| - from
  {
    if from == |slots| || slots[from].Update? then from else NextUpdate(slots, from + 1)
  }

  /**
   * Where the enter pass puts the `g` of an entered leaf: before the element of
   * the next leaf that updates one, or at the end (`nOld`) when no later leaf does.
   */
  function Anchor(slots: seq<Slot>, nOld: nat, i: nat): (a: nat)
    requires i < |slots| && SlotsWithin(slots, nOld)
    ensures a <= nOld
  {
    var n := NextUpdate(slots, i + 1);
    if n < |slots| then slots[n].node else nOld
  }

  /** The entered elements put before anchor `a`, for the leaves from `from` on, in leaf order. */
  function EnteredBefore(slots: seq<Slot>, nOld: nat, a: nat, from: nat): (es: seq<Element>)
    requires SlotsWithin(slots, nOld) && from <= |slots|
    ensures forall e | e in es ::
      e.New? && from <= e.i < |slots| && slots[e.i] == Enter && Anchor(slots, nOld, e.i) == a
    ensures forall i | from <= i < |slots| && slots[i] == Enter && Anchor(slots, nOld, i) == a :: New(i) in es
    decreases |slots| - from
  {
    if from == |slots| then []
    else
      (if slots[from] == Enter && Anchor(slots, nOld, from) == a then [New(from)] else [])
      + EnteredBefore(slots, nOld, a, from + 1)
  }

  /** The elements from old element `a` on, in document order. */
  function DocumentFrom(slots: seq<Slot>, nOld: nat, a: nat): (es: seq<Element>)
    requires SlotsWithin(slots, nOld) && a <= nOld
    ensures forall e | e in es ::
      (e.Old? && a <= e.j < nOld) || (e.New? && e.i < |slots| && slots[e.i] == Enter)
    ensures forall j | a <= j < nOld :: Old(j) in es
    ensures forall i | 0 <= i < |slots| && slots[i] == Enter && a <= Anchor(slots, nOld, i) :: New(i) in es
    decreases nOld - a
  {
    if a == nOld then EnteredBefore(slots, nOld, nOld, 0)
    else EnteredBefore(slots, nOld, a, 0) + [Old(a)] + DocumentFrom(slots, nOld, a + 1)
  }

  /** An element that the enter pass leaves in the svg. */
  predicate InDocument(e: Element, oldKeys: seq<string>, newKeys: seq<string>) {
    (e.Old? && e.j < |oldKeys|) || (e.New? && e.i < |newKeys| && SlotOf(oldKeys, newKeys, e.i) == Enter)
  }

  /**
   * The `g` elements in document order after the enter pass: the old ones in
   * their order, each entered one put before the element of the next updating
   * leaf (`insertBefore` of d3's enter selection), the rest appended.
   */
  function Document(oldKeys: seq<string>, newKeys: seq<string>): (doc: seq<Element>)
    ensures forall e | e in doc :: InDocument(e, oldKeys, newKeys)
    ensures forall j | 0 <= j < |oldKeys| :: Old(j) in doc
    ensures forall i | 0 <= i < |newKeys| && SlotOf(oldKeys, newKeys, i) == Enter :: New(i) in doc
  {
    var slots := Slots(oldKeys, newKeys);
    DocumentFrom(slots, |oldKeys|, 0)
  }

  /** An element's key: an old one keeps its own (an updated one was matched on it), a new one has its leaf's. */
  function ElementKey(oldKeys: seq<string>, newKeys: seq<string>, e: Element): string
    requires InDocument(e, oldKeys, newKeys)
  {
    match e
    case Old(j) => oldKeys[j]
    case New(i) => newKeys[i]
  }

  function ElementKeys(oldKeys: seq<string>, newKeys: seq<string>, doc: seq<Element>): (keys: seq<string>)
    requires forall e | e in doc :: InDocument(e, oldKeys, newKeys)
    ensures |keys| == |doc|
    ensures forall p | 0 <= p < |doc| :: keys[p] == ElementKey(oldKeys, newKeys, doc[p])
  {
    seq(|doc|, p requires 0 <= p < |doc| => ElementKey(oldKeys, newKeys, doc[p]))
  }

  // ---- the three passes ----

  /**
   * The `fill-opacity` of a circle: its style's once it has one, else the
   * 0.7 the enter pass gives every new circle.
   */
  function Opacity(c: Circle): (o: real)
    ensures c.style.None? ==> o == RestingOpacity
  {
    if c.style.Some? then c.style.value.opacity else RestingOpacity
  }

  /** What a circle keeps of its `g` element: the key, the handlers' policy and an inline fill. */
  predicate SameElement(c: Circle, o: Circle) {
    c.key == o.key && c.policy == o.policy && c.inlineFill == o.inlineFill
  }

  /**
   * A circle drawn in the old circle `o`'s element; without data its bound
   * leaf and style are untouched, and its lines unless the pass relabels.
   */
  predicate FromOld(c: Circle, o: Circle, hasData: bool, relabelled: bool) {
    && SameElement(c, o)
    && Opacity(c) == Opacity(o)
    && (!hasData ==> c.datum == o.datum && c.r == o.r && c.style == o.style)
    && (!relabelled ==> c.lines == o.lines)
  }

  /**
   * A circle in an element of this render: the render's policy, no inline
   * fill, the opacity of enter, and no style or lines it was not given.
   */
  predicate Fresh(c: Circle, policy: ColorPolicy, hasData: bool, relabelled: bool) {
    && c.policy == policy && c.inlineFill == None && Opacity(c) == RestingOpacity
    && (!hasData ==> c.style == None) && (!relabelled ==> c.lines == None)
  }

  /**
   * The circle of an element after the enter pass: an old circle as it was (the
   * join rebinds the `g`, not the circle in it); a new one has its leaf, the
   * render's policy and no attributes.
   */
  function EnteredCircle(oldScene: seq<Circle>, leaves: seq<Leaf>, e: Element, policy: ColorPolicy): (c: Circle)
    requires InDocument(e, Keys(oldScene), LeafKeys(leaves))
    ensures c.key == ElementKey(Keys(oldScene), LeafKeys(leaves), e)
    ensures e.Old? ==> FromOld(c, oldScene[e.j], false, false)
    ensures e.New? ==> Fresh(c, policy, false, false) && c.datum == leaves[e.i].datum && c.r == leaves[e.i].r
  {
    match e
    case Old(j) => oldScene[j]
    case New(i) => Circle(LeafKeys(leaves)[i], leaves[i].datum, leaves[i].r, None, None, policy, None)
  }

  /**
   * A kept element's circle after the update pass, which runs only with data:
   * bound to the first leaf of its key, given the radius, fill and label rule
   * of the update pass (its opacity stays as it was) and, unless the label
   * split throws, its lines.
   */
  function Updated(c: Circle, leaf: Leaf, hasData: bool, relabelled: bool, policy: ColorPolicy): (d: Circle)
    requires leaf.r >= 0.0
    ensures SameElement(d, c)
    ensures hasData ==>
      d.datum == leaf.datum && d.r == leaf.r && d.style == Some(UpdateStyle(leaf.r, GroupOf(leaf.datum), policy, Opacity(c)))
    ensures !hasData ==> d.datum == c.datum && d.r == c.r && d.style == c.style
    ensures Opacity(d) == Opacity(c)
    ensures relabelled ==> d.lines == LinesOf(leaf)
    ensures !relabelled ==> d.lines == c.lines
  {
    var styled :=
      if hasData then c.(datum := leaf.datum, r := leaf.r, style := Some(UpdateStyle(leaf.r, GroupOf(leaf.datum), policy, Opacity(c))))
      else c;
    if relabelled then styled.(lines := LinesOf(leaf)) else styled
  }

  /**
   * The tspan join of the update pass throws when a leaf that updates an
   * element (the first of its key) has a name that is not a string.
   */
  predicate Throws(leaves: seq<Leaf>) {
    exists i | 0 <= i < |leaves| ::
      && FirstIndex(LeafKeys(leaves), LeafKeys(leaves)[i]) == i
      && leaves[i].datum.Some? && !leaves[i].datum.value.name.Str?
  }

  /**
   * Whether the element at document position `p` is kept: the update and exit
   * passes re-join all elements, so the first element of each new key is
   * updated and every other one exits.
   */
  predicate Kept(docKeys: seq<string>, newKeys: seq<string>, p: nat)
    requires p < |docKeys|
  {
    !Exits(docKeys, newKeys, p)
  }

  /** The circles whose flag is set, in order. */
  function Select(cs: seq<Circle>, keep: seq<bool>): (r: seq<Circle>)
    requires |keep| == |cs|
    decreases |cs|
  {
    if cs == [] then []
    else (if keep[0] then [cs[0]] else []) + Select(cs[1..], keep[1..])
  }

  /** Every selected circle is a flagged one. */
  lemma {:induction false} SelectedAreFlagged(cs: seq<Circle>, keep: seq<bool>)
    requires |keep| == |cs|
    ensures forall c | c in Select(cs, keep) :: exists p | 0 <= p < |cs| :: keep[p] && cs[p] == c
    decreases |cs|
  {
    if cs != [] {
      var rest := Select(cs[1..], keep[1..]);
      SelectedAreFlagged(cs[1..], keep[1..]);
      forall c | c in Select(cs, keep) ensures exists p | 0 <= p < |cs| :: keep[p] && cs[p] == c {
        if c in rest {
          var p :| 0 <= p < |cs| - 1 && keep[1..][p] && cs[1..][p] == c;
          assert keep[p + 1] && cs[p + 1] == c;
        }
      }
    }
  }

  /** Every flagged circle is selected. */
  lemma {:induction false} FlaggedAreSelected(cs: seq<Circle>, keep: seq<bool>)
    requires |keep| == |cs|
    ensures forall p | 0 <= p < |cs| && keep[p] :: cs[p] in Select(cs, keep)
    decreases |cs|
  {
    if cs != [] {
      FlaggedAreSelected(cs[1..], keep[1..]);
      forall p | 0 <= p < |cs| && keep[p] ensures cs[p] in Select(cs, keep) {
        if p > 0 {
          assert cs[1..][p - 1] == cs[p] && keep[1..][p - 1];
        }
      }
    }
  }

  /** Flagged circles with distinct keys select to distinct keys. */
  lemma {:induction false} SelectedKeysDistinct(cs: seq<Circle>, keep: seq<bool>)
    requires |keep| == |cs|
    requires forall p, q | 0 <= p < q < |cs| && keep[p] && keep[q] :: cs[p].key != cs[q].key
    ensures Distinct(Keys(Select(cs, keep)))
    decreases |cs|
  {
    if cs != [] {
      var rest := Select(cs[1..], keep[1..]);
      forall p, q | 0 <= p < q < |cs| - 1 && keep[1..][p] && keep[1..][q]
        ensures cs[1..][p].key != cs[1..][q].key
      {
        assert cs[1..][p] == cs[p + 1] && cs[1..][q] == cs[q + 1];
      }
      SelectedKeysDistinct(cs[1..], keep[1..]);
      if keep[0] {
        SelectedAreFlagged(cs[1..], keep[1..]);
        var sel := Select(cs, keep);
        assert sel == [cs[0]] + rest;
        forall a, b | 0 <= a < b < |sel| ensures Keys(sel)[a] != Keys(sel)[b] {
          if a == 0 {
            assert rest[b - 1] in rest;
            var p :| 0 <= p < |cs| - 1 && keep[1..][p] && cs[1..][p] == rest[b - 1];
            assert keep[p + 1] && cs[p + 1] == rest[b - 1];
          } else {
            assert Keys(rest)[a - 1] != Keys(rest)[b - 1];
          }
        }
      }
    }
  }

  /** The flags of the kept elements. */
  function KeptMask(docKeys: seq<string>, newKeys: seq<string>): (keep: seq<bool>)
    ensures |keep| == |docKeys|
    ensures forall p | 0 <= p < |docKeys| :: keep[p] == Kept(docKeys, newKeys, p)
  {
    seq(|docKeys|, p requires 0 <= p < |docKeys| => Kept(docKeys, newKeys, p))
  }

  /**
   * Circle `c` has a new key and, with data, shows the first leaf of that key:
   * bound to it, with the radius, fill and label rule of the update pass (at
   * whatever opacity the circle had) and, when relabelled, with its lines.
   */
  predicate ShowsFirstLeaf(c: Circle, leaves: seq<Leaf>, hasData: bool, relabelled: bool, policy: ColorPolicy)
  {
    var keys := LeafKeys(leaves);
    && c.key in keys
    && var leaf := leaves[FirstIndex(keys, c.key)];
    && (hasData ==> c.datum == leaf.datum && c.r == leaf.r)
    && (hasData && leaf.r >= 0.0 ==>
          c.style.Some? && c.style.value == UpdateStyle(leaf.r, GroupOf(leaf.datum), policy, c.style.value.opacity))
    && (relabelled ==> c.lines == LinesOf(leaf))
  }

  /** The first element of each new key is kept; kept elements have new keys, no two the same. */
  lemma KeptKeys(oldKeys: seq<string>, newKeys: seq<string>)
    ensures var docKeys := ElementKeys(oldKeys, newKeys, Document(oldKeys, newKeys));
      && (forall k | k in newKeys :: k in docKeys && Kept(docKeys, newKeys, FirstIndex(docKeys, k)))
      && (forall p | 0 <= p < |docKeys| && Kept(docKeys, newKeys, p) :: docKeys[p] in newKeys)
      && (forall p, q | 0 <= p < q < |docKeys| && Kept(docKeys, newKeys, p) && Kept(docKeys, newKeys, q) ::
            docKeys[p] != docKeys[q])
  {
    var doc := Document(oldKeys, newKeys);
    var docKeys := ElementKeys(oldKeys, newKeys, doc);
    forall k | k in newKeys ensures k in docKeys {
      var i0 := FirstIndex(newKeys, k);
      match SlotOf(oldKeys, newKeys, i0)
      case Update(j) =>
        var p :| 0 <= p < |doc| && doc[p] == Old(j);
        assert docKeys[p] == k;
      case Enter =>
        var p :| 0 <= p < |doc| && doc[p] == New(i0);
        assert docKeys[p] == k;
    }
  }


  /** The radii d3.pack gives are never negative. */
  predicate Packed(leaves: seq<Leaf>) {
    forall i | 0 <= i < |leaves| :: leaves[i].r >= 0.0
  }

  /** The `g` elements after the enter pass of a render of `leaves` over `oldScene`. */
  function DocumentOf(oldScene: seq<Circle>, leaves: seq<Leaf>): (doc: seq<Element>)
    ensures forall e | e in doc :: InDocument(e, Keys(oldScene), LeafKeys(leaves))
    ensures forall j | 0 <= j < |oldScene| :: Old(j) in doc
  {
    Document(Keys(oldScene), LeafKeys(leaves))
  }

  /** The keys of those elements, in document order. */
  function DocumentKeys(oldScene: seq<Circle>, leaves: seq<Leaf>): (keys: seq<string>)
    ensures |keys| == |DocumentOf(oldScene, leaves)|
  {
    ElementKeys(Keys(oldScene), LeafKeys(leaves), DocumentOf(oldScene, leaves))
  }

  /**
   * The circle of the element at document position `p` once the update pass
   * is over: what the enter pass left there, bound to the first leaf of its
   * key and restyled when the element is kept.
   */
  function PassedAt(oldScene: seq<Circle>, leaves: seq<Leaf>, hasData: bool, policy: ColorPolicy, p: nat)
    : (c: Circle)
    requires Packed(leaves) && p < |DocumentOf(oldScene, leaves)|
    ensures c.key == DocumentKeys(oldScene, leaves)[p]
    ensures Kept(DocumentKeys(oldScene, leaves), LeafKeys(leaves), p) ==>
      ShowsFirstLeaf(c, leaves, hasData, hasData && !Throws(leaves), policy)
    ensures var e := DocumentOf(oldScene, leaves)[p];
      && (e.Old? ==> e.j < |oldScene| && FromOld(c, oldScene[e.j], hasData, hasData && !Throws(leaves)))
      && (e.New? ==> Fresh(c, policy, hasData, hasData && !Throws(leaves)))
  {
    var newKeys := LeafKeys(leaves);
    var doc := DocumentOf(oldScene, leaves);
    var docKeys := DocumentKeys(oldScene, leaves);
    assert doc[p] in doc;
    var entered := EnteredCircle(oldScene, leaves, doc[p], policy);
    if Kept(docKeys, newKeys, p)
    then Updated(entered, leaves[FirstIndex(newKeys, docKeys[p])], hasData, hasData && !Throws(leaves), policy)
    else entered
  }

  /** Every element of the document once the update pass is over, in document order. */
  function Passed(oldScene: seq<Circle>, leaves: seq<Leaf>, hasData: bool, policy: ColorPolicy)
    : (passed: seq<Circle>)
    requires Packed(leaves)
    ensures |passed| == |DocumentOf(oldScene, leaves)|
    ensures forall p | 0 <= p < |passed| :: passed[p] == PassedAt(oldScene, leaves, hasData, policy, p)
  {
    var n := |DocumentOf(oldScene, leaves)|;
    seq(n, p requires 0 <= p < n => PassedAt(oldScene, leaves, hasData, policy, p))
  }

  /**
   * The circles a render of `leaves` leaves on screen: every element when the
   * label split throws (the exit pass never runs), else the kept ones.
   */
  function Render(oldScene: seq<Circle>, leaves: seq<Leaf>, hasData: bool, policy: ColorPolicy): seq<Circle>
    requires Packed(leaves)
  {
    var passed := Passed(oldScene, leaves, hasData, policy);
    if Throws(leaves) then passed
    else Select(passed, KeptMask(DocumentKeys(oldScene, leaves), LeafKeys(leaves)))
  }

  /** Every new key is shown by a circle bound to the first leaf of that key. */
  lemma RenderShowsEveryKey(oldScene: seq<Circle>, leaves: seq<Leaf>, hasData: bool, policy: ColorPolicy)
    requires Packed(leaves)
    ensures forall k | k in LeafKeys(leaves) :: exists c | c in Render(oldScene, leaves, hasData, policy) ::
      c.key == k && ShowsFirstLeaf(c, leaves, hasData, hasData && !Throws(leaves), policy)
  {
    var passed := Passed(oldScene, leaves, hasData, policy);
    var docKeys := DocumentKeys(oldScene, leaves);
    var keep := KeptMask(docKeys, LeafKeys(leaves));
    KeptKeys(Keys(oldScene), LeafKeys(leaves));
    FlaggedAreSelected(passed, keep);
    forall k | k in LeafKeys(leaves)
      ensures exists c | c in Render(oldScene, leaves, hasData, policy) ::
        c.key == k && ShowsFirstLeaf(c, leaves, hasData, hasData && !Throws(leaves), policy)
    {
      var p := FirstIndex(docKeys, k);
      assert passed[p] in Render(oldScene, leaves, hasData, policy);
    }
  }

  /** Every circle on screen is fresh or drawn in the element of an old circle. */
  lemma RenderFreshOrOld(oldScene: seq<Circle>, leaves: seq<Leaf>, hasData: bool, policy: ColorPolicy)
    requires Packed(leaves)
    ensures forall c | c in Render(oldScene, leaves, hasData, policy) ::
      Fresh(c, policy, hasData, hasData && !Throws(leaves))
      || exists j | 0 <= j < |oldScene| :: FromOld(c, oldScene[j], hasData, hasData && !Throws(leaves))
  {
    var passed := Passed(oldScene, leaves, hasData, policy);
    var keep := KeptMask(DocumentKeys(oldScene, leaves), LeafKeys(leaves));
    SelectedAreFlagged(passed, keep);
    forall c | c in Render(oldScene, leaves, hasData, policy)
      ensures Fresh(c, policy, hasData, hasData && !Throws(leaves))
        || exists j | 0 <= j < |oldScene| :: FromOld(c, oldScene[j], hasData, hasData && !Throws(leaves))
    {
      var p :| 0 <= p < |passed| && passed[p] == c;
      var e := DocumentOf(oldScene, leaves)[p];
      if e.Old? {
        assert FromOld(c, oldScene[e.j], hasData, hasData && !Throws(leaves));
      }
    }
  }

  /** Without a throw the screen has one circle per new key, each showing the first leaf of its key. */
  lemma RenderWithoutThrow(oldScene: seq<Circle>, leaves: seq<Leaf>, hasData: bool, policy: ColorPolicy)
    requires Packed(leaves) && !Throws(leaves)
    ensures Distinct(Keys(Render(oldScene, leaves, hasData, policy)))
    ensures forall c | c in Render(oldScene, leaves, hasData, policy) :: ShowsFirstLeaf(c, leaves, hasData, hasData, policy)
  {
    var passed := Passed(oldScene, leaves, hasData, policy);
    var docKeys := DocumentKeys(oldScene, leaves);
    var keep := KeptMask(docKeys, LeafKeys(leaves));
    KeptKeys(Keys(oldScene), LeafKeys(leaves));
    SelectedAreFlagged(passed, keep);
    SelectedKeysDistinct(passed, keep);
    forall c | c in Render(oldScene, leaves, hasData, policy) ensures ShowsFirstLeaf(c, leaves, hasData, hasData, policy) {
      var p :| 0 <= p < |passed| && keep[p] && passed[p] == c;
    }
  }

  /** The circle drawn in old element `j`'s element. */
  lemma OldIsPassed(oldScene: seq<Circle>, leaves: seq<Leaf>, hasData: bool, policy: ColorPolicy, j: nat)
    returns (c: Circle)
    requires Packed(leaves) && j < |oldScene|
    ensures c in Passed(oldScene, leaves, hasData, policy)
    ensures FromOld(c, oldScene[j], hasData, hasData && !Throws(leaves))
  {
    var p := OldPosition(oldScene, leaves, j);
    var passed := Passed(oldScene, leaves, hasData, policy);
    c := PassedAt(oldScene, leaves, hasData, policy, p);
    assert passed[p] == c;
  }

  /** Where old element `j` is in the document. */
  lemma OldPosition(oldScene: seq<Circle>, leaves: seq<Leaf>, j: nat) returns (p: nat)
    requires j < |oldScene|
    ensures p < |DocumentOf(oldScene, leaves)| && DocumentOf(oldScene, leaves)[p] == Old(j)
  {
    var doc := DocumentOf(oldScene, leaves);
    assert Old(j) in doc;
    p :| 0 <= p < |doc| && doc[p] == Old(j);
  }

  /** When the label split throws no element exits, so every old circle is still drawn. */
  lemma RenderAfterThrow(oldScene: seq<Circle>, leaves: seq<Leaf>, hasData: bool, policy: ColorPolicy)
    requires Packed(leaves) && Throws(leaves)
    ensures forall j | 0 <= j < |oldScene| :: exists c | c in Render(oldScene, leaves, hasData, policy) ::
      FromOld(c, oldScene[j], hasData, false)
  {
    var scene := Render(oldScene, leaves, hasData, policy);
    assert scene == Passed(oldScene, leaves, hasData, policy);
    forall j | 0 <= j < |oldScene| ensures exists c | c in scene :: FromOld(c, oldScene[j], hasData, false) {
      var c := OldIsPassed(oldScene, leaves, hasData, policy, j);
      assert FromOld(c, oldScene[j], hasData, false);
    }
  }

  /** Distinct keys drawn from a set are no more than the set has. */
  lemma {:induction false} DistinctWithin(keys: seq<string>, s: set<string>)
    requires Distinct(keys)
    requires forall i | 0 <= i < |keys| :: keys[i] in s
    ensures |keys| <= |s|
    decreases |keys|
  {
    if keys != [] {
      var rest := keys[1..];
      forall i | 0 <= i < |rest| ensures rest[i] in s - {keys[0]} {
        assert rest[i] == keys[i + 1];
      }
      forall i, j | 0 <= i < j < |rest| ensures rest[i] != rest[j] {
        assert rest[i] == keys[i + 1] && rest[j] == keys[j + 1];
      }
      DistinctWithin(rest, s - {keys[0]});
    }
  }

  /** Without data the scene is the one circle of the stand-in root. */
  lemma SceneOfNoData(scene: seq<Circle>, policy: ColorPolicy)
    requires Distinct(Keys(scene))
    requires forall c | c in scene :: ShowsFirstLeaf(c, Leaves([], []), false, false, policy)
    requires forall k | k in LeafKeys(Leaves([], [])) :: exists c | c in scene :: c.key == k
    ensures |scene| == 1 && scene[0].key == "undefined"
  {
    var leaves := Leaves([], []);
    assert LeafKeys(leaves) == ["undefined"];
    assert "undefined" in LeafKeys(leaves);
    var c :| c in scene && c.key == "undefined";
    forall i | 0 <= i < |scene| ensures Keys(scene)[i] in {"undefined"} {
      assert scene[i] in scene;
    }
    DistinctWithin(Keys(scene), {"undefined"});
    assert scene[0] in scene;
  }


  /**
   * updateBubbles on the screen `oldScene`, once every transition is over. The
   * enter pass appends a `g` per unmatched leaf; the update pass (only with
   * data) re-joins all elements and restyles the first element of each key; the
   * exit pass re-joins again and removes every other element, unless the label
   * split threw and ended the call before it.
   */
  function RenderBubbles(oldScene: seq<Circle>, data: seq<Bubble>, radii: seq<real>, policy: ColorPolicy)
    : (scene: seq<Circle>)
    requires |radii| == |data|
    requires forall i | 0 <= i < |radii| :: radii[i] >= 0.0
    ensures var leaves := Leaves(data, radii);
      var relabelled := data != [] && !Throws(leaves);
      && (forall k | k in LeafKeys(leaves) :: exists c | c in scene ::
            c.key == k && ShowsFirstLeaf(c, leaves, data != [], relabelled, policy))
      && (forall c | c in scene ::
            Fresh(c, policy, data != [], relabelled)
            || exists j | 0 <= j < |oldScene| :: FromOld(c, oldScene[j], data != [], relabelled))
    ensures !Throws(Leaves(data, radii)) ==>
      && Distinct(Keys(scene))
      && forall c | c in scene :: ShowsFirstLeaf(c, Leaves(data, radii), data != [], data != [], policy)
    ensures Throws(Leaves(data, radii)) ==>
      forall j | 0 <= j < |oldScene| :: exists c | c in scene :: FromOld(c, oldScene[j], true, false)
    ensures data == [] ==> |scene| == 1 && scene[0].key == "undefined"
  {
    var leaves := Leaves(data, radii);
    var hasData := data != [];
    RenderShowsEveryKey(oldScene, leaves, hasData, policy);
    RenderFreshOrOld(oldScene, leaves, hasData, policy);
    if Throws(leaves) then
      RenderAfterThrow(oldScene, leaves, hasData, policy);
      Render(oldScene, leaves, hasData, policy)
    else
      RenderWithoutThrow(oldScene, leaves, hasData, policy);
      if data == [] then
        SceneOfNoData(Render(oldScene, leaves, hasData, policy), policy);
        Render(oldScene, leaves, hasData, policy)
      else Render(oldScene, leaves, hasData, policy)
  }

  /** A fill set by a click stays with its element: the render only ever keeps it on a circle from before. */
  lemma InlineFillSurvivesRender(oldScene: seq<Circle>, data: seq<Bubble>, radii: seq<real>, policy: ColorPolicy,
                                 c: Circle)
    requires |radii| == |data|
    requires forall i | 0 <= i < |radii| :: radii[i] >= 0.0
    requires c in RenderBubbles(oldScene, data, radii, policy) && c.inlineFill.Some?
    ensures exists j | 0 <= j < |oldScene| :: oldScene[j].key == c.key && oldScene[j].inlineFill == c.inlineFill
  {
  }

  // ---- the circle's event handlers ----

  /** The fill a circle shows: a `style("fill")` hides the fill attribute. */
  function ShownFill(c: Circle): Option<Fill> {
    if c.inlineFill.Some? then c.inlineFill
    else if c.style.Some? then Some(c.style.value.fill)
    else None
  }

  /**
   * mouseover, once its transition is over: the hover style, so the secondary
   * colour shows unless a click set an inline fill.
   */
  function MouseOver(c: Circle): (d: Circle)
    requires c.r >= 0.0
    ensures SameElement(d, c) && d.datum == c.datum && d.r == c.r && d.lines == c.lines
    ensures d.style.Some? && d.style.value.r == HoverRadius(c.r) && d.style.value.fill == Paint(Secondary)
    ensures Opacity(d) == 0.8
    ensures ShownFill(d) == if c.inlineFill.Some? then c.inlineFill else Some(Paint(Secondary))
  {
    c.(style := Some(HoverStyle(c.r)))
  }

  /**
   * mouseout, once its transition is over: the resting style of the circle's
   * leaf under the colour policy of the render that entered the circle, which
   * the handler closed over; an inline fill still hides it.
   */
  function MouseOut(c: Circle): (d: Circle)
    requires c.r >= 0.0
    ensures SameElement(d, c) && d.datum == c.datum && d.r == c.r && d.lines == c.lines
    ensures d.style == Some(RestingStyle(c.r, GroupOf(c.datum), c.policy))
    ensures ShownFill(d) == if c.inlineFill.Some? then c.inlineFill else Some(FillOf(c.policy, GroupOf(c.datum)))
  {
    c.(style := Some(MouseOutStyle(c.r, GroupOf(c.datum), c.policy)))
  }

  /**
   * Hovering and leaving a circle that rests in the style of the latest render
   * (colour policy `current`) restores it exactly when the fill of the entering
   * render's policy is the current one, and so always when the policy is the same.
   */
  lemma HoverThenLeave(c: Circle, current: ColorPolicy)
    requires c.r >= 0.0 && c.style == Some(RestingStyle(c.r, GroupOf(c.datum), current))
    ensures MouseOut(MouseOver(c)) == c <==> FillOf(c.policy, GroupOf(c.datum)) == FillOf(current, GroupOf(c.datum))
    ensures c.policy == current ==> MouseOut(MouseOver(c)) == c
  {
    var g := GroupOf(c.datum);
    if MouseOut(MouseOver(c)) == c {
      assert RestingStyle(c.r, g, c.policy).fill == RestingStyle(c.r, g, current).fill;
    }
  }

  /**
   * A weighted circle under gradient policies: leaving after a hover restores
   * its resting fill exactly when the gradient is the one it entered with.
   */
  lemma HoverThenLeaveGradient(c: Circle, current: ColorPolicy)
    requires c.r >= 0.0 && c.style == Some(RestingStyle(c.r, GroupOf(c.datum), current))
    requires c.policy.Gradient? && current.Gradient? && GroupOf(c.datum).Weight?
    ensures MouseOut(MouseOver(c)) == c <==> c.policy == current
  {
    HoverThenLeave(c, current);
    var g := GroupOf(c.datum);
    if FillOf(c.policy, g) == FillOf(current, g) {
      assert c.policy.lo == current.lo && c.policy.hi == current.hi && c.policy.target == current.target;
    }
  }

  /**
   * The update pass does not reset `fill-opacity`: a circle still under the
   * pointer when a render keeps it takes its new leaf's radius and fill but
   * keeps the hover opacity 0.8, so it is not at rest until mouse-out.
   */
  lemma UpdateKeepsHoverOpacity(c: Circle, leaf: Leaf, relabelled: bool, policy: ColorPolicy)
    requires c.r >= 0.0 && leaf.r >= 0.0
    ensures var d := Updated(MouseOver(c), leaf, true, relabelled, policy);
      && d.style == Some(UpdateStyle(leaf.r, GroupOf(leaf.datum), policy, 0.8))
      && d.style != Some(RestingStyle(leaf.r, GroupOf(leaf.datum), policy))
      && MouseOut(d).style == Some(RestingStyle(leaf.r, GroupOf(leaf.datum), d.policy))
  {
  }

  /**
   * A click in persons mode: every circle gets an inline fill, the clicked
   * circle's policy (the handler's closure) applied to its own group, and
   * then the clicked one the secondary colour. The group is read from each
   * circle's own leaf; the handler re-selects the circles through their `g`,
   * whose leaf differs only after a render without data.
   */
  function Highlight(scene: seq<Circle>, clicked: nat): (marked: seq<Circle>)
    requires clicked < |scene|
    ensures |marked| == |scene|
    ensures forall i | 0 <= i < |scene| :: marked[i] == scene[i].(inlineFill := marked[i].inlineFill)
    ensures ShownFill(marked[clicked]) == Some(Paint(Secondary))
    ensures forall i | 0 <= i < |scene| && i != clicked ::
      ShownFill(marked[i]) == Some(FillOf(scene[clicked].policy, GroupOf(scene[i].datum)))
  {
    seq(|scene|, i requires 0 <= i < |scene| =>
      scene[i].(inlineFill := Some(
        if i == clicked then Paint(Secondary) else FillOf(scene[clicked].policy, GroupOf(scene[i].datum)))))
  }

  /** Circles that show person bubbles: their groups are gender colours. */
  predicate ShowsPersons(scene: seq<Circle>) {
    forall i | 0 <= i < |scene| ::
      scene[i].datum.Some? && scene[i].datum.value.group.Hue?
      && scene[i].datum.value.group.color in {ManColor, WomanColor, Grey}
  }

  /**
   * In persons mode with distinct keys, whatever policy the clicked circle
   * entered with, a circle shows the highlight iff it has the clicked key, and
   * hovering or leaving does not change what any circle shows.
   */
  lemma HighlightMarksOnlyTheClicked(scene: seq<Circle>, clicked: nat)
    requires clicked < |scene| && ShowsPersons(scene) && Distinct(Keys(scene))
    ensures forall i | 0 <= i < |scene| ::
      ShownFill(Highlight(scene, clicked)[i]) == Some(Paint(Secondary)) <==> scene[i].key == scene[clicked].key
    ensures forall i | 0 <= i < |scene| && scene[i].r >= 0.0 ::
      && ShownFill(MouseOver(Highlight(scene, clicked)[i])) == ShownFill(Highlight(scene, clicked)[i])
      && ShownFill(MouseOut(Highlight(scene, clicked)[i])) == ShownFill(Highlight(scene, clicked)[i])
  {
    var marked := Highlight(scene, clicked);
    forall i | 0 <= i < |scene|
      ensures ShownFill(marked[i]) == Some(Paint(Secondary)) <==> scene[i].key == scene[clicked].key
    {
      if i != clicked {
        assert Keys(scene)[i] != Keys(scene)[clicked];
      }
    }
  }

  /** Old elements keyed p, q; new keys q, q, p: the first q updates old q, the second enters, p updates old p. */
  lemma DuplicateKeySlots()
    ensures Slots(["p", "q"], ["q", "q", "p"]) == [Update(1), Enter, Update(0)]
  {
    assert FirstIndex(["q", "q", "p"], "q") == 0;
    assert FirstIndex(["q", "q", "p"], "p") == 2;
    assert FirstIndex(["p", "q"], "q") == 1;
    assert FirstIndex(["p", "q"], "p") == 0;
  }

  /** The entered second q goes before old p's element, the next updating leaf's, and so comes first. */
  lemma DuplicateKeyDocument()
    ensures Document(["p", "q"], ["q", "q", "p"]) == [New(1), Old(0), Old(1)]
  {
    DuplicateKeySlots();
    DuplicateKeyDocumentFrom(Slots(["p", "q"], ["q", "q", "p"]));
  }

  /** The document of that example, element by element. */
  lemma DuplicateKeyDocumentFrom(slots: seq<Slot>)
    requires slots == [Update(1), Enter, Update(0)]
    ensures DocumentFrom(slots, 2, 0) == [New(1), Old(0), Old(1)]
  {
    DuplicateKeyEntered(slots);
    assert DocumentFrom(slots, 2, 2) == [];
    assert DocumentFrom(slots, 2, 1) == [Old(1)];
  }

  /** Which entered elements go before which old one, for the slots of that example. */
  lemma DuplicateKeyEntered(slots: seq<Slot>)
    requires slots == [Update(1), Enter, Update(0)]
    ensures EnteredBefore(slots, 2, 0, 0) == [New(1)]
    ensures EnteredBefore(slots, 2, 1, 0) == []
    ensures EnteredBefore(slots, 2, 2, 0) == []
  {
    assert NextUpdate(slots, 2) == 2;
    assert Anchor(slots, 2, 1) == 0;
    assert EnteredBefore(slots, 2, 0, 2) == [];
    assert EnteredBefore(slots, 2, 1, 2) == [];
    assert EnteredBefore(slots, 2, 2, 2) == [];
  }

  /**
   * The later joins keep the first element of each key in document order: the
   * entered q displaces old q's element, which exits although its key is
   * still in the data.
   */
  lemma DuplicateKeyDisplaces()
    ensures KeptMask(["q", "p", "q"], ["q", "q", "p"]) == [true, true, false]
  {
    assert FirstIndex(["q", "p", "q"], "q") == 0;
    assert FirstIndex(["q", "p", "q"], "p") == 1;
  }
}
