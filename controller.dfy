/**
 * The client's controller: the module state `mMode` and `mCurrentPersonID`,
 * driven by updateBubblesByMode, the bubble click handler and the reset
 * button, and the requests those send to the statement route.
 */
module Controller {
  import opened JsValues
  import opened Records
  import opened Bubbles
  import opened Reconcile
  import opened Statements
  import Slider

  /** What the bubbles show: royal courts by member count, or the members of one court. */
  datatype Mode = CountMode | PersonsMode

  /** A POST of the client to `/api/sql/<name>` with the body the server receives. */
  datatype Request = Request(name: string, body: map<string, JsValue>)

  /**
   * One key of the body the server parses from the client's object, taken to be
   * sent as JSON: a key whose value is `undefined` does not survive serialisation.
   */
  function Put(body: map<string, JsValue>, key: string, v: JsValue): (r: map<string, JsValue>)
    ensures v != Undefined ==> r == body[key := v]
    ensures v == Undefined ==> r == body
  {
    if v == Undefined then body else body[key := v]
  }

  /** A year argument: a number, or nothing when it is `null` or `NaN`. */
  type YearArg = Option<int>

  predicate TruthyYear(y: YearArg)
  {
    y.Some? && y.value != 0
  }

  /**
   * The years a bubble update uses: its own two when both are truthy, else
   * both slider values (a missing year, `NaN` and year 0 all count as falsy).
   */
  function EffectiveRange(startYear: YearArg, endYear: YearArg, slider: Slider.Range): (r: Slider.Range)
    ensures TruthyYear(startYear) && TruthyYear(endYear) ==> r == Slider.Range(startYear.value, endYear.value)
    ensures !TruthyYear(startYear) || !TruthyYear(endYear) ==> r == slider
  {
    if !TruthyYear(startYear) || !TruthyYear(endYear) then slider
    else Slider.Range(startYear.value, endYear.value)
  }

  /** The request of the bubble updater of a mode. */
  function BubbleRequest(mode: Mode, personId: JsValue, range: Slider.Range): (req: Request)
    ensures mode == CountMode ==> StatementNamed(req.name) == CountPersonsXRoyalCourtInTimeRange
    ensures mode == PersonsMode ==> StatementNamed(req.name) == PersonsOfRoyalCourtInTimeRange
    ensures "startYear" in req.body && req.body["startYear"] == Num(range.startYear)
    ensures "endYear" in req.body && req.body["endYear"] == Num(range.endYear)
    ensures mode == PersonsMode && personId != Undefined ==> "personID" in req.body && req.body["personID"] == personId
    ensures personId == Undefined || mode == CountMode ==> "personID" !in req.body
  {
    var years := map["startYear" := Num(range.startYear), "endYear" := Num(range.endYear)];
    match mode
    case CountMode =>
      NamesSelectTheirStatement(CountPersonsXRoyalCourtInTimeRange);
      Request(Name(CountPersonsXRoyalCourtInTimeRange), years)
    case PersonsMode =>
      NamesSelectTheirStatement(PersonsOfRoyalCourtInTimeRange);
      Request(Name(PersonsOfRoyalCourtInTimeRange), Put(years, "personID", personId))
  }

  /** The parameters the route binds for a request. */
  function ParamsOf(req: Request): seq<JsValue>
  {
    PresentValues(ExpectedKeys(StatementNamed(req.name)), req.body)
  }

  /**
   * A bubble request binds the years (after the court's lord in persons mode),
   * one value per key the statement reads, so by `StatementArities` one per
   * placeholder; without a current person the persons query is one value short.
   */
  lemma BubbleParams(mode: Mode, personId: JsValue, range: Slider.Range)
    ensures var req := BubbleRequest(mode, personId, range);
      var keys := ExpectedKeys(StatementNamed(req.name));
      && (mode == CountMode ==>
            ParamsOf(req) == [Num(range.startYear), Num(range.endYear)] && |ParamsOf(req)| == |keys|)
      && (mode == PersonsMode && personId != Undefined ==>
            ParamsOf(req) == [personId, Num(range.startYear), Num(range.endYear)] && |ParamsOf(req)| == |keys|)
      && (mode == PersonsMode && personId == Undefined ==>
            ParamsOf(req) == [Num(range.startYear), Num(range.endYear)] && |ParamsOf(req)| < |keys|)
  {
    var req := BubbleRequest(mode, personId, range);
    PushesOf(StatementNamed(req.name), req.body);
  }

  /** The statement of the `i`-th request of updateFamilyTree: the person, parents, wives, husbands, then one per spouse. */
  function TreeStatement(i: nat): Statement
  {
    if i == 0 then PersonById
    else if i == 1 then Parents
    else if i == 2 then Wives
    else if i == 3 then Husbands
    else ChildrenOfSpouse
  }

  /** The requests updateFamilyTree sends for a person with the given spouses, in order. */
  function TreeRequests(personId: JsValue, spouseIds: seq<JsValue>): (reqs: seq<Request>)
    ensures |reqs| == 4 + |spouseIds|
    ensures forall i | 0 <= i < |reqs| :: reqs[i].name == Name(TreeStatement(i))
    ensures forall i | 0 <= i < |reqs| :: reqs[i].body == Put(
      if i < 4 then map[] else Put(map[], "spouseID", spouseIds[i - 4]), "personID", personId)
  {
    var one := Put(map[], "personID", personId);
    [Request(Name(PersonById), one), Request(Name(Parents), one), Request(Name(Wives), one),
     Request(Name(Husbands), one)]
    + seq(|spouseIds|, i requires 0 <= i < |spouseIds| =>
        Request(Name(ChildrenOfSpouse), Put(Put(map[], "spouseID", spouseIds[i]), "personID", personId)))
  }

  /**
   * The route answers the `i`-th tree request with its statement, bound to the
   * person, and for a children request to the person and that spouse: one value
   * per key the statement reads, so by `StatementArities` one per placeholder.
   */
  lemma TreeParams(personId: JsValue, spouseIds: seq<JsValue>, i: nat)
    requires personId != Undefined
    requires forall i | 0 <= i < |spouseIds| :: spouseIds[i] != Undefined
    requires i < 4 + |spouseIds|
    ensures var req := TreeRequests(personId, spouseIds)[i];
      && StatementNamed(req.name) == TreeStatement(i)
      && (i < 4 ==> ParamsOf(req) == [personId])
      && (i >= 4 ==> ParamsOf(req) == [personId, spouseIds[i - 4]])
      && |ParamsOf(req)| == |ExpectedKeys(TreeStatement(i))|
  {
    var req := TreeRequests(personId, spouseIds)[i];
    NamesSelectTheirStatement(TreeStatement(i));
    PushesOf(TreeStatement(i), req.body);
  }

  /** The person a circle stands for: its datum's `personID`, `undefined` for the stand-in root. */
  function PersonIdOf(c: Circle): (id: JsValue)
    ensures c.datum.Some? ==> id == c.datum.value.personId
    ensures c.datum.None? ==> id == Undefined
  {
    if c.datum.Some? then c.datum.value.personId else Undefined
  }

  /** The client's module state. */
  class Controller {
    var mode: Mode
    var currentPersonId: JsValue

    constructor ()
      ensures mode == CountMode && currentPersonId == Null
    {
      mode := CountMode;
      currentPersonId := Null;
    }

    /**
     * updateBubblesByMode: a given mode replaces the current one, falsy years
     * give way to the slider's, and the mode's updater sends its request.
     */
    method UpdateBubblesByMode(startYear: YearArg, endYear: YearArg, newMode: Option<Mode>, slider: Slider.Range)
      returns (req: Request)
      modifies this
      ensures mode == (if newMode.Some? then newMode.value else old(mode))
      ensures currentPersonId == old(currentPersonId)
      ensures req == BubbleRequest(mode, currentPersonId, EffectiveRange(startYear, endYear, slider))
    {
      if newMode.Some? {
        mode := newMode.value;
      }
      var range := Slider.Range(0, 0);
      if !TruthyYear(startYear) || !TruthyYear(endYear) {
        range := slider;
      } else {
        range := Slider.Range(startYear.value, endYear.value);
      }
      req := BubbleRequest(mode, currentPersonId, range);
    }

    /**
     * A click on circle `k`: the clicked person becomes current and its family
     * tree is requested; in count mode the bubbles switch to that court's
     * members, in persons mode only the circles' inline fills change: the
     * clicked circle is marked and every other gets its group colour back.
     */
    method Click(scene: seq<Circle>, k: nat, slider: Slider.Range)
      returns (treeFor: JsValue, req: Option<Request>, marked: Option<seq<Circle>>)
      requires k < |scene|
      modifies this
      ensures currentPersonId == PersonIdOf(scene[k]) && treeFor == PersonIdOf(scene[k])
      ensures mode == PersonsMode
      ensures old(mode) == CountMode ==>
        req == Some(BubbleRequest(PersonsMode, PersonIdOf(scene[k]), slider)) && marked == None
      ensures old(mode) == PersonsMode ==> req == None && marked == Some(Highlight(scene, k))
    {
      currentPersonId := PersonIdOf(scene[k]);
      treeFor := currentPersonId;
      if mode == CountMode {
        var r := UpdateBubblesByMode(None, None, Some(PersonsMode), slider);
        req := Some(r);
        marked := None;
      } else {
        req := None;
        marked := Some(Highlight(scene, k));
      }
    }

    /**
     * The reset button: back to count mode over the slider's range, and the
     * family tree emptied. The current person is left as it was.
     */
    method Reset(slider: Slider.Range) returns (req: Request, treeFor: JsValue)
      modifies this
      ensures mode == CountMode && currentPersonId == old(currentPersonId)
      ensures req == BubbleRequest(CountMode, currentPersonId, slider)
      ensures treeFor == Null
    {
      req := UpdateBubblesByMode(None, None, Some(CountMode), slider);
      treeFor := Null;
    }
  }

  /**
   * Clicking in count mode and then resetting returns to count mode with the
   * clicked person still current, so a later switch to persons mode without a
   * click shows that person's court again.
   */
  method ClickThenReset(scene: seq<Circle>, k: nat, slider: Slider.Range)
    returns (c: Controller)
    requires k < |scene|
    ensures fresh(c)
    ensures c.mode == CountMode && c.currentPersonId == PersonIdOf(scene[k])
  {
    c := new Controller();
    var treeFor, req, marked := c.Click(scene, k, slider);
    var req2, cleared := c.Reset(slider);
  }
}
