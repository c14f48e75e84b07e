/**
 * The family-tree assembly of updateFamilyTree: from the row sets fetched for a
 * focal person (the person, its parents, its wives and husbands, and for each
 * spouse the children it shares with the focal person) build the single root
 * handed to the tree renderer.
 */
module FamilyTree {
  import opened JsValues
  import opened Records

  /** What one call leaves in the tree panel. */
  datatype TreeOutcome =
    | Cleared              // a falsy person id: the panel is emptied and nothing is fetched
    | NotFound             // no row for the focal person: the assembly stops with a TypeError
    | Rendered(root: PersonNode)

  /** The marriages of the focal person: one per spouse, in order, with that spouse's children. */
  function SpouseMarriages(spouses: seq<PersonNode>, childrenOf: JsValue -> seq<PersonRow>): (ms: seq<Marriage>)
    requires forall i | 0 <= i < |spouses| :: spouses[i].Person?
    ensures |ms| == |spouses|
    ensures forall i | 0 <= i < |ms| ::
      ms[i].spouse == spouses[i] && ms[i].children == MapToDTreePersons(childrenOf(spouses[i].id))
  {
    seq(|spouses|, i requires 0 <= i < |spouses| =>
      Marriage(spouses[i], MapToDTreePersons(childrenOf(spouses[i].id))))
  }

  /** The focal node: its own row mapped, its marriages set, and its class marked selected. */
  function Focal(person: PersonRow, marriages: seq<Marriage>): (p: PersonNode)
    ensures p.Person? && p.id == person.id && p.name == ToPersonNode(person).name
    ensures p.cssClass == GenderClass(person.gender) + " selected"
    ensures p.marriages == Present(marriages)
    ensures p.(marriages := Absent, cssClass := GenderClass(person.gender)) == ToPersonNode(person)
  {
    var node := ToPersonNode(person);
    node.(marriages := Present(marriages), cssClass := node.cssClass + " selected")
  }

  /** The co-parent: the second parent row when there is one, else an empty-named placeholder of the other class. */
  function CoParent(first: PersonNode, parents: seq<PersonRow>): (s: PersonNode)
    requires |parents| >= 1
    ensures |parents| > 1 ==> s == ToPersonNode(parents[1])
    ensures |parents| == 1 ==> s.Placeholder? && s.name == Str("")
    ensures |parents| == 1 ==> (s.cssClass == "woman" <==> first.cssClass == "man")
    ensures |parents| == 1 ==> s.cssClass in {"man", "woman"}
  {
    if |parents| > 1 then ToPersonNode(parents[1])
    else Placeholder(Str(""), if first.cssClass == "man" then "woman" else "man")
  }

  /** The root over the focal node: the first parent, married to the co-parent, with the focal node as only child. */
  function Root(focal: PersonNode, parents: seq<PersonRow>): (r: PersonNode)
  {
    if parents == [] then focal
    else
      var parent := ToPersonNode(parents[0]);
      parent.(marriages := Present([Marriage(CoParent(parent, parents), [focal])]))
  }

  /**
   * The whole of updateFamilyTree after its fetches, as a value. The results of
   * the children-of-spouse fetches are `childrenOf`, keyed by the spouse's id.
   */
  function FamilyTreeOf(personId: JsValue, persons: seq<PersonRow>, parents: seq<PersonRow>,
                        wives: seq<PersonRow>, husbands: seq<PersonRow>,
                        childrenOf: JsValue -> seq<PersonRow>): (t: TreeOutcome)
    ensures t == Cleared <==> !Truthy(personId)
    ensures t == NotFound <==> Truthy(personId) && persons == []
    ensures t.Rendered? && parents == [] ==>
      t.root == Focal(persons[0], SpouseMarriages(MapToDTreePersons(wives + husbands), childrenOf))
    ensures t.Rendered? && parents != [] ==>
      && t.root.Person? && t.root.id == parents[0].id
      && t.root.cssClass == GenderClass(parents[0].gender)
      && t.root.(marriages := Absent) == ToPersonNode(parents[0])
      && t.root.marriages.Present? && |t.root.marriages.list| == 1
      && t.root.marriages.list[0].children
         == [Focal(persons[0], SpouseMarriages(MapToDTreePersons(wives + husbands), childrenOf))]
      && t.root.marriages.list[0].spouse == CoParent(ToPersonNode(parents[0]), parents)
  {
    if !Truthy(personId) then Cleared
    else if persons == [] then NotFound
    else
      var spouses := MapToDTreePersons(wives + husbands);
      Rendered(Root(Focal(persons[0], SpouseMarriages(spouses, childrenOf)), parents))
  }

  /**
   * updateFamilyTree as the client runs it: spouses are wives then husbands, and
   * the marriages are pushed one spouse at a time.
   */
  method UpdateFamilyTree(personId: JsValue, persons: seq<PersonRow>, parents: seq<PersonRow>,
                          wives: seq<PersonRow>, husbands: seq<PersonRow>,
                          childrenOf: JsValue -> seq<PersonRow>)
    returns (t: TreeOutcome)
    ensures t == FamilyTreeOf(personId, persons, parents, wives, husbands, childrenOf)
  {
    if !Truthy(personId) {
      return Cleared;
    }
    var spouses := MapToDTreePersons(wives + husbands);
    var marriages: seq<Marriage> := [];
    var i := 0;
    while i < |spouses|
      invariant 0 <= i <= |spouses|
      invariant marriages == SpouseMarriages(spouses[..i], childrenOf)
    {
      var spouse := spouses[i];
      var children := MapToDTreePersons(childrenOf(spouse.id));
      marriages := marriages + [Marriage(spouse, children)];
      i := i + 1;
    }
    assert spouses[..i] == spouses;
    if persons == [] {
      return NotFound;
    }
    var person := ToPersonNode(persons[0]);
    person := person.(marriages := Present(marriages));
    person := person.(cssClass := person.cssClass + " selected");
    if |parents| > 0 {
      var mapped := MapToDTreePersons(parents);
      var parent := mapped[0];
      var coParent;
      if |mapped| > 1 {
        coParent := mapped[1];
      } else {
        coParent := Placeholder(Str(""), if parent.cssClass == "man" then "woman" else "man");
      }
      parent := parent.(marriages := Present([Marriage(coParent, [person])]));
      t := Rendered(parent);
    } else {
      t := Rendered(person);
    }
  }

  /** The node and everything it reaches through marriages spans at most `k` generations. */
  predicate WithinGenerations(n: PersonNode, k: nat)
    decreases n
  {
    && k >= 1
    && match n
       case Placeholder(_, _) => true
       case Person(_, _, _, _, _, _, _, _, _, _, _, Absent) => true
       case Person(_, _, _, _, _, _, _, _, _, _, _, Present(ms)) =>
         forall i | 0 <= i < |ms| ::
           && WithinGenerations(ms[i].spouse, k)
           && forall j | 0 <= j < |ms[i].children| :: WithinGenerations(ms[i].children[j], k - 1)
  }

  lemma {:induction false} MappedIsSingleGeneration(rows: seq<PersonRow>)
    ensures forall n | n in MapToDTreePersons(rows) :: WithinGenerations(n, 1)
  {
  }

  /**
   * The tree is bounded: the root, its children and its grandchildren and no
   * further, so a person married into their own ancestry cannot make it cyclic.
   */
  lemma {:induction false} TreeHasAtMostThreeGenerations(
    personId: JsValue, persons: seq<PersonRow>, parents: seq<PersonRow>,
    wives: seq<PersonRow>, husbands: seq<PersonRow>, childrenOf: JsValue -> seq<PersonRow>)
    ensures var t := FamilyTreeOf(personId, persons, parents, wives, husbands, childrenOf);
      t.Rendered? ==> WithinGenerations(t.root, 3)
    ensures var t := FamilyTreeOf(personId, persons, parents, wives, husbands, childrenOf);
      t.Rendered? && parents == [] ==> WithinGenerations(t.root, 2)
  {
    var t := FamilyTreeOf(personId, persons, parents, wives, husbands, childrenOf);
    if t.Rendered? {
      var spouses := MapToDTreePersons(wives + husbands);
      var focal := Focal(persons[0], SpouseMarriages(spouses, childrenOf));
      assert t.root == Root(focal, parents);
      FocalWithinTwoGenerations(persons[0], spouses, childrenOf);
      RootWithinThreeGenerations(focal, parents);
    }
  }

  /** The focal node, its spouses and their children span two generations. */
  lemma FocalWithinTwoGenerations(person: PersonRow, spouses: seq<PersonNode>, childrenOf: JsValue -> seq<PersonRow>)
    requires forall i | 0 <= i < |spouses| :: spouses[i].Person? && spouses[i].marriages == Absent
    ensures WithinGenerations(Focal(person, SpouseMarriages(spouses, childrenOf)), 2)
  {
    var ms := SpouseMarriages(spouses, childrenOf);
    forall m | m in ms
      ensures WithinGenerations(m.spouse, 1) && WithinGenerations(m.spouse, 2)
      ensures forall c | c in m.children :: WithinGenerations(c, 1)
    {
      MappedIsSingleGeneration(childrenOf(m.spouse.id));
    }
  }

  /** Putting the parents over a focal node of two generations gives at most three. */
  lemma RootWithinThreeGenerations(focal: PersonNode, parents: seq<PersonRow>)
    requires WithinGenerations(focal, 2)
    ensures WithinGenerations(Root(focal, parents), 3)
  {
    Raise(focal, 2);
    if parents != [] {
      var parent := ToPersonNode(parents[0]);
      var spouse := CoParent(parent, parents);
      assert WithinGenerations(spouse, 3);
    }
  }

  lemma {:induction false} Raise(n: PersonNode, k: nat)
    requires WithinGenerations(n, k)
    ensures WithinGenerations(n, k + 1)
    decreases n
  {
    match n
    case Placeholder(_, _) =>
    case Person(_, _, _, _, _, _, _, _, _, _, _, Absent) =>
    case Person(_, _, _, _, _, _, _, _, _, _, _, Present(ms)) =>
      forall i | 0 <= i < |ms|
        ensures WithinGenerations(ms[i].spouse, k + 1)
        ensures forall j | 0 <= j < |ms[i].children| :: WithinGenerations(ms[i].children[j], k)
      {
        Raise(ms[i].spouse, k);
        forall j | 0 <= j < |ms[i].children| ensures WithinGenerations(ms[i].children[j], k) {
          Raise(ms[i].children[j], k - 1);
        }
      }
  }
}
