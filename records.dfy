/**
 * The record mappers of the client: database rows become family-tree person
 * nodes (mapToDTreePersons) or bubble data (the two `res.map` callbacks of the
 * count and persons bubble updaters).
 */
module Records {
  import opened JsValues

  /** A `person` row joined with its image source, column by column. */
  datatype PersonRow = PersonRow(
    id: JsValue,            // F41, the person's identifier
    gender: JsValue,        // F24, 'm' or 'w' when known
    displayLabel: JsValue,  // ZLabel, the display label
    birthDate: JsValue,     // F13
    birthPlace: JsValue,    // F15
    deathDate: JsValue,     // F14
    deathPlace: JsValue,    // F17
    funeralPlace: JsValue,  // F16
    comment: JsValue,       // Kommentar
    source: JsValue)        // Source, the image URL of the LEFT JOIN with `bild`

  /** The `extra` object handed to the tree's renderers. */
  datatype Extra = Extra(
    id: JsValue, imageUrl: JsValue,
    birthDate: JsValue, birthPlace: JsValue, deathDate: JsValue, deathPlace: JsValue,
    funeralPlace: JsValue, comment: JsValue)

  /**
   * A node of the family tree. A mapped person has no `marriages` key until the
   * tree assembly sets one (Absent); the placeholder spouse carries only a name
   * and a CSS class.
   */
  datatype PersonNode =
    | Person(
        id: JsValue, gender: JsValue,
        birthDate: JsValue, birthPlace: JsValue, deathDate: JsValue, deathPlace: JsValue,
        funeralPlace: JsValue, comment: JsValue,
        name: JsValue, cssClass: string, extra: Extra,
        marriages: MarriagesKey)
    | Placeholder(name: JsValue, cssClass: string)

  /** The `marriages` key of a node: absent, or present with its list. */
  datatype MarriagesKey = Absent | Present(list: seq<Marriage>)

  datatype Marriage = Marriage(spouse: PersonNode, children: seq<PersonNode>)

  /** The CSS class of a node: strict comparison of F24 with 'm' and 'w'. */
  function GenderClass(gender: JsValue): (c: string)
    ensures c == "man" <==> gender == Str("m")
    ensures c == "woman" <==> gender == Str("w")
    ensures c == "neutral" <==> gender != Str("m") && gender != Str("w")
  {
    if gender == Str("m") then "man" else if gender == Str("w") then "woman" else "neutral"
  }

  /** One row of mapToDTreePersons. */
  function ToPersonNode(row: PersonRow): (p: PersonNode)
    ensures p.Person? && p.marriages == Absent
    ensures p.id == row.id && p.extra.id == row.id
    ensures Truthy(row.displayLabel) ==> p.name == row.displayLabel
    ensures !Truthy(row.displayLabel) ==> p.name == row.id
    ensures p.cssClass == GenderClass(row.gender)
    ensures p.extra.imageUrl == Null || (Truthy(p.extra.imageUrl) && p.extra.imageUrl == row.source)
    ensures Truthy(row.source) <==> p.extra.imageUrl != Null
  {
    Person(
      row.id, row.gender,
      row.birthDate, row.birthPlace, row.deathDate, row.deathPlace, row.funeralPlace, row.comment,
      Or(row.displayLabel, row.id), GenderClass(row.gender),
      Extra(row.id, Or(row.source, Null),
            row.birthDate, row.birthPlace, row.deathDate, row.deathPlace, row.funeralPlace, row.comment),
      Absent)
  }

  /** mapToDTreePersons: one node per row, in row order. */
  function MapToDTreePersons(rows: seq<PersonRow>): (nodes: seq<PersonNode>)
    ensures |nodes| == |rows|
    ensures forall i | 0 <= i < |rows| :: nodes[i] == ToPersonNode(rows[i])
  {
    seq(|rows|, i requires 0 <= i < |rows| => ToPersonNode(rows[i]))
  }

  /** The colours the client reads from its style sheet, and the literal ones it names. */
  datatype Color = Primary | Secondary | ManColor | WomanColor | Grey | Black | White | Transparent

  /**
   * The `group` of a bubble datum: a count in count mode, a colour in persons
   * mode; the hierarchy root that stands in for an empty data set has none.
   */
  datatype Group = Weight(count: int) | Hue(color: Color) | NoGroup

  /** A bubble datum: what the pack layout and the reconciler bind to a circle. */
  datatype Bubble = Bubble(name: JsValue, title: JsValue, group: Group, value: int, personId: JsValue)

  /** A row of COUNT-PERSONS-X-ROYALCOURT-IN-TIMERANGE: a court, its member count, its lord. */
  datatype CountRow = CountRow(courtName: JsValue, count: nat, lordId: JsValue)

  /** The count-mode callback: `name` is "<court name>: <count>". */
  function CountBubble(row: CountRow): (b: Bubble)
    ensures b.group == Weight(row.count) && b.value == row.count
    ensures b.title == row.courtName && b.personId == row.lordId
    ensures b.name.Str?
    ensures var prefix := ToJsString(row.courtName) + ": ";
      |prefix| < |b.name.s| && b.name.s[..|prefix|] == prefix
      && ParseDecimal(b.name.s[|prefix|..]) == row.count
      && forall i | |prefix| <= i < |b.name.s| :: IsDigit(b.name.s[i])
  {
    var prefix := ToJsString(row.courtName) + ": ";
    var name := prefix + Decimal(row.count);
    assert name[|prefix|..] == Decimal(row.count);
    DecimalRoundTrip(row.count);
    Bubble(Str(name), row.courtName, Weight(row.count), row.count, row.lordId)
  }

  /** The colour of a member bubble: F24 'm' / 'w' / anything else. */
  function GenderColor(gender: JsValue): (c: Color)
    ensures c == ManColor <==> gender == Str("m")
    ensures c == WomanColor <==> gender == Str("w")
    ensures c == Grey <==> gender != Str("m") && gender != Str("w")
  {
    if gender == Str("m") then ManColor else if gender == Str("w") then WomanColor else Grey
  }

  /** The persons-mode callback: constant weight 5, label falling back to the identifier. */
  function PersonBubble(row: PersonRow): (b: Bubble)
    ensures b.value == 5 && b.personId == row.id
    ensures b.name == b.title
    ensures b.name == (if Truthy(row.displayLabel) then row.displayLabel else row.id)
    ensures b.group.Hue? && b.group.color in {ManColor, WomanColor, Grey}
    ensures b.group == Hue(GenderColor(row.gender))
  {
    Bubble(Or(row.displayLabel, row.id), Or(row.displayLabel, row.id), Hue(GenderColor(row.gender)), 5, row.id)
  }

  function CountBubbles(rows: seq<CountRow>): (data: seq<Bubble>)
    ensures |data| == |rows|
    ensures forall i | 0 <= i < |rows| :: data[i] == CountBubble(rows[i])
  {
    seq(|rows|, i requires 0 <= i < |rows| => CountBubble(rows[i]))
  }

  function PersonBubbles(rows: seq<PersonRow>): (data: seq<Bubble>)
    ensures |data| == |rows|
    ensures forall i | 0 <= i < |rows| :: data[i] == PersonBubble(rows[i])
  {
    seq(|rows|, i requires 0 <= i < |rows| => PersonBubble(rows[i]))
  }

  /** The tree node and the bubble built from the same row agree on name and identifier. */
  lemma NodeAndBubbleAgree(row: PersonRow)
    ensures ToPersonNode(row).name == PersonBubble(row).name
    ensures ToPersonNode(row).id == PersonBubble(row).personId
    ensures ToPersonNode(row).cssClass == "man" <==> PersonBubble(row).group == Hue(ManColor)
    ensures ToPersonNode(row).cssClass == "woman" <==> PersonBubble(row).group == Hue(WomanColor)
  {
  }
}
