/**
 * The statement dispatcher of the `/sql/:stmt` route: the fixed SQL texts, and
 * the choice of text and parameter list for a statement name and a request body.
 */
module Statements {
  import opened JsValues

  /** A piece of SQL text: literal text without `?`, or one `?` placeholder. */
  datatype Piece = Text(s: string) | Mark

  type Sql = seq<Piece>

  /** The SQL text sent to the database, placeholders written as `?`. */
  function Render(sql: Sql): string
    decreases |sql|
  {
    if sql == [] then ""
    else (match sql[0] case Text(s) => s case Mark => "?") + Render(sql[1..])
  }

  /** The number of `?` placeholders, which the driver pairs with the parameter list. */
  function Arity(sql: Sql): nat
    decreases |sql|
  {
    if sql == [] then 0 else (if sql[0] == Mark then 1 else 0) + Arity(sql[1..])
  }

  /** Placeholders add up over concatenated texts. */
  lemma {:induction false} ArityAppend(a: Sql, b: Sql)
    ensures Arity(a + b) == Arity(a) + Arity(b)
    decreases |a|
  {
    if a == [] {
      assert a + b == b;
    } else {
      assert (a + b)[0] == a[0];
      assert (a + b)[1..] == a[1..] + b;
      ArityAppend(a[1..], b);
    }
  }

  lemma {:induction false} RenderAppend(a: Sql, b: Sql)
    ensures Render(a + b) == Render(a) + Render(b)
    decreases |a|
  {
    if a == [] {
      assert a + b == b;
    } else {
      assert (a + b)[0] == a[0];
      assert (a + b)[1..] == a[1..] + b;
      RenderAppend(a[1..], b);
    }
  }

  const PersonSql: Sql := [Text("SELECT p.* FROM person p WHERE p.F41 = "), Mark]

  const PersonsInTimeRangeSql: Sql := [
    Text("SELECT h.* FROM person p \n     JOIN transkriptionen t ON p.F41 = t.F41\n     JOIN hofstaat h ON t.Hofherr = h.Hofherr\n     WHERE t.Dienstbeginn > "),
    Mark, Text(" AND t.Dienstbeginn < "), Mark]

  /** The count query nests the time-range join as a derived table. */
  const CountPersonsInTimeRangeSql: Sql :=
    [Text("SELECT ph.Bezeichnung, COUNT(ph.Hofherr), ph.F41\n     FROM (")]
    + PersonsInTimeRangeSql
    + [Text(") AS ph\n     GROUP BY ph.Hofherr")]

  const PersonsOfRoyalCourtSql: Sql := [
    Text("SELECT DISTINCT p.* FROM person p \n     JOIN transkriptionen t ON p.F41 = t.F41 \n     JOIN hofstaat h ON t.Hofherr = h.Hofherr \n     WHERE h.F41 = "),
    Mark, Text("\n     AND t.Dienstbeginn > "), Mark, Text(" AND t.Dienstbeginn < "), Mark]

  const ParentsSql: Sql := [
    Text("SELECT parent.* FROM person p \n    JOIN beziehung b ON p.F41 = b.F41Y \n    JOIN person parent ON parent.F41=b.F41X\n    WHERE b.ART = 1 \n    AND p.F41 = "),
    Mark]

  const ChildrenSql: Sql := [
    Text("SELECT child.* FROM person p \n    JOIN beziehung b ON p.F41 = b.F41X \n    JOIN person child ON child.F41 = b.F41Y \n    WHERE b.ART = 1 \n    AND p.F41 = "),
    Mark]

  const ChildrenOfSpouseSql: Sql := [
    Text("SELECT child.* FROM person p \n    JOIN beziehung b ON p.F41 = b.F41X \n    JOIN person child ON child.F41 = b.F41Y \n    JOIN beziehung bSpouse ON child.F41 = bSpouse.F41Y \n    JOIN person spouse ON spouse.F41 = bSpouse.F41X\n    WHERE b.ART = 1 \n    AND bSpouse.ART = 1 \n    AND p.F41 = "),
    Mark, Text("\n    AND spouse.F41 = "), Mark]

  const WivesSql: Sql := [
    Text("SELECT wife.* FROM person p\n    JOIN beziehung b ON p.F41 = b.F41X \n    JOIN person wife ON wife.F41 = b.F41Y \n    WHERE b.ART = 2 \n    AND p.F41 = "),
    Mark]

  const HusbandsSql: Sql := [
    Text("SELECT husband.* FROM person p \n    JOIN beziehung b ON p.F41 = b.F41Y \n    JOIN person husband ON husband.F41 = b.F41X \n    WHERE b.ART = 2 \n    AND p.F41 = "),
    Mark]

  const RecordsMinDateSql: Sql :=
    [Text("SELECT MIN(Dienstbeginn) AS `MIN(Records)` FROM transkriptionen WHERE Dienstbeginn<>''")]

  const RecordsMaxDateSql: Sql :=
    [Text("SELECT MAX(Dienstbeginn)  AS `MAX(Records)` FROM transkriptionen WHERE Dienstbeginn<>'' ")]

  const ImagesSql: Sql := [Text("SELECT * FROM bild")]

  const SetImageSourceSql: Sql := [Text("UPDATE bild SET Source = "), Mark, Text(" WHERE F41 = "), Mark]

  /** The statement of an unknown name. */
  const AllPersonsSql: Sql := [Text("SELECT * FROM person")]

  const ImageJoinPrefix := "SELECT pSelect.*, img.Source  FROM ("
  const ImageJoinSuffix := ") AS pSelect LEFT JOIN bild img ON pSelect.F41 = img.F41"

  /**
   * The image left join with its `{0}` replaced by `inner`: each selected person
   * row gains the `Source` column of its picture, and no placeholder is added.
   */
  function WithImage(inner: Sql): (sql: Sql)
    ensures Arity(sql) == Arity(inner)
  {
    ArityAppend([Text(ImageJoinPrefix)] + inner, [Text(ImageJoinSuffix)]);
    ArityAppend([Text(ImageJoinPrefix)], inner);
    [Text(ImageJoinPrefix)] + inner + [Text(ImageJoinSuffix)]
  }

  /** The `{0}` substitution is textual: the inner statement sits between the join's two halves. */
  lemma WithImageRender(inner: Sql)
    ensures Render(WithImage(inner)) == ImageJoinPrefix + Render(inner) + ImageJoinSuffix
  {
    RenderAppend([Text(ImageJoinPrefix)] + inner, [Text(ImageJoinSuffix)]);
    RenderAppend([Text(ImageJoinPrefix)], inner);
    assert Render([Text(ImageJoinSuffix)]) == ImageJoinSuffix;
    assert Render([Text(ImageJoinPrefix)]) == ImageJoinPrefix;
  }

  /** The statements the route knows by name, and the fallback for any other name. */
  datatype Statement =
    | CountPersonsXRoyalCourtInTimeRange
    | PersonsOfRoyalCourtInTimeRange
    | PersonById
    | Parents
    | Children
    | ChildrenOfSpouse
    | Husbands
    | Wives
    | RecordsMinDate
    | RecordsMaxDate
    | Unknown

  /** The `:stmt` path segment of a known statement. */
  function Name(s: Statement): string
  {
    match s
    case CountPersonsXRoyalCourtInTimeRange => "COUNT-PERSONS-X-ROYALCOURT-IN-TIMERANGE"
    case PersonsOfRoyalCourtInTimeRange => "PERSONS-OF-ROYALCOURT-IN-TIMERANGE"
    case PersonById => "PERSON"
    case Parents => "PARENTS"
    case Children => "CHILDREN"
    case ChildrenOfSpouse => "CHILDREN-OF-SPOUSE"
    case Husbands => "HUSBANDS"
    case Wives => "WIFES"
    case RecordsMinDate => "RECORDS-MIN-DATE"
    case RecordsMaxDate => "RECORDS-MAX-DATE"
    case Unknown => ""
  }

  /** The case of the route's switch a path segment falls into. */
  function StatementNamed(name: string): (s: Statement)
    ensures s != Unknown ==> Name(s) == name
  {
    if name == "COUNT-PERSONS-X-ROYALCOURT-IN-TIMERANGE" then CountPersonsXRoyalCourtInTimeRange
    else if name == "PERSONS-OF-ROYALCOURT-IN-TIMERANGE" then PersonsOfRoyalCourtInTimeRange
    else if name == "PERSON" then PersonById
    else if name == "PARENTS" then Parents
    else if name == "CHILDREN" then Children
    else if name == "CHILDREN-OF-SPOUSE" then ChildrenOfSpouse
    else if name == "HUSBANDS" then Husbands
    else if name == "WIFES" then Wives
    else if name == "RECORDS-MIN-DATE" then RecordsMinDate
    else if name == "RECORDS-MAX-DATE" then RecordsMaxDate
    else Unknown
  }

  /** Every known statement is reached by its own name. */
  lemma NamesSelectTheirStatement(s: Statement)
    requires s != Unknown
    ensures StatementNamed(Name(s)) == s
  {
  }

  /** The SQL text the switch selects for a statement. */
  function StatementSql(s: Statement): Sql
  {
    match s
    case CountPersonsXRoyalCourtInTimeRange => CountPersonsInTimeRangeSql
    case PersonsOfRoyalCourtInTimeRange => PersonsOfRoyalCourtSql
    case PersonById => WithImage(PersonSql)
    case Parents => WithImage(ParentsSql)
    case Children => WithImage(ChildrenSql)
    case ChildrenOfSpouse => WithImage(ChildrenOfSpouseSql)
    case Husbands => WithImage(HusbandsSql)
    case Wives => WithImage(WivesSql)
    case RecordsMinDate => RecordsMinDateSql
    case RecordsMaxDate => RecordsMaxDateSql
    case Unknown => AllPersonsSql
  }

  /** The body keys a statement reads, in the order their values are pushed. */
  function ExpectedKeys(s: Statement): seq<string>
  {
    match s
    case CountPersonsXRoyalCourtInTimeRange => ["startYear", "endYear"]
    case PersonsOfRoyalCourtInTimeRange => ["personID", "startYear", "endYear"]
    case ChildrenOfSpouse => ["personID", "spouseID"]
    case PersonById => ["personID"]
    case Parents => ["personID"]
    case Children => ["personID"]
    case Husbands => ["personID"]
    case Wives => ["personID"]
    case RecordsMinDate => []
    case RecordsMaxDate => []
    case Unknown => []
  }

  /** The values of those keys the body has, in key order; a missing key is skipped. */
  function PresentValues(keys: seq<string>, body: map<string, JsValue>): (vs: seq<JsValue>)
    ensures |vs| <= |keys|
    decreases |keys|
  {
    if keys == [] then []
    else (if keys[0] in body then [body[keys[0]]] else []) + PresentValues(keys[1..], body)
  }

  /** With every key present the values come out one per key, in key order. */
  lemma {:induction false} PresentValuesComplete(keys: seq<string>, body: map<string, JsValue>)
    requires forall i | 0 <= i < |keys| :: keys[i] in body
    ensures |PresentValues(keys, body)| == |keys|
    ensures forall i | 0 <= i < |keys| :: PresentValues(keys, body)[i] == body[keys[i]]
    decreases |keys|
  {
    if keys != [] {
      PresentValuesComplete(keys[1..], body);
    }
  }

  /** A missing key shortens the list: no value is made up for it. */
  lemma {:induction false} MissingKeyShortens(keys: seq<string>, body: map<string, JsValue>, j: nat)
    requires j < |keys| && keys[j] !in body
    ensures |PresentValues(keys, body)| < |keys|
    ensures forall v | v in PresentValues(keys, body) :: v in body.Values
    decreases |keys|
  {
    PresentValuesInBody(keys, body);
    if j > 0 {
      MissingKeyShortens(keys[1..], body, j - 1);
    }
  }

  lemma {:induction false} PresentValuesInBody(keys: seq<string>, body: map<string, JsValue>)
    ensures forall v | v in PresentValues(keys, body) :: v in body.Values
    decreases |keys|
  {
    if keys != [] {
      PresentValuesInBody(keys[1..], body);
    }
  }

  /** The parameter one push adds: the body's value for the key, or nothing. */
  function Pushed(key: string, body: map<string, JsValue>): seq<JsValue>
  {
    if key in body then [body[key]] else []
  }

  lemma KeyLists(body: map<string, JsValue>, a: string, b: string, c: string)
    ensures PresentValues([a], body) == Pushed(a, body)
    ensures PresentValues([a, b], body) == Pushed(a, body) + Pushed(b, body)
    ensures PresentValues([a, b, c], body) == Pushed(a, body) + Pushed(b, body) + Pushed(c, body)
  {
    assert [a][1..] == [];
    assert [a, b][1..] == [b];
    assert [a, b, c][1..] == [b, c];
    assert PresentValues([b, c], body) == Pushed(b, body) + Pushed(c, body);
    assert Pushed(a, body) + (Pushed(b, body) + Pushed(c, body))
      == Pushed(a, body) + Pushed(b, body) + Pushed(c, body);
  }

  /** The pushes of each case of the switch, one per key the statement reads. */
  lemma PushesOf(s: Statement, body: map<string, JsValue>)
    ensures var vs := PresentValues(ExpectedKeys(s), body);
      match s
      case CountPersonsXRoyalCourtInTimeRange => vs == Pushed("startYear", body) + Pushed("endYear", body)
      case PersonsOfRoyalCourtInTimeRange =>
        vs == Pushed("personID", body) + Pushed("startYear", body) + Pushed("endYear", body)
      case ChildrenOfSpouse => vs == Pushed("personID", body) + Pushed("spouseID", body)
      case RecordsMinDate => vs == []
      case RecordsMaxDate => vs == []
      case Unknown => vs == []
      case _ => vs == Pushed("personID", body)
  {
    KeyLists(body, "personID", "startYear", "endYear");
    KeyLists(body, "startYear", "endYear", "");
    KeyLists(body, "personID", "spouseID", "");
  }

  /**
   * The pushes of one case of the route's switch: the body's values in the
   * statement's fixed order, each only when the body has that key.
   */
  method PushParams(st: Statement, body: map<string, JsValue>) returns (params: seq<JsValue>)
    ensures params == PresentValues(ExpectedKeys(st), body)
  {
    PushesOf(st, body);
    params := [];
    match st
    case CountPersonsXRoyalCourtInTimeRange =>
      if "startYear" in body { params := params + [body["startYear"]]; }
      if "endYear" in body { params := params + [body["endYear"]]; }
    case PersonsOfRoyalCourtInTimeRange =>
      if "personID" in body { params := params + [body["personID"]]; }
      if "startYear" in body { params := params + [body["startYear"]]; }
      if "endYear" in body { params := params + [body["endYear"]]; }
    case PersonById =>
      if "personID" in body { params := params + [body["personID"]]; }
    case Parents =>
      if "personID" in body { params := params + [body["personID"]]; }
    case Children =>
      if "personID" in body { params := params + [body["personID"]]; }
    case ChildrenOfSpouse =>
      if "personID" in body { params := params + [body["personID"]]; }
      if "spouseID" in body { params := params + [body["spouseID"]]; }
    case Husbands =>
      if "personID" in body { params := params + [body["personID"]]; }
    case Wives =>
      if "personID" in body { params := params + [body["personID"]]; }
    case RecordsMinDate =>
    case RecordsMaxDate =>
    case Unknown =>
  }

  /** The route: the switch on the name picks the text and the pushes. */
  method Dispatch(name: string, body: map<string, JsValue>) returns (sql: Sql, params: seq<JsValue>)
    ensures sql == StatementSql(StatementNamed(name))
    ensures params == PresentValues(ExpectedKeys(StatementNamed(name)), body)
  {
    var st := StatementNamed(name);
    sql := StatementSql(st);
    params := PushParams(st, body);
  }

  lemma CountArity()
    ensures Arity(CountPersonsInTimeRangeSql) == 2
  {
    var prefix: Sql := [Text("SELECT ph.Bezeichnung, COUNT(ph.Hofherr), ph.F41\n     FROM (")];
    ArityAppend(prefix + PersonsInTimeRangeSql, [Text(") AS ph\n     GROUP BY ph.Hofherr")]);
    ArityAppend(prefix, PersonsInTimeRangeSql);
    assert Arity(PersonsInTimeRangeSql) == 2;
  }

  lemma PersonsOfRoyalCourtArity()
    ensures Arity(PersonsOfRoyalCourtSql) == 3
  {
  }

  lemma ChildrenOfSpouseArity()
    ensures Arity(WithImage(ChildrenOfSpouseSql)) == 2
  {
    assert Arity(ChildrenOfSpouseSql) == 2;
  }

  /** The single-person statements have one placeholder, wrapped or not. */
  lemma SinglePersonArities()
    ensures Arity(WithImage(PersonSql)) == 1 && Arity(WithImage(ParentsSql)) == 1
    ensures Arity(WithImage(ChildrenSql)) == 1 && Arity(WithImage(HusbandsSql)) == 1
    ensures Arity(WithImage(WivesSql)) == 1
  {
    assert Arity(PersonSql) == 1 && Arity(ParentsSql) == 1 && Arity(ChildrenSql) == 1;
    assert Arity(HusbandsSql) == 1 && Arity(WivesSql) == 1;
  }

  /** The date range queries and the fallback have none. */
  lemma ParameterlessArities()
    ensures Arity(RecordsMinDateSql) == 0 && Arity(RecordsMaxDateSql) == 0 && Arity(AllPersonsSql) == 0
  {
  }

  /** Each statement's text has one placeholder per key it reads. */
  lemma StatementArities(s: Statement)
    ensures Arity(StatementSql(s)) == |ExpectedKeys(s)|
  {
    match s
    case CountPersonsXRoyalCourtInTimeRange => CountArity();
    case PersonsOfRoyalCourtInTimeRange => PersonsOfRoyalCourtArity();
    case ChildrenOfSpouse => ChildrenOfSpouseArity();
    case RecordsMinDate => ParameterlessArities();
    case RecordsMaxDate => ParameterlessArities();
    case Unknown => ParameterlessArities();
    case _ => SinglePersonArities();
  }

  /** The image update binds the new source and the person: two placeholders. */
  lemma SetImageSourceArity()
    ensures Arity(SetImageSourceSql) == 2
  {
  }

  /**
   * A request whose body has every key its statement reads binds exactly as
   * many values as the chosen text has placeholders, so the driver can pair them.
   */
  lemma ParamsMatchPlaceholders(name: string, body: map<string, JsValue>)
    requires forall k | k in ExpectedKeys(StatementNamed(name)) :: k in body
    ensures var keys := ExpectedKeys(StatementNamed(name));
      |PresentValues(keys, body)| == |keys| == Arity(StatementSql(StatementNamed(name)))
      && forall i | 0 <= i < |keys| :: PresentValues(keys, body)[i] == body[keys[i]]
  {
    PresentValuesComplete(ExpectedKeys(StatementNamed(name)), body);
    StatementArities(StatementNamed(name));
  }
}
