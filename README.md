# Kaiser-Hof: a Dafny model of the client's data shaping and the statement route

Kaiser-Hof shows the royal household of the Habsburg court. It has two views.

- **The bubble chart** has one circle per court, sized by its member count. Clicking a court switches to its members, one circle per person.
- **The family tree** is drawn for a clicked person.

A time-range slider filters both views. The browser client (`public/js/kaiserhof.js`) does these things:

- It maps database rows to bubble data and to dTree person nodes.
- It assembles the family tree.
- It keeps a two-state controller: the mode and the current person.
- It reconciles circles with new data by a keyed d3 join.
- It throttles slider updates.

The server route (`routes/api.js`) maps a statement name and a body to a fixed SQL text and a parameter list. It also scrapes a person's portrait from a linked page by picking its largest image.

This project models these parts as Dafny datatypes, functions, methods and classes, and proves what each promises.

| file | module | what it models |
|---|---|---|
| `js_values.dfy` | `JsValues` | JavaScript values, truthiness, `\|\|`, number-to-string |
| `records.dfy` | `Records` | `mapToDTreePersons` and the two bubble row mappers |
| `family_tree.dfy` | `FamilyTree` | `updateFamilyTree` after its fetches: a pure function and the push loop |
| `bubbles.dfy` | `Bubbles` | the colour policy, hover radius, label visibility, circle styles, the label splitter |
| `reconcile.dfy` | `Reconcile` | the `getLeaves` keyed join, the document order of the `g` elements, the enter/update/exit passes, the circle's mouse and click handlers |
| `slider.dfy` | `Slider` | `dateFilter`, the `throttle` closure as a class, and slider event sequences |
| `statements.dfy` | `Statements` | the SQL constants with their placeholders, and the `/sql/:stmt` dispatch |
| `images.dfy` | `Images` | the URL rewrite, the largest-image fold, `getImgSourceUrlFromImgLink`, the extraction loop |
| `uid.dfy` | `Uid` | `generateUID` and the ids the enter pass derives from it |
| `controller.dfy` | `Controller` | `mMode`/`mCurrentPersonID` as a class; click, reset, `updateBubblesByMode`, and the requests they send |

Some modelling choices:

- **SQL texts.** Each is a sequence of text pieces and `Mark`s. A `Mark` stands for one `?`, so a text's arity is its number of marks. The text pieces are the literal text of the source.
- **Image wrapper.** `{0}` of the image-join wrapper is textual substitution of the inner statement.
- **Request bodies.** A body is the map the server receives from the client's JSON. A key whose value is `undefined` is absent.
- **d3 join keys.** These are strings, the way d3 compares them.
- **The render.** `updateBubbles` joins the `g` elements with the leaves three times.
  - The enter pass puts each new element before the element of the next leaf that updates one, or at the end.
  - The update and exit passes re-join every element in document order. For a key held by several elements, only the first in document order is updated; the others exit.
  - A circle carries the colour policy of the render that entered it, because its mouse-out and click handlers close over that render's `toColorGradient`.
  - A click in persons mode sets an inline `style("fill")`, which hides every later fill attribute.
- **Random draws.** The two draws of `Math.random` in `generateUID` are parameters in `[0, 1)`.
- **Scraper parameters.** Several things the scraper uses become parameters:
  - the page's `<img>` sources;
  - `isAbsoluteUrl`, as a predicate;
  - the parsed page address (address, protocol, hostname);
  - the image probe that `fetch` + `sizeOf` stand for.
- **Family tree input.** The family tree is computed from the fetched row sets, which are parameters. The children fetched per spouse are a function of the spouse's id.

## Model

| member | source | states |
|---|---|---|
| JsValues.Or | public/js/kaiserhof.js:514 | `a \|\| b`: the result is truthy iff either operand is, it is one of the two, and it is `a` whenever `a` is truthy |
| JsValues.DecimalRoundTrip | public/js/kaiserhof.js:109 | the decimal rendering of a count used in bubble names reads back as the count |
| JsValues.ToJsString | public/js/kaiserhof.js:292-293 | string conversion of a key or name: a string is itself; `undefined`, `null` and the booleans are their names; a non-negative number is a non-empty run of decimal digits that reads back as the number; a negative one is `-` followed by such a run that reads back as its magnitude |
| JsValues.NumberStringsDiffer | public/js/kaiserhof.js:292-293 | different numbers convert to different strings, so numeric personIDs give different join keys |
| Records.GenderClass | public/js/kaiserhof.js:515 | class `man` iff F24 is strictly `'m'`, `woman` iff `'w'`, `neutral` iff neither |
| Records.ToPersonNode | public/js/kaiserhof.js:503-528 | node id and `extra.id` are F41; name is ZLabel when truthy, else F41; class by F24; no marriages key; `imageUrl` is Source when truthy, else `null` |
| Records.MapToDTreePersons | public/js/kaiserhof.js:502-530 | one node per row, same length, same order |
| Records.CountBubble | public/js/kaiserhof.js:106-115 | group and value are the count, title the court name, personID the lord's F41; the name is the court name, ": " and then only digits, which read back as the count |
| Records.GenderColor | public/js/kaiserhof.js:138 | man colour iff F24 is `'m'`, woman colour iff `'w'`, grey otherwise |
| Records.PersonBubble | public/js/kaiserhof.js:134-142 | value 5, personID F41, name = title = ZLabel when truthy else F41, group the gender colour |
| Records.CountBubbles | public/js/kaiserhof.js:106-115 | one count bubble per row, in order |
| Records.PersonBubbles | public/js/kaiserhof.js:134-142 | one person bubble per row, in order |
| Records.NodeAndBubbleAgree | public/js/kaiserhof.js:134-142 | the tree node and the bubble of the same row agree on name, id and man/woman class |
| FamilyTree.SpouseMarriages | public/js/kaiserhof.js:407-418 | one marriage per spouse, in spouse order, each with that spouse's mapped children |
| FamilyTree.Focal | public/js/kaiserhof.js:420-422 | the focal node is the first person row mapped, with the marriages set and class `<class> selected`; every other field (name, `extra`, image) is the mapped row's |
| FamilyTree.CoParent | public/js/kaiserhof.js:432-439 | the second parent when there is one; otherwise a placeholder named `''` whose class is `woman` iff the first parent's is `man`, else `man` |
| FamilyTree.FamilyTreeOf | public/js/kaiserhof.js:396-444 | falsy id clears the panel; no person row fails; without parents the root is the focal node; with parents the root is the first parent's row mapped (id, name, class, `extra` with its image) and given one marriage to the co-parent whose only child is the focal node; spouses are wives then husbands |
| FamilyTree.UpdateFamilyTree | public/js/kaiserhof.js:396-444 | the push loop over the spouses yields exactly `FamilyTreeOf` |
| FamilyTree.MappedIsSingleGeneration | public/js/kaiserhof.js:502-530 | a mapped row has no marriages: one generation |
| FamilyTree.TreeHasAtMostThreeGenerations | public/js/kaiserhof.js:424-444 | the rendered tree spans at most three generations, two without parents |
| Bubbles.MaxCount | public/js/kaiserhof.js:161 | the maximum group of non-empty count data is attained and bounds every group |
| Bubbles.PolicyFor | public/js/kaiserhof.js:166-174 | a gradient iff a gradient colour is given and data is non-empty, with domain `[1, 1.5·max]`; otherwise the fallback is the gradient colour (count mode, no data) or black (persons mode) |
| Bubbles.FillOf | public/js/kaiserhof.js:169-173 | under a fallback a colour group paints itself and a missing or zero group paints the default; under a gradient a count is placed on the domain |
| Bubbles.GradientDomainExample | public/js/kaiserhof.js:169 | counts 10 and 20 give the domain `[1, 30]` |
| Bubbles.HoverRadius | public/js/kaiserhof.js:297-299 | for r > 0 the hover radius exceeds r by at most 50, by exactly 50 iff r ≤ 20, and always exceeds 50 |
| Bubbles.HoverBumpFacts | public/js/kaiserhof.js:297-299 | `1000/r` is at least 50 iff r ≤ 20, and `1000/r + r` exceeds 50 |
| Bubbles.HoverExamples | public/js/kaiserhof.js:297-299 | radius 50 hovers at 70, radius 5 at 55 |
| Bubbles.LabelFill | public/js/kaiserhof.js:306-313 | unhovered label white iff r > 50; hovered label always white for r > 0 |
| Bubbles.UpdateStyle | public/js/kaiserhof.js:256-262 | the update pass sets radius r, the group's fill and a label white iff r > 50, and leaves the opacity as it was |
| Bubbles.RestingStyle | public/js/kaiserhof.js:196-198 | the opacity 0.7 a circle enters with, under the radius, fill and label rule of the update pass: radius r, the group's fill, opacity 0.7, label white iff r > 50 |
| Bubbles.HoverStyle | public/js/kaiserhof.js:199-207 | radius `calculateHoverBubbleRadius(r)`, secondary fill, opacity 0.8; for r > 0 the radius grows and the label is white; for r = 0 the radius is 50 and the label transparent |
| Bubbles.MouseOutStyle | public/js/kaiserhof.js:208-216 | mouse-out sets the resting style of the group under the colour policy it is given: radius `d.r`, the group's fill, opacity 0.7, the resting label rule |
| Bubbles.NextCut | public/js/kaiserhof.js:265 | the next split position: the first upper-case letter followed by a non-upper-case one, from a start position |
| Bubbles.SplitLabel | public/js/kaiserhof.js:265 | the split of a name yields at least one line |
| Bubbles.SplitLabelJoins | public/js/kaiserhof.js:265 | the lines concatenate back to the name |
| Bubbles.SplitLabelLines | public/js/kaiserhof.js:265 | one line iff no split position; every later line starts upper-case followed by non-upper-case; lines of a non-empty name are non-empty; no line holds a split position |
| Bubbles.LabelLines | public/js/kaiserhof.js:263-269 | only string names are split, and their lines join back to the name |
| Bubbles.SplitExample | public/js/kaiserhof.js:265 | "Hof" stays whole, "HofKammer" splits into "Hof" and "Kammer" |
| Reconcile.Leaves | public/js/kaiserhof.js:181-188 | one leaf per datum with its radius; empty data packs to the root alone, with no datum |
| Reconcile.LeafKeys | public/js/kaiserhof.js:290-295 | the key of each leaf, in leaf order |
| Reconcile.FirstIndex | public/js/kaiserhof.js:290-295 | the first old element with a key, or past the end when none has it |
| Reconcile.SlotOf | public/js/kaiserhof.js:290-295 | a new leaf updates an old element only of the same key |
| Reconcile.Slots | public/js/kaiserhof.js:290-295 | the slot of every new leaf |
| Reconcile.JoinPartitions | public/js/kaiserhof.js:290-295 | no old element is claimed by two leaves; each claimed one has the leaf's key; every old element either exits or is claimed |
| Reconcile.JoinOfDistinctKeys | public/js/kaiserhof.js:290-295 | with distinct keys a leaf updates iff its key is old, and an old element exits iff its key is not new |
| Reconcile.JoinExample | public/js/kaiserhof.js:290-295 | old A, B and new B, C: B updates, C enters, A exits |
| Reconcile.NextUpdate | public/js/kaiserhof.js:193-195 | the first leaf at or after a position that updates an old element; every leaf before it enters |
| Reconcile.EnteredBefore | public/js/kaiserhof.js:193-195 | the entered elements put before one anchor are exactly the entering leaves whose next updating leaf's element is that anchor, in leaf order |
| Reconcile.DocumentFrom | public/js/kaiserhof.js:193-195 | the elements from an old one on: every later old element, and every entered one anchored at or after it |
| Reconcile.Document | public/js/kaiserhof.js:193-195 | after the enter pass the document holds every old element and one new element per entering leaf, and nothing else |
| Reconcile.KeptKeys | public/js/kaiserhof.js:248-285 | the later joins keep the first element of every new key in document order; kept elements have new keys, no two the same |
| Reconcile.SelectedKeysDistinct | public/js/kaiserhof.js:273-284 | removing the exiting elements leaves distinct keys |
| Reconcile.Opacity | public/js/kaiserhof.js:196-198 | a circle that has no style yet has the fill-opacity 0.7 set on enter |
| Reconcile.EnteredCircle | public/js/kaiserhof.js:193-246 | an old element keeps its circle as it was (the join rebinds the `g`, not the circle); a new one is bound to its leaf, closes over the render's policy, has opacity 0.7, and has no other style, lines or inline fill |
| Reconcile.Updated | public/js/kaiserhof.js:248-269 | with data a kept circle is bound to the first leaf of its key and gets the update pass's radius, fill and label rule, and its lines unless the split throws; without data it is unchanged; its opacity, element, policy and inline fill are kept |
| Reconcile.PassedAt | public/js/kaiserhof.js:190-269 | after the update pass an element has its document key; a kept one shows the first leaf of its key (radius, fill, label); an old one keeps its element and opacity (and, without data, its leaf and style); a new one is fresh, at opacity 0.7 |
| Reconcile.RenderShowsEveryKey | public/js/kaiserhof.js:190-285 | every new key is on screen, on a circle showing the first leaf of that key (with data: its radius, fill and label rule) |
| Reconcile.RenderFreshOrOld | public/js/kaiserhof.js:190-285 | every circle on screen is new in this render or sits in an old circle's element with its policy and inline fill |
| Reconcile.RenderWithoutThrow | public/js/kaiserhof.js:270-285 | when the split does not throw the exit pass leaves one circle per key, each showing the first leaf of its key (with data: its radius, fill and label rule) |
| Reconcile.RenderAfterThrow | public/js/kaiserhof.js:263-285 | when the split throws the exit pass never runs, so every old circle's element is still on screen with its lines |
| Reconcile.RenderBubbles | public/js/kaiserhof.js:188-287 | every new key is shown by a circle bound to its first leaf (with data: the update pass's radius, fill and label rule; lines unless the split throws); every circle is new, at opacity 0.7, or an old one's element at that circle's opacity; without a throw keys are distinct; after a throw no old element has gone; without data the one circle has the root's key |
| Reconcile.InlineFillSurvivesRender | public/js/kaiserhof.js:224-230 | a fill a click set is only ever on an element from before the render, with the same key and fill |
| Reconcile.DuplicateKeySlots | public/js/kaiserhof.js:290-295 | old keys p, q and new keys q, q, p: the first q updates old q, the second enters, p updates old p |
| Reconcile.DuplicateKeyDocument | public/js/kaiserhof.js:193-195 | the entered second q is inserted before old p's element and so comes first in the document |
| Reconcile.DuplicateKeyDisplaces | public/js/kaiserhof.js:248-285 | the later joins keep the entered q and old p, and old q's element exits although q is still a key |
| Reconcile.MouseOver | public/js/kaiserhof.js:199-207 | the hover style: larger radius, secondary fill and opacity 0.8; the fill shows unless a click set an inline fill; datum, lines and element unchanged |
| Reconcile.MouseOut | public/js/kaiserhof.js:208-216 | the resting style of the circle's group under the policy of the render that entered it, which the handler closed over; an inline fill still shows instead |
| Reconcile.HoverThenLeave | public/js/kaiserhof.js:199-216 | hovering then leaving a circle resting under the latest policy restores it iff the entering render's fill for its group equals the latest one, so always when the policy is unchanged |
| Reconcile.HoverThenLeaveGradient | public/js/kaiserhof.js:166-174 | for a weighted circle and two gradients, leaving restores the resting fill iff the gradient is the one the circle entered with |
| Reconcile.UpdateKeepsHoverOpacity | public/js/kaiserhof.js:256-259 | a hovered circle that a render keeps takes its new leaf's radius and fill at the hover opacity 0.8, so it is not at rest; mouse-out then rests it |
| Reconcile.Highlight | public/js/kaiserhof.js:224-230 | every circle gets an inline fill, the clicked circle's closure policy applied to its own group, and the clicked one the secondary colour; nothing else changes |
| Reconcile.HighlightMarksOnlyTheClicked | public/js/kaiserhof.js:220-231 | in persons mode with distinct keys a circle shows the highlight iff it has the clicked key, whatever policy the clicked circle entered with; hovering and leaving do not change what any marked circle shows |
| Slider.JsRem | public/js/kaiserhof.js:329 | JavaScript `%`: the remainder has the dividend's sign, is smaller than the modulus in magnitude, and differs from the dividend by a multiple of the modulus |
| Slider.DateFilter | public/js/kaiserhof.js:328-330 | the pip type is one of -1, 0, 1, 2 |
| Slider.DateFilterSymmetric | public/js/kaiserhof.js:328-330 | negative years get the same pips as positive ones |
| Slider.DateFilterByDivisibility | public/js/kaiserhof.js:328-330 | large pip iff divisible by 100, small pip iff by 10 and not 100, bare pip iff by 5 and not 10, none otherwise |
| Slider.Throttle.constructor | public/js/kaiserhof.js:378-379 | a new throttle is open and has passed nothing on |
| Slider.Throttle.Call | public/js/kaiserhof.js:380-388 | a call is passed on iff the flag was clear, and the flag is set afterwards; a dropped call changes nothing |
| Slider.Throttle.TimerExpired | public/js/kaiserhof.js:386 | the timer clears the flag and passes nothing on |
| Slider.Step | public/js/kaiserhof.js:359-389 | an update while throttled is dropped, otherwise rendered with the flag set; the timer clears the flag; the release renders whatever the flag; only the timer clears the flag |
| Slider.Handle | public/js/kaiserhof.js:359-364 | the slider's handlers on one event, over the throttle object, take exactly the step `Step` describes; the throttle passes on an update iff its flag was clear |
| Slider.RunExtends | public/js/kaiserhof.js:359-364 | the renders of a slider session only grow, keeping earlier ones |
| Slider.ReleaseRendersLast | public/js/kaiserhof.js:362-364 | after a release the last render is the released range |
| Slider.ThrottleBoundsRenders | public/js/kaiserhof.js:378-389 | at most one update render per throttle window: renders are bounded by timer expiries plus releases plus one |
| Slider.DroppedUpdateNotQueued | public/js/kaiserhof.js:383-387 | an update arriving while throttled leaves no trace on any later course of events |
| Statements.WithImage | routes/api.js:87 | the image wrapper adds no placeholder |
| Statements.WithImageRender | routes/api.js:87 | the wrapped text is the join prefix, the inner text, and the join suffix |
| Statements.StatementNamed | routes/api.js:108-177 | a known name selects the statement of that name |
| Statements.NamesSelectTheirStatement | routes/api.js:108-177 | every statement's name selects it |
| Statements.PresentValues | routes/api.js:109-168 | the pushes of present keys number at most the keys |
| Statements.PresentValuesComplete | routes/api.js:109-168 | with every key present, one value per key, in key order |
| Statements.MissingKeyShortens | routes/api.js:109-168 | a missing key shortens the list and inserts no placeholder value |
| Statements.PresentValuesInBody | routes/api.js:109-168 | every pushed value comes from the body |
| Statements.PushesOf | routes/api.js:109-168 | the pushes case by case: count [startYear, endYear], persons [personID, startYear, endYear], children of spouse [personID, spouseID], other person statements [personID], the rest nothing; each only when present |
| Statements.PushParams | routes/api.js:107-176 | the switch's conditional pushes give exactly the present values of the statement's keys |
| Statements.ArityAppend | routes/api.js:29-32 | placeholders of concatenated texts add up |
| Statements.Dispatch | routes/api.js:105-177 | the route returns the named statement's text (all persons for an unknown name) and its pushes |
| Statements.CountArity | routes/api.js:23-32 | the nested count query has two placeholders |
| Statements.PersonsOfRoyalCourtArity | routes/api.js:34-39 | the persons-of-court query has three |
| Statements.ChildrenOfSpouseArity | routes/api.js:55-64 | the wrapped children-of-spouse query has two |
| Statements.SinglePersonArities | routes/api.js:41-78 | the wrapped person, parents, children, wives and husbands queries have one placeholder each |
| Statements.ParameterlessArities | routes/api.js:80-84 | the two date queries, and the fallback for unknown names, have none |
| Statements.StatementArities | routes/api.js:21-87 | each statement's text has exactly one placeholder per key it reads |
| Statements.SetImageSourceArity | routes/api.js:91 | the image update has two placeholders |
| Statements.ParamsMatchPlaceholders | routes/api.js:105-178 | with every expected key present, the parameter count equals the placeholder count and the values are in key order |
| Images.IndexOf | routes/api.js:229 | the first occurrence of a pattern from a position, or none |
| Images.ReplaceLeading | routes/api.js:228-229 | replacing the first `//` of a source that starts with it replaces the leading one |
| Images.Substr | routes/api.js:235 | `substr(start, length)` is the slice from start of at most length characters |
| Images.RewriteAsWritten | routes/api.js:226-239 | the code's rewrite: absolute sources unchanged; `//x` becomes `https://x`; `/x` becomes the origin followed by at most as many characters of `x` as the page address has; `x` becomes the origin followed by `x` |
| Images.Rewrite | routes/api.js:226-239 | the rewrite as intended: as the code's, but `/x` keeps the whole of `x` after the origin |
| Images.RewriteKeepsPath | routes/api.js:234-238 | a relative source keeps its whole path after the origin |
| Images.AsWrittenTruncates | routes/api.js:234-236 | the code's rewrite differs from the intended one exactly for root-relative sources longer than the page address plus one |
| Images.TruncationExample | routes/api.js:234-238 | `/img/portrait.jpg` on `http://a.b` becomes `http://a.b/img/portra` as written |
| Images.LargestIsFirstMaximum | routes/api.js:220-253 | the fold returns the first candidate of strictly largest positive resolution, and none iff all resolutions are 0 |
| Images.Candidates | routes/api.js:224-249 | each source rewritten as the code does it (with the truncation), with the resolution probed at the rewritten URL |
| Images.GetImgSourceUrl | routes/api.js:212-261 | the loop throws on a missing `src`, else returns the largest image of the sources rewritten as the code does it |
| Images.ExtractFilter | routes/api.js:191-192 | with `updateAll` false a row is scraped iff it has a link and a person and no source |
| Images.ExtractPersonImageSources | routes/api.js:185-210 | the loop writes exactly the updates of the scraped rows whose page yields an image (through the code's rewrite), in row order |
| Images.UpdatesComeFromScrapedRows | routes/api.js:189-207 | every write belongs to a scraped row's person and has a non-empty source, and there are no more writes than rows |
| Uid.Draw | public/js/kaiserhof.js:535-536 | `(u·46656)\|0` is the floor, below 36³ |
| Uid.ToBase36 | public/js/kaiserhof.js:537-538 | `toString(36)` is a non-empty string of base-36 digits |
| Uid.ToBase36RoundTrip | public/js/kaiserhof.js:537-538 | base-36 rendering reads back as the number |
| Uid.ToBase36Short | public/js/kaiserhof.js:537-538 | a draw renders in at most three digits |
| Uid.Pad3RoundTrip | public/js/kaiserhof.js:537-538 | the padded part has three digits and reads back as the draw |
| Uid.GenerateUid | public/js/kaiserhof.js:532-540 | the uid is the name followed by six base-36 digits whose halves read back as the two draws |
| Uid.UidsDifferWithDraws | public/js/kaiserhof.js:532-540 | two uids of one name are equal iff both draws are |
| Uid.StringProperty | public/js/kaiserhof.js:197 | a string's `length` is its length, an index property its character, any other name undefined |
| Uid.AttributeOf | public/js/kaiserhof.js:197 | d3 removes the attribute iff the callback gives undefined or null |
| Uid.CircleIdsCollideAsWritten | public/js/kaiserhof.js:197 | as written no new circle gets an id, whatever the draws |
| Uid.CircleId | public/js/kaiserhof.js:197 | the intended id is `leaf` followed by six digits |
| Uid.CircleIdsDistinct | public/js/kaiserhof.js:197 | with the uid as id, different draws give different ids |
| Uid.UidExample | public/js/kaiserhof.js:537-538 | the smallest draw pads to "000", the largest to "zzz" |
| Controller.Put | public/js/kaiserhof.js:127-131 | a body key with an undefined value is absent after serialisation; otherwise it is set |
| Controller.EffectiveRange | public/js/kaiserhof.js:79-83 | both years are used when both are truthy, else both slider values |
| Controller.BubbleRequest | public/js/kaiserhof.js:85-89 | count mode asks the count statement with both years; persons mode asks the persons statement with the years and the current person when defined |
| Controller.BubbleParams | public/js/kaiserhof.js:126-131 | the server binds [start, end] in count mode and [person, start, end] in persons mode, one value per key the statement reads (so, with `StatementArities`, per placeholder); without a current person only the years, one short |
| Controller.TreeRequests | public/js/kaiserhof.js:401-413 | in order: PERSON, PARENTS, WIFES, HUSBANDS with the person, then one CHILDREN-OF-SPOUSE per spouse with the person and that spouse |
| Controller.TreeParams | public/js/kaiserhof.js:401-413 | the route answers each tree request with its statement and binds the person, and the spouse for the children requests: one value per key the statement reads |
| Controller.PersonIdOf | public/js/kaiserhof.js:218 | a circle's person is its datum's personID, undefined for the datum-less root |
| Controller.Controller.constructor | public/js/kaiserhof.js:27-28 | the client starts in count mode with no current person |
| Controller.Controller.UpdateBubblesByMode | public/js/kaiserhof.js:76-90 | a given mode replaces the current one, the current person is kept, and the request is the mode's over the effective range |
| Controller.Controller.Click | public/js/kaiserhof.js:217-231 | the clicked person becomes current and gets the tree; count mode switches to persons mode and requests that court; persons mode only sets the circles' inline fills, highlighting the clicked circle |
| Controller.Controller.Reset | public/js/kaiserhof.js:34-37 | back to count mode over the slider range, tree cleared, current person kept |
| Controller.ClickThenReset | public/js/kaiserhof.js:34-37 | after a click and a reset the mode is count and the clicked person is still current |

## Left out

- DOM and CSS plumbing are not modelled: colour probing, SVG creation and mounting. The style-sheet colours are symbolic constants.
- `moveToFront` is not modelled. On hover and mouse-out it moves the circle's `g` to the end of the document. The scene order of the model ignores that move, and that order decides where entered elements go and which element of a repeated key is kept.
- Some d3 numerics are not modelled: circle packing, `scaleLinear` interpolation, transitions and easing, and `d3.format`.
  - Pack radii are inputs.
  - A gradient fill is its domain position, not an interpolated colour.
  - Circle styles are the ones in place once transitions are over.
- The tspan `em` offsets are not modelled. Only the split lines are.
- The noUiSlider configuration, the dTree rendering and its node and text renderers are not modelled. The tree model ends at the data handed to dTree.
- The `postData` fetches are not modelled, nor the ordering of their completions and the races between overlapping re-renders. Fetched row sets are parameters, and each request is a value.
- The client's `postData` helper in `public/js/client-api.js` is not part of this model. The body is taken to be sent as JSON, so an `undefined` value drops its key.
- `Math.random` is not modelled. The two draws of `generateUID` are parameters.
- Several server pieces are not modelled: the Express router, the mariadb pool and `getFromDB`, `fetch`, `DOMParser`, `sizeOf`, `isAbsoluteUrl`, `url.parse` and `encodeURI`. They are parameters, and the page address stands for the encoded link.
- The `/` route that builds SQL from `selector` and `table` is not modelled. It is a string concatenation into a query.
- `String.prototype.format` is not defined in the routes file. Its `{0}` is taken as textual substitution of the inner statement.
- Bubbles.LabelLines: a bubble name that is not a string makes `split` throw. `LabelLines` gives it no lines; the render models the throw (`Reconcile.Throws`). The throw comes before any tspan is joined, so no circle's lines change, and the exit pass never runs, so leaving circles stay.
- Reconcile.Highlight: it reads each circle's own bound leaf. The click handler's `selectAll("g").select("circle")` first passes each `g`'s leaf down to its circle. The two differ only after a render without data, which rebinds the `g` to the root but not its circle.
- Reconcile.RenderBubbles: without data the one circle on screen has the root's key, but it need not carry the root's datum. An old element kept under that key keeps the leaf its circle was bound to, since only the update pass passes data down to the circle, and the update pass does not run without data.
- The `interrupt()` calls of the mouse and click handlers are not modelled. Each handler's attributes are taken once its transition is over.
- Controller.Controller.Reset: the reset button does not clear the current person; the model keeps it.
- Statements.Dispatch: the pushes of the switch are in `PushParams`, and `Dispatch` combines the text selection with them.
- The `nodeClick` callback that redraws the tree for a clicked tree node is not modelled separately. It is `updateFamilyTree` called with that node's id.

## Findings

| source | as written | input that shows it | evidently intended | confidence | as-written member | corrected member |
|---|---|---|---|---|---|---|
| routes/api.js:234-236 | a root-relative `src` is cut by `substr(1, originalUrl.length)`, keeping at most as many characters as the page address has | `src` `/img/portrait.jpg` on page `http://a.b` gives `http://a.b/img/portra` | drop the leading `/` only and keep the whole path | not executed | Images.AsWrittenTruncates | Images.RewriteKeepsPath |
| public/js/kaiserhof.js:197 | the circle id is `generateUID('leaf').id`, but `generateUID` returns a string, whose `id` is undefined, so d3 sets no id (and the clip path's `href` at line 237 is also undefined) | any two draws: both circles get no id | the generated uid itself as the id | not executed | Uid.CircleIdsCollideAsWritten | Uid.CircleIdsDistinct |
