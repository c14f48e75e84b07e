/**
 * The image scraper of the server: the rewrite of a page's relative image
 * sources into absolute URLs, the choice of the largest image of a page, and
 * the loop of `/extractPersonImageSource` over the `bild` rows.
 */
module Images {
  import opened JsValues
  import opened Statements

  predicate StartsWith(s: string, prefix: string)
  {
    |prefix| <= |s| && s[..|prefix|] == prefix
  }

  predicate OccursAt(s: string, pat: string, j: nat)
  {
    j + |pat| <= |s| && s[j..j + |pat|] == pat
  }

  /** The first index at which `pat` occurs in `s` at or after `from`, as `indexOf` finds it. */
  function IndexOf(s: string, pat: string, from: nat): (i: Option<nat>)
    ensures i.Some? ==> from <= i.value && OccursAt(s, pat, i.value)
    ensures i.Some? ==> forall j | from <= j < i.value :: !OccursAt(s, pat, j)
    ensures i.None? ==> forall j | from <= j :: !OccursAt(s, pat, j)
    decreases |s| - from
  {
    if from + |pat| > |s| then None
    else if s[from..from + |pat|] == pat then Some(from)
    else IndexOf(s, pat, from + 1)
  }

  /** `s.replace(pat, rep)` with a string pattern: only the first occurrence is replaced. */
  function ReplaceFirst(s: string, pat: string, rep: string): string
  {
    match IndexOf(s, pat, 0)
    case None => s
    case Some(i) => s[..i] + rep + s[i + |pat|..]
  }

  /** On a source that starts with the pattern, the replacement swaps that prefix and nothing else. */
  lemma ReplaceLeading(s: string, pat: string, rep: string)
    requires StartsWith(s, pat)
    ensures ReplaceFirst(s, pat, rep) == rep + s[|pat|..]
  {
    assert OccursAt(s, pat, 0);
  }

  /** `s.substr(start, length)`: at most `length` characters from `start` on. */
  function Substr(s: string, start: nat, length: nat): (r: string)
    requires start <= |s|
    ensures |r| == if start + length <= |s| then length else |s| - start
    ensures |r| <= length && r == s[start..start + |r|]
  {
    if start + length <= |s| then s[start..start + length] else s[start..]
  }

  /**
   * What the page's address contributes to a relative source: its length (after
   * `encodeURI`) and the protocol and host name `url.parse` reads off it.
   */
  datatype PageUrl = PageUrl(url: string, protocol: string, hostname: string)

  /** The scheme and host a relative source is resolved against. */
  function Origin(page: PageUrl): string
  {
    page.protocol + "//" + page.hostname + "/"
  }

  function Min(a: nat, b: nat): nat
  {
    if a <= b then a else b
  }

  /**
   * The rewrite of a non-absolute source as the scraper does it. A leading `/`
   * is dropped by `substr(1, originalUrl.length)`, which also cuts the rest to
   * the length of the page's address.
   */
  function RewriteAsWritten(src: string, page: PageUrl, isAbsolute: string -> bool): (u: string)
    ensures isAbsolute(src) ==> u == src
    ensures !isAbsolute(src) && StartsWith(src, "//") ==> u == "https://" + src[2..]
    ensures !isAbsolute(src) && !StartsWith(src, "//") && StartsWith(src, "/") ==>
      u == Origin(page) + src[1..Min(|src|, |page.url| + 1)]
    ensures !isAbsolute(src) && !StartsWith(src, "/") ==> u == Origin(page) + src
  {
    if isAbsolute(src) then src
    else if StartsWith(src, "//") then
      ReplaceLeading(src, "//", "https://");
      ReplaceFirst(src, "//", "https://")
    else
      var rest := if StartsWith(src, "/") then Substr(src, 1, |page.url|) else src;
      Origin(page) + rest
  }

  /** The rewrite as intended: a leading `/` is dropped and the rest of the path kept whole. */
  function Rewrite(src: string, page: PageUrl, isAbsolute: string -> bool): (u: string)
    ensures isAbsolute(src) ==> u == src
    ensures !isAbsolute(src) && StartsWith(src, "//") ==> u == "https://" + src[2..]
    ensures !isAbsolute(src) && !StartsWith(src, "//") && StartsWith(src, "/") ==> u == Origin(page) + src[1..]
    ensures !isAbsolute(src) && !StartsWith(src, "/") ==> u == Origin(page) + src
  {
    if isAbsolute(src) then src
    else if StartsWith(src, "//") then
      ReplaceLeading(src, "//", "https://");
      ReplaceFirst(src, "//", "https://")
    else
      var rest := if StartsWith(src, "/") then src[1..] else src;
      Origin(page) + rest
  }

  /** A relative source keeps its whole path: the rewritten URL ends with it. */
  lemma RewriteKeepsPath(src: string, page: PageUrl, isAbsolute: string -> bool)
    requires !isAbsolute(src) && !StartsWith(src, "//")
    ensures var u := Rewrite(src, page, isAbsolute);
      var path := if StartsWith(src, "/") then src[1..] else src;
      StartsWith(u, Origin(page)) && u[|Origin(page)|..] == path
  {
  }

  /** The two rewrites differ exactly on root-relative sources longer than the page's address plus one. */
  lemma AsWrittenTruncates(src: string, page: PageUrl, isAbsolute: string -> bool)
    ensures RewriteAsWritten(src, page, isAbsolute) != Rewrite(src, page, isAbsolute)
      <==> !isAbsolute(src) && !StartsWith(src, "//") && StartsWith(src, "/") && |src| > |page.url| + 1
  {
    if !isAbsolute(src) && !StartsWith(src, "//") && StartsWith(src, "/") {
      var written := RewriteAsWritten(src, page, isAbsolute);
      var fixed := Rewrite(src, page, isAbsolute);
      if |src| > |page.url| + 1 {
        assert |written| < |fixed|;
      }
    } else if !isAbsolute(src) && StartsWith(src, "//") {
      ReplaceLeading(src, "//", "https://");
    }
  }

  /** The facts about the example source that the rewrite looks at. */
  lemma PortraitSource()
    ensures !StartsWith("/img/portrait.jpg", "//") && StartsWith("/img/portrait.jpg", "/")
    ensures Substr("/img/portrait.jpg", 1, 10) == "img/portra"
    ensures "/img/portrait.jpg"[1..] == "img/portrait.jpg"
  {
    var src := "/img/portrait.jpg";
    assert src[..2] != "//" by { assert src[1] == 'i'; }
    assert src[..1] == "/";
  }

  /** A concrete page where the image path is cut: `/img/portrait.jpg` on `http://a.b` loses its tail. */
  lemma TruncationExample(isAbsolute: string -> bool)
    requires !isAbsolute("/img/portrait.jpg")
    ensures RewriteAsWritten("/img/portrait.jpg", PageUrl("http://a.b", "http:", "a.b"), isAbsolute)
      == "http://a.b/img/portra"
    ensures Rewrite("/img/portrait.jpg", PageUrl("http://a.b", "http:", "a.b"), isAbsolute)
      == "http://a.b/img/portrait.jpg"
  {
    PortraitSource();
  }

  datatype Dimensions = Dimensions(width: nat, height: nat)

  /** The scraper's view of one `<img>` source: the URL it probes and the resolution it gets. */
  function Resolution(url: string, isAbsolute: string -> bool, probe: string -> Option<Dimensions>): nat
  {
    if isAbsolute(url) && probe(url).Some? then probe(url).value.width * probe(url).value.height else 0
  }

  /**
   * The largest-image fold over candidate (URL, resolution) pairs, starting from
   * resolution 0 and no source; a candidate wins only when strictly larger.
   */
  function Largest(cands: seq<(string, nat)>): (best: (nat, Option<string>))
    decreases |cands|
  {
    if cands == [] then (0, None)
    else
      var prev := Largest(cands[..|cands| - 1]);
      var last := cands[|cands| - 1];
      if last.1 > prev.0 then (last.1, Some(last.0)) else prev
  }

  /**
   * The fold picks the first candidate of strictly largest resolution, and
   * nothing when no candidate has a positive one.
   */
  lemma {:induction false} LargestIsFirstMaximum(cands: seq<(string, nat)>)
    ensures var best := Largest(cands);
      && (best.1 == None <==> forall j | 0 <= j < |cands| :: cands[j].1 == 0)
      && (best.1 == None ==> best.0 == 0)
      && (best.1.Some? ==> exists i | 0 <= i < |cands| ::
            && cands[i].0 == best.1.value && cands[i].1 == best.0 && best.0 > 0
            && (forall j | 0 <= j < |cands| :: cands[j].1 <= cands[i].1)
            && (forall j | 0 <= j < i :: cands[j].1 < cands[i].1))
    decreases |cands|
  {
    if cands != [] {
      var init := cands[..|cands| - 1];
      LargestIsFirstMaximum(init);
      var prev := Largest(init);
      var n := |cands| - 1;
      if cands[n].1 > prev.0 {
        forall j | 0 <= j < n ensures cands[j].1 < cands[n].1 {
          assert init[j] == cands[j];
        }
      } else if prev.1.Some? {
        var i :| 0 <= i < |init| && init[i].0 == prev.1.value && init[i].1 == prev.0 && prev.0 > 0
          && (forall j | 0 <= j < |init| :: init[j].1 <= init[i].1)
          && (forall j | 0 <= j < i :: init[j].1 < init[i].1);
        assert cands[i] == init[i];
        forall j | 0 <= j < |cands| ensures cands[j].1 <= cands[i].1 {
          if j < n { assert cands[j] == init[j]; }
        }
        forall j | 0 <= j < i ensures cands[j].1 < cands[i].1 {
          assert cands[j] == init[j];
        }
      } else {
        forall j | 0 <= j < |cands| ensures cands[j].1 == 0 {
          if j < n { assert cands[j] == init[j]; }
        }
      }
    }
  }

  /**
   * The candidates of a page: each source rewritten as the scraper does it (a
   * root-relative path cut to the length of the page's address), with the
   * resolution probed at the rewritten URL.
   */
  function Candidates(srcs: seq<string>, page: PageUrl, isAbsolute: string -> bool,
                      probe: string -> Option<Dimensions>): (cands: seq<(string, nat)>)
    ensures |cands| == |srcs|
    ensures forall i | 0 <= i < |srcs| :: cands[i].0 == RewriteAsWritten(srcs[i], page, isAbsolute)
    ensures forall i | 0 <= i < |srcs| :: cands[i].1 == Resolution(cands[i].0, isAbsolute, probe)
  {
    seq(|srcs|, i requires 0 <= i < |srcs| =>
      var u := RewriteAsWritten(srcs[i], page, isAbsolute);
      (u, Resolution(u, isAbsolute, probe)))
  }

  /** The result of the scraper for one page: a TypeError, or the largest image if any. */
  datatype Scrape = Crashed | Scraped(source: Option<string>)

  function AllPresent(srcs: seq<Option<string>>): bool
  {
    forall i | 0 <= i < |srcs| :: srcs[i].Some?
  }

  function Values(srcs: seq<Option<string>>): (vs: seq<string>)
    requires AllPresent(srcs)
    ensures |vs| == |srcs| && forall i | 0 <= i < |srcs| :: vs[i] == srcs[i].value
  {
    seq(|srcs|, i requires 0 <= i < |srcs| => srcs[i].value)
  }

  /** What getImgSourceUrlFromImgLink returns for a page whose `<img>` sources are `srcs`. */
  function ScrapeOf(srcs: seq<Option<string>>, page: PageUrl, isAbsolute: string -> bool,
                    probe: string -> Option<Dimensions>): Scrape
  {
    if AllPresent(srcs) then Scraped(Largest(Candidates(Values(srcs), page, isAbsolute, probe)).1)
    else Crashed
  }

  /**
   * getImgSourceUrlFromImgLink after the page has been fetched and parsed: the
   * loop over the `<img>` elements, keeping the strictly largest resolution.
   * An element without `src` throws; a URL that is no image is skipped.
   */
  method GetImgSourceUrl(srcs: seq<Option<string>>, page: PageUrl, isAbsolute: string -> bool,
                         probe: string -> Option<Dimensions>)
    returns (result: Scrape)
    ensures result == ScrapeOf(srcs, page, isAbsolute, probe)
  {
    var largestResolution: nat := 0;
    var largestImgSource: Option<string> := None;
    ghost var seen: seq<string> := [];
    var i := 0;
    while i < |srcs|
      invariant 0 <= i <= |srcs|
      invariant AllPresent(srcs[..i]) && seen == Values(srcs[..i])
      invariant (largestResolution, largestImgSource) == Largest(Candidates(seen, page, isAbsolute, probe))
    {
      if srcs[i].None? {
        assert !AllPresent(srcs);
        return Crashed;
      }
      var imgSourceUrl := srcs[i].value;
      if !isAbsolute(imgSourceUrl) {
        if StartsWith(imgSourceUrl, "//") {
          imgSourceUrl := ReplaceFirst(imgSourceUrl, "//", "https://");
        } else {
          if StartsWith(imgSourceUrl, "/") {
            imgSourceUrl := Substr(imgSourceUrl, 1, |page.url|);
          }
          imgSourceUrl := Origin(page) + imgSourceUrl;
        }
      }
      ghost var cands := Candidates(seen, page, isAbsolute, probe);
      seen := seen + [srcs[i].value];
      assert imgSourceUrl == RewriteAsWritten(srcs[i].value, page, isAbsolute);
      assert Candidates(seen, page, isAbsolute, probe)[..|seen| - 1] == cands;
      assert Candidates(seen, page, isAbsolute, probe)[|seen| - 1]
        == (imgSourceUrl, Resolution(imgSourceUrl, isAbsolute, probe));
      if isAbsolute(imgSourceUrl) {
        var dimensions := probe(imgSourceUrl);
        if dimensions.Some? {
          var resolution := dimensions.value.width * dimensions.value.height;
          if resolution > largestResolution {
            largestResolution := resolution;
            largestImgSource := Some(imgSourceUrl);
          }
        }
      }
      assert srcs[..i + 1] == srcs[..i] + [srcs[i]];
      i := i + 1;
    }
    assert srcs[..i] == srcs;
    result := Scraped(largestImgSource);
  }

  /** A row of `bild`: the page link, the person, and the extracted source if any. */
  datatype ImageRow = ImageRow(link: JsValue, personId: JsValue, source: JsValue)

  /** The route's `updateAll` switch, fixed to false: rows that already have a source are skipped. */
  const UpdateAll := false

  /** The rows the extraction loop scrapes. */
  predicate ShouldExtract(row: ImageRow)
  {
    Truthy(row.link) && Truthy(row.personId) && (!Truthy(row.source) || UpdateAll)
  }

  /** With `updateAll` false, exactly the rows with link and person and no source are scraped. */
  lemma ExtractFilter(row: ImageRow)
    ensures ShouldExtract(row) <==> Truthy(row.link) && Truthy(row.personId) && !Truthy(row.source)
  {
  }

  /**
   * What the network gives for a row's link: nothing when fetching the page
   * fails, else the page's address and its `<img>` sources.
   */
  datatype Page = Page(address: PageUrl, srcs: seq<Option<string>>)

  /** One `UPDATE bild SET Source = ? WHERE F41 = ?`: the source, then the person. */
  datatype SourceUpdate = SourceUpdate(source: string, personId: JsValue)

  /** The update a row leads to, if any. */
  function UpdateFor(row: ImageRow, pageOf: JsValue -> Option<Page>, isAbsolute: string -> bool,
                     probe: string -> Option<Dimensions>): Option<SourceUpdate>
  {
    if !ShouldExtract(row) || pageOf(row.link).None? then None
    else
      var page := pageOf(row.link).value;
      match ScrapeOf(page.srcs, page.address, isAbsolute, probe)
      case Scraped(Some(u)) => if Truthy(Str(u)) then Some(SourceUpdate(u, row.personId)) else None
      case _ => None
  }

  function Updates(rows: seq<ImageRow>, pageOf: JsValue -> Option<Page>, isAbsolute: string -> bool,
                   probe: string -> Option<Dimensions>): seq<SourceUpdate>
    decreases |rows|
  {
    if rows == [] then []
    else
      var last := UpdateFor(rows[|rows| - 1], pageOf, isAbsolute, probe);
      Updates(rows[..|rows| - 1], pageOf, isAbsolute, probe) + (if last.Some? then [last.value] else [])
  }

  /**
   * The `/extractPersonImageSource` loop: for each row to scrape, fetch its page,
   * pick the largest image and write it back; failures are logged and skipped.
   */
  method ExtractPersonImageSources(images: seq<ImageRow>, pageOf: JsValue -> Option<Page>,
                                   isAbsolute: string -> bool, probe: string -> Option<Dimensions>)
    returns (updates: seq<SourceUpdate>)
    ensures updates == Updates(images, pageOf, isAbsolute, probe)
  {
    updates := [];
    var i := 0;
    while i < |images|
      invariant 0 <= i <= |images|
      invariant updates == Updates(images[..i], pageOf, isAbsolute, probe)
    {
      var img := images[i];
      assert images[..i + 1][..i] == images[..i];
      if Truthy(img.link) && Truthy(img.personId) {
        if !Truthy(img.source) || UpdateAll {
          var page := pageOf(img.link);
          if page.Some? {
            var imgSourceUrl := GetImgSourceUrl(page.value.srcs, page.value.address, isAbsolute, probe);
            if imgSourceUrl.Scraped? && imgSourceUrl.source.Some? && Truthy(Str(imgSourceUrl.source.value)) {
              updates := updates + [SourceUpdate(imgSourceUrl.source.value, img.personId)];
            }
          }
        }
      }
      i := i + 1;
    }
    assert images[..i] == images;
  }

  /**
   * Only scraped rows are written, never more updates than rows, and each with
   * a non-empty source.
   */
  lemma {:induction false} UpdatesComeFromScrapedRows(rows: seq<ImageRow>, pageOf: JsValue -> Option<Page>,
                                                      isAbsolute: string -> bool, probe: string -> Option<Dimensions>)
    ensures var us := Updates(rows, pageOf, isAbsolute, probe);
      && |us| <= |rows|
      && (forall k | 0 <= k < |us| :: exists i | 0 <= i < |rows| ::
            ShouldExtract(rows[i]) && us[k].personId == rows[i].personId && us[k].source != "")
    decreases |rows|
  {
    if rows != [] {
      var init := rows[..|rows| - 1];
      var n := |rows| - 1;
      UpdatesComeFromScrapedRows(init, pageOf, isAbsolute, probe);
      var us := Updates(rows, pageOf, isAbsolute, probe);
      var prev := Updates(init, pageOf, isAbsolute, probe);
      var last := UpdateFor(rows[n], pageOf, isAbsolute, probe);
      assert us == prev + (if last.Some? then [last.value] else []);
      forall k | 0 <= k < |us| ensures exists i | 0 <= i < |rows| ::
        ShouldExtract(rows[i]) && us[k].personId == rows[i].personId && us[k].source != ""
      {
        if k < |prev| {
          assert us[k] == prev[k];
          var i :| 0 <= i < |init| && ShouldExtract(init[i]) && prev[k].personId == init[i].personId
            && prev[k].source != "";
          assert rows[i] == init[i];
        } else {
          assert us[k] == last.value;
          assert ShouldExtract(rows[n]) && last.value.personId == rows[n].personId;
          assert last.value.source != "";
        }
      }
    }
  }
}
