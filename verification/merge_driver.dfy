/** The merge driver of merge.py with its image and PDF libraries
    abstracted: the optional crop pass over the sorted images
    (`prepare_images_with_optional_crop`, merge.py:141-214), the chapter
    loop and final files of `run_merge` (merge.py:262-317), and the page
    guards of `save_images_to_pdf` and `merge_pdfs` (merge.py:220-254).
    The PDF files on disk are a map from path to page count. */
module MergeDriver {
  import opened Wrappers
  import opened Strings
  import opened PageRanges
  import opened CropBox
  import opened MergeListing

  datatype MergeError =
    | Listing(listing: ListingError)
    | BadCropSetting(setting: ConfigError)
    | BadRange(range: RangeError)
    | NoImagesToWrite   // ValueError of save_images_to_pdf
    | NoPagesToMerge    // ValueError of merge_pdfs

  // ---------------------------------------------------------------------
  // Crop settings
  // ---------------------------------------------------------------------

  /** The `crop` section of the configuration. */
  datatype CropConfig = CropConfig(
    enabled: bool,
    x: ConfigValue, y: ConfigValue, w: ConfigValue, h: ConfigValue,
    tempFormat: Option<string>,
    debugPreviewCount: ConfigValue)

  /** The crop settings once read and coerced (merge.py:166-173). */
  datatype CropSettings = CropSettings(x: int, y: int, w: Option<int>, h: Option<int>, format: string)

  /** `str(temp_format).upper()`, replaced by PNG unless it is PNG, JPEG or
      JPG. */
  function TempFormat(fmt: Option<string>): (f: string)
    ensures f in {"PNG", "JPEG", "JPG"}
    ensures fmt.Some? && Upper(fmt.value) in {"PNG", "JPEG", "JPG"} ==> f == Upper(fmt.value)
    ensures fmt.Some? && Upper(fmt.value) !in {"PNG", "JPEG", "JPG"} ==> f == "PNG"
    ensures fmt.None? ==> f == "PNG"
  {
    var u := if fmt.None? then "PNG" else Upper(fmt.value);
    if u in {"PNG", "JPEG", "JPG"} then u else "PNG"
  }

  /** Reads x, y, w, h and the preview count in that order; the first
      setting that cannot be coerced aborts. */
  function ResolveCrop(cfg: CropConfig): (r: Result<CropSettings, ConfigError>)
    ensures r.Failure? <==>
      cfg.x.Null? || cfg.y.Null? || cfg.w.Bool? || cfg.h.Bool? || cfg.debugPreviewCount.Null?
    ensures r.Success? ==>
      Success(r.value.x) == ToInt(cfg.x) && Success(r.value.y) == ToInt(cfg.y) &&
      Success(r.value.w) == ToIntOrNone(cfg.w) && Success(r.value.h) == ToIntOrNone(cfg.h) &&
      r.value.format == TempFormat(cfg.tempFormat)
  {
    var x, y, w, h := ToInt(cfg.x), ToInt(cfg.y), ToIntOrNone(cfg.w), ToIntOrNone(cfg.h);
    if x.Failure? then Failure(x.error)
    else if y.Failure? then Failure(y.error)
    else if w.Failure? then Failure(w.error)
    else if h.Failure? then Failure(h.error)
    else if ToInt(cfg.debugPreviewCount).Failure? then Failure(ToInt(cfg.debugPreviewCount).error)
    else Success(CropSettings(x.value, y.value, w.value, h.value, TempFormat(cfg.tempFormat)))
  }

  /** `crop_{idx:04d}.jpg` for JPEG and JPG, `crop_{idx:04d}.png` otherwise. */
  function CropFileName(idx: int, format: string): string {
    "crop_" + FormatInt(idx, 4) + (if format == "JPEG" || format == "JPG" then ".jpg" else ".png")
  }

  /** Two images never share a temporary file name. */
  lemma CropFileNameInjective(i: int, j: int, format: string)
    requires CropFileName(i, format) == CropFileName(j, format)
    ensures i == j
  {
    var ext := if format == "JPEG" || format == "JPG" then ".jpg" else ".png";
    var a, b := FormatInt(i, 4), FormatInt(j, 4);
    assert CropFileName(i, format) == "crop_" + a + ext;
    assert CropFileName(j, format) == "crop_" + b + ext;
    assert |a| == |b|;
    assert a == CropFileName(i, format)[5..5 + |a|];
    assert b == CropFileName(j, format)[5..5 + |b|];
    FormatInjective(i, j, 4);
  }

  // ---------------------------------------------------------------------
  // The crop pass
  // ---------------------------------------------------------------------

  /** What the image library does with one file: it cannot be opened or
      converted (any exception), or it opens with a size, and saving the
      cropped copy then succeeds or raises. */
  datatype ImageOutcome = Unreadable | Opened(width: nat, height: nat, saves: bool)

  /** One temporary image written: its 1-based position in the list, its
      path and the region of the source it holds. */
  datatype CropWrite = CropWrite(index: nat, path: string, region: Box)

  /** The pair returned by the crop pass, with the files it wrote. */
  datatype Prepared = Prepared(paths: seq<string>, tempDir: Option<string>, writes: seq<CropWrite>)

  predicate Saves(o: ImageOutcome) { o.Opened? && o.saves }

  /** The list entry for image number `idx` (1-based): its cropped copy in
      the temporary directory, or the original when anything failed. */
  function PreparedEntry(idx: nat, src: string, o: ImageOutcome, st: CropSettings, tempDir: string): string {
    if Saves(o) then JoinPath(tempDir, CropFileName(idx, st.format)) else src
  }

  function CroppedPaths(srcs: seq<string>, outcome: string -> ImageOutcome, st: CropSettings, tempDir: string)
    : (paths: seq<string>)
    ensures |paths| == |srcs|
  {
    seq(|srcs|, i requires 0 <= i < |srcs| => PreparedEntry(i + 1, srcs[i], outcome(srcs[i]), st, tempDir))
  }

  /** The temporary files the crop pass writes, in order. */
  function CropWrites(srcs: seq<string>, outcome: string -> ImageOutcome, st: CropSettings, tempDir: string)
    : seq<CropWrite>
    decreases |srcs|
  {
    if srcs == [] then []
    else
      var n := |srcs|;
      var o := outcome(srcs[n - 1]);
      CropWrites(srcs[..n - 1], outcome, st, tempDir) +
      if Saves(o) then
        [CropWrite(n, JoinPath(tempDir, CropFileName(n, st.format)),
                   SavedRegion(o.width, o.height, st.x, st.y, st.w, st.h))]
      else []
  }

  /** `prepare_images_with_optional_crop`, with `mkdtemp`'s answer and the
      image library's behaviour on each file as inputs. */
  method PrepareImages(imagePaths: seq<string>, cfg: CropConfig, dryRun: bool,
                       tempDir: string, outcome: string -> ImageOutcome)
    returns (r: Result<Prepared, MergeError>)
    ensures !cfg.enabled || dryRun ==> r == Success(Prepared(imagePaths, None, []))
    ensures cfg.enabled && !dryRun ==> (r.Failure? <==> ResolveCrop(cfg).Failure?)
    ensures cfg.enabled && !dryRun && r.Failure? ==> r.error == BadCropSetting(ResolveCrop(cfg).error)
    ensures cfg.enabled && !dryRun && r.Success? ==>
      var st := ResolveCrop(cfg).value;
      r.value == Prepared(CroppedPaths(imagePaths, outcome, st, tempDir), Some(tempDir),
                          CropWrites(imagePaths, outcome, st, tempDir))
  {
    if !cfg.enabled {
      return Success(Prepared(imagePaths, None, []));
    }
    if dryRun {
      return Success(Prepared(imagePaths, None, []));
    }
    var settings := ResolveCrop(cfg);
    if settings.Failure? {
      return Failure(BadCropSetting(settings.error));
    }
    var st := settings.value;
    var prepared: seq<string> := [];
    var writes: seq<CropWrite> := [];
    var idx := 1;
    while idx <= |imagePaths|
      invariant 1 <= idx <= |imagePaths| + 1
      decreases |imagePaths| + 1 - idx
      invariant prepared == CroppedPaths(imagePaths[..idx - 1], outcome, st, tempDir)
      invariant writes == CropWrites(imagePaths[..idx - 1], outcome, st, tempDir)
    {
      var src := imagePaths[idx - 1];
      CropStep(imagePaths, outcome, st, tempDir, idx);
      match outcome(src) {
        case Opened(width, height, saves) =>
          var box := ComputeCropBox(width, height, st.x, st.y, st.w, st.h);
          var region := if box.None? then Box(0, 0, width, height) else box.value;
          var outPath := JoinPath(tempDir, CropFileName(idx, st.format));
          if saves {
            prepared := prepared + [outPath];
            writes := writes + [CropWrite(idx, outPath, region)];
          } else {
            prepared := prepared + [src];
          }
        case Unreadable =>
          prepared := prepared + [src];
      }
      idx := idx + 1;
    }
    assert imagePaths[..|imagePaths|] == imagePaths;
    return Success(Prepared(prepared, Some(tempDir), writes));
  }

  /** One more image: its entry and its write, if any, follow those of the
      images before it. */
  lemma CropStep(srcs: seq<string>, outcome: string -> ImageOutcome, st: CropSettings, tempDir: string, idx: nat)
    requires 1 <= idx <= |srcs|
    ensures var o := outcome(srcs[idx - 1]);
      CroppedPaths(srcs[..idx], outcome, st, tempDir)
        == CroppedPaths(srcs[..idx - 1], outcome, st, tempDir) + [PreparedEntry(idx, srcs[idx - 1], o, st, tempDir)] &&
      CropWrites(srcs[..idx], outcome, st, tempDir)
        == CropWrites(srcs[..idx - 1], outcome, st, tempDir) +
           if Saves(o) then [CropWrite(idx, JoinPath(tempDir, CropFileName(idx, st.format)),
                                       SavedRegion(o.width, o.height, st.x, st.y, st.w, st.h))]
           else []
  {
    assert srcs[..idx][..idx - 1] == srcs[..idx - 1];
  }

  /** Two images that were both cropped end up in two different files:
      no temporary file is overwritten. */
  lemma CroppedPathsDistinct(srcs: seq<string>, outcome: string -> ImageOutcome, st: CropSettings,
                             tempDir: string, i: nat, j: nat)
    requires i < |srcs| && j < |srcs| && i != j
    requires Saves(outcome(srcs[i])) && Saves(outcome(srcs[j]))
    ensures CroppedPaths(srcs, outcome, st, tempDir)[i] != CroppedPaths(srcs, outcome, st, tempDir)[j]
  {
    var p := CroppedPaths(srcs, outcome, st, tempDir);
    var a, b := CropFileName(i + 1, st.format), CropFileName(j + 1, st.format);
    assert p[i] == JoinPath(tempDir, a) && p[j] == JoinPath(tempDir, b);
    if p[i] == p[j] {
      assert a[0] == 'c' && b[0] == 'c';
      JoinInjective(tempDir, a, b);
      CropFileNameInjective(i + 1, j + 1, st.format);
    }
  }

  /** Write `w` is the list entry of a cropped image and holds a region
      inside that image. */
  predicate WriteMatches(srcs: seq<string>, outcome: string -> ImageOutcome, paths: seq<string>, w: CropWrite)
    requires |paths| == |srcs|
  {
    1 <= w.index <= |srcs| && paths[w.index - 1] == w.path &&
    Saves(outcome(srcs[w.index - 1])) &&
    0 <= w.region.left <= w.region.right <= outcome(srcs[w.index - 1]).width &&
    0 <= w.region.top <= w.region.bottom <= outcome(srcs[w.index - 1]).height
  }

  predicate IndicesIncrease(ws: seq<CropWrite>) {
    forall k, l :: 0 <= k < l < |ws| ==> ws[k].index < ws[l].index
  }

  /** The temporary files are written in list order, one per image at
      most. */
  lemma {:induction false} CropWritesOrdered(srcs: seq<string>, outcome: string -> ImageOutcome,
                                             st: CropSettings, tempDir: string)
    ensures forall w <- CropWrites(srcs, outcome, st, tempDir) :: 1 <= w.index <= |srcs|
    ensures IndicesIncrease(CropWrites(srcs, outcome, st, tempDir))
    decreases |srcs|
  {
    if srcs != [] {
      var n := |srcs|;
      var init := srcs[..n - 1];
      CropWritesOrdered(init, outcome, st, tempDir);
      var ws0 := CropWrites(init, outcome, st, tempDir);
      var ws := CropWrites(srcs, outcome, st, tempDir);
      if Saves(outcome(srcs[n - 1])) {
        assert ws == ws0 + [ws[|ws| - 1]] && ws[|ws| - 1].index == n;
        forall k, l | 0 <= k < l < |ws| ensures ws[k].index < ws[l].index {
          assert ws[k] == ws0[k] && ws0[k] in ws0;
          if l < |ws0| {
            assert ws[l] == ws0[l];
            assert ws0[k].index < ws0[l].index;
          }
        }
      } else {
        assert ws == ws0;
      }
    }
  }

  /** Every temporary file written is the list entry of its image and holds
      a region inside that image. */
  lemma {:induction false} CropWritesMatchPaths(srcs: seq<string>, outcome: string -> ImageOutcome,
                                                st: CropSettings, tempDir: string)
    ensures forall w <- CropWrites(srcs, outcome, st, tempDir) ::
      WriteMatches(srcs, outcome, CroppedPaths(srcs, outcome, st, tempDir), w)
    decreases |srcs|
  {
    if srcs != [] {
      var n := |srcs|;
      var init := srcs[..n - 1];
      CropWritesMatchPaths(init, outcome, st, tempDir);
      var ps0 := CroppedPaths(init, outcome, st, tempDir);
      var ps := CroppedPaths(srcs, outcome, st, tempDir);
      forall w <- CropWrites(init, outcome, st, tempDir)
        ensures WriteMatches(srcs, outcome, ps, w)
      {
        assert WriteMatches(init, outcome, ps0, w);
        assert srcs[w.index - 1] == init[w.index - 1];
        assert ps[w.index - 1] == ps0[w.index - 1];
      }
    }
  }

  /** Conversely, every image that was cropped had its temporary file
      written, under the path its list entry names. */
  lemma {:induction false} SavedImagesWritten(srcs: seq<string>, outcome: string -> ImageOutcome,
                                              st: CropSettings, tempDir: string, i: nat)
    requires i < |srcs| && Saves(outcome(srcs[i]))
    ensures exists w <- CropWrites(srcs, outcome, st, tempDir) ::
      w.index == i + 1 && w.path == CroppedPaths(srcs, outcome, st, tempDir)[i]
    decreases |srcs|
  {
    var n := |srcs|;
    var init := srcs[..n - 1];
    var ws0 := CropWrites(init, outcome, st, tempDir);
    var ws := CropWrites(srcs, outcome, st, tempDir);
    var ps := CroppedPaths(srcs, outcome, st, tempDir);
    CropWritesMatchPaths(srcs, outcome, st, tempDir);
    if i == n - 1 {
      var w := ws[|ws| - 1];
      assert w in ws && w.index == i + 1;
      assert WriteMatches(srcs, outcome, ps, w);
    } else {
      assert init[i] == srcs[i];
      SavedImagesWritten(init, outcome, st, tempDir, i);
      var w :| w in ws0 && w.index == i + 1;
      assert ws == ws0 + ws[|ws0|..];
      assert w in ws;
      assert WriteMatches(srcs, outcome, ps, w);
    }
  }

  // ---------------------------------------------------------------------
  // Chapters
  // ---------------------------------------------------------------------

  /** One chapter PDF: its number (the range's 1-based position), its
      range, its path and its images. */
  datatype Chapter = Chapter(number: nat, start: int, end: int, path: string, images: seq<string>)

  /** The chapters written so far, and the range error that stopped the
      loop, if any. */
  datatype ChapterPlan = ChapterPlan(chapters: seq<Chapter>, failure: Option<RangeError>)

  /** `{chapters_name}_{idx:02d}_{pretty_range_name(start, end)}.pdf` in the
      output directory. */
  function ChapterPath(outDir: string, name: string, number: int, start: int, end: int): string {
    JoinPath(outDir, ChapterFileName(name, number, start, end))
  }

  /** What the chapter loop does with `ranges`: each range is selected; an
      invalid one stops the loop; an empty selection is skipped, but still
      uses up its number. */
  function PlanChapters(prepared: seq<string>, ranges: seq<(int, int)>, outDir: string, name: string)
    : ChapterPlan
    decreases |ranges|
  {
    if ranges == [] then ChapterPlan([], None)
    else
      var n := |ranges|;
      var prev := PlanChapters(prepared, ranges[..n - 1], outDir, name);
      var (s, e) := ranges[n - 1];
      if prev.failure.Some? then prev
      else match SelectPages(prepared, s, e)
        case Failure(err) => ChapterPlan(prev.chapters, Some(err))
        case Success(sel) =>
          if sel == [] then prev
          else ChapterPlan(prev.chapters + [Chapter(n, s, e, ChapterPath(outDir, name, n, s, e), sel)], None)
  }

  /** Once a range has failed, later ranges change nothing. */
  lemma {:induction false} PlanFailureSticks(prepared: seq<string>, ranges: seq<(int, int)>,
                                             outDir: string, name: string, k: nat)
    requires k <= |ranges|
    requires PlanChapters(prepared, ranges[..k], outDir, name).failure.Some?
    ensures PlanChapters(prepared, ranges, outDir, name) == PlanChapters(prepared, ranges[..k], outDir, name)
    decreases |ranges|
  {
    if k < |ranges| {
      var init := ranges[..|ranges| - 1];
      assert init[..k] == ranges[..k];
      PlanFailureSticks(prepared, init, outDir, name, k);
    } else {
      assert ranges[..k] == ranges;
    }
  }

  /** Range `i` is the first invalid one. */
  predicate FirstInvalid(ranges: seq<(int, int)>, i: nat)
    requires i < |ranges|
  {
    !ValidRange(ranges[i].0, ranges[i].1) &&
    forall j :: 0 <= j < i ==> ValidRange(ranges[j].0, ranges[j].1)
  }

  /** The loop stops with an error exactly when some range is invalid, and
      then with the first invalid range. */
  lemma {:induction false} PlanFailsOnInvalidRange(prepared: seq<string>, ranges: seq<(int, int)>,
                                                   outDir: string, name: string)
    ensures var plan := PlanChapters(prepared, ranges, outDir, name);
            (plan.failure.None? <==> forall i :: 0 <= i < |ranges| ==> ValidRange(ranges[i].0, ranges[i].1)) &&
            (plan.failure.Some? ==>
               exists i :: 0 <= i < |ranges| && FirstInvalid(ranges, i) &&
                 plan.failure == Some(InvalidRange(ranges[i].0, ranges[i].1)))
    decreases |ranges|
  {
    if ranges != [] {
      var n := |ranges|;
      var init := ranges[..n - 1];
      PlanFailsOnInvalidRange(prepared, init, outDir, name);
      var prev := PlanChapters(prepared, init, outDir, name);
      if prev.failure.Some? {
        var i :| 0 <= i < |init| && FirstInvalid(init, i) &&
                 prev.failure == Some(InvalidRange(init[i].0, init[i].1));
        assert ranges[i] == init[i];
        assert forall j :: 0 <= j < i ==> ranges[j] == init[j];
      } else {
        assert forall j :: 0 <= j < n - 1 ==> ranges[j] == init[j];
      }
    }
  }

  /** Chapter `c` is the non-empty selection of the range at position
      `c.number`, written to that range's chapter path. */
  predicate ChapterMatches(prepared: seq<string>, ranges: seq<(int, int)>, outDir: string, name: string, c: Chapter) {
    1 <= c.number <= |ranges| &&
    (c.start, c.end) == ranges[c.number - 1] &&
    SelectPages(prepared, c.start, c.end) == Success(c.images) &&
    c.images != [] &&
    c.path == ChapterPath(outDir, name, c.number, c.start, c.end)
  }

  predicate NumbersIncrease(cs: seq<Chapter>) {
    forall j, l :: 0 <= j < l < |cs| ==> cs[j].number < cs[l].number
  }

  /** Chapter numbers are range positions and increase. */
  lemma {:induction false} PlanChaptersOrdered(prepared: seq<string>, ranges: seq<(int, int)>,
                                               outDir: string, name: string)
    ensures forall c <- PlanChapters(prepared, ranges, outDir, name).chapters :: 1 <= c.number <= |ranges|
    ensures NumbersIncrease(PlanChapters(prepared, ranges, outDir, name).chapters)
    decreases |ranges|
  {
    if ranges != [] {
      var n := |ranges|;
      var init := ranges[..n - 1];
      PlanChaptersOrdered(prepared, init, outDir, name);
      var prev := PlanChapters(prepared, init, outDir, name);
      var cs0 := prev.chapters;
      var cs := PlanChapters(prepared, ranges, outDir, name).chapters;
      var (st, en) := ranges[n - 1];
      if prev.failure.None? && SelectPages(prepared, st, en).Success? && SelectPages(prepared, st, en).value != [] {
        assert cs == cs0 + [cs[|cs| - 1]] && cs[|cs| - 1].number == n;
        forall j, l | 0 <= j < l < |cs| ensures cs[j].number < cs[l].number {
          assert cs[j] == cs0[j] && cs0[j] in cs0;
          if l < |cs0| {
            assert cs[l] == cs0[l];
            assert cs0[j].number < cs0[l].number;
          }
        }
      } else {
        assert cs == cs0;
      }
    }
  }

  /** Every chapter is the non-empty selection of the range its number
      names, written to that range's chapter path. */
  lemma {:induction false} PlanChaptersSound(prepared: seq<string>, ranges: seq<(int, int)>,
                                             outDir: string, name: string)
    ensures forall c <- PlanChapters(prepared, ranges, outDir, name).chapters ::
      ChapterMatches(prepared, ranges, outDir, name, c)
    decreases |ranges|
  {
    if ranges != [] {
      var n := |ranges|;
      var init := ranges[..n - 1];
      PlanChaptersSound(prepared, init, outDir, name);
      forall c <- PlanChapters(prepared, init, outDir, name).chapters
        ensures ChapterMatches(prepared, ranges, outDir, name, c)
      {
        assert ChapterMatches(prepared, init, outDir, name, c);
        assert ranges[c.number - 1] == init[c.number - 1];
      }
    }
  }

  /** When no range fails, every range that selects at least one image
      gets its chapter. */
  lemma {:induction false} PlanChaptersComplete(prepared: seq<string>, ranges: seq<(int, int)>,
                                                outDir: string, name: string, i: nat)
    requires i < |ranges|
    requires PlanChapters(prepared, ranges, outDir, name).failure.None?
    requires SelectPages(prepared, ranges[i].0, ranges[i].1).Success?
    requires SelectPages(prepared, ranges[i].0, ranges[i].1).value != []
    ensures exists c <- PlanChapters(prepared, ranges, outDir, name).chapters :: c.number == i + 1
    decreases |ranges|
  {
    var n := |ranges|;
    var init := ranges[..n - 1];
    var cs := PlanChapters(prepared, ranges, outDir, name).chapters;
    var prev := PlanChapters(prepared, init, outDir, name);
    assert prev.failure.None?;
    if i == n - 1 {
      assert cs[|cs| - 1].number == n;
    } else {
      assert init[i] == ranges[i];
      PlanChaptersComplete(prepared, init, outDir, name, i);
      var c :| c in prev.chapters && c.number == i + 1;
      assert c in cs;
    }
  }

  /** A run of digits ended by a non-digit is recovered from the text
      it starts. */
  lemma DigitPrefixUnique(f1: string, t1: string, f2: string, t2: string)
    requires AllDigits(f1) && AllDigits(f2)
    requires t1 != [] && !IsDigit(t1[0]) && t2 != [] && !IsDigit(t2[0])
    requires f1 + t1 == f2 + t2
    ensures f1 == f2
  {
    NaturalOrder.DigitRunOf(f1, t1);
    NaturalOrder.DigitRunOf(f2, t2);
    assert f1 == (f1 + t1)[..|f1|];
    assert f2 == (f2 + t2)[..|f2|];
  }

  /** The chapter file name, without its directory. */
  function ChapterFileName(name: string, number: int, start: int, end: int): string {
    name + "_" + FormatInt(number, 2) + "_" + PrettyRangeName(start, end) + ".pdf"
  }

  lemma ChapterFileNameParts(name: string, number: int, start: int, end: int)
    ensures ChapterFileName(name, number, start, end)
         == (name + "_") + (FormatInt(number, 2) + ("_" + PrettyRangeName(start, end) + ".pdf"))
  {
  }

  /** Chapter files with different numbers have different paths, whatever
      their ranges. */
  lemma ChapterPathNumberInjective(outDir: string, name: string,
                                   n1: int, s1: int, e1: int, n2: int, s2: int, e2: int)
    requires 0 <= n1 && 0 <= n2
    requires ChapterPath(outDir, name, n1, s1, e1) == ChapterPath(outDir, name, n2, s2, e2)
    ensures n1 == n2
  {
    var c1, c2 := ChapterFileName(name, n1, s1, e1), ChapterFileName(name, n2, s2, e2);
    assert ChapterPath(outDir, name, n1, s1, e1) == JoinPath(outDir, c1);
    assert ChapterPath(outDir, name, n2, s2, e2) == JoinPath(outDir, c2);
    ChapterFileNameParts(name, n1, s1, e1);
    ChapterFileNameParts(name, n2, s2, e2);
    var pre := name + "_";
    var f1, f2 := FormatInt(n1, 2), FormatInt(n2, 2);
    var t1 := "_" + PrettyRangeName(s1, e1) + ".pdf";
    var t2 := "_" + PrettyRangeName(s2, e2) + ".pdf";
    assert c1 == pre + (f1 + t1) && c2 == pre + (f2 + t2);
    assert pre != [] && c1[0] == pre[0] && c2[0] == pre[0];
    if pre[0] == '/' {
      // an absolute `chapters_name`: `os.path.join` drops the directory
      assert JoinPath(outDir, c1) == c1 && JoinPath(outDir, c2) == c2;
    } else {
      JoinInjective(outDir, c1, c2);
    }
    assert f1 + t1 == c1[|pre|..];
    assert f2 + t2 == c2[|pre|..];
    FormatNonNegative(n1, 2);
    FormatNonNegative(n2, 2);
    DigitPrefixUnique(f1, t1, f2, t2);
    FormatInjective(n1, n2, 2);
  }

  /** No two chapters are written to the same file. */
  lemma ChapterPathsDistinct(prepared: seq<string>, ranges: seq<(int, int)>,
                             outDir: string, name: string, j: nat, l: nat)
    requires j < l < |PlanChapters(prepared, ranges, outDir, name).chapters|
    ensures PlanChapters(prepared, ranges, outDir, name).chapters[j].path
         != PlanChapters(prepared, ranges, outDir, name).chapters[l].path
  {
    var cs := PlanChapters(prepared, ranges, outDir, name).chapters;
    PlanChaptersSound(prepared, ranges, outDir, name);
    PlanChaptersOrdered(prepared, ranges, outDir, name);
    assert cs[j] in cs && cs[l] in cs;
    if cs[j].path == cs[l].path {
      ChapterPathNumberInjective(outDir, name, cs[j].number, cs[j].start, cs[j].end,
                                 cs[l].number, cs[l].start, cs[l].end);
    }
  }

  // ---------------------------------------------------------------------
  // Writing PDFs
  // ---------------------------------------------------------------------

  /** What the driver does to the file system, in order. */
  datatype Effect =
    | MakeDir(dir: string)
    | MakeTempDir(dir: string)
    | WriteImage(path: string, region: Box)
    | WritePdf(path: string, pages: nat)
    | RemoveTempDir(dir: string)

  /** `s.rstrip("/")` */
  function TrimSlashes(s: string): (t: string)
    ensures |t| <= |s| && t == s[..|t|]
    ensures t == [] || t[|t| - 1] != '/'
    ensures forall k :: |t| <= k < |s| ==> s[k] == '/'
    decreases |s|
  {
    if s != [] && s[|s| - 1] == '/' then TrimSlashes(s[..|s| - 1]) else s
  }

  predicate AllSlashes(s: string) {
    forall k :: 0 <= k < |s| ==> s[k] == '/'
  }

  /** `os.path.dirname(path)` on POSIX: everything up to the last `/`,
      without its trailing slashes unless it is made of slashes only. */
  function DirName(path: string): (dir: string)
    ensures |dir| <= |path| && dir == path[..|dir|]
    ensures dir == [] <==> '/' !in path
  {
    var i := LastIndexOf(path, '/');
    var head := path[..i + 1];
    assert i >= 0 ==> path[i] in path && head[i] == '/';
    if AllSlashes(head) then head else TrimSlashes(head)
  }

  /** `os.path.dirname(path) or "."`, the directory `ensure_dir` makes
      before a PDF is written. */
  function PdfDir(path: string): (dir: string)
    ensures dir != []
  {
    var d := DirName(path);
    if d == [] then "." else d
  }

  /** A PDF named in the output directory lives in that directory, or in
      "." when the output directory is empty, as long as its own name has
      no `/`. */
  lemma PdfDirOfJoin(outDir: string, name: string)
    requires '/' !in name
    ensures outDir == [] ==> PdfDir(JoinPath(outDir, name)) == "."
    ensures outDir != [] && outDir[|outDir| - 1] != '/' ==> PdfDir(JoinPath(outDir, name)) == outDir
  {
    var path := JoinPath(outDir, name);
    if name != [] {
      assert name[0] in name;
    }
    if outDir == [] {
      assert path == name;
    } else if outDir[|outDir| - 1] != '/' {
      var head := outDir + "/";
      assert path == head + name;
      assert path[|outDir|] == '/';
      forall k | |outDir| < k < |path| ensures path[k] != '/' {
        assert path[k] == name[k - |outDir| - 1];
      }
      assert LastIndexOf(path, '/') == |outDir|;
      assert path[..|outDir| + 1] == head;
      assert !AllSlashes(head) by {
        assert head[|outDir| - 1] != '/';
      }
      assert head[..|head| - 1] == outDir;
    }
  }

  /** `save_images_to_pdf` and `merge_pdfs` writing one file: `ensure_dir`
      of its directory, then the file. */
  function SavePdf(path: string, pages: nat): (effects: seq<Effect>)
    ensures effects == [MakeDir(PdfDir(path)), WritePdf(path, pages)]
  {
    EnsureDir(PdfDir(path)) + [WritePdf(path, pages)]
  }

  /** The paths of the chapter PDFs, in range order. */
  function PdfPaths(cs: seq<Chapter>): (paths: seq<string>)
    ensures |paths| == |cs|
    ensures forall j :: 0 <= j < |cs| ==> paths[j] == cs[j].path
  {
    seq(|cs|, j requires 0 <= j < |cs| => cs[j].path)
  }

  /** The chapter PDFs written, one page per image; nothing on a dry run. */
  function PdfWrites(cs: seq<Chapter>, dryRun: bool): seq<Effect>
    decreases |cs|
  {
    if dryRun || cs == [] then []
    else PdfWrites(cs[..|cs| - 1], dryRun) + SavePdf(cs[|cs| - 1].path, |cs[|cs| - 1].images|)
  }

  /** The disk after the chapter PDFs are written. */
  function Written(disk: map<string, nat>, cs: seq<Chapter>, dryRun: bool): map<string, nat>
    decreases |cs|
  {
    if dryRun || cs == [] then disk
    else Written(disk, cs[..|cs| - 1], dryRun)[cs[|cs| - 1].path := |cs[|cs| - 1].images|]
  }

  /** After a real run every chapter file is on disk with at least one page,
      and no other file has changed. */
  lemma {:induction false} WrittenChapters(disk: map<string, nat>, cs: seq<Chapter>)
    requires forall c <- cs :: c.images != []
    ensures forall c <- cs :: c.path in Written(disk, cs, false) && Written(disk, cs, false)[c.path] > 0
    ensures forall p :: p !in PdfPaths(cs) ==>
      (p in Written(disk, cs, false) <==> p in disk) &&
      (p in disk ==> Written(disk, cs, false)[p] == disk[p])
    decreases |cs|
  {
    if cs != [] {
      var init, last := cs[..|cs| - 1], cs[|cs| - 1];
      assert cs == init + [last];
      assert forall c <- init :: c in cs;
      WrittenChapters(disk, init);
      PdfPathsStep(init, last);
      WrittenStep(disk, init, last, false);
    }
  }

  /** `save_images_to_pdf`: an empty list is refused; otherwise the PDF
      gets one page per image, unless this is a dry run. */
  method SaveImagesToPdf(images: seq<string>, path: string, dryRun: bool, disk: map<string, nat>)
    returns (err: Option<MergeError>, effects: seq<Effect>, disk': map<string, nat>)
    ensures images == [] ==> err == Some(NoImagesToWrite) && effects == [] && disk' == disk
    ensures images != [] && dryRun ==> err == None && effects == [] && disk' == disk
    ensures images != [] && !dryRun ==>
      err == None && effects == SavePdf(path, |images|) && disk' == disk[path := |images|]
  {
    if images == [] {
      return Some(NoImagesToWrite), [], disk;
    }
    if dryRun {
      return None, [], disk;
    }
    return None, SavePdf(path, |images|), disk[path := |images|];
  }

  /** One more range: what `PlanChapters` does with range `idx`. */
  lemma PlanPrefixStep(prepared: seq<string>, ranges: seq<(int, int)>, outDir: string, name: string, idx: nat)
    requires 1 <= idx <= |ranges|
    requires PlanChapters(prepared, ranges[..idx - 1], outDir, name).failure.None?
    ensures var prev := PlanChapters(prepared, ranges[..idx - 1], outDir, name);
      var plan := PlanChapters(prepared, ranges[..idx], outDir, name);
      var s := ranges[idx - 1].0;
      var e := ranges[idx - 1].1;
      var sel := SelectPages(prepared, s, e);
      (sel.Failure? ==> plan == ChapterPlan(prev.chapters, Some(sel.error))) &&
      (sel.Success? && sel.value == [] ==> plan == prev) &&
      (sel.Success? && sel.value != [] ==>
        plan == ChapterPlan(prev.chapters + [Chapter(idx, s, e, ChapterPath(outDir, name, idx, s, e), sel.value)], None))
  {
    assert ranges[..idx][..idx - 1] == ranges[..idx - 1];
  }

  /** Writing one more chapter appends its path and its write, and puts it
      on disk. */
  lemma PdfStep(disk0: map<string, nat>, done: seq<Chapter>, c: Chapter, dryRun: bool)
    ensures PdfPaths(done + [c]) == PdfPaths(done) + [c.path]
    ensures PdfWrites(done + [c], dryRun)
         == PdfWrites(done, dryRun) + (if dryRun then [] else SavePdf(c.path, |c.images|))
    ensures Written(disk0, done + [c], dryRun)
         == if dryRun then Written(disk0, done, dryRun) else Written(disk0, done, dryRun)[c.path := |c.images|]
  {
    PdfPathsStep(done, c);
    PdfWritesStep(done, c, dryRun);
    WrittenStep(disk0, done, c, dryRun);
  }

  lemma PdfPathsStep(done: seq<Chapter>, c: Chapter)
    ensures PdfPaths(done + [c]) == PdfPaths(done) + [c.path]
  {
  }

  lemma PdfWritesStep(done: seq<Chapter>, c: Chapter, dryRun: bool)
    ensures PdfWrites(done + [c], dryRun)
         == PdfWrites(done, dryRun) + (if dryRun then [] else SavePdf(c.path, |c.images|))
  {
    assert (done + [c])[..|done|] == done;
  }

  lemma WrittenStep(disk0: map<string, nat>, done: seq<Chapter>, c: Chapter, dryRun: bool)
    ensures Written(disk0, done + [c], dryRun)
         == if dryRun then Written(disk0, done, dryRun) else Written(disk0, done, dryRun)[c.path := |c.images|]
  {
    assert (done + [c])[..|done|] == done;
  }

  /** The chapter PDF paths, writes and disk after a plan's chapters. */
  predicate WroteChapters(plan: ChapterPlan, dryRun: bool, disk0: map<string, nat>,
                          pdfs: seq<string>, effects: seq<Effect>, disk: map<string, nat>)
  {
    pdfs == PdfPaths(plan.chapters) && effects == PdfWrites(plan.chapters, dryRun) &&
    disk == Written(disk0, plan.chapters, dryRun)
  }

  /** One pass of the chapter loop: range `idx` is selected and, when it
      holds pages, written. */
  method WriteRange(prepared: seq<string>, ranges: seq<(int, int)>, outDir: string, name: string,
                    dryRun: bool, disk0: map<string, nat>, idx: nat,
                    pdfs: seq<string>, effects: seq<Effect>, disk: map<string, nat>)
    returns (pdfs': seq<string>, effects': seq<Effect>, disk': map<string, nat>, failure: Option<RangeError>)
    requires 1 <= idx <= |ranges|
    requires PlanChapters(prepared, ranges[..idx - 1], outDir, name).failure.None?
    requires WroteChapters(PlanChapters(prepared, ranges[..idx - 1], outDir, name), dryRun, disk0, pdfs, effects, disk)
    ensures failure == PlanChapters(prepared, ranges[..idx], outDir, name).failure
    ensures WroteChapters(PlanChapters(prepared, ranges[..idx], outDir, name), dryRun, disk0, pdfs', effects', disk')
  {
    var (start, end) := ranges[idx - 1];
    ghost var done := PlanChapters(prepared, ranges[..idx - 1], outDir, name).chapters;
    PlanPrefixStep(prepared, ranges, outDir, name, idx);
    var selected := SelectPages(prepared, start, end);
    pdfs', effects', disk', failure := pdfs, effects, disk, None;
    if selected.Failure? {
      failure := Some(selected.error);
    } else if selected.value != [] {
      var path := ChapterPath(outDir, name, idx, start, end);
      var err, eff, written := SaveImagesToPdf(selected.value, path, dryRun, disk);
      PdfStep(disk0, done, Chapter(idx, start, end, path, selected.value), dryRun);
      pdfs' := pdfs + [path];
      effects' := effects + eff;
      disk' := written;
    }
  }

  /** The chapter loop of `run_merge`, proved to follow `PlanChapters`. */
  method WriteChapters(prepared: seq<string>, ranges: seq<(int, int)>, outDir: string, name: string,
                       dryRun: bool, disk0: map<string, nat>)
    returns (pdfs: seq<string>, effects: seq<Effect>, disk: map<string, nat>, failure: Option<RangeError>)
    ensures var plan := PlanChapters(prepared, ranges, outDir, name);
      failure == plan.failure && pdfs == PdfPaths(plan.chapters) &&
      effects == PdfWrites(plan.chapters, dryRun) && disk == Written(disk0, plan.chapters, dryRun)
  {
    pdfs, effects, disk, failure := [], [], disk0, None;
    var idx := 1;
    while idx <= |ranges|
      invariant 1 <= idx <= |ranges| + 1 && failure.None?
      invariant PlanChapters(prepared, ranges[..idx - 1], outDir, name).failure.None?
      invariant WroteChapters(PlanChapters(prepared, ranges[..idx - 1], outDir, name), dryRun, disk0, pdfs, effects, disk)
      decreases |ranges| + 1 - idx
    {
      pdfs, effects, disk, failure := WriteRange(prepared, ranges, outDir, name, dryRun, disk0, idx, pdfs, effects, disk);
      if failure.Some? {
        PlanFailureSticks(prepared, ranges, outDir, name, idx);
        return;
      }
      idx := idx + 1;
    }
    assert ranges[..|ranges|] == ranges;
  }

  /** The pages `merge_pdfs` collects: those of every listed file that
      exists, in order; missing files are skipped. */
  function TotalPages(pdfs: seq<string>, disk: map<string, nat>): nat
    decreases |pdfs|
  {
    if pdfs == [] then 0
    else
      var p := pdfs[|pdfs| - 1];
      TotalPages(pdfs[..|pdfs| - 1], disk) + if p in disk then disk[p] else 0
  }

  /** The merge has no page exactly when every listed file is missing or
      empty. */
  lemma {:induction false} TotalPagesZero(pdfs: seq<string>, disk: map<string, nat>)
    ensures TotalPages(pdfs, disk) == 0 <==> forall p <- pdfs :: p !in disk || disk[p] == 0
    decreases |pdfs|
  {
    if pdfs != [] {
      var init := pdfs[..|pdfs| - 1];
      TotalPagesZero(init, disk);
      assert forall p <- init :: p in pdfs;
      assert forall p <- pdfs :: p in init || p == pdfs[|pdfs| - 1];
    }
  }

  /** `merge_pdfs`: concatenates the pages of the listed files; no page at
      all is an error. */
  method MergePdfs(pdfs: seq<string>, outPath: string, dryRun: bool, disk: map<string, nat>)
    returns (r: Result<nat, MergeError>, effects: seq<Effect>, disk': map<string, nat>)
    ensures TotalPages(pdfs, disk) == 0 ==> r == Failure(NoPagesToMerge) && effects == [] && disk' == disk
    ensures TotalPages(pdfs, disk) > 0 ==> r == Success(TotalPages(pdfs, disk))
    ensures TotalPages(pdfs, disk) > 0 && dryRun ==> effects == [] && disk' == disk
    ensures TotalPages(pdfs, disk) > 0 && !dryRun ==>
      effects == SavePdf(outPath, TotalPages(pdfs, disk)) && disk' == disk[outPath := TotalPages(pdfs, disk)]
  {
    var total := 0;
    var i := 0;
    while i < |pdfs|
      invariant 0 <= i <= |pdfs|
      invariant total == TotalPages(pdfs[..i], disk)
    {
      assert pdfs[..i + 1][..i] == pdfs[..i];
      var p := pdfs[i];
      if p in disk {
        total := total + disk[p];
      }
      i := i + 1;
    }
    assert pdfs[..|pdfs|] == pdfs;
    if total == 0 {
      return Failure(NoPagesToMerge), [], disk;
    }
    if dryRun {
      return Success(total), [], disk;
    }
    return Success(total), SavePdf(outPath, total), disk[outPath := total];
  }

  // ---------------------------------------------------------------------
  // run_merge
  // ---------------------------------------------------------------------

  /** `ensure_dir(path)`: the directory is made unless the path is empty. */
  function EnsureDir(dir: string): (effects: seq<Effect>)
    ensures effects == [] <==> dir == []
    ensures forall e <- effects :: e == MakeDir(dir)
  {
    if dir == [] then [] else [MakeDir(dir)]
  }

  /** The image directory exists and holds at least one image. */
  predicate Listed(dirExists: bool, listing: seq<string>) {
    dirExists && ImageNames(listing) != []
  }

  /** The crop pass runs and one of its settings cannot be coerced. */
  predicate CropFails(cfg: CropConfig, dryRun: bool) {
    cfg.enabled && !dryRun && ResolveCrop(cfg).Failure?
  }

  /** The crop pass runs for real and uses a temporary directory. */
  predicate UsesTempDir(cfg: CropConfig, dryRun: bool) {
    cfg.enabled && !dryRun && ResolveCrop(cfg).Success?
  }

  /** The list of images the PDFs are made of. */
  function PreparedPaths(images: seq<string>, cfg: CropConfig, dryRun: bool, tempDir: string,
                         outcome: string -> ImageOutcome): (paths: seq<string>)
    requires !CropFails(cfg, dryRun)
    ensures |paths| == |images|
  {
    if UsesTempDir(cfg, dryRun) then CroppedPaths(images, outcome, ResolveCrop(cfg).value, tempDir)
    else images
  }

  /** The temporary images written, as file system effects. */
  function ImageWrites(ws: seq<CropWrite>): seq<Effect> {
    seq(|ws|, i requires 0 <= i < |ws| => WriteImage(ws[i].path, ws[i].region))
  }

  /** What the `try` block of `run_merge` leaves behind: the error that
      stopped it, if any, the effects in order, and the disk. */
  datatype Outcome = Outcome(err: Option<MergeError>, effects: seq<Effect>, disk: map<string, nat>)

  /** The chapters, then the PDF of all images, then the merge of the
      chapters when there is at least one. */
  function Outputs(prepared: seq<string>, ranges: seq<(int, int)>, outDir: string, chaptersName: string,
                   finalAllName: string, finalFromChaptersName: string, dryRun: bool,
                   disk0: map<string, nat>): Outcome
  {
    var plan := PlanChapters(prepared, ranges, outDir, chaptersName);
    var chapterWrites := PdfWrites(plan.chapters, dryRun);
    var disk1 := Written(disk0, plan.chapters, dryRun);
    if plan.failure.Some? then Outcome(Some(BadRange(plan.failure.value)), chapterWrites, disk1)
    else
      var finals := Finals(prepared, PdfPaths(plan.chapters), outDir, finalAllName, finalFromChaptersName,
                           dryRun, disk1);
      Outcome(finals.err, chapterWrites + finals.effects, finals.disk)
  }

  /** After the chapters: the PDF of all images, then the merge of the
      chapter files `pdfs` when there is at least one. */
  function Finals(prepared: seq<string>, pdfs: seq<string>, outDir: string, finalAllName: string,
                  finalFromChaptersName: string, dryRun: bool, disk1: map<string, nat>): Outcome
  {
    if prepared == [] then Outcome(Some(NoImagesToWrite), [], disk1)
    else
      var finalAll := JoinPath(outDir, finalAllName);
      var disk2 := if dryRun then disk1 else disk1[finalAll := |prepared|];
      var effects2 := if dryRun then [] else SavePdf(finalAll, |prepared|);
      if pdfs == [] then Outcome(None, effects2, disk2)
      else
        var total := TotalPages(pdfs, disk2);
        var finalFrom := JoinPath(outDir, finalFromChaptersName);
        if total == 0 then Outcome(Some(NoPagesToMerge), effects2, disk2)
        else if dryRun then Outcome(None, effects2, disk2)
        else Outcome(None, effects2 + SavePdf(finalFrom, total), disk2[finalFrom := total])
  }

  /** The two final PDFs of the `try` block, proved to follow `Finals`. */
  method WriteFinals(prepared: seq<string>, pdfs: seq<string>, outDir: string, finalAllName: string,
                     finalFromChaptersName: string, dryRun: bool, disk1: map<string, nat>)
    returns (err: Option<MergeError>, effects: seq<Effect>, disk: map<string, nat>)
    ensures Outcome(err, effects, disk)
         == Finals(prepared, pdfs, outDir, finalAllName, finalFromChaptersName, dryRun, disk1)
  {
    var finalAll := JoinPath(outDir, finalAllName);
    err, effects, disk := SaveImagesToPdf(prepared, finalAll, dryRun, disk1);
    if err.None? && pdfs != [] {
      var merged, mergeEffects;
      merged, mergeEffects, disk := MergePdfs(pdfs, JoinPath(outDir, finalFromChaptersName), dryRun, disk);
      effects := effects + mergeEffects;
      if merged.Failure? {
        err := Some(merged.error);
      }
    }
  }

  /** The `try` block of `run_merge`, proved to follow `Outputs`. */
  method WriteOutputs(prepared: seq<string>, ranges: seq<(int, int)>, outDir: string, chaptersName: string,
                      finalAllName: string, finalFromChaptersName: string, dryRun: bool,
                      disk0: map<string, nat>)
    returns (err: Option<MergeError>, effects: seq<Effect>, disk: map<string, nat>)
    ensures Outcome(err, effects, disk) ==
      Outputs(prepared, ranges, outDir, chaptersName, finalAllName, finalFromChaptersName, dryRun, disk0)
  {
    var pdfs, failure, chapterEffects;
    pdfs, chapterEffects, disk, failure := WriteChapters(prepared, ranges, outDir, chaptersName, dryRun, disk0);
    if failure.Some? {
      return Some(BadRange(failure.value)), chapterEffects, disk;
    }
    var finalEffects;
    err, finalEffects, disk := WriteFinals(prepared, pdfs, outDir, finalAllName, finalFromChaptersName, dryRun, disk);
    effects := chapterEffects + finalEffects;
  }

  /** The PDF of all images is never refused once images were found. */
  lemma OutputsHaveImages(prepared: seq<string>, ranges: seq<(int, int)>, outDir: string, chaptersName: string,
                          finalAllName: string, finalFromChaptersName: string, dryRun: bool,
                          disk0: map<string, nat>)
    requires prepared != []
    ensures Outputs(prepared, ranges, outDir, chaptersName, finalAllName, finalFromChaptersName, dryRun, disk0).err
            != Some(NoImagesToWrite)
  {
  }

  /** A real run always finds pages to merge: every chapter file was just
      written with at least one page. */
  lemma {:induction false} RealRunMergesPages(prepared: seq<string>, ranges: seq<(int, int)>, outDir: string,
                                              chaptersName: string, finalAllName: string,
                                              finalFromChaptersName: string, disk0: map<string, nat>)
    ensures Outputs(prepared, ranges, outDir, chaptersName, finalAllName, finalFromChaptersName, false, disk0).err
            != Some(NoPagesToMerge)
  {
    var cs := PlanChapters(prepared, ranges, outDir, chaptersName).chapters;
    if prepared != [] && cs != [] {
      PlanChaptersSound(prepared, ranges, outDir, chaptersName);
      var paths := PdfPaths(cs);
      var disk2 := Written(disk0, cs, false)[JoinPath(outDir, finalAllName) := |prepared|];
      assert cs[0] in cs && paths[0] == cs[0].path;
      WrittenChapters(disk0, cs);
      TotalPagesZero(paths, disk2);
    }
  }

  /** A dry run changes nothing on disk, and it fails to merge when none of
      the chapter files exists from an earlier run: it writes no chapter,
      so the merge finds no page. */
  lemma {:induction false} DryRunWritesNothing(prepared: seq<string>, ranges: seq<(int, int)>, outDir: string,
                                               chaptersName: string, finalAllName: string,
                                               finalFromChaptersName: string, disk0: map<string, nat>)
    ensures var out := Outputs(prepared, ranges, outDir, chaptersName, finalAllName, finalFromChaptersName, true, disk0);
      out.effects == [] && out.disk == disk0
    ensures var plan := PlanChapters(prepared, ranges, outDir, chaptersName);
      plan.failure.None? && plan.chapters != [] && prepared != [] &&
      (forall c <- plan.chapters :: c.path !in disk0) ==>
        Outputs(prepared, ranges, outDir, chaptersName, finalAllName, finalFromChaptersName, true, disk0).err
        == Some(NoPagesToMerge)
  {
    var cs := PlanChapters(prepared, ranges, outDir, chaptersName).chapters;
    var paths := PdfPaths(cs);
    if forall c <- cs :: c.path !in disk0 {
      TotalPagesZero(paths, disk0);
      forall p <- paths ensures p !in disk0 {
        var j :| 0 <= j < |paths| && paths[j] == p;
        assert cs[j] in cs;
      }
    }
  }

  /** `run_merge`. The directory listing, `mkdtemp`'s answer, the image
      library's behaviour and the PDF files already on disk (path to page
      count) are inputs; the effects on the file system and the disk after
      the run are outputs. The ghost outputs name the intermediate lists the
      contract talks about. */
  method RunMerge(imageDir: string, dirExists: bool, listing: seq<string>, outDir: string,
                  ranges: seq<(int, int)>, chaptersName: string, finalAllName: string,
                  finalFromChaptersName: string, cfg: CropConfig, dryRun: bool, tempDir: string,
                  outcome: string -> ImageOutcome, disk0: map<string, nat>)
    returns (err: Option<MergeError>, effects: seq<Effect>, disk: map<string, nat>,
             ghost images: seq<string>, ghost prepared: seq<string>)
    requires tempDir != []  // mkdtemp answers with a path
    // the listing
    ensures !dirExists ==> err == Some(Listing(ImageDirNotFound(imageDir))) && effects == [] && disk == disk0
    ensures dirExists && ImageNames(listing) == [] ==>
      err == Some(Listing(NoImagesFound(imageDir))) && effects == [] && disk == disk0
    ensures Listed(dirExists, listing) ==>
      exists files :: NaturalOrderOf(files, ImageNames(listing)) && images == JoinAll(imageDir, files)
    // the crop pass: a bad setting aborts after the temporary directory was made
    ensures Listed(dirExists, listing) && CropFails(cfg, dryRun) ==>
      err == Some(BadCropSetting(ResolveCrop(cfg).error)) &&
      effects == EnsureDir(outDir) + [MakeTempDir(tempDir)] && disk == disk0
    // the chapters and final PDFs, then the temporary directory is removed
    // whatever happened
    ensures Listed(dirExists, listing) && !CropFails(cfg, dryRun) ==>
      prepared == PreparedPaths(images, cfg, dryRun, tempDir, outcome) &&
      var out := Outputs(prepared, ranges, outDir, chaptersName, finalAllName, finalFromChaptersName, dryRun, disk0);
      err == out.err && disk == out.disk &&
      effects ==
        EnsureDir(outDir) +
        (if UsesTempDir(cfg, dryRun)
         then [MakeTempDir(tempDir)] + ImageWrites(CropWrites(images, outcome, ResolveCrop(cfg).value, tempDir))
         else []) +
        out.effects +
        (if UsesTempDir(cfg, dryRun) then [RemoveTempDir(tempDir)] else [])
    // what cannot go wrong
    ensures err != Some(NoImagesToWrite)
    ensures !dryRun ==> err != Some(NoPagesToMerge)
    ensures dryRun ==> disk == disk0 && (effects == [] || effects == EnsureDir(outDir))
  {
    images, prepared := [], [];
    var listed := ListImagesSorted(imageDir, dirExists, listing);
    if listed.Failure? {
      return Some(Listing(listed.error)), [], disk0, images, prepared;
    }
    var imgs := listed.value;
    images := imgs;
    var tempEffects: seq<Effect> := [];
    if cfg.enabled && !dryRun {
      tempEffects := [MakeTempDir(tempDir)];
    }
    var prep := PrepareImages(imgs, cfg, dryRun, tempDir, outcome);
    if prep.Failure? {
      return Some(prep.error), EnsureDir(outDir) + tempEffects, disk0, images, prepared;
    }
    var paths := prep.value.paths;
    prepared := paths;
    if prep.value.tempDir.Some? {
      tempEffects := tempEffects + ImageWrites(prep.value.writes);
    }
    var outEffects;
    err, outEffects, disk := WriteOutputs(paths, ranges, outDir, chaptersName, finalAllName,
                                          finalFromChaptersName, dryRun, disk0);
    var cleanup: seq<Effect> := [];
    if prep.value.tempDir.Some? && !dryRun && prep.value.tempDir.value != [] {
      cleanup := [RemoveTempDir(prep.value.tempDir.value)];
    }
    effects := EnsureDir(outDir) + tempEffects + outEffects + cleanup;
    OutputsHaveImages(paths, ranges, outDir, chaptersName, finalAllName, finalFromChaptersName, dryRun, disk0);
    if dryRun {
      DryRunWritesNothing(paths, ranges, outDir, chaptersName, finalAllName, finalFromChaptersName, disk0);
    } else {
      RealRunMergesPages(paths, ranges, outDir, chaptersName, finalAllName, finalFromChaptersName, disk0);
    }
  }
}
