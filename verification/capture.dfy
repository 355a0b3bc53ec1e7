/** The rules of capture.py (`crop_bbox`, `page_filename`, the window
    search of `find_window_bbox` and the page loop of `run_capture`) with
    the screen, the keyboard, the window manager and the clock
    abstracted: the window system answers through the `probe` input, and
    the run produces the sequence of key presses and screenshots it would
    make. */
module Capture {
  import opened Wrappers
  import opened Strings
  import opened Lists

  /** A screen rectangle: (left, top, width, height). */
  datatype Rect = Rect(left: int, top: int, width: int, height: int)

  /** `int(margins.get(key, 0))` */
  function Margin(margins: map<string, int>, key: string): int {
    if key in margins then margins[key] else 0
  }

  /** `crop_bbox`: moves each edge inwards by its margin; a width or height
      that would be negative becomes 0. */
  function CropBbox(bbox: Rect, margins: map<string, int>): (r: Rect)
    ensures r.width >= 0 && r.height >= 0
    ensures r.left == bbox.left + Margin(margins, "left")
    ensures r.top == bbox.top + Margin(margins, "top")
  {
    var l := bbox.left + Margin(margins, "left");
    var t := bbox.top + Margin(margins, "top");
    var r := bbox.left + bbox.width - Margin(margins, "right");
    var b := bbox.top + bbox.height - Margin(margins, "bottom");
    Rect(l, t, Max(0, r - l), Max(0, b - t))
  }

  /** A non-empty result keeps the right and bottom edges at their margins
      from the window's; an empty one means the margins overlap. */
  lemma CropBboxEdges(bbox: Rect, margins: map<string, int>)
    ensures var r := CropBbox(bbox, margins);
      (r.width > 0 ==> r.left + r.width == bbox.left + bbox.width - Margin(margins, "right")) &&
      (r.width == 0 ==> bbox.left + bbox.width - Margin(margins, "right") <= r.left) &&
      (r.height > 0 ==> r.top + r.height == bbox.top + bbox.height - Margin(margins, "bottom")) &&
      (r.height == 0 ==> bbox.top + bbox.height - Margin(margins, "bottom") <= r.top)
  {
  }

  /** Zero or missing margins leave a well-formed rectangle unchanged. */
  lemma CropBboxZeroMargins(bbox: Rect, margins: map<string, int>)
    requires bbox.width >= 0 && bbox.height >= 0
    requires forall k <- ["left", "top", "right", "bottom"] :: Margin(margins, k) == 0
    ensures CropBbox(bbox, margins) == bbox
  {
    assert Margin(margins, "left") == 0 && Margin(margins, "top") == 0;
    assert Margin(margins, "right") == 0 && Margin(margins, "bottom") == 0;
  }

  /** `region = bbox`, then `crop_bbox` when the margins are given and not
      empty. */
  function Region(bbox: Rect, cropMargins: Option<map<string, int>>): (r: Rect)
    ensures cropMargins.None? || cropMargins.value == map[] ==> r == bbox
    ensures cropMargins.Some? && cropMargins.value != map[] ==> r == CropBbox(bbox, cropMargins.value)
  {
    if cropMargins.Some? && cropMargins.value != map[] then CropBbox(bbox, cropMargins.value) else bbox
  }

  /** `page_{index:03d}.png` */
  function PageName(index: int): string {
    "page_" + FormatInt(index, 3) + ".png"
  }

  /** `page_filename`: the page's file in the output directory. */
  function PageFilename(outputDir: string, index: int): string {
    JoinPath(outputDir, PageName(index))
  }

  /** A page's name is `page_`, its index in at least three digits, and
      `.png`. */
  lemma PageNameDigits(index: int)
    requires index >= 0
    ensures var d := PageName(index)[5..|PageName(index)| - 4];
      PageName(index) == "page_" + d + ".png" &&
      IsDigitString(d) && |d| >= 3 && DigitsValue(d) == index
  {
    var d := FormatInt(index, 3);
    FormatNonNegative(index, 3);
    assert PageName(index) == "page_" + d + ".png";
    assert PageName(index)[5..|PageName(index)| - 4] == d;
  }

  /** Different pages are saved to different files. */
  lemma PageFilenameInjective(outputDir: string, i: int, j: int)
    requires PageFilename(outputDir, i) == PageFilename(outputDir, j)
    ensures i == j
  {
    JoinInjective(outputDir, PageName(i), PageName(j));
    var a, b := FormatInt(i, 3), FormatInt(j, 3);
    assert PageName(i) == "page_" + a + ".png" && PageName(j) == "page_" + b + ".png";
    assert |a| == |b|;
    assert a == PageName(i)[5..5 + |a|];
    assert b == PageName(j)[5..5 + |b|];
    FormatInjective(i, j, 3);
  }

  // ---------------------------------------------------------------------
  // Finding the window
  // ---------------------------------------------------------------------

  /** `title_keyword.lower() in w.lower() and w.strip()` */
  predicate IsCandidate(keyword: string, title: string) {
    Contains(Lower(title), Lower(keyword)) && !IsBlank(title)
  }

  /** The candidate titles, in the window system's order. */
  function Candidates(titles: seq<string>, keyword: string): (cands: seq<string>)
    ensures forall t :: t in cands <==> t in titles && IsCandidate(keyword, t)
  {
    FilterMembers(titles, t => IsCandidate(keyword, t));
    Filter(titles, t => IsCandidate(keyword, t))
  }

  /** A candidate title is one that holds the keyword, ignoring case, at
      some position, and is not blank. */
  lemma CandidateMeansKeywordInTitle(titles: seq<string>, keyword: string, t: string)
    ensures t in Candidates(titles, keyword) <==>
      t in titles && !IsBlank(t) && exists i :: OccursAt(Lower(t), Lower(keyword), i)
  {
    ContainsOccurs(Lower(t), Lower(keyword));
  }

  /** The bbox of the first candidate whose window can be restored and
      activated; `probe` answers for the window system (None when it
      raises). */
  function FirstWindow(cands: seq<string>, probe: string -> Option<Rect>): Option<Rect>
    decreases |cands|
  {
    if cands == [] then None
    else if probe(cands[0]).Some? then probe(cands[0])
    else FirstWindow(cands[1..], probe)
  }

  /** The window search answers with the first candidate that works, and
      with nothing only when none works. */
  lemma {:induction false} FirstWindowIsFirst(cands: seq<string>, probe: string -> Option<Rect>)
    ensures FirstWindow(cands, probe).None? <==> forall t <- cands :: probe(t).None?
    ensures FirstWindow(cands, probe).Some? ==>
      exists i :: 0 <= i < |cands| && probe(cands[i]) == FirstWindow(cands, probe) &&
        forall j :: 0 <= j < i ==> probe(cands[j]).None?
    decreases |cands|
  {
    if cands != [] && probe(cands[0]).None? {
      FirstWindowIsFirst(cands[1..], probe);
      assert forall t <- cands :: t == cands[0] || t in cands[1..];
      if FirstWindow(cands, probe).Some? {
        var i :| 0 <= i < |cands[1..]| && probe(cands[1..][i]) == FirstWindow(cands[1..], probe) &&
          forall j :: 0 <= j < i ==> probe(cands[1..][j]).None?;
        assert probe(cands[i + 1]) == FirstWindow(cands, probe);
        forall j | 0 <= j < i + 1 ensures probe(cands[j]).None? {
          if j > 0 {
            assert cands[j] == cands[1..][j - 1];
          }
        }
      }
    } else if cands != [] {
      assert probe(cands[0]) == FirstWindow(cands, probe);
    }
  }

  /** `find_window_bbox`: without the window library there is no window;
      otherwise the candidates are tried in order. */
  method FindWindowBbox(keyword: string, gwAvailable: bool, titles: seq<string>,
                        probe: string -> Option<Rect>)
    returns (r: Option<Rect>)
    ensures !gwAvailable ==> r.None?
    ensures gwAvailable ==> r == FirstWindow(Candidates(titles, keyword), probe)
  {
    if !gwAvailable {
      return None;
    }
    var cands := Candidates(titles, keyword);
    if cands == [] {
      return None;
    }
    var i := 0;
    while i < |cands|
      invariant 0 <= i <= |cands|
      invariant FirstWindow(cands, probe) == FirstWindow(cands[i..], probe)
    {
      assert cands[i..][1..] == cands[i + 1..];
      var found := probe(cands[i]);
      if found.Some? {
        return found;
      }
      i := i + 1;
    }
    return None;
  }

  // ---------------------------------------------------------------------
  // The capture run
  // ---------------------------------------------------------------------

  /** One action on the screen: a key press that flips the page, or a
      screenshot of a region saved to a file. */
  datatype CaptureEvent = Press(key: string) | Save(path: string, region: Rect)

  datatype CaptureError = PagesNotPositive   // AssertionError "pages must be > 0"

  /** `count` flips from page `from` on: each key press followed by the
      screenshot of the next page. */
  function Flips(outputDir: string, from: int, count: nat, key: string, region: Rect): seq<CaptureEvent>
    decreases count
  {
    if count == 0 then []
    else Flips(outputDir, from, count - 1, key, region) +
         [Press(key), Save(PageFilename(outputDir, from + count - 1), region)]
  }

  lemma FlipsStep(outputDir: string, from: int, count: nat, key: string, region: Rect)
    ensures Flips(outputDir, from, count + 1, key, region)
         == Flips(outputDir, from, count, key, region) + [Press(key), Save(PageFilename(outputDir, from + count), region)]
  {
  }

  /** The actions of a whole run: the first page saved before any flip when
      `captureFirst`, then flips up to page `start + pages - 1`. */
  function CaptureLog(outputDir: string, start: int, pages: nat, key: string, region: Rect,
                      captureFirst: bool): seq<CaptureEvent>
  {
    if captureFirst && pages > 0 then
      [Save(PageFilename(outputDir, start), region)] + Flips(outputDir, start + 1, pages - 1, key, region)
    else Flips(outputDir, start, pages, key, region)
  }

  /** The screen's full bbox replaces a window that was not found. */
  function CaptureBbox(window: Option<Rect>, screenW: nat, screenH: nat): Rect {
    if window.Some? then window.value else Rect(0, 0, screenW, screenH)
  }

  /** `run_capture`, with the window system's answers and the screen size
      as inputs and the actions as output. */
  method RunCapture(windowTitle: string, outputDir: string, pages: int, startIndex: int, hotkey: string,
                    cropMargins: Option<map<string, int>>, captureFirst: bool,
                    gwAvailable: bool, titles: seq<string>, probe: string -> Option<Rect>,
                    screenW: nat, screenH: nat)
    returns (r: Result<seq<CaptureEvent>, CaptureError>)
    ensures pages <= 0 ==> r == Failure(PagesNotPositive)
    ensures pages > 0 ==>
      var window := if gwAvailable then FirstWindow(Candidates(titles, windowTitle), probe) else None;
      var region := Region(CaptureBbox(window, screenW, screenH), cropMargins);
      r == Success(CaptureLog(outputDir, startIndex, pages, hotkey, region, captureFirst))
  {
    if pages <= 0 {
      return Failure(PagesNotPositive);
    }
    var window := FindWindowBbox(windowTitle, gwAvailable, titles, probe);
    var bbox := if window.None? then Rect(0, 0, screenW, screenH) else window.value;
    var region := bbox;
    if cropMargins.Some? && cropMargins.value != map[] {
      region := CropBbox(bbox, cropMargins.value);
    }
    var events := CapturePages(outputDir, startIndex, pages, hotkey, region, captureFirst);
    return Success(events);
  }

  /** The `try` block of `run_capture`: the first page when
      `captureFirst`, then flip and capture until page
      `start + pages - 1`. */
  method CapturePages(outputDir: string, start: int, pages: nat, hotkey: string, region: Rect,
                      captureFirst: bool)
    returns (events: seq<CaptureEvent>)
    requires pages > 0
    ensures events == CaptureLog(outputDir, start, pages, hotkey, region, captureFirst)
  {
    var pageIdx := start;
    var first: seq<CaptureEvent> := [];
    if captureFirst {
      first := [Save(PageFilename(outputDir, pageIdx), region)];
      pageIdx := pageIdx + 1;
    }
    var flips := FlipPages(outputDir, pageIdx, start + pages, hotkey, region);
    events := first + flips;
    if !captureFirst {
      assert events == flips;
    }
  }

  /** The `while` loop of `run_capture`: flip, then capture, until page
      `end - 1` is saved. */
  method FlipPages(outputDir: string, from: int, end: int, hotkey: string, region: Rect)
    returns (events: seq<CaptureEvent>)
    requires from <= end
    ensures events == Flips(outputDir, from, end - from, hotkey, region)
  {
    events := [];
    var pageIdx := from;
    while pageIdx < end
      invariant from <= pageIdx <= end
      invariant events == Flips(outputDir, from, pageIdx - from, hotkey, region)
      decreases end - pageIdx
    {
      FlipsStep(outputDir, from, pageIdx - from, hotkey, region);
      events := events + [Press(hotkey), Save(PageFilename(outputDir, pageIdx), region)];
      pageIdx := pageIdx + 1;
    }
  }

  // ---------------------------------------------------------------------
  // Properties of a run
  // ---------------------------------------------------------------------

  /** The files saved, in order. */
  function SavedPaths(log: seq<CaptureEvent>): seq<string>
    decreases |log|
  {
    if log == [] then []
    else SavedPaths(log[..|log| - 1]) + if log[|log| - 1].Save? then [log[|log| - 1].path] else []
  }

  /** The number of key presses. */
  function PressCount(log: seq<CaptureEvent>): nat
    decreases |log|
  {
    if log == [] then 0
    else PressCount(log[..|log| - 1]) + if log[|log| - 1].Press? then 1 else 0
  }

  lemma {:induction false} SavedPathsAppend(a: seq<CaptureEvent>, b: seq<CaptureEvent>)
    ensures SavedPaths(a + b) == SavedPaths(a) + SavedPaths(b)
    ensures PressCount(a + b) == PressCount(a) + PressCount(b)
    decreases |b|
  {
    if b == [] {
      assert a + b == a;
    } else {
      var c := a + b;
      assert c[..|c| - 1] == a + b[..|b| - 1];
      SavedPathsAppend(a, b[..|b| - 1]);
    }
  }

  /** The pages a run of `count` flips saves, one per flip. */
  lemma {:induction false} FlipsSave(outputDir: string, from: int, count: nat, key: string, region: Rect)
    ensures SavedPaths(Flips(outputDir, from, count, key, region))
         == seq(count, i => PageFilename(outputDir, from + i))
    ensures PressCount(Flips(outputDir, from, count, key, region)) == count
    decreases count
  {
    if count > 0 {
      var pair := [Press(key), Save(PageFilename(outputDir, from + count - 1), region)];
      FlipsSave(outputDir, from, count - 1, key, region);
      SavedPathsAppend(Flips(outputDir, from, count - 1, key, region), pair);
      assert pair[..1] == [Press(key)] && [Press(key)][..0] == [];
      assert SavedPaths([Press(key)]) == [] && PressCount([Press(key)]) == 1;
      assert SavedPaths(pair) == [PageFilename(outputDir, from + count - 1)] && PressCount(pair) == 1;
      var all := seq(count, i => PageFilename(outputDir, from + i));
      assert all == seq(count - 1, i => PageFilename(outputDir, from + i)) + [PageFilename(outputDir, from + count - 1)];
    }
  }

  /** A run saves exactly `pages` screenshots, to the files of pages
      `start` to `start + pages - 1` in that order, and presses the key
      once per page after the first when the first page is captured
      up front, once per page otherwise. */
  lemma CaptureLogPages(outputDir: string, start: int, pages: nat, key: string, region: Rect,
                        captureFirst: bool)
    requires pages > 0
    ensures SavedPaths(CaptureLog(outputDir, start, pages, key, region, captureFirst))
         == seq(pages, i => PageFilename(outputDir, start + i))
    ensures PressCount(CaptureLog(outputDir, start, pages, key, region, captureFirst))
         == if captureFirst then pages - 1 else pages
  {
    if captureFirst {
      var head := [Save(PageFilename(outputDir, start), region)];
      FlipsSave(outputDir, start + 1, pages - 1, key, region);
      SavedPathsAppend(head, Flips(outputDir, start + 1, pages - 1, key, region));
      assert head[..0] == [];
      assert SavedPaths(head) == [PageFilename(outputDir, start)] && PressCount(head) == 0;
      PageFilenamesCons(outputDir, start, pages - 1);
    } else {
      FlipsSave(outputDir, start, pages, key, region);
    }
  }

  lemma PageFilenamesCons(outputDir: string, start: int, n: nat)
    ensures [PageFilename(outputDir, start)] + seq(n, i => PageFilename(outputDir, start + 1 + i))
         == seq(n + 1, i => PageFilename(outputDir, start + i))
  {
  }

  /** Every key press is followed at once by a screenshot, and every
      action uses the configured key and region. */
  lemma {:induction false} FlipsPressThenSave(outputDir: string, from: int, count: nat, key: string, region: Rect)
    ensures var log := Flips(outputDir, from, count, key, region);
      (forall i :: 0 <= i < |log| && log[i].Press? ==> i + 1 < |log| && log[i + 1].Save?) &&
      (forall e <- log :: e == Press(key) || (e.Save? && e.region == region)) &&
      |log| == 2 * count
    decreases count
  {
    if count > 0 {
      FlipsPressThenSave(outputDir, from, count - 1, key, region);
      var init := Flips(outputDir, from, count - 1, key, region);
      var log := Flips(outputDir, from, count, key, region);
      assert forall i :: 0 <= i < |init| ==> log[i] == init[i];
      assert forall e <- log :: e in init || e == log[|log| - 2] || e == log[|log| - 1];
    }
  }

  lemma CaptureLogPressThenSave(outputDir: string, start: int, pages: nat, key: string, region: Rect,
                                captureFirst: bool)
    ensures var log := CaptureLog(outputDir, start, pages, key, region, captureFirst);
      (forall i :: 0 <= i < |log| && log[i].Press? ==> i + 1 < |log| && log[i + 1].Save?) &&
      (forall e <- log :: e == Press(key) || (e.Save? && e.region == region))
  {
    if captureFirst && pages > 0 {
      FlipsPressThenSave(outputDir, start + 1, pages - 1, key, region);
      var log := CaptureLog(outputDir, start, pages, key, region, captureFirst);
      var tail := Flips(outputDir, start + 1, pages - 1, key, region);
      assert forall i :: 1 <= i < |log| ==> log[i] == tail[i - 1];
    } else {
      FlipsPressThenSave(outputDir, start, pages, key, region);
    }
  }
}
