# python-app-capturer, modelled in Dafny

The repository holds two scripts that turn an e-book reader's pages into PDFs.

`capture.py` finds the reader's window by a keyword in its title. It falls back to the
whole screen when no window answers. It optionally shrinks the region by margins. Then
it saves a screenshot per page as `page_{index:03d}.png`, pressing a key to flip
between pages.

`merge.py` builds PDFs from those screenshots, in these steps:
- It lists the image directory, keeping `.png`, `.jpg` and `.jpeg` files in any case.
- It sorts them in natural order (`page_2` before `page_10`).
- Optionally, it crops every image into a temporary directory.
- It writes one PDF per 1-based, inclusive chapter range.
- It writes one PDF of all images.
- It merges the chapter PDFs into a single book.

This project models both scripts, with every library call abstracted:
- Window system answers are inputs: the titles and a `probe` function.
- The screen size is an input.
- The image library's behaviour on each file is an input `outcome`.
- `mkdtemp`'s answer is an input.
- The files already on disk are a map from path to page count.
- The scripts' effects are outputs: key presses, screenshots, directories made, images and
  PDFs written, the temporary directory removed.

Python exceptions are `Failure` values carrying the same error cases.

Modules, one per file:

| file | module | what it holds |
|---|---|---|
| `wrappers.dfy` | `Wrappers` | `Option`, `Result` |
| `strings.dfy` | `Strings` | ASCII character classes, `lower`/`upper`, `isspace`, `p in s`, `{n:0Wd}` formatting and its inverse, POSIX `os.path.join` |
| `lists.dfy` | `Lists` | the filter a list comprehension or an appending loop computes |
| `natural_order.dfy` | `NaturalOrder` | `re.split(r"(\d+)", s)`, `natural_key`, and Python's ordering of strings, ints and lists |
| `page_ranges.dfy` | `PageRanges` | `select_pages`, `pretty_range_name` |
| `crop_box.dfy` | `CropBox` | `clamp`, the `int(...)` coercions of the crop settings, `_to_int_or_none`, `compute_crop_box` |
| `merge_listing.dfy` | `MergeListing` | `os.path.splitext`, the extension filter, the natural sort (an insertion sort), `list_images_sorted` |
| `merge_driver.dfy` | `MergeDriver` | the crop pass, the chapter loop, `save_images_to_pdf`, `merge_pdfs`, `run_merge` |
| `capture.dfy` | `Capture` | `crop_bbox`, `page_filename`, `find_window_bbox`, `run_capture` |
| `pipeline.dfy` | `Pipeline` | the two scripts together: merge reads a capture run's pages back in capture order |

Each loop, and each block that changes state step by step, is a method proved against a
specification function:
- the crop pass against `CroppedPaths` (one entry per image) and `CropWrites` (recursive
  on a prefix);
- the chapter loop against `PlanChapters`, `PdfWrites` and `Written`, each recursive on a
  prefix;
- `merge_pdfs` against `TotalPages`, recursive on a prefix;
- the `try` block of `run_merge` against `Outputs`, and its two final PDFs against `Finals`,
  neither of them recursive;
- the window search of `find_window_bbox` against `FirstWindow`, recursive on the list of
  candidates from its front;
- the page loop of `run_capture` against `Flips`, recursive on the page count, and the
  whole `try` block against `CaptureLog`, which is not recursive.

The lemmas then state what those functions guarantee. Behaviour of the code that the model
keeps as written:
- A crop setting that cannot be coerced raises after `mkdtemp`, before the `try` of
  `run_merge`. The temporary directory is made and never removed (`RunMerge`).
- A dry run writes no chapter PDF but still calls `merge_pdfs`. When no chapter file is
  already on disk, the dry run ends with the "No pages to write" error
  (`DryRunWritesNothing`).
- A range that selects nothing is skipped but still uses up its chapter number
  (`PlanChapters`).

## Model

| member | source | states |
|---|---|---|
| Strings.FormatNonNegative | capture.py:91-92 | `{n:0Wd}` of a non-negative `n` is all digits, at least `W` of them (exactly the digits of `n` when longer), and reads back as `n` |
| Strings.FormatParseRoundTrip | merge.py:256-257 | for every integer and width, the formatted number is a numeral whose value is the number (a minus sign, zero padding, digits) |
| Strings.FormatInjective | merge.py:294 | two numbers formatted with the same width give the same text only when they are equal |
| Strings.ContainsOccurs | capture.py:43 | `p in s` holds exactly when `p` occurs at some position of `s` |
| Strings.JoinInjective | merge.py:108 | joining one directory with two relative names gives equal paths only for equal names |
| Lists.FilterMembers | merge.py:102-106 | the kept list holds exactly the elements of the input that the test accepts |
| Lists.FilterAll | merge.py:102-106 | when every element passes the test, the whole list is kept, in order |
| NaturalOrder.NonDigitRun | merge.py:97 | the length of the longest digit-free prefix: that prefix has no digit and the next character is a digit |
| NaturalOrder.DigitRun | merge.py:97 | the length of the longest all-digit prefix: that prefix is all digits and the next character is not |
| NaturalOrder.SplitCorrect | merge.py:97 | `re.split(r"(\d+)", s)` has odd length, digit-free text at even positions, non-empty digit runs at odd ones, non-empty inner texts, and concatenates back to `s` |
| NaturalOrder.SplitUnique | merge.py:97 | any cut of `s` with that shape is the one `re.split` returns |
| NaturalOrder.NaturalKeyAlternates | merge.py:95-97 | a natural key has odd length, with text at every even position and an int at every odd one |
| NaturalOrder.NaturalKeysComparable | merge.py:107 | two natural keys hold the same kind of element at every common position, so sorting never compares a str with an int |
| NaturalOrder.KeyLessIrreflexive | merge.py:107 | no key sorts before itself |
| NaturalOrder.KeyLessTransitive | merge.py:107 | the list order on keys is transitive |
| NaturalOrder.KeyLessTotal | merge.py:107 | two different keys of the same shape are ordered one way or the other |
| NaturalOrder.NameOrderTotal | merge.py:107 | two names either have equal keys or one sorts strictly before the other |
| NaturalOrder.SplitCons | merge.py:97 | a digit-free text and a digit run in front of a text starting with a non-digit are the first two pieces of the split |
| NaturalOrder.NumberedNameKey | merge.py:95-97 | the key of text + one digit run + text is [lower text, the run's value, lower text] |
| NaturalOrder.SplitAround | merge.py:97 | a digit run with no digit on either side splits as the text before it, the run, then the text after it, each cut on its own |
| NaturalOrder.NaturalKeyAround | merge.py:95-97 | the key of such a name is the key of the text before, the run's value, then the key of the text after |
| NaturalOrder.KeyLessAt | merge.py:107 | two keys that differ in one element compare as that element does |
| NaturalOrder.NumberedNamesOrder | merge.py:95-97 | names that differ only in one digit run, with no digit next to it, sort exactly by that run's value, whatever other numbers they hold (`vol2_page_3.png` before `vol2_page_10.png`) |
| NaturalOrder.UnpaddedPageNamesOrder | merge.py:96 | `page_{i}.png` sorts before `page_{j}.png` exactly when `i < j`, so `page_2.png` comes before `page_10.png` |
| PageRanges.SelectPages | merge.py:113-119 | an error with the range exactly when a bound is not positive or start > end; empty exactly when start is past the end; otherwise pages start..min(end, n), page `start + k` at position `k` |
| PageRanges.SelectAdjacent | merge.py:113-119 | ranges a..b and b+1..c select, one after the other, exactly what a..c selects |
| PageRanges.TwoNumberNameKey | merge.py:256-257 | the key of text + digits + non-empty text + digits + text lists the texts lowered and the two values |
| PageRanges.PrettyRangeNameKey | merge.py:256-257 | the natural key of `p{start:03d}-p{end:03d}` is ["p", start, "-p", end, ""] |
| PageRanges.PrettyRangeNameInjective | merge.py:256-257 | two ranges with non-negative bounds have the same name only when they are the same range |
| CropBox.ToInt | merge.py:166-167 | `int(cfg.get(k, 0))`: a missing key is 0, a boolean is 0 or 1, an int is itself, and `None` is a TypeError |
| CropBox.ToIntOrNone | merge.py:124-129 | a missing or `None` size is `None`, an int is itself, and a boolean is refused with a ValueError |
| CropBox.Clamp | merge.py:121-122 | the result is never below `lo`; inside `[lo, hi]` when that is non-empty; the value itself when it is inside; `lo` below or on an empty interval; `hi` above |
| CropBox.ComputeCropBox | merge.py:131-139 | the box is non-empty and inside the image; it exists exactly when the clamped corner is inside the image and any given sizes are positive; its edges are the clamped corner plus the sizes, cut at the image edges |
| CropBox.CropBoxIsFullImage | merge.py:195-197 | the box is the whole image exactly when x and y are not positive and each given size reaches the far edge |
| CropBox.SavedRegion | merge.py:191-198 | the region saved for an image, crop box or whole image, always lies inside the image |
| MergeListing.LastIndexOf | merge.py:104 | `rfind`: -1 or a position holding the character, with no occurrence after it |
| MergeListing.PngNameIsImage | merge.py:104-105 | a name of a plain dot-free stem plus `.png` passes the extension filter |
| MergeListing.NameLessStrictOrder | merge.py:107 | the natural order on names is irreflexive and transitive |
| MergeListing.InsertKeepsSorted | merge.py:107 | placing an element before the first element that sorts after it keeps a sorted list sorted |
| MergeListing.Insert | merge.py:107 | the result is the list plus the element (as multisets), and it is sorted |
| MergeListing.SortNatural | merge.py:107 | the result is a permutation of the names, sorted by natural key |
| MergeListing.ListImagesSorted | merge.py:99-111 | a missing directory and a directory without images are the two FileNotFoundErrors; otherwise the result is non-empty and is the directory joined to a natural-order permutation of the image names |
| MergeDriver.TempFormat | merge.py:170-172 | the format is always PNG, JPEG or JPG: the upper-cased setting when it is one of them, PNG otherwise |
| MergeDriver.ResolveCrop | merge.py:166-173 | the settings fail exactly when x, y or the preview count is `None` or w or h is a boolean; otherwise they are the coerced values and the resolved format |
| MergeDriver.CropFileNameInjective | merge.py:200-207 | two image numbers give the same temporary file name only when they are equal |
| MergeDriver.PrepareImages | merge.py:141-214 | crop off or dry run returns the list unchanged and no temporary directory; a bad setting is its error; otherwise the paths are `CroppedPaths` and the files written are `CropWrites`, in the temporary directory |
| MergeDriver.CroppedPathsDistinct | merge.py:200-209 | two images that were both cropped go to two different files |
| MergeDriver.CropWritesOrdered | merge.py:179-209 | temporary files are written in list order, at most one per image, numbered 1 to n |
| MergeDriver.CropWritesMatchPaths | merge.py:179-212 | every temporary file written is the list entry of its image, an image that opened and saved, and holds a region inside that image |
| MergeDriver.SavedImagesWritten | merge.py:200-209 | conversely, every image that opened and saved has its temporary file written, under the path its list entry names |
| MergeDriver.PlanFailureSticks | merge.py:286-288 | once a range has raised, later ranges change nothing |
| MergeDriver.PlanFailsOnInvalidRange | merge.py:286-288 | the chapter loop stops with an error exactly when some range is invalid, and then with the first invalid one |
| MergeDriver.PlanChaptersOrdered | merge.py:286-298 | chapter numbers are range positions between 1 and the number of ranges, strictly increasing |
| MergeDriver.PlanChaptersSound | merge.py:286-298 | every chapter is the non-empty selection of the range its number names, written to that range's path |
| MergeDriver.PlanChaptersComplete | merge.py:286-298 | when no range fails, every range that selects an image has its chapter |
| MergeDriver.ChapterPathNumberInjective | merge.py:292-295 | chapter files with different numbers have different paths, whatever their ranges, including with an absolute `chapters_name` that `os.path.join` keeps without the output directory |
| MergeDriver.ChapterPathsDistinct | merge.py:292-298 | no two chapters are written to the same file, for any `chapters_name` |
| MergeDriver.WrittenChapters | merge.py:220-228 | after a real run every chapter file is on disk with at least one page, and every other path is as before |
| MergeDriver.DirName | merge.py:226 | `os.path.dirname` is a prefix of the path, and it is empty exactly when the path has no `/` |
| MergeDriver.PdfDirOfJoin | merge.py:226 | a PDF named in the output directory, with no `/` in its own name, gets that directory made again (`.` when the output directory is empty) |
| MergeDriver.SavePdf | merge.py:226-228 | writing one PDF makes its directory (`dirname or "."`), then writes the file |
| MergeDriver.SaveImagesToPdf | merge.py:220-228 | no images is the "No images to write" error; a dry run writes nothing; otherwise its directory is made and one PDF is written with one page per image |
| MergeDriver.WriteRange | merge.py:287-298 | one pass of the chapter loop moves the paths, effects and disk from the plan of the first `idx - 1` ranges to that of the first `idx` |
| MergeDriver.WriteChapters | merge.py:281-298 | the chapter loop returns the paths, writes, disk and error of `PlanChapters` |
| MergeDriver.TotalPagesZero | merge.py:238-248 | the merge has no page exactly when every listed file is missing or empty |
| MergeDriver.MergePdfs | merge.py:230-254 | no page at all is the "No pages to write" error and writes nothing; otherwise the total page count, and on a real run its directory is made and one PDF of that many pages is written |
| MergeDriver.EnsureDir | merge.py:91-93 | no effect for an empty path, otherwise making that directory |
| MergeDriver.WriteFinals | merge.py:302-311 | the PDF of all images, then the merge of the chapter files when there are any: error, effects and disk are those of `Finals` |
| MergeDriver.WriteOutputs | merge.py:279-312 | the `try` block's error, effects and disk are those of `Outputs` |
| MergeDriver.OutputsHaveImages | merge.py:304-306 | with at least one image, the PDF of all images is never refused |
| MergeDriver.RealRunMergesPages | merge.py:309-312 | a real run never fails to merge the chapters: each chapter file was just written with pages |
| MergeDriver.DryRunWritesNothing | merge.py:262-317 | a dry run has no effect on disk; with chapters and none of their files already present it ends in the "No pages to write" error |
| MergeDriver.RunMerge | merge.py:262-317 | the listing errors; the sorted image list; a bad crop setting after the temporary directory was made; otherwise output dir, temporary images, chapter and final PDFs, then removal of the temporary directory; never "No images to write"; never "No pages to write" on a real run; a dry run leaves the disk as it was |
| Capture.CropBbox | capture.py:78-85 | width and height are never negative; the left and top edges move in by their margins |
| Capture.CropBboxEdges | capture.py:78-85 | a non-empty side keeps its far edge at its margin from the window's; an empty one means the margins overlap |
| Capture.CropBboxZeroMargins | capture.py:78-85 | zero or missing margins leave a well-formed rectangle unchanged |
| Capture.Region | capture.py:125-127 | missing or empty margins keep the bbox; otherwise the cropped bbox |
| Capture.PageNameDigits | capture.py:91-92 | a page name is `page_`, at least three digits reading back as the index, and `.png` |
| Capture.PageFilenameInjective | capture.py:91-92 | different pages go to different files |
| Capture.Candidates | capture.py:43 | a title is a candidate exactly when it is listed, holds the keyword ignoring case and is not blank |
| Capture.CandidateMeansKeywordInTitle | capture.py:43 | being a candidate means the lowered keyword occurs at some position of the lowered title |
| Capture.FirstWindowIsFirst | capture.py:48-59 | no window exactly when every candidate fails; otherwise the window of a candidate before which all failed |
| Capture.FindWindowBbox | capture.py:35-59 | without the window library there is no window; otherwise the first candidate's window that answers |
| Capture.RunCapture | capture.py:100-158 | `pages <= 0` is the AssertionError; otherwise the actions are `CaptureLog` over the found or full-screen region, cropped by the margins |
| Capture.CapturePages | capture.py:135-151 | the `try` block's actions are `CaptureLog` |
| Capture.FlipPages | capture.py:144-151 | the page loop's actions are `Flips` from its first page to its last |
| Capture.FlipsSave | capture.py:144-151 | `count` flips save pages `from` to `from + count - 1` in order and press the key `count` times |
| Capture.CaptureLogPages | capture.py:135-151 | a run saves pages `start` to `start + pages - 1` in order, and presses the key once per page after the first when the first is captured up front, once per page otherwise |
| Capture.FlipsPressThenSave | capture.py:144-151 | every key press is followed at once by a screenshot; every action uses the configured key and region |
| Capture.CaptureLogPressThenSave | capture.py:135-151 | the same for a whole run |
| Pipeline.SortedPermutationUnique | merge.py:107 | a sorted permutation of a strictly increasing list is that list: with no ties, sorting has one answer |
| Pipeline.PageNamesOrder | capture.py:91-92 | natural order puts `page_{i:03d}.png` before `page_{j:03d}.png` exactly when `i < j` |
| Pipeline.PageNamesIncreasing | capture.py:91-92 | a run's page names are strictly increasing in natural order |
| Pipeline.PageNameIsImage | merge.py:104-105 | every page file passes merge's extension filter |
| Pipeline.PageListingAllImages | merge.py:102-106 | a listing of exactly a run's page files passes the filter whole |
| Pipeline.SortedPageNames | merge.py:107 | merge sorts such a listing into page-index order |
| Pipeline.MergeReadsPagesInCaptureOrder | merge.py:99-111 | when the directory holds exactly one run's pages, in any order, merge's image list is the run's saved files in capture order |

## Left out

- Screenshots, key presses, sleeps, the countdown and the screen size query are not performed. They are events in a log or inputs.
- The image library (PIL, `exif_transpose`, RGB conversion, JPEG quality), `img2pdf` and `pypdf` are not modelled. An image is its size and whether saving succeeds; a PDF is its page count.
- `img2pdf.convert`, `PdfReader`, `PdfWriter.write` and the PDF file writes are assumed never to raise. So an image that PIL could not open, which the crop pass keeps under its original path (merge.py:210-212), still becomes one PDF page in the model, and the errors of `RunMerge` leave out every library exception.
- Progress bars (`tqdm`) and every `print`, including the debug preview lines and the full-image warning, are left out. They have no effect on the results.
- `focus_window` (capture.py:61-76) only raises the window and sleeps. The region and the actions do not depend on it.
- `ensure_output_dir` in capture.py is not an effect in the model. The `ensure_dir` of each PDF's own directory in merge.py is one (`SavePdf`).
- `cleanup_temp_dir`'s `os.path.isdir` check is not modelled: the model removes the directory `mkdtemp` returned.
- `KeyboardInterrupt` and the catch-all `except Exception` of `run_capture` are not modelled. A run is modelled as completing.
- `os.listdir`'s order is an input, so any order is covered.
- The stability of `list.sort` is not modelled. Two different names always have different keys when they are a capture run's page names, which is the case `Pipeline` covers.
- Windows paths are not modelled: `os.path.join` and `os.path.splitext` are the POSIX versions.
- Text is ASCII. `str.lower`, `str.upper`, `str.isdigit`, `str.isspace` and `\d` are not modelled on other Unicode characters.
- `int(...)` on a crop setting that is a string or a float is not modelled. The settings are missing, `None`, a boolean or an int.
- MergeListing.SortNatural: states a sorted permutation, not the exact order Python's stable sort gives to names with equal keys.
