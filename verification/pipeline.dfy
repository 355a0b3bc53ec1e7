/** The two scripts together: capture.py saves `page_{index:03d}.png`
    files, and merge.py lists the same directory and sorts it with
    `natural_key`. When the directory holds exactly the pages of one
    capture run, merge reads them back in capture order. */
module Pipeline {
  import opened Strings
  import opened NaturalOrder
  import opened Lists
  import opened MergeListing
  import opened Capture

  /** Each element sorts strictly before every later one. */
  predicate StrictlyIncreasing<T>(s: seq<T>, less: (T, T) -> bool) {
    forall i, j :: 0 <= i < j < |s| ==> less(s[i], s[j])
  }

  /** The first element of a sorted list has nothing before it. */
  lemma SortedHeadIsLeast<T(!new)>(a: seq<T>, less: (T, T) -> bool)
    requires StrictOrder(less) && SortedBy(a, less) && a != []
    ensures forall k :: 0 <= k < |a| ==> !less(a[k], a[0])
  {
    forall k | 0 <= k < |a| ensures !less(a[k], a[0]) {
      if k > 0 {
        assert SortedBy(a, less);
      }
    }
  }

  /** Two orderings of the same elements, one sorted and one strictly
      increasing, start with the same element. */
  lemma HeadsAgree<T(!new)>(a: seq<T>, b: seq<T>, less: (T, T) -> bool)
    requires StrictOrder(less)
    requires multiset(a) == multiset(b) && a != [] && b != []
    requires SortedBy(a, less) && StrictlyIncreasing(b, less)
    ensures a[0] == b[0]
  {
    SortedHeadIsLeast(a, less);
    assert b[0] in multiset(a);
    var n :| 0 <= n < |a| && a[n] == b[0];
    assert !less(b[0], a[0]);
    forall m | 0 < m < |b| ensures b[m] != a[0] {
      assert less(b[0], b[m]);
    }
    assert a[0] in multiset(b);
  }

  lemma TailsPermutation<T>(a: seq<T>, b: seq<T>)
    requires multiset(a) == multiset(b) && a != [] && b != [] && a[0] == b[0]
    ensures multiset(a[1..]) == multiset(b[1..])
  {
    assert a == [a[0]] + a[1..] && b == [b[0]] + b[1..];
    assert multiset(a[1..]) == multiset(a) - multiset{a[0]};
    assert multiset(b[1..]) == multiset(b) - multiset{a[0]};
  }

  /** A sorted permutation of a strictly increasing list is that list:
      sorting has only one answer when no two elements tie. */
  lemma {:induction false} SortedPermutationUnique<T(!new)>(a: seq<T>, b: seq<T>, less: (T, T) -> bool)
    requires StrictOrder(less)
    requires multiset(a) == multiset(b)
    requires SortedBy(a, less) && StrictlyIncreasing(b, less)
    ensures a == b
    decreases |a|
  {
    assert |a| == |multiset(a)| == |multiset(b)| == |b|;
    if a != [] {
      HeadsAgree(a, b, less);
      TailsPermutation(a, b);
      SortedPermutationUnique(a[1..], b[1..], less);
      assert a == [a[0]] + a[1..] && b == [b[0]] + b[1..];
    }
  }

  /** The names of pages `start` to `start + pages - 1`, in index order. */
  function PageNames(start: int, pages: nat): (names: seq<string>)
    ensures |names| == pages
  {
    seq(pages, k => PageName(start + k))
  }

  /** For non-negative indices, natural order puts `page_{i:03d}.png`
      before `page_{j:03d}.png` exactly when `i < j`. */
  lemma PageNamesOrder(i: int, j: int)
    requires 0 <= i && 0 <= j
    ensures NameLess(PageName(i), PageName(j)) <==> i < j
  {
    FormatNonNegative(i, 3);
    FormatNonNegative(j, 3);
    assert NoDigits("page_") && NoDigits(".png");
    NumberedNamesOrder("page_", FormatInt(i, 3), FormatInt(j, 3), ".png");
  }

  lemma PageNamePairLess(names: seq<string>, start: int, pages: nat, i: nat, j: nat)
    requires start >= 0 && names == PageNames(start, pages) && i < pages && j < pages
    ensures NameLess(names[i], names[j]) <==> i < j
  {
    var x, y := names[i], names[j];
    assert x == PageName(start + i) && y == PageName(start + j);
    PageOrderOf(x, y, start + i, start + j);
  }

  lemma PageOrderOf(x: string, y: string, i: int, j: int)
    requires 0 <= i && 0 <= j && x == PageName(i) && y == PageName(j)
    ensures NameLess(x, y) <==> i < j
  {
    PageNamesOrder(i, j);
  }

  /** A capture run's page names are in strictly increasing natural
      order. */
  lemma PageNamesIncreasing(start: int, pages: nat)
    requires start >= 0
    ensures StrictlyIncreasing(PageNames(start, pages), NameLess)
  {
    var names := PageNames(start, pages);
    forall i, j | 0 <= i < |names| && 0 <= j < |names| ensures NameLess(names[i], names[j]) <==> i < j {
      PageNamePairLess(names, start, pages, i, j);
    }
  }

  /** Every page file passes merge's extension filter. */
  lemma PageNameIsImage(index: int)
    requires index >= 0
    ensures IsImageName(PageName(index))
  {
    var d := FormatInt(index, 3);
    FormatNonNegative(index, 3);
    var stem := "page_" + d;
    assert PageName(index) == stem + ".png";
    forall k | 0 <= k < |stem| ensures stem[k] != '.' && stem[k] != '/' {
      if k >= 5 {
        assert stem[k] == d[k - 5];
      }
    }
    PngNameIsImage(stem);
  }

  /** A listing that holds exactly a run's page files passes merge's
      extension filter whole. */
  lemma PageListingAllImages(listing: seq<string>, start: int, pages: nat)
    requires start >= 0
    requires multiset(listing) == multiset(PageNames(start, pages))
    ensures ImageNames(listing) == listing
  {
    var names := PageNames(start, pages);
    forall i | 0 <= i < |listing| ensures IsImageName(listing[i]) {
      assert listing[i] in multiset(names);
      var k :| 0 <= k < |names| && names[k] == listing[i];
      PageNameIsImage(start + k);
    }
    FilterAll(listing, IsImageName);
  }

  /** Merge's sorted list of the page names is the index order. */
  lemma SortedPageNames(listing: seq<string>, files: seq<string>, start: int, pages: nat)
    requires start >= 0
    requires multiset(listing) == multiset(PageNames(start, pages))
    requires NaturalOrderOf(files, ImageNames(listing))
    ensures files == PageNames(start, pages)
  {
    PageListingAllImages(listing, start, pages);
    NameLessStrictOrder();
    PageNamesIncreasing(start, pages);
    SortedPermutationUnique(files, PageNames(start, pages), NameLess);
  }

  /** When the image directory holds exactly the pages one capture run
      saved, in whatever order the file system lists them, merge's sorted
      list of images is the run's saved files in the order they were
      captured. */
  lemma MergeReadsPagesInCaptureOrder(outputDir: string, start: int, pages: nat, key: string, region: Rect,
                                      captureFirst: bool, listing: seq<string>, files: seq<string>)
    requires start >= 0 && pages > 0
    requires multiset(listing) == multiset(PageNames(start, pages))
    requires NaturalOrderOf(files, ImageNames(listing))
    ensures JoinAll(outputDir, files) == SavedPaths(CaptureLog(outputDir, start, pages, key, region, captureFirst))
  {
    SortedPageNames(listing, files, start, pages);
    PageFilesSaved(outputDir, start, pages, key, region, captureFirst);
  }

  /** The page names joined to the output directory are the files a run
      saves, in order. */
  lemma PageFilesSaved(outputDir: string, start: int, pages: nat, key: string, region: Rect,
                       captureFirst: bool)
    requires start >= 0 && pages > 0
    ensures JoinAll(outputDir, PageNames(start, pages))
         == SavedPaths(CaptureLog(outputDir, start, pages, key, region, captureFirst))
  {
    CaptureLogPages(outputDir, start, pages, key, region, captureFirst);
    JoinedPageNames(outputDir, start, pages);
  }

  lemma JoinedPageNames(outputDir: string, start: int, pages: nat)
    ensures JoinAll(outputDir, PageNames(start, pages)) == seq(pages, i => PageFilename(outputDir, start + i))
  {
    var paths := JoinAll(outputDir, PageNames(start, pages));
    assert forall k :: 0 <= k < pages ==> paths[k] == PageFilename(outputDir, start + k);
  }
}
