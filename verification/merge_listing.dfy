/** `list_images_sorted` of merge.py (merge.py:99-111): keep the names
    whose extension is .png, .jpg or .jpeg in any case, sort them in
    natural order and join them to the image directory. */
module MergeListing {
  import opened Wrappers
  import opened Strings
  import opened NaturalOrder
  import opened Lists

  datatype ListingError =
    | ImageDirNotFound(dir: string)   // FileNotFoundError "Image dir not found"
    | NoImagesFound(dir: string)      // FileNotFoundError "No images found"

  /** `s.rfind(c)`: the last position of `c` in `s`, or -1. */
  function LastIndexOf(s: string, c: char): (r: int)
    ensures -1 <= r < |s|
    ensures r >= 0 ==> s[r] == c
    ensures forall k :: r < k < |s| ==> s[k] != c
    decreases |s|
  {
    if s == [] then -1
    else if s[|s| - 1] == c then |s| - 1
    else LastIndexOf(s[..|s| - 1], c)
  }

  /** `os.path.splitext(name)[1]` on POSIX: from the last dot of the last
      path component, unless that component is only dots up to it. */
  function Extension(name: string): string {
    var sep := LastIndexOf(name, '/');
    var dot := LastIndexOf(name, '.');
    if dot > sep && exists k :: sep < k < dot && name[k] != '.' then name[dot..] else ""
  }

  /** `os.path.splitext(name)[1].lower() in IMAGE_EXTS` */
  predicate IsImageName(name: string) {
    Lower(Extension(name)) in {".png", ".jpg", ".jpeg"}
  }

  /** A name that ends in `.png` after a plain, dot-free stem is an image. */
  lemma PngNameIsImage(stem: string)
    requires stem != [] && stem[0] != '.'
    requires forall i :: 0 <= i < |stem| ==> stem[i] != '.' && stem[i] != '/'
    ensures IsImageName(stem + ".png")
  {
    var name := stem + ".png";
    var n := |stem|;
    assert name[n] == '.' && name[n + 1] == 'p' && name[n + 2] == 'n' && name[n + 3] == 'g';
    assert LastIndexOf(name, '.') == n;
    assert LastIndexOf(name, '/') == -1;
    assert name[0] == stem[0];
    assert name[n..] == ".png";
    assert Lower(".png") == ".png";
  }

  /** The names `list_images_sorted` keeps from a directory listing. */
  function ImageNames(names: seq<string>): seq<string> {
    Filter(names, IsImageName)
  }

  /** An irreflexive and transitive relation. */
  ghost predicate StrictOrder<T(!new)>(less: (T, T) -> bool) {
    && (forall a :: !less(a, a))
    && (forall a, b, c :: less(a, b) && less(b, c) ==> less(a, c))
  }

  /** The natural order of file names is a strict order. */
  lemma NameLessStrictOrder()
    ensures StrictOrder(NameLess)
  {
    forall a {
      KeyLessIrreflexive(NaturalKey(a));
    }
    forall a, b, c | NameLess(a, b) && NameLess(b, c) ensures NameLess(a, c) {
      KeyLessTransitive(NaturalKey(a), NaturalKey(b), NaturalKey(c));
    }
  }

  /** No element sorts before an earlier one. */
  predicate SortedBy<T>(s: seq<T>, less: (T, T) -> bool) {
    forall i, j :: 0 <= i < j < |s| ==> !less(s[j], s[i])
  }

  /** `files` is `names` sorted with `key=natural_key`. */
  predicate NaturalOrderOf(files: seq<string>, names: seq<string>) {
    multiset(files) == multiset(names) && SortedBy(files, NameLess)
  }

  /** Putting `x` after the elements it does not sort before, and before
      the first one it does, keeps a sorted list sorted. */
  lemma InsertKeepsSorted<T(!new)>(r: seq<T>, x: T, k: nat, less: (T, T) -> bool)
    requires StrictOrder(less) && SortedBy(r, less) && k <= |r|
    requires forall m :: 0 <= m < k ==> !less(x, r[m])
    requires k < |r| ==> less(x, r[k])
    ensures SortedBy(r[..k] + [x] + r[k..], less)
  {
    var s := r[..k] + [x] + r[k..];
    assert forall i :: 0 <= i < k ==> s[i] == r[i];
    assert s[k] == x;
    assert forall i :: k < i < |s| ==> s[i] == r[i - 1];
  }

  /** Inserts `x` after every element that does not sort after it. */
  method Insert<T(!new)>(r: seq<T>, x: T, less: (T, T) -> bool) returns (s: seq<T>)
    requires StrictOrder(less) && SortedBy(r, less)
    ensures multiset(s) == multiset(r) + multiset{x}
    ensures SortedBy(s, less)
  {
    var k := 0;
    while k < |r| && !less(x, r[k])
      invariant 0 <= k <= |r|
      invariant forall m :: 0 <= m < k ==> !less(x, r[m])
    {
      k := k + 1;
    }
    InsertKeepsSorted(r, x, k, less);
    s := r[..k] + [x] + r[k..];
    assert r == r[..k] + r[k..];
  }

  /** `files.sort(key=natural_key)`, as an insertion sort. */
  method SortNatural(names: seq<string>) returns (r: seq<string>)
    ensures NaturalOrderOf(r, names)
  {
    NameLessStrictOrder();
    r := [];
    var n := 0;
    while n < |names|
      invariant 0 <= n <= |names|
      invariant multiset(r) == multiset(names[..n])
      invariant SortedBy(r, NameLess)
    {
      r := Insert(r, names[n], NameLess);
      assert names[..n + 1] == names[..n] + [names[n]];
      n := n + 1;
    }
    assert names[..|names|] == names;
  }

  /** `[os.path.join(image_dir, f) for f in files]` */
  function JoinAll(dir: string, files: seq<string>): (paths: seq<string>)
    ensures |paths| == |files|
  {
    seq(|files|, i requires 0 <= i < |files| => JoinPath(dir, files[i]))
  }

  /** `list_images_sorted(image_dir)`, with the directory's existence and
      its `os.listdir` as inputs. */
  method ListImagesSorted(imageDir: string, dirExists: bool, listing: seq<string>)
    returns (r: Result<seq<string>, ListingError>)
    ensures !dirExists ==> r == Failure(ImageDirNotFound(imageDir))
    ensures dirExists ==> (r.Failure? <==> ImageNames(listing) == [])
    ensures dirExists && r.Failure? ==> r.error == NoImagesFound(imageDir)
    ensures r.Success? ==> r.value != []
    ensures r.Success? ==>
      exists files :: NaturalOrderOf(files, ImageNames(listing)) && r.value == JoinAll(imageDir, files)
  {
    if !dirExists {
      return Failure(ImageDirNotFound(imageDir));
    }
    var files: seq<string> := [];
    var i := 0;
    while i < |listing|
      invariant 0 <= i <= |listing|
      invariant files == Filter(listing[..i], IsImageName)
    {
      var name := listing[i];
      assert listing[..i + 1][..i] == listing[..i];
      if IsImageName(name) {
        files := files + [name];
      }
      i := i + 1;
    }
    assert listing[..|listing|] == listing;
    var sorted := SortNatural(files);
    assert |sorted| == |files| by {
      assert |multiset(sorted)| == |multiset(files)|;
    }
    var paths := JoinAll(imageDir, sorted);
    if paths == [] {
      return Failure(NoImagesFound(imageDir));
    }
    return Success(paths);
  }
}
