/** Chapter page ranges of merge.py: `select_pages` cuts a 1-based,
    inclusive range out of the sorted image list (merge.py:113-119), and
    `pretty_range_name` names a range in chapter file names
    (merge.py:256-257). */
module PageRanges {
  import opened Wrappers
  import opened Strings
  import opened NaturalOrder

  /** The ValueError of `select_pages`, with the range it rejected. */
  datatype RangeError = InvalidRange(start: int, end: int)

  predicate ValidRange(start: int, end: int) { 0 < start <= end }

  /** `select_pages(images, start, end)`: pages `start..end` (1-based,
      inclusive), cut off at the end of the list. */
  function SelectPages<T>(images: seq<T>, start: int, end: int): (r: Result<seq<T>, RangeError>)
    ensures r.Failure? <==> start <= 0 || end <= 0 || start > end
    ensures r.Failure? ==> r.error == InvalidRange(start, end)
    ensures r.Success? ==> (r.value == [] <==> start > |images|)
    // page number start + k lands at position k, up to the last page
    ensures r.Success? && start <= |images| ==>
      |r.value| == Min(end, |images|) - start + 1 &&
      forall k :: 0 <= k < |r.value| ==> r.value[k] == images[start - 1 + k]
  {
    if start <= 0 || end <= 0 || start > end then Failure(InvalidRange(start, end))
    else if start > |images| then Success([])
    else Success(images[start - 1..Min(end, |images|)])
  }

  /** Two adjacent ranges select, one after the other, exactly what their
      union selects: splitting a book into consecutive chapters loses and
      repeats no page. */
  lemma SelectAdjacent<T>(images: seq<T>, a: int, b: int, c: int)
    requires 0 < a <= b < c
    ensures SelectPages(images, a, b).Success? && SelectPages(images, b + 1, c).Success?
    ensures SelectPages(images, a, c).Success?
    ensures SelectPages(images, a, c).value
         == SelectPages(images, a, b).value + SelectPages(images, b + 1, c).value
  {
    var n := |images|;
    if a > n {
    } else if b >= n {
      assert SelectPages(images, b + 1, c).value == [];
      assert Min(b, n) == Min(c, n) == n;
    } else {
      assert images[a - 1..Min(c, n)] == images[a - 1..b] + images[b..Min(c, n)];
    }
  }

  /** `pretty_range_name(start, end)`: `p{start:03d}-p{end:03d}`. */
  function PrettyRangeName(start: int, end: int): string {
    "p" + FormatInt(start, 3) + "-p" + FormatInt(end, 3)
  }

  /** A text and a digit run in front of a one-number name add two pieces
      to its split. */
  lemma SplitBeforeNumbered(pre: string, d1: string, rest: string, mid: string, d2: string, post: string)
    requires NoDigits(pre) && IsDigitString(d1) && rest != [] && !IsDigit(rest[0])
    requires Split(rest) == [mid, d2, post]
    ensures Split(pre + d1 + rest) == [pre, d1, mid, d2, post]
  {
    SplitCons(pre, d1, rest);
  }

  /** `re.split` cuts a name with two digit runs into its five parts. */
  lemma TwoNumberSplit(pre: string, d1: string, mid: string, d2: string, post: string)
    requires NoDigits(pre) && NoDigits(mid) && NoDigits(post) && mid != []
    requires IsDigitString(d1) && IsDigitString(d2)
    ensures Split(pre + d1 + mid + d2 + post) == [pre, d1, mid, d2, post]
  {
    var rest := mid + d2 + post;
    NumberedSplit(mid, d2, post);
    assert rest[0] == mid[0];
    assert pre + d1 + mid + d2 + post == pre + d1 + rest;
    SplitBeforeNumbered(pre, d1, rest, mid, d2, post);
  }

  /** The key of a name that splits into text, number, text, number,
      text. */
  lemma KeyOfTwoNumbers(s: string, pre: string, d1: string, mid: string, d2: string, post: string)
    requires Split(s) == [pre, d1, mid, d2, post]
    requires NoDigits(pre) && NoDigits(mid) && NoDigits(post)
    requires IsDigitString(d1) && IsDigitString(d2)
    ensures NaturalKey(s)
         == [Text(Lower(pre)), Num(DigitsValue(d1)), Text(Lower(mid)), Num(DigitsValue(d2)), Text(Lower(post))]
  {
    KeyOfParts(s, [pre, d1, mid, d2, post]);
    TokenOfText(pre);
    TokenOfText(mid);
    TokenOfText(post);
  }

  /** The natural key of a name with two numbers in it, separated by a
      non-empty text. */
  lemma TwoNumberNameKey(pre: string, d1: string, mid: string, d2: string, post: string)
    requires NoDigits(pre) && NoDigits(mid) && NoDigits(post) && mid != []
    requires IsDigitString(d1) && IsDigitString(d2)
    ensures NaturalKey(pre + d1 + mid + d2 + post)
         == [Text(Lower(pre)), Num(DigitsValue(d1)), Text(Lower(mid)), Num(DigitsValue(d2)), Text(Lower(post))]
  {
    TwoNumberSplit(pre, d1, mid, d2, post);
    KeyOfTwoNumbers(pre + d1 + mid + d2 + post, pre, d1, mid, d2, post);
  }

  /** A range name carries its two page numbers as the numbers of its
      natural key. */
  lemma PrettyRangeNameKey(start: int, end: int)
    requires 0 <= start && 0 <= end
    ensures NaturalKey(PrettyRangeName(start, end))
         == [Text("p"), Num(start), Text("-p"), Num(end), Text("")]
  {
    FormatNonNegative(start, 3);
    FormatNonNegative(end, 3);
    var name := PrettyRangeName(start, end);
    assert name == "p" + FormatInt(start, 3) + "-p" + FormatInt(end, 3) + "";
    TwoNumberNameKey("p", FormatInt(start, 3), "-p", FormatInt(end, 3), "");
    assert Lower("p") == "p" && Lower("-p") == "-p" && Lower("") == "";
  }

  /** Different ranges get different names. */
  lemma PrettyRangeNameInjective(s1: int, e1: int, s2: int, e2: int)
    requires 0 <= s1 && 0 <= e1 && 0 <= s2 && 0 <= e2
    requires PrettyRangeName(s1, e1) == PrettyRangeName(s2, e2)
    ensures s1 == s2 && e1 == e2
  {
    PrettyRangeNameKey(s1, e1);
    PrettyRangeNameKey(s2, e2);
    var k := NaturalKey(PrettyRangeName(s1, e1));
    assert k[1] == Num(s1) && k[1] == Num(s2);
    assert k[3] == Num(e1) && k[3] == Num(e2);
  }
}
