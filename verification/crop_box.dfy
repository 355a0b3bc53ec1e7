/** The crop rectangle of merge.py: `clamp` (merge.py:121-122), the
    integer coercions of the crop settings (merge.py:124-129, 166-169) and
    `compute_crop_box` (merge.py:131-139). */
module CropBox {
  import opened Wrappers
  import opened Strings

  /** A value of the crop settings dict: missing, `None`, a boolean or an
      integer. */
  datatype ConfigValue = Absent | Null | Bool(b: bool) | Int(i: int)

  datatype ConfigError =
    | NotANumber      // TypeError of int(None)
    | BooleanSize     // ValueError "crop w/h cannot be boolean"

  /** `int(cfg.get(key, 0))`: a missing key reads as 0, and since a Python
      boolean is an int, True reads as 1 and False as 0. */
  function ToInt(v: ConfigValue): (r: Result<int, ConfigError>)
    ensures r.Failure? <==> v.Null?
    ensures v.Absent? ==> r == Success(0)
    ensures v.Bool? ==> r == Success(if v.b then 1 else 0)
    ensures v.Int? ==> r == Success(v.i)
  {
    match v
    case Absent => Success(0)
    case Null => Failure(NotANumber)
    case Bool(b) => Success(if b then 1 else 0)
    case Int(i) => Success(i)
  }

  /** `_to_int_or_none(cfg.get(key, None))`: a missing or `None` size means
      "to the edge", a boolean size is refused. */
  function ToIntOrNone(v: ConfigValue): (r: Result<Option<int>, ConfigError>)
    ensures r.Failure? <==> v.Bool?
    ensures r.Failure? ==> r.error == BooleanSize
    ensures r == Success(None) <==> v.Absent? || v.Null?
    ensures v.Int? ==> r == Success(Some(v.i))
  {
    match v
    case Absent => Success(None)
    case Null => Success(None)
    case Bool(_) => Failure(BooleanSize)
    case Int(i) => Success(Some(i))
  }

  /** `clamp(val, lo, hi)`: `val` forced into `[lo, hi]`; `lo` wins when the
      interval is empty. */
  function Clamp(val: int, lo: int, hi: int): (r: int)
    ensures lo <= r
    ensures lo <= hi ==> r <= hi
    ensures lo <= val <= hi ==> r == val
    ensures val < lo || hi < lo ==> r == lo
    ensures lo <= hi < val ==> r == hi
  {
    Max(lo, Min(hi, val))
  }

  /** `(left, top, right, bottom)` in pixels. */
  datatype Box = Box(left: int, top: int, right: int, bottom: int)

  /** `compute_crop_box(img_w, img_h, x, y, w, h)`: the box at `(x, y)` of
      size `w` by `h`, cut to the image; an absent size runs to the edge;
      `None` when nothing would be left. */
  function ComputeCropBox(imgW: int, imgH: int, x: int, y: int, w: Option<int>, h: Option<int>)
    : (r: Option<Box>)
    // the box lies inside the image and is not empty
    ensures imgW >= 0 && imgH >= 0 && r.Some? ==>
      0 <= r.value.left < r.value.right <= imgW && 0 <= r.value.top < r.value.bottom <= imgH
    // exactly when there is a box
    ensures imgW >= 0 && imgH >= 0 ==>
      (r.Some? <==>
        Max(x, 0) < imgW && Max(y, 0) < imgH &&
        (w.None? || w.value > 0) && (h.None? || h.value > 0))
    // where it is
    ensures imgW >= 0 && imgH >= 0 && r.Some? ==>
      r.value.left == Max(x, 0) && r.value.top == Max(y, 0) &&
      r.value.right == (if w.None? then imgW else Min(Max(x, 0) + w.value, imgW)) &&
      r.value.bottom == (if h.None? then imgH else Min(Max(y, 0) + h.value, imgH))
  {
    var left := Clamp(x, 0, imgW);
    var top := Clamp(y, 0, imgH);
    var right := if w.None? then imgW else Clamp(left + Max(0, w.value), 0, imgW);
    var bottom := if h.None? then imgH else Clamp(top + Max(0, h.value), 0, imgH);
    if right - left <= 0 || bottom - top <= 0 then None
    else Some(Box(left, top, right, bottom))
  }

  /** The box is the whole image (the case merge.py warns about) exactly
      when it starts at or before the top-left corner and its sizes, when
      given, reach the far edges. */
  lemma CropBoxIsFullImage(imgW: int, imgH: int, x: int, y: int, w: Option<int>, h: Option<int>)
    requires imgW > 0 && imgH > 0
    ensures ComputeCropBox(imgW, imgH, x, y, w, h) == Some(Box(0, 0, imgW, imgH)) <==>
      x <= 0 && y <= 0 && (w.None? || w.value >= imgW) && (h.None? || h.value >= imgH)
  {
  }

  /** The region actually saved for an image: the crop box, or the whole
      image when there is none (merge.py:191-198). */
  function SavedRegion(imgW: nat, imgH: nat, x: int, y: int, w: Option<int>, h: Option<int>): (b: Box)
    ensures 0 <= b.left <= b.right <= imgW && 0 <= b.top <= b.bottom <= imgH
  {
    match ComputeCropBox(imgW, imgH, x, y, w, h)
    case Some(box) => box
    case None => Box(0, 0, imgW, imgH)
  }
}
