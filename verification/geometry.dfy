/**
 * The integer arithmetic inside `change_orientation` and `resize_image`:
 * the rotation angle chosen from an orientation tag, and the crop box cut
 * out of the source before it is resized to the desired size. The pixel
 * work itself (rotate, crop, Lanczos resize) belongs to the image library
 * and is not part of this model.
 */
module Geometry {
  import opened Wrappers

  /**
   * The angle `change_orientation` rotates by. `None` stands for the
   * failure the source runs into when the tag is neither "horizontal" nor
   * "vertical": `angle` is then never bound.
   */
  function RotationAngle(orientation: string, inverted: bool): (angle: Option<int>)
    ensures angle.Some? <==> orientation == "horizontal" || orientation == "vertical"
    ensures angle.Some? ==> angle.value in {0, 90, 180, 270}
    ensures angle.Some? ==> (180 <= angle.value <==> inverted)
    ensures angle.Some? ==> (angle.value % 180 == 0 <==> orientation == "horizontal")
  {
    var base :=
      if orientation == "horizontal" then Some(0)
      else if orientation == "vertical" then Some(90)
      else None;
    match base
    case None => None
    case Some(a) => if inverted then Some((a + 180) % 360) else Some(a)
  }

  /** Different accepted inputs never rotate by the same angle. */
  lemma RotationAngleInjective(o1: string, i1: bool, o2: string, i2: bool)
    requires RotationAngle(o1, i1).Some? && RotationAngle(o1, i1) == RotationAngle(o2, i2)
    ensures o1 == o2 && i1 == i2
  {
  }

  lemma RotationAngleExamples()
    ensures RotationAngle("horizontal", false) == Some(0)
    ensures RotationAngle("vertical", false) == Some(90)
    ensures RotationAngle("horizontal", true) == Some(180)
    ensures RotationAngle("vertical", true) == Some(270)
    ensures RotationAngle("landscape", true) == None
  {
  }

  /** The rectangle handed to `image.crop`, as left, top, width and height. */
  datatype CropBox = CropBox(left: int, top: int, width: int, height: int)

  /** `img_width / img_height > desired_width / desired_height`, compared exactly. */
  predicate WiderThanTarget(imgWidth: int, imgHeight: int, desiredWidth: int, desiredHeight: int) {
    imgWidth * desiredHeight > desiredWidth * imgHeight
  }

  /**
   * The crop box of `resize_image`. A source wider than the target ratio
   * loses width, any other loses height; the kept width or height is the
   * largest whose ratio does not exceed the target's. The box is centred,
   * unless `keepWidth` anchors it at the top-left corner.
   */
  function CropFor(imgWidth: int, imgHeight: int, desiredWidth: int, desiredHeight: int,
                   keepWidth: bool): (box: CropBox)
    requires imgWidth > 0 && imgHeight > 0 && desiredWidth > 0 && desiredHeight > 0
    ensures 0 <= box.width && 0 <= box.height
    ensures 0 <= box.left && box.left + box.width <= imgWidth
    ensures 0 <= box.top && box.top + box.height <= imgHeight
    ensures WiderThanTarget(imgWidth, imgHeight, desiredWidth, desiredHeight) ==>
              box.height == imgHeight
              && box.width * desiredHeight <= imgHeight * desiredWidth < (box.width + 1) * desiredHeight
    ensures !WiderThanTarget(imgWidth, imgHeight, desiredWidth, desiredHeight) ==>
              box.width == imgWidth
              && box.height * desiredWidth <= imgWidth * desiredHeight < (box.height + 1) * desiredWidth
    ensures keepWidth ==> box.left == 0 && box.top == 0
    ensures !keepWidth ==>
              0 <= (imgWidth - box.left - box.width) - box.left <= 1
              && 0 <= (imgHeight - box.top - box.height) - box.top <= 1
  {
    if WiderThanTarget(imgWidth, imgHeight, desiredWidth, desiredHeight) then
      var newWidth := (imgHeight * desiredWidth) / desiredHeight;
      TrimmedSide(imgWidth, imgHeight * desiredWidth, desiredHeight, keepWidth);
      CropBox(if keepWidth then 0 else (imgWidth - newWidth) / 2, 0, newWidth, imgHeight)
    else
      var newHeight := (imgWidth * desiredHeight) / desiredWidth;
      TrimmedSide(imgHeight, imgWidth * desiredHeight, desiredWidth, keepWidth);
      CropBox(0, if keepWidth then 0 else (imgHeight - newHeight) / 2, imgWidth, newHeight)
  }

  /**
   * One side of the crop: the kept length `n / d` fits in `total` (strictly,
   * or exactly when `n == total * d`), and the offset either anchors it at 0
   * or leaves margins that differ by at most one.
   */
  lemma TrimmedSide(total: int, n: int, d: int, anchored: bool)
    requires total > 0 && n >= 0 && d > 0 && n <= total * d
    ensures var kept := n / d;
            var offset := if anchored then 0 else (total - kept) / 2;
            0 <= kept <= total && kept * d <= n < (kept + 1) * d
            && 0 <= offset && offset + kept <= total
            && (!anchored ==> 0 <= (total - offset - kept) - offset <= 1)
  {
    FloorBounds(n, d);
    FloorAtMost(n, d, total);
  }

  /** Floor division: `n / d` is the largest `q` with `q * d <= n`. */
  lemma FloorBounds(n: int, d: int)
    requires n >= 0 && d > 0
    ensures 0 <= n / d && (n / d) * d <= n < (n / d + 1) * d
  {
  }

  lemma FloorAtMost(n: int, d: int, m: int)
    requires n >= 0 && d > 0 && n <= m * d
    ensures 0 <= n / d <= m
  {
    FloorBounds(n, d);
    MultiplyMonotone(n / d, m, d);
  }

  /** A source that already has the target ratio is not cropped at all. */
  lemma SameRatioKeepsWholeImage(imgWidth: int, imgHeight: int, desiredWidth: int, desiredHeight: int,
                                 keepWidth: bool)
    requires imgWidth > 0 && imgHeight > 0 && desiredWidth > 0 && desiredHeight > 0
    requires imgWidth * desiredHeight == desiredWidth * imgHeight
    ensures CropFor(imgWidth, imgHeight, desiredWidth, desiredHeight, keepWidth)
            == CropBox(0, 0, imgWidth, imgHeight)
  {
    var box := CropFor(imgWidth, imgHeight, desiredWidth, desiredHeight, keepWidth);
    assert box.height * desiredWidth <= imgHeight * desiredWidth;
    assert imgHeight * desiredWidth < (box.height + 1) * desiredWidth;
    MultiplyMonotone(box.height, imgHeight, desiredWidth);
    MultiplyMonotone(imgHeight, box.height + 1, desiredWidth);
  }

  lemma MultiplyMonotone(a: int, b: int, c: int)
    requires c > 0 && a * c <= b * c
    ensures a <= b
  {
  }

  /** What `resize_image` hands to the image library: the crop, then the output size. */
  datatype ResizePlan = ResizePlan(crop: CropBox, outWidth: int, outHeight: int)

  /**
   * `resize_image`: the crop box computed with the `keep-width` setting
   * looked up in `settings`, and an output of exactly the desired size.
   */
  function ResizeImage(imgWidth: int, imgHeight: int, desiredWidth: int, desiredHeight: int,
                       settings: seq<string>): (plan: ResizePlan)
    requires imgWidth > 0 && imgHeight > 0 && desiredWidth > 0 && desiredHeight > 0
    ensures plan.outWidth == desiredWidth && plan.outHeight == desiredHeight
    ensures 0 <= plan.crop.left && plan.crop.left + plan.crop.width <= imgWidth
    ensures 0 <= plan.crop.top && plan.crop.top + plan.crop.height <= imgHeight
    ensures plan.crop.width == imgWidth || plan.crop.height == imgHeight
    ensures "keep-width" in settings ==> plan.crop.left == 0 && plan.crop.top == 0
    ensures plan.crop == CropFor(imgWidth, imgHeight, desiredWidth, desiredHeight, "keep-width" in settings)
  {
    ResizePlan(CropFor(imgWidth, imgHeight, desiredWidth, desiredHeight, "keep-width" in settings),
               desiredWidth, desiredHeight)
  }
}
