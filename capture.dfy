/** The scroll and crop arithmetic of `_capture_element`: where the page is
    scrolled before the screenshot, and which box of the screenshot is the
    element. Coordinates are whole CSS pixels. */
module Capture {

  /** The height of the browser window the screenshot covers. */
  const ViewportHeight: int := 1440

  /** A crop box (left, top, right, bottom) in screenshot coordinates. */
  datatype Box = Box(left: int, top: int, right: int, bottom: int)

  /** The scroll offset passed to `window.scrollTo(0, …)` and the crop box. */
  datatype CropPlan = CropPlan(scrollY: int, box: Box)

  function Min(a: int, b: int): int {
    if a <= b then a else b
  }

  /** The element at page position (x, y) with the given size, on a page
      `scrollHeight` high: scroll its top to the window's top when the page
      is long enough below it, otherwise scroll to the bottom of the page. */
  function PlanCapture(x: int, y: int, width: int, height: int, scrollHeight: int): (p: CropPlan)
    ensures scrollHeight - y > ViewportHeight ==> p.scrollY == y && p.box.top == 0
    ensures scrollHeight - y <= ViewportHeight ==>
              p.scrollY == scrollHeight - ViewportHeight && p.box.top == y - (scrollHeight - ViewportHeight)
    ensures p.box.left == x
    ensures p.box.right - p.box.left == width && p.box.bottom - p.box.top == height
  {
    var (scrollY, top) :=
      if scrollHeight - y > ViewportHeight then (y, 0)
      else (scrollHeight - ViewportHeight, y - (scrollHeight - ViewportHeight));
    CropPlan(scrollY, Box(x, top, x + width, top + height))
  }

  /** The scroll never goes past the element's top nor past the last full
      window of the page, and the box is the element's page box moved up by
      the scroll. */
  lemma PlanIsScrolledPageBox(x: int, y: int, width: int, height: int, scrollHeight: int)
    ensures var p := PlanCapture(x, y, width, height, scrollHeight);
      && p.scrollY == Min(y, scrollHeight - ViewportHeight)
      && p.box == Box(x, y - p.scrollY, x + width, y + height - p.scrollY)
  {
  }

  /** An element that lies on the page and is no taller than the window is
      cropped from inside the screenshot's rows. */
  lemma CropInsideViewport(x: int, y: int, width: int, height: int, scrollHeight: int)
    requires 0 <= y && 0 <= height <= ViewportHeight && y + height <= scrollHeight
    ensures var b := PlanCapture(x, y, width, height, scrollHeight).box;
      0 <= b.top <= b.bottom <= ViewportHeight
  {
  }
}
