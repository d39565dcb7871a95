/** Placement of the captured card on the PDF page: the block of
    `downloadPDF` that scales the canvas to fit the page without changing its
    aspect ratio and centres it on the axis that has room to spare. Sizes are
    exact reals; the browser's floating-point rounding is not modelled. */
module PageFit {

  /** At scale `s` a `cw`×`ch` canvas fits inside a `pw`×`ph` page. */
  predicate FitsAt(s: real, cw: real, ch: real, pw: real, ph: real) {
    s > 0.0 && s * cw <= pw && s * ch <= ph
  }

  /** Computes the size (`imgWidth`×`imgHeight`) and position (`xOffset`,
      `yOffset`) at which the canvas is drawn on the page. */
  method FitToPage(canvasWidth: real, canvasHeight: real, pageWidth: real, pageHeight: real)
    returns (imgWidth: real, imgHeight: real, xOffset: real, yOffset: real)
    requires canvasWidth > 0.0 && canvasHeight > 0.0
    requires pageWidth > 0.0 && pageHeight > 0.0
    // The image lies inside the page and keeps the canvas's proportions.
    ensures 0.0 < imgWidth <= pageWidth && 0.0 < imgHeight <= pageHeight
    ensures imgWidth / imgHeight == canvasWidth / canvasHeight
    // A canvas relatively wider than the page fills the page's width,
    // any other fills its height.
    ensures canvasWidth / canvasHeight > pageWidth / pageHeight ==>
      imgWidth == pageWidth && xOffset == 0.0
    ensures canvasWidth / canvasHeight <= pageWidth / pageHeight ==>
      imgHeight == pageHeight && yOffset == 0.0
    // The slack on each axis is split evenly on both sides.
    ensures 0.0 <= xOffset && 2.0 * xOffset + imgWidth == pageWidth
    ensures 0.0 <= yOffset && 2.0 * yOffset + imgHeight == pageHeight
    // No larger scale would still fit.
    ensures forall s :: FitsAt(s, canvasWidth, canvasHeight, pageWidth, pageHeight) ==>
      s * canvasWidth <= imgWidth
  {
    var canvasAspectRatio := canvasWidth / canvasHeight;
    var pageAspectRatio := pageWidth / pageHeight;

    if canvasAspectRatio > pageAspectRatio {
      // Canvas is wider than the page: fit to width.
      imgWidth := pageWidth;
      imgHeight := pageWidth / canvasAspectRatio;
      xOffset := 0.0;
      yOffset := (pageHeight - imgHeight) / 2.0;
      assert imgHeight == pageWidth * canvasHeight / canvasWidth;
      assert pageWidth * canvasHeight < pageHeight * canvasWidth by {
        assert pageWidth / pageHeight < canvasWidth / canvasHeight;
      }
    } else {
      // Canvas is taller than the page: fit to height.
      imgHeight := pageHeight;
      imgWidth := pageHeight * canvasAspectRatio;
      xOffset := (pageWidth - imgWidth) / 2.0;
      yOffset := 0.0;
      assert imgWidth == pageHeight * canvasWidth / canvasHeight;
      assert pageHeight * canvasWidth <= pageWidth * canvasHeight by {
        assert canvasWidth / canvasHeight <= pageWidth / pageHeight;
      }
      forall s | FitsAt(s, canvasWidth, canvasHeight, pageWidth, pageHeight)
        ensures s * canvasWidth <= imgWidth
      {
        assert s * canvasHeight <= pageHeight;
        assert s * canvasWidth == (s * canvasHeight) * canvasAspectRatio;
      }
    }
  }

  /** A card captured at 1500×2100 pixels placed on an A4 portrait page
      (210×297 mm) is relatively wider than the page, so it spans the full
      width and is centred vertically. */
  method FitA4Example() returns (imgWidth: real, imgHeight: real, xOffset: real, yOffset: real)
    ensures imgWidth == 210.0 && imgHeight == 294.0
    ensures xOffset == 0.0 && yOffset == 1.5
  {
    imgWidth, imgHeight, xOffset, yOffset := FitToPage(1500.0, 2100.0, 210.0, 297.0);
  }
}
