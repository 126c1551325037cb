/** The scaling rules both plugin files share: which CSS dimension `resize_image`
    assigns, the margins `reposition_image` computes, and how `show_image` reveals the
    container. Both files carry the same three rules, word for word; they are defined
    once here and used by the ImageScale and ImgScale modules. */
module ScaleRules {
  import opened Dom

  /** The plugin options the scaling pass reads. `scale` is any string: only the exact
      string "fit" selects fit, everything else behaves as fill. */
  datatype Params = Params(scale: string, center: bool, fadeDuration: int,
                           rescaleAfterResize: bool)

  /** The options as they stand when the caller passes none. */
  const Defaults := Params("fill", true, 0, true)

  /** The one CSS dimension `resize_image` assigns, with its pixel value. */
  datatype Assignment = SetWidth(px: real) | SetHeight(px: real)

  /** How `show_image` makes the container visible. */
  datatype Reveal = Instant | Fade(duration: int)

  function Min(x: real, y: real): real { if x <= y then x else y }

  function Max(x: real, y: real): real { if x <= y then y else x }

  /** Comparing the two ratios, as the code does, is comparing the cross products. */
  lemma RatioVsCrossProduct(pw: real, ph: real, iw: real, ih: real)
    requires iw > 0.0 && ih > 0.0
    ensures pw / iw > ph / ih <==> pw * ih > ph * iw
  {
    var d := pw / iw - ph / ih;
    assert pw / iw * iw == pw;
    assert ph / ih * ih == ph;
    assert d * (iw * ih) == pw * ih - ph * iw;
    assert iw * ih > 0.0;
    if d > 0.0 {
      assert d * (iw * ih) > 0.0;
    } else {
      assert d * (iw * ih) <= 0.0;
    }
  }

  /** The height the browser derives from an assigned width, and vice versa. */
  lemma ProportionalSide(x: real, a: real, b: real, y: real)
    requires a > 0.0 && b > 0.0
    ensures x * b / a <= y <==> x * b <= y * a
    ensures x * b / a >= y <==> x * b >= y * a
  {
    assert x * b / a * a == x * b;
    var d := x * b / a - y;
    assert d * a == x * b - y * a;
    if d > 0.0 {
      assert d * a > 0.0;
    } else if d < 0.0 {
      assert d * a < 0.0;
    }
  }

  /** `resize_image`: from the container size pw x ph and the image's auto size iw x ih,
      the single dimension to assign. The image's height is assigned exactly when fit mode
      meets a relatively wider container or fill mode meets one that is not; it gets the
      container's height, and otherwise the width gets the container's width. */
  function Resize(pw: real, ph: real, iw: real, ih: real, scale: string): (a: Assignment)
    requires iw > 0.0 && ih > 0.0
    ensures a.SetHeight? <==> (scale == "fit" <==> pw * ih > ph * iw)
    ensures a.SetHeight? ==> a.px == ph
    ensures a.SetWidth? ==> a.px == pw
  {
    RatioVsCrossProduct(pw, ph, iw, ih);
    if pw / iw > ph / ih then
      if scale == "fit" then SetHeight(ph) else SetWidth(pw)
    else
      if scale == "fit" then SetWidth(pw) else SetHeight(ph)
  }

  /** Any scale value other than the exact string "fit" chooses what "fill" chooses. */
  lemma OtherScaleIsFill(pw: real, ph: real, iw: real, ih: real, scale: string)
    requires iw > 0.0 && ih > 0.0
    requires scale != "fit"
    ensures Resize(pw, ph, iw, ih, scale) == Resize(pw, ph, iw, ih, "fill")
  {
  }

  /** The style with width and height reset to `auto`. */
  function Cleared(s: ImageStyle): ImageStyle
  {
    s.(width := None, height := None)
  }

  /** The style after the `image.css(...)` call of `resize_image`. */
  function Apply(s: ImageStyle, a: Assignment): ImageStyle
  {
    match a
    case SetWidth(w) => s.(width := Some(w))
    case SetHeight(h) => s.(height := Some(h))
  }

  /** Size the browser gives the image once `resize_image` has run on an auto-sized image:
      the assigned side as assigned, the other in proportion. */
  function ResizedSize(pw: real, ph: real, iw: real, ih: real, scale: string): (r: Size)
    requires iw > 0.0 && ih > 0.0
    ensures Resize(pw, ph, iw, ih, scale).SetHeight? ==> r == Size(ph * iw / ih, ph)
    ensures Resize(pw, ph, iw, ih, scale).SetWidth? ==> r == Size(pw, pw * ih / iw)
  {
    RenderedSize(Apply(ImageStyle(None, None, 0.0, 0.0), Resize(pw, ph, iw, ih, scale)), iw, ih)
  }

  /** Scaling iw x ih uniformly by c / d, where side d of the image becomes c. */
  lemma ScaledBy(c: real, d: real, e: real)
    requires d > 0.0
    ensures e * (c / d) == c * e / d
    ensures d * (c / d) == c
  {
    assert c / d * d == c;
    assert e * (c / d) * d == e * c;
    assert c * e / d * d == c * e;
  }

  /** The ratio the fit or fill scale factor picks is the one of the assigned side. */
  lemma ChosenRatio(pw: real, ph: real, iw: real, ih: real, scale: string)
    requires iw > 0.0 && ih > 0.0
    ensures var k := if scale == "fit" then Min(pw / iw, ph / ih) else Max(pw / iw, ph / ih);
            if Resize(pw, ph, iw, ih, scale).SetHeight? then k == ph / ih else k == pw / iw
  {
    RatioVsCrossProduct(pw, ph, iw, ih);
  }

  /** The resized image is the intrinsic image scaled uniformly by the smaller of the two
      ratios container/image in fit mode and by the larger one in fill mode. */
  lemma ResizeScaleFactor(pw: real, ph: real, iw: real, ih: real, scale: string)
    requires iw > 0.0 && ih > 0.0
    ensures var k := if scale == "fit" then Min(pw / iw, ph / ih) else Max(pw / iw, ph / ih);
            ResizedSize(pw, ph, iw, ih, scale) == Size(iw * k, ih * k)
  {
    ChosenRatio(pw, ph, iw, ih, scale);
    if Resize(pw, ph, iw, ih, scale).SetHeight? {
      ScaledBy(ph, ih, iw);
    } else {
      ScaledBy(pw, iw, ih);
    }
  }

  /** Fit: the resized image lies inside the container and touches it on one axis. */
  lemma FitContains(pw: real, ph: real, iw: real, ih: real)
    requires iw > 0.0 && ih > 0.0
    ensures var Size(w, h) := ResizedSize(pw, ph, iw, ih, "fit");
            w <= pw && h <= ph && (w == pw || h == ph)
  {
    if Resize(pw, ph, iw, ih, "fit").SetHeight? {
      ProportionalSide(ph, ih, iw, pw);
    } else {
      ProportionalSide(pw, iw, ih, ph);
    }
  }

  /** Fill (any scale but "fit"): the resized image covers the container and matches it
      on one axis. */
  lemma FillCovers(pw: real, ph: real, iw: real, ih: real, scale: string)
    requires iw > 0.0 && ih > 0.0
    requires scale != "fit"
    ensures var Size(w, h) := ResizedSize(pw, ph, iw, ih, scale);
            w >= pw && h >= ph && (w == pw || h == ph)
  {
    if Resize(pw, ph, iw, ih, scale).SetHeight? {
      ProportionalSide(ph, ih, iw, pw);
    } else {
      ProportionalSide(pw, iw, ih, ph);
    }
  }

  /** `reposition_image` on one axis: the margin is 0 unless the image overflows the
      container, and then it pulls the image back by half the overflow rounded down. */
  function CenterMargin(rendered: real, parent: real): (m: int)
    ensures m <= 0
    ensures rendered <= parent ==> m == 0
    ensures rendered > parent ==> (-2 * m) as real <= rendered - parent < (-2 * m + 2) as real
  {
    if rendered > parent then -(((rendered - parent) / 2.0).Floor) else 0
  }

  /** `show_image`: animate only when a fade duration is set and the image is not yet
      loaded; otherwise show at once. */
  function RevealOf(fadeDuration: int, complete: bool): (r: Reveal)
    ensures r.Fade? <==> fadeDuration > 0 && !complete
    ensures r.Fade? ==> r.duration == fadeDuration
  {
    if fadeDuration > 0 && !complete then Fade(fadeDuration) else Instant
  }

  /** The margins `reposition_image` leaves on `s` for a container pw x ph. */
  function Centered(s: ImageStyle, pw: real, ph: real, iw: real, ih: real): ImageStyle
    requires iw > 0.0 && ih > 0.0
  {
    var Size(nw, nh) := RenderedSize(s, iw, ih);
    s.(marginLeft := CenterMargin(nw, pw) as real, marginTop := CenterMargin(nh, ph) as real)
  }

  /** The image's style after one scaling pass that starts from style `s`: width and
      height reset to auto, one of them assigned by `resize_image`, then, with `center`,
      the margins of `reposition_image`. Without `center` the margins are left alone. */
  function ScaledStyle(s: ImageStyle, pw: real, ph: real, iw: real, ih: real, p: Params): (r: ImageStyle)
    requires iw > 0.0 && ih > 0.0
    ensures r.width.Some? != r.height.Some?
    ensures r.height.Some? <==> Resize(pw, ph, iw, ih, p.scale).SetHeight?
    ensures r.width.Some? ==> r.width.value == pw
    ensures r.height.Some? ==> r.height.value == ph
    ensures !p.center ==> r.marginLeft == s.marginLeft && r.marginTop == s.marginTop
    ensures p.center ==> r.marginLeft <= 0.0 && r.marginTop <= 0.0
    ensures p.center ==> r.marginLeft == CenterMargin(ResizedSize(pw, ph, iw, ih, p.scale).width, pw) as real
    ensures p.center ==> r.marginTop == CenterMargin(ResizedSize(pw, ph, iw, ih, p.scale).height, ph) as real
  {
    var sized := Apply(Cleared(s), Resize(pw, ph, iw, ih, p.scale));
    assert RenderedSize(sized, iw, ih) == ResizedSize(pw, ph, iw, ih, p.scale);
    if p.center then Centered(sized, pw, ph, iw, ih) else sized
  }

  /** A second pass over the same image and container changes nothing: width and height
      are reset before measuring, so the result does not depend on the previous pass. */
  lemma ScaledIdempotent(s: ImageStyle, pw: real, ph: real, iw: real, ih: real, p: Params)
    requires iw > 0.0 && ih > 0.0
    ensures var once := ScaledStyle(s, pw, ph, iw, ih, p);
            ScaledStyle(once, pw, ph, iw, ih, p) == once
  {
  }

  /** In fit mode centering never moves the image: a fitted image never overflows. */
  lemma FitNeverOffsets(s: ImageStyle, pw: real, ph: real, iw: real, ih: real, p: Params)
    requires iw > 0.0 && ih > 0.0
    requires p.scale == "fit" && p.center
    ensures ScaledStyle(s, pw, ph, iw, ih, p).marginLeft == 0.0
    ensures ScaledStyle(s, pw, ph, iw, ih, p).marginTop == 0.0
  {
    FitContains(pw, ph, iw, ih);
  }

  /** In fill mode with centering, the axis that matches the container keeps margin 0 and
      the other is pulled back by half its overflow. */
  lemma FillCentersOverflow(s: ImageStyle, pw: real, ph: real, iw: real, ih: real, p: Params)
    requires iw > 0.0 && ih > 0.0
    requires p.scale != "fit" && p.center
    ensures var r := ScaledStyle(s, pw, ph, iw, ih, p);
            var Size(w, h) := ResizedSize(pw, ph, iw, ih, p.scale);
            (r.marginLeft == 0.0 || r.marginTop == 0.0) &&
            0.0 <= -2.0 * r.marginLeft <= w - pw && 0.0 <= -2.0 * r.marginTop <= h - ph
  {
    FillCovers(pw, ph, iw, ih, p.scale);
  }

  /** A 400 x 200 container and an 800 x 200 image: fit gives 400 x 100 with no offset;
      fill gives 800 x 200 pulled left by 200 pixels. */
  lemma WideImageExample(s: ImageStyle)
    ensures ResizedSize(400.0, 200.0, 800.0, 200.0, "fit") == Size(400.0, 100.0)
    ensures ScaledStyle(s, 400.0, 200.0, 800.0, 200.0, Params("fit", true, 0, true))
            == ImageStyle(Some(400.0), None, 0.0, 0.0)
    ensures ResizedSize(400.0, 200.0, 800.0, 200.0, "fill") == Size(800.0, 200.0)
    ensures ScaledStyle(s, 400.0, 200.0, 800.0, 200.0, Defaults)
            == ImageStyle(None, Some(200.0), -200.0, 0.0)
  {
    assert 400.0 / 800.0 == 0.5 && 200.0 / 200.0 == 1.0;
    assert ((800.0 - 400.0) / 2.0).Floor == 200;
  }
}
