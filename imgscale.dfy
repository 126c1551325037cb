/** imgscale.jquery.js: `scale_image` without any hidden-ancestor handling, and
    `parse_images`, which hides and clips the container on every pass and then scales
    at once when the image is already complete, or waits for its load event. */
module ImgScale {
  import opened Dom
  import opened ScaleRules
  import opened ScaleSteps

  /** What one pass of `parse_images` did with one image. */
  datatype PassOutcome = NoContainer | ScaledNow | AwaitingLoad

  /** What a pass does with an image whose container is present or not and which is
      complete or not. */
  function OutcomeOf(hasContainer: bool, complete: bool): (o: PassOutcome)
    ensures o == NoContainer <==> !hasContainer
    ensures o == ScaledNow <==> hasContainer && complete
    ensures o == AwaitingLoad <==> hasContainer && !complete
  {
    if !hasContainer then NoContainer else if complete then ScaledNow else AwaitingLoad
  }

  /** `scale_image`. The sizes are read as the browser lays them out, so
      the image and its container must be rendered. */
  method ScaleImage(image: Image, container: Container, p: Params)
    requires image.naturalWidth > 0.0 && image.naturalHeight > 0.0
    modifies image, container
    ensures image.style == ScaledStyle(old(image.style), container.width, container.height,
                                       image.naturalWidth, image.naturalHeight, p)
    ensures image.widthAttr == None && image.heightAttr == None
    ensures image.complete == old(image.complete) && image.loadHandlers == old(image.loadHandlers)
    ensures container.overflow == old(container.overflow)
    ensures RevealOf(p.fadeDuration, image.complete) == Instant ==>
              container.opacity == 1.0 && container.queuedFades == old(container.queuedFades)
    ensures RevealOf(p.fadeDuration, image.complete).Fade? ==>
              container.opacity == old(container.opacity) &&
              container.queuedFades == old(container.queuedFades) + [p.fadeDuration]
  {
    var iw, ih := image.naturalWidth, image.naturalHeight;
    image.widthAttr, image.heightAttr := None, None;
    image.style := image.style.(width := None, height := None);

    var parentHeight := container.height;
    var parentWidth := container.width;
    var natural := RenderedSize(image.style, iw, ih);
    var imageHeight := natural.height;
    var imageWidth := natural.width;

    ResizeImage(image, parentWidth, parentHeight, imageWidth, imageHeight, p.scale);
    if p.center {
      var resized := RenderedSize(image.style, iw, ih);
      RepositionImage(image, resized.width, resized.height, parentWidth, parentHeight);
    }
    ShowImage(image, container, p.fadeDuration);
  }

  /** What one pass leaves on an image, against the state before the pass: the outcome
      follows from the container's presence and the image's completeness; a complete
      image with a container is scaled at once (its size attributes removed), an
      incomplete one gets one more load handler, and otherwise the image is as before. */
  twostate predicate ImagePassed(image: Image, container: Container?, outcome: PassOutcome, p: Params)
    reads image
  {
    outcome == OutcomeOf(container != null, image.complete) &&
    image.complete == old(image.complete) &&
    image.loadHandlers == old(image.loadHandlers) + (if outcome == AwaitingLoad then 1 else 0) &&
    image.style == PassStyle(old(image.style), container, image.complete,
                             image.naturalWidth, image.naturalHeight, p) &&
    if outcome == ScaledNow then image.widthAttr == None && image.heightAttr == None
    else image.widthAttr == old(image.widthAttr) && image.heightAttr == old(image.heightAttr)
  }

  /** An image no pass has reached yet. */
  twostate predicate ImageUntouched(image: Image)
    reads image
  {
    image.complete == old(image.complete) && image.loadHandlers == old(image.loadHandlers) &&
    image.style == old(image.style) &&
    image.widthAttr == old(image.widthAttr) && image.heightAttr == old(image.heightAttr)
  }

  /** The body of `parse_images` for one image (the `images.each` callback): on every
      pass, resize passes included, the container is hidden and clipped; then, when there
      is a container, a complete image is scaled at once and an incomplete one gets a
      load handler that will scale it. */
  method ParseImage(image: Image, container: Container?, p: Params) returns (outcome: PassOutcome)
    requires container != null && image.complete ==> image.naturalWidth > 0.0 && image.naturalHeight > 0.0
    modifies image, container
    ensures outcome == OutcomeOf(container != null, image.complete)
    ensures ImagePassed(image, container, outcome, p)
    ensures container != null ==>
              container.overflow == Hidden && container.queuedFades == old(container.queuedFades) &&
              container.opacity == (if image.complete then 1.0 else 0.0)
  {
    if container != null {
      container.opacity, container.overflow := 0.0, Hidden;
    }
    if container == null {
      outcome := NoContainer;
    } else if image.complete {
      ScaleImage(image, container, p);
      outcome := ScaledNow;
    } else {
      image.loadHandlers := image.loadHandlers + 1;
      outcome := AwaitingLoad;
    }
  }

  /** The image's style after a pass: scaled when the pass scales it at once, as before
      otherwise. */
  function PassStyle(s: ImageStyle, container: Container?, complete: bool,
                     iw: real, ih: real, p: Params): ImageStyle
  {
    if container != null && complete && iw > 0.0 && ih > 0.0
    then ScaledStyle(s, container.width, container.height, iw, ih, p)
    else s
  }

  /** True when no image at a position from `i + 1` up to `n` (excluded) shares the
      container of image `i`. */
  ghost predicate LastOfContainer(containers: seq<Container?>, i: nat, n: nat)
  {
    forall k :: i < k < n && k < |containers| ==> containers[k] != containers[i]
  }

  /** `parse_images` over the matched images; `containers[i]` is the parent of
      `images[i]`, or null when it has none. Images may share a container; the opacity
      a shared container ends with is set by the last of its images. */
  method ParseImages(images: seq<Image>, containers: seq<Container?>, p: Params)
    returns (outcomes: seq<PassOutcome>)
    requires |containers| == |images|
    requires forall i, j :: 0 <= i < j < |images| ==> images[i] != images[j]
    requires forall i :: 0 <= i < |images| && containers[i] != null && images[i].complete ==>
               images[i].naturalWidth > 0.0 && images[i].naturalHeight > 0.0
    modifies set i | 0 <= i < |images| :: images[i]
    modifies set i | 0 <= i < |containers| && containers[i] != null :: containers[i]
    ensures |outcomes| == |images|
    ensures forall i :: 0 <= i < |images| ==>
              outcomes[i] == OutcomeOf(containers[i] != null, images[i].complete)
    ensures forall i :: 0 <= i < |images| ==> ImagePassed(images[i], containers[i], outcomes[i], p)
    ensures forall i :: 0 <= i < |containers| && containers[i] != null ==>
              containers[i].overflow == Hidden && containers[i].queuedFades == old(containers[i].queuedFades)
    ensures forall i :: 0 <= i < |containers| && containers[i] != null && LastOfContainer(containers, i, |containers|) ==>
              containers[i].opacity == if images[i].complete then 1.0 else 0.0
  {
    outcomes := [];
    for i := 0 to |images|
      invariant |outcomes| == i
      invariant forall j :: 0 <= j < i ==> ImagePassed(images[j], containers[j], outcomes[j], p)
      invariant forall j :: i <= j < |images| ==> ImageUntouched(images[j])
      invariant forall j :: 0 <= j < |containers| && containers[j] != null ==>
                  containers[j].queuedFades == old(containers[j].queuedFades)
      invariant forall j :: 0 <= j < i && containers[j] != null ==> containers[j].overflow == Hidden
      invariant forall j :: 0 <= j < i && containers[j] != null && LastOfContainer(containers, j, i) ==>
                  containers[j].opacity == if images[j].complete then 1.0 else 0.0
    {
      var o := ParseImage(images[i], containers[i], p);
      outcomes := outcomes + [o];
    }
  }

  /** The image's load event. The browser marks the image complete and then runs every
      load handler bound to it, each a call of `scale_image`; any number of them leaves
      what one leaves, and the container is shown at once, never faded in. */
  method Load(image: Image, container: Container, p: Params)
    requires image.naturalWidth > 0.0 && image.naturalHeight > 0.0
    modifies image, container
    ensures image.complete && image.loadHandlers == old(image.loadHandlers)
    ensures image.loadHandlers > 0 ==>
              image.style == ScaledStyle(old(image.style), container.width, container.height,
                                         image.naturalWidth, image.naturalHeight, p) &&
              image.widthAttr == None && image.heightAttr == None && container.opacity == 1.0
    ensures image.loadHandlers == 0 ==>
              image.style == old(image.style) && container.opacity == old(container.opacity) &&
              image.widthAttr == old(image.widthAttr) && image.heightAttr == old(image.heightAttr)
    ensures container.queuedFades == old(container.queuedFades)
    ensures container.overflow == old(container.overflow)
  {
    image.complete := true;
    var n := 0;
    while n < image.loadHandlers
      invariant 0 <= n <= image.loadHandlers && image.loadHandlers == old(image.loadHandlers)
      invariant image.complete
      invariant n > 0 ==>
                  image.style == ScaledStyle(old(image.style), container.width, container.height,
                                             image.naturalWidth, image.naturalHeight, p) &&
                  image.widthAttr == None && image.heightAttr == None && container.opacity == 1.0
      invariant n == 0 ==>
                  image.style == old(image.style) && container.opacity == old(container.opacity) &&
                  image.widthAttr == old(image.widthAttr) && image.heightAttr == old(image.heightAttr)
      invariant container.queuedFades == old(container.queuedFades)
      invariant container.overflow == old(container.overflow)
    {
      ScaledIdempotent(old(image.style), container.width, container.height,
                       image.naturalWidth, image.naturalHeight, p);
      ScaleImage(image, container, p);
      n := n + 1;
    }
  }
}
