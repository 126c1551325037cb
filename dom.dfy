/** The host environment both plugins work against: the DOM elements they read and
    write, and the two pieces of browser layout behaviour their arithmetic relies on
    (an `auto` dimension follows the other one in proportion; a node inside a subtree
    whose display is 'none' has no box and measures 0). Neither behaviour is code of
    the plugins; both are stated here as explicit modelling functions. */
module Dom {

  datatype Option<T> = None | Some(value: T)

  /** The inline style of an image as far as the plugins touch it. A `None` width or
      height is `auto`; margins are in CSS pixels. */
  datatype ImageStyle = ImageStyle(width: Option<real>, height: Option<real>,
                                   marginLeft: real, marginTop: real)

  /** A width and a height in CSS pixels. */
  datatype Size = Size(width: real, height: real)

  /** Values of the container's `overflow` property. */
  datatype Overflow = Visible | Hidden | Scroll | Auto

  /** An <img> element: its intrinsic size, whether the browser has finished loading it,
      its width/height attributes, its inline style and the number of load handlers bound
      to it. */
  class Image {
    const naturalWidth: real
    const naturalHeight: real
    var complete: bool
    var widthAttr: Option<nat>
    var heightAttr: Option<nat>
    var style: ImageStyle
    var loadHandlers: nat

    constructor (naturalWidth: real, naturalHeight: real, complete: bool, style: ImageStyle)
      ensures this.naturalWidth == naturalWidth && this.naturalHeight == naturalHeight
      ensures this.complete == complete && this.style == style
      ensures widthAttr == None && heightAttr == None && loadHandlers == 0
    {
      this.naturalWidth, this.naturalHeight := naturalWidth, naturalHeight;
      this.complete, this.style := complete, style;
      widthAttr, heightAttr, loadHandlers := None, None, 0;
    }
  }

  /** The element an image is scaled against: its content-box size when it is rendered,
      its opacity and overflow, and the opacity animations (to 1, with their durations in
      milliseconds) queued on it. */
  class Container {
    const width: real
    const height: real
    var opacity: real
    var overflow: Overflow
    var queuedFades: seq<int>

    constructor (width: real, height: real, opacity: real, overflow: Overflow)
      ensures this.width == width && this.height == height
      ensures this.opacity == opacity && this.overflow == overflow && queuedFades == []
    {
      this.width, this.height, this.opacity, this.overflow := width, height, opacity, overflow;
      queuedFades := [];
    }
  }

  /** The layout size the browser gives an image with style `s` and
      intrinsic size iw x ih. */
  function RenderedSize(s: ImageStyle, iw: real, ih: real): (r: Size)
    requires iw > 0.0 && ih > 0.0
    ensures s.width.Some? ==> r.width == s.width.value
    ensures s.height.Some? ==> r.height == s.height.value
    ensures s.width.None? && s.height.None? ==> r == Size(iw, ih)
    ensures s.width.None? || s.height.None? ==> r.width * ih == r.height * iw
  {
    if s.width.Some? && s.height.Some? then Size(s.width.value, s.height.value)
    else if s.width.Some? then
      var w := s.width.value;
      assert w * ih / iw * iw == w * ih;
      Size(w, w * ih / iw)
    else if s.height.Some? then
      var h := s.height.value;
      assert h * iw / ih * ih == h * iw;
      Size(h * iw / ih, h)
    else Size(iw, ih)
  }

  /** True when no node of `chain` (inline display values, index 0 the image, then its
      ancestors up to but not including BODY) from index `depth` upwards is 'none'. */
  predicate RenderedFrom(chain: seq<string>, depth: nat)
  {
    forall i :: depth <= i < |chain| ==> chain[i] != "none"
  }

  /** What jQuery's .width() or .height() reports for the auto-sized node at `depth` of
      `chain` whose rendered size is `size`: that size, unless an ancestor of the node (a
      later position on the chain) is 'none', in which case the node has no box and
      measures 0. (A node with an explicit CSS size would report that size instead; no
      node is measured under a hidden ancestor here, since the walk runs first.)
      A node that is itself 'none' jQuery measures by swapping its display, so its own
      display does not matter. */
  function Measured(chain: seq<string>, depth: nat, size: real): (r: real)
    ensures (forall i :: depth < i < |chain| ==> chain[i] != "none") ==> r == size
    ensures (exists i :: depth < i < |chain| && chain[i] == "none") ==> r == 0.0
  {
    if RenderedFrom(chain, depth + 1) then size else 0.0
  }
}
