/** jquery.image-scale.js: `scale_image` with its hidden-ancestor fix-up, and the
    per-pass setup of `parse_images` with its `skip_init` flag.

    A run of the walk from the image up to BODY is modelled on `chain`, an array of the
    inline display values met on the way: index 0 is the image, index 1 its parent (the
    container), and so on up to but not including BODY. */
module ImageScale {
  import opened Dom
  import opened ScaleRules
  import opened ScaleSteps

  /** The display value the walk leaves on a node. */
  function Forced(display: string): string
  {
    if display == "none" then "block" else display
  }

  /** The chain as the walk leaves it: nothing hidden, and every node that was not
      hidden keeps its display. */
  function ForcedVisible(chain: seq<string>): (r: seq<string>)
    ensures |r| == |chain|
    ensures RenderedFrom(r, 0)
    ensures forall i :: 0 <= i < |chain| && chain[i] != "none" ==> r[i] == chain[i]
  {
    seq(|chain|, i requires 0 <= i < |chain| => Forced(chain[i]))
  }

  /** `hiddenAncestors`: the positions on the chain whose display is 'none', in the order
      the walk meets them. */
  function HiddenIndices(chain: seq<string>): seq<nat>
  {
    if chain == [] then []
    else
      var n := |chain| - 1;
      HiddenIndices(chain[..n]) + (if chain[n] == "none" then [n] else [])
  }

  /** The remembered positions are exactly the hidden nodes of the chain, each once, in
      increasing order. */
  lemma {:induction false} HiddenIndicesExact(chain: seq<string>)
    ensures forall k :: 0 <= k < |HiddenIndices(chain)| ==>
              HiddenIndices(chain)[k] < |chain| && chain[HiddenIndices(chain)[k]] == "none"
    ensures forall i :: 0 <= i < |chain| && chain[i] == "none" ==> i in HiddenIndices(chain)
    ensures forall k, l :: 0 <= k < l < |HiddenIndices(chain)| ==>
              HiddenIndices(chain)[k] < HiddenIndices(chain)[l]
  {
    if chain != [] {
      var n := |chain| - 1;
      HiddenIndicesExact(chain[..n]);
      var prefix := HiddenIndices(chain[..n]);
      assert forall k :: 0 <= k < |prefix| ==> chain[prefix[k]] == chain[..n][prefix[k]];
      assert forall i :: 0 <= i < n ==> chain[i] == chain[..n][i];
    }
  }

  /** One more step of the walk adds at most its own position. */
  lemma HiddenIndicesStep(chain: seq<string>, i: nat)
    requires i < |chain|
    ensures HiddenIndices(chain[..i + 1]) == HiddenIndices(chain[..i]) + (if chain[i] == "none" then [i] else [])
  {
    assert chain[..i + 1][..i] == chain[..i];
  }

  /** The chain after the `for` loop of `scale_image` has set every remembered node back
      to 'none': exactly the remembered positions change. */
  function Restored(chain: seq<string>, hidden: seq<nat>): (r: seq<string>)
    requires forall k :: 0 <= k < |hidden| ==> hidden[k] < |chain|
    ensures |r| == |chain|
    ensures forall i :: 0 <= i < |chain| ==> r[i] == if i in hidden then "none" else chain[i]
  {
    if hidden == [] then chain
    else
      var n := |hidden| - 1;
      assert hidden == hidden[..n] + [hidden[n]];
      Restored(chain, hidden[..n])[hidden[n] := "none"]
  }

  /** Restoring the remembered nodes undoes the walk: every node of the chain ends with
      its original display value. */
  lemma RestoreUndoesForce(chain: seq<string>)
    ensures forall k :: 0 <= k < |HiddenIndices(chain)| ==> HiddenIndices(chain)[k] < |chain|
    ensures Restored(ForcedVisible(chain), HiddenIndices(chain)) == chain
  {
    HiddenIndicesExact(chain);
    var hidden := HiddenIndices(chain);
    var r := Restored(ForcedVisible(chain), hidden);
    forall i | 0 <= i < |chain|
      ensures r[i] == chain[i]
    {
      if chain[i] == "none" {
        assert i in hidden;
      }
    }
  }

  /** The `while` walk of `scale_image` over `hiddenAncestors`: it remembers every node whose
      display is 'none' and switches it to 'block', and touches nothing else. */
  method ShowHiddenAncestors(chain: array<string>) returns (hidden: seq<nat>)
    modifies chain
    ensures chain[..] == ForcedVisible(old(chain[..]))
    ensures hidden == HiddenIndices(old(chain[..]))
    ensures RenderedFrom(chain[..], 0)
    ensures forall i :: 0 <= i < chain.Length && old(chain[i]) != "none" ==> chain[i] == old(chain[i])
  {
    ghost var original := chain[..];
    hidden := [];
    var i := 0;
    while i < chain.Length
      invariant 0 <= i <= chain.Length
      invariant forall j :: 0 <= j < i ==> chain[j] == Forced(original[j])
      invariant forall j :: i <= j < chain.Length ==> chain[j] == original[j]
      invariant hidden == HiddenIndices(original[..i])
    {
      HiddenIndicesStep(original, i);
      if chain[i] == "none" {
        hidden := hidden + [i];
        chain[i] := "block";
      }
      i := i + 1;
    }
    assert original[..chain.Length] == original;
    assert chain[..] == ForcedVisible(original);
  }

  /** The `for` loop of `scale_image` after the resize: every remembered node is set back
      to 'none'. */
  method RestoreHiddenAncestors(chain: array<string>, hidden: seq<nat>)
    requires forall k :: 0 <= k < |hidden| ==> hidden[k] < chain.Length
    modifies chain
    ensures chain[..] == Restored(old(chain[..]), hidden)
  {
    ghost var original := chain[..];
    for i := 0 to |hidden|
      invariant chain[..] == Restored(original, hidden[..i])
    {
      assert hidden[..i + 1][..i] == hidden[..i];
      chain[hidden[i]] := "none";
    }
    assert hidden[..|hidden|] == hidden;
  }

  /** `scale_image`: clears the explicit size, makes hidden ancestors visible, measures,
      resizes, centres when asked, restores the hidden ancestors and reveals the
      container. */
  method ScaleImage(image: Image, container: Container, chain: array<string>, p: Params)
    requires image.naturalWidth > 0.0 && image.naturalHeight > 0.0
    modifies image, container, chain
    ensures image.style == ScaledStyle(old(image.style), container.width, container.height,
                                       image.naturalWidth, image.naturalHeight, p)
    ensures image.widthAttr == None && image.heightAttr == None
    ensures image.complete == old(image.complete) && image.loadHandlers == old(image.loadHandlers)
    ensures chain[..] == old(chain[..])
    ensures container.overflow == old(container.overflow)
    ensures RevealOf(p.fadeDuration, image.complete) == Instant ==>
              container.opacity == 1.0 && container.queuedFades == old(container.queuedFades)
    ensures RevealOf(p.fadeDuration, image.complete).Fade? ==>
              container.opacity == old(container.opacity) &&
              container.queuedFades == old(container.queuedFades) + [p.fadeDuration]
  {
    ghost var original := chain[..];
    var iw, ih := image.naturalWidth, image.naturalHeight;
    image.widthAttr, image.heightAttr := None, None;
    image.style := image.style.(width := None, height := None);

    var hidden := ShowHiddenAncestors(chain);
    // Every node from the image up to BODY is rendered while measuring.
    var parentWidth := Measured(chain[..], 1, container.width);
    var parentHeight := Measured(chain[..], 1, container.height);
    var natural := RenderedSize(image.style, iw, ih);
    var imageWidth := Measured(chain[..], 0, natural.width);
    var imageHeight := Measured(chain[..], 0, natural.height);
    assert RenderedFrom(chain[..], 1);

    ResizeImage(image, parentWidth, parentHeight, imageWidth, imageHeight, p.scale);
    if p.center {
      var resized := RenderedSize(image.style, iw, ih);
      var newWidth := Measured(chain[..], 0, resized.width);
      var newHeight := Measured(chain[..], 0, resized.height);
      RepositionImage(image, newWidth, newHeight, parentWidth, parentHeight);
    }

    RestoreUndoesForce(original);
    RestoreHiddenAncestors(chain, hidden);

    ShowImage(image, container, p.fadeDuration);
  }

  /** The body of `parse_images` for one image (the `images.each` callback). Outside a resize pass the
      container is hidden and clipped first; a resize pass (`skip_init`) leaves its
      opacity and overflow alone. When the image has a container a load handler that
      calls `scale_image` is bound, on every pass, and the source swap makes the browser
      fire load again. */
  method ParseImage(image: Image, container: Container?, skipInit: bool) returns (bound: bool)
    modifies image, container
    ensures bound == (container != null)
    ensures image.loadHandlers == old(image.loadHandlers) + (if bound then 1 else 0)
    ensures image.style == old(image.style) && image.complete == old(image.complete)
    ensures image.widthAttr == old(image.widthAttr) && image.heightAttr == old(image.heightAttr)
    ensures container != null ==> container.queuedFades == old(container.queuedFades)
    ensures container != null && skipInit ==>
              container.opacity == old(container.opacity) && container.overflow == old(container.overflow)
    ensures container != null && !skipInit ==> container.opacity == 0.0 && container.overflow == Hidden
  {
    if !skipInit && container != null {
      container.opacity, container.overflow := 0.0, Hidden;
    }
    bound := container != null;
    if bound {
      image.loadHandlers := image.loadHandlers + 1;
    }
  }

  /** `parse_images` over the matched images; `containers[i]` is the parent of
      `images[i]`, or null when it has none. Images may share a container. */
  method ParseImages(images: seq<Image>, containers: seq<Container?>, skipInit: bool)
    returns (bound: seq<bool>)
    requires |containers| == |images|
    requires forall i, j :: 0 <= i < j < |images| ==> images[i] != images[j]
    modifies set i | 0 <= i < |images| :: images[i]
    modifies set i | 0 <= i < |containers| && containers[i] != null :: containers[i]
    ensures |bound| == |images|
    ensures forall i :: 0 <= i < |images| ==> bound[i] == (containers[i] != null)
    ensures forall i :: 0 <= i < |images| ==>
              images[i].loadHandlers == old(images[i].loadHandlers) + (if bound[i] then 1 else 0) &&
              images[i].style == old(images[i].style) && images[i].complete == old(images[i].complete) &&
              images[i].widthAttr == old(images[i].widthAttr) && images[i].heightAttr == old(images[i].heightAttr)
    ensures forall i :: 0 <= i < |containers| && containers[i] != null ==>
              containers[i].queuedFades == old(containers[i].queuedFades) &&
              if skipInit then
                containers[i].opacity == old(containers[i].opacity) &&
                containers[i].overflow == old(containers[i].overflow)
              else
                containers[i].opacity == 0.0 && containers[i].overflow == Hidden
  {
    bound := [];
    for i := 0 to |images|
      invariant |bound| == i
      invariant forall j :: 0 <= j < i ==> bound[j] == (containers[j] != null)
      invariant forall j :: 0 <= j < |images| ==>
                  images[j].loadHandlers ==
                    old(images[j].loadHandlers) + (if j < i && containers[j] != null then 1 else 0) &&
                  images[j].style == old(images[j].style) && images[j].complete == old(images[j].complete) &&
                  images[j].widthAttr == old(images[j].widthAttr) && images[j].heightAttr == old(images[j].heightAttr)
      invariant forall j :: 0 <= j < |containers| && containers[j] != null ==>
                  containers[j].queuedFades == old(containers[j].queuedFades) &&
                  if !skipInit && containers[j] in containers[..i] then
                    containers[j].opacity == 0.0 && containers[j].overflow == Hidden
                  else
                    containers[j].opacity == old(containers[j].opacity) &&
                    containers[j].overflow == old(containers[j].overflow)
    {
      var b := ParseImage(images[i], containers[i], skipInit);
      assert containers[..i + 1] == containers[..i] + [containers[i]];
      bound := bound + [b];
    }
    assert containers[..|images|] == containers;
  }

  /** The image's load event. The browser marks the image complete and then runs every
      load handler bound to it, each a call of `scale_image`. Because a pass from reset
      sizes is idempotent, any number of handlers leaves what one leaves; and with the
      image complete, the container is always shown at once, never faded in. */
  method Load(image: Image, container: Container, chain: array<string>, p: Params)
    requires image.naturalWidth > 0.0 && image.naturalHeight > 0.0
    modifies image, container, chain
    ensures image.complete && image.loadHandlers == old(image.loadHandlers)
    ensures image.loadHandlers > 0 ==>
              image.style == ScaledStyle(old(image.style), container.width, container.height,
                                         image.naturalWidth, image.naturalHeight, p) &&
              image.widthAttr == None && image.heightAttr == None && container.opacity == 1.0
    ensures image.loadHandlers == 0 ==>
              image.style == old(image.style) && container.opacity == old(container.opacity) &&
              image.widthAttr == old(image.widthAttr) && image.heightAttr == old(image.heightAttr)
    ensures container.queuedFades == old(container.queuedFades)
    ensures container.overflow == old(container.overflow)
    ensures chain[..] == old(chain[..])
  {
    image.complete := true;
    var n := 0;
    while n < image.loadHandlers
      invariant 0 <= n <= image.loadHandlers && image.loadHandlers == old(image.loadHandlers)
      invariant image.complete
      invariant n > 0 ==>
                  image.style == ScaledStyle(old(image.style), container.width, container.height,
                                             image.naturalWidth, image.naturalHeight, p) &&
                  image.widthAttr == None && image.heightAttr == None && container.opacity == 1.0
      invariant n == 0 ==>
                  image.style == old(image.style) && container.opacity == old(container.opacity) &&
                  image.widthAttr == old(image.widthAttr) && image.heightAttr == old(image.heightAttr)
      invariant container.queuedFades == old(container.queuedFades)
      invariant container.overflow == old(container.overflow)
      invariant chain[..] == old(chain[..])
    {
      ScaledIdempotent(old(image.style), container.width, container.height,
                       image.naturalWidth, image.naturalHeight, p);
      ScaleImage(image, container, chain, p);
      n := n + 1;
    }
  }
}
