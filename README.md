# jquery-image-scale, modelled in Dafny

jquery-image-scale is a jQuery plugin that scales each matched `<img>` to its parent
container. In "fit" mode the image is scaled to lie inside the container. In "fill"
mode it is scaled to cover the container. Either way the aspect ratio is kept, and the
image can be centred with negative margins.
The repository ships the plugin twice:

- `jquery.image-scale.js` (`$.fn.imageScale`) binds a load handler on every pass and
  swaps the image's source so that the browser fires load again. Before measuring, it
  temporarily shows ancestors whose inline display is 'none'.
- `imgscale.jquery.js` (`$.fn.imgscale`) scales an already complete image at once, and
  binds a load handler otherwise. It has no hidden-ancestor handling.

The project is organised as follows (one module per file):

| module | file | contents |
|---|---|---|
| `Dom` | `dom.dfy` | `Image` and `Container` classes, each holding the state the plugins read and write. It also states the two browser behaviours the arithmetic relies on, as functions: an `auto` side follows the assigned one in proportion (`RenderedSize`), and an auto-sized node under a 'none' subtree measures 0 (`Measured`). |
| `ScaleRules` | `scale_rules.dfy` | The rules both files share, as pure functions and lemmas. `Resize` chooses the dimension, `CenterMargin` computes the centring margin, `RevealOf` decides how the container is shown, and `ScaledStyle` gives the style after one whole pass. The lemmas prove fit/fill geometry, the scale factor, idempotence and a worked example. |
| `ScaleSteps` | `scale_steps.dfy` | `resize_image`, `reposition_image` and `show_image` as methods on the objects. Each is proved against the `ScaleRules` functions. |
| `ImageScale` | `image_scale.dfy` | `jquery.image-scale.js`: the hidden-ancestor walk and its restore loop over the ancestor chain (an `array` of display values); `scale_image`; `parse_images` with `skip_init`; and the load event. |
| `ImgScale` | `imgscale.dfy` | `imgscale.jquery.js`: `scale_image`, `parse_images` with its complete/incomplete split, and the load event. |

Sizes are `real` CSS pixels. The code compares the ratios `pw / iw > ph / ih` as
written, and `RatioVsCrossProduct` proves that this comparison is the same as
comparing cross products. Margins are whole pixels, because the code builds them with
`Math.floor`.

## Model

| member | source | states |
|---|---|---|
| Dom.RenderedSize | jquery.image-scale.js:146-147 | The size the browser reports after `image.css` has set the style: an assigned side as assigned, and an `auto` side in proportion to the intrinsic size (`w * ih == h * iw`); the intrinsic size when both sides are `auto`. |
| Dom.Measured | jquery.image-scale.js:110-113 | What `.width()`/`.height()` read for an auto-sized node on the ancestor chain: its rendered size when no ancestor above it is 'none', and 0 when one is. The node's own display does not matter, because jQuery swaps it to measure. |
| ScaleRules.RatioVsCrossProduct | jquery.image-scale.js:127 | The code's comparison of the two ratios is true exactly when `pw * ih > ph * iw`. |
| ScaleRules.Resize | jquery.image-scale.js:126-143 | The height is assigned exactly when (scale is "fit") is equivalent to (the container is relatively wider than the image); it gets the container's height. Otherwise the width gets the container's width. |
| ScaleRules.OtherScaleIsFill | jquery.image-scale.js:128-141 | Any scale value other than the exact string "fit" makes the same choice as "fill". |
| ScaleRules.ResizedSize | jquery.image-scale.js:126-147 | The rendered size after resizing: `ph * iw / ih` by `ph` when the height is assigned, and `pw` by `pw * ih / iw` when the width is. |
| ScaleRules.ChosenRatio | jquery.image-scale.js:127-142 | The ratio of the assigned side is the smaller of the two container/image ratios in fit mode and the larger in fill mode. |
| ScaleRules.ResizeScaleFactor | jquery.image-scale.js:126-143 | The resized image is the intrinsic image scaled uniformly by `min(pw/iw, ph/ih)` under fit and by `max(pw/iw, ph/ih)` under fill. |
| ScaleRules.FitContains | imgscale.jquery.js:123-140 | Under fit the resized image lies inside the container and equals it on at least one axis. |
| ScaleRules.FillCovers | imgscale.jquery.js:123-140 | Under fill (any scale but "fit") the resized image covers the container and equals it on at least one axis. |
| ScaleRules.CenterMargin | jquery.image-scale.js:149-162 | The margin is never positive. It is 0 when the image does not overflow. When it does, twice the pull-back is at most the overflow, and the overflow is less than twice the pull-back plus 2 pixels, so the pull-back is the floor of half the overflow. |
| ScaleRules.RevealOf | jquery.image-scale.js:165-172 | A fade of the given duration happens exactly when the duration is positive and the image is not complete; otherwise the container is shown at once. |
| ScaleRules.ScaledStyle | jquery.image-scale.js:94-124 | After one pass exactly one of width and height is set: the height, to the container's height, exactly when `Resize` chooses it, and otherwise the width, to the container's width. Without `center` the margins are unchanged. With `center` both margins are non-positive and equal `CenterMargin` of the resized size against the container, axis by axis. |
| ScaleRules.ScaledIdempotent | jquery.image-scale.js:95-96 | A second pass over the same image and container leaves the style of the first pass, because width and height are reset before measuring. |
| ScaleRules.FitNeverOffsets | imgscale.jquery.js:142-160 | Under fit with centring both margins are 0. |
| ScaleRules.FillCentersOverflow | imgscale.jquery.js:142-160 | Under fill with centring, one margin is 0, and on each axis twice the pull-back lies between 0 and that axis's overflow. |
| ScaleRules.WideImageExample | jquery.image-scale.js:94-163 | A 400x200 container with an 800x200 image. Fit renders 400x100 with no margins. Fill with the default options renders 800x200 with a -200 px left margin. |
| ScaleSteps.ResizeImage | jquery.image-scale.js:126-143 | The new style is the old one with exactly the dimension `Resize` chooses from the measured sizes assigned. |
| ScaleSteps.RepositionImage | jquery.image-scale.js:145-163 | The new style is the old one with each margin set to `CenterMargin` of the measured size against the container. |
| ScaleSteps.ShowImage | jquery.image-scale.js:165-172 | An `Instant` reveal sets opacity 1 and queues nothing. A `Fade` leaves the opacity and appends one fade of the given duration to the container's queue. |
| ImageScale.ForcedVisible | jquery.image-scale.js:102-108 | The chain after the walk has the same length, has no 'none' left, and keeps every display value that was not 'none'. |
| ImageScale.HiddenIndicesExact | jquery.image-scale.js:100-108 | `hiddenAncestors` holds exactly the positions of the hidden nodes, each below the chain length, in strictly increasing order (so each appears once). |
| ImageScale.Restored | jquery.image-scale.js:120-122 | After the restore loop, exactly the remembered positions read 'none' and every other node is unchanged. |
| ImageScale.RestoreUndoesForce | jquery.image-scale.js:100-122 | Restoring the remembered positions of the forced chain gives back the original chain. |
| ImageScale.ShowHiddenAncestors | jquery.image-scale.js:100-108 | The walk leaves the chain equal to `ForcedVisible` of the old chain, returns `HiddenIndices` of the old chain, and leaves every node rendered. |
| ImageScale.RestoreHiddenAncestors | jquery.image-scale.js:120-122 | The chain becomes `Restored` of the old chain and the remembered positions. |
| ImageScale.ScaleImage | jquery.image-scale.js:94-173 | The style becomes `ScaledStyle` computed from the container's rendered size and the image's intrinsic size, even when an ancestor is hidden. The width and height attributes are removed, the ancestor chain is given back unchanged and overflow is untouched. The container is revealed as `RevealOf` says. |
| ImageScale.ParseImage | jquery.image-scale.js:64-91 | A handler is bound exactly when there is a container. Outside a resize pass the container gets opacity 0 and overflow hidden. A resize pass (`skip_init`) leaves both alone. The image's style, size attributes and completeness are not touched. |
| ImageScale.ParseImages | jquery.image-scale.js:63-92 | The same for every matched image, including images that share a container. |
| ImageScale.Load | jquery.image-scale.js:80-83 | The load event marks the image complete and runs every bound handler. With at least one handler the style is `ScaledStyle` of the style before the event, the size attributes are removed and the container's opacity is 1, with no fade queued. With none, only `complete` changes. The handler count, ancestors, queued fades and overflow are unchanged. |
| ImgScale.OutcomeOf | imgscale.jquery.js:91-104 | A pass does nothing when there is no container, scales at once when the image is complete, and binds a handler otherwise. Each case holds exactly under its condition. |
| ImgScale.ScaleImage | imgscale.jquery.js:108-170 | Same as `ImageScale.ScaleImage`, measured directly, with no ancestor chain. |
| ImgScale.ParseImage | imgscale.jquery.js:77-105 | The outcome is `OutcomeOf` of the container's presence and the image's completeness. The style ends as `PassStyle` (scaled only when scaled at once), the size attributes are removed exactly when it is scaled at once and kept otherwise, and handlers grow by one exactly when the pass awaits load. The container ends with overflow hidden and with opacity 1 if scaled at once, 0 otherwise. |
| ImgScale.ParseImages | imgscale.jquery.js:76-106 | The same for every matched image (style, attributes, handlers and completeness, per image). A container shared by several images ends with the opacity its last image sets. |
| ImgScale.Load | imgscale.jquery.js:96-98 | As `ImageScale.Load`: with handlers the style is scaled, the attributes are removed and the container is shown at once, never faded; with none only `complete` changes. |

## Left out

- DOM and jQuery: selectors, `.parent()`, `.css()`, `.width()` and `.height()` are modelled as reads and writes of the `Image` and `Container` fields. How the browser lays out an image is reduced to `RenderedSize` and `Measured`.
- The plugin's entry call with its option defaults (`$.extend`) is represented only by `ScaleRules.Defaults`. The model does not bind the window resize listener. A resize pass is `ImageScale.ParseImages` with `skipInit` true, and for `imgscale.jquery.js` a second `ImgScale.ParseImages`.
- Event timing: a load handler is a counter on the image, and `Load` runs the handlers when the event fires. A jQuery animation is recorded by its duration in `queuedFades`; its frames and the opacity it reaches later are not modelled.
- Whether `complete` is true when load fires is a browser fact, not plugin code. `Load` sets it before it runs the handlers. Under that fact `show_image` always takes its instant branch in both files: from a load handler the image is complete, and `imgscale.jquery.js` otherwise scales only complete images at once. So the fade-in of uncached images that the `fade_duration` option describes never happens; `ImageScale.Load`, `ImgScale.Load` and `ImgScale.ParseImage` all leave `queuedFades` unchanged. The model does not record this as a defect of the source, since it rests on that browser behaviour.
- The WebKit source swap (jquery.image-scale.js:85-89) is seen only as "load will fire again". The IE version sniffing and the IE9 source reset (imgscale.jquery.js:55-67, 99-102) are not modelled.
- `parent_css_selector`: both files read an undefined variable `img` in that branch (jquery.image-scale.js:67, imgscale.jquery.js:80), so the branch throws. The model always uses the immediate parent.
- Images with a zero intrinsic width or height: the code divides by the measured size. The scaling members require positive intrinsic sizes. `ImgScale.ParseImage` requires them only for complete images with a container.
- Floating point: sizes are exact reals, and `Math.floor` is `.Floor` on reals.
- The option comment says centring applies in fill mode. The code centres whenever `center` is set. The model follows the code, and `FitNeverOffsets` shows that under fit the margins come out 0.
- `ImgScale.ScaleImage` measures as if the image and container were rendered, because `imgscale.jquery.js` does no hidden-ancestor handling. What it measures under a hidden ancestor is not modelled.
- jQuery's `.each` over the matched set is a loop over a sequence of distinct images, each paired with its container (or null).
- The ancestor walk stops at BODY. The chain holds only the nodes below BODY, and a node's display other than inline `style.display` is not modelled.
