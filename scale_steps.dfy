/** The three inner functions of `scale_image`, which both plugin files carry word for
    word, as steps on the image's and the container's state. Measuring is left to the
    caller, which knows whether the image is rendered. */
module ScaleSteps {
  import opened Dom
  import opened ScaleRules

  /** `resize_image`: assigns the one dimension chosen from the measured sizes. */
  method ResizeImage(image: Image, parentWidth: real, parentHeight: real,
                     imageWidth: real, imageHeight: real, scale: string)
    requires imageWidth > 0.0 && imageHeight > 0.0
    modifies image`style
    ensures image.style == Apply(old(image.style), Resize(parentWidth, parentHeight, imageWidth, imageHeight, scale))
  {
    if parentWidth / imageWidth > parentHeight / imageHeight {
      if scale == "fit" {
        image.style := image.style.(height := Some(parentHeight));
      } else {
        image.style := image.style.(width := Some(parentWidth));
      }
    } else {
      if scale == "fit" {
        image.style := image.style.(width := Some(parentWidth));
      } else {
        image.style := image.style.(height := Some(parentHeight));
      }
    }
  }

  /** `reposition_image`, given the image's size as measured after resizing: resets both
      margins to 0 and then, on each axis where the image overflows the container, pulls
      it back by half the overflow rounded down. */
  method RepositionImage(image: Image, newWidth: real, newHeight: real,
                         parentWidth: real, parentHeight: real)
    modifies image`style
    ensures image.style == old(image.style).(marginLeft := CenterMargin(newWidth, parentWidth) as real,
                                             marginTop := CenterMargin(newHeight, parentHeight) as real)
  {
    image.style := image.style.(marginLeft := 0.0, marginTop := 0.0);
    if newWidth > parentWidth {
      image.style := image.style.(marginLeft := (-(((newWidth - parentWidth) / 2.0).Floor)) as real);
    }
    if newHeight > parentHeight {
      image.style := image.style.(marginTop := (-(((newHeight - parentHeight) / 2.0).Floor)) as real);
    }
  }

  /** `show_image`: queues a fade to opacity 1 when a duration is set and the image is
      not complete, and otherwise sets opacity 1 at once. */
  method ShowImage(image: Image, container: Container, fadeDuration: int)
    modifies container`opacity, container`queuedFades
    ensures RevealOf(fadeDuration, image.complete) == Instant ==>
              container.opacity == 1.0 && container.queuedFades == old(container.queuedFades)
    ensures RevealOf(fadeDuration, image.complete).Fade? ==>
              container.opacity == old(container.opacity) &&
              container.queuedFades == old(container.queuedFades) + [fadeDuration]
  {
    if fadeDuration > 0 && !image.complete {
      container.queuedFades := container.queuedFades + [fadeDuration];
    } else {
      container.opacity := 1.0;
    }
  }
}
