/**
 * components/CaseMedia.tsx: one case's media block. An absent source is a
 * placeholder; otherwise the end-anchored test picks video or image.
 */
module CaseMediaView {
  import opened Common
  import opened MediaUrl

  /** The `aspect` prop. */
  datatype Aspect = VideoAspect | Square

  /** What the component renders, with the aspect class of its box. */
  datatype MediaView =
    | Placeholder(aspectClass: string)
    | Video(src: string, aspectClass: string)
    | Picture(src: string, alt: string, aspectClass: string)

  /** `aspect === "square" ? "aspect-square" : "aspect-video"`. */
  function AspectClass(aspect: Aspect): (cls: string)
    ensures aspect == Square ==> cls == "aspect-square"
    ensures aspect == VideoAspect ==> cls == "aspect-video"
  {
    if aspect == Square then "aspect-square" else "aspect-video"
  }

  /** `title || "Case media"`: the title, unless it is absent or empty. */
  function AltText(title: Option<string>): (alt: string)
    ensures title.Some? && title.value != "" ==> alt == title.value
    ensures title.None? || title.value == "" ==> alt == "Case media"
    ensures alt != ""
  {
    if title.Some? && title.value != "" then title.value else "Case media"
  }

  /** The rendered block for a source, a title and an aspect. */
  function Render(src: Option<string>, title: Option<string>, aspect: Aspect): (v: MediaView)
    ensures v.aspectClass == AspectClass(aspect)
    ensures v.Placeholder? <==> src.None? || src.value == ""
    ensures v.Video? <==> src.Some? && src.value != "" && IsVideoAnchored(src.value)
    ensures v.Video? ==> v.src == src.value
    ensures v.Picture? ==> v.src == src.value && v.alt == AltText(title)
  {
    if src.None? || src.value == "" then Placeholder(AspectClass(aspect))
    else if IsVideoAnchored(src.value) then Video(src.value, AspectClass(aspect))
    else Picture(src.value, AltText(title), AspectClass(aspect))
  }

  /** A video URL with a query string after the extension renders as an image. */
  lemma QueryStringRendersPicture(title: Option<string>, aspect: Aspect)
    ensures Render(Some("a.mp4?x"), title, aspect).Picture?
  {
    QueryStringDefeatsAnchor();
    var u := "a.mp4?x";
    assert u != "";
  }

  /** A Cloudinary video URL without an extension renders as an image. */
  lemma CloudinaryVideoRendersPicture(title: Option<string>, aspect: Aspect)
    ensures Render(Some("/video/upload/v1/clip"), title, aspect).Picture?
  {
    CloudinaryPathOnlyLoose();
    var u := "/video/upload/v1/clip";
    assert u != "";
  }

  /** Whatever this component shows as a video, the list screens show as a video too. */
  lemma VideoHereIsVideoInLists(src: string, title: Option<string>, aspect: Aspect)
    requires Render(Some(src), title, aspect).Video?
    ensures IsVideoExtension(src) && IsVideoLoose(src)
  {
    VideoTestsNested(src);
  }
}
