/**
 * components/CaseImages.tsx: one Cloudinary image per URL whose public id
 * (the last path segment up to its first `.`) is not empty.
 */
module CaseImagesView {
  import opened Text
  import opened MediaUrl

  /** The public ids rendered, in URL order; URLs with an empty id render nothing. */
  function CaseImageIds(images: seq<string>): (ids: seq<string>)
    ensures |ids| <= |images|
    ensures forall k :: 0 <= k < |ids| ==> ids[k] != "" && '/' !in ids[k] && '.' !in ids[k]
    ensures forall x :: x in ids <==> exists u :: u in images && ImageId(u) == x && x != ""
  {
    if images == [] then []
    else
      var rest := CaseImageIds(images[1..]);
      CaseImageIdsStep(images, rest);
      if ImageId(images[0]) == "" then rest else [ImageId(images[0])] + rest
  }

  /** One step of the recursion: membership in the ids of the tail, plus the head's id. */
  lemma CaseImageIdsStep(images: seq<string>, rest: seq<string>)
    requires images != []
    requires forall x :: x in rest <==> exists u :: u in images[1..] && ImageId(u) == x && x != ""
    ensures forall x :: (x in rest || (x == ImageId(images[0]) && x != "")) <==>
              exists u :: u in images && ImageId(u) == x && x != ""
  {
    assert images == [images[0]] + images[1..];
    forall x | exists u :: u in images && ImageId(u) == x && x != ""
      ensures x in rest || (x == ImageId(images[0]) && x != "")
    {
      var u :| u in images && ImageId(u) == x && x != "";
      if u != images[0] {
        assert u in images[1..];
      }
    }
  }

  /** The ids keep the URLs' order: the ids of a concatenation are the concatenated ids. */
  lemma {:induction false} CaseImageIdsConcat(a: seq<string>, b: seq<string>)
    ensures CaseImageIds(a + b) == CaseImageIds(a) + CaseImageIds(b)
  {
    if a != [] {
      assert (a + b)[1..] == a[1..] + b;
      CaseImageIdsConcat(a[1..], b);
    } else {
      assert a + b == b;
    }
  }

  /** URLs of the form `base/name.ext` give back their names, one per URL. */
  lemma DeliveryUrlsGiveTheirNames(base: string, name: string, ext: string)
    requires name != "" && '/' !in name && '.' !in name && '/' !in ext
    ensures CaseImageIds([base + "/" + name + "." + ext]) == [name]
  {
    ImageIdOfDeliveryUrl(base, name, ext);
  }
}
