/**
 * components/MediaUpload.tsx: uploads the chosen files one after another,
 * keeps the URL of each upload that succeeded, and reports that list once.
 * Each upload's answer is a parameter (`UploadResponse`).
 */
module MediaUploader {
  import opened Common
  import opened Text
  import opened MediaUrl
  import opened CasesDisplay

  /** A chosen file: its name and MIME type. */
  datatype File = File(name: string, mime: string)

  /** How one upload ended: a `secure_url`, a non-ok HTTP status, or a thrown error. */
  datatype UploadResponse = Uploaded(secureUrl: string) | NotOk | Threw

  const CloudinaryBase := "https://api.cloudinary.com/v1_1/de7cgxyxb/"

  /** `file.type.startsWith("video/") ? "video" : "image"`. */
  function ResourceType(mime: string): (kind: string)
    ensures kind == "video" || kind == "image"
    ensures kind == "video" <==> |mime| >= 6 && mime[..6] == "video/"
  {
    if |mime| >= 6 && mime[..6] == "video/" then "video"
    else
      assert "image" != "video" by { assert "image"[0] != "video"[0]; }
      "image"
  }

  /** The upload endpoint a file is posted to. */
  function Endpoint(f: File): (url: string)
    ensures url == CloudinaryBase + ResourceType(f.mime) + "/upload"
  {
    CloudinaryBase + ResourceType(f.mime) + "/upload"
  }

  /** The URLs of the uploads that succeeded, in file order. */
  function Successes(responses: seq<UploadResponse>): (urls: seq<string>)
    ensures |urls| <= |responses|
    decreases |responses|
  {
    if responses == [] then []
    else
      var last := responses[|responses| - 1];
      Successes(responses[..|responses| - 1]) + (if last.Uploaded? then [last.secureUrl] else [])
  }

  /** Every URL kept comes from a successful upload, and every successful upload's URL is kept. */
  lemma {:induction false} SuccessesExact(responses: seq<UploadResponse>)
    ensures forall u :: u in Successes(responses) <==> Uploaded(u) in responses
    decreases |responses|
  {
    if responses != [] {
      var front := responses[..|responses| - 1];
      SuccessesExact(front);
      assert responses == front + [responses[|responses| - 1]];
    }
  }

  /** When every upload fails the list is empty. */
  lemma SuccessesOfAllFailed(responses: seq<UploadResponse>)
    requires forall k :: 0 <= k < |responses| ==> !responses[k].Uploaded?
    ensures Successes(responses) == []
  {
    SuccessesExact(responses);
    if Successes(responses) != [] {
      assert false;
    }
  }

  /** The uploader's state and the lists it reported through `onUpload`. */
  class Uploader {
    var uploading: bool
    var uploadedUrls: seq<string>
    var reported: seq<seq<string>>

    constructor ()
      ensures !uploading && uploadedUrls == [] && reported == []
    {
      uploading, uploadedUrls, reported := false, [], [];
    }

    /**
     * `handleFileChange`: nothing without a file list; otherwise one request
     * per file in order, then `uploading` false and the same URL list both
     * stored and reported once.
     */
    method HandleFileChange(files: Option<seq<File>>, responses: seq<UploadResponse>)
      returns (endpoints: seq<string>)
      requires files.Some? ==> |responses| == |files.value|
      modifies this
      ensures files.None? ==>
                endpoints == [] && uploading == old(uploading) && uploadedUrls == old(uploadedUrls) && reported == old(reported)
      ensures files.Some? ==>
                |endpoints| == |files.value| && forall k :: 0 <= k < |endpoints| ==> endpoints[k] == Endpoint(files.value[k])
      ensures files.Some? ==>
                !uploading && uploadedUrls == Successes(responses) && reported == old(reported) + [Successes(responses)]
    {
      endpoints := [];
      if files.None? {
        return;
      }
      var fs := files.value;
      uploading := true;
      var urls: seq<string> := [];
      for i := 0 to |fs|
        invariant |endpoints| == i && forall k :: 0 <= k < i ==> endpoints[k] == Endpoint(fs[k])
        invariant urls == Successes(responses[..i])
      {
        endpoints := endpoints + [Endpoint(fs[i])];
        assert responses[..i + 1][..i] == responses[..i];
        match responses[i] {
          case Uploaded(url) => urls := urls + [url];
          case NotOk =>
          case Threw =>
        }
      }
      assert responses[..|fs|] == responses;
      uploading := false;
      uploadedUrls := urls;
      reported := reported + [urls];
    }
  }

  /** The previews of the uploaded URLs: keyed by last path segment, video by the loose test. */
  function UploadedTiles(urls: seq<string>): (tiles: seq<Tile>)
    ensures |tiles| == |urls|
    ensures forall i :: 0 <= i < |tiles| ==>
              && tiles[i].url == urls[i] && tiles[i].key == AfterLast(urls[i], '/')
              && (tiles[i].video <==> IsVideoLoose(urls[i])) && tiles[i].alt == "Uploaded media"
  {
    seq(|urls|, i requires 0 <= i < |urls| =>
      Tile(AfterLast(urls[i], '/'), urls[i], IsVideoLoose(urls[i]), "Uploaded media"))
  }
}
