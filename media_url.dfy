/**
 * The media-URL tests the case screens use: three spellings of "is this a
 * video" and the Cloudinary public id (the React keys are `Text.AfterLast`). Matching is ASCII case-insensitive, as the `i` flag does for
 * these patterns.
 */
module MediaUrl {
  import opened Text

  /** `/\.mp4|\.mov|\.webm|\/video\/upload/i`: an extension or a Cloudinary video path anywhere. */
  predicate IsVideoLoose(url: string) {
    ContainsCI(url, ".mp4") || ContainsCI(url, ".mov") || ContainsCI(url, ".webm")
      || ContainsCI(url, "/video/upload")
  }

  /** `/\.mp4|\.mov|\.webm/i`: an extension anywhere. */
  predicate IsVideoExtension(url: string) {
    ContainsCI(url, ".mp4") || ContainsCI(url, ".mov") || ContainsCI(url, ".webm")
  }

  /** `/\.(mp4|mov|webm)$/i`: the URL ends with an extension. */
  predicate IsVideoAnchored(url: string) {
    EndsWithCI(url, ".mp4") || EndsWithCI(url, ".mov") || EndsWithCI(url, ".webm")
  }

  /** The three tests are nested: anchored implies extension anywhere, which implies the loose test. */
  lemma VideoTestsNested(url: string)
    ensures IsVideoAnchored(url) ==> IsVideoExtension(url)
    ensures IsVideoExtension(url) ==> IsVideoLoose(url)
  {
    if EndsWithCI(url, ".mp4") {
      assert MatchesAt(url, |url| - 4, ".mp4");
    } else if EndsWithCI(url, ".mov") {
      assert MatchesAt(url, |url| - 4, ".mov");
    } else if EndsWithCI(url, ".webm") {
      assert MatchesAt(url, |url| - 5, ".webm");
    }
  }

  /** Upper-case extensions count: `CLIP.MP4` passes all three tests. */
  lemma UpperCaseExtensionIsVideo()
    ensures IsVideoAnchored("CLIP.MP4") && IsVideoExtension("CLIP.MP4") && IsVideoLoose("CLIP.MP4")
  {
    assert MatchesAt("CLIP.MP4", 4, ".mp4");
    VideoTestsNested("CLIP.MP4");
  }

  /**
   * A trailing query string defeats only the anchored test: `a.mp4?x` is a
   * video by the unanchored tests and an image by the anchored one.
   */
  lemma QueryStringDefeatsAnchor()
    ensures IsVideoExtension("a.mp4?x") && IsVideoLoose("a.mp4?x")
    ensures !IsVideoAnchored("a.mp4?x")
  {
    assert MatchesAt("a.mp4?x", 1, ".mp4");
    assert !MatchesAt("a.mp4?x", 3, ".mp4") by { assert Lower("a.mp4?x"[3]) != ".mp4"[0]; }
    assert !MatchesAt("a.mp4?x", 3, ".mov") by { assert Lower("a.mp4?x"[3]) != ".mov"[0]; }
    assert !MatchesAt("a.mp4?x", 2, ".webm") by { assert Lower("a.mp4?x"[2]) != ".webm"[0]; }
  }

  /**
   * A Cloudinary video URL without an extension is a video only for the
   * loose test, which alone looks for `/video/upload`.
   */
  lemma CloudinaryPathOnlyLoose()
    ensures IsVideoLoose("/video/upload/v1/clip")
    ensures !IsVideoExtension("/video/upload/v1/clip") && !IsVideoAnchored("/video/upload/v1/clip")
  {
    var u := "/video/upload/v1/clip";
    assert MatchesAt(u, 0, "/video/upload");
    NoDotNoMatch(u, ".mp4");
    NoDotNoMatch(u, ".mov");
    NoDotNoMatch(u, ".webm");
    VideoTestsNested(u);
  }

  /** A text without `.` contains no pattern that starts with `.`. */
  lemma NoDotNoMatch(s: string, p: string)
    requires '.' !in s && |p| > 0 && p[0] == '.'
    ensures !ContainsCI(s, p)
  {
    forall i | 0 <= i && i + |p| <= |s| ensures !MatchesAt(s, i, p) {
      assert s[i] in s;
    }
  }

  /** `url.split("/").pop()?.split(".")[0]`: the last segment up to its first `.`. */
  function ImageId(url: string): (id: string)
    ensures '/' !in id && '.' !in id
    ensures var key := AfterLast(url, '/'); |id| <= |key| && id == key[..|id|] && (|id| == |key| || key[|id|] == '.')
  {
    BeforeFirst(AfterLast(url, '/'), '.')
  }

  /** A Cloudinary delivery URL `base/name.ext` gives back `name`, for a name without `/` or `.` and an extension without `/`. */
  lemma ImageIdOfDeliveryUrl(base: string, name: string, ext: string)
    requires '/' !in name && '.' !in name && '/' !in ext
    ensures ImageId(base + "/" + name + "." + ext) == name
  {
    var segment := name + "." + ext;
    assert '/' !in segment by {
      forall i | 0 <= i < |segment| ensures segment[i] != '/' {
        if i < |name| { assert segment[i] == name[i]; }
        else if i > |name| { assert segment[i] == ext[i - |name| - 1]; }
      }
    }
    assert base + "/" + name + "." + ext == base + "/" + segment;
    AfterLastOfJoined(base, '/', segment);
    BeforeFirstOfJoined(name, '.', ext);
  }
}
