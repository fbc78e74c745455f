/**
 * components/cases-display.tsx: the public list of cases, each with its
 * media tiles. Also the view types the admin list (`CasesList`) shares.
 */
module CasesDisplay {
  import opened Common
  import opened Text
  import opened CaseStore
  import opened MediaUrl

  /** One media tile: its React key, its URL, whether it is shown as a video, and the image's alt text. */
  datatype Tile = Tile(key: string, url: string, video: bool, alt: string)

  /** One case's block and its tiles, in image order. */
  datatype Card = Card(item: Case, tiles: seq<Tile>)

  /** What a case list renders. */
  datatype CasesView = NoCasesFound | Cards(cards: seq<Card>)

  /** The tiles of one case: keyed by position, video by extension anywhere, alt text counting from 1. */
  function DisplayTiles(c: Case): (tiles: seq<Tile>)
    ensures |tiles| == |ImagesOf(c)|
    ensures forall i :: 0 <= i < |tiles| ==>
              && tiles[i].url == ImagesOf(c)[i] && tiles[i].key == Decimal(i)
              && (tiles[i].video <==> IsVideoExtension(ImagesOf(c)[i]))
              && tiles[i].alt == "Case media " + Decimal(i + 1)
  {
    var urls := ImagesOf(c);
    seq(|urls|, i requires 0 <= i < |urls| =>
      Tile(Decimal(i), urls[i], IsVideoExtension(urls[i]), "Case media " + Decimal(i + 1)))
  }

  /** The list: "No cases found" for no cases, else one card per case in order. */
  function Display(cases: seq<Case>): (v: CasesView)
    ensures v.NoCasesFound? <==> cases == []
    ensures v.Cards? ==> |v.cards| == |cases|
    ensures v.Cards? ==> forall k :: 0 <= k < |cases| ==> v.cards[k] == Card(cases[k], DisplayTiles(cases[k]))
  {
    if cases == [] then NoCasesFound
    else Cards(seq(|cases|, k requires 0 <= k < |cases| => Card(cases[k], DisplayTiles(cases[k]))))
  }

  /**
   * A case whose images are `null` gets no tiles, and a Cloudinary video
   * URL without an extension is shown as an image here.
   */
  lemma DisplayTileFacts(c: Case, i: nat)
    ensures c.images.None? ==> DisplayTiles(c) == []
    ensures i < |ImagesOf(c)| && ImagesOf(c)[i] == "/video/upload/v1/clip" ==> !DisplayTiles(c)[i].video
  {
    CloudinaryPathOnlyLoose();
  }
}
