/**
 * PLATFORM_PRESETS (src/data/platformPresets.js): the export sizes the crop tool offers,
 * grouped by platform.  The export panel keys its accordion sections by platform name
 * and its size buttons by item key, and the crop tool copies an item's fit mode,
 * background, aspect ratio and file name into its own state.
 *
 * The table is written out as data; the lemmas check the promises its consumers rely
 * on.  One entry, the Facebook post, carries an aspect ratio that disagrees with its
 * own width and height.  `Groups` is the table as written; `CorrectedGroups` beside it
 * differs only in that entry, which there has the ratio of its dimensions.
 */
module PlatformPresets {
  import opened Wrappers
  import opened Geometry
  import opened Text
  import opened FitModes
  import opened DimsTags

  /** One size button: `label` and `badge` are shown, the rest is export data. */
  datatype PlatformItem = PlatformItem(
    key: string, caption: string, width: Pixels, height: Pixels, ratio: real,
    fitMode: FitMode, background: Background, filename: string, badge: Option<string>)

  /** One accordion section of the export panel. */
  datatype PlatformGroup = PlatformGroup(platform: string, items: seq<PlatformItem>)

  const IgPost: PlatformItem := PlatformItem("ig-post", "Instagram Post", 1080, 1080, 1.0, Fill, Black, "instagram-post-1080x1080", Some("Recommended"))
  const IgPortrait: PlatformItem := PlatformItem("ig-portrait", "Instagram Portrait", 1080, 1350, 4.0 / 5.0, Fill, Black, "instagram-portrait-1080x1350", None)
  const IgStory: PlatformItem := PlatformItem("ig-story", "Instagram Story / Reel", 1080, 1920, 9.0 / 16.0, Fit, Blur, "instagram-story-1080x1920", Some("Popular"))
  const YtShorts: PlatformItem := PlatformItem("yt-shorts", "YouTube Shorts", 1080, 1920, 9.0 / 16.0, Fit, Blur, "youtube-shorts-1080x1920", Some("Recommended"))
  const YtThumb: PlatformItem := PlatformItem("yt-thumb", "YouTube Thumbnail", 1280, 720, 16.0 / 9.0, Fill, Black, "youtube-thumbnail-1280x720", None)
  const WaDp: PlatformItem := PlatformItem("wa-dp", "WhatsApp DP", 500, 500, 1.0, Fill, Black, "whatsapp-dp-500x500", None)
  const WaStatus: PlatformItem := PlatformItem("wa-status", "WhatsApp Status", 1080, 1920, 9.0 / 16.0, Fit, Black, "whatsapp-status-1080x1920", None)
  const LiPost: PlatformItem := PlatformItem("li-post", "LinkedIn Post", 1200, 1200, 1.0, Fill, Black, "linkedin-post-1200x1200", None)
  const LiBanner: PlatformItem := PlatformItem("li-banner", "LinkedIn Banner", 1584, 396, 4.0, Fit, Black, "linkedin-banner-1584x396", None)
  const XPost: PlatformItem := PlatformItem("x-post", "X (Twitter) Post", 1600, 900, 16.0 / 9.0, Fill, Black, "x-post-1600x900", None)

  /** The Facebook post entry as the table writes it: ratio 1.91 for a 1200 × 630 canvas. */
  const FbPostAsWritten: PlatformItem :=
    PlatformItem("fb-post", "Facebook Post", 1200, 630, 1.91, Fill, Black, "facebook-post-1200x630", None)

  /** The same entry with the ratio of its own dimensions, 1200 / 630 = 40 / 21. */
  const FbPost: PlatformItem := FbPostAsWritten.(ratio := 40.0 / 21.0)

  const Instagram: PlatformGroup := PlatformGroup("Instagram", [IgPost, IgPortrait, IgStory])
  const YouTube: PlatformGroup := PlatformGroup("YouTube", [YtShorts, YtThumb])
  const WhatsApp: PlatformGroup := PlatformGroup("WhatsApp", [WaDp, WaStatus])
  const LinkedIn: PlatformGroup := PlatformGroup("LinkedIn", [LiPost, LiBanner])
  const X: PlatformGroup := PlatformGroup("X", [XPost])
  const Facebook: PlatformGroup := PlatformGroup("Facebook", [FbPostAsWritten])

  /** PLATFORM_PRESETS as written, in the order the export panel lists it. */
  const Groups: seq<PlatformGroup> := [Instagram, YouTube, WhatsApp, LinkedIn, X, Facebook]

  /** The Facebook section with the corrected entry. */
  const FacebookCorrected: PlatformGroup := PlatformGroup("Facebook", [FbPost])

  /** PLATFORM_PRESETS with the Facebook post's ratio corrected. */
  const CorrectedGroups: seq<PlatformGroup> := [Instagram, YouTube, WhatsApp, LinkedIn, X, FacebookCorrected]

  /** Every size button, group after group. */
  function AllItems(): (r: seq<PlatformItem>)
    ensures |r| == 11
    ensures forall g, i :: 0 <= g < |Groups| && 0 <= i < |Groups[g].items| ==> Groups[g].items[i] in r
  {
    Instagram.items + YouTube.items + WhatsApp.items + LinkedIn.items + X.items + Facebook.items
  }

  /** Every size button of the corrected table: the same, with the Facebook post corrected. */
  function CorrectedItems(): (r: seq<PlatformItem>)
    ensures |r| == 11 && r == AllItems()[10 := FbPost] && AllItems()[10] == FbPostAsWritten
    ensures forall g, i :: 0 <= g < |CorrectedGroups| && 0 <= i < |CorrectedGroups[g].items| ==>
              CorrectedGroups[g].items[i] in r
  {
    Instagram.items + YouTube.items + WhatsApp.items + LinkedIn.items + X.items + FacebookCorrected.items
  }

  /**
   * What the crop tool relies on in one entry: the file name ends with the entry's
   * `${width}x${height}`, the background is "black" or "blur" (never "white"), and
   * "blur" only comes with "fit", the only mode that paints a background.
   */
  predicate WellFormed(p: PlatformItem)
  {
    EndsWith(p.filename, DimsTag(p.width, p.height))
    && p.background != White
    && (p.background == Blur ==> p.fitMode == Fit)
  }

  /** The aspect ratio the preview uses is the one the export canvas has. */
  predicate RatioExact(p: PlatformItem)
  {
    p.ratio == p.width as real / p.height as real
  }

  /** Six sections with distinct platform names: each opens and closes on its own. */
  lemma GroupNamesDistinct()
    ensures |Groups| == 6
    ensures forall a, b :: 0 <= a < b < |Groups| ==> Groups[a].platform != Groups[b].platform
  {
  }

  /** Item keys are distinct across all sections, so the highlighted button is unique. */
  lemma KeysDistinct()
    ensures forall a, b :: 0 <= a < b < |AllItems()| ==> AllItems()[a].key != AllItems()[b].key
  {
  }

  /**
   * Every entry of the table as written is well formed, and every entry but the
   * Facebook post has the ratio of its own dimensions (FacebookRatioAsWritten shows
   * that one does not).
   */
  lemma {:induction false} ItemsWellFormed()
    ensures forall p :: p in AllItems() ==> WellFormed(p)
    ensures forall p :: p in AllItems() && p != FbPostAsWritten ==> RatioExact(p)
  {
    InstagramWellFormed();
    YouTubeWellFormed();
    WhatsAppWellFormed();
    LinkedInWellFormed();
    XWellFormed();
    FacebookRatioAsWritten();
  }

  /** In the corrected table every entry is well formed and has the ratio of its own dimensions. */
  lemma {:induction false} CorrectedItemsExact()
    ensures forall p :: p in CorrectedItems() ==> WellFormed(p) && RatioExact(p)
  {
    InstagramWellFormed();
    YouTubeWellFormed();
    WhatsAppWellFormed();
    LinkedInWellFormed();
    XWellFormed();
    FacebookWellFormed();
  }

  lemma InstagramWellFormed()
    ensures forall p :: p in Instagram.items ==> WellFormed(p) && RatioExact(p)
  {
    IgPostChecked();
    IgPortraitChecked();
    IgStoryChecked();
  }

  lemma YouTubeWellFormed()
    ensures forall p :: p in YouTube.items ==> WellFormed(p) && RatioExact(p)
  {
    YtShortsChecked();
    YtThumbChecked();
  }

  lemma WhatsAppWellFormed()
    ensures forall p :: p in WhatsApp.items ==> WellFormed(p) && RatioExact(p)
  {
    WaDpChecked();
    WaStatusChecked();
  }

  lemma LinkedInWellFormed()
    ensures forall p :: p in LinkedIn.items ==> WellFormed(p) && RatioExact(p)
  {
    LiPostChecked();
    LiBannerChecked();
  }

  lemma XWellFormed()
    ensures forall p :: p in X.items ==> WellFormed(p) && RatioExact(p)
  {
    XPostChecked();
  }

  lemma FacebookWellFormed()
    ensures forall p :: p in FacebookCorrected.items ==> WellFormed(p) && RatioExact(p)
  {
    FbPostChecked();
  }

  lemma IgPostChecked()
    ensures WellFormed(IgPost) && RatioExact(IgPost)
  {
    Tag1080x1080();
  }

  lemma IgPortraitChecked()
    ensures WellFormed(IgPortrait) && RatioExact(IgPortrait)
  {
    Tag1080x1350();
  }

  lemma IgStoryChecked()
    ensures WellFormed(IgStory) && RatioExact(IgStory)
  {
    Tag1080x1920();
  }

  lemma YtShortsChecked()
    ensures WellFormed(YtShorts) && RatioExact(YtShorts)
  {
    Tag1080x1920();
  }

  lemma YtThumbChecked()
    ensures WellFormed(YtThumb) && RatioExact(YtThumb)
  {
    Tag1280x720();
  }

  lemma WaDpChecked()
    ensures WellFormed(WaDp) && RatioExact(WaDp)
  {
    Tag500x500();
  }

  lemma WaStatusChecked()
    ensures WellFormed(WaStatus) && RatioExact(WaStatus)
  {
    Tag1080x1920();
  }

  lemma LiPostChecked()
    ensures WellFormed(LiPost) && RatioExact(LiPost)
  {
    Tag1200x1200();
  }

  lemma LiBannerChecked()
    ensures WellFormed(LiBanner) && RatioExact(LiBanner)
  {
    Tag1584x396();
  }

  lemma XPostChecked()
    ensures WellFormed(XPost) && RatioExact(XPost)
  {
    Tag1600x900();
  }

  lemma FbPostChecked()
    ensures WellFormed(FbPost) && RatioExact(FbPost)
  {
    Tag1200x630();
  }

  /** The Facebook post as written is well formed, but its ratio is 1.91 and not 1200 / 630. */
  lemma FacebookRatioAsWritten()
    ensures WellFormed(FbPostAsWritten)
    ensures !RatioExact(FbPostAsWritten)
    ensures FbPostAsWritten.ratio - FbPostAsWritten.width as real / FbPostAsWritten.height as real == 11.0 / 2100.0
  {
    Tag1200x630();
  }
}
