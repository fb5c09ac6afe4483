/**
 * SOCIAL_SIZES (src/utils/sizes.js): a flat table of export sizes, each tagged with its
 * platform.  Like the platform presets, every entry carries the fit mode, background,
 * aspect ratio and file name that an export with it would use.
 */
module SocialSizes {
  import opened Geometry
  import opened Text
  import opened FitModes
  import opened DimsTags

  /** One entry; `name` is the caption shown for it. */
  datatype SocialSize = SocialSize(
    key: string, name: string, platform: string, width: Pixels, height: Pixels, ratio: real,
    fitMode: FitMode, background: Background, filename: string)

  const InstagramSquare: SocialSize := SocialSize("instagram-post-square", "Instagram Post (Square)", "Instagram", 1080, 1080, 1.0, Fill, Black, "instagram-post-1080x1080")
  const InstagramPortrait: SocialSize := SocialSize("instagram-post-portrait", "Instagram Post (Portrait)", "Instagram", 1080, 1350, 4.0 / 5.0, Fill, Black, "instagram-post-1080x1350")
  const InstagramStory: SocialSize := SocialSize("instagram-story", "Instagram Story / Reel", "Instagram", 1080, 1920, 9.0 / 16.0, Fit, Blur, "instagram-story-1080x1920")
  const YouTubeShorts: SocialSize := SocialSize("youtube-shorts", "YouTube Shorts", "YouTube", 1080, 1920, 9.0 / 16.0, Fit, Blur, "youtube-shorts-1080x1920")
  const YouTubeThumbnail: SocialSize := SocialSize("youtube-thumbnail", "YouTube Thumbnail", "YouTube", 1280, 720, 16.0 / 9.0, Fill, Black, "youtube-thumbnail-1280x720")
  const WhatsAppDp: SocialSize := SocialSize("whatsapp-dp", "WhatsApp DP", "WhatsApp", 500, 500, 1.0, Fill, Black, "whatsapp-dp-500x500")
  const WhatsAppStatus: SocialSize := SocialSize("whatsapp-status", "WhatsApp Status", "WhatsApp", 1080, 1920, 9.0 / 16.0, Fit, Blur, "whatsapp-status-1080x1920")
  const LinkedInPost: SocialSize := SocialSize("linkedin-post", "LinkedIn Post", "LinkedIn", 1200, 1200, 1.0, Fit, White, "linkedin-post-1200x1200")
  const LinkedInBanner: SocialSize := SocialSize("linkedin-banner", "LinkedIn Banner", "LinkedIn", 1584, 396, 4.0, Fit, White, "linkedin-banner-1584x396")

  /** SOCIAL_SIZES, in its own order. */
  const Sizes: seq<SocialSize> := [
    InstagramSquare, InstagramPortrait, InstagramStory, YouTubeShorts, YouTubeThumbnail,
    WhatsAppDp, WhatsAppStatus, LinkedInPost, LinkedInBanner
  ]

  /** The four platforms the table covers. */
  predicate KnownPlatform(p: string)
  {
    p == "Instagram" || p == "YouTube" || p == "WhatsApp" || p == "LinkedIn"
  }

  /**
   * One entry is consistent: its file name ends with its `${width}x${height}`, its ratio
   * is exactly width / height, "blur" only comes with "fit", and its platform is a known
   * one.
   */
  predicate WellFormed(s: SocialSize)
  {
    EndsWith(s.filename, DimsTag(s.width, s.height))
    && s.ratio == s.width as real / s.height as real
    && (s.background == Blur ==> s.fitMode == Fit)
    && KnownPlatform(s.platform)
  }

  /** Nine entries with distinct keys. */
  lemma KeysDistinct()
    ensures |Sizes| == 9
    ensures forall a, b :: 0 <= a < b < |Sizes| ==> Sizes[a].key != Sizes[b].key
  {
  }

  /** Every entry is consistent. */
  lemma {:induction false} SizesWellFormed()
    ensures forall s :: s in Sizes ==> WellFormed(s)
  {
    assert Sizes == Sizes[..3] + Sizes[3..5] + Sizes[5..7] + Sizes[7..];
    InstagramSizesChecked();
    YouTubeSizesChecked();
    WhatsAppSizesChecked();
    LinkedInSizesChecked();
  }

  lemma InstagramSizesChecked()
    ensures forall s :: s in Sizes[..3] ==> WellFormed(s)
  {
    assert Sizes[..3] == [InstagramSquare, InstagramPortrait, InstagramStory];
    InstagramSquareChecked();
    InstagramPortraitChecked();
    InstagramStoryChecked();
  }

  lemma YouTubeSizesChecked()
    ensures forall s :: s in Sizes[3..5] ==> WellFormed(s)
  {
    assert Sizes[3..5] == [YouTubeShorts, YouTubeThumbnail];
    YouTubeShortsChecked();
    YouTubeThumbnailChecked();
  }

  lemma WhatsAppSizesChecked()
    ensures forall s :: s in Sizes[5..7] ==> WellFormed(s)
  {
    assert Sizes[5..7] == [WhatsAppDp, WhatsAppStatus];
    WhatsAppDpChecked();
    WhatsAppStatusChecked();
  }

  lemma LinkedInSizesChecked()
    ensures forall s :: s in Sizes[7..] ==> WellFormed(s)
  {
    assert Sizes[7..] == [LinkedInPost, LinkedInBanner];
    LinkedInPostChecked();
    LinkedInBannerChecked();
  }

  lemma InstagramSquareChecked()
    ensures WellFormed(InstagramSquare)
  {
    Tag1080x1080();
  }

  lemma InstagramPortraitChecked()
    ensures WellFormed(InstagramPortrait)
  {
    Tag1080x1350();
  }

  lemma InstagramStoryChecked()
    ensures WellFormed(InstagramStory)
  {
    Tag1080x1920();
  }

  lemma YouTubeShortsChecked()
    ensures WellFormed(YouTubeShorts)
  {
    Tag1080x1920();
  }

  lemma YouTubeThumbnailChecked()
    ensures WellFormed(YouTubeThumbnail)
  {
    Tag1280x720();
  }

  lemma WhatsAppDpChecked()
    ensures WellFormed(WhatsAppDp)
  {
    Tag500x500();
  }

  lemma WhatsAppStatusChecked()
    ensures WellFormed(WhatsAppStatus)
  {
    Tag1080x1920();
  }

  lemma LinkedInPostChecked()
    ensures WellFormed(LinkedInPost)
  {
    Tag1200x1200();
  }

  lemma LinkedInBannerChecked()
    ensures WellFormed(LinkedInBanner)
  {
    Tag1584x396();
  }
}
