/** Worked examples of the whole transform on concrete metadata. Each fact about a
    literal is its own small lemma, and the examples assemble them. */
module Scenarios {
  import opened Wrappers
  import opened Text
  import opened Resolver
  import opened Composer

  const SpotifyLink := "https://open.spotify.com/track/abc"
  const DaftPunk := Metadata(SpotifyLink, "One More Time", [Artist("Daft Punk")])
  const DaftPunkFragment := Fragment("audio", SpotifyLink, ["music", "daft punk"], Some("daft-punk-one more time"), None)

  /** The track "One More Time" by Daft Punk, posted to onesongmayhem without a
      caption: the fragment is tagged `music, daft punk`; the post gets the blog's
      tag in front, serialised as one string, and a slug in which only the first
      two spaces became hyphens (one in the builder, one in the cleanup). */
  lemma DaftPunkTrackToOneSongMayhem()
    ensures TrackFragment(DaftPunk) == Success(DaftPunkFragment)
    ensures Compose("onesongmayhem", DaftPunkFragment, "") ==
      Post("onesongmayhem", "published", "", "audio", SpotifyLink,
           "1 song mayhem,music,daft punk", Some("daft-punk-one-more time"))
  {
    DaftPunkTrackFragment();
    DaftPunkSlugCleaned();
    DaftPunkTagsJoined();
  }

  lemma DaftPunkTrackFragment()
    ensures TrackFragment(DaftPunk) == Success(DaftPunkFragment)
  {
    DaftPunkTrackPieces();
    assert ["music"] + ["daft punk"] == ["music", "daft punk"];
  }

  lemma DaftPunkTrackPieces()
    ensures TrackFragment(DaftPunk) ==
      Success(Fragment("audio", SpotifyLink, ["music"] + ["daft punk"], Some("daft-punk-one more time"), None))
  {
    DaftPunkRawSlug();
    DaftPunkArtistTags();
    TrackFragmentOf(DaftPunk, ["daft punk"], "daft-punk-one more time");
  }

  lemma DaftPunkArtistTags()
    ensures ArtistTags(DaftPunk.artists) == ["daft punk"]
  {
    DaftPunkNameLowered();
    assert ArtistTags(DaftPunk.artists) == [Lower("Daft Punk")];
  }

  /** The track builder's result, from the pieces computed separately. */
  lemma TrackFragmentOf(m: Metadata, artistTags: seq<string>, slug: string)
    requires m.artists != [] && ArtistTags(m.artists) == artistTags && RawSlug(m) == slug
    ensures TrackFragment(m) == Success(Fragment("audio", m.externalUrl, ["music"] + artistTags, Some(slug), None))
  {
  }

  lemma DaftPunkSlugCleaned()
    ensures CleanSlug(Some("daft-punk-one more time")) == Some("daft-punk-one-more time")
  {
    var raw := "daft-punk-one more time";
    assert raw[..13] == "daft-punk-one" && raw[13] == ' ' && raw[14] == 'm';
    assert raw[..13] + "-" + raw[14..] == "daft-punk-one-more time";
    CleanOneRun(raw, 13, "daft-punk-one-more time");
  }

  lemma DaftPunkTagsJoined()
    ensures Join(",", [BlogTagTable["onesongmayhem"]] + ["music", "daft punk"]) == "1 song mayhem,music,daft punk"
  {
    assert [BlogTagTable["onesongmayhem"]] + ["music", "daft punk"] == ["1 song mayhem", "music", "daft punk"];
    assert Join(",", ["1 song mayhem", "music", "daft punk"]) == "1 song mayhem,music,daft punk";
  }

  lemma DaftPunkRawSlug()
    ensures RawSlug(DaftPunk) == "daft-punk-one more time"
  {
    RawSlugSingleArtist(DaftPunk);
    DaftPunkNameLowered();
    DaftPunkNameHyphenated();
    TitleLowered();
    HyphenJoin(RawSlug(DaftPunk), ReplaceFirst(Lower("Daft Punk"), ' ', '-'), Lower("One More Time"));
  }

  lemma DaftPunkNameLowered()
    ensures Lower("Daft Punk") == "daft punk"
  {
  }

  lemma DaftPunkNameHyphenated()
    ensures ReplaceFirst("daft punk", ' ', '-') == "daft-punk"
  {
    ReplaceFirstAfter("daft", "punk", ' ', '-');
    assert "daft" + [' '] + "punk" == "daft punk";
    assert "daft" + ['-'] + "punk" == "daft-punk";
  }

  lemma TitleLowered()
    ensures Lower("One More Time") == "one more time"
  {
  }

  lemma HyphenJoin(x: string, a: string, b: string)
    requires x == a + "-" + b && a == "daft-punk" && b == "one more time"
    ensures x == "daft-punk-one more time"
  {
  }
}
