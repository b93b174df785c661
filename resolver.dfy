/** The two fragment builders of the track and album prompts: each turns the
    metadata the music service returned into the partial post the composer merges
    with the user's answers. */
module Resolver {
  import opened Wrappers
  import opened Text

  datatype Artist = Artist(name: string)

  /** The fields the builders read from a parsed track or album response:
      `external_urls.spotify`, `name` and `artists`. */
  datatype Metadata = Metadata(externalUrl: string, name: string, artists: seq<Artist>)

  /** Reading `artists[0].name` of an empty artist list throws a TypeError. */
  datatype ResolveError = NoPrimaryArtist

  /** A post fragment. `kind` is the post's `type` field. The builders never set a
      caption; the field stands for a fragment that carries one, which the caption
      prompt and the composer treat specially. */
  datatype Fragment = Fragment(
    kind: string,
    externalUrl: string,
    tags: seq<string>,
    slug: Option<string>,
    caption: Option<string>)

  const AudioKind := "audio"
  const MusicTag := "music"

  /** What `Array.prototype.join` writes for an artist record: a plain object
      turns into this text. */
  const ObjectText := "[object Object]"

  /** The artist names, lowercased, in the order the service returned them. */
  function ArtistTags(artists: seq<Artist>): (r: seq<string>)
    ensures |r| == |artists|
    ensures forall i :: 0 <= i < |artists| ==> r[i] == Lower(artists[i].name)
  {
    if artists == [] then [] else [Lower(artists[0].name)] + ArtistTags(artists[1..])
  }

  /** The elements the slug joins: the primary artist's name, the title, and then
      each further artist RECORD, which the join renders as `ObjectText`. */
  function SlugParts(m: Metadata): (r: seq<string>)
    requires |m.artists| > 0
    ensures |r| == |m.artists| + 1
    ensures r[0] == m.artists[0].name && r[1] == m.name
    ensures forall i :: 2 <= i < |r| ==> r[i] == ObjectText
  {
    [m.artists[0].name, m.name] + seq(|m.artists| - 1, _ => ObjectText)
  }

  /** The slug both builders compute: the hyphen join of the parts, lowercased,
      with its first space (and only that one) turned into a hyphen. */
  function RawSlug(m: Metadata): string
    requires |m.artists| > 0
  {
    ReplaceFirst(Lower(Join("-", SlugParts(m))), ' ', '-')
  }

  /** The raw slug has the length of the lowercased join and differs from it at
      most in one position, the join's first space, which becomes a hyphen; a join
      without a space is the slug itself. */
  lemma RawSlugNearJoin(m: Metadata)
    requires |m.artists| > 0
    ensures |RawSlug(m)| == |Lower(Join("-", SlugParts(m)))|
    ensures forall i, j :: 0 <= i < j < |RawSlug(m)| ==>
      RawSlug(m)[i] == Lower(Join("-", SlugParts(m)))[i] ||
      RawSlug(m)[j] == Lower(Join("-", SlugParts(m)))[j]
    ensures forall i :: 0 <= i < |RawSlug(m)| && RawSlug(m)[i] != Lower(Join("-", SlugParts(m)))[i] ==>
      Lower(Join("-", SlugParts(m)))[i] == ' ' && RawSlug(m)[i] == '-'
    ensures FirstIndex(Lower(Join("-", SlugParts(m))), ' ').Some? ==>
      RawSlug(m)[FirstIndex(Lower(Join("-", SlugParts(m))), ' ').value] == '-'
    ensures ' ' !in Lower(Join("-", SlugParts(m))) ==> RawSlug(m) == Lower(Join("-", SlugParts(m)))
  {
    ReplaceFirstChangesOnePosition(Lower(Join("-", SlugParts(m))), ' ', '-');
  }

  /** For a single artist whose name holds a space, the builder's hyphen lands on the
      first space of that name and the title keeps all its spaces. */
  lemma RawSlugSingleArtist(m: Metadata)
    requires |m.artists| == 1 && ' ' in m.artists[0].name
    ensures RawSlug(m) ==
      ReplaceFirst(Lower(m.artists[0].name), ' ', '-') + "-" + Lower(m.name)
  {
    var a, t := m.artists[0].name, m.name;
    assert SlugParts(m) == [a, t];
    assert Join("-", [a, t]) == a + "-" + t by {
      assert [a, t][1..] == [t];
    }
    var k :| 0 <= k < |a| && a[k] == ' ';
    assert Lower(a)[k] == ' ';
    assert Lower(a + "-" + t) == Lower(a) + ("-" + Lower(t));
    ReplaceFirstInPrefix(Lower(a), "-" + Lower(t), ' ', '-');
  }

  /** The join renders every further artist as the same record text, so the slug
      depends on the primary artist, the title and the number of artists only:
      the names of the further artists never reach it. */
  lemma RawSlugIgnoresFurtherArtists(m: Metadata, others: seq<Artist>)
    requires |m.artists| > 0 && |others| == |m.artists| - 1
    ensures RawSlug(m.(artists := [m.artists[0]] + others)) == RawSlug(m)
    ensures |m.artists| > 1 ==>
      Join("-", SlugParts(m)) ==
        m.artists[0].name + "-" + m.name + "-" + Join("-", seq(|m.artists| - 1, _ => ObjectText))
  {
    var n := m.(artists := [m.artists[0]] + others);
    assert SlugParts(n) == SlugParts(m);
    if |m.artists| > 1 {
      var parts := SlugParts(m);
      assert parts[1..][1..] == seq(|m.artists| - 1, _ => ObjectText);
      assert parts[1..][0] == m.name;
    }
  }

  /** The track builder: an audio fragment that links the track verbatim, is
      tagged `music` followed by every artist's name in lower case and in order,
      and carries the raw slug; it fails exactly when the track has no artist. */
  function TrackFragment(m: Metadata): (r: Result<Fragment, ResolveError>)
    ensures r.Failure? <==> m.artists == []
    ensures r.Failure? ==> r.error == NoPrimaryArtist
    ensures r.Success? ==>
      var f := r.value;
      f.kind == "audio" && f.externalUrl == m.externalUrl &&
      |f.tags| == 1 + |m.artists| && f.tags[0] == "music" &&
      (forall i :: 0 <= i < |m.artists| ==> f.tags[i + 1] == Lower(m.artists[i].name)) &&
      f.slug == Some(RawSlug(m)) && f.caption == None
  {
    if |m.artists| == 0 then Failure(NoPrimaryArtist)
    else Success(Fragment(AudioKind, m.externalUrl, [MusicTag] + ArtistTags(m.artists),
                          Some(RawSlug(m)), None))
  }

  /** The album builder: as the track builder, except that the album title, in its
      original case, is the tag right after `music`. */
  function AlbumFragment(m: Metadata): (r: Result<Fragment, ResolveError>)
    ensures r.Failure? <==> m.artists == []
    ensures r.Failure? ==> r.error == NoPrimaryArtist
    ensures r.Success? ==>
      var f := r.value;
      f.kind == "audio" && f.externalUrl == m.externalUrl &&
      |f.tags| == 2 + |m.artists| && f.tags[0] == "music" && f.tags[1] == m.name &&
      (forall i :: 0 <= i < |m.artists| ==> f.tags[i + 2] == Lower(m.artists[i].name)) &&
      f.slug == Some(RawSlug(m)) && f.caption == None
  {
    if |m.artists| == 0 then Failure(NoPrimaryArtist)
    else Success(Fragment(AudioKind, m.externalUrl, [MusicTag, m.name] + ArtistTags(m.artists),
                          Some(RawSlug(m)), None))
  }

  /** The fragment either builder produces for `m`. */
  predicate IsBuilt(f: Fragment, m: Metadata) {
    TrackFragment(m) == Success(f) || AlbumFragment(m) == Success(f)
  }

  /** The two builders agree on everything but the tags, and the album's tags are
      the track's with the album title inserted after `music`. */
  lemma TrackAndAlbumAgree(m: Metadata)
    requires m.artists != []
    ensures TrackFragment(m).Success? && AlbumFragment(m).Success?
    ensures AlbumFragment(m).value ==
      TrackFragment(m).value.(tags := [MusicTag, m.name] + TrackFragment(m).value.tags[1..])
  {
    assert TrackFragment(m).value.tags[1..] == ArtistTags(m.artists);
  }
}
