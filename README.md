# tumblr-cli: the post transform, modelled in Dafny

tumblr-cli is an interactive script. It asks which blog to post to and whether to
post a Spotify track or album. It fetches that item's metadata and turns it into an
audio post fragment. It then merges the fragment with the user's answers, shows the
resulting post, and publishes it once the user confirms. This project models the
part that transforms data:

- **Text** (`text.dfy`): the JavaScript string built-ins the script uses. These are
  `toLowerCase`, `replace(' ', '-')` with a string pattern (first occurrence only),
  `trim`, `replace(/(\s+)/, '-')` (first maximal white-space run only) and
  `Array.prototype.join`. `Split` is added as the inverse of `join`. White space is
  the ECMAScript set that both `trim` and `\s` use: WhiteSpace plus LineTerminator.
- **Resolver** (`resolver.dfy`): the track and album fragment builders. They take
  the parsed metadata record (`Metadata`: link, name, artists) and return a
  `Fragment` (type, link, tags, slug). The post's `type` field is called `kind`.
- **Composer** (`composer.dfy`): the caption prompt's default and the composition
  of the post. Composition has these steps: `_.extend` of the defaults with the
  fragment, the caption override, the per-blog tag, slug cleanup, and the comma
  join of the tags. `ComposePost` performs the steps one statement at a time, as
  the script does. `Compose` is the specification it is proved against.
- **Gate** (`gate.dfy`): what happens after the confirmation question.
- **Scenarios** (`scenarios.dfy`): a worked example on concrete metadata.
- **Wrappers** (`wrappers.dfy`): `Option` and `Result`.

The model follows the code as written, including these behaviours:

- The slug joins `[artists[0].name, name, ...artists.slice(1)]`. The further
  elements are artist *records*, so `join` writes each one as `[object Object]`.
  The slug therefore never contains the names of the further artists
  (`RawSlugIgnoresFurtherArtists`).
- Reading `artists[0].name` throws when the artist list is empty. Both builders
  return `Failure(NoPrimaryArtist)` in that case.
- The builder replaces only the first space of the lowercased join. The cleanup
  then replaces only the first white-space run of the trimmed slug. For "One More
  Time" by Daft Punk the code therefore produces `daft-punk-one-more time`, not
  `daft-punk-one-more-time` (`Scenarios.DaftPunkTrackToOneSongMayhem`).
- Slug cleanup is idempotent only when the trimmed slug has at most one
  white-space run (`CleanSlugIdempotent`). With two runs a second cleanup changes
  the slug again (`CleanSlugTwoRuns`).
- When the fragment has a non-empty caption, the caption prompt's default is the
  whole fragment object, not its caption (`CaptionDefault`). Neither builder sets a
  caption, so in practice the default is the empty text.

## Model

| member | source | states |
|---|---|---|
| Text.LowerChangesOnlyCapitals | index.js:60 | lowercasing leaves no upper-case letter and changes exactly the upper-case letters |
| Text.LowerIdempotent | index.js:60 | lowercasing twice gives the same string as lowercasing once |
| Text.FirstIndex | index.js:61 | the index found holds the pattern and no earlier index does; there is no index exactly when the pattern does not occur |
| Text.ReplaceFirstChangesOnePosition | index.js:61 | `replace` with a one-character pattern keeps the length; the pattern's first occurrence, when there is one, holds the replacement; any position that changed is that first occurrence; without an occurrence the string is unchanged |
| Text.ReplaceFirstAfter | index.js:61 | after a prefix free of the pattern, the pattern's occurrence is replaced and everything after it is kept, further occurrences included |
| Text.FirstIndexAt | index.js:61 | an occurrence with none before it is the one `FirstIndex` finds |
| Text.ReplaceFirstInPrefix | index.js:61 | when the pattern occurs in the first part of a concatenation, the second part is left alone |
| Text.Trim | index.js:133 | `trim` returns a slice of the input with no white space at either end, everything cut away is white space, and an already-trimmed string comes back unchanged |
| Text.TrimIdempotent | index.js:133 | trimming twice gives the same string as trimming once |
| Text.FindWhitespace | index.js:133 | finds the first white-space character; there is none exactly when the string has no white space |
| Text.FindWhitespaceAt | index.js:133 | a white-space character with none before it is the one `FindWhitespace` finds |
| Text.RunEnd | index.js:133 | the end of the maximal white-space run that starts at a given index |
| Text.ReplaceFirstWhitespaceRun | index.js:133 | `replace(/(\s+)/, r)` puts `r` in place of the leftmost maximal white-space run and keeps everything before and after it; a string without white space is unchanged |
| Text.ReplaceRunKeepsTrimmed | index.js:133 | replacing the first run of a trimmed string by a non-empty text without white space leaves a trimmed string |
| Text.NoRunsMeansNoWhitespace | index.js:133 | a string has no white-space run exactly when it has no white space |
| Text.SingleRunReplacedLeavesNoWhitespace | index.js:133 | if a string has at most one white-space run, replacing that run by a text without white space leaves no white space |
| Text.JoinCount | index.js:136 | `join` with a one-character separator adds exactly (number of elements − 1) separators, besides those the elements already hold |
| Text.SplitJoin | index.js:136 | splitting the join at the separator gives the elements back when none of them holds the separator |
| Resolver.ArtistTags | index.js:60 | one tag per artist, in the order returned: the artist's name lowercased |
| Resolver.SlugParts | index.js:61 | the slug join gets the primary artist's name, then the title, then the record text `[object Object]` once for each further artist |
| Resolver.RawSlugNearJoin | index.js:88 | the raw slug has the length of the lowercased hyphen join and differs from it in at most one position, where a space became a hyphen; the join's first space is a hyphen in the slug; a join without a space is the slug itself |
| Resolver.RawSlugSingleArtist | index.js:61 | for one artist whose name holds a space, the hyphen replaces that name's first space and the title keeps its spaces |
| Resolver.RawSlugIgnoresFurtherArtists | index.js:61 | the slug does not change when the names of the further artists change; with two or more artists the join ends in the record texts |
| Resolver.TrackFragment | index.js:57-62 | fails exactly when there is no artist; otherwise returns type `audio`, the link unchanged, tags `music` followed by each artist's lowercased name in order (1 + number of artists tags), no caption, and the raw slug |
| Resolver.AlbumFragment | index.js:84-89 | like the track builder, except that the album title, in its original case, is the tag at index 1 and the artist names follow from index 2 |
| Resolver.TrackAndAlbumAgree | index.js:84-89 | the album fragment is the track fragment with the album title inserted after `music` in the tags |
| Composer.CaptionDefault | index.js:103-108 | the default is the whole fragment exactly when a fragment with a non-empty caption is present, and the empty text otherwise |
| Composer.BuiltFragmentCaptionDefault | index.js:103-108 | for any fragment either builder produced, the caption default is the empty text |
| Composer.InjectBlogTag | index.js:123-129 | `onesongmayhem` gets `1 song mayhem` in front and `listhype` gets `listhype` in front; any other blog's tags are unchanged; at most one tag is added and the original tags follow in order |
| Composer.CleanSlug | index.js:132-134 | an absent or empty slug is left alone; any other slug comes back trimmed, with its first internal white-space run turned into one `-` and the rest as it was |
| Composer.CleanSlugIdempotent | index.js:132-134 | cleaning twice is the same as cleaning once when the trimmed slug has at most one white-space run |
| Composer.CleanSlugTwoRuns | index.js:133 | for any three words without white space, `x y z` cleans to `x-y z` and that cleans to `x-y-z`, a different slug: cleanup is not idempotent in general |
| Composer.CleanFirstOfTwoRuns | index.js:133 | `x y z` cleans to `x-y z`: only the first of two runs is replaced |
| Composer.CleanSecondOfTwoRuns | index.js:133 | `x-y z` cleans to `x-y-z` |
| Composer.CleanOneRun | index.js:133 | a trimmed slug whose first white space is a single character cleans to the slug with only that character turned into `-` |
| Composer.CleanAtSpace | index.js:133 | a word without white space, one space and a trimmed rest clean to the word, `-` and the rest |
| Composer.Compose | index.js:113-136 | the post has the chosen blog and state `published`; its caption is the answer when that is non-empty, else the fragment's caption or the empty text; type and link come from the fragment; the slug is cleaned; the tags are the comma join of the list after the blog's tag was put in front |
| Composer.ComposePost | index.js:113-136 | the field-by-field composition gives exactly `Compose` |
| Composer.ComposedTagsSplit | index.js:136 | the serialised tags hold one comma between neighbouring tags besides any commas inside them; splitting at commas gives back the injected list when no tag holds a comma |
| Composer.InjectedTagsCommaFree | index.js:123-129 | the blog tags hold no comma, so injection keeps a comma-free tag list comma-free |
| Gate.Decide | index.js:144-156 | the post is published to its own blog, unchanged, exactly when the user confirmed and its type is `audio`; the cancellation branch is taken exactly when the user did not confirm |
| Gate.BuiltPostsPublishOnConfirm | index.js:144-153 | a post composed from a builder's fragment is published to the chosen blog once confirmed, and is cancelled otherwise |
| Scenarios.DaftPunkTrackToOneSongMayhem | index.js:57-136 | "One More Time" by Daft Punk gives tags `music, daft punk` and raw slug `daft-punk-one more time`; on onesongmayhem the post has tags `1 song mayhem,music,daft punk` and slug `daft-punk-one-more time` |
| Scenarios.DaftPunkRawSlug | index.js:61 | the builder's slug for that track is `daft-punk-one more time` |

## Left out

- The prompt flow: the question list, the blog choices loaded from the account, the `when` conditions, and the asynchronous `filter`/`done` callbacks. These are user-interface and callback plumbing.
- The Spotify request, `path.basename` on the URL, and `JSON.parse`. These are network I/O and foreign parsing. The parsed response is the input `Metadata`, so network and parse errors are not modelled.
- The Tumblr client (`userInfo`, `audio`) and the settings file. `Gate.Decide` returns the call to make; the call itself and its success or failure report are foreign.
- Console output and the JSON rendering of the confirmation message.
- Text.Lower: lowercases the ASCII letters only, not full Unicode case mapping.
- Text.ReplaceFirst: covers one-character string patterns only, the only kind the script passes.
- A caption answer that is not a string (after the whole-fragment default is accepted) is not modelled: the caption answer is always a string.
- An absent fragment, or a fragment without tags, makes the composition throw. Neither is reachable from the prompt flow, because one of the two URL questions always runs. `Compose` takes a fragment that has tags.
- The fragment never carries a `blog` field, so `_.extend` cannot replace the chosen blog. The model's `Fragment` has no such field.
