/** The caption prompt's default and the composition of the final post: defaults
    merged with the fragment, the caption override, the per-blog tag, slug cleanup
    and the serialisation of the tags. */
module Composer {
  import opened Wrappers
  import opened Text
  import opened Resolver

  /** The post while it is being composed: `tags` is still a list. */
  datatype Draft = Draft(
    blog: string,
    state: string,
    caption: string,
    kind: string,
    externalUrl: string,
    tags: seq<string>,
    slug: Option<string>)

  /** The composed post: `tags` has become one comma-separated string. */
  datatype Post = Post(
    blog: string,
    state: string,
    caption: string,
    kind: string,
    externalUrl: string,
    tags: string,
    slug: Option<string>)

  const PublishedState := "published"

  /** The blogs that get a tag of their own, and that tag. */
  const BlogTagTable: map<string, string> :=
    map["onesongmayhem" := "1 song mayhem", "listhype" := "listhype"]

  // ------------------------------------------------------------ caption prompt

  /** The default the caption prompt offers: the literal text, or (when the fragment
      carries a caption) the whole fragment object. */
  datatype CaptionPrefill = Literal(text: string) | WholeFragment(fragment: Fragment)

  /** The caption prompt's default. A fragment with a non-empty caption is offered
      as a whole, not its caption; anything else gives the empty text. */
  function CaptionDefault(audioPost: Option<Fragment>): (d: CaptionPrefill)
    ensures d.WholeFragment? <==>
      audioPost.Some? && audioPost.value.caption.Some? && audioPost.value.caption.value != ""
    ensures d.WholeFragment? ==> d.fragment == audioPost.value
    ensures d.Literal? ==> d.text == ""
  {
    match audioPost
    case Some(f) =>
      if f.caption.Some? && f.caption.value != "" then WholeFragment(f) else Literal("")
    case None => Literal("")
  }

  /** Neither builder sets a caption, so for their fragments the prompt's default is
      the empty text. */
  lemma BuiltFragmentCaptionDefault(f: Fragment, m: Metadata)
    requires IsBuilt(f, m)
    ensures CaptionDefault(Some(f)) == Literal("")
  {
  }

  // ------------------------------------------------------------- composition

  /** `_.extend({blog, state: 'published', caption: ''}, fragment)`: the fragment's
      fields win over the defaults. */
  function Extend(blog: string, f: Fragment): Draft {
    Draft(blog, PublishedState, f.caption.GetOr(""), f.kind, f.externalUrl, f.tags, f.slug)
  }

  /** A non-empty caption answer replaces the caption. */
  function OverrideCaption(d: Draft, postCaption: string): Draft {
    if postCaption != "" then d.(caption := postCaption) else d
  }

  /** The two per-blog checks of the script, one after the other: at most one tag
      is put in front, the one the table gives for the blog, and the original
      tags follow in their order. */
  function InjectBlogTag(blog: string, tags: seq<string>): (r: seq<string>)
    ensures blog in BlogTagTable ==> r == [BlogTagTable[blog]] + tags
    ensures blog !in BlogTagTable ==> r == tags
    ensures |tags| <= |r| <= |tags| + 1 && r[|r| - |tags|..] == tags
  {
    var afterMayhem := if blog == "onesongmayhem" then ["1 song mayhem"] + tags else tags;
    if blog == "listhype" then ["listhype"] + afterMayhem else afterMayhem
  }

  /** Slug cleanup: a present, non-empty slug is trimmed and its first white-space
      run becomes one hyphen; everything after that run is kept as it was. An
      absent or empty slug is left alone. */
  function CleanSlug(slug: Option<string>): (r: Option<string>)
    ensures slug.None? || slug == Some("") ==> r == slug
    ensures slug.Some? && slug.value != "" ==>
      r.Some? && IsTrimmed(r.value) &&
      var t := Trim(slug.value);
      match FindWhitespace(t)
      case None => r.value == t
      case Some(i) => r.value == t[..i] + "-" + t[RunEnd(t, i)..]
  {
    match slug
    case Some(s) =>
      if s != "" then
        ReplaceRunKeepsTrimmed(Trim(s), "-");
        Some(ReplaceFirstWhitespaceRun(Trim(s), "-"))
      else slug
    case None => slug
  }

  /** Cleaning twice is cleaning once when the trimmed slug has at most one
      white-space run. */
  lemma CleanSlugIdempotent(slug: Option<string>)
    requires slug.Some? ==> WhitespaceRuns(Trim(slug.value)) <= 1
    ensures CleanSlug(CleanSlug(slug)) == CleanSlug(slug)
  {
    if slug.Some? && slug.value != "" {
      var r := ReplaceFirstWhitespaceRun(Trim(slug.value), "-");
      SingleRunReplacedLeavesNoWhitespace(Trim(slug.value), "-");
      if r != "" {
        assert Trim(r) == r;
        assert FindWhitespace(r) == None;
      }
    }
  }

  /** A trimmed slug whose first white space is a lone character at `i` cleans to
      `expected`, the slug with only that character turned into a hyphen. */
  lemma CleanOneRun(s: string, i: nat, expected: string)
    requires 0 < i < |s| - 1 && IsTrimmed(s)
    requires NoWhitespace(s[..i]) && IsWhitespace(s[i]) && !IsWhitespace(s[i + 1])
    requires expected == s[..i] + "-" + s[i + 1..]
    ensures CleanSlug(Some(s)) == Some(expected)
  {
    FindWhitespaceAt(s, i);
    assert RunEnd(s, i) == i + 1;
  }

  /** A first word and a trimmed rest, separated by one space, clean to the two
      joined by a hyphen. */
  lemma CleanAtSpace(word: string, rest: string)
    requires word != [] && NoWhitespace(word) && rest != [] && IsTrimmed(rest)
    ensures CleanSlug(Some(word + " " + rest)) == Some(word + "-" + rest)
  {
    var s, i := word + " " + rest, |word|;
    assert s[0] == word[0] && s[|s| - 1] == rest[|rest| - 1];
    assert s[..i] == word && s[i] == ' ' && s[i + 1..] == rest;
    CleanOneRun(s, i, word + "-" + rest);
  }

  /** With two runs a second cleanup changes the slug again, so cleanup is not
      idempotent in general: `x y z` cleans to `x-y z`, which cleans to `x-y-z`. */
  lemma CleanSlugTwoRuns(x: string, y: string, z: string)
    requires x != [] && y != [] && z != []
    requires NoWhitespace(x) && NoWhitespace(y) && NoWhitespace(z)
    ensures CleanSlug(Some(x + " " + y + " " + z)) == Some(x + "-" + y + " " + z)
    ensures CleanSlug(Some(x + "-" + y + " " + z)) == Some(x + "-" + y + "-" + z)
    ensures x + "-" + y + " " + z != x + "-" + y + "-" + z
  {
    CleanFirstOfTwoRuns(x, y, z);
    CleanSecondOfTwoRuns(x, y, z);
    var i := |x| + 1 + |y|;
    assert (x + "-" + y + " " + z)[i] != (x + "-" + y + "-" + z)[i];
  }

  lemma CleanFirstOfTwoRuns(x: string, y: string, z: string)
    requires x != [] && y != [] && z != []
    requires NoWhitespace(x) && NoWhitespace(y) && NoWhitespace(z)
    ensures CleanSlug(Some(x + " " + y + " " + z)) == Some(x + "-" + y + " " + z)
  {
    var tail := y + " " + z;
    assert tail[0] == y[0] && tail[|tail| - 1] == z[|z| - 1];
    assert x + " " + y + " " + z == x + " " + tail;
    assert x + "-" + y + " " + z == x + "-" + tail;
    CleanAtSpace(x, tail);
  }

  lemma CleanSecondOfTwoRuns(x: string, y: string, z: string)
    requires x != [] && y != [] && z != []
    requires NoWhitespace(x) && NoWhitespace(y) && NoWhitespace(z)
    ensures CleanSlug(Some(x + "-" + y + " " + z)) == Some(x + "-" + y + "-" + z)
  {
    var head := x + "-" + y;
    assert NoWhitespace(head) by {
      assert forall k :: 0 <= k < |x| ==> head[k] == x[k];
      assert forall k :: 0 <= k < |y| ==> head[|x| + 1 + k] == y[k];
    }
    CleanAtSpace(head, z);
  }

  /** `post.tags = post.tags.join(',')`. */
  function Serialize(d: Draft): Post {
    Post(d.blog, d.state, d.caption, d.kind, d.externalUrl, Join(",", d.tags), d.slug)
  }

  /** The composed post: published to the chosen blog, carrying the caption answer
      when there is one and the fragment's caption (or the empty text) otherwise, the
      fragment's type, link and cleaned slug, and the comma join of the tags taken
      AFTER the blog's tag was put in front. */
  function Compose(blog: string, f: Fragment, postCaption: string): (p: Post)
    ensures p.blog == blog && p.state == "published"
    ensures p.caption == if postCaption != "" then postCaption else f.caption.GetOr("")
    ensures p.kind == f.kind && p.externalUrl == f.externalUrl
    ensures blog in BlogTagTable ==> p.tags == Join(",", [BlogTagTable[blog]] + f.tags)
    ensures blog !in BlogTagTable ==> p.tags == Join(",", f.tags)
    ensures p.slug == CleanSlug(f.slug)
  {
    var d := OverrideCaption(Extend(blog, f), postCaption);
    Serialize(d.(tags := InjectBlogTag(blog, d.tags), slug := CleanSlug(d.slug)))
  }

  /** The script's composition step, field by field as it reassigns them. */
  method ComposePost(blog: string, audioPost: Fragment, postCaption: string) returns (post: Post)
    ensures post == Compose(blog, audioPost, postCaption)
  {
    var draft := Extend(blog, audioPost);
    if postCaption != "" {
      draft := draft.(caption := postCaption);
    }
    if blog == "onesongmayhem" {
      draft := draft.(tags := ["1 song mayhem"] + draft.tags);
    }
    if blog == "listhype" {
      draft := draft.(tags := ["listhype"] + draft.tags);
    }
    assert draft.tags == InjectBlogTag(blog, audioPost.tags);
    if draft.slug.Some? && draft.slug.value != "" {
      draft := draft.(slug := Some(ReplaceFirstWhitespaceRun(Trim(draft.slug.value), "-")));
    }
    assert draft.slug == CleanSlug(audioPost.slug);
    post := Serialize(draft);
  }

  /** The serialised tags hold one comma between neighbouring tags beside the commas
      inside the tags, and splitting them at the commas gives back the tag list when
      no tag holds a comma. */
  lemma ComposedTagsSplit(blog: string, f: Fragment, postCaption: string)
    requires InjectBlogTag(blog, f.tags) != []
    ensures Count(Compose(blog, f, postCaption).tags, ',') ==
      |InjectBlogTag(blog, f.tags)| - 1 + CountAll(InjectBlogTag(blog, f.tags), ',')
    ensures (forall k :: 0 <= k < |f.tags| ==> ',' !in f.tags[k]) ==>
      Split(Compose(blog, f, postCaption).tags, ',') == InjectBlogTag(blog, f.tags)
  {
    var tags := InjectBlogTag(blog, f.tags);
    assert Compose(blog, f, postCaption).tags == Join([','], tags);
    JoinCount(',', tags);
    if forall k :: 0 <= k < |f.tags| ==> ',' !in f.tags[k] {
      InjectedTagsCommaFree(blog, f.tags);
      SplitJoin(',', tags);
    }
  }

  /** The blog tags hold no comma, so tag injection keeps a comma-free tag list
      comma-free. */
  lemma InjectedTagsCommaFree(blog: string, tags: seq<string>)
    requires forall k :: 0 <= k < |tags| ==> ',' !in tags[k]
    ensures forall k :: 0 <= k < |InjectBlogTag(blog, tags)| ==> ',' !in InjectBlogTag(blog, tags)[k]
  {
    var r := InjectBlogTag(blog, tags);
    if blog in BlogTagTable {
      assert ',' !in BlogTagTable[blog];
      assert forall k :: 1 <= k < |r| ==> r[k] == tags[k - 1];
    }
  }
}
