/** The confirmation gate: what happens once the user has answered the final
    yes/no question about the composed post. */
module Gate {
  import opened Resolver
  import opened Composer

  /** `Publish` is the one call that creates an audio post on the blog; `Skip` is
      the silent no-op for a confirmed post of another type; `Cancel` prints the
      cancellation message. */
  datatype Decision = Publish(blog: string, post: Post) | Skip | Cancel

  /** The post is published, to its own blog and as composed, exactly when the user
      confirmed and the post is of type `audio`; the cancellation message comes
      exactly when the user did not confirm. */
  function Decide(confirmed: bool, post: Post): (d: Decision)
    ensures d.Publish? <==> confirmed && post.kind == "audio"
    ensures d.Cancel? <==> !confirmed
    ensures d.Publish? ==> d.blog == post.blog && d.post == post
  {
    if confirmed then
      if post.kind == AudioKind then Publish(post.blog, post) else Skip
    else Cancel
  }

  /** Every post composed from a builder's fragment is published to the chosen blog
      once confirmed, and never without confirmation. */
  lemma BuiltPostsPublishOnConfirm(blog: string, f: Fragment, m: Metadata, postCaption: string, confirmed: bool)
    requires IsBuilt(f, m)
    ensures confirmed ==>
      Decide(confirmed, Compose(blog, f, postCaption)) == Publish(blog, Compose(blog, f, postCaption))
    ensures !confirmed ==> Decide(confirmed, Compose(blog, f, postCaption)) == Cancel
  {
  }
}
