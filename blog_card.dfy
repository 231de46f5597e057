/** One post in the list (`BlogCard`): the author's display name looked up
    by email, the ownership flag, the owner's Edit and Delete buttons, and
    the content preview. */
module BlogCard {
  import opened Common

  /** Characters of content shown in the preview. */
  const PREVIEW_LENGTH: nat := 150

  /** The preview text `{content.slice(0, 150)}...`: the first 150
      characters, or all of a shorter content, followed by "..." whether or
      not anything was cut. */
  function Preview(content: string): (r: string)
    ensures |r| == (if |content| < PREVIEW_LENGTH then |content| else PREVIEW_LENGTH) + 3
    ensures r[..|r| - 3] == content[..|r| - 3]
    ensures r[|r| - 3..] == "..."
  {
    (if |content| <= PREVIEW_LENGTH then content else content[..PREVIEW_LENGTH]) + "..."
  }

  /** A row of the `users` table as selected by the card. */
  datatype UserRow = UserRow(full_name: string, email: Option<string>)

  /** `{ data, error }` of the `.single()` lookup. */
  datatype LookupReply = LookupReply(error: Option<string>, data: Option<UserRow>)

  /** `isOwner`: a viewer is signed in and the looked-up author email is
      the viewer's. */
  function Owns(currentUserEmail: Option<string>, authorEmail: Option<string>): (owned: bool)
    ensures owned <==> currentUserEmail.Some? && authorEmail.Some?
                       && authorEmail.value == currentUserEmail.value
  {
    currentUserEmail.Some? && authorEmail == currentUserEmail
  }

  /** The buttons a card renders, each with the id its click passes. */
  datatype CardControls = CardControls(edit: Option<string>, delete: Option<string>)

  class BlogCardView {
    const blog: Blog
    const currentUserEmail: Option<string>
    /** Whether the parent supplied `onEdit` and `onDelete`. */
    const hasOnEdit: bool
    const hasOnDelete: bool
    var authorName: string
    var authorEmail: Option<string>
    /** The emails looked up in the `users` table, oldest first. */
    ghost var lookups: seq<string>

    /** Before the lookup resolves the name is a placeholder, no author
        email is known and so nobody owns the card. */
    constructor (blog: Blog, currentUserEmail: Option<string>, hasOnEdit: bool, hasOnDelete: bool)
      ensures this.blog == blog && this.currentUserEmail == currentUserEmail
      ensures this.hasOnEdit == hasOnEdit && this.hasOnDelete == hasOnDelete
      ensures authorName == "Loading..." && authorEmail == None && lookups == []
      ensures !IsOwner() && Controls() == CardControls(None, None)
    {
      this.blog := blog;
      this.currentUserEmail := currentUserEmail;
      this.hasOnEdit := hasOnEdit;
      this.hasOnDelete := hasOnDelete;
      authorName := "Loading...";
      authorEmail := None;
      lookups := [];
    }

    /** A card owned by the viewer has a known author email, and it is the
        viewer's. */
    function IsOwner(): (owned: bool)
      reads this
      ensures owned ==> authorEmail.Some? && currentUserEmail.Some?
      ensures owned ==> authorEmail.value == currentUserEmail.value
    {
      Owns(currentUserEmail, authorEmail)
    }

    /** Edit and Delete appear only for the owner, each only when its
        callback was supplied, and each passes the post's id. */
    function Controls(): (c: CardControls)
      reads this
      ensures c.edit.Some? <==> IsOwner() && hasOnEdit
      ensures c.delete.Some? <==> IsOwner() && hasOnDelete
      ensures c.edit.Some? ==> c.edit.value == blog.id
      ensures c.delete.Some? ==> c.delete.value == blog.id
    {
      if IsOwner() && (hasOnEdit || hasOnDelete) then
        CardControls(if hasOnEdit then Some(blog.id) else None,
                     if hasOnDelete then Some(blog.id) else None)
      else
        CardControls(None, None)
    }

    /** `fetchAuthor`. A post with an empty or absent author email gets
        "Unknown author" without a lookup; otherwise its email is looked up,
        a failed or empty lookup gives "Unknown author", and a found row
        gives its full name and its email. Ownership then holds only when
        the row found has the viewer's email. */
    method FetchAuthor(reply: LookupReply)
      modifies this
      ensures Falsy(blog.author_email) ==> lookups == old(lookups)
      ensures Falsy(blog.author_email) ==> authorName == "Unknown author" && authorEmail == None
      ensures !Falsy(blog.author_email) ==> lookups == old(lookups) + [blog.author_email.value]
      ensures !Falsy(blog.author_email) && (reply.error.Some? || reply.data.None?) ==>
                authorName == "Unknown author" && authorEmail == None
      ensures !Falsy(blog.author_email) && reply.error.None? && reply.data.Some? ==>
                authorName == reply.data.value.full_name && authorEmail == reply.data.value.email
      ensures IsOwner() <==>
                && !Falsy(blog.author_email) && reply.error.None? && reply.data.Some?
                && currentUserEmail.Some? && reply.data.value.email == currentUserEmail
    {
      if Falsy(blog.author_email) {
        authorName := "Unknown author";
        authorEmail := None;
        return;
      }
      lookups := lookups + [blog.author_email.value];
      if reply.error.Some? || reply.data.None? {
        authorName := "Unknown author";
        authorEmail := None;
        return;
      }
      authorName := reply.data.value.full_name;
      authorEmail := reply.data.value.email;
    }
  }
}
