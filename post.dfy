/**
 The state of one `Post` component: its comment list, the draft bound to the
 comment textarea, and the custom validity message the handlers set on that
 textarea. Each handler runs to completion in response to one browser event.
 */
module PostComponent {
  import opened CommentList

  class Post {
    /** The comments shown under the post, oldest first. */
    var comments: seq<Comment>
    /** The text currently in the comment textarea. */
    var newCommentText: string
    /** The textarea's custom validity message; "" means no custom error. */
    var customValidity: string

    /**
     The handlers only ever store "" or the required-field message, and the
     message is only present while the draft is empty: it is set on an empty
     draft and cleared by every change of the draft.
     */
    ghost predicate Valid()
      reads this
    {
      (customValidity == "" || customValidity == RequiredMessage) &&
      (customValidity != "" ==> newCommentText == "")
    }

    /** A freshly mounted post: one placeholder comment and an empty draft. */
    constructor ()
      ensures Valid()
      ensures comments == [Placeholder]
      ensures newCommentText == "" && customValidity == ""
    {
      comments := [Placeholder];
      newCommentText := "";
      customValidity := "";
    }

    /** `isNewCommentEmpty`: the submit button is disabled exactly when this holds. */
    predicate IsNewCommentEmpty()
      reads this
    {
      |newCommentText| == 0
    }

    /**
     The browser's constraint check on the `required` textarea: it needs a
     value and no custom error. In every reachable state this agrees with the
     submit button being enabled.
     */
    predicate FormIsValid()
      reads this
      requires Valid()
      ensures FormIsValid() <==> !IsNewCommentEmpty()
    {
      |newCommentText| > 0 && customValidity == ""
    }

    /**
     `handleCreateNewComment`: appends the draft, whatever it is, and clears
     it. The handler has no guard of its own; `SubmitForm` is the path on
     which the browser calls it.
     */
    method HandleCreateNewComment()
      requires Valid()
      modifies this
      ensures Valid()
      ensures comments == Append(old(comments), old(newCommentText))
      ensures newCommentText == ""
      ensures customValidity == old(customValidity)
    {
      comments := Append(comments, newCommentText);
      newCommentText := "";
    }

    /** `handleNewCommentChange`: clears the custom error and takes the new text. */
    method HandleNewCommentChange(text: string)
      requires Valid()
      modifies this
      ensures Valid()
      ensures newCommentText == text && customValidity == ""
      ensures comments == old(comments)
    {
      customValidity := "";
      newCommentText := text;
    }

    /**
     `handleNewCommentInvalid`: sets the required-field message. The browser
     fires the `invalid` event only on a textarea that fails its constraints.
     */
    method HandleNewCommentInvalid()
      requires Valid() && !FormIsValid()
      modifies this
      ensures Valid()
      ensures customValidity == RequiredMessage
      ensures comments == old(comments) && newCommentText == old(newCommentText)
    {
      customValidity := RequiredMessage;
    }

    /** `deleteComment`: keeps exactly the comments that differ from `target`. */
    method DeleteComment(target: Comment)
      requires Valid()
      modifies this
      ensures Valid()
      ensures comments == Without(old(comments), target)
      ensures newCommentText == old(newCommentText) && customValidity == old(customValidity)
    {
      comments := Without(comments, target);
    }

    /**
     Submitting the comment form: an invalid textarea makes the browser fire
     `invalid` instead of `submit`, so an empty draft is never appended; a
     non-empty one is appended last and the draft is cleared.
     */
    method SubmitForm() returns (submitted: bool)
      requires Valid()
      modifies this
      ensures Valid()
      ensures submitted <==> |old(newCommentText)| > 0
      ensures submitted ==>
        comments == Append(old(comments), old(newCommentText)) &&
        newCommentText == "" && customValidity == ""
      ensures !submitted ==>
        comments == old(comments) && newCommentText == old(newCommentText) &&
        customValidity == RequiredMessage
    {
      if FormIsValid() {
        HandleCreateNewComment();
        submitted := true;
      } else {
        HandleNewCommentInvalid();
        submitted := false;
      }
    }
  }

  /** An empty draft is refused with the message; a typed one is appended. */
  method SubmitScenario()
  {
    var post := new Post();
    assert post.IsNewCommentEmpty();

    var submitted := post.SubmitForm();
    assert !submitted && post.comments == [Placeholder];
    assert post.customValidity == RequiredMessage;

    post.HandleNewCommentChange("Legal!");
    assert !post.IsNewCommentEmpty() && post.customValidity == "";
    submitted := post.SubmitForm();
    assert submitted && post.comments == [Placeholder, "Legal!"];
    assert post.IsNewCommentEmpty();
  }

  /** Brings a fresh post to the comment list ["a", "b", "a"] through its handlers. */
  method PostWithRepeatedComment() returns (post: Post)
    ensures fresh(post) && post.Valid()
    ensures post.comments == ["a", "b", "a"]
  {
    post := new Post();
    post.HandleNewCommentChange("a");
    var submitted := post.SubmitForm();
    post.HandleNewCommentChange("b");
    submitted := post.SubmitForm();
    post.HandleNewCommentChange("a");
    submitted := post.SubmitForm();
    assert post.comments == [Placeholder] + ["a", "b", "a"];
    WithoutConcat([Placeholder], ["a", "b", "a"], Placeholder);
    WithoutAbsent(["a", "b", "a"], Placeholder);
    post.DeleteComment(Placeholder);
  }

  /** Deleting "a" from ["a", "b", "a"] removes both copies; deleting it again changes nothing. */
  method DeleteScenario()
  {
    var post := PostWithRepeatedComment();
    assert Without(["a", "b", "a"], "a") == ["b"];
    post.DeleteComment("a");
    assert post.comments == ["b"];
    post.DeleteComment("a");
    assert post.comments == ["b"];
  }

  /** Two mounted posts keep separate state: changing one leaves the other as it was. */
  method IndependentPosts()
  {
    var first := new Post();
    var second := new Post();
    first.HandleNewCommentChange("Boa!");
    var submitted := first.SubmitForm();
    first.DeleteComment(Placeholder);
    assert first.comments == ["Boa!"];
    assert second.comments == [Placeholder] && second.newCommentText == "";
  }
}
