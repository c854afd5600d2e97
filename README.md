# Comment state of a feed post

This project models the one stateful piece of a small React feed app: the
comment box of the `Post` component (`src/components/Post.tsx`). Every mounted
post owns three pieces of state:

- `comments`, the ordered list of comment strings, seeded with the placeholder
  "Post Muito Bacana hein?!";
- `newCommentText`, the draft bound to the comment textarea, initially empty;
- the textarea's custom validity message, which the handlers set with
  `setCustomValidity` ("" means no custom error).

Four handlers change that state: submitting the form appends the draft and
clears it, typing replaces the draft and clears the message, the `invalid`
event sets the message "Este campo é obrigatório!", and deleting a comment
filters out every comment equal to it. The submit button is disabled while the
draft is empty.

The model has two modules:

- `CommentList` (`comment_list.dfy`) holds the pure values the handlers compute:
  the spread-append `[...comments, text]` as `Append` and the filter
  `comments.filter(c => c !== target)` as `Without`. Beside them is an
  independent definition of "subsequence" and lemmas about deletion: counts,
  order, idempotence, the no-op case, and the fact that `Without` is the only
  subsequence that drops exactly the matching comments.
- `PostComponent` (`post.dfy`) holds the class `Post`, whose fields are the
  three pieces of state and whose methods are the handlers. Each method states
  the whole new state in terms of the old one. Each method also keeps the
  invariant `Valid()`: the message is "" or the required-field text, and it is
  present only while the draft is empty. `SubmitForm` models the browser's
  handling of the form. An invalid textarea gets the `invalid` event. A valid
  one gets the `submit` event. Three client methods (`SubmitScenario`,
  `DeleteScenario`, `IndependentPosts`, the second with the helper
  `PostWithRepeatedComment`) show what callers can conclude from
  the contracts.

Two details follow the code closely:

- The submit handler has no empty-draft check of its own.
  `HandleCreateNewComment` appends whatever the draft holds. The guard comes
  from the `required` attribute and the disabled button, and `SubmitForm`
  models it.
- The validation message is a string, with "" meaning "no error", as in the
  `setCustomValidity` calls.

## Model

| member | source | states |
|---|---|---|
| `CommentList.Append` | src/components/Post.tsx:71 | the new list is one longer, ends with the draft, keeps every earlier comment in place, and gains exactly one occurrence of the draft |
| `CommentList.Without` | src/components/Post.tsx:94-97 | no comment equal to the target survives; every other value keeps its number of occurrences; the length drops by the number of occurrences of the target |
| `CommentList.WithoutIsSubsequence` | src/components/Post.tsx:94-97 | the comments left after a delete keep their original relative order |
| `CommentList.WithoutAbsent` | src/components/Post.tsx:94-99 | deleting a value that is not in the list leaves the list unchanged |
| `CommentList.WithoutIdempotent` | src/components/Post.tsx:94-99 | deleting the same value a second time changes nothing |
| `CommentList.SubsequenceAvoidingBound` | src/components/Post.tsx:94-97 | no order-preserving selection of the comments that avoids the target is longer than the filtered list |
| `CommentList.WithoutUnique` | src/components/Post.tsx:94-97 | the filtered list is the only order-preserving selection that contains no copy of the target and drops nothing else |
| `CommentList.WithoutConcat` | src/components/Post.tsx:94-97 | the filter treats each comment on its own, so filtering a concatenation filters each part |
| `CommentList.WithoutAppend` | src/components/Post.tsx:64-99 | deleting right after a submit removes the new comment (with all earlier copies) exactly when it equals the target; otherwise it stays last |
| `PostComponent.Post.constructor` | src/components/Post.tsx:48-49 | a new post has exactly the placeholder comment, an empty draft and no validation message |
| `PostComponent.Post.FormIsValid` | src/components/Post.tsx:102-155 | in every reachable state the `required` textarea passes validation exactly when the draft is non-empty, which is exactly when `IsNewCommentEmpty` (`isNewCommentEmpty`, which disables the submit button) is false |
| `PostComponent.Post.HandleCreateNewComment` | src/components/Post.tsx:64-77 | the list becomes the old list followed by the draft, the draft becomes "", and the message is untouched |
| `PostComponent.Post.HandleNewCommentChange` | src/components/Post.tsx:79-82 | the draft becomes exactly the typed text, the message is cleared, and the comments are untouched |
| `PostComponent.Post.HandleNewCommentInvalid` | src/components/Post.tsx:84-86 | the message becomes "Este campo é obrigatório!", and neither the comments nor the draft change |
| `PostComponent.Post.DeleteComment` | src/components/Post.tsx:88-100 | the list becomes its filter by the target, and the draft and message are untouched |
| `PostComponent.Post.SubmitForm` | src/components/Post.tsx:141-157 | a comment is appended exactly when the draft is non-empty; then it goes last, the draft is cleared and the message stays empty; otherwise the comments and draft stay as they were and the required-field message is set |

## Left out

- Date formatting with `date-fns` (`format`, `formatDistanceToNow`, the pt-BR locale): these are library calls that depend on the clock.
- The JSX markup: the post header, the content blocks and the rendering of the comment list. This includes React's `key={comment}`, which repeats for duplicate comments; that is a rendering concern, not a property of the list.
- `event.preventDefault()`, `setCustomValidity` as a DOM call and React's scheduling of `useState` updates. The message is a plain field, and each handler's updates take effect together, before the next event.
- The `Comment` component is not part of this model. `DeleteComment` accepts any string as the target.
- `src/App.tsx`, `Avatar`, `Header` and `Sidebar` hold static seed data and stateless markup, with no behaviour to state.
- PostComponent.Post.HandleNewCommentInvalid: requires that the textarea fails validation, because the browser fires `invalid` only then. The handler itself would set the message on any draft.
