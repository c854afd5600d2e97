/**
 The pure part of a post's comment state: the values the handlers of the
 `Post` component compute before they hand them to React's state setters.
 A comment is a plain string with no identity beyond its value, so two equal
 comments are indistinguishable.
 */
module CommentList {

  type Comment = string

  /** The comment every post starts with. */
  const Placeholder: Comment := "Post Muito Bacana hein?!"

  /** The message the textarea shows when an empty comment is submitted. */
  const RequiredMessage: string := "Este campo é obrigatório!"

  /** `[...comments, text]`: the new list after a submit. */
  function Append(comments: seq<Comment>, text: Comment): (r: seq<Comment>)
    ensures |r| == |comments| + 1
    ensures r[|comments|] == text
    ensures r[..|comments|] == comments
    ensures multiset(r) == multiset(comments) + multiset{text}
  {
    comments + [text]
  }

  /**
   `comments.filter(c => c !== target)`: every comment equal to `target` is
   dropped, the others keep their order and their number of occurrences.
   */
  function Without(comments: seq<Comment>, target: Comment): (r: seq<Comment>)
    ensures target !in r
    ensures multiset(r) == multiset(comments)[target := 0]
    ensures |r| == |comments| - multiset(comments)[target]
  {
    if comments == [] then []
    else
      assert comments == [comments[0]] + comments[1..];
      if comments[0] == target then Without(comments[1..], target)
      else [comments[0]] + Without(comments[1..], target)
  }

  /**
   `sub` can be obtained from `s` by deleting elements: the elements of `sub`
   occur in `s` in the same relative order.
   */
  predicate IsSubsequence(sub: seq<Comment>, s: seq<Comment>)
    decreases |s|
  {
    sub == [] ||
    (s != [] &&
     ((sub[0] == s[0] && IsSubsequence(sub[1..], s[1..])) || IsSubsequence(sub, s[1..])))
  }

  /** Deleting keeps the surviving comments in their original relative order. */
  lemma {:induction false} WithoutIsSubsequence(comments: seq<Comment>, target: Comment)
    ensures IsSubsequence(Without(comments, target), comments)
  {
    if comments != [] {
      WithoutIsSubsequence(comments[1..], target);
    }
  }

  /** Deleting a value that is not in the list leaves the list as it was. */
  lemma {:induction false} WithoutAbsent(comments: seq<Comment>, target: Comment)
    requires target !in comments
    ensures Without(comments, target) == comments
  {
    if comments != [] {
      WithoutAbsent(comments[1..], target);
    }
  }

  /** Deleting the same value twice is the same as deleting it once. */
  lemma {:induction false} WithoutIdempotent(comments: seq<Comment>, target: Comment)
    ensures Without(Without(comments, target), target) == Without(comments, target)
  {
    WithoutAbsent(Without(comments, target), target);
  }

  /** No subsequence of `s` that avoids `target` is longer than `Without(s, target)`. */
  lemma {:induction false} SubsequenceAvoidingBound(sub: seq<Comment>, s: seq<Comment>, target: Comment)
    requires IsSubsequence(sub, s)
    requires target !in sub
    ensures |sub| <= |s| - multiset(s)[target]
  {
    if sub == [] {
      assert |multiset(s)| == |s|;
      assert multiset(s)[target] <= |multiset(s)|;
    } else {
      assert s == [s[0]] + s[1..];
      if sub[0] == s[0] && IsSubsequence(sub[1..], s[1..]) {
        SubsequenceAvoidingBound(sub[1..], s[1..], target);
      } else {
        SubsequenceAvoidingBound(sub, s[1..], target);
      }
    }
  }

  /**
   Reference characterisation of the filter: `Without(s, target)` is the one
   subsequence of `s` that contains no `target` and drops nothing else.
   */
  lemma {:induction false} WithoutUnique(sub: seq<Comment>, s: seq<Comment>, target: Comment)
    requires IsSubsequence(sub, s)
    requires target !in sub
    requires |sub| == |s| - multiset(s)[target]
    ensures sub == Without(s, target)
  {
    if s == [] {
    } else if sub == [] {
    } else {
      assert s == [s[0]] + s[1..];
      if sub[0] == s[0] && IsSubsequence(sub[1..], s[1..]) {
        WithoutUnique(sub[1..], s[1..], target);
        assert sub == [sub[0]] + sub[1..];
      } else if s[0] == target {
        WithoutUnique(sub, s[1..], target);
      } else {
        // sub skips s[0], which it must keep to be long enough
        SubsequenceAvoidingBound(sub, s[1..], target);
        assert false;
      }
    }
  }

  /** The filter works element by element, so it distributes over concatenation. */
  lemma {:induction false} WithoutConcat(a: seq<Comment>, b: seq<Comment>, target: Comment)
    ensures Without(a + b, target) == Without(a, target) + Without(b, target)
  {
    if a == [] {
      assert a + b == b;
    } else {
      assert (a + b)[1..] == a[1..] + b;
      WithoutConcat(a[1..], b, target);
    }
  }

  /**
   Deleting after a submit: a submitted comment equal to the target is removed
   together with every earlier copy; any other submitted comment stays last.
   */
  lemma WithoutAppend(comments: seq<Comment>, text: Comment, target: Comment)
    ensures Without(Append(comments, text), target) ==
            if text == target then Without(comments, target)
            else Append(Without(comments, target), text)
  {
    WithoutConcat(comments, [text], target);
    assert [text][1..] == [];
  }
}
