/**
 * `clean_post_on_tags_change`, the `m2m_changed` receiver that bounds the number of tags of a
 * post. It is told the action, and for `pre_add` / `pre_remove` the set of tag ids involved;
 * it reads the post's current tag count and its publication state.
 */
module PostSignals {
  import opened Common

  /** The `action` argument of `m2m_changed`. */
  datatype M2MAction = PreAdd | PostAdd | PreRemove | PostRemove | PreClear | PostClear

  const MaxTagCount := 5
  const MinTagCount := 1

  const TooManyTagsMessage := "A post must have at most 5 tag(s)."
  const TooFewTagsMessage := "A published post must have at least 1 tag(s)."

  /**
   * The receiver for a post with `current` tags, `pkSetSize` ids in `pk_set`, published or not.
   * An `Invalid` result is the ValidationError it raises before the change is written.
   */
  function CleanPostOnTagsChange(action: M2MAction, current: nat, pkSetSize: nat, published: bool): (r: Outcome)
    ensures action == PreAdd ==> (r.Invalid? <==> current + pkSetSize > MaxTagCount)
    ensures action == PreRemove ==> (r.Invalid? <==> published && current - pkSetSize < MinTagCount)
    ensures action != PreAdd && action != PreRemove ==> r.Ok?
    ensures r.Invalid? ==> r.msg == (if action == PreAdd then TooManyTagsMessage else TooFewTagsMessage)
  {
    match action
    case PreAdd =>
      if current + pkSetSize > MaxTagCount then Invalid(TooManyTagsMessage) else Ok
    case PreRemove =>
      if !published then Ok
      else if current - pkSetSize < MinTagCount then Invalid(TooFewTagsMessage)
      else Ok
    case _ => Ok
  }

  /** The upper bound does not depend on publication. */
  lemma UpperBoundIgnoresPublication(current: nat, pkSetSize: nat)
    ensures CleanPostOnTagsChange(PreAdd, current, pkSetSize, true) == CleanPostOnTagsChange(PreAdd, current, pkSetSize, false)
  {
  }

  /** Clearing is never refused, published or not, whatever the count. */
  lemma ClearUnbounded(current: nat, published: bool)
    ensures CleanPostOnTagsChange(PreClear, current, 0, published) == Ok
  {
  }
}
