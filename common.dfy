/** Small value types shared by every module of the model. */
module Common {

  datatype Option<+T> = None | Some(value: T)

  /** The verdict of a validation step: either it passes or it raises with one message. */
  datatype Outcome = Ok | Invalid(msg: string)

  /** A value, or the message of the exception raised instead. */
  datatype Result<+T> = Success(value: T) | Failure(msg: string)

  /** Runs `first`; only when it passes does `second` decide. */
  function AndThen(first: Outcome, second: Outcome): (r: Outcome)
    ensures r.Ok? <==> first.Ok? && second.Ok?
    ensures first.Invalid? ==> r == first
  {
    if first.Invalid? then first else second
  }

  /** ASCII lower-casing of one character. */
  function LowerChar(c: char): (r: char)
    ensures 'A' <= c <= 'Z' ==> r != c && 'a' <= r <= 'z'
    ensures !('A' <= c <= 'Z') ==> r == c
  {
    if 'A' <= c <= 'Z' then (c as int - 'A' as int + 'a' as int) as char else c
  }

  /** ASCII lower-casing of a string, character by character. */
  function Lower(s: string): (r: string)
    ensures |r| == |s|
    ensures forall i :: 0 <= i < |s| ==> r[i] == LowerChar(s[i])
  {
    if s == [] then [] else [LowerChar(s[0])] + Lower(s[1..])
  }

  /** A string equals its lower-case form exactly when it holds no upper-case letter. */
  lemma LowerFixedIff(s: string)
    ensures Lower(s) == s <==> forall i :: 0 <= i < |s| ==> !('A' <= s[i] <= 'Z')
  {
    if Lower(s) == s {
      forall i | 0 <= i < |s| ensures !('A' <= s[i] <= 'Z') {
        assert Lower(s)[i] == LowerChar(s[i]);
      }
    }
  }
}
