/** Small shared vocabulary: an optional value and the first position of a character. */
module Common {

  datatype Option<+T> = None | Some(value: T)

  /** The position of the first `d` in `s`, or `|s|`. */
  function IndexOf(s: string, d: char): (k: nat)
    ensures k <= |s|
    ensures forall i :: 0 <= i < k ==> s[i] != d
    ensures k < |s| ==> s[k] == d
  {
    if s == [] || s[0] == d then 0 else 1 + IndexOf(s[1..], d)
  }

  /** `IndexOf` is the first position holding `d`. */
  lemma {:induction false} IndexOfIs(s: string, d: char, k: nat)
    requires k <= |s|
    requires forall i :: 0 <= i < k ==> s[i] != d
    requires k < |s| ==> s[k] == d
    ensures IndexOf(s, d) == k
  {
    if k > 0 {
      IndexOfIs(s[1..], d, k - 1);
    }
  }

}
