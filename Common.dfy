/** Values and searches shared by the knob serialization model. */
module Common {

  /** A reference that may be null (an empty KnobPtr, a missing node): None plays the null. */
  datatype Option<+T> = None | Some(value: T)

  function Min(a: int, b: int): (m: int)
    ensures m <= a && m <= b && (m == a || m == b)
  {
    if a <= b then a else b
  }

  /** The index of the first element of `s` satisfying `p`: the shape of every
      linear scan that stops at its first hit (`break` or an early `return`). */
  function FirstIndex<T>(s: seq<T>, p: T -> bool): (r: Option<nat>)
    ensures r.Some? ==> r.value < |s| && p(s[r.value]) && forall j :: 0 <= j < r.value ==> !p(s[j])
    ensures r.None? ==> forall j :: 0 <= j < |s| ==> !p(s[j])
    decreases |s|
  {
    if s == [] then None
    else if p(s[0]) then Some(0)
    else match FirstIndex(s[1..], p)
      case None => None
      case Some(i) => Some(i + 1)
  }

  /** A scan that has checked every element before `i` and found `i` to hit has found the first hit. */
  lemma FirstIndexAt<T>(s: seq<T>, p: T -> bool, i: nat)
    requires i < |s| && p(s[i])
    requires forall j :: 0 <= j < i ==> !p(s[j])
    ensures FirstIndex(s, p) == Some(i)
  {
  }

  /** Scanning a concatenation: the first hit lies in the front part if there is one there. */
  lemma {:induction false} FirstIndexAppend<T>(a: seq<T>, b: seq<T>, p: T -> bool)
    ensures FirstIndex(a + b, p) ==
      match FirstIndex(a, p)
      case Some(i) => Some(i)
      case None => match FirstIndex(b, p)
        case None => None
        case Some(j) => Some(|a| + j)
  {
    var ab := a + b;
    match FirstIndex(a, p)
    case Some(i) =>
      forall j | 0 <= j < i ensures !p(ab[j]) { assert ab[j] == a[j]; }
      assert ab[i] == a[i];
      FirstIndexAt(ab, p, i);
    case None =>
      match FirstIndex(b, p)
      case None =>
        forall j | 0 <= j < |ab| ensures !p(ab[j]) {
          if j < |a| { assert ab[j] == a[j]; } else { assert ab[j] == b[j - |a|]; }
        }
      case Some(k) =>
        forall j | 0 <= j < |a| + k ensures !p(ab[j]) {
          if j < |a| { assert ab[j] == a[j]; } else { assert ab[j] == b[j - |a|]; }
        }
        assert ab[|a| + k] == b[k];
        FirstIndexAt(ab, p, |a| + k);
  }
}
