/** Small shared vocabulary: optional values, results that carry an error,
    and the subsequence relation used for filtered views of a list. */
module Common {

  datatype Option<+T> = None | Some(value: T)

  /** A success value or the exception the operation raises. */
  datatype Result<+T, +E> = Success(value: T) | Failure(error: E)

  /** `sub` can be obtained from `s` by deleting elements, keeping the order
      of the rest: each element of `s` is either kept (it then heads `sub`)
      or dropped. */
  predicate IsSubsequence<T(==)>(sub: seq<T>, s: seq<T>)
    decreases |s|
  {
    if s == [] then sub == []
    else (sub != [] && sub[0] == s[0] && IsSubsequence(sub[1..], s[1..]))
         || IsSubsequence(sub, s[1..])
  }

  /** Appending an element to the whole keeps a subsequence. */
  lemma {:induction false} SubsequenceExtend<T>(sub: seq<T>, s: seq<T>, x: T)
    requires IsSubsequence(sub, s)
    ensures IsSubsequence(sub, s + [x])
    decreases |s|
  {
    if s == [] {
      assert (s + [x])[1..] == [];
    } else {
      assert (s + [x])[1..] == s[1..] + [x];
      if sub != [] && sub[0] == s[0] && IsSubsequence(sub[1..], s[1..]) {
        SubsequenceExtend(sub[1..], s[1..], x);
      } else {
        SubsequenceExtend(sub, s[1..], x);
      }
    }
  }

  /** Appending the same element to both keeps a subsequence. */
  lemma {:induction false} SubsequenceExtendBoth<T>(sub: seq<T>, s: seq<T>, x: T)
    requires IsSubsequence(sub, s)
    ensures IsSubsequence(sub + [x], s + [x])
    decreases |s|
  {
    if s == [] {
      assert sub + [x] == [x] && (s + [x])[1..] == [] && (sub + [x])[1..] == [];
    } else {
      assert (s + [x])[1..] == s[1..] + [x];
      if sub != [] && sub[0] == s[0] && IsSubsequence(sub[1..], s[1..]) {
        SubsequenceExtendBoth(sub[1..], s[1..], x);
        assert (sub + [x])[1..] == sub[1..] + [x];
      } else {
        SubsequenceExtendBoth(sub, s[1..], x);
      }
    }
  }

  /** Every element of a subsequence is an element of the whole. */
  lemma {:induction false} SubsequenceElements<T>(sub: seq<T>, s: seq<T>)
    requires IsSubsequence(sub, s)
    ensures forall x :: x in sub ==> x in s
    decreases |s|
  {
    if s != [] {
      if sub != [] && sub[0] == s[0] && IsSubsequence(sub[1..], s[1..]) {
        SubsequenceElements(sub[1..], s[1..]);
        assert sub == [sub[0]] + sub[1..];
      } else {
        SubsequenceElements(sub, s[1..]);
      }
    }
  }
}
