/** Small shared notions: a value that may be absent, as null pointers are, and lists without repetitions. */
module Options {
  datatype Maybe<T> = Nothing | Just(value: T)

  ghost predicate NoRepeats<T>(s: seq<T>) { forall i, j :: 0 <= i < j < |s| ==> s[i] != s[j] }

  /** The next entry of such a list has not occurred before. */
  lemma NextIsNew<T>(s: seq<T>, i: nat)
    requires i < |s| && NoRepeats(s)
    ensures s[i] !in s[..i] && s[i] in s && s[..i + 1] == s[..i] + [s[i]]
  {}
}
