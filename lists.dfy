/** Facts about lists without repeated elements, shared by the list-keeping classes. */
module Lists {
  /** No element occurs twice in the list. */
  predicate Distinct<T(==)>(s: seq<T>) {
    forall i, j :: 0 <= i < j < |s| ==> s[i] != s[j]
  }

  /** In a list without repetitions, element k does not occur before position k. */
  lemma DistinctAt<T>(s: seq<T>, k: nat)
    requires Distinct(s) && k < |s|
    ensures s[k] !in s[..k]
  {
    assert forall i :: 0 <= i < k ==> s[..k][i] == s[i];
  }

  /** In a list without repetitions, element k does not occur after position k either. */
  lemma DistinctAfter<T>(s: seq<T>, k: nat)
    requires Distinct(s) && k < |s|
    ensures s[k] !in s[k + 1..]
  {
    var t := s[k + 1..];
    assert forall i :: 0 <= i < |t| ==> t[i] == s[k + 1 + i];
  }

  /** Dropping the first element keeps a list free of repetitions, and that element is not in the rest. */
  lemma DistinctTail<T>(s: seq<T>)
    requires Distinct(s) && |s| > 0
    ensures s[0] !in s[1..] && Distinct(s[1..])
  {
    var t := s[1..];
    assert forall i :: 0 <= i < |t| ==> t[i] == s[i + 1];
  }

  /** Appending an element the list does not hold keeps it free of repetitions. */
  lemma DistinctAppend<T>(s: seq<T>, x: T)
    requires Distinct(s) && x !in s
    ensures Distinct(s + [x])
  {
    var t := s + [x];
    assert forall i :: 0 <= i < |s| ==> t[i] == s[i];
  }

  /** Removing one element keeps a list free of repetitions. */
  lemma RemoveKeepsDistinct<T>(s: seq<T>, i: nat)
    requires Distinct(s) && i < |s|
    ensures Distinct(s[..i] + s[i + 1..])
  {
    var r := s[..i] + s[i + 1..];
    forall a, b | 0 <= a < b < |r|
      ensures r[a] != r[b]
    {
      var a' := if a < i then a else a + 1;
      var b' := if b < i then b else b + 1;
      assert r[a] == s[a'] && r[b] == s[b'];
    }
  }
}
