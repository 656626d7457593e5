/** Shared vocabulary: optional values and finite lookups into sequences of page numbers. */
module Common {

  datatype Option<+T> = None | Some(value: T)

  /** The element at `i`, or 0 outside the sequence: the file uses page number 0 as "no page". */
  function At(s: seq<nat>, i: int): nat {
    if 0 <= i < |s| then s[i] else 0
  }

  /** `s` with position `k` left out. */
  function Without<T>(s: seq<T>, k: nat): (r: seq<T>)
    requires k < |s|
    ensures |r| == |s| - 1
    ensures forall i :: 0 <= i < |r| ==> r[i] == if i < k then s[i] else s[i + 1]
  {
    s[..k] + s[k + 1..]
  }

  ghost predicate Distinct<T(!new)>(s: seq<T>) {
    forall i, j :: 0 <= i < j < |s| ==> s[i] != s[j]
  }

  lemma WithoutMembers<T(!new)>(s: seq<T>, k: nat, q: T)
    requires k < |s| && Distinct(s)
    ensures q in Without(s, k) <==> q in s && q != s[k]
  {
    if q in s && q != s[k] {
      var j :| 0 <= j < |s| && s[j] == q;
      assert Without(s, k)[if j < k then j else j - 1] == q;
    }
  }

  /** So many times the same. */
  function Times(n: nat, c: nat): nat {
    n * c
  }
}
