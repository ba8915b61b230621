/** Small helpers shared by every part of the model. */
module Common {

  /** An optional value; Python's `None` is `None` here. */
  datatype Option<+T> = None | Some(value: T)

  /** Python's `s[:len(p)] == p` for a prefix `p`: a slice of a shorter string is shorter, so it can only match when `s` is long enough. */
  predicate HasPrefix(s: string, p: string) {
    |p| <= |s| && s[..|p|] == p
  }

  /** No element occurs twice. */
  predicate Distinct<T(==)>(s: seq<T>) {
    forall i, j | 0 <= i < j < |s| :: s[i] != s[j]
  }

  /** Removes `x` from `s`, keeping the order of the other elements (Python's `del d[x]` on an ordered dict's key list). */
  function RemoveId<T(==,!new)>(s: seq<T>, x: T): (r: seq<T>)
    ensures forall y :: y in r <==> y in s && y != x
    ensures Distinct(s) ==> Distinct(r)
    ensures |r| <= |s|
  {
    if s == [] then []
    else if s[0] == x then RemoveId(s[1..], x)
    else
      var rest := RemoveId(s[1..], x);
      assert forall y :: y in [s[0]] + rest <==> y in s && y != x by {
        assert forall y :: y in s <==> y == s[0] || y in s[1..];
      }
      assert Distinct(s) ==> s[0] !in s[1..] && Distinct(s[1..]) by {
        if Distinct(s) {
          forall i, j | 0 <= i < j < |s[1..]| ensures s[1..][i] != s[1..][j] {
            assert s[1..][i] == s[i + 1] && s[1..][j] == s[j + 1];
          }
        }
      }
      [s[0]] + rest
  }
}
