/** What several modules need: optional values, results that can fail, and lists without repetition. */
module Common {

  datatype Option<+T> = None | Some(value: T)

  datatype Result<+T> = Ok(value: T) | Err

  ghost predicate Distinct<T>(s: seq<T>) {
    forall i, j :: 0 <= i < j < |s| ==> s[i] != s[j]
  }

  ghost predicate DistinctBy<T, K>(s: seq<T>, key: T -> K) {
    forall i, j :: 0 <= i < j < |s| ==> key(s[i]) != key(s[j])
  }

  /** How often a value is listed. */
  function Count<T(==)>(s: seq<T>, x: T): nat {
    if s == [] then 0 else Count(s[..|s| - 1], x) + if s[|s| - 1] == x then 1 else 0
  }

  lemma {:induction false} CountIn<T>(s: seq<T>, x: T)
    ensures Count(s, x) > 0 <==> x in s
    ensures Distinct(s) ==> Count(s, x) <= 1
  {
    if s != [] {
      var n := |s| - 1;
      CountIn(s[..n], x);
      assert s == s[..n] + [s[n]];
      if Distinct(s) && s[n] == x {
        forall i | 0 <= i < n ensures s[..n][i] != x {
        }
      }
    }
  }

  lemma CountAppends<T>(s: seq<T>, y: T, x: T)
    ensures Count(s + [y], x) == Count(s, x) + if x == y then 1 else 0
  {
    assert (s + [y])[..|s|] == s;
  }

  /** One of each, where it is first. */
  function FirstOfEach<T(==)>(s: seq<T>): seq<T> {
    if s == [] then [] else
      var n := |s| - 1;
      var rest := FirstOfEach(s[..n]);
      if s[n] in rest then rest else rest + [s[n]]
  }

  lemma {:induction false} FirstOfDistinct<T>(s: seq<T>)
    requires Distinct(s)
    ensures FirstOfEach(s) == s
  {
    if s != [] {
      var n := |s| - 1;
      FirstOfDistinct(s[..n]);
      assert s == s[..n] + [s[n]];
    }
  }

  lemma FirstOfNext<T>(s: seq<T>, x: T)
    ensures FirstOfEach(s + [x]) == if x in FirstOfEach(s) then FirstOfEach(s) else FirstOfEach(s) + [x]
  {
    assert (s + [x])[..|s|] == s;
  }

  lemma {:induction false} FirstOfEachIs<T>(s: seq<T>)
    ensures Distinct(FirstOfEach(s)) && forall x :: x in FirstOfEach(s) <==> x in s
  {
    if s != [] {
      var n := |s| - 1;
      FirstOfEachIs(s[..n]);
      assert s == s[..n] + [s[n]];
    }
  }
}
