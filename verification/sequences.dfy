/** Filtering sequences. */
module Sequences {

  function Filter<T>(f: T -> bool, s: seq<T>): (r: seq<T>)
    ensures |r| <= |s|
  {
    if s == [] then []
    else
      var init, last := s[..|s| - 1], s[|s| - 1];
      if f(last) then Filter(f, init) + [last] else Filter(f, init)
  }

  lemma {:induction false} FilterMember<T>(f: T -> bool, s: seq<T>, x: T)
    ensures x in Filter(f, s) <==> x in s && f(x)
  {
    if s != [] {
      FilterMember(f, s[..|s| - 1], x);
      assert s == s[..|s| - 1] + [s[|s| - 1]];
    }
  }

  lemma {:induction false} FilterAppend<T>(f: T -> bool, a: seq<T>, b: seq<T>)
    ensures Filter(f, a + b) == Filter(f, a) + Filter(f, b)
  {
    if b == [] {
      assert a + b == a;
    } else {
      FilterAppend(f, a, b[..|b| - 1]);
      assert (a + b)[..|a + b| - 1] == a + b[..|b| - 1];
    }
  }

  lemma FilterPush<T>(f: T -> bool, s: seq<T>, x: T)
    ensures Filter(f, s + [x]) == Filter(f, s) + if f(x) then [x] else []
  {
    assert (s + [x])[..|s|] == s;
  }

  lemma {:induction false} FilterAll<T>(f: T -> bool, s: seq<T>)
    requires forall k :: 0 <= k < |s| ==> f(s[k])
    ensures Filter(f, s) == s
  {
    if s != [] {
      FilterAll(f, s[..|s| - 1]);
    }
  }

  lemma {:induction false} FilterNone<T>(f: T -> bool, s: seq<T>)
    requires forall k :: 0 <= k < |s| ==> !f(s[k])
    ensures Filter(f, s) == []
  {
    if s != [] {
      FilterNone(f, s[..|s| - 1]);
    }
  }

  /** Filtering what another filter keeps anyway, or drops anyway. */
  lemma {:induction false} FilterTwice<T(!new)>(f: T -> bool, g: T -> bool, s: seq<T>)
    ensures (forall x :: f(x) ==> g(x)) ==> Filter(f, Filter(g, s)) == Filter(f, s)
    ensures (forall x :: f(x) ==> !g(x)) ==> Filter(f, Filter(g, s)) == []
  {
    if s != [] {
      var init, last := s[..|s| - 1], s[|s| - 1];
      FilterTwice(f, g, init);
      if g(last) {
        assert (Filter(g, init) + [last])[..|Filter(g, init)|] == Filter(g, init);
      }
    }
  }
}
