/** A loop that appends `f(x)` for each `x` it keeps, dropping the rest:
    the shape of both adapters' `get_my_transactions`. */
module Lists {
  import opened Wrappers

  function FilterMap<A, B>(s: seq<A>, f: A -> Option<B>): (r: seq<B>)
    ensures |r| <= |s|
    decreases |s|
  {
    if s == [] then []
    else
      var last := f(s[|s| - 1]);
      FilterMap(s[..|s| - 1], f) + (if last.Some? then [last.value] else [])
  }

  /** Keeping is compositional: the output for `a + b` is that for `a`
      followed by that for `b`, so the input order is kept. */
  lemma {:induction false} FilterMapAppend<A, B>(a: seq<A>, b: seq<A>, f: A -> Option<B>)
    ensures FilterMap(a + b, f) == FilterMap(a, f) + FilterMap(b, f)
    decreases |b|
  {
    if b == [] {
      assert a + b == a;
    } else {
      var b' := b[..|b| - 1];
      assert (a + b)[..|a + b| - 1] == a + b';
      FilterMapAppend(a, b', f);
    }
  }

  /** An output element is the image of some kept input element, and every
      kept input element's image is in the output. */
  lemma {:induction false} FilterMapMembers<A, B>(s: seq<A>, f: A -> Option<B>, y: B)
    ensures y in FilterMap(s, f) <==> exists i :: 0 <= i < |s| && f(s[i]) == Some(y)
    decreases |s|
  {
    if s != [] {
      var s' := s[..|s| - 1];
      FilterMapMembers(s', f, y);
      if exists i :: 0 <= i < |s'| && f(s'[i]) == Some(y) {
        var i :| 0 <= i < |s'| && f(s'[i]) == Some(y);
        assert s[i] == s'[i];
      }
      if exists i :: 0 <= i < |s| && f(s[i]) == Some(y) {
        var i :| 0 <= i < |s| && f(s[i]) == Some(y);
        if i < |s'| {
          assert s'[i] == s[i];
        }
      }
    }
  }

  /** Nothing is dropped exactly when every element is kept. */
  lemma {:induction false} FilterMapKeepsAll<A, B>(s: seq<A>, f: A -> Option<B>)
    ensures |FilterMap(s, f)| == |s| <==> forall i :: 0 <= i < |s| ==> f(s[i]).Some?
    decreases |s|
  {
    if s != [] {
      var s' := s[..|s| - 1];
      FilterMapKeepsAll(s', f);
      if forall i :: 0 <= i < |s| ==> f(s[i]).Some? {
        assert forall i :: 0 <= i < |s'| ==> s'[i] == s[i];
      }
      if |FilterMap(s, f)| == |s| {
        forall i | 0 <= i < |s| ensures f(s[i]).Some? {
          if i < |s'| {
            assert s'[i] == s[i];
          }
        }
      }
    }
  }
}
