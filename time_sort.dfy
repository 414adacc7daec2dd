/** Python's `sorted` keyed on each event's datetime: a stable sort of
    trade events by time. Modelled as an insertion sort; StableSortIsUnique
    shows that every stable sort by time gives this same sequence, so the
    choice of algorithm does not matter. */
module TimeSort {
  import opened Records

  predicate SortedByTime(s: seq<Trade>)
  {
    forall i, j :: 0 <= i < j < |s| ==> s[i].time <= s[j].time
  }

  /** The events of `s` that happen at time `k`, in their order in `s`. */
  function WithTime(s: seq<Trade>, k: int): seq<Trade>
    decreases |s|
  {
    if s == [] then []
    else WithTime(s[..|s| - 1], k) + (if s[|s| - 1].time == k then [s[|s| - 1]] else [])
  }

  lemma {:induction false} WithTimeAppend(a: seq<Trade>, b: seq<Trade>, k: int)
    ensures WithTime(a + b, k) == WithTime(a, k) + WithTime(b, k)
    decreases |b|
  {
    if b == [] {
      assert a + b == a;
    } else {
      var b' := b[..|b| - 1];
      assert (a + b)[..|a + b| - 1] == a + b';
      WithTimeAppend(a, b', k);
    }
  }

  lemma {:induction false} WithTimeMembers(s: seq<Trade>, k: int, x: Trade)
    requires x in WithTime(s, k)
    ensures x in s && x.time == k
    decreases |s|
  {
    if s != [] {
      var s' := s[..|s| - 1];
      if x in WithTime(s', k) {
        WithTimeMembers(s', k, x);
      }
    }
  }

  /** Put `t` after every event of the sorted `s` whose time is not later. */
  function Insert(s: seq<Trade>, t: Trade): seq<Trade>
    decreases |s|
  {
    if s == [] then [t]
    else if t.time < s[|s| - 1].time then Insert(s[..|s| - 1], t) + [s[|s| - 1]]
    else s + [t]
  }

  lemma SortedAppend(s: seq<Trade>, x: Trade)
    requires SortedByTime(s)
    requires forall i :: 0 <= i < |s| ==> s[i].time <= x.time
    ensures SortedByTime(s + [x])
  {
  }

  lemma {:induction false} InsertMembers(s: seq<Trade>, t: Trade, x: Trade)
    requires x in Insert(s, t)
    ensures x in s || x == t
    decreases |s|
  {
    if s != [] && t.time < s[|s| - 1].time {
      var s' := s[..|s| - 1];
      if x in Insert(s', t) {
        InsertMembers(s', t, x);
        assert s' <= s;
      }
    }
  }

  lemma {:induction false} InsertKeepsOrder(s: seq<Trade>, t: Trade)
    requires SortedByTime(s)
    ensures SortedByTime(Insert(s, t))
    decreases |s|
  {
    if s != [] && t.time < s[|s| - 1].time {
      var last, s' := s[|s| - 1], s[..|s| - 1];
      var r' := Insert(s', t);
      assert SortedByTime(s') by {
        forall i, j | 0 <= i < j < |s'| ensures s'[i].time <= s'[j].time {
          assert s'[i] == s[i] && s'[j] == s[j];
        }
      }
      InsertKeepsOrder(s', t);
      assert s == s' + [last];
      forall i | 0 <= i < |r'| ensures r'[i].time <= last.time {
        InsertMembers(s', t, r'[i]);
        if r'[i] != t {
          var j :| 0 <= j < |s'| && s'[j] == r'[i];
          assert s[j] == s'[j];
        }
      }
      SortedAppend(r', last);
    } else if s != [] {
      forall i | 0 <= i < |s| ensures s[i].time <= t.time {
        assert s[i].time <= s[|s| - 1].time;
      }
      SortedAppend(s, t);
    }
  }

  lemma {:induction false} InsertKeepsEvents(s: seq<Trade>, t: Trade)
    ensures multiset(Insert(s, t)) == multiset(s) + multiset{t}
    decreases |s|
  {
    if s != [] && t.time < s[|s| - 1].time {
      var last, s' := s[|s| - 1], s[..|s| - 1];
      InsertKeepsEvents(s', t);
      assert s == s' + [last];
    }
  }

  lemma {:induction false} InsertKeepsTies(s: seq<Trade>, t: Trade, k: int)
    ensures WithTime(Insert(s, t), k) == WithTime(s, k) + (if t.time == k then [t] else [])
    decreases |s|
  {
    if s != [] {
      var last, s' := s[|s| - 1], s[..|s| - 1];
      var r := Insert(s, t);
      if t.time < last.time {
        var r' := Insert(s', t);
        InsertKeepsTies(s', t, k);
        assert r[..|r| - 1] == r';
      } else {
        assert r[..|r| - 1] == s;
      }
    }
  }

  /** `sorted(s, key=time)` */
  function SortByTime(s: seq<Trade>): (r: seq<Trade>)
    ensures SortedByTime(r)
    ensures multiset(r) == multiset(s)
    ensures forall k :: WithTime(r, k) == WithTime(s, k)
    decreases |s|
  {
    if s == [] then []
    else
      var s', t := s[..|s| - 1], s[|s| - 1];
      var r' := SortByTime(s');
      assert s == s' + [t];
      InsertKeepsOrder(r', t);
      InsertKeepsEvents(r', t);
      forall k ensures WithTime(Insert(r', t), k) == WithTime(s, k) {
        InsertKeepsTies(r', t, k);
      }
      Insert(r', t)
  }

  lemma LastEventHasItsTime(s: seq<Trade>)
    requires s != []
    ensures WithTime(s, s[|s| - 1].time) == WithTime(s[..|s| - 1], s[|s| - 1].time) + [s[|s| - 1]]
  {
  }

  /** Every event of a sorted sequence happens no later than its last one. */
  lemma NoEventAfterLast(s: seq<Trade>, k: int)
    requires SortedByTime(s) && s != [] && s[|s| - 1].time < k
    ensures WithTime(s, k) == []
  {
    if WithTime(s, k) != [] {
      var z := WithTime(s, k)[0];
      WithTimeMembers(s, k, z);
      assert false;
    }
  }

  lemma LastEventsAgree(a: seq<Trade>, b: seq<Trade>)
    requires SortedByTime(a) && SortedByTime(b)
    requires forall k :: WithTime(a, k) == WithTime(b, k)
    requires a != [] && b != []
    ensures a[|a| - 1] == b[|b| - 1]
  {
    var x, y := a[|a| - 1], b[|b| - 1];
    LastEventHasItsTime(a);
    LastEventHasItsTime(b);
    if x.time < y.time {
      NoEventAfterLast(a, y.time);
      assert false;
    } else if y.time < x.time {
      NoEventAfterLast(b, x.time);
      assert false;
    }
    var wa, wb := WithTime(a, x.time), WithTime(b, x.time);
    assert wa == wb;
    assert x == wa[|wa| - 1];
  }

  /** A sequence sorted by time is fixed by which events it holds at each
      time and in which order: two stable sorts of one input agree. */
  lemma {:induction false} StableSortIsUnique(a: seq<Trade>, b: seq<Trade>)
    requires SortedByTime(a) && SortedByTime(b)
    requires forall k :: WithTime(a, k) == WithTime(b, k)
    ensures a == b
    decreases |a|
  {
    if a == [] && b != [] {
      LastEventHasItsTime(b);
      assert false;
    } else if a != [] && b == [] {
      LastEventHasItsTime(a);
      assert false;
    } else if a != [] {
      LastEventsAgree(a, b);
      var x := a[|a| - 1];
      var a', b' := a[..|a| - 1], b[..|b| - 1];
      forall k ensures WithTime(a', k) == WithTime(b', k) {
        assert WithTime(a, k) == WithTime(b, k);
        if k == x.time {
          LastEventHasItsTime(a);
          LastEventHasItsTime(b);
          var w := WithTime(a, k);
          assert WithTime(a', k) == w[..|w| - 1] == WithTime(b', k);
        } else {
          calc {
            WithTime(a', k);
            WithTime(a', k) + [];
            WithTime(a, k);
            WithTime(b, k);
            WithTime(b', k) + [];
            WithTime(b', k);
          }
        }
      }
      assert SortedByTime(a') && SortedByTime(b');
      StableSortIsUnique(a', b');
      assert a == a' + [x] && b == b' + [x];
    }
  }
}
