/** The Python string operations the adapters use: `str.upper`, `str.lower`,
    `str.split`, `str.join`, `str.find` and slicing `s[k:]`.
    Case mapping is ASCII only. */
module Text {

  predicate IsLowerLetter(c: char) { 'a' <= c <= 'z' }

  predicate IsUpperLetter(c: char) { 'A' <= c <= 'Z' }

  function UpperChar(c: char): char
  {
    if IsLowerLetter(c) then (c as int - 32) as char else c
  }

  function LowerChar(c: char): char
  {
    if IsUpperLetter(c) then (c as int + 32) as char else c
  }

  /** `s.upper()` */
  function Upper(s: string): (r: string)
    ensures |r| == |s|
    ensures forall i :: 0 <= i < |s| ==> r[i] == UpperChar(s[i])
  {
    seq(|s|, i requires 0 <= i < |s| => UpperChar(s[i]))
  }

  /** `s.lower()` */
  function Lower(s: string): (r: string)
    ensures |r| == |s|
    ensures forall i :: 0 <= i < |s| ==> r[i] == LowerChar(s[i])
  {
    seq(|s|, i requires 0 <= i < |s| => LowerChar(s[i]))
  }

  /** No character of `s` is changed by `upper()`. */
  predicate HasNoLowerLetter(s: string)
  {
    forall i :: 0 <= i < |s| ==> !IsLowerLetter(s[i])
  }

  /** No character of `s` is changed by `lower()`. */
  predicate HasNoUpperLetter(s: string)
  {
    forall i :: 0 <= i < |s| ==> !IsUpperLetter(s[i])
  }

  lemma UpperOfLower(s: string)
    requires HasNoLowerLetter(s)
    ensures Upper(Lower(s)) == s
  {
  }

  lemma LowerOfUpper(s: string)
    requires HasNoUpperLetter(s)
    ensures Lower(Upper(s)) == s
  {
  }

  lemma UpperKeepsUpperCase(s: string)
    requires HasNoLowerLetter(s)
    ensures Upper(s) == s
  {
  }

  lemma UpperIdempotent(s: string)
    ensures Upper(Upper(s)) == Upper(s)
    ensures HasNoLowerLetter(Upper(s))
  {
  }

  lemma LowerIdempotent(s: string)
    ensures Lower(Lower(s)) == Lower(s)
    ensures HasNoUpperLetter(Lower(s))
  {
  }

  /** Case mapping leaves every separator character in place. */
  lemma CaseKeepsSeparator(s: string, sep: char)
    requires !IsLowerLetter(sep) && !IsUpperLetter(sep)
    ensures sep in s <==> sep in Upper(s)
    ensures sep in s <==> sep in Lower(s)
  {
    if sep in s {
      var i :| 0 <= i < |s| && s[i] == sep;
      assert Upper(s)[i] == sep && Lower(s)[i] == sep;
    }
    if sep in Upper(s) {
      var i :| 0 <= i < |s| && Upper(s)[i] == sep;
      assert s[i] == sep;
    }
    if sep in Lower(s) {
      var i :| 0 <= i < |s| && Lower(s)[i] == sep;
      assert s[i] == sep;
    }
  }

  /** `s.split(sep)`: the pieces between the occurrences of `sep`;
      there is always at least one piece. */
  function Split(s: string, sep: char): (parts: seq<string>)
    ensures |parts| >= 1
    decreases |s|
  {
    if s == [] then [[]]
    else
      var rest := Split(s[1..], sep);
      if s[0] == sep then [[]] + rest else [[s[0]] + rest[0]] + rest[1..]
  }

  /** `sep.join(parts)` */
  function Join(parts: seq<string>, sep: char): string
    decreases |parts|
  {
    if |parts| == 0 then []
    else if |parts| == 1 then parts[0]
    else parts[0] + [sep] + Join(parts[1..], sep)
  }

  /** Joining is unchanged by moving a first character out of the first piece. */
  lemma JoinConsHead(c: char, q: string, rest: seq<string>, sep: char)
    ensures Join([[c] + q] + rest, sep) == [c] + Join([q] + rest, sep)
  {
    var a, b := [[c] + q] + rest, [q] + rest;
    assert a[1..] == rest && b[1..] == rest;
    if |rest| > 0 {
      assert ([c] + q) + [sep] + Join(rest, sep) == [c] + (q + [sep] + Join(rest, sep));
    }
  }

  lemma {:induction false} JoinOfSplit(s: string, sep: char)
    ensures Join(Split(s, sep), sep) == s
    decreases |s|
  {
    if s != [] {
      var rest := Split(s[1..], sep);
      JoinOfSplit(s[1..], sep);
      assert s == [s[0]] + s[1..];
      if s[0] == sep {
        var parts := [[]] + rest;
        assert Split(s, sep) == parts;
        assert parts[1..] == rest;
        assert Join(parts, sep) == [] + [sep] + Join(rest, sep);
      } else {
        assert Split(s, sep) == [[s[0]] + rest[0]] + rest[1..];
        assert [rest[0]] + rest[1..] == rest;
        JoinConsHead(s[0], rest[0], rest[1..], sep);
      }
    }
  }

  lemma {:induction false} SplitPiecesHaveNoSeparator(s: string, sep: char)
    ensures forall i :: 0 <= i < |Split(s, sep)| ==> sep !in Split(s, sep)[i]
    decreases |s|
  {
    if s != [] {
      SplitPiecesHaveNoSeparator(s[1..], sep);
    }
  }

  /** Splitting a piece that holds no separator gives that piece back. */
  lemma {:induction false} SplitWithoutSeparator(s: string, sep: char)
    requires sep !in s
    ensures Split(s, sep) == [s]
    decreases |s|
  {
    if s != [] {
      SplitWithoutSeparator(s[1..], sep);
      assert s == [s[0]] + s[1..];
    }
  }

  /** Splitting `a + [sep] + rest` gives `a` followed by the pieces of `rest`. */
  lemma {:induction false} SplitAfterPiece(a: string, rest: string, sep: char)
    requires sep !in a
    ensures Split(a + [sep] + rest, sep) == [a] + Split(rest, sep)
    decreases |a|
  {
    if a == [] {
      assert [] + [sep] + rest == [sep] + rest;
      assert ([sep] + rest)[1..] == rest;
    } else {
      var s := a + [sep] + rest;
      assert s[0] == a[0] && s[1..] == a[1..] + [sep] + rest;
      SplitAfterPiece(a[1..], rest, sep);
      assert [a[0]] + a[1..] == a;
    }
  }

  /** `sep.join(parts).split(sep) == parts` when no piece holds `sep`. */
  lemma {:induction false} SplitOfJoin(parts: seq<string>, sep: char)
    requires |parts| >= 1
    requires forall i :: 0 <= i < |parts| ==> sep !in parts[i]
    ensures Split(Join(parts, sep), sep) == parts
    decreases |parts|
  {
    if |parts| == 1 {
      SplitWithoutSeparator(parts[0], sep);
    } else {
      SplitOfJoin(parts[1..], sep);
      SplitAfterPiece(parts[0], Join(parts[1..], sep), sep);
      assert parts == [parts[0]] + parts[1..];
    }
  }

  /** A character other than the separator occurs in the join only if it
      occurs in a piece. */
  lemma {:induction false} JoinAvoids(parts: seq<string>, sep: char, c: char)
    requires c != sep
    requires forall i :: 0 <= i < |parts| ==> c !in parts[i]
    ensures c !in Join(parts, sep)
    decreases |parts|
  {
    if |parts| >= 2 {
      JoinAvoids(parts[1..], sep, c);
    }
  }

  /** `[c.upper() for c in parts]` */
  function UpperAll(parts: seq<string>): (r: seq<string>)
    ensures |r| == |parts|
    ensures forall i :: 0 <= i < |parts| ==> r[i] == Upper(parts[i])
  {
    seq(|parts|, i requires 0 <= i < |parts| => Upper(parts[i]))
  }

  /** Uppercasing commutes with joining on a separator that is not a letter. */
  lemma {:induction false} UpperOfJoin(parts: seq<string>, sep: char)
    requires !IsLowerLetter(sep)
    ensures Upper(Join(parts, sep)) == Join(UpperAll(parts), sep)
    decreases |parts|
  {
    if |parts| >= 2 {
      var rest := Join(parts[1..], sep);
      UpperOfJoin(parts[1..], sep);
      assert UpperAll(parts)[1..] == UpperAll(parts[1..]);
      assert Upper(parts[0] + [sep] + rest) == Upper(parts[0]) + [sep] + Upper(rest);
    }
  }

  /** `pat` occurs in `s` at index `j`. */
  predicate OccursAt(s: string, pat: string, j: int)
  {
    0 <= j && j + |pat| <= |s| && s[j..j + |pat|] == pat
  }

  function FindFrom(s: string, pat: string, start: nat): (i: int)
    requires start <= |s|
    ensures i == -1 || (start <= i && OccursAt(s, pat, i))
    ensures forall j :: start <= j < (if i == -1 then |s| + 1 else i) ==> !OccursAt(s, pat, j)
    decreases |s| - start
  {
    if OccursAt(s, pat, start) then start
    else if start == |s| then -1
    else FindFrom(s, pat, start + 1)
  }

  /** `s.find(pat)`: the first index where `pat` occurs, or -1. */
  function Find(s: string, pat: string): (i: int)
    ensures i == -1 <==> forall j :: 0 <= j <= |s| ==> !OccursAt(s, pat, j)
    ensures i != -1 ==> OccursAt(s, pat, i) && forall j :: 0 <= j < i ==> !OccursAt(s, pat, j)
  {
    FindFrom(s, pat, 0)
  }

  /** The slice `s[k:]` for a non-negative `k`: empty once `k` passes the end. */
  function SuffixFrom(s: string, k: nat): (r: string)
    ensures k <= |s| ==> r == s[k..]
    ensures k >= |s| ==> r == []
  {
    if k <= |s| then s[k..] else []
  }
}
