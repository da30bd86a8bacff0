/** The few Python string and path primitives that main.py relies on, on `seq<char>`. */
module PyStr {
  import opened Wrappers

  /** The characters for which Python's `str.isspace()` holds; `str.strip()` with no
      argument removes exactly these from both ends. */
  predicate IsSpace(c: char) {
    ('\t' <= c <= '\r') || ('\U{1C}' <= c <= '\U{1F}') || c == ' '
    || c == '\U{85}' || c == '\U{A0}' || c == '\U{1680}'
    || ('\U{2000}' <= c <= '\U{200A}') || c == '\U{2028}' || c == '\U{2029}'
    || c == '\U{202F}' || c == '\U{205F}' || c == '\U{3000}'
  }

  /** The character set of `strip('"\'')`. */
  predicate IsQuote(c: char) {
    c == '"' || c == '\''
  }

  /** The scan `str.strip` makes from the left: the first index at or after `i` whose
      character is not dropped, or `|s|` when there is none. */
  function SkipFrom(s: string, drop: char -> bool, i: nat): (n: nat)
    requires i <= |s|
    ensures i <= n <= |s|
    ensures forall k :: i <= k < n ==> drop(s[k])
    ensures n == |s| || !drop(s[n])
    decreases |s| - i
  {
    if i == |s| || !drop(s[i]) then i else SkipFrom(s, drop, i + 1)
  }

  /** The scan `str.strip` makes from the right, stopping at `lo`: the end of the longest
      slice `s[lo..m]` of `s[lo..j]` that does not end with a dropped character. */
  function SkipBack(s: string, drop: char -> bool, lo: nat, j: nat): (m: nat)
    requires lo <= j <= |s|
    ensures lo <= m <= j
    ensures forall k :: m <= k < j ==> drop(s[k])
    ensures m == lo || !drop(s[m - 1])
  {
    if j == lo || !drop(s[j - 1]) then j else SkipBack(s, drop, lo, j - 1)
  }

  /** `s.strip(chars)`: a contiguous slice of `s`, everything around it dropped, and
      neither of its ends droppable. */
  function Strip(s: string, drop: char -> bool): (r: string)
    ensures exists i :: SliceBetweenDropped(s, drop, i, r)
    ensures r == [] || (!drop(r[0]) && !drop(r[|r| - 1]))
  {
    var a := SkipFrom(s, drop, 0);
    var b := SkipBack(s, drop, a, |s|);
    assert SliceBetweenDropped(s, drop, a, s[a..b]);
    s[a..b]
  }

  /** `r` is the slice of `s` starting at `i`, and every character of `s` outside it is dropped. */
  predicate SliceBetweenDropped(s: string, drop: char -> bool, i: int, r: string) {
    0 <= i <= |s| - |r| && r == s[i..i + |r|]
    && (forall k :: 0 <= k < i ==> drop(s[k]))
    && (forall k :: i + |r| <= k < |s| ==> drop(s[k]))
  }

  /** `s.split(sep, 1)` unpacked into two names: `None` where Python's unpacking raises
      because `sep` does not occur, otherwise the text before the first `sep` and the rest. */
  function SplitFirst(s: string, sep: char): (r: Option<(string, string)>)
    ensures r.None? <==> sep !in s
    ensures r.Some? ==> s == r.value.0 + [sep] + r.value.1 && sep !in r.value.0
  {
    if s == [] then None
    else if s[0] == sep then Some(([], s[1..]))
    else match SplitFirst(s[1..], sep)
      case None => None
      case Some((head, tail)) =>
        assert s == [s[0]] + s[1..];
        Some(([s[0]] + head, tail))
  }

  /** Splitting at the first `sep` recovers the parts it was built from, whenever the first
      part holds no `sep`. */
  lemma SplitFirstOfParts(head: string, tail: string, sep: char)
    requires sep !in head
    ensures SplitFirst(head + [sep] + tail, sep) == Some((head, tail))
  {
    var s := head + [sep] + tail;
    var (h, t) := SplitFirst(s, sep).value;
    // both parts end just before a `sep` and hold none, so they end at the same place
    assert s[|head|] == sep && forall j :: 0 <= j < |head| ==> s[j] == head[j] != sep;
    assert s[|h|] == sep && forall j :: 0 <= j < |h| ==> s[j] == h[j] != sep;
    assert h == s[..|h|] == head;
    assert t == s[|h| + 1..] == tail;
  }

  /** `s.endswith(suffix)`. */
  predicate EndsWith(s: string, suffix: string) {
    |suffix| <= |s| && s[|s| - |suffix|..] == suffix
  }

  /** `s.split(sep)[-1]`, which is also what `os.path.basename` gives for `sep == '/'`:
      the text after the last `sep`, or all of `s` when `sep` does not occur. */
  function AfterLast(s: string, sep: char): (r: string)
    ensures sep !in r
    ensures |r| <= |s| && r == s[|s| - |r|..]
    ensures |r| < |s| ==> s[|s| - |r| - 1] == sep
  {
    if s == [] || s[|s| - 1] == sep then []
    else AfterLast(s[..|s| - 1], sep) + [s[|s| - 1]]
  }

  /** `pat` occurs somewhere in `s`. */
  ghost predicate Occurs(s: string, pat: string) {
    exists i :: OccursAt(s, pat, i)
  }

  /** `pat` occurs in `s` starting at index `i`. */
  predicate OccursAt(s: string, pat: string, i: int) {
    0 <= i <= |s| - |pat| && s[i..i + |pat|] == pat
  }

  /** `s.replace(pat, '')`: every occurrence of `pat` found by a left-to-right scan that
      resumes after each match is deleted. */
  function RemoveAll(s: string, pat: string): (r: string)
    requires pat != []
    ensures |r| <= |s| && forall c :: c in r ==> c in s
    ensures !Occurs(s, pat) ==> r == s
  {
    if |s| < |pat| then s
    else if s[..|pat|] == pat then
      assert OccursAt(s, pat, 0);
      RemoveAll(s[|pat|..], pat)
    else
      assert !Occurs(s, pat) ==> !Occurs(s[1..], pat) by {
        if Occurs(s[1..], pat) {
          var i :| OccursAt(s[1..], pat, i);
          assert OccursAt(s, pat, i + 1);
        }
      }
      [s[0]] + RemoveAll(s[1..], pat)
  }

  /** `p` is the first place where `pat` occurs in `s`. */
  predicate FirstOccurrence(s: string, pat: string, p: int) {
    OccursAt(s, pat, p) && forall q :: 0 <= q < p ==> !OccursAt(s, pat, q)
  }

  /** An occurrence in `s[1..]` is one in `s`, one place further on. */
  lemma OccursInTail(s: string, pat: string, q: nat)
    requires s != []
    ensures OccursAt(s[1..], pat, q) <==> OccursAt(s, pat, q + 1)
  {
    if q + 1 <= |s| - |pat| {
      assert s[1..][q..q + |pat|] == s[q + 1..q + 1 + |pat|];
    }
  }

  /** Without a match at the start, `replace` keeps the first character and scans on. */
  lemma KeepHead(s: string, pat: string)
    requires pat != [] && s != [] && !OccursAt(s, pat, 0)
    ensures RemoveAll(s, pat) == [s[0]] + RemoveAll(s[1..], pat)
  {
    if |s| < |pat| {
      assert RemoveAll(s[1..], pat) == s[1..];
    }
  }

  /** With a match at the start, `replace` deletes it and scans on right after it. */
  lemma DropMatch(s: string, pat: string)
    requires pat != [] && OccursAt(s, pat, 0)
    ensures RemoveAll(s, pat) == RemoveAll(s[|pat|..], pat)
  {
    assert s[..|pat|] == pat;
  }

  /** No occurrence of `pat` starts before `p`, stated one position at a time. */
  predicate NoneBefore(s: string, pat: string, p: nat) {
    p == 0 || (s != [] && !OccursAt(s, pat, 0) && NoneBefore(s[1..], pat, p - 1))
  }

  /** The quantified form of "no earlier occurrence" gives the stepwise one. */
  lemma {:induction false} NoneBeforeOfFirst(s: string, pat: string, p: nat)
    requires p <= |s| && forall q :: 0 <= q < p ==> !OccursAt(s, pat, q)
    ensures NoneBefore(s, pat, p)
  {
    if p > 0 {
      forall q | 0 <= q < p - 1
        ensures !OccursAt(s[1..], pat, q)
      {
        OccursInTail(s, pat, q);
      }
      NoneBeforeOfFirst(s[1..], pat, p - 1);
    }
  }

  /** A prefix in which no occurrence starts is kept as it is, and the scan goes on after it. */
  lemma {:induction false} KeepUnmatched(a: string, t: string, pat: string)
    requires pat != [] && NoneBefore(a + t, pat, |a|)
    ensures RemoveAll(a + t, pat) == a + RemoveAll(t, pat)
  {
    if a == [] {
      assert a + t == t;
    } else {
      var s := a + t;
      assert s[1..] == a[1..] + t;
      calc {
        RemoveAll(s, pat);
        { KeepHead(s, pat); }
        [a[0]] + RemoveAll(a[1..] + t, pat);
        { KeepUnmatched(a[1..], t, pat); }
        [a[0]] + (a[1..] + RemoveAll(t, pat));
        { assert a == [a[0]] + a[1..]; }
        a + RemoveAll(t, pat);
      }
    }
  }

  /** The value of `replace(pat, '')` at its first occurrence: everything before it is kept,
      the occurrence is deleted, and the scan resumes right after it. With the identity when
      there is no occurrence, this fixes `RemoveAll` on every input. */
  lemma RemoveFirst(s: string, pat: string, p: nat)
    requires pat != [] && FirstOccurrence(s, pat, p)
    ensures RemoveAll(s, pat) == s[..p] + RemoveAll(s[p + |pat|..], pat)
  {
    var u := s[p..];
    assert s[..p] + u == s;
    NoneBeforeOfFirst(s, pat, p);
    KeepUnmatched(s[..p], u, pat);
    assert u[..|pat|] == s[p..p + |pat|] == pat;
    DropMatch(u, pat);
    assert u[|pat|..] == s[p + |pat|..];
  }

  /** POSIX `os.path.join(a, b)`: `b` itself when it is absolute, otherwise `b` appended
      to `a` with one `/` between them unless `a` is empty or already ends in `/`. */
  function Join(a: string, b: string): (r: string)
    ensures b != [] && b[0] == '/' ==> r == b
    ensures (b == [] || b[0] != '/') ==>
      |a| + |b| <= |r| <= |a| + |b| + 1 && r[..|a|] == a && r[|r| - |b|..] == b
      && (|r| == |a| + |b| + 1 ==> r[|a|] == '/')
    ensures (b == [] || b[0] != '/') && a != [] && a[|a| - 1] != '/' ==> |r| == |a| + |b| + 1
    ensures (b == [] || b[0] != '/') && (a == [] || a[|a| - 1] == '/') ==> r == a + b
  {
    if b != [] && b[0] == '/' then b
    else if a == [] || a[|a| - 1] == '/' then a + b
    else a + "/" + b
  }

  /** The text after the last `/` of a path that ends in `/name`, or is just `name`, is
      `name` when `name` holds no `/`. */
  lemma {:induction false} AfterLastOfName(p: string, name: string)
    requires '/' !in name && |name| <= |p| && p[|p| - |name|..] == name
    requires |p| > |name| ==> p[|p| - |name| - 1] == '/'
    ensures AfterLast(p, '/') == name
  {
    if name != [] {
      var p', name' := p[..|p| - 1], name[..|name| - 1];
      assert p[|p| - 1] == name[|name| - 1] != '/' by {
        assert name[|name| - 1] in name;
      }
      assert p'[|p'| - |name'|..] == name' by {
        assert p'[|p'| - |name'|..] == p[|p| - |name|..][..|name| - 1];
      }
      AfterLastOfName(p', name');
      calc {
        AfterLast(p, '/');
        AfterLast(p', '/') + [p[|p| - 1]];
        name' + [name[|name| - 1]];
        name;
      }
    }
  }

  /** The base name of a joined path is the name that was joined, whenever that name is a
      plain file name (no `/`), as every name `os.walk` lists is. */
  lemma BasenameOfJoin(dir: string, name: string)
    requires '/' !in name
    ensures AfterLast(Join(dir, name), '/') == name
  {
    AfterLastOfName(Join(dir, name), name);
  }
}
