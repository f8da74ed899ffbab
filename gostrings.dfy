/** The parts of Go's `strings` package that the builder relies on, over `seq<char>`. */
module GoStrings {

  /** strings.ToLower, restricted to ASCII: 'A'..'Z' become 'a'..'z', every other character stays. */
  function ToLowerChar(c: char): char
  {
    if 'A' <= c <= 'Z' then (c as int + 32) as char else c
  }

  function ToLower(s: string): (r: string)
    ensures |r| == |s|
    ensures forall i :: 0 <= i < |s| ==> r[i] == ToLowerChar(s[i])
  {
    seq(|s|, i requires 0 <= i < |s| => ToLowerChar(s[i]))
  }

  /** A string without upper-case ASCII letters is its own lower case. */
  lemma LowerCaseIsFixed(s: string)
    requires forall i :: 0 <= i < |s| ==> !('A' <= s[i] <= 'Z')
    ensures ToLower(s) == s
  {
  }

  /** strings.HasSuffix */
  predicate HasSuffix(s: string, suffix: string)
  {
    |suffix| <= |s| && s[|s| - |suffix|..] == suffix
  }

  /** strings.TrimSuffix: drops `suffix` once when `s` ends with it. */
  function TrimSuffix(s: string, suffix: string): (r: string)
    ensures HasSuffix(s, suffix) ==> r + suffix == s
    ensures !HasSuffix(s, suffix) ==> r == s
  {
    if HasSuffix(s, suffix) then s[..|s| - |suffix|] else s
  }

  /** strings.Join with a one-character separator. */
  function JoinWith(parts: seq<string>, sep: char): string
  {
    if parts == [] then ""
    else if |parts| == 1 then parts[0]
    else JoinWith(parts[..|parts| - 1], sep) + [sep] + parts[|parts| - 1]
  }

  /** strings.Split with a one-character separator: "" splits into [""], and every separator
      starts a new (possibly empty) part. */
  function Split(s: string, sep: char): (parts: seq<string>)
    ensures |parts| >= 1
  {
    if s == [] then [""]
    else if s[|s| - 1] == sep then Split(s[..|s| - 1], sep) + [""]
    else ExtendLast(Split(s[..|s| - 1], sep), s[|s| - 1])
  }

  /** The parts with `c` appended to the last one. */
  function ExtendLast(parts: seq<string>, c: char): (r: seq<string>)
    requires |parts| >= 1
    ensures |r| == |parts|
  {
    parts[..|parts| - 1] + [parts[|parts| - 1] + [c]]
  }

  lemma ExtendLastConcat(pa: seq<string>, pb: seq<string>, c: char)
    requires |pb| >= 1
    ensures ExtendLast(pa + pb, c) == pa + ExtendLast(pb, c)
  {
    var q := pa + pb;
    assert q[..|q| - 1] == pa + pb[..|pb| - 1];
  }

  lemma {:induction false} SplitWithoutSep(s: string, sep: char)
    requires sep !in s
    ensures Split(s, sep) == [s]
  {
    if s != [] {
      var s', c := s[..|s| - 1], s[|s| - 1];
      assert s' + [c] == s;
      SplitWithoutSep(s', sep);
      SplitSnocOther(s', c, sep);
      assert ExtendLast([s'], c) == [s];
    }
  }

  /** Appending a separator opens a new, empty, last part. */
  lemma SplitSnocSep(t: string, sep: char)
    ensures Split(t + [sep], sep) == Split(t, sep) + [""]
  {
    assert (t + [sep])[..|t|] == t;
  }

  /** Appending any other character extends the last part. */
  lemma SplitSnocOther(t: string, c: char, sep: char)
    requires c != sep
    ensures Split(t + [c], sep) == ExtendLast(Split(t, sep), c)
  {
    assert (t + [c])[..|t|] == t;
  }

  /** A separator after the second side: both sides of the split still agree. */
  lemma SplitAtSepSnocSep(a: string, b: string, sep: char)
    requires Split(a + [sep] + b, sep) == Split(a, sep) + Split(b, sep)
    ensures Split(a + [sep] + (b + [sep]), sep) == Split(a, sep) + Split(b + [sep], sep)
  {
    var t := a + [sep] + b;
    assert a + [sep] + (b + [sep]) == t + [sep];
    SplitSnocSep(t, sep);
    SplitSnocSep(b, sep);
  }

  /** Another character after the second side: both sides of the split still agree. */
  lemma SplitAtSepSnocOther(a: string, b: string, c: char, sep: char)
    requires c != sep
    requires Split(a + [sep] + b, sep) == Split(a, sep) + Split(b, sep)
    ensures Split(a + [sep] + (b + [c]), sep) == Split(a, sep) + Split(b + [c], sep)
  {
    var t := a + [sep] + b;
    assert a + [sep] + (b + [c]) == t + [c];
    SplitSnocOther(t, c, sep);
    SplitSnocOther(b, c, sep);
    ExtendLastConcat(Split(a, sep), Split(b, sep), c);
  }

  /** Splitting at one separator splits the two sides independently. */
  lemma {:induction false} SplitAtSep(a: string, b: string, sep: char)
    ensures Split(a + [sep] + b, sep) == Split(a, sep) + Split(b, sep)
    decreases |b|
  {
    if b == [] {
      SplitSnocSep(a, sep);
      assert a + [sep] + b == a + [sep];
    } else {
      var b', c := b[..|b| - 1], b[|b| - 1];
      SplitAtSep(a, b', sep);
      if c == sep {
        SplitAtSepSnocSep(a, b', sep);
      } else {
        SplitAtSepSnocOther(a, b', c, sep);
      }
      assert b' + [c] == b;
    }
  }

  /** Split undoes JoinWith when no part contains the separator. */
  lemma {:induction false} SplitJoin(parts: seq<string>, sep: char)
    requires |parts| >= 1
    requires forall i :: 0 <= i < |parts| ==> sep !in parts[i]
    ensures Split(JoinWith(parts, sep), sep) == parts
  {
    if |parts| == 1 {
      SplitWithoutSep(parts[0], sep);
    } else {
      var init, last := parts[..|parts| - 1], parts[|parts| - 1];
      SplitJoin(init, sep);
      SplitThenPart(JoinWith(init, sep), init, last, sep);
      assert init + [last] == parts;
    }
  }

  /** A separator and a part without separators add that part to the split. */
  lemma SplitThenPart(s: string, parts: seq<string>, last: string, sep: char)
    requires sep !in last && Split(s, sep) == parts
    ensures Split(s + [sep] + last, sep) == parts + [last]
  {
    SplitAtSep(s, last, sep);
    SplitWithoutSep(last, sep);
  }

  /** Joining two non-empty lists of parts puts one separator between their joins. */
  lemma {:induction false} JoinWithConcat(a: seq<string>, b: seq<string>, sep: char)
    requires |a| >= 1 && |b| >= 1
    ensures JoinWith(a + b, sep) == JoinWith(a, sep) + [sep] + JoinWith(b, sep)
  {
    if |b| > 1 {
      var b' := b[..|b| - 1];
      JoinWithConcat(a, b', sep);
      assert (a + b)[..|a + b| - 1] == a + b';
    } else {
      assert (a + b)[..|a + b| - 1] == a;
    }
  }
}
