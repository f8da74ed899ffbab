/** Go's `path/filepath` functions as the builder uses them, on a platform whose separator is
    '/' and whose paths carry no volume name. */
module FilePath {
  import opened GoStrings

  const Separator: char := '/'

  /** Index of the last separator in `p`, or -1 when there is none. */
  function LastSep(p: string): (r: int)
    ensures -1 <= r < |p|
    ensures r >= 0 ==> p[r] == Separator
    ensures forall i :: r < i < |p| ==> p[i] != Separator
  {
    if p == [] then -1
    else if p[|p| - 1] == Separator then |p| - 1
    else LastSep(p[..|p| - 1])
  }

  /** filepath.Ext: the suffix of `p` from the last '.' of its final element on, or "" when
      the final element has no '.'. */
  function Ext(p: string): (r: string)
    ensures |r| <= |p| && p[|p| - |r|..] == r
    ensures r != [] ==> r[0] == '.' && |p| - |r| > LastSep(p)
    ensures forall i :: 0 < i < |r| ==> r[i] != '.'
    ensures Separator !in r
    ensures r == [] ==> forall i :: LastSep(p) < i < |p| ==> p[i] != '.'
  {
    if p == [] || p[|p| - 1] == Separator then ""
    else if p[|p| - 1] == '.' then "."
    else
      var e := Ext(p[..|p| - 1]);
      if e == "" then "" else e + [p[|p| - 1]]
  }

  /** A well-formed extension: a '.' followed by characters that are neither '.' nor the separator. */
  predicate IsExtension(e: string)
  {
    |e| >= 1 && e[0] == '.' && forall i :: 0 < i < |e| ==> e[i] != '.' && e[i] != Separator
  }

  /** filepath.ToSlash: the identity when the separator already is '/'. */
  function ToSlash(p: string): string
  {
    p
  }

  /** Drops every separator at the end of `p`. */
  function TrimTrailingSeps(p: string): (r: string)
    ensures |r| <= |p| && r == p[..|r|]
    ensures r == [] || r[|r| - 1] != Separator
  {
    if p != [] && p[|p| - 1] == Separator then TrimTrailingSeps(p[..|p| - 1]) else p
  }

  /** filepath.Base: the last element of `p` after trailing separators are removed;
      "." for the empty path and "/" for a path of separators only. */
  function Base(p: string): (r: string)
    ensures r != []
  {
    if p == [] then "."
    else
      var q := TrimTrailingSeps(p);
      if q == [] then [Separator] else q[LastSep(q) + 1..]
  }

  /** One step of filepath.Clean's lexical processing: empty and "." elements vanish, ".."
      removes the previous real element (or is kept when nothing can be removed and the path is
      relative), a real element is appended. */
  function CleanStep(stack: seq<string>, elem: string, rooted: bool): seq<string>
  {
    if elem == "" || elem == "." then stack
    else if elem == ".." then
      if |stack| > 0 && stack[|stack| - 1] != ".." then stack[..|stack| - 1]
      else if rooted then stack
      else stack + [".."]
    else stack + [elem]
  }

  function CleanElems(elems: seq<string>, rooted: bool): seq<string>
  {
    if elems == [] then []
    else CleanStep(CleanElems(elems[..|elems| - 1], rooted), elems[|elems| - 1], rooted)
  }

  /** filepath.Clean: the shortest lexically equivalent path; "." when nothing remains. */
  function Clean(p: string): (r: string)
    ensures r != []
  {
    if p == [] then "."
    else
      var rooted := p[0] == Separator;
      var body := JoinWith(CleanElems(Split(p, Separator), rooted), Separator);
      var out := if rooted then [Separator] + body else body;
      if out == [] then "." else out
  }

  /** filepath.Dir: everything up to the last separator, cleaned. */
  function Dir(p: string): string
  {
    Clean(p[..LastSep(p) + 1])
  }

  function DropLeadingEmpty(elems: seq<string>): (r: seq<string>)
    ensures r == [] || r[0] != ""
  {
    if elems == [] then []
    else if elems[0] == "" then DropLeadingEmpty(elems[1..])
    else elems
  }

  /** filepath.Join: the elements from the first non-empty one on, separated and cleaned;
      "" when every element is empty. */
  function Join(elems: seq<string>): string
  {
    var rest := DropLeadingEmpty(elems);
    if rest == [] then "" else Clean(JoinWith(rest, Separator))
  }

  /** An element that Clean keeps as it is. */
  predicate IsCleanElem(e: string)
  {
    e != "" && e != "." && e != ".." && Separator !in e
  }

  lemma {:induction false} CleanElemsKeepsCleanElems(elems: seq<string>, rooted: bool)
    requires forall i :: 0 <= i < |elems| ==> IsCleanElem(elems[i])
    ensures CleanElems(elems, rooted) == elems
  {
    if elems != [] {
      CleanElemsKeepsCleanElems(elems[..|elems| - 1], rooted);
    }
  }

  /** A relative path made of clean elements is its own Clean. */
  lemma CleanOfCleanElems(elems: seq<string>)
    requires |elems| >= 1
    requires forall i :: 0 <= i < |elems| ==> IsCleanElem(elems[i])
    ensures Clean(JoinWith(elems, Separator)) == JoinWith(elems, Separator)
  {
    var p := JoinWith(elems, Separator);
    SplitJoin(elems, Separator);
    CleanElemsKeepsCleanElems(elems, false);
    JoinStartsWithFirst(elems);
  }

  lemma {:induction false} JoinStartsWithFirst(elems: seq<string>)
    requires |elems| >= 1 && elems[0] != ""
    ensures var p := JoinWith(elems, Separator); p != [] && p[0] == elems[0][0]
  {
    if |elems| > 1 {
      JoinStartsWithFirst(elems[..|elems| - 1]);
    }
  }

  /** The last separator of `a + [Separator] + b` is the one between them when `b` has none. */
  lemma LastSepBeforeName(a: string, b: string)
    requires Separator !in b
    ensures LastSep(a + [Separator] + b) == |a|
  {
    var p := a + [Separator] + b;
    var r := LastSep(p);
    assert p[|a|] == Separator;
  }

  /** A trailing empty element is dropped by Clean's processing. */
  lemma CleanElemsDropsTrailingEmpty(elems: seq<string>, rooted: bool)
    ensures CleanElems(elems + [""], rooted) == CleanElems(elems, rooted)
  {
    assert (elems + [""])[..|elems|] == elems;
  }

  /** Clean of a relative path is the join of what its elements clean to, unless that is empty. */
  lemma CleanOfRelative(p: string, kept: seq<string>)
    requires p != [] && p[0] != Separator
    requires CleanElems(Split(p, Separator), false) == kept
    requires JoinWith(kept, Separator) != []
    ensures Clean(p) == JoinWith(kept, Separator)
  {
  }

  /** A clean relative path followed by one separator cleans to the path itself. */
  lemma CleanWithTrailingSep(dirs: seq<string>)
    requires |dirs| >= 1
    requires forall i :: 0 <= i < |dirs| ==> IsCleanElem(dirs[i])
    ensures Clean(JoinWith(dirs, Separator) + [Separator]) == JoinWith(dirs, Separator)
  {
    var d := JoinWith(dirs, Separator);
    var s := d + [Separator];
    SplitSnocSep(d, Separator);
    SplitJoin(dirs, Separator);
    CleanElemsDropsTrailingEmpty(dirs, false);
    CleanElemsKeepsCleanElems(dirs, false);
    assert CleanElems(Split(s, Separator), false) == dirs;
    JoinStartsWithFirst(dirs);
    assert dirs[0][0] in dirs[0];
    CleanOfRelative(s, dirs);
  }

  /** The directory of a clean relative path with at least two elements is its elements but the last. */
  lemma DirOfCleanPath(dirs: seq<string>, name: string)
    requires |dirs| >= 1 && Separator !in name
    requires forall i :: 0 <= i < |dirs| ==> IsCleanElem(dirs[i])
    ensures Dir(JoinWith(dirs + [name], Separator)) == JoinWith(dirs, Separator)
  {
    var d := JoinWith(dirs, Separator);
    var p := JoinWith(dirs + [name], Separator);
    assert (dirs + [name])[..|dirs|] == dirs;
    assert p == d + [Separator] + name;
    LastSepBeforeName(d, name);
    assert p[..|d| + 1] == d + [Separator];
    CleanWithTrailingSep(dirs);
  }
}
