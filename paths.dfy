/** Output-path rewriting: `replaceExt` and `convertMarkdownPathToHtmlPath`. */
module Paths {
  import opened GoStrings
  import opened FilePath

  /** The path without its extension. */
  function Stem(p: string): string
  {
    p[..|p| - |Ext(p)|]
  }

  /** Whether `replaceExt(p, from, _)` rewrites `p`: always for an empty `from`, otherwise
      when the lower-cased extension of `p` is exactly `from`. */
  predicate ExtMatches(p: string, from: string)
  {
    from == "" || ToLower(Ext(p)) == from
  }

  /** replaceExt */
  function ReplaceExt(p: string, from: string, to: string): string
  {
    var ext := Ext(p);
    if |from| > 0 && ToLower(ext) != from then p
    else p[..|p| - |ext|] + to
  }

  /** convertMarkdownPathToHtmlPath */
  function ConvertMarkdownPathToHtmlPath(markdownPath: string): (htmlPath: string)
    ensures ExtMatches(markdownPath, ".md") ==>
      Ext(htmlPath) == ".html" && Stem(htmlPath) == Stem(markdownPath) && Dir(htmlPath) == Dir(markdownPath)
    ensures !ExtMatches(markdownPath, ".md") ==> htmlPath == markdownPath
  {
    ReplaceExtSpec(markdownPath, ".md", ".html");
    assert IsExtension(".html");
    ReplaceExt(markdownPath, ".md", ".html")
  }

  /** The extension of a stem followed by a well-formed extension is that extension. */
  lemma {:induction false} ExtOfExtension(stem: string, e: string)
    requires IsExtension(e)
    ensures Ext(stem + e) == e
  {
    if |e| > 1 {
      var e' := e[..|e| - 1];
      assert (stem + e)[..|stem + e| - 1] == stem + e';
      ExtOfExtension(stem, e');
    }
  }

  /** Appending separator-free text does not move the last separator. */
  lemma LastSepOfSuffixed(stem: string, e: string)
    requires Separator !in e
    ensures LastSep(stem + e) == LastSep(stem)
  {
    var p := stem + e;
    var q := LastSep(stem);
    var r := LastSep(p);
    if q >= 0 {
      assert p[q] == Separator;
    }
  }

  /** Appending separator-free text keeps the directory. */
  lemma DirOfSuffixed(stem: string, e: string)
    requires Separator !in e
    ensures Dir(stem + e) == Dir(stem)
  {
    LastSepOfSuffixed(stem, e);
    var k := LastSep(stem) + 1;
    assert (stem + e)[..k] == stem[..k];
  }

  /** A stem followed by an extension has that extension, that stem and the stem's directory. */
  lemma StemWithExtension(stem: string, e: string)
    requires IsExtension(e)
    ensures Ext(stem + e) == e && Stem(stem + e) == stem && Dir(stem + e) == Dir(stem)
  {
    ExtOfExtension(stem, e);
    assert Separator !in e;
    DirOfSuffixed(stem, e);
  }

  /** A path lies in the same directory as its stem. */
  lemma DirOfStem(p: string)
    ensures Dir(Stem(p)) == Dir(p)
  {
    assert Stem(p) + Ext(p) == p;
    DirOfSuffixed(Stem(p), Ext(p));
  }

  /** replaceExt leaves a path whose extension does not match untouched; otherwise it installs
      `to` after the stem. When `to` is an extension, the result then has extension `to` and keeps
      the directory and the stem. */
  lemma ReplaceExtSpec(p: string, from: string, to: string)
    ensures !ExtMatches(p, from) ==> ReplaceExt(p, from, to) == p
    ensures ExtMatches(p, from) ==> ReplaceExt(p, from, to) == Stem(p) + to
    ensures ExtMatches(p, from) && IsExtension(to) ==>
      var r := ReplaceExt(p, from, to);
      Ext(r) == to && Stem(r) == Stem(p) && Dir(r) == Dir(p)
  {
    if ExtMatches(p, from) && IsExtension(to) {
      StemWithExtension(Stem(p), to);
      DirOfStem(p);
    }
  }

  /** A path that has already been converted is not converted again. */
  lemma ConvertIdempotent(markdownPath: string)
    ensures ConvertMarkdownPathToHtmlPath(ConvertMarkdownPathToHtmlPath(markdownPath))
         == ConvertMarkdownPathToHtmlPath(markdownPath)
  {
    var h := ConvertMarkdownPathToHtmlPath(markdownPath);
    if ExtMatches(markdownPath, ".md") {
      assert ToLower(".html")[1] == 'h';
    }
  }

  /** Converting a lower-case `.md` path and then swapping `.html` back gives the original path. */
  lemma ConvertRoundTrip(markdownPath: string)
    requires Ext(markdownPath) == ".md"
    ensures ReplaceExt(ConvertMarkdownPathToHtmlPath(markdownPath), ".html", ".md") == markdownPath
  {
    LowerCaseIsFixed(".md");
    LowerCaseIsFixed(".html");
    var h := ConvertMarkdownPathToHtmlPath(markdownPath);
    assert Ext(h) == ".html";
    assert h == Stem(markdownPath) + ".html";
    assert ReplaceExt(h, ".html", ".md") == Stem(markdownPath) + ".md";
    assert markdownPath == Stem(markdownPath) + Ext(markdownPath);
  }

  /** The extension match is case-insensitive: `A.MD` becomes `A.html`, whatever `A` is. */
  lemma UpperCaseMarkdownExtension(stem: string)
    ensures ConvertMarkdownPathToHtmlPath(stem + ".MD") == stem + ".html"
  {
    var p := stem + ".MD";
    assert IsExtension(".MD");
    ExtOfExtension(stem, ".MD");
    assert ToLower(".MD") == ".md";
    assert p[..|stem|] == stem;
  }
}
