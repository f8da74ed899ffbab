/** The content extractor (`getFileData`), the metadata defaults of `renderContent` and the shape
    of the render context built by `getRenderContext`. */
module Content {
  import opened Wrappers
  import opened Errors
  import opened GoStrings
  import opened FilePath
  import opened Paths

  type Bytes = seq<bv8>

  /** A value of the render context: text, or any other value produced by the configuration or
      front matter maps, kept opaque. */
  datatype Value = Text(s: string) | Opaque(handle: nat)

  /** YamlFrontMatter: the fields the builder reads and writes, plus every other field. */
  datatype FrontMatter = FrontMatter(postSlug: string, ogImage: string, emoji: string, extra: map<string, Value>)

  /** The zero value of YamlFrontMatter: what a page without front matter carries. */
  const ZeroFrontMatter := FrontMatter("", "", "", map[])

  /** FileData: the source path, the rendered HTML and the front matter. */
  datatype FileData = FileData(path: string, content: string, frontMatter: FrontMatter)

  /** getFileData, with the file read, the front-matter parser and the Markdown converter as
      parameters. The first failing step's error is returned; the content is always the converted
      remainder; the front matter is kept only when the parser changed the bytes. */
  function GetFileData(markdownPath: string,
                       readFile: string -> Result<Bytes, Error>,
                       parseFrontMatter: Bytes -> Result<(FrontMatter, Bytes), Error>,
                       convert: Bytes -> Result<string, Error>): (r: Result<FileData, Error>)
    ensures readFile(markdownPath).Failure? ==> r == Failure(readFile(markdownPath).error)
    ensures readFile(markdownPath).Success? ==>
      var content := readFile(markdownPath).value;
      parseFrontMatter(content).Failure? ==> r == Failure(parseFrontMatter(content).error)
    ensures readFile(markdownPath).Success? ==>
      var content := readFile(markdownPath).value;
      parseFrontMatter(content).Success? ==>
        var (fm, remainder) := parseFrontMatter(content).value;
        && (convert(remainder).Failure? ==> r == Failure(convert(remainder).error))
        && (convert(remainder).Success? ==>
              && r.Success?
              && r.value.path == markdownPath
              && r.value.content == convert(remainder).value
              && (remainder == content ==> r.value.frontMatter == ZeroFrontMatter)
              && (remainder != content ==> r.value.frontMatter == fm))
  {
    match readFile(markdownPath)
    case Failure(e) => Failure(e)
    case Success(content) =>
      match parseFrontMatter(content)
      case Failure(e) => Failure(e)
      case Success((yfm, markdown)) =>
        match convert(markdown)
        case Failure(e) => Failure(e)
        case Success(html) =>
          var fileData := FileData(markdownPath, html, ZeroFrontMatter);
          if content == markdown then Success(fileData)
          else Success(fileData.(frontMatter := yfm))
  }

  /** A file without a front-matter block (the parser hands back the bytes unchanged) yields the
      zero front matter and the whole file rendered as Markdown. */
  lemma NoFrontMatterIsZero(markdownPath: string,
                            readFile: string -> Result<Bytes, Error>,
                            parseFrontMatter: Bytes -> Result<(FrontMatter, Bytes), Error>,
                            convert: Bytes -> Result<string, Error>,
                            content: Bytes, parsed: FrontMatter, html: string)
    requires readFile(markdownPath) == Success(content)
    requires parseFrontMatter(content) == Success((parsed, content))
    requires convert(content) == Success(html)
    ensures GetFileData(markdownPath, readFile, parseFrontMatter, convert)
         == Success(FileData(markdownPath, html, ZeroFrontMatter))
  {
  }

  /** The zero front matter does not mean the file had no front-matter block: a block that sets
      no field (the parser strips it and hands back zero values) also yields it. */
  lemma EmptyBlockIsZeroToo(markdownPath: string,
                            readFile: string -> Result<Bytes, Error>,
                            parseFrontMatter: Bytes -> Result<(FrontMatter, Bytes), Error>,
                            convert: Bytes -> Result<string, Error>,
                            content: Bytes, remainder: Bytes, html: string)
    requires readFile(markdownPath) == Success(content)
    requires parseFrontMatter(content) == Success((ZeroFrontMatter, remainder))
    requires remainder != content
    requires convert(remainder) == Success(html)
    ensures GetFileData(markdownPath, readFile, parseFrontMatter, convert)
         == Success(FileData(markdownPath, html, ZeroFrontMatter))
  {
  }

  /** The slug a page gets when its front matter sets none: its output path without `.html`,
      with forward slashes. */
  function DefaultSlug(htmlPath: string): string
  {
    ToSlash(TrimSuffix(htmlPath, ".html"))
  }

  /** The path of the share image synthesised for a page: its source path with `.png`. */
  function ImagePath(markdownPath: string): string
  {
    ReplaceExt(markdownPath, ".md", ".png")
  }

  /** Whether renderContent synthesises a share image: none is set and an emoji is. */
  predicate WantsOgImage(fm: FrontMatter)
  {
    fm.ogImage == "" && fm.emoji != ""
  }

  /** The front matter after both defaulting rules of renderContent (when the image is written). */
  function WithDefaults(fm: FrontMatter, htmlPath: string, markdownPath: string): (r: FrontMatter)
    ensures fm.postSlug != "" ==> r.postSlug == fm.postSlug
    ensures fm.postSlug == "" ==> r.postSlug == DefaultSlug(htmlPath)
    ensures !WantsOgImage(fm) ==> r.ogImage == fm.ogImage
    ensures WantsOgImage(fm) ==> r.ogImage == ToSlash(ImagePath(markdownPath))
    ensures r.emoji == fm.emoji && r.extra == fm.extra
  {
    var slugged :=
      if fm.postSlug == "" then fm.(postSlug := DefaultSlug(htmlPath))
      else fm;
    if WantsOgImage(slugged) then slugged.(ogImage := ToSlash(ImagePath(markdownPath))) else slugged
  }

  /** Applying the defaults a second time changes nothing. */
  lemma WithDefaultsIdempotent(fm: FrontMatter, htmlPath: string, markdownPath: string)
    ensures WithDefaults(WithDefaults(fm, htmlPath, markdownPath), htmlPath, markdownPath)
         == WithDefaults(fm, htmlPath, markdownPath)
  {
  }

  /** The share image sits beside the page: same directory and stem, `.png` instead of `.html`. */
  lemma ImageBesidePage(markdownPath: string)
    requires ExtMatches(markdownPath, ".md")
    ensures var image := ImagePath(markdownPath);
      var page := ConvertMarkdownPathToHtmlPath(markdownPath);
      Dir(image) == Dir(page) && Stem(image) == Stem(page) && Ext(image) == ".png"
  {
    ReplaceExtSpec(markdownPath, ".md", ".png");
    assert IsExtension(".png");
    StemWithExtension(Stem(markdownPath), ".png");
    DirOfStem(markdownPath);
  }

  /** The page of `stem.md` is `stem.html` and its share image `stem.png`. */
  lemma MarkdownPagePaths(stem: string)
    ensures ConvertMarkdownPathToHtmlPath(stem + ".md") == stem + ".html"
    ensures ImagePath(stem + ".md") == stem + ".png"
  {
    var p := stem + ".md";
    assert IsExtension(".md");
    ExtOfExtension(stem, ".md");
    LowerCaseIsFixed(".md");
    assert p[..|stem|] == stem;
  }

  /** A page `stem.md` without a slug gets slug `stem` (e.g. `blog/hello.md` gets `blog/hello`),
      whether or not it has an emoji. */
  lemma DefaultSlugOfPage(stem: string, emoji: string)
    ensures WithDefaults(ZeroFrontMatter.(emoji := emoji), ConvertMarkdownPathToHtmlPath(stem + ".md"),
                         stem + ".md").postSlug == stem
  {
    MarkdownPagePaths(stem);
    var h := stem + ".html";
    assert HasSuffix(h, ".html");
    assert TrimSuffix(h, ".html") + ".html" == h;
  }

  /** A page `stem.md` without an image gets image `stem.png` (e.g. `blog/hello.png`) exactly
      when it has an emoji. */
  lemma DefaultImageOfPage(stem: string, emoji: string)
    ensures var fm := WithDefaults(ZeroFrontMatter.(emoji := emoji),
                                   ConvertMarkdownPathToHtmlPath(stem + ".md"), stem + ".md");
      fm.ogImage == if emoji != "" then stem + ".png" else ""
  {
    MarkdownPagePaths(stem);
  }

  /** What getRenderContext builds: the keys of the three layers, each taking its value from the
      last layer that has it, in the order contents, base context, front matter. */
  predicate IsRenderContext(ctx: map<string, Value>, contents: string,
                            base: map<string, Value>, frontMatter: map<string, Value>)
  {
    && ctx.Keys == {"contents"} + base.Keys + frontMatter.Keys
    && forall k :: k in ctx ==>
         ctx[k] == (if k in frontMatter then frontMatter[k] else if k in base then base[k] else Text(contents))
  }

  /** The render context is a function of its three inputs. */
  lemma RenderContextUnique(c1: map<string, Value>, c2: map<string, Value>, contents: string,
                            base: map<string, Value>, frontMatter: map<string, Value>)
    requires IsRenderContext(c1, contents, base, frontMatter)
    requires IsRenderContext(c2, contents, base, frontMatter)
    ensures c1 == c2
  {
  }

  /** Base `{a: 1}`, front matter `{a: 2, b: 3}` and contents "X" give `{contents: "X", a: 2, b: 3}`. */
  lemma RenderContextExample(ctx: map<string, Value>)
    requires IsRenderContext(ctx, "X", map["a" := Opaque(1)], map["a" := Opaque(2), "b" := Opaque(3)])
    ensures ctx == map["contents" := Text("X"), "a" := Opaque(2), "b" := Opaque(3)]
  {
    var expected := map["contents" := Text("X"), "a" := Opaque(2), "b" := Opaque(3)];
    assert ctx.Keys == expected.Keys;
  }
}
