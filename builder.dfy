/** The Builder of the static-site build: its configuration, the template registry and the base
    render context, with the operations that read and fill them. */
module Builder {
  import opened Wrappers
  import opened Errors
  import opened GoStrings
  import opened FilePath
  import opened Paths
  import opened Discovery
  import opened Templates
  import opened Content

  /** The part of Config the modelled operations read: the output and layouts roots and the base
      names excluded from the build. */
  datatype Config = Config(dist: string, layouts: string, ignoreFiles: seq<string>)

  /** The collaborators renderContent calls, as functions of their inputs:
      createDistFile (make the directory, create the file), os.Create, os.ReadFile,
      frontmatter.Parse, goldmark's Convert, SaveTwemojiPng (emoji, destination), FrontMatter.AsMap
      and the template's FRender (template, context). An error result means the call failed. */
  datatype Env = Env(
    createDistFile: string -> Option<Error>,
    createFile: string -> Option<Error>,
    readFile: string -> Result<Bytes, Error>,
    parseFrontMatter: Bytes -> Result<(FrontMatter, Bytes), Error>,
    convert: Bytes -> Result<string, Error>,
    saveTwemojiPng: (string, string) -> Option<Error>,
    asMap: FrontMatter -> map<string, Value>,
    render: (Template, map<string, Value>) -> Option<Error>)

  /** What a successful renderContent did: the HTML file it wrote and with which template and
      context, the file data after defaulting, and the share image it wrote, if any. */
  datatype Page = Page(htmlDistPath: string, template: Template, fileData: FileData,
                       context: map<string, Value>, imageDistPath: Option<string>)

  class Builder {
    var config: Config
    var templateMap: map<string, Template>
    var baseRenderContext: map<string, Value>

    /** NewBuilder: only the configuration is set. */
    constructor (config: Config)
      ensures this.config == config && templateMap == map[] && baseRenderContext == map[]
    {
      this.config := config;
      templateMap := map[];
      baseRenderContext := map[];
    }

    /** purgeIgnoreFiles */
    method PurgeIgnoreFiles(files: seq<string>) returns (res: seq<string>)
      ensures res == Purge(files, config.ignoreFiles)
    {
      res := [];
      for i := 0 to |files|
        invariant res == Purge(files[..i], config.ignoreFiles)
      {
        assert files[..i + 1][..i] == files[..i];
        var name := Base(files[i]);
        if name in config.ignoreFiles {
          continue;
        }
        res := res + [files[i]];
      }
      assert files[..|files|] == files;
    }

    /** initTemplateMap: parses every template file in order; on the first failure it returns
        that error and leaves the registry as it was, otherwise it installs the new registry. */
    method InitTemplateMap(templateFiles: seq<string>, parse: string -> Result<Template, Error>)
      returns (err: Option<Error>)
      modifies this`templateMap
      ensures ParseTemplates(templateFiles, parse).Success? ==>
        err == None && templateMap == ParseTemplates(templateFiles, parse).value
      ensures ParseTemplates(templateFiles, parse).Failure? ==>
        err == Some(ParseTemplates(templateFiles, parse).error) && templateMap == old(templateMap)
    {
      var m: map<string, Template> := map[];
      for i := 0 to |templateFiles|
        invariant ParseTemplates(templateFiles[..i], parse) == Success(m)
      {
        assert templateFiles[..i + 1][..i] == templateFiles[..i];
        var t := parse(templateFiles[i]);
        if t.Failure? {
          ParseFailurePersists(templateFiles, i + 1, parse);
          return Some(t.error);
        }
        m := m[templateFiles[i] := t.value];
      }
      assert templateFiles[..|templateFiles|] == templateFiles;
      templateMap := m;
      return None;
    }

    /** getRenderContext: "contents" first, then every base key, then every front-matter key,
        each assignment overwriting the previous one; map iteration order is left open. */
    method GetRenderContext(fileData: FileData, asMap: FrontMatter -> map<string, Value>)
      returns (renderContext: map<string, Value>)
      ensures IsRenderContext(renderContext, fileData.content, baseRenderContext, asMap(fileData.frontMatter))
    {
      renderContext := map["contents" := Text(fileData.content)];
      var base := baseRenderContext;
      var pending := base.Keys;
      while pending != {}
        invariant pending <= base.Keys
        invariant renderContext.Keys == {"contents"} + (base.Keys - pending)
        invariant forall k :: k in renderContext ==>
          renderContext[k] == if k in base.Keys - pending then base[k] else Text(fileData.content)
        decreases pending
      {
        var k :| k in pending;
        renderContext := renderContext[k := base[k]];
        pending := pending - {k};
      }
      var matter := asMap(fileData.frontMatter);
      pending := matter.Keys;
      while pending != {}
        invariant pending <= matter.Keys
        invariant renderContext.Keys == {"contents"} + base.Keys + (matter.Keys - pending)
        invariant forall k :: k in renderContext ==>
          renderContext[k] ==
            if k in matter.Keys - pending then matter[k]
            else if k in base then base[k] else Text(fileData.content)
        decreases pending
      {
        var k :| k in pending;
        renderContext := renderContext[k := matter[k]];
        pending := pending - {k};
      }
    }

    /** What the second half of renderContent (from the slug default on) promises for a page
        whose destination was created, whose template was found and whose file data was read:
        a failure to create or write a wanted share image is returned; otherwise the result is the
        rendering of the defaulted file data, succeeding exactly when the template renders. */
    ghost predicate FinishesPage(r: Result<Page, Error>, markdownPath: string, htmlPath: string,
                                 htmlDistPath: string, template: Template, fileData: FileData, env: Env)
      reads this
    {
      var fm := fileData.frontMatter;
      var defaulted := fileData.(frontMatter := WithDefaults(fm, htmlPath, markdownPath));
      var imageDistPath := Join([config.dist, ImagePath(markdownPath)]);
      var imageFailed := WantsOgImage(fm) &&
        (env.createFile(imageDistPath).Some? || env.saveTwemojiPng(fm.emoji, imageDistPath).Some?);
      && (WantsOgImage(fm) && env.createFile(imageDistPath).Some? ==>
            r == Failure(env.createFile(imageDistPath).value))
      && (WantsOgImage(fm) && env.createFile(imageDistPath).None? &&
          env.saveTwemojiPng(fm.emoji, imageDistPath).Some? ==>
            r == Failure(env.saveTwemojiPng(fm.emoji, imageDistPath).value))
      && (r.Success? ==>
            && !imageFailed
            && r.value.htmlDistPath == htmlDistPath
            && r.value.template == template
            && r.value.fileData == defaulted
            && r.value.imageDistPath == (if WantsOgImage(fm) then Some(imageDistPath) else None)
            && IsRenderContext(r.value.context, fileData.content, baseRenderContext, env.asMap(defaulted.frontMatter))
            && env.render(template, r.value.context).None?)
      && (r.Failure? && !imageFailed ==>
            exists ctx :: IsRenderContext(ctx, fileData.content, baseRenderContext, env.asMap(defaulted.frontMatter)) &&
              env.render(template, ctx) == Some(r.error))
    }

    /** renderContent for one Markdown path. In order, each failure ending the call: create the
        HTML destination, look up the template, extract the file data; then the page is finished
        as FinishesPage says. */
    method RenderContent(markdownPath: string, env: Env) returns (r: Result<Page, Error>)
      ensures var htmlPath := ConvertMarkdownPathToHtmlPath(markdownPath);
        var htmlDistPath := Join([config.dist, htmlPath]);
        var template := LookUpTemplate(templateMap, config.layouts, htmlPath);
        var fileData := GetFileData(markdownPath, env.readFile, env.parseFrontMatter, env.convert);
        && (env.createDistFile(htmlDistPath).Some? ==> r == Failure(env.createDistFile(htmlDistPath).value))
        && (env.createDistFile(htmlDistPath).None? && template.Failure? ==> r == Failure(TemplateNotFound))
        && (env.createDistFile(htmlDistPath).None? && template.Success? && fileData.Failure? ==>
              r == Failure(fileData.error))
        && (env.createDistFile(htmlDistPath).None? && template.Success? && fileData.Success? ==>
              FinishesPage(r, markdownPath, htmlPath, htmlDistPath, template.value, fileData.value, env))
    {
      var htmlPath := ConvertMarkdownPathToHtmlPath(markdownPath);
      var htmlDistPath := Join([config.dist, htmlPath]);
      var created := env.createDistFile(htmlDistPath);
      if created.Some? {
        return Failure(created.value);
      }
      var template := LookUpTemplate(templateMap, config.layouts, htmlPath);
      if template.Failure? {
        return Failure(template.error);
      }
      var fileData := GetFileData(markdownPath, env.readFile, env.parseFrontMatter, env.convert);
      if fileData.Failure? {
        return Failure(fileData.error);
      }
      r := FinishPage(markdownPath, htmlPath, htmlDistPath, template.value, fileData.value, env);
    }

    /** The slug and share-image defaulting of renderContent, then the context and the render. */
    method FinishPage(markdownPath: string, htmlPath: string, htmlDistPath: string,
                      template: Template, fileData: FileData, env: Env) returns (r: Result<Page, Error>)
      ensures FinishesPage(r, markdownPath, htmlPath, htmlDistPath, template, fileData, env)
    {
      var filedata := fileData;
      if filedata.frontMatter.postSlug == "" {
        filedata := filedata.(frontMatter := filedata.frontMatter.(postSlug := ToSlash(TrimSuffix(htmlPath, ".html"))));
      }

      var imageDistPath: Option<string> := None;
      if filedata.frontMatter.ogImage == "" && filedata.frontMatter.emoji != "" {
        var imagePath := ReplaceExt(markdownPath, ".md", ".png");
        var imageDist := Join([config.dist, imagePath]);
        var createdImage := env.createFile(imageDist);
        if createdImage.Some? {
          return Failure(createdImage.value);
        }
        var saved := env.saveTwemojiPng(filedata.frontMatter.emoji, imageDist);
        if saved.Some? {
          return Failure(saved.value);
        }
        filedata := filedata.(frontMatter := filedata.frontMatter.(ogImage := ToSlash(imagePath)));
        imageDistPath := Some(imageDist);
      }

      var renderContext := GetRenderContext(filedata, env.asMap);
      var rendered := env.render(template, renderContext);
      if rendered.Some? {
        return Failure(rendered.value);
      }
      return Success(Page(htmlDistPath, template, filedata, renderContext, imageDistPath));
    }
  }
}
