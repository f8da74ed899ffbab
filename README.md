# go-vss builder, modelled in Dafny

This project models the deterministic decision logic of the go-vss static-site builder
(`builder.go`): how a Markdown source path becomes an HTML output path, which discovered files
are kept, how the template registry is filled and which template a page gets (exact template,
then the directory's `default.html`, then the global `default.html`), how the front matter is
extracted and defaulted, and how the render context is merged (contents, then the site-wide base
context, then the page's front matter, last writer wins).

Layout, one module per component:

- `wrappers.dfy` (`Wrappers`): `Option` and `Result`, for Go's `(value, error)` returns.
- `errors.dfy` (`Errors`): `TemplateNotFound` and the collaborators' errors, passed through unchanged.
- `gostrings.dfy` (`GoStrings`), `filepath.dfy` (`FilePath`): the functions the builder calls
  (`strings.ToLower`, `strings.HasSuffix`, `strings.TrimSuffix`; `filepath.Ext`, `filepath.Base`,
  `filepath.Dir`, `filepath.Join`, `filepath.ToSlash`), plus `filepath.Clean` and a
  separator join in the manner of `strings.Join`, which `Join` and `Dir` rest on. It also has a
  `Split` on the separator, used only to state `Clean`. Go's `Clean` scans the path without
  splitting it. All of these follow Go's documented semantics on a '/'-separated platform
  without volume names. They belong to the standard library, not to the repository; only
  `FilePath.Ext`, whose contract `replaceExt` rests on, has a row below.
- `seqs.dfy` (`Seqs`): the subsequence relation used for "keeps the order".
- `paths.dfy` (`Paths`): `replaceExt` and `convertMarkdownPathToHtmlPath`.
- `discovery.dfy` (`Discovery`): the selection of `getFilePathsByExt` over the visits of a
  directory walk, and the result of `purgeIgnoreFiles`.
- `templates.dfy` (`Templates`): the registry `initTemplateMap` builds and `lookUpTemplate`.
- `content.dfy` (`Content`): `getFileData`, the slug and share-image defaults of `renderContent`
  and the shape of the render context.
- `builder.dfy` (`Builder`): the `Builder` class with its `config`, `templateMap` and
  `baseRenderContext` fields and the methods that read or fill them.

The collaborators the builder calls (the file system, `frontmatter.Parse`, goldmark's `Convert`,
`mustache.ParseFile`, the template's `FRender`, `SaveTwemojiPng`, `FrontMatter.AsMap`) are
function-valued parameters: the model says what the builder does with whatever they return.
Templates are opaque handles, and render-context values are a tagged `Value`.

Behaviours of the code worth knowing:

- `renderContent` creates the destination HTML file before it looks up the template, so a page
  without a template still leaves an empty file behind (`Builder.Builder.RenderContent`).
- The render context starts with `contents` and is then overwritten by the base context and the
  front matter, so a base or front-matter key named `contents` replaces the rendered page
  (`Content.IsRenderContext`).
- The ignore list is applied to the Markdown files only, not to the template files (`Run`).
- `Run` returns on the first error it receives without waiting for the remaining renders; the
  others then block on the unbuffered error channel. `Run` is not part of this model.
- Discovery selects names ending in the exact, case-sensitive `.md`, so the case-insensitive branch
  of `replaceExt` (`A.MD` to `A.html`) is not reached from `Run`; it is modelled all the same.
- `getFileData` decides "no front matter" by comparing the parser's remainder with the file's
  bytes, not by the parsed values: a file whose front-matter block sets no field also ends with
  the zero front matter, although its remainder differs (`Content.EmptyBlockIsZeroToo`).

## Model

| member | source | states |
|---|---|---|
| `FilePath.Ext` | builder.go:260 | the extension is the suffix from the last '.' of the final path element, starts with '.', holds no other '.' and no separator, and is empty exactly when the final element has no '.' |
| `Paths.ReplaceExtSpec` | builder.go:259-265 | the contract of `Paths.ReplaceExt`, the direct model of `replaceExt`: with a non-empty `from` that differs from the lower-cased extension the path is returned unchanged; otherwise the result is the stem followed by `to`; when `to` is an extension (as `.html` and `.png` at both call sites are), the result has extension `to`, the same stem and the same directory |
| `Paths.UpperCaseMarkdownExtension` | builder.go:259-265 | the extension match is case-insensitive: for every stem `A`, `A.MD` becomes `A.html` |
| `Paths.ConvertMarkdownPathToHtmlPath` | builder.go:267-270 | a path with a `.md` extension (any case) keeps its directory and stem and gets the extension `.html`; any other path is returned unchanged |
| `Paths.ConvertIdempotent` | builder.go:267-270 | converting an already converted path changes nothing |
| `Paths.ConvertRoundTrip` | builder.go:259-270 | for a lower-case `.md` path, converting to `.html` and replacing `.html` by `.md` gives back the original path |
| `Discovery.GetFilePathsByExt` | builder.go:359-379 | the walk fails exactly when some visit reports an error; it then returns the first such error and no paths; otherwise it returns the selected paths in walk order |
| `Discovery.SelectedPathsMembers` | builder.go:367-369 | a path is returned exactly when some visit of it is a non-directory whose name ends with the extension |
| `Discovery.SelectedPathsInWalkOrder` | builder.go:362-372 | the returned paths are a subsequence of the visited paths: walk order is kept |
| `Builder.Builder.PurgeIgnoreFiles` | builder.go:122-134 | the loop returns exactly the purge of the input under the configured ignore list |
| `Discovery.PurgeMembers` | builder.go:122-134 | a path is kept exactly when it is an input whose base name is not in the ignore list |
| `Discovery.PurgeInOrder` | builder.go:122-134 | the kept paths are a subsequence of the input |
| `Discovery.PurgeIdempotent` | builder.go:122-134 | purging twice gives the same result as purging once |
| `Templates.ParseTemplates` | builder.go:226-234 | parsing succeeds exactly when every file parses; the registry's keys are then exactly the template files, each mapped to its parsed template; a failure is the error of the first file that fails, all before it having parsed |
| `Templates.ParseFailurePersists` | builder.go:228-232 | once a prefix of the files fails, the remaining files do not change the result |
| `Builder.Builder.InitTemplateMap` | builder.go:226-237 | on success the field holds the parsed registry and no error is returned; on the first parse failure that error is returned and the field is left as it was |
| `Templates.LookUpTemplate` | builder.go:240-257 | the lookup succeeds exactly when one of the three keys (exact, directory default, global default) is registered, returns the template of the first registered key in that order, and otherwise fails with "template not found" |
| `Templates.LookUpPrefersMoreSpecific` | builder.go:240-257 | registering a template under the key of a tier when no more specific tier is registered makes that template the result |
| `Templates.LookUpKeepsMoreSpecific` | builder.go:240-257 | when the lookup finds a template at some tier, that is the result, and registering any key that is none of the tiers up to it leaves the result unchanged: less specific tiers never override it |
| `Templates.LookUpIgnoresOtherKeys` | builder.go:240-257 | registering a template under any key other than the three candidates leaves the lookup unchanged |
| `Templates.JoinOfCleanRuns` | builder.go:244 | joining a layouts root and a page path, each made of clean elements, gives the slash-separated run of all their elements, i.e. `filepath.Join` adds exactly one separator and changes nothing else |
| `Templates.ExactKeyOfCleanPaths` | builder.go:244 | the first (exact) candidate key of a clean page path under a clean layouts root is root/path |
| `Templates.DirDefaultKeyOfCleanPaths` | builder.go:241-248 | the directory-default key of a clean page `dirs/name` under a clean root is root/dirs/default.html: `filepath.Dir` drops exactly the file name |
| `Templates.GlobalDefaultKeyOfCleanRoot` | builder.go:252 | the global-default key under a clean root is root/default.html |
| `Content.GetFileData` | builder.go:182-206 | the first failing step (read, front-matter parse, Markdown conversion) gives the error; otherwise the path is recorded, the content is the converted remainder, and the front matter is the zero value when the remainder equals the file's bytes and the parsed value when it differs |
| `Content.EmptyBlockIsZeroToo` | builder.go:195-205 | a parser that strips a block and returns zero values also yields the zero front matter, so zero front matter does not imply an unchanged file |
| `Content.NoFrontMatterIsZero` | builder.go:195-205 | a file whose bytes the parser hands back unchanged yields the zero front matter and the whole file rendered |
| `Content.WithDefaults` | builder.go:154-173 | an explicit slug is kept and an empty one becomes the output path without `.html`; the share image is set to the `.png` sibling of the source only when none is set and an emoji is; the emoji and every other field are untouched |
| `Content.WithDefaultsIdempotent` | builder.go:154-173 | applying the defaults twice is applying them once |
| `Content.ImageBesidePage` | builder.go:138-172 | the share image of a `.md` source has the page's directory and stem and the extension `.png` |
| `Content.MarkdownPagePaths` | builder.go:138-172 | the page of `stem.md` is `stem.html` and its share image `stem.png`, for every stem |
| `Content.DefaultSlugOfPage` | builder.go:154-158 | a page `stem.md` (e.g. `blog/hello.md`) without a slug gets slug `stem` (`blog/hello`), with or without an emoji |
| `Content.DefaultImageOfPage` | builder.go:160-172 | a page `stem.md` without a share image gets `stem.png` exactly when it has an emoji, and keeps the empty image otherwise |
| `Builder.Builder.GetRenderContext` | builder.go:209-224 | the context's keys are `contents` plus the base keys plus the front-matter keys, and each value comes from the front matter if it has the key, else from the base context, else it is the rendered content |
| `Content.RenderContextUnique` | builder.go:209-224 | the context is determined by its three inputs, whatever order the maps are iterated in |
| `Content.RenderContextExample` | builder.go:209-224 | base `{a: 1}`, front matter `{a: 2, b: 3}` and contents `X` give `{contents: X, a: 2, b: 3}` |
| `Builder.Builder.RenderContent` | builder.go:137-180 | a failure to create the destination, a missing template (after the destination was created) and a file-data failure are returned in that order; past them the page is finished as `FinishPage` states |
| `Builder.Builder.FinishPage` | builder.go:154-179 | a failure to create or write a wanted share image is returned; a successful page carries the defaulted file data, the image path exactly when one was wanted, a context built as `GetRenderContext` states, and a render that succeeded; past the image step any failure is the render's error on that context |
| `Builder.Builder.constructor` | builder.go:35-39 | a new builder holds the given configuration and an empty registry and base context |

## Left out

- `Run` (builder.go:61-120): the goroutine per file, the error channel and the wait group; which
  error wins depends on scheduling, so the build as a whole is not modelled.
- `copyStatic`, `copyFile`, `existDir`, `createDistDir`, `createDistFile` and the real
  `filepath.Walk`, `os.ReadFile`, `os.Create`: file-system I/O. Their outcomes are parameters;
  the walk is given as the sequence of visits it makes, in its order.
- `initGoldmark`: it only configures the goldmark, chroma and renderer libraries; the converter
  it builds is the `convert` parameter.
- `frontmatter.Parse`, `goldmark.Convert`, `mustache.ParseFile`, `FRender`, `SaveTwemojiPng`:
  foreign calls, modelled as uninterpreted function parameters.
- `Config.AsMap`, `FrontMatter.AsMap`, `LoadConfig`: not part of this model; the maps they produce are inputs
  (`baseRenderContext`, the `asMap` parameter).
- `GetDistPath`, `ReloadConfig`, `SetBaseUrl`: trivial accessors and setters of the configuration.
- `vss.go`: command-line wiring and a version constant.
- Closing files (`defer Close`) and the partial writes of a failed render are not modelled.
- `FilePath.Ext`, `FilePath.Dir`, `FilePath.Base`, `FilePath.Join`: Windows separators and
  volume names are not modelled; `ToSlash` is the identity on a '/' platform.
- `GoStrings.ToLower`: lower-cases ASCII letters only, not the full Unicode mapping of Go's `strings.ToLower`.
- `Builder.Builder.GetRenderContext`: Go also returns an error, which is always nil; the model returns the map alone.
- `Content.GetFileData`: on an error Go also returns a partly filled `FileData`, which every caller discards; the model returns the error alone.
