/** The template registry: building the map in `initTemplateMap` and the three-tier lookup of
    `lookUpTemplate`. */
module Templates {
  import opened Wrappers
  import opened Errors
  import opened GoStrings
  import opened FilePath

  /** A parsed mustache template, as an opaque handle. */
  datatype Template = Template(handle: nat)

  /** The registry that initTemplateMap produces from the template files, parsing them in order:
      the first parse failure is the result, otherwise every file maps to its parsed template. */
  function ParseTemplates(files: seq<string>, parse: string -> Result<Template, Error>)
    : (r: Result<map<string, Template>, Error>)
    ensures r.Success? <==> forall i :: 0 <= i < |files| ==> parse(files[i]).Success?
    ensures r.Success? ==> forall k :: k in r.value <==> k in files
    ensures r.Success? ==> forall k :: k in r.value ==> parse(k) == Success(r.value[k])
    ensures r.Failure? ==>
      exists i :: 0 <= i < |files| && parse(files[i]) == Failure(r.error) &&
        forall j :: 0 <= j < i ==> parse(files[j]).Success?
  {
    if files == [] then Success(map[])
    else
      var init := files[..|files| - 1];
      var last := files[|files| - 1];
      assert forall i :: 0 <= i < |init| ==> init[i] == files[i];
      match ParseTemplates(init, parse)
      case Failure(e) => Failure(e)
      case Success(m) =>
        match parse(last)
        case Failure(e) => Failure(e)
        case Success(t) => Success(m[last := t])
  }

  /** Once a prefix of the files fails to parse, the whole list fails with the same error. */
  lemma {:induction false} ParseFailurePersists(files: seq<string>, n: nat, parse: string -> Result<Template, Error>)
    requires n <= |files|
    requires ParseTemplates(files[..n], parse).Failure?
    ensures ParseTemplates(files, parse) == ParseTemplates(files[..n], parse)
  {
    if n < |files| {
      var init := files[..|files| - 1];
      assert init[..n] == files[..n];
      ParseFailurePersists(init, n, parse);
    } else {
      assert files[..n] == files;
    }
  }

  /** The three keys lookUpTemplate tries, most specific first: the page's own template, its
      directory's default.html and the layouts root's default.html. */
  function Candidates(layoutsDir: string, path: string): (keys: seq<string>)
    ensures |keys| == 3
  {
    [Join([layoutsDir, path]), Join([layoutsDir, Dir(path), "default.html"]), Join([layoutsDir, "default.html"])]
  }

  /** lookUpTemplate */
  function LookUpTemplate(templateMap: map<string, Template>, layoutsDir: string, path: string)
    : (r: Result<Template, Error>)
    ensures var keys := Candidates(layoutsDir, path);
      r.Success? <==> exists i :: 0 <= i < 3 && keys[i] in templateMap
    ensures var keys := Candidates(layoutsDir, path);
      r.Success? ==>
        exists i :: 0 <= i < 3 && keys[i] in templateMap && r.value == templateMap[keys[i]] &&
          forall j :: 0 <= j < i ==> keys[j] !in templateMap
    ensures r.Failure? ==> r.error == TemplateNotFound
  {
    var dir := Dir(path);
    var exact := Join([layoutsDir, path]);
    var dirDefault := Join([layoutsDir, dir, "default.html"]);
    var globalDefault := Join([layoutsDir, "default.html"]);
    var keys := Candidates(layoutsDir, path);
    assert keys == [exact, dirDefault, globalDefault];
    if exact in templateMap then assert keys[0] in templateMap; Success(templateMap[exact])
    else if dirDefault in templateMap then assert keys[1] in templateMap; Success(templateMap[dirDefault])
    else if globalDefault in templateMap then assert keys[2] in templateMap; Success(templateMap[globalDefault])
    else Failure(TemplateNotFound)
  }

  /** Registering a template under the key of tier `i` when no more specific tier is registered
      makes the page get that template. */
  lemma LookUpPrefersMoreSpecific(templateMap: map<string, Template>, layoutsDir: string, path: string,
                                  i: nat, t: Template)
    requires i < 3
    requires forall j :: 0 <= j < i ==> Candidates(layoutsDir, path)[j] !in templateMap
    ensures LookUpTemplate(templateMap[Candidates(layoutsDir, path)[i] := t], layoutsDir, path) == Success(t)
  {
    var keys := Candidates(layoutsDir, path);
    var m := templateMap[keys[i] := t];
    var r := LookUpTemplate(m, layoutsDir, path);
    assert keys[i] in m;
    var k :| 0 <= k < 3 && keys[k] in m && r.value == m[keys[k]] &&
      forall j :: 0 <= j < k ==> keys[j] !in m;
    assert k <= i;
    assert keys[k] == keys[i];
  }

  /** A template found on tier `j` stays the page's template whatever is registered under a key
      that is none of the tiers up to `j`: less specific tiers never override it. */
  lemma LookUpKeepsMoreSpecific(templateMap: map<string, Template>, layoutsDir: string, path: string,
                                j: nat, key: string, t: Template)
    requires j < 3
    requires Candidates(layoutsDir, path)[j] in templateMap
    requires forall l :: 0 <= l < j ==> Candidates(layoutsDir, path)[l] !in templateMap
    requires forall l :: 0 <= l <= j ==> Candidates(layoutsDir, path)[l] != key
    ensures LookUpTemplate(templateMap[key := t], layoutsDir, path) == LookUpTemplate(templateMap, layoutsDir, path)
    ensures LookUpTemplate(templateMap, layoutsDir, path) == Success(templateMap[Candidates(layoutsDir, path)[j]])
  {
    var keys := Candidates(layoutsDir, path);
    var m := templateMap[key := t];
    var r, r' := LookUpTemplate(templateMap, layoutsDir, path), LookUpTemplate(m, layoutsDir, path);
    var k :| 0 <= k < 3 && keys[k] in templateMap && r.value == templateMap[keys[k]] &&
      forall l :: 0 <= l < k ==> keys[l] !in templateMap;
    assert k == j;
    assert keys[j] in m;
    var k' :| 0 <= k' < 3 && keys[k'] in m && r'.value == m[keys[k']] &&
      forall l :: 0 <= l < k' ==> keys[l] !in m;
    assert k' == j;
  }

  /** Only the three candidate keys influence the lookup: registering any other template leaves
      every lookup of `path` as it was. */
  lemma LookUpIgnoresOtherKeys(templateMap: map<string, Template>, layoutsDir: string, path: string,
                               key: string, t: Template)
    requires key !in Candidates(layoutsDir, path)
    ensures LookUpTemplate(templateMap[key := t], layoutsDir, path) == LookUpTemplate(templateMap, layoutsDir, path)
  {
  }

  /** Joining two non-empty runs of clean elements gives the run of all of them. */
  lemma JoinOfCleanRuns(a: seq<string>, b: seq<string>)
    requires |a| >= 1 && |b| >= 1
    requires forall i :: 0 <= i < |a| ==> IsCleanElem(a[i])
    requires forall i :: 0 <= i < |b| ==> IsCleanElem(b[i])
    ensures Join([JoinWith(a, Separator), JoinWith(b, Separator)]) == JoinWith(a + b, Separator)
  {
    var x, y := JoinWith(a, Separator), JoinWith(b, Separator);
    JoinStartsWithFirst(a);
    assert DropLeadingEmpty([x, y]) == [x, y];
    assert JoinWith([x, y], Separator) == x + [Separator] + y;
    JoinWithConcat(a, b, Separator);
    assert forall i :: 0 <= i < |a + b| ==> IsCleanElem((a + b)[i]);
    CleanOfCleanElems(a + b);
  }

  /** The exact key of a clean page path under a clean layouts root is root/path. */
  lemma ExactKeyOfCleanPaths(root: seq<string>, page: seq<string>)
    requires |root| >= 1 && |page| >= 1
    requires forall i :: 0 <= i < |root| ==> IsCleanElem(root[i])
    requires forall i :: 0 <= i < |page| ==> IsCleanElem(page[i])
    ensures Candidates(JoinWith(root, Separator), JoinWith(page, Separator))[0] == JoinWith(root + page, Separator)
  {
    JoinOfCleanRuns(root, page);
  }

  /** The directory-default key (with `d` standing for `default.html`) of a clean page in a
      clean directory is root/dirs/d. */
  lemma DirDefaultKeyOfCleanPaths(root: seq<string>, dirs: seq<string>, name: string, d: string)
    requires |root| >= 1 && |dirs| >= 1 && IsCleanElem(name) && IsCleanElem(d)
    requires forall i :: 0 <= i < |root| ==> IsCleanElem(root[i])
    requires forall i :: 0 <= i < |dirs| ==> IsCleanElem(dirs[i])
    ensures Join([JoinWith(root, Separator), Dir(JoinWith(dirs + [name], Separator)), d])
         == JoinWith(root + dirs + [d], Separator)
  {
    var x, y := JoinWith(root, Separator), JoinWith(dirs, Separator);
    DirOfCleanPath(dirs, name);
    JoinStartsWithFirst(root);
    assert DropLeadingEmpty([x, y, d]) == [x, y, d];
    assert [x, y, d][..2] == [x, y];
    assert JoinWith([x, y, d], Separator) == JoinWith([x, y], Separator) + [Separator] + d;
    assert JoinWith([x, y], Separator) == x + [Separator] + y;
    JoinWithConcat(root, dirs, Separator);
    assert JoinWith([d], Separator) == d;
    JoinWithConcat(root + dirs, [d], Separator);
    var all := root + dirs + [d];
    assert forall i :: 0 <= i < |all| ==> IsCleanElem(all[i]);
    CleanOfCleanElems(all);
  }

  /** The global-default key (with `d` standing for `default.html`) under a clean layouts root
      is root/d. */
  lemma GlobalDefaultKeyOfCleanRoot(root: seq<string>, d: string)
    requires |root| >= 1 && IsCleanElem(d)
    requires forall i :: 0 <= i < |root| ==> IsCleanElem(root[i])
    ensures Join([JoinWith(root, Separator), d]) == JoinWith(root + [d], Separator)
  {
    assert JoinWith([d], Separator) == d;
    JoinOfCleanRuns(root, [d]);
  }
}
