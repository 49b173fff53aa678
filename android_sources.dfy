/**
 * The Android task that writes the JavaScript wrappers for the referenced
 * Java classes (android/hooks/tasks/generate-sources-task.js): full and
 * incremental runs, the class list kept between builds, and the bootstrap
 * script that maps `require` names onto the wrapper files.
 *
 * The disk is modelled as state: `files` is the set of file names in the
 * `hyperloop` output directory and `classList` the stored class list
 * (`None` when it is missing or cannot be parsed).
 */
module GenerateSources {
  import opened Wrappers
  import opened Strs
  import Order
  import opened AndroidGenerate

  /** The used classes of every scanned file, concatenated in the order of the reference map. */
  function Flatten(references: seq<seq<string>>): (r: seq<string>)
  {
    if references == [] then [] else Flatten(references[..|references| - 1]) + references[|references| - 1]
  }

  /** Every class of every file is kept, duplicates included. */
  lemma {:induction false} FlattenKeepsAll(references: seq<seq<string>>)
    ensures forall x :: x in Flatten(references) <==> exists i :: 0 <= i < |references| && x in references[i]
    ensures |Flatten(references)| == TotalSize(references)
  {
    if references != [] {
      var init := references[..|references| - 1];
      FlattenKeepsAll(init);
      forall x | x in Flatten(references)
        ensures exists i :: 0 <= i < |references| && x in references[i]
      {
        if x !in references[|references| - 1] {
          var i :| 0 <= i < |init| && x in init[i];
          assert references[i] == init[i];
        }
      }
      forall x, i | 0 <= i < |references| && x in references[i]
        ensures x in Flatten(references)
      {
        if i < |init| {
          assert init[i] == references[i];
        }
      }
    }
  }

  /** The number of used classes over all files. */
  function TotalSize(references: seq<seq<string>>): nat
  {
    if references == [] then 0 else TotalSize(references[..|references| - 1]) + |references[|references| - 1]|
  }

  /** `getAllReferencedClasses`, with its loop over the reference map. */
  method AllReferencedClasses(references: seq<seq<string>>) returns (referencedClasses: seq<string>)
    ensures referencedClasses == Flatten(references)
  {
    referencedClasses := [];
    for i := 0 to |references|
      invariant referencedClasses == Flatten(references[..i])
    {
      assert references[..i + 1][..i] == references[..i];
      referencedClasses := referencedClasses + references[i];
    }
    assert references[..|references|] == references;
  }

  const BootstrapFileName: string := "hyperloop.bootstrap.js"

  /** The first line of a bootstrap script. */
  const BootstrapHeader: string := "var binding = global.binding;"

  /** `path.extname(fileName).toLowerCase() === '.js'` for a file name that is not a bare `.js`. */
  predicate IsJsFile(fileName: string)
  {
    |fileName| > 3 && ToLower(fileName[|fileName| - 3..]) == ".js"
  }

  /** The bootstrap line for a class wrapper: its name with `.` for every `$`, mapped to the file. */
  function ClassRedirect(requireName: string): (r: string)
    ensures StartsWith(r, "binding.redirect('")
  {
    "binding.redirect('" + MapChar(requireName, '$', ".") + "', '/hyperloop/" + requireName + "');"
  }

  /** The bootstrap line for a package wrapper: the package with `.*`, mapped to the file. */
  function PackageRedirect(requireName: string): (r: string)
    ensures StartsWith(r, "binding.redirect('")
  {
    "binding.redirect('" + requireName + ".*', '/hyperloop/" + requireName + "');"
  }

  /**
   * The line a file of the output directory contributes: none for the
   * bootstrap itself and for files that are not JavaScript; a class
   * redirect for the wrapper of a generated class; a package redirect for
   * any other wrapper.
   */
  function RedirectLine(generated: set<string>, fileName: string): Option<string>
  {
    if fileName == BootstrapFileName || !IsJsFile(fileName) then None
    else
      var requireName := fileName[..|fileName| - 3];
      if requireName in generated then Some(ClassRedirect(requireName))
      else Some(PackageRedirect(requireName))
  }

  /** The lines the files in `fileNames` contribute, in order. */
  function Redirects(generated: set<string>, fileNames: seq<string>): seq<string>
  {
    if fileNames == [] then []
    else
      var last := fileNames[|fileNames| - 1];
      var line := RedirectLine(generated, last);
      Redirects(generated, fileNames[..|fileNames| - 1]) + if line.Some? then [line.value] else []
  }

  /** One more file adds its own line, if it has one. */
  lemma RedirectsStep(generated: set<string>, fileNames: seq<string>, i: nat)
    requires i < |fileNames|
    ensures var line := RedirectLine(generated, fileNames[i]);
      Redirects(generated, fileNames[..i + 1]) == Redirects(generated, fileNames[..i]) + if line.Some? then [line.value] else []
  {
    assert fileNames[..i + 1][..i] == fileNames[..i];
  }

  /**
   * The lines `generateBootstrap` collects: none when no class has been
   * generated, else the header and the line of each file, in order.
   */
  method BootstrapScript(generated: set<string>, outputFileNames: seq<string>) returns (lines: seq<string>)
    ensures lines == BootstrapLines(generated, outputFileNames)
  {
    lines := [];
    if generated != {} {
      lines := [BootstrapHeader];
      for i := 0 to |outputFileNames|
        invariant lines == [BootstrapHeader] + Redirects(generated, outputFileNames[..i])
      {
        RedirectsStep(generated, outputFileNames, i);
        var line := RedirectLine(generated, outputFileNames[i]);
        if line.Some? {
          lines := lines + [line.value];
        }
      }
      assert outputFileNames[..|outputFileNames|] == outputFileNames;
    }
  }

  /** The lines of the bootstrap script: none at all when no class has been generated. */
  function BootstrapLines(generated: set<string>, fileNames: seq<string>): (r: seq<string>)
    ensures r == [] <==> generated == {}
    ensures r != [] ==> r[0] == BootstrapHeader
  {
    if generated == {} then [] else [BootstrapHeader] + Redirects(generated, fileNames)
  }

  /**
   * Each JavaScript file other than the bootstrap contributes its line, and
   * every line comes from such a file.
   */
  lemma {:induction false} RedirectsCoverFiles(generated: set<string>, fileNames: seq<string>)
    ensures forall f :: f in fileNames && RedirectLine(generated, f).Some? ==>
      RedirectLine(generated, f).value in Redirects(generated, fileNames)
    ensures forall line :: line in Redirects(generated, fileNames) ==>
      exists f :: f in fileNames && RedirectLine(generated, f) == Some(line)
  {
    if fileNames != [] {
      var init := fileNames[..|fileNames| - 1];
      RedirectsCoverFiles(generated, init);
      assert fileNames == init + [fileNames[|fileNames| - 1]];
    }
  }

  /**
   * What the bootstrap maps: with no generated class there is no line;
   * otherwise the header comes first, each generated class's wrapper is
   * mapped under its dotted name and every other wrapper under its
   * package wildcard.
   */
  lemma BootstrapMaps(generated: set<string>, fileNames: seq<string>)
    ensures generated == {} <==> BootstrapLines(generated, fileNames) == []
    ensures generated != {} ==> BootstrapLines(generated, fileNames)[0] == BootstrapHeader
    ensures forall c :: generated != {} && c in generated && c != "" && WrapperFile(c) in fileNames && WrapperFile(c) != BootstrapFileName ==>
      ClassRedirect(c) in BootstrapLines(generated, fileNames)
    ensures forall f :: generated != {} && f in fileNames && f != BootstrapFileName && IsJsFile(f) && f[..|f| - 3] !in generated ==>
      PackageRedirect(f[..|f| - 3]) in BootstrapLines(generated, fileNames)
  {
    RedirectsCoverFiles(generated, fileNames);
    forall c | generated != {} && c in generated && c != "" && WrapperFile(c) in fileNames && WrapperFile(c) != BootstrapFileName
      ensures ClassRedirect(c) in BootstrapLines(generated, fileNames)
    {
      WrapperIsJs(c);
    }
  }

  /** The wrapper of a named class is a JavaScript file whose require name is the class. */
  lemma WrapperIsJs(c: string)
    requires c != ""
    ensures IsJsFile(WrapperFile(c))
    ensures WrapperFile(c)[..|WrapperFile(c)| - 3] == c
  {
    var f := WrapperFile(c);
    assert f[|f| - 3..] == ".js";
    assert ToLower(".js") == ".js";
    assert f[..|f| - 3] == c;
  }

  /** The classes of `classes` not in `s`, in order. */
  function Without(classes: seq<string>, s: set<string>): (r: seq<string>)
    ensures forall x :: x in r <==> x in classes && x !in s
  {
    if classes == [] then []
    else Without(classes[..|classes| - 1], s) + if classes[|classes| - 1] in s then [] else [classes[|classes| - 1]]
  }

  /** `classes.filter(className => !s.has(className))`. */
  method Filter(classes: seq<string>, s: set<string>) returns (r: seq<string>)
    ensures r == Without(classes, s)
  {
    r := [];
    for i := 0 to |classes|
      invariant r == Without(classes[..i], s)
    {
      assert classes[..i + 1][..i] == classes[..i];
      if classes[i] !in s {
        r := r + [classes[i]];
      }
    }
    assert classes[..|classes|] == classes;
  }

  /** `Array.from(s)`: the members of a set, each once. */
  method ListOf(s: set<string>) returns (r: seq<string>)
    ensures forall x :: x in r <==> x in s
  {
    r := [];
    var rest := s;
    while rest != {}
      invariant rest <= s
      invariant forall x :: x in r <==> x in s && x !in rest
      decreases |rest|
    {
      var x := PickKey(rest);
      r := r + [x];
      rest := rest - {x};
    }
  }

  /** The file name of the wrapper for a class or package. */
  function WrapperFile(name: string): string
  {
    name + ".js"
  }

  /** A class wrapper `generateFromJSON` writes for these classes. */
  ghost predicate ClassFileOf(classes: seq<string>, f: string)
  {
    exists c :: c in classes && f == WrapperFile(c)
  }

  /** A package wrapper `generateFromJSON` writes for these generated and removed classes. */
  ghost predicate PackageFileOf(classesToGenerate: seq<string>, removedClasses: seq<string>, f: string)
  {
    exists c, k :: (c in removedClasses || c in classesToGenerate) && Covers(PackageOf(c), k) && f == WrapperFile(k)
  }

  /**
   * The class list on disk names only classes whose wrapper is in the
   * output directory: a class it names is never generated again.
   */
  ghost predicate ListedHaveWrappers(classList: Option<set<string>>, files: set<string>)
  {
    classList.Some? ==> forall c :: c in classList.value ==> WrapperFile(c) in files
  }

  lemma WrapperFileInjective(a: string, b: string)
    requires WrapperFile(a) == WrapperFile(b)
    ensures a == b
  {
    assert a == WrapperFile(a)[..|a|];
    assert b == WrapperFile(b)[..|b|];
  }

  /** Without references the expansion is empty. */
  lemma NoReferencesExpansion(mb: Metabase)
    ensures IsExpansion(mb, Flatten([]), [])
  {
    var done: seq<string> := [];
    assert done[..0] == [];
    assert Extends(mb, [], done);
    assert Reached(mb, [], done, set c | c in Flatten([]));
    assert AllExpanded(mb, Flatten([]), done);
  }

  /** The classes a list names. */
  function Members(classes: seq<string>): set<string>
  {
    set x | x in classes
  }

  /**
   * The outcome of an incremental run over `references`: the generated set
   * is the expansion of the referenced classes, and when the stored list
   * (`oldClassList`) already was that expansion no wrapper was written.
   */
  ghost predicate UpdatedTo(mb: Metabase, references: seq<seq<string>>, oldClassList: Option<set<string>>,
                            oldFiles: set<string>, generated: set<string>, files: set<string>)
  {
    exists expanded ::
      IsExpansion(mb, Flatten(references), expanded) &&
      generated == Members(expanded) &&
      (oldClassList == Some(generated) ==> files <= oldFiles + {BootstrapFileName})
  }

  class GenerateSourcesTask {
    const metabase: Metabase
    /** `_generatedClasses` */
    var generatedClasses: set<string>
    /** `classes.json` in the incremental directory */
    var classList: Option<set<string>>
    /** the file names in the `hyperloop` output directory */
    var files: set<string>
    /** the lines of `hyperloop.bootstrap.js`, when it exists */
    var bootstrap: seq<string>

    /** A task for one build: nothing generated yet, the disk as the last build left it. */
    constructor (metabase: Metabase, classList: Option<set<string>>, files: set<string>)
      ensures this.metabase == metabase && this.classList == classList && this.files == files
      ensures generatedClasses == {} && bootstrap == []
    {
      this.metabase := metabase;
      this.classList := classList;
      this.files := files;
      generatedClasses := {};
      bootstrap := [];
    }

    /** `loadClassList`: a stored list becomes the generated set. */
    method LoadClassList() returns (loaded: bool)
      modifies this
      ensures loaded <==> classList.Some?
      ensures loaded ==> generatedClasses == classList.value
      ensures !loaded ==> generatedClasses == old(generatedClasses)
      ensures classList == old(classList) && files == old(files) && bootstrap == old(bootstrap)
    {
      if classList.Some? {
        generatedClasses := classList.value;
        return true;
      }
      return false;
    }

    /** `writeClassList`: the generated set is stored. */
    method WriteClassList()
      modifies this
      ensures classList == Some(generatedClasses)
      ensures generatedClasses == old(generatedClasses) && files == old(files) && bootstrap == old(bootstrap)
    {
      classList := Some(generatedClasses);
    }

    /** `removeUnusedClasses`: the wrapper of each class is deleted when it exists. */
    method RemoveUnusedClasses(classesToRemove: seq<string>)
      modifies this
      ensures forall f :: f in files <==> f in old(files) && !ClassFileOf(classesToRemove, f)
      ensures generatedClasses == old(generatedClasses) && classList == old(classList) && bootstrap == old(bootstrap)
    {
      for i := 0 to |classesToRemove|
        invariant forall f :: f in files <==> f in old(files) && !ClassFileOf(classesToRemove[..i], f)
        invariant generatedClasses == old(generatedClasses) && classList == old(classList) && bootstrap == old(bootstrap)
      {
        assert forall c :: c in classesToRemove[..i + 1] <==> c in classesToRemove[..i] || c == classesToRemove[i];
        files := files - {WrapperFile(classesToRemove[i])};
      }
      assert classesToRemove[..|classesToRemove|] == classesToRemove;
    }

    /**
     * `generateSources`: nothing when there is nothing to generate or
     * remove; otherwise a wrapper for each class to generate and one for
     * each package the package map names.
     */
    method GenerateSources(classesToGenerate: seq<string>, removedClasses: seq<string>)
      modifies this
      ensures classesToGenerate == [] && removedClasses == [] ==> files == old(files)
      ensures classesToGenerate != [] || removedClasses != [] ==>
        forall f :: f in files <==>
          f in old(files) || ClassFileOf(classesToGenerate, f) || PackageFileOf(classesToGenerate, removedClasses, f)
      ensures generatedClasses == old(generatedClasses) && classList == old(classList) && bootstrap == old(bootstrap)
    {
      if |classesToGenerate| == 0 && |removedClasses| == 0 {
        return;
      }
      var existingClasses := ListOf(generatedClasses);
      var packages := PackageMap(classesToGenerate, removedClasses, existingClasses);
      for i := 0 to |classesToGenerate|
        invariant forall f :: f in files <==> f in old(files) || ClassFileOf(classesToGenerate[..i], f)
        invariant generatedClasses == old(generatedClasses) && classList == old(classList) && bootstrap == old(bootstrap)
      {
        assert forall c :: c in classesToGenerate[..i + 1] <==> c in classesToGenerate[..i] || c == classesToGenerate[i];
        files := files + {WrapperFile(classesToGenerate[i])};
      }
      assert classesToGenerate[..|classesToGenerate|] == classesToGenerate;
      ghost var classFiles := files;
      var names := packages.Keys;
      while names != {}
        invariant names <= packages.Keys
        invariant forall f :: f in files <==> f in classFiles || exists k :: k in packages && k !in names && f == WrapperFile(k)
        invariant generatedClasses == old(generatedClasses) && classList == old(classList) && bootstrap == old(bootstrap)
        decreases |names|
      {
        var packageName := PickKey(names);
        files := files + {WrapperFile(packageName)};
        names := names - {packageName};
      }
    }

    /**
     * `generateBootstrap`: the lines for the sorted directory listing; the
     * script is written when there are lines and deleted when there are none.
     */
    method GenerateBootstrap()
      modifies this
      ensures bootstrap == BootstrapLines(generatedClasses, Order.SortedKeys(old(files)))
      ensures bootstrap != [] ==> files == old(files) + {BootstrapFileName}
      ensures bootstrap == [] ==> files == old(files) - {BootstrapFileName}
      ensures generatedClasses == old(generatedClasses) && classList == old(classList)
    {
      var outputFileNames := Order.SortKeys(files);
      var lines := BootstrapScript(generatedClasses, outputFileNames);
      bootstrap := lines;
      if lines != [] {
        files := files + {BootstrapFileName};
      } else {
        files := files - {BootstrapFileName};
      }
    }

    /**
     * `doFullTaskRun` as written: the output directory is emptied; with no
     * references the run stops there, leaving the generated set and the
     * stored class list as they were; otherwise the expanded classes are
     * generated, recorded, bootstrapped and stored.
     */
    method DoFullTaskRunAsWritten(references: seq<seq<string>>)
      modifies this
      ensures references == [] ==>
        files == {} && generatedClasses == old(generatedClasses) && classList == old(classList)
      ensures references != [] ==> FullRunDone(references)
    {
      files := {};
      if |references| == 0 {
        return;
      }
      FullRunGenerate(references);
    }

    /**
     * `doFullTaskRun` as intended: with no references the generated set is
     * emptied and stored too, so no class stays listed without its wrapper.
     */
    method DoFullTaskRun(references: seq<seq<string>>)
      modifies this
      ensures references == [] ==> files == {} && generatedClasses == {} && classList == Some({})
      ensures references != [] ==> FullRunDone(references)
      ensures ListedHaveWrappers(classList, files)
      ensures exists expanded ::
        (IsExpansion(metabase, Flatten(references), expanded) && generatedClasses == set x | x in expanded)
    {
      files := {};
      if |references| == 0 {
        generatedClasses := {};
        WriteClassList();
        NoReferencesExpansion(metabase);
        return;
      }
      FullRunGenerate(references);
    }

    /** The generated set after an incremental run: new classes added, unused ones deleted. */
    method UpdateGenerated(classesToGenerate: seq<string>, classesToRemove: seq<string>)
      modifies this
      ensures forall x :: x in generatedClasses <==>
        (x in old(generatedClasses) || x in classesToGenerate) && x !in classesToRemove
      ensures files == old(files) && classList == old(classList) && bootstrap == old(bootstrap)
    {
      for i := 0 to |classesToGenerate|
        invariant forall x :: x in generatedClasses <==> x in old(generatedClasses) || x in classesToGenerate[..i]
        invariant files == old(files) && classList == old(classList) && bootstrap == old(bootstrap)
      {
        assert forall x :: x in classesToGenerate[..i + 1] <==> x in classesToGenerate[..i] || x == classesToGenerate[i];
        generatedClasses := generatedClasses + {classesToGenerate[i]};
      }
      assert classesToGenerate[..|classesToGenerate|] == classesToGenerate;
      ghost var added := generatedClasses;
      for i := 0 to |classesToRemove|
        invariant forall x :: x in generatedClasses <==> x in added && x !in classesToRemove[..i]
        invariant files == old(files) && classList == old(classList) && bootstrap == old(bootstrap)
      {
        assert forall x :: x in classesToRemove[..i + 1] <==> x in classesToRemove[..i] || x == classesToRemove[i];
        generatedClasses := generatedClasses - {classesToRemove[i]};
      }
      assert classesToRemove[..|classesToRemove|] == classesToRemove;
    }

    /** After a full run with references: the expansion generated, recorded and stored. */
    ghost predicate FullRunDone(references: seq<seq<string>>)
      reads this
    {
      (exists expanded :: IsExpansion(metabase, Flatten(references), expanded) &&
        generatedClasses == set x | x in expanded) &&
      classList == Some(generatedClasses) &&
      ListedHaveWrappers(classList, files)
    }

    /** The part of `doFullTaskRun` after the references are found non-empty. */
    method FullRunGenerate(references: seq<seq<string>>)
      modifies this
      requires files == {}
      ensures FullRunDone(references)
    {
      var referenced := AllReferencedClasses(references);
      var classesToGenerate, done := ExpandDependencies(metabase, referenced);
      GenerateSources(classesToGenerate, []);
      assert forall c :: c in classesToGenerate ==> WrapperFile(c) in files;
      generatedClasses := set x | x in classesToGenerate;
      GenerateBootstrap();
      assert generatedClasses != {} ==> bootstrap != [];
      WriteClassList();
      FullRunDoneIntro(references, classesToGenerate);
    }

    /** `FullRunDone` from a witness expansion. */
    lemma FullRunDoneIntro(references: seq<seq<string>>, expanded: seq<string>)
      requires IsExpansion(metabase, Flatten(references), expanded) && generatedClasses == set x | x in expanded
      requires classList == Some(generatedClasses) && ListedHaveWrappers(classList, files)
      ensures FullRunDone(references)
    {
    }

    /**
     * `doIncrementalTaskRun`: without a stored class list, a full run;
     * otherwise the stored list is brought up to date with the expansion.
     */
    method DoIncrementalTaskRun(references: seq<seq<string>>)
      modifies this
      ensures old(ListedHaveWrappers(classList, files)) ==> ListedHaveWrappers(classList, files)
      ensures classList == Some(generatedClasses)
      ensures UpdatedTo(metabase, references, old(classList), old(files), generatedClasses, files)
    {
      var loaded := LoadClassList();
      if !loaded {
        DoFullTaskRun(references);
        return;
      }
      IncrementalUpdate(references);
    }

    /**
     * The incremental part of `doIncrementalTaskRun`: the classes expanded
     * but not generated are generated, the generated ones no longer expanded
     * have their wrappers deleted, and the generated set becomes the
     * expansion.  When the stored list already is the expansion, no wrapper
     * is written.
     */
    method IncrementalUpdate(references: seq<seq<string>>)
      modifies this
      requires classList == Some(generatedClasses)
      ensures old(ListedHaveWrappers(classList, files)) ==> ListedHaveWrappers(classList, files)
      ensures classList == Some(generatedClasses)
      ensures UpdatedTo(metabase, references, old(classList), old(files), generatedClasses, files)
    {
      var referenced := AllReferencedClasses(references);
      var expandedClassList, done := ExpandDependencies(metabase, referenced);
      ApplyExpansion(expandedClassList);
      ghost var written := files;
      GenerateBootstrap();
      assert generatedClasses != {} ==> bootstrap != [];
      assert files <= written + {BootstrapFileName};
      WriteClassList();
      assert IsExpansion(metabase, Flatten(references), expandedClassList) && generatedClasses == Members(expandedClassList);
    }

    /**
     * The classes of `expandedClassList` not generated yet are generated,
     * the generated ones it no longer lists have their wrappers deleted, and
     * the generated set becomes the classes it lists.
     */
    method ApplyExpansion(expandedClassList: seq<string>)
      modifies this
      ensures generatedClasses == Members(expandedClassList)
      ensures (forall c :: c in old(generatedClasses) ==> WrapperFile(c) in old(files)) ==>
        forall c :: c in generatedClasses ==> WrapperFile(c) in files
      ensures old(generatedClasses) == Members(expandedClassList) ==> files == old(files)
      ensures classList == old(classList) && bootstrap == old(bootstrap)
    {
      ghost var listed := generatedClasses;
      var classesToGenerate := Filter(expandedClassList, generatedClasses);
      var generatedList := ListOf(generatedClasses);
      var classesToRemove := Filter(generatedList, Members(expandedClassList));
      if listed == Members(expandedClassList) {
        WithoutAll(expandedClassList, listed);
        WithoutAll(generatedList, Members(expandedClassList));
      }
      RemoveUnusedClasses(classesToRemove);
      GenerateSources(classesToGenerate, classesToRemove);
      forall c | c in classesToGenerate
        ensures WrapperFile(c) in files
      {
        assert ClassFileOf(classesToGenerate, WrapperFile(c));
      }
      ghost var written := files;
      UpdateGenerated(classesToGenerate, classesToRemove);
      ExpansionGenerated(listed, expandedClassList, classesToGenerate, classesToRemove, generatedClasses);
      if forall c :: c in listed ==> WrapperFile(c) in old(files) {
        ListedWrappersKept(listed, classesToGenerate, classesToRemove, generatedClasses, old(files), written);
      }
    }
  }

  /** Filtering out a set that holds every class leaves nothing. */
  lemma {:induction false} WithoutAll(classes: seq<string>, s: set<string>)
    requires forall x :: x in classes ==> x in s
    ensures Without(classes, s) == []
  {
    if classes != [] {
      var init := classes[..|classes| - 1];
      assert forall x :: x in init ==> x in classes;
      WithoutAll(init, s);
      assert classes[|classes| - 1] in classes;
    }
  }

  /**
   * Adding the expanded classes not listed and removing the listed ones not
   * expanded turns the listed set into the expanded one.
   */
  lemma ExpansionGenerated(listed: set<string>, expanded: seq<string>, toGenerate: seq<string>,
                           toRemove: seq<string>, generated: set<string>)
    requires forall x :: x in toGenerate <==> x in expanded && x !in listed
    requires forall x :: x in toRemove <==> x in listed && x !in expanded
    requires forall x :: x in generated <==> (x in listed || x in toGenerate) && x !in toRemove
    ensures generated == Members(expanded)
  {
    forall x
      ensures x in generated <==> x in expanded
    {
    }
  }

  /**
   * A class still generated after the update has its wrapper: it was either
   * listed (and its wrapper was not deleted) or generated now.
   */
  lemma ListedWrappersKept(listed: set<string>, toGenerate: seq<string>, toRemove: seq<string>,
                           generated: set<string>, before: set<string>, after: set<string>)
    requires forall c :: c in listed ==> WrapperFile(c) in before
    requires forall f :: f in before && !ClassFileOf(toRemove, f) ==> f in after
    requires forall c :: c in toGenerate ==> WrapperFile(c) in after
    requires forall x :: x in generated ==> (x in listed || x in toGenerate) && x !in toRemove
    ensures forall c :: c in generated ==> WrapperFile(c) in after
  {
    forall c | c in generated
      ensures WrapperFile(c) in after
    {
      if c in listed && ClassFileOf(toRemove, WrapperFile(c)) {
        var d :| d in toRemove && WrapperFile(c) == WrapperFile(d);
        WrapperFileInjective(c, d);
      }
    }
  }

  /**
   * The metabase of the scenario below: one class `A` with no superclass,
   * methods or properties.
   */
  function SingleClassMetabase(): (mb: Metabase)
    ensures mb.Keys == {"A"} && Dependencies(mb["A"]) == []
  {
    map["A" := ClassDef("", [], [])]
  }

  /** Expanding a reference to `A` in that metabase lists `A` alone. */
  lemma SingleClassExpansion(r: seq<string>)
    requires IsExpansion(SingleClassMetabase(), Flatten([["A"]]), r)
    ensures forall x :: x in r <==> x == "A"
    ensures Members(r) == {"A"}
  {
    var mb := SingleClassMetabase();
    assert Flatten([["A"]]) == ["A"];
    var done :| Extends(mb, [], done) && AllExpanded(mb, ["A"], done) &&
      forall x :: x in r <==> exists c :: c in done && Pushes(mb, c, x);
    assert forall c :: c in done ==> c == "A" by {
      forall c | c in done
        ensures c == "A"
      {
        var i :| 0 <= i < |done| && done[i] == c;
        assert done[i] in mb;
      }
    }
    assert "A" in done;
    assert !StartsWith("A", "A" + "$");
    forall x
      ensures x in r <==> x == "A"
    {
      if x == "A" {
        assert Pushes(mb, "A", x);
      }
    }
  }

  /**
   * The disk after a full run without references, as written, over the
   * output of an earlier build that generated `A`: the directory is empty
   * but the stored list still names `A`.
   */
  method EmptyFullRunAsWritten() returns (classList: Option<set<string>>, files: set<string>)
    ensures classList == Some({"A"}) && files == {}
  {
    var first := new GenerateSourcesTask(SingleClassMetabase(), Some({"A"}), {WrapperFile("A")});
    first.DoFullTaskRunAsWritten([]);
    classList, files := first.classList, first.files;
  }

  /**
   * A full run without references, as written, followed by an incremental
   * run that references `A` again: `A` is listed as generated but its
   * wrapper is missing from the output directory.
   */
  method StaleClassListAsWritten() returns (task: GenerateSourcesTask)
    ensures "A" in task.generatedClasses && WrapperFile("A") !in task.files
  {
    var classList, files := EmptyFullRunAsWritten();
    task := new GenerateSourcesTask(SingleClassMetabase(), classList, files);
    task.DoIncrementalTaskRun([["A"]]);
    StaleOutcome(task.generatedClasses, task.files);
  }

  /** An incremental run referencing `A` over the stale disk lists `A` without writing its wrapper. */
  lemma StaleOutcome(generated: set<string>, files: set<string>)
    requires UpdatedTo(SingleClassMetabase(), [["A"]], Some({"A"}), {}, generated, files)
    ensures "A" in generated && WrapperFile("A") !in files
  {
    var expanded :| IsExpansion(SingleClassMetabase(), Flatten([["A"]]), expanded) &&
      generated == Members(expanded) &&
      (Some({"A"}) == Some(generated) ==> files <= {} + {BootstrapFileName});
    SingleClassExpansion(expanded);
  }

  /**
   * The same two runs with the corrected full run: the stored list is
   * emptied, so the incremental run writes the wrapper of `A`.
   */
  method StaleClassListCorrected() returns (task: GenerateSourcesTask)
    ensures "A" in task.generatedClasses && WrapperFile("A") in task.files
  {
    var mb := SingleClassMetabase();
    var first := new GenerateSourcesTask(mb, Some({"A"}), {WrapperFile("A")});
    first.DoFullTaskRun([]);
    task := new GenerateSourcesTask(mb, first.classList, first.files);
    task.DoIncrementalTaskRun([["A"]]);
    ReferencedIsGenerated(task.classList, task.files, task.generatedClasses);
  }

  /** After any incremental run referencing `A`, `A` is generated and, when the list kept its promise, written. */
  lemma ReferencedIsGenerated(classList: Option<set<string>>, files: set<string>, generated: set<string>)
    requires exists oldClassList, oldFiles :: UpdatedTo(SingleClassMetabase(), [["A"]], oldClassList, oldFiles, generated, files)
    requires classList == Some(generated) && ListedHaveWrappers(classList, files)
    ensures "A" in generated && WrapperFile("A") in files
  {
    var oldClassList, oldFiles :| UpdatedTo(SingleClassMetabase(), [["A"]], oldClassList, oldFiles, generated, files);
    var expanded :| IsExpansion(SingleClassMetabase(), Flatten([["A"]]), expanded) &&
      generated == Members(expanded);
    SingleClassExpansion(expanded);
    assert "A" in expanded;
  }
}
