/** UserInput: which slides a run normalises and where it keeps its files.
    InputChecker turns the indexes and names the user gives into a set of
    slide indexes; FileData checks the paths, creates the temporary folder
    and lists the slides to process. The slide folder listing, the QuPath
    project's image names and the order `list(set)` yields are parameters. */
module UserInput {
  import opened Wrappers
  import opened Errors
  import opened PathLib
  import opened FileStore
  import Resources

  // ---------------------------------------------------------------------
  // InputChecker.check_index_range / check_indexes

  /** `[i for i in indexes if i > count - 1]`: the indexes past the last
      slide, in the order given. */
  function OutOfRange(indexes: seq<int>, count: int): (out: seq<int>)
    ensures |out| <= |indexes|
    ensures forall x :: x in out <==> x in indexes && x > count - 1
  {
    if indexes == [] then []
    else
      var rest := OutOfRange(indexes[1..], count);
      assert forall x :: x in indexes <==> x == indexes[0] || x in indexes[1..];
      if indexes[0] > count - 1 then [indexes[0]] + rest else rest
  }

  /** check_index_range: the out-of-range indexes when the largest index is
      past the last slide, None otherwise; `max` of no indexes raises. */
  function CheckIndexRange(indexes: seq<int>, slideNames: seq<string>): (r: Result<Option<seq<int>>, Error>)
    ensures r.Err? <==> indexes == []
    ensures r.Err? ==> r.error == EmptySequenceError
    ensures r.Ok? ==> (r.value.Some? <==> exists i :: 0 <= i < |indexes| && indexes[i] >= |slideNames|)
    ensures r.Ok? && r.value.Some? ==> r.value.value == OutOfRange(indexes, |slideNames|) && r.value.value != []
  {
    if indexes == [] then Err(EmptySequenceError)
    else
      var top := Resources.Max(indexes);
      if top > |slideNames| - 1 then
        assert top in OutOfRange(indexes, |slideNames|);
        Ok(Some(OutOfRange(indexes, |slideNames|)))
      else
        assert forall i :: 0 <= i < |indexes| ==> indexes[i] in indexes;
        Ok(None)
  }

  /** The set of the elements of a list, `set(xs)`. */
  function SetOf(xs: seq<int>): (s: set<int>)
    ensures forall x :: x in s <==> x in xs
  {
    set x | x in xs
  }

  /** check_indexes: no indexes select nothing; an index past the last
      slide is rejected with every such index listed; otherwise the indexes
      themselves. Only the upper bound is checked. */
  function CheckIndexes(slideNames: seq<string>, provided: seq<int>): (r: Result<set<int>, Error>)
    ensures provided == [] ==> r == Ok({})
    ensures r.Err? <==> exists i :: 0 <= i < |provided| && provided[i] >= |slideNames|
    ensures r.Err? ==> r.error == UserInputError(IndexesOutOfRange(OutOfRange(provided, |slideNames|)))
    ensures r.Ok? ==> r.value == SetOf(provided)
  {
    if provided == [] then Ok({})
    else
      var outOfRange := CheckIndexRange(provided, slideNames).value;
      if outOfRange.Some? then Err(UserInputError(IndexesOutOfRange(outOfRange.value)))
      else Ok(SetOf(provided))
  }

  /** Negative indexes pass the check, however few slides there are. */
  lemma NegativeIndexesPass(slideNames: seq<string>, provided: seq<int>)
    requires forall i :: 0 <= i < |provided| ==> provided[i] < 0
    ensures CheckIndexes(slideNames, provided) == Ok(SetOf(provided))
  {
  }

  /** The indexes the check accepts are all below the number of slides. */
  lemma AcceptedIndexesAreBelowCount(slideNames: seq<string>, provided: seq<int>)
    requires CheckIndexes(slideNames, provided).Ok?
    ensures forall i :: i in CheckIndexes(slideNames, provided).value ==> i < |slideNames|
  {
    forall i | i in CheckIndexes(slideNames, provided).value
      ensures i < |slideNames|
    {
      var k :| 0 <= k < |provided| && provided[k] == i;
    }
  }

  // ---------------------------------------------------------------------
  // InputChecker.check_names

  /** What the caller passes as slide names: nothing, one string, or a
      list of strings. */
  datatype ProvidedNames = NoNames | OneName(name: string) | NameList(names: seq<string>)

  /** The names check_names loops over: nothing when the argument is falsy
      (None, "" or []), a single string wrapped in a list. */
  function NamesToCheck(provided: ProvidedNames): (names: seq<string>)
    ensures provided.NameList? ==> names == provided.names
    ensures provided.OneName? ==> names == if provided.name == "" then [] else [provided.name]
    ensures provided.NoNames? ==> names == []
  {
    match provided
    case NoNames => []
    case OneName(name) => if name == "" then [] else [name]
    case NameList(names) => names
  }

  /** `re.search('.svs', name)`: some character other than a newline (the
      unescaped dot) followed by "svs", anywhere in the name. */
  predicate MatchesSvsPattern(name: string) {
    |name| >= 4 && ((name[0] != '\n' && name[1..4] == "svs") || MatchesSvsPattern(name[1..]))
  }

  /** Every name with ".svs" appended matches the pattern. */
  lemma {:induction false} AppendedSuffixMatches(name: string)
    ensures MatchesSvsPattern(name + ".svs")
  {
    if name != [] {
      assert (name + ".svs")[1..] == name[1..] + ".svs";
      AppendedSuffixMatches(name[1..]);
    }
  }

  /** The name looked up: `.svs` appended when the pattern does not match. */
  function CompleteName(name: string): (full: string)
    ensures MatchesSvsPattern(full)
    ensures MatchesSvsPattern(name) ==> full == name
    ensures !MatchesSvsPattern(name) ==> full == name + ".svs"
  {
    if MatchesSvsPattern(name) then name
    else
      AppendedSuffixMatches(name);
      name + ".svs"
  }

  /** Completing a completed name changes nothing. */
  lemma CompleteNameIsIdempotent(name: string)
    ensures CompleteName(CompleteName(name)) == CompleteName(name)
  {
  }

  /** The dot of the pattern matches any character: "slide_svs" is looked
      up as it is, "slide" as "slide.svs". */
  lemma DotMatchesAnyCharacter()
    ensures CompleteName("slide_svs") == "slide_svs"
    ensures CompleteName("slide") == "slide.svs"
  {
    assert "slide_svs"[5..][1..4] == "svs";
    assert "slide"[1..4] == "lid" && "slide"[1..][1..4] == "ide";
  }

  /** `s.index(x)`: the position of the first x in s. */
  function FirstIndex(s: seq<string>, x: string): (i: nat)
    requires x in s
    ensures i < |s| && s[i] == x && x !in s[..i]
  {
    if s[0] == x then 0
    else
      var i := 1 + FirstIndex(s[1..], x);
      assert s[..i] == [s[0]] + s[1..][..i - 1];
      i
  }

  /** The completed forms of the names. */
  function Completed(names: seq<string>): (full: seq<string>)
    ensures |full| == |names|
    ensures forall k :: 0 <= k < |names| ==> full[k] == CompleteName(names[k])
  {
    seq(|names|, k requires 0 <= k < |names| => CompleteName(names[k]))
  }

  /** The slide indexes check_names collects from these names: every
      completed name must be a slide name, and each contributes the
      position of its first occurrence among the slide names. */
  function NameIndexes(slideNames: seq<string>, names: seq<string>): (r: Result<set<int>, Error>)
    ensures r.Ok? <==> forall k :: 0 <= k < |names| ==> CompleteName(names[k]) in slideNames
  {
    if names == [] then Ok({})
    else
      var name := CompleteName(names[|names| - 1]);
      var found :- NameIndexes(slideNames, names[..|names| - 1]);
      if name in slideNames then Ok(found + {FirstIndex(slideNames, name)})
      else Err(UserInputError(UnknownSlideName(name)))
  }

  /** The indexes collected are exactly the first occurrences of the
      completed names. */
  lemma {:induction false} NameIndexesAreFirstOccurrences(slideNames: seq<string>, names: seq<string>)
    requires NameIndexes(slideNames, names).Ok?
    ensures forall i :: i in NameIndexes(slideNames, names).value <==>
      0 <= i < |slideNames| && slideNames[i] in Completed(names) && slideNames[i] !in slideNames[..i]
  {
    if names != [] {
      var front := names[..|names| - 1];
      NameIndexesAreFirstOccurrences(slideNames, front);
      NameIndexesStep(slideNames, names, NameIndexes(slideNames, front).value);
    }
  }

  /** The name reported is the first one that is not a slide name. */
  lemma {:induction false} NameIndexesReportsFirstUnknown(slideNames: seq<string>, names: seq<string>)
    requires NameIndexes(slideNames, names).Err?
    ensures exists k :: (0 <= k < |names| && CompleteName(names[k]) !in slideNames &&
      NameIndexes(slideNames, names).error == UserInputError(UnknownSlideName(CompleteName(names[k]))) &&
      forall j :: 0 <= j < k ==> CompleteName(names[j]) in slideNames)
  {
    var front := names[..|names| - 1];
    var last := |names| - 1;
    if NameIndexes(slideNames, front).Err? {
      NameIndexesReportsFirstUnknown(slideNames, front);
      var k :| 0 <= k < |front| && CompleteName(front[k]) !in slideNames &&
        NameIndexes(slideNames, front).error == UserInputError(UnknownSlideName(CompleteName(front[k]))) &&
        forall j :: 0 <= j < k ==> CompleteName(front[j]) in slideNames;
      assert names[k] == front[k];
      assert forall j :: 0 <= j < k ==> names[j] == front[j];
    } else {
      assert forall j :: 0 <= j < last ==> names[j] == front[j];
      assert CompleteName(names[last]) !in slideNames;
    }
  }

  /** A position is the first occurrence of its name exactly when it is
      the FirstIndex of that name. */
  lemma FirstOccurrence(slideNames: seq<string>, i: int)
    requires 0 <= i < |slideNames|
    ensures slideNames[i] !in slideNames[..i] <==> i == FirstIndex(slideNames, slideNames[i])
  {
    var f := FirstIndex(slideNames, slideNames[i]);
    if f < i {
      assert slideNames[f] in slideNames[..i];
    }
  }

  /** Completing a list completes its front, then its last name. */
  lemma CompletedOfLast(names: seq<string>)
    requires names != []
    ensures Completed(names) == Completed(names[..|names| - 1]) + [CompleteName(names[|names| - 1])]
  {
    var front := names[..|names| - 1];
    var lhs := Completed(names);
    var rhs := Completed(front) + [CompleteName(names[|names| - 1])];
    assert |lhs| == |rhs|;
    forall k | 0 <= k < |lhs|
      ensures lhs[k] == rhs[k]
    {
      if k < |front| {
        assert front[k] == names[k];
      }
    }
  }

  /** Adding the last name's first index to the indexes of the names before
      it gives the indexes of all the names. */
  lemma NameIndexesStep(slideNames: seq<string>, names: seq<string>, found: set<int>)
    requires names != []
    requires CompleteName(names[|names| - 1]) in slideNames
    requires forall i :: i in found <==>
      0 <= i < |slideNames| && slideNames[i] in Completed(names[..|names| - 1]) && slideNames[i] !in slideNames[..i]
    ensures forall i :: i in found + {FirstIndex(slideNames, CompleteName(names[|names| - 1]))} <==>
      0 <= i < |slideNames| && slideNames[i] in Completed(names) && slideNames[i] !in slideNames[..i]
  {
    var front := names[..|names| - 1];
    var name := CompleteName(names[|names| - 1]);
    CompletedOfLast(names);
    var f := FirstIndex(slideNames, name);
    forall i | 0 <= i < |slideNames|
      ensures i == f <==> slideNames[i] == name && slideNames[i] !in slideNames[..i]
    {
      FirstOccurrence(slideNames, i);
    }
  }

  /** check_names: loop over the names, completing each and adding the
      index of its first occurrence to the set; an unknown name raises. */
  method CheckNames(slideNames: seq<string>, provided: ProvidedNames) returns (r: Result<set<int>, Error>)
    ensures r == NameIndexes(slideNames, NamesToCheck(provided))
  {
    var names := NamesToCheck(provided);
    var toProcess: set<int> := {};
    var k := 0;
    while k < |names|
      invariant 0 <= k <= |names|
      invariant NameIndexes(slideNames, names[..k]) == Ok(toProcess)
    {
      var name := CompleteName(names[k]);
      if name !in slideNames {
        FirstUnknownIsReported(slideNames, names, k);
        return Err(UserInputError(UnknownSlideName(name)));
      }
      NameIndexesKnown(slideNames, names, k, toProcess);
      toProcess := toProcess + {FirstIndex(slideNames, name)};
      k := k + 1;
    }
    assert names[..k] == names;
    return Ok(toProcess);
  }

  /** A known name adds the index of its first occurrence. */
  lemma NameIndexesKnown(slideNames: seq<string>, names: seq<string>, k: nat, found: set<int>)
    requires k < |names| && NameIndexes(slideNames, names[..k]) == Ok(found)
    requires CompleteName(names[k]) in slideNames
    ensures NameIndexes(slideNames, names[..k + 1]) == Ok(found + {FirstIndex(slideNames, CompleteName(names[k]))})
  {
    assert names[..k + 1][..k] == names[..k];
  }

  /** When every name before position k is known and the one at k is
      not, checking the whole list raises for the name at k. */
  lemma FirstUnknownIsReported(slideNames: seq<string>, names: seq<string>, k: nat)
    requires k < |names| && NameIndexes(slideNames, names[..k]).Ok?
    requires CompleteName(names[k]) !in slideNames
    ensures NameIndexes(slideNames, names) == Err(UserInputError(UnknownSlideName(CompleteName(names[k]))))
  {
    forall j | 0 <= j < k
      ensures CompleteName(names[j]) in slideNames
    {
      assert names[..k][j] == names[j];
    }
    NameIndexesReportsFirstUnknown(slideNames, names);
    var f :| 0 <= f < |names| && CompleteName(names[f]) !in slideNames &&
      NameIndexes(slideNames, names).error == UserInputError(UnknownSlideName(CompleteName(names[f]))) &&
      forall j :: 0 <= j < f ==> CompleteName(names[j]) in slideNames;
    assert f == k;
  }

  /** Naming every slide, by distinct names the pattern already matches,
      selects every slide. */
  lemma NamingEverySlide(slideNames: seq<string>)
    requires forall i, j :: 0 <= i < j < |slideNames| ==> slideNames[i] != slideNames[j]
    requires forall i :: 0 <= i < |slideNames| ==> MatchesSvsPattern(slideNames[i])
    ensures NameIndexes(slideNames, slideNames).Ok?
    ensures forall i :: i in NameIndexes(slideNames, slideNames).value <==> 0 <= i < |slideNames|
  {
    var r := NameIndexes(slideNames, slideNames);
    assert r.Ok?;
    NameIndexesAreFirstOccurrences(slideNames, slideNames);
    forall i | 0 <= i < |slideNames|
      ensures i in r.value
    {
      assert slideNames[i] == Completed(slideNames)[i];
    }
  }

  // ---------------------------------------------------------------------
  // InputChecker.controller

  /** controller: the checked indexes, updated with the indexes of the
      checked names; an index error is raised before any name is looked
      at. */
  method Controller(slideNames: seq<string>, providedNames: ProvidedNames, providedIndexes: seq<int>)
    returns (r: Result<set<int>, Error>)
    ensures var byIndex := CheckIndexes(slideNames, providedIndexes);
      var byName := NameIndexes(slideNames, NamesToCheck(providedNames));
      (byIndex.Err? ==> r == Err(byIndex.error)) &&
      (byIndex.Ok? && byName.Err? ==> r == Err(byName.error)) &&
      (byIndex.Ok? && byName.Ok? ==> r == Ok(byIndex.value + byName.value))
    ensures r.Ok? ==> forall i :: i in r.value ==> i < |slideNames|
    ensures r.Ok? ==> forall i :: 0 <= i < |providedIndexes| ==> providedIndexes[i] in r.value
  {
    var indexes :- CheckIndexes(slideNames, providedIndexes);
    var named :- CheckNames(slideNames, providedNames);
    AcceptedIndexesAreBelowCount(slideNames, providedIndexes);
    NameIndexesAreFirstOccurrences(slideNames, NamesToCheck(providedNames));
    indexes := indexes + named;
    return Ok(indexes);
  }

  // ---------------------------------------------------------------------
  // FileData.system_paths

  /** Where the slides come from: a folder of .svs files or a QuPath
      project file. */
  datatype SlideSource = SvsFolder(path: Path) | QuPathProject(path: Path)

  /** SystemPaths: the folder for the normalised slides, the temporary
      folder and the slide source. */
  datatype SystemPaths = SystemPaths(normSlidePath: Path, tempPath: Path, source: SlideSource)

  /** The error `PathChecker.str_to_path` raises for a path, if any. */
  function MustExist(dirs: set<Path>, files: map<Path, Content>, path: Path): Option<Error> {
    if path in dirs || path in files then None else Some(UserInputError(PathDoesNotExist(path)))
  }

  /** system_paths as a function of the file system before the call: the
      checks in the order the source makes them, and the temporary folder
      that is then created (given, or `temporaryFolderName` inside the
      folder for normalised slides). */
  function PathsCheck(dirs: set<Path>, files: map<Path, Content>, normPath: Path,
                      svsPath: Option<Path>, qpprojPath: Option<Path>, tempPath: Option<Path>,
                      rewrite: bool, temporaryFolderName: string): (r: Result<SystemPaths, Error>)
    ensures r.Ok? ==> normPath in dirs || normPath in files
    ensures r.Ok? ==> r.value.normSlidePath == normPath
    ensures r.Ok? ==> CreatePathError(dirs, files, r.value.tempPath, rewrite).None?
  {
    if svsPath.None? && qpprojPath.None? then Err(UserInputError(NoSlideSource))
    else if MustExist(dirs, files, normPath).Some? then Err(MustExist(dirs, files, normPath).value)
    else
      var sourcePath := if qpprojPath.Some? then qpprojPath.value else svsPath.value;
      if MustExist(dirs, files, sourcePath).Some? then Err(MustExist(dirs, files, sourcePath).value)
      else
        var source := if qpprojPath.Some? then QuPathProject(sourcePath) else SvsFolder(sourcePath);
        if tempPath.Some? && MustExist(dirs, files, tempPath.value).Some? then
          Err(MustExist(dirs, files, tempPath.value).value)
        else
          var temp := if tempPath.Some? then tempPath.value else normPath.Join(temporaryFolderName);
          var created := CreatePathError(dirs, files, temp, rewrite);
          if created.Some? then Err(created.value)
          else Ok(SystemPaths(normPath, temp, source))
  }

  /** system_paths: check the paths and create the temporary folder. */
  method SystemPathsOf(fs: FileSystem, normPath: Path, svsPath: Option<Path>, qpprojPath: Option<Path>,
                       tempPath: Option<Path>, rewrite: bool, temporaryFolderName: string)
    returns (r: Result<SystemPaths, Error>)
    modifies fs
    ensures r == PathsCheck(old(fs.dirs), old(fs.files), normPath, svsPath, qpprojPath, tempPath,
                            rewrite, temporaryFolderName)
    ensures fs.files == old(fs.files)
    ensures r.Ok? ==> fs.dirs == old(fs.dirs) + {r.value.tempPath}
    ensures r.Err? ==> fs.dirs == old(fs.dirs)
  {
    if svsPath.None? && qpprojPath.None? {
      return Err(UserInputError(NoSlideSource));
    }
    if !fs.Exists(normPath) {
      return Err(UserInputError(PathDoesNotExist(normPath)));
    }
    var source: SlideSource;
    if qpprojPath.Some? {
      if !fs.Exists(qpprojPath.value) {
        return Err(UserInputError(PathDoesNotExist(qpprojPath.value)));
      }
      source := QuPathProject(qpprojPath.value);
    } else {
      if !fs.Exists(svsPath.value) {
        return Err(UserInputError(PathDoesNotExist(svsPath.value)));
      }
      source := SvsFolder(svsPath.value);
    }
    var temp: Path;
    if tempPath.Some? {
      if !fs.Exists(tempPath.value) {
        return Err(UserInputError(PathDoesNotExist(tempPath.value)));
      }
      temp := tempPath.value;
    } else {
      temp := normPath.Join(temporaryFolderName);
    }
    var created := fs.CreatePath(temp, rewrite);
    if created.Err? {
      return Err(created.error);
    }
    return Ok(SystemPaths(normPath, temp, source));
  }

  /** Without a slide folder or a project nothing else is checked. */
  lemma NoSourceIsRejected(dirs: set<Path>, files: map<Path, Content>, normPath: Path,
                           tempPath: Option<Path>, rewrite: bool, name: string)
    ensures PathsCheck(dirs, files, normPath, None, None, tempPath, rewrite, name) == Err(UserInputError(NoSlideSource))
  {
  }

  /** A QuPath project takes priority over a slide folder given with it. */
  lemma QuPathProjectTakesPriority(dirs: set<Path>, files: map<Path, Content>, normPath: Path,
                                   svsPath: Option<Path>, qpproj: Path, tempPath: Option<Path>,
                                   rewrite: bool, name: string)
    requires PathsCheck(dirs, files, normPath, svsPath, Some(qpproj), tempPath, rewrite, name).Ok?
    ensures PathsCheck(dirs, files, normPath, svsPath, Some(qpproj), tempPath, rewrite, name).value.source == QuPathProject(qpproj)
  {
  }

  /** Without a temporary path the temporary folder is created inside the
      folder for normalised slides. */
  lemma DefaultTemporaryFolder(dirs: set<Path>, files: map<Path, Content>, normPath: Path,
                               svsPath: Option<Path>, qpprojPath: Option<Path>, rewrite: bool, name: string)
    requires PathsCheck(dirs, files, normPath, svsPath, qpprojPath, None, rewrite, name).Ok?
    ensures PathsCheck(dirs, files, normPath, svsPath, qpprojPath, None, rewrite, name).value.tempPath == normPath.Join(name)
  {
  }

  /** A temporary path the user gives must exist already, and create_path
      then refuses it unless rewrite is set: without rewrite a given
      temporary path always fails. */
  lemma GivenTemporaryPathNeedsRewrite(dirs: set<Path>, files: map<Path, Content>, normPath: Path,
                                       svsPath: Option<Path>, qpprojPath: Option<Path>, temp: Path, name: string)
    ensures PathsCheck(dirs, files, normPath, svsPath, qpprojPath, Some(temp), false, name).Err?
  {
  }

  // ---------------------------------------------------------------------
  // FileData.get_slide_names / slides_to_process

  /** The slide names of a folder listing: the entries with suffix `.svs`
      whose name does not start with a dot, in listing order. */
  function SvsSlideNames(entries: seq<Path>): (names: seq<string>)
    ensures |names| <= |entries|
    ensures forall name :: name in names <==>
      exists e :: e in entries && e.Name() == name && e.Suffix() == ".svs" && !(name != [] && name[0] == '.')
  {
    if entries == [] then []
    else
      var rest := SvsSlideNames(entries[1..]);
      var e := entries[0];
      var keep := e.Suffix() == ".svs" && !(e.Name() != [] && e.Name()[0] == '.');
      assert forall x :: x in entries <==> x == e || x in entries[1..];
      if keep then [e.Name()] + rest else rest
  }

  /** get_slide_names: the project's image names for a QuPath project, the
      .svs files of the folder listing otherwise. */
  function GetSlideNames(source: SlideSource, listing: seq<Path>, projectImageNames: seq<string>): (names: seq<string>)
    ensures source.QuPathProject? ==> names == projectImageNames
    ensures source.SvsFolder? ==> names == SvsSlideNames(listing)
  {
    match source
    case QuPathProject(_) => projectImageNames
    case SvsFolder(_) => SvsSlideNames(listing)
  }

  /** `s[i]` on a Python list: negative indexes count from the end, and
      anything outside `-len(s) .. len(s) - 1` raises IndexError. */
  function PyIndex(s: seq<string>, i: int): (r: Result<string, Error>)
    ensures r.Ok? <==> -|s| <= i < |s|
    ensures r.Ok? ==> r.value == if i >= 0 then s[i] else s[|s| + i]
    ensures r.Err? ==> r.error == SequenceIndexError(i)
  {
    if 0 <= i < |s| then Ok(s[i])
    else if -|s| <= i < 0 then Ok(s[|s| + i])
    else Err(SequenceIndexError(i))
  }

  /** A slide to normalise: a file in the slide folder, or the image at an
      index of the QuPath project (whose path qupath_image_path reads from
      the project). */
  datatype SlideRef = SvsFile(path: Path) | QuPathImage(index: int)

  /** The paths of the selected slides of a folder, in selection order. */
  function SelectedFiles(folder: Path, allNames: seq<string>, selected: seq<int>): (r: Result<seq<SlideRef>, Error>)
    ensures r.Ok? <==> forall k :: 0 <= k < |selected| ==> -|allNames| <= selected[k] < |allNames|
    ensures r.Ok? ==> |r.value| == |selected|
    ensures r.Ok? ==> forall k :: 0 <= k < |selected| ==>
      r.value[k] == SvsFile(folder.Join(PyIndex(allNames, selected[k]).value))
    ensures r.Err? ==> exists k :: 0 <= k < |selected| && r.error == SequenceIndexError(selected[k])
  {
    if selected == [] then Ok([])
    else
      var name :- PyIndex(allNames, selected[0]);
      var rest :- SelectedFiles(folder, allNames, selected[1..]);
      assert forall k :: 1 <= k < |selected| ==> selected[k] == selected[1..][k - 1];
      Ok([SvsFile(folder.Join(name))] + rest)
  }

  /** slides_to_process: the slides the selection names, in the order
      `list(set)` gives (`selected`), or every slide when nothing is
      selected. */
  function SlidesToProcess(source: SlideSource, allNames: seq<string>, selected: seq<int>): (r: Result<seq<SlideRef>, Error>)
    ensures selected == [] ==> r.Ok? && |r.value| == |allNames|
    ensures selected == [] && source.SvsFolder? ==>
      forall k :: 0 <= k < |allNames| ==> r.value[k] == SvsFile(source.path.Join(allNames[k]))
    ensures selected == [] && source.QuPathProject? ==>
      forall k :: 0 <= k < |allNames| ==> r.value[k] == QuPathImage(k)
    ensures selected != [] && source.QuPathProject? ==>
      r.Ok? && |r.value| == |selected| && forall k :: 0 <= k < |selected| ==> r.value[k] == QuPathImage(selected[k])
    ensures selected != [] && source.SvsFolder? ==> r == SelectedFiles(source.path, allNames, selected)
  {
    if selected != [] then
      match source
      case QuPathProject(_) => Ok(seq(|selected|, k requires 0 <= k < |selected| => QuPathImage(selected[k])))
      case SvsFolder(folder) => SelectedFiles(folder, allNames, selected)
    else
      match source
      case SvsFolder(folder) => Ok(seq(|allNames|, k requires 0 <= k < |allNames| => SvsFile(folder.Join(allNames[k]))))
      case QuPathProject(_) => Ok(seq(|allNames|, k requires 0 <= k < |allNames| => QuPathImage(k)))
  }

  /** UserSlideInput: the names and indexes the user gave, then the
      checked indexes and the slides to process. */
  class UserSlideInput {
    const names: ProvidedNames
    const indexes: seq<int>
    var toProcessI: set<int>
    var toProcessPaths: seq<SlideRef>

    constructor (names: ProvidedNames, indexes: seq<int>)
      ensures this.names == names && this.indexes == indexes
      ensures toProcessI == {} && toProcessPaths == []
    {
      this.names := names;
      this.indexes := indexes;
      toProcessI := {};
      toProcessPaths := [];
    }
  }

  /** What InputChecker(...).indexes is: the checked indexes and the
      indexes of the checked names, or the first error. */
  function CheckedSelection(slideNames: seq<string>, providedNames: ProvidedNames, providedIndexes: seq<int>)
    : Result<set<int>, Error>
  {
    var byIndex :- CheckIndexes(slideNames, providedIndexes);
    var byName :- NameIndexes(slideNames, NamesToCheck(providedNames));
    Ok(byIndex + byName)
  }

  /** A non-empty set has an element (sets are equal when they have the
      same elements). */
  lemma NonEmptyHasElement(s: set<int>)
    requires s != {}
    ensures exists x :: x in s
  {
    if !(exists x :: x in s) {
      assert false;
    }
  }

  /** `list(s)`: the elements of the set, each once, in the order the set
      yields them (which the model leaves open). */
  method ListOfSet(s: set<int>) returns (order: seq<int>)
    ensures |order| == |s|
    ensures forall x :: x in order <==> x in s
    ensures forall a, b :: 0 <= a < b < |order| ==> order[a] != order[b]
  {
    order := [];
    var rest := s;
    while rest != {}
      invariant rest <= s
      invariant forall x :: x in order <==> x in s && x !in rest
      invariant forall a, b :: 0 <= a < b < |order| ==> order[a] != order[b]
      invariant |order| + |rest| == |s|
      decreases |rest|
    {
      NonEmptyHasElement(rest);
      var x :| x in rest;
      order := order + [x];
      rest := rest - {x};
    }
  }

  /** slides_to_process: record the given names and indexes, check them
      into the set of slides to process, and list the slides: the
      selected ones, in the order the set yields them (returned as
      `order`), or every slide when nothing is selected. */
  method SlidesToProcessOf(source: SlideSource, allNames: seq<string>, names: ProvidedNames, indexes: seq<int>)
    returns (r: Result<UserSlideInput, Error>, order: seq<int>)
    ensures var checked := CheckedSelection(allNames, names, indexes);
      (checked.Err? ==> r == Err(checked.error)) &&
      (checked.Ok? ==> (forall x :: x in order <==> x in checked.value) && |order| == |checked.value| &&
                       var listed := SlidesToProcess(source, allNames, order);
                       (listed.Err? ==> r == Err(listed.error)) &&
                       (listed.Ok? ==>
                          r.Ok? && fresh(r.value) &&
                          r.value.names == names && r.value.indexes == indexes &&
                          r.value.toProcessI == checked.value && r.value.toProcessPaths == listed.value))
  {
    var slideInfo := new UserSlideInput(names, indexes);
    order := [];
    var checked := Controller(allNames, slideInfo.names, slideInfo.indexes);
    if checked.Err? {
      return Err(checked.error), order;
    }
    slideInfo.toProcessI := checked.value;
    order := ListOfSet(slideInfo.toProcessI);
    var listed := SlidesToProcess(source, allNames, order);
    if listed.Err? {
      return Err(listed.error), order;
    }
    slideInfo.toProcessPaths := listed.value;
    return Ok(slideInfo), order;
  }

  /** Indexes the checks accepted select folder slides without error unless
      one is below `-len(names)`; non-negative ones select the named file. */
  lemma CheckedIndexesSelectListedSlides(folder: Path, allNames: seq<string>, selected: seq<int>)
    requires forall k :: 0 <= k < |selected| ==> 0 <= selected[k] < |allNames|
    ensures SelectedFiles(folder, allNames, selected).Ok?
    ensures forall k :: 0 <= k < |selected| ==>
      SelectedFiles(folder, allNames, selected).value[k] == SvsFile(folder.Join(allNames[selected[k]]))
  {
  }
}
