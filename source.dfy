/** The `Source` class of the R completion source: five lists that its
    methods update in place, each method tied to the function of
    `SourceState` that says what it does to them. */
module RSource {
  import opened Wrappers
  import opened Text
  import opened Matches
  import opened Scanners
  import opened SourceState

  class Source {
    /** The names of the packages loaded in the R session. */
    var pkgLoaded: seq<string>
    /** One `package` match per installed package. */
    var pkgInstalled: seq<Match>
    /** The matches of the omni lists of all installed packages. */
    var pkgMatches: seq<Match>
    /** The function matches, as entries into the two lists above. */
    var fncMatches: seq<Ref>
    /** The matches of the objects of the global environment. */
    var objMatches: seq<Match>

    function Snapshot(): State
      reads this
    {
      State(pkgLoaded, pkgInstalled, pkgMatches, fncMatches, objMatches)
    }

    predicate Valid()
      reads this
    {
      StateValid(Snapshot())
    }

    /** The function list with its entries looked up. */
    function FunctionList(): seq<Match>
      reads this
      requires Valid()
    {
      FncView(Snapshot())
    }

    /** `__init__` up to the loading of the package lists: everything empty.
        The package lists are loaded by `GetAllPkgMatches`. */
    constructor ()
      ensures Valid() && Snapshot() == Initial
    {
      pkgLoaded, pkgInstalled, pkgMatches, fncMatches, objMatches := [], [], [], [], [];
    }

    /** `get_all_pkg_matches`: a `package` match per installed package name,
        then the matches of each package's omni list (`files[k]` are its
        lines). A malformed record stops the loading with `IndexError`. */
    method GetAllPkgMatches(names: seq<string>, files: seq<seq<string>>) returns (raised: Option<PyError>)
      requires Valid()
      modifies this
      ensures Valid()
      ensures (Snapshot(), raised) == LoadPkgs(old(Snapshot()), names, files)
    {
      AddInstalled(names);
      raised := ExtendWithListings(files);
    }

    /** The first loop of `get_all_pkg_matches`: one `package` match per
        name. */
    method AddInstalled(names: seq<string>)
      modifies this
      ensures Snapshot() == old(Snapshot()).(installed := old(pkgInstalled) + InstalledMatches(names))
    {
      for k := 0 to |names|
        invariant pkgInstalled == old(pkgInstalled) + InstalledMatches(names[..k])
        invariant pkgLoaded == old(pkgLoaded) && pkgMatches == old(pkgMatches)
        invariant fncMatches == old(fncMatches) && objMatches == old(objMatches)
      {
        InstalledStep(names, k);
        var created := CreateMatch(names[k], "package", "", "");
        if created.Some? {
          pkgInstalled := pkgInstalled + [created.value];
        }
      }
      assert names[..|names|] == names;
    }

    /** The second loop of `get_all_pkg_matches`: the matches of each omni
        list in turn, up to the first malformed record. */
    method ExtendWithListings(files: seq<seq<string>>) returns (raised: Option<PyError>)
      modifies this
      ensures Snapshot() == old(Snapshot()).(pkgs := old(pkgMatches) + LoadListings(files).0)
      ensures raised == LoadListings(files).1
    {
      for k := 0 to |files|
        invariant LoadListings(files[..k]).1.None?
        invariant pkgMatches == old(pkgMatches) + LoadListings(files[..k]).0
        invariant pkgInstalled == old(pkgInstalled) && pkgLoaded == old(pkgLoaded)
        invariant fncMatches == old(fncMatches) && objMatches == old(objMatches)
      {
        var parsed := ToMatches(StripAll(files[k]));
        if parsed.Err? {
          LoadListingsFailsAt(files, k, parsed.error);
          LoadListingsStops(files, k + 1);
          return Some(parsed.error);
        }
        LoadListingsStep(files, k);
        AppendAssoc(old(pkgMatches), LoadListings(files[..k]).0, parsed.value);
        pkgMatches := pkgMatches + parsed.value;
      }
      assert files[..|files|] == files;
      raised := None;
    }

    /** `update_loaded_pkgs`, with the lines of the file R wrote, or `None`
        when the file is missing (the old list is kept). Returns whether the
        set of loaded packages changed. */
    method UpdateLoadedPkgs(file: Option<seq<string>>) returns (changed: bool)
      requires Valid()
      modifies this
      ensures Valid()
      ensures (Snapshot(), changed) == UpdateLoaded(old(Snapshot()), file)
    {
      var oldPkgs := pkgLoaded;
      if file.Some? {
        pkgLoaded := StripAll(file.value);
      }
      changed := Elems(oldPkgs) != Elems(pkgLoaded);
    }

    /** `update_func_matches`: recompute the function list when the loaded
        packages changed. */
    method UpdateFuncMatches(file: Option<seq<string>>) returns (raised: Option<PyError>)
      requires Valid()
      modifies this
      ensures Valid()
      ensures (Snapshot(), raised) == UpdateFuncs(old(Snapshot()), file)
    {
      var changed := UpdateLoadedPkgs(file);
      if changed {
        var funcs := FuncRefs(pkgMatches, pkgLoaded);
        if funcs.Err? {
          return Some(funcs.error);
        }
        fncMatches := funcs.value;
      }
      raised := None;
    }

    /** `get_all_obj_matches`, with the lines of the global environment
        listing. */
    method GetAllObjMatches(lines: seq<string>) returns (raised: Option<PyError>)
      requires Valid()
      modifies this
      ensures Valid()
      ensures (Snapshot(), raised) == RefreshObjs(old(Snapshot()), lines)
    {
      var objs := StripAll(lines);
      var parsed := ToMatches(objs);
      if parsed.Err? {
        return Some(parsed.error);
      }
      objMatches := parsed.value;
      raised := None;
    }

    /** `get_matches(word, pipe)`. */
    method GetMatches(word: string, pipe: Option<string>, lines: seq<string>, file: Option<seq<string>>)
      returns (r: Result<seq<Match>>)
      requires Valid()
      modifies this
      ensures Valid()
      ensures (Snapshot(), r) == MatchesSpec(old(Snapshot()), word, pipe, lines, file)
    {
      var raised := GetAllObjMatches(lines);
      if raised.Some? {
        return Err(raised.value);
      }
      var objM, source;
      if HasPipe(pipe) {
        objM, source := FilterMatches(objMatches, pipe.value + "$", "", true);
      } else if '$' in word {
        objM, source := FilterMatches(objMatches, word, "", true);
      } else {
        objM, source := FilterMatches(objMatches, word, "$", false);
      }
      objMatches := source;
      raised := UpdateFuncMatches(file);
      if raised.Some? {
        return Err(raised.value);
      }
      fncMatches := fncMatches + InstalledRefs(|pkgInstalled|);
      var funcM, unused := FilterMatches(FunctionList(), word, "", false);
      r := Ok(objM + funcM);
    }

    /** `args.extend(args)` on the argument list of the match an entry of the
        function list refers to. */
    method ExtendArgs(x: Ref)
      requires Valid() && RefIn(x, pkgMatches, pkgInstalled)
      requires Deref(x, pkgMatches, pkgInstalled).args.Some?
      modifies this
      ensures Valid()
      ensures Snapshot() == WriteBack(old(Snapshot()), x)
    {
      match x
      case PkgRef(i) =>
        pkgMatches := pkgMatches[i := DoubleArgs(pkgMatches[i])];
      case InstalledRef(i) =>
        pkgInstalled := pkgInstalled[i := DoubleArgs(pkgInstalled[i])];
    }

    /** `get_func_matches(func, word, pipe)`. */
    method GetFuncMatches(func: string, word: string, pipe: Option<string>,
                          lines: seq<string>, file: Option<seq<string>>) returns (r: Result<seq<Item>>)
      requires Valid() && func != ""
      modifies this
      ensures Valid()
      ensures (Snapshot(), r) == FuncMatchesSpec(old(Snapshot()), func, word, pipe, lines, file)
    {
      if func == "library" || func == "require" {
        return Ok(Items(pkgInstalled));
      }
      var args := LookupArgs(func);
      if args.Err? {
        return Err(args.error);
      }
      var objs := GetMatches(word, pipe, lines, file);
      if objs.Err? {
        return Err(objs.error);
      }
      if HasPipe(pipe) {
        r := Ok(Items(objs.value) + args.value);
      } else {
        r := Ok(args.value + Items(objs.value));
      }
    }

    /** The loop of `get_func_matches` over the function list and then the
        object list, written out one step per list: the argument list of the
        first match named `func`, taken twice, that match's own list doubled
        in place. */
    method LookupArgs(func: string) returns (r: Result<seq<Item>>)
      requires Valid() && func != ""
      modifies this
      ensures Valid()
      ensures (Snapshot(), r) == ArgsLookup(old(Snapshot()), func)
    {
      var view := FunctionList();
      var found := FilterArg(view, func);
      if found.Err? {
        return Err(found.error);
      }
      var args := found.value + found.value;
      var k := FirstWithWord(view, func);
      if k.Some? {
        assert view[k.value] in view;
        ExtendArgs(fncMatches[k.value]);
      }
      if |args| <= 1 {
        found := FilterArg(objMatches, func);
        if found.Err? {
          return Err(found.error);
        }
        args := found.value + found.value;
        k := FirstWithWord(objMatches, func);
        if k.Some? {
          assert objMatches[k.value] in objMatches;
          objMatches := objMatches[k.value := DoubleArgs(objMatches[k.value])];
        }
      }
      r := Ok(args);
    }

    /** `get_pipe(numline, numcol)` over the lines of the buffer, the cursor
        on line `numline` (1-based). */
    method GetPipe(buffer: seq<string>, numline: nat, numcol: nat) returns (r: Option<string>)
      requires numline <= |buffer|
      ensures r == PipeScan(buffer, numline, 0)
    {
      var noPipe := 0;
      for numl := numline downto 0
        invariant noPipe <= 1
        invariant PipeScan(buffer, numline, 0) == PipeScan(buffer, numl, noPipe)
      {
        var line := buffer[numl];
        // The index never reaches `numline`, so the cursor line is never cut.
        if numl == numline {
          line := Take(line, numcol);
        }
        var hasPipe := RPipe(line);
        if Contains(line, "%>%") {
          if hasPipe.Some? {
            return hasPipe;
          }
        } else {
          noPipe := noPipe + 1;
          var newLine := RLine(line);
          if newLine || noPipe == 2 {
            return None;
          }
        }
      }
      r := None;
    }

    /** `cm_refresh` for the typed text, the buffer and the cursor's line and
        column; the listings R writes are passed in. */
    method Refresh(typed: string, buffer: seq<string>, lnum: nat, col: nat,
                   lines: seq<string>, file: Option<seq<string>>) returns (r: Completion)
      requires Valid() && lnum <= |buffer|
      modifies this
      ensures Valid()
      ensures (Snapshot(), r) == RefreshSpec(old(Snapshot()), typed, buffer, lnum, lines, file)
    {
      var word := RWord(typed);
      if IsInQuotes(typed, word) {
        return Skipped;
      }
      var funcMatch := RFunc(typed);
      var func := if funcMatch.Some? then funcMatch.value else "";
      var pipe := GetPipe(buffer, lnum, col);
      if func != "" {
        var matches := GetFuncMatches(func, word, pipe, lines, file);
        r := ItemsResult(matches);
      } else {
        if word == "" {
          return Skipped;
        }
        var matches := GetMatches(word, None, lines, file);
        r := if matches.Ok? then Completed(Items(matches.value)) else Failed(matches.error);
      }
    }
  }
}
