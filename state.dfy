/** The state of the completion source and what each of its operations does
    to it, as functions from the old state to the new one: the lists of
    loaded packages, installed packages, package matches, function matches
    and object matches, and the operations `get_all_pkg_matches`,
    `update_loaded_pkgs`, `update_func_matches`, `get_all_obj_matches`,
    `get_matches`, `get_func_matches`, `get_pipe` and `cm_refresh`. */
module SourceState {
  import opened Wrappers
  import opened Text
  import opened Matches
  import opened Scanners

  /** An entry of the function list. `update_func_matches` fills that list
      with the very dictionaries of the package list, and `get_matches`
      appends the dictionaries of the installed list, so an entry refers to
      a match held by one of those two lists; doubling an argument list
      through the function list changes the match in its home list. */
  datatype Ref = PkgRef(i: nat) | InstalledRef(i: nat)

  predicate RefIn(r: Ref, pkgs: seq<Match>, installed: seq<Match>) {
    match r
    case PkgRef(i) => i < |pkgs|
    case InstalledRef(i) => i < |installed|
  }

  function Deref(r: Ref, pkgs: seq<Match>, installed: seq<Match>): Match
    requires RefIn(r, pkgs, installed)
  {
    match r
    case PkgRef(i) => pkgs[i]
    case InstalledRef(i) => installed[i]
  }

  /** The matches the entries refer to, in order. */
  function Resolve(refs: seq<Ref>, pkgs: seq<Match>, installed: seq<Match>): (r: seq<Match>)
    requires forall x :: x in refs ==> RefIn(x, pkgs, installed)
    ensures |r| == |refs|
    ensures forall k :: 0 <= k < |refs| ==> r[k] == Deref(refs[k], pkgs, installed)
  {
    seq(|refs|, k requires 0 <= k < |refs| => Deref(refs[k], pkgs, installed))
  }

  /** The five lists of the source. */
  datatype State = State(loaded: seq<string>, installed: seq<Match>, pkgs: seq<Match>,
                         fncs: seq<Ref>, objs: seq<Match>)

  /** Every entry of the function list refers to a match that exists. */
  predicate StateValid(st: State) {
    forall x :: x in st.fncs ==> RefIn(x, st.pkgs, st.installed)
  }

  /** The function list as the source sees it. */
  function FncView(st: State): seq<Match>
    requires StateValid(st)
  {
    Resolve(st.fncs, st.pkgs, st.installed)
  }

  /** The empty lists `__init__` starts from. */
  const Initial: State := State([], [], [], [], [])

  /** Python's `[line.strip() for line in lines]`. */
  function StripAll(lines: seq<string>): (r: seq<string>)
    ensures |r| == |lines| && forall k :: 0 <= k < |lines| ==> r[k] == Strip(lines[k])
  {
    seq(|lines|, k requires 0 <= k < |lines| => Strip(lines[k]))
  }

  /** Python's `set(names)`. */
  function Elems(names: seq<string>): set<string> {
    set x | x in names
  }

  // ---------------------------------------------------------------------
  // get_all_pkg_matches

  /** One `package` match per installed package name. */
  function InstalledMatches(names: seq<string>): (r: seq<Match>)
    ensures |r| == |names|
    ensures forall k :: 0 <= k < |names| ==>
      && r[k] == CreateMatch(names[k], "package", "", "").value
      && r[k].word == names[k] && r[k].struct == "package"
      && r[k].snippet == Some(names[k] + "::$1") && r[k].args.None?
  {
    forall k | 0 <= k < |names| ensures
      var m := CreateMatch(names[k], "package", "", "").value;
      m.word == names[k] && m.snippet == Some(names[k] + "::$1")
    {
      CreateMatchSnippets(names[k], "package", "", "");
    }
    seq(|names|, k requires 0 <= k < |names| => CreateMatch(names[k], "package", "", "").value)
  }

  lemma InstalledStep(names: seq<string>, k: nat)
    requires k < |names|
    ensures InstalledMatches(names[..k + 1])
      == InstalledMatches(names[..k]) + [CreateMatch(names[k], "package", "", "").value]
  {
  }

  /** The matches of the omni lists, file after file, and the `IndexError`
      that stops the loading at the first malformed file. The files before
      it stay loaded. */
  function LoadListings(files: seq<seq<string>>): (r: (seq<Match>, Option<PyError>))
  {
    if |files| == 0 then ([], None)
    else
      var prev := LoadListings(files[..|files| - 1]);
      if prev.1.Some? then prev
      else
        match ParseRecords(StripAll(files[|files| - 1]))
        case Err(e) => (prev.0, Some(e))
        case Ok(ms) => (prev.0 + ms, None)
  }

  /** The omni list `f` holds a record with fewer than five fields. */
  predicate Malformed(f: seq<string>) {
    ParseRecords(StripAll(f)).Err?
  }

  /** Loading fails, with `IndexError`, exactly when some file holds a record
      with fewer than five fields. */
  lemma {:induction false} LoadListingsSpec(files: seq<seq<string>>)
    ensures LoadListings(files).1.Some? <==> exists i :: 0 <= i < |files| && Malformed(files[i])
    ensures LoadListings(files).1.Some? ==> LoadListings(files).1.value == IndexError
  {
    if |files| > 0 {
      var n := |files| - 1;
      var init := files[..n];
      LoadListingsSpec(init);
      assert forall i :: 0 <= i < n ==> files[i] == init[i];
      if LoadListings(init).1.Some? {
        var i :| 0 <= i < n && Malformed(init[i]);
        assert Malformed(files[i]);
      } else if Malformed(files[n]) {
        assert LoadListings(files).1 == Some(IndexError);
      } else {
        assert LoadListings(files).1 == None;
        forall i | 0 <= i < |files| ensures !Malformed(files[i]) {
          if i < n {
            assert files[i] == init[i] && !Malformed(init[i]);
          } else {
            assert i == n;
          }
        }
      }
    }
  }

  /** Once a file fails, the later ones are not read. */
  lemma {:induction false} LoadListingsStops(files: seq<seq<string>>, n: nat)
    requires n <= |files| && LoadListings(files[..n]).1.Some?
    ensures LoadListings(files) == LoadListings(files[..n])
  {
    if n < |files| {
      var init := files[..|files| - 1];
      assert init[..n] == files[..n];
      LoadListingsStops(init, n);
    } else {
      assert files[..n] == files;
    }
  }

  /** A file that parses adds its matches after those of the files before. */
  lemma LoadListingsStep(files: seq<seq<string>>, k: nat)
    requires k < |files| && LoadListings(files[..k]).1.None?
    requires ParseRecords(StripAll(files[k])).Ok?
    ensures LoadListings(files[..k + 1])
      == (LoadListings(files[..k]).0 + ParseRecords(StripAll(files[k])).value, None)
  {
    assert files[..k + 1][..k] == files[..k];
  }

  /** A file that fails ends the loading with the matches read before it. */
  lemma LoadListingsFailsAt(files: seq<seq<string>>, k: nat, e: PyError)
    requires k < |files| && LoadListings(files[..k]).1.None?
    requires ParseRecords(StripAll(files[k])) == Err(e)
    ensures LoadListings(files[..k + 1]) == (LoadListings(files[..k]).0, Some(e))
  {
    assert files[..k + 1][..k] == files[..k];
  }

  /** `get_all_pkg_matches` for the given package names and omni list files,
      the listing of the directory done: the installed list gets one match
      per name, the package list the matches of every file. */
  function LoadPkgs(st: State, names: seq<string>, files: seq<seq<string>>): (r: (State, Option<PyError>))
    ensures StateValid(st) ==> StateValid(r.0)
    ensures r.0.loaded == st.loaded && r.0.fncs == st.fncs && r.0.objs == st.objs
  {
    var loaded := LoadListings(files);
    (st.(installed := st.installed + InstalledMatches(names), pkgs := st.pkgs + loaded.0), loaded.1)
  }

  // ---------------------------------------------------------------------
  // update_loaded_pkgs, update_func_matches

  /** The loaded packages after `update_loaded_pkgs`, the lines of the file
      stripped, or the old list when the file is missing; and whether the
      set of names changed. */
  function UpdateLoaded(st: State, file: Option<seq<string>>): (r: (State, bool))
    ensures r.0 == st.(loaded := r.0.loaded)
    ensures file.None? ==> r.0 == st && !r.1
    ensures r.1 <==> Elems(st.loaded) != Elems(r.0.loaded)
  {
    var now := if file.Some? then StripAll(file.value) else st.loaded;
    (st.(loaded := now), Elems(st.loaded) != Elems(now))
  }

  /** Reading the same file again reports no change. */
  lemma UpdateLoadedSettles(st: State, file: Option<seq<string>>)
    ensures var st1 := UpdateLoaded(st, file).0;
      UpdateLoaded(st1, file) == (st1, false)
  {
  }

  /** The function matches: the function records of the packages whose name
      contains a loaded package name, as entries into the package list. */
  predicate Kept(m: Match, loaded: seq<string>) {
    m.struct == "function" && (loaded == [] || (m.pkg.Some? && FromListed(m.pkg.value, loaded)))
  }

  function KeptRefs(pkgs: seq<Match>, loaded: seq<string>, n: nat): (r: seq<Ref>)
    requires n <= |pkgs|
    ensures forall x :: x in r ==> x.PkgRef? && x.i < n
  {
    if n == 0 then []
    else KeptRefs(pkgs, loaded, n - 1) + (if Kept(pkgs[n - 1], loaded) then [PkgRef(n - 1)] else [])
  }

  /** `filter_matches_struct(filter_matches_pkgs(pkgs, loaded), 'function')`
      as entries into the package list, or the `KeyError` the package filter
      raises. */
  function FuncRefs(pkgs: seq<Match>, loaded: seq<string>): (r: Result<seq<Ref>>)
    ensures r.Err? <==> FilterPkgs(pkgs, loaded).Err?
    ensures r.Ok? ==> forall x :: x in r.value ==> x.PkgRef? && x.i < |pkgs|
  {
    match FilterPkgs(pkgs, loaded)
    case Err(e) => Err(e)
    case Ok(_) => Ok(KeptRefs(pkgs, loaded, |pkgs|))
  }

  lemma FilterStructAppend(ms: seq<Match>, m: Match, struct: string)
    requires struct != ""
    ensures FilterStruct(ms + [m], struct) == FilterStruct(ms, struct) + (if m.struct == struct then [m] else [])
  {
    assert (ms + [m])[..|ms|] == ms;
  }

  lemma KeepListedAppend(ms: seq<Match>, m: Match, loaded: seq<string>)
    requires forall x :: x in ms + [m] ==> x.pkg.Some?
    ensures KeepListed(ms + [m], loaded)
      == KeepListed(ms, loaded) + (if FromListed(m.pkg.value, loaded) then [m] else [])
  {
    assert (ms + [m])[..|ms|] == ms;
  }

  lemma ResolveAppend(refs: seq<Ref>, more: seq<Ref>, pkgs: seq<Match>, installed: seq<Match>)
    requires forall x :: x in refs + more ==> RefIn(x, pkgs, installed)
    ensures Resolve(refs + more, pkgs, installed) == Resolve(refs, pkgs, installed) + Resolve(more, pkgs, installed)
  {
  }

  /** The records of `ms` that the package filter keeps: all of them for an
      empty list of names. */
  function Listed(ms: seq<Match>, loaded: seq<string>): seq<Match>
    requires loaded != [] ==> forall m :: m in ms ==> m.pkg.Some?
  {
    if loaded == [] then ms else KeepListed(ms, loaded)
  }

  lemma ListedStep(ms: seq<Match>, m: Match, loaded: seq<string>)
    requires loaded != [] ==> forall x :: x in ms + [m] ==> x.pkg.Some?
    ensures loaded != [] ==> m.pkg.Some?
    ensures Listed(ms + [m], loaded)
      == Listed(ms, loaded) + (if loaded == [] || FromListed(m.pkg.value, loaded) then [m] else [])
  {
    if loaded != [] {
      assert m in ms + [m];
      assert forall x :: x in ms ==> x in ms + [m];
      KeepListedAppend(ms, m, loaded);
    }
  }

  lemma SliceLast<T>(s: seq<T>, n: nat)
    requires 0 < n <= |s|
    ensures s[..n] == s[..n - 1] + [s[n - 1]]
  {
  }

  lemma {:induction false} KeptRefsResolve(pkgs: seq<Match>, loaded: seq<string>, installed: seq<Match>, n: nat)
    requires n <= |pkgs|
    requires loaded != [] ==> forall m :: m in pkgs ==> m.pkg.Some?
    ensures loaded != [] ==> forall m :: m in pkgs[..n] ==> m.pkg.Some?
    ensures Resolve(KeptRefs(pkgs, loaded, n), pkgs, installed)
      == FilterStruct(Listed(pkgs[..n], loaded), "function")
  {
    assert forall m :: m in pkgs[..n] ==> m in pkgs;
    if n > 0 {
      var m := pkgs[n - 1];
      var prefix := pkgs[..n - 1];
      var prev := KeptRefs(pkgs, loaded, n - 1);
      var step := if Kept(m, loaded) then [PkgRef(n - 1)] else [];
      var kept := if Kept(m, loaded) then [m] else [];
      KeptRefsResolve(pkgs, loaded, installed, n - 1);
      assert Resolve(prev + step, pkgs, installed)
        == FilterStruct(Listed(prefix, loaded), "function") + kept by {
        ResolveAppend(prev, step, pkgs, installed);
        assert Resolve(step, pkgs, installed) == kept;
      }
      assert FilterStruct(Listed(pkgs[..n], loaded), "function")
        == FilterStruct(Listed(prefix, loaded), "function") + kept by {
        SliceLast(pkgs, n);
        ListedStep(prefix, m, loaded);
        var listed := if loaded == [] || FromListed(m.pkg.value, loaded) then [m] else [];
        if listed == [] {
          assert Listed(prefix, loaded) + listed == Listed(prefix, loaded);
        } else {
          FilterStructAppend(Listed(prefix, loaded), m, "function");
        }
      }
    }
  }

  /** The entries `update_func_matches` stores resolve to the list it
      computes: the function records of the loaded packages, in order. */
  lemma FuncRefsResolve(pkgs: seq<Match>, loaded: seq<string>, installed: seq<Match>)
    requires FuncRefs(pkgs, loaded).Ok?
    ensures Resolve(FuncRefs(pkgs, loaded).value, pkgs, installed)
      == FilterStruct(FilterPkgs(pkgs, loaded).value, "function")
  {
    KeptRefsResolve(pkgs, loaded, installed, |pkgs|);
    assert pkgs[..|pkgs|] == pkgs;
  }

  /** `update_func_matches`: the loaded packages are read again; if their
      set changed, the function list is recomputed, and a `KeyError` from the
      package filter leaves the old function list with the new package
      list. */
  function UpdateFuncs(st: State, file: Option<seq<string>>): (r: (State, Option<PyError>))
    ensures StateValid(st) ==> StateValid(r.0)
    ensures r.0.installed == st.installed && r.0.pkgs == st.pkgs && r.0.objs == st.objs
    ensures r.0.loaded == UpdateLoaded(st, file).0.loaded
  {
    var (st1, changed) := UpdateLoaded(st, file);
    if !changed then (st1, None)
    else
      match FuncRefs(st1.pkgs, st1.loaded)
      case Err(e) => (st1, Some(e))
      case Ok(refs) => (st1.(fncs := refs), None)
  }

  /** A `KeyError` is never retried: once the new package list is stored, the
      same file reports no change and the stale function list stays. */
  lemma StaleAfterKeyError(st: State, file: Option<seq<string>>)
    requires UpdateFuncs(st, file).1.Some?
    ensures var st1 := UpdateFuncs(st, file).0;
      st1.fncs == st.fncs && UpdateFuncs(st1, file) == (st1, None)
  {
    UpdateLoadedSettles(st, file);
  }

  // ---------------------------------------------------------------------
  // get_all_obj_matches, get_matches

  /** `get_all_obj_matches` on the lines of the global environment listing:
      the object list is replaced, or left as it was when a record is too
      short. */
  function RefreshObjs(st: State, lines: seq<string>): (r: (State, Option<PyError>))
    ensures r.0 == st.(objs := r.0.objs)
    ensures r.1.Some? <==> ParseRecords(StripAll(lines)).Err?
    ensures r.1.None? ==> r.0.objs == ParseRecords(StripAll(lines)).value
    ensures r.1.Some? ==> r.0 == st
  {
    match ParseRecords(StripAll(lines))
    case Err(e) => (st, Some(e))
    case Ok(ms) => (st.(objs := ms), None)
  }

  /** The arguments `get_matches` passes to `filter_matches` for the objects. */
  datatype ObjQuery = ObjQuery(typed: string, exclude: string, rmTyped: bool)

  /** A pipe is used when it is present and non-empty (Python truth). */
  predicate HasPipe(pipe: Option<string>) {
    pipe.Some? && pipe.value != ""
  }

  /** Inside a pipeline the columns of the piped data, `pipe$` removed; after
      a `$` the columns of that data, the typed text removed; otherwise the
      objects that start with the word, columns (`$`) hidden. */
  function ObjFilter(word: string, pipe: Option<string>): (q: ObjQuery)
    ensures HasPipe(pipe) ==> q == ObjQuery(pipe.value + "$", "", true)
    ensures !HasPipe(pipe) && '$' in word ==> q == ObjQuery(word, "", true)
    ensures !HasPipe(pipe) && '$' !in word ==> q == ObjQuery(word, "$", false)
  {
    if HasPipe(pipe) then ObjQuery(pipe.value + "$", "", true)
    else if '$' in word then ObjQuery(word, "", true)
    else ObjQuery(word, "$", false)
  }

  /** One entry per installed package, in order. */
  function InstalledRefs(n: nat): (r: seq<Ref>)
    ensures |r| == n && forall k :: 0 <= k < n ==> r[k] == InstalledRef(k)
  {
    seq(n, k requires 0 <= k < n => InstalledRef(k))
  }

  /** `get_matches(word, pipe)`: the object matches selected by `ObjFilter`,
      followed by the function and installed-package matches that start with
      the word. The object list keeps the rewritten words, and the installed
      packages are appended to the function list on every call. */
  function MatchesSpec(st: State, word: string, pipe: Option<string>,
                       lines: seq<string>, file: Option<seq<string>>): (r: (State, Result<seq<Match>>))
    requires StateValid(st)
    ensures StateValid(r.0)
    ensures r.0.installed == st.installed && r.0.pkgs == st.pkgs
  {
    var (st1, e1) := RefreshObjs(st, lines);
    if e1.Some? then (st1, Err(e1.value))
    else
      var q := ObjFilter(word, pipe);
      var objM := FilterKept(st1.objs, q.typed, q.exclude, q.rmTyped);
      var st2 := st1.(objs := FilterSource(st1.objs, q.typed, q.exclude, q.rmTyped));
      var (st3, e3) := UpdateFuncs(st2, file);
      if e3.Some? then (st3, Err(e3.value))
      else
        var st4 := st3.(fncs := st3.fncs + InstalledRefs(|st3.installed|));
        (st4, Ok(objM + FilterKept(FncView(st4), word, "", false)))
  }

  /** Outside a pipeline and without `$` in the word, the object part holds
      the objects that start with the word and have no `$`, unchanged and in
      order. */
  lemma ObjectsHideColumns(objs: seq<Match>, word: string)
    requires '$' !in word
    ensures var q := ObjFilter(word, None);
      var kept := FilterKept(objs, q.typed, q.exclude, q.rmTyped);
      && IsSubsequence(kept, objs)
      && (forall m :: m in kept <==> m in objs && word != "" && StartsWith(m.word, word) && '$' !in m.word)
      && forall m :: multiset(kept)[m]
                       == if word != "" && StartsWith(m.word, word) && '$' !in m.word then multiset(objs)[m] else 0
  {
    FilterKeepsOrder(objs, word, "$");
    forall m: Match ensures Contains(m.word, "$") <==> '$' in m.word {
      DollarContains(m.word);
    }
  }

  lemma DollarContains(s: string)
    ensures Contains(s, "$") <==> '$' in s
  {
    if '$' in s {
      var k :| 0 <= k < |s| && s[k] == '$';
      assert s[k..][..1] == "$";
      ContainsAt(s, "$", k);
    } else {
      ContainsFirstChar(s, "$");
    }
  }

  /** Inside a pipeline on `p`, the object part holds the columns `p$name`
      of the objects, in order, each with `p$` removed. */
  lemma ObjectsOfPipe(objs: seq<Match>, word: string, p: string)
    requires p != ""
    ensures var q := ObjFilter(word, Some(p));
      var kept := FilterKept(objs, q.typed, q.exclude, q.rmTyped);
      var plain := FilterKept(objs, p + "$", "", false);
      && IsSubsequence(plain, objs)
      && (forall m :: m in plain <==> m in objs && StartsWith(m.word, p + "$"))
      && (forall m :: multiset(plain)[m] == if StartsWith(m.word, p + "$") then multiset(objs)[m] else 0)
      && |kept| == |plain|
      && forall j :: 0 <= j < |plain| ==> kept[j] == plain[j].(word := RemoveAll(plain[j].word, p + "$"))
  {
    FilterKeepsOrder(objs, p + "$", "");
    FilterRewrites(objs, p + "$", "");
  }

  /** Outside a pipeline, after a `$` the object part holds the objects that
      start with the typed text, in order, each with that text removed. */
  lemma ObjectsOfColumns(objs: seq<Match>, word: string)
    requires '$' in word
    ensures var q := ObjFilter(word, None);
      var kept := FilterKept(objs, q.typed, q.exclude, q.rmTyped);
      var plain := FilterKept(objs, word, "", false);
      && IsSubsequence(plain, objs)
      && (forall m :: m in plain <==> m in objs && StartsWith(m.word, word))
      && (forall m :: multiset(plain)[m] == if StartsWith(m.word, word) then multiset(objs)[m] else 0)
      && |kept| == |plain|
      && forall j :: 0 <= j < |plain| ==> kept[j] == plain[j].(word := RemoveAll(plain[j].word, word))
  {
    assert word != "";
    FilterKeepsOrder(objs, word, "");
    FilterRewrites(objs, word, "");
  }

  /** Without a change of the loaded packages, every successful call makes
      the function list longer by the number of installed packages. */
  lemma FunctionListGrows(st: State, word: string, pipe: Option<string>, lines: seq<string>)
    requires StateValid(st)
    requires MatchesSpec(st, word, pipe, lines, None).1.Ok?
    ensures var st1 := MatchesSpec(st, word, pipe, lines, None).0;
      st1.fncs == st.fncs + InstalledRefs(|st.installed|)
  {
  }

  /** What `get_matches` returns: `IndexError` for a short object record;
      the error of `update_func_matches`; or the object part chosen by
      `ObjFilter` followed by the matches of the extended function list that
      start with the word, each as often as it occurs there, in order. */
  lemma MatchesResult(st: State, word: string, pipe: Option<string>,
                      lines: seq<string>, file: Option<seq<string>>)
    requires StateValid(st)
    ensures var (st1, r) := MatchesSpec(st, word, pipe, lines, file);
      ParseRecords(StripAll(lines)).Err? ==> st1 == st && r == Err(IndexError)
    ensures var (st1, r) := MatchesSpec(st, word, pipe, lines, file);
      var parsed := ParseRecords(StripAll(lines));
      var q := ObjFilter(word, pipe);
      parsed.Ok? ==>
        var st2 := st.(objs := FilterSource(parsed.value, q.typed, q.exclude, q.rmTyped));
        var (st3, e) := UpdateFuncs(st2, file);
        && (e.Some? ==> st1 == st3 && r == Err(e.value))
        && (e.None? ==>
              var objPart := FilterKept(parsed.value, q.typed, q.exclude, q.rmTyped);
              var funcPart := r.value[|objPart|..];
              && st1 == st3.(fncs := st3.fncs + InstalledRefs(|st.installed|))
              && |objPart| <= |r.value| && r.value[..|objPart|] == objPart
              && IsSubsequence(funcPart, FncView(st1))
              && forall m :: multiset(funcPart)[m]
                               == if word != "" && StartsWith(m.word, word) then multiset(FncView(st1))[m] else 0)
  {
    var (st1, r) := MatchesSpec(st, word, pipe, lines, file);
    var parsed := ParseRecords(StripAll(lines));
    if parsed.Ok? {
      var q := ObjFilter(word, pipe);
      var st2 := st.(objs := FilterSource(parsed.value, q.typed, q.exclude, q.rmTyped));
      var (st3, e) := UpdateFuncs(st2, file);
      if e.None? {
        var objPart := FilterKept(parsed.value, q.typed, q.exclude, q.rmTyped);
        var funcs := FilterKept(FncView(st1), word, "", false);
        assert r == Ok(objPart + funcs);
        assert r.value[..|objPart|] == objPart && r.value[|objPart|..] == funcs;
        FilterKeepsOrder(FncView(st1), word, "");
      }
    }
  }

  // ---------------------------------------------------------------------
  // get_func_matches

  /** `args.extend(args)` on a match's own argument list. */
  function DoubleArgs(m: Match): (r: Match)
    requires m.args.Some?
    ensures r.args == Some(m.args.value + m.args.value) && r == m.(args := r.args)
  {
    m.(args := Some(m.args.value + m.args.value))
  }

  /** Doubling the argument list of the match an entry refers to, in the list
      that holds it. */
  function WriteBack(st: State, x: Ref): (r: State)
    requires RefIn(x, st.pkgs, st.installed) && Deref(x, st.pkgs, st.installed).args.Some?
    ensures r.loaded == st.loaded && r.fncs == st.fncs && r.objs == st.objs
    ensures |r.pkgs| == |st.pkgs| && |r.installed| == |st.installed|
  {
    match x
    case PkgRef(i) => st.(pkgs := st.pkgs[i := DoubleArgs(st.pkgs[i])])
    case InstalledRef(i) => st.(installed := st.installed[i := DoubleArgs(st.installed[i])])
  }

  /** The loop of `get_func_matches` over the function list and then the
      object list: the argument list of the first match named `func`, taken
      twice because `extend` adds the list to itself (and doubles the match's
      own list), or `['', '']` when no match has that name. The object list
      is only tried when the function has an empty argument list. */
  function ArgsLookup(st: State, func: string): (r: (State, Result<seq<Item>>))
    requires StateValid(st) && func != ""
    ensures StateValid(r.0)
    ensures r.0.loaded == st.loaded && r.0.fncs == st.fncs
  {
    var view := FncView(st);
    match FilterArg(view, func)
    case Err(e) => (st, Err(e))
    case Ok(items) =>
      var st1 :=
        match FirstWithWord(view, func)
        case None => st
        case Some(k) =>
          assert view[k] in view;
          WriteBack(st, st.fncs[k]);
      assert StateValid(st1) by {
        assert forall x :: RefIn(x, st.pkgs, st.installed) ==> RefIn(x, st1.pkgs, st1.installed);
      }
      if |items + items| > 1 then (st1, Ok(items + items))
      else
        match FilterArg(st1.objs, func)
        case Err(e) => (st1, Err(e))
        case Ok(items2) =>
          var st2 :=
            match FirstWithWord(st1.objs, func)
            case None => st1
            case Some(k) =>
              assert st1.objs[k] in st1.objs;
              st1.(objs := st1.objs[k := DoubleArgs(st1.objs[k])]);
          (st2, Ok(items2 + items2))
  }

  /** A name that no function has gives `['', '']` and changes nothing: the
      doubled `['']` already has two entries, so the object list is not
      searched, even when an object of that name has an argument list. */
  lemma ArgsNotFound(st: State, func: string)
    requires StateValid(st) && func != ""
    requires forall m :: m in FncView(st) ==> m.word != func
    ensures ArgsLookup(st, func) == (st, Ok([Blank, Blank]))
  {
    var view := FncView(st);
    assert FirstWithWord(view, func).None?;
    assert FilterArg(view, func) == Ok([Blank]);
    assert [Blank] + [Blank] == [Blank, Blank];
  }

  /** Unless the function is found with an empty argument list, the object
      list plays no part in the lookup: any other object list gives the same
      result and is left as it is. */
  lemma ArgsIgnoreObjects(st: State, func: string, objs: seq<Match>)
    requires StateValid(st) && func != ""
    requires FilterArg(FncView(st), func).Ok?
    requires FirstWithWord(FncView(st), func).Some? ==>
      FncView(st)[FirstWithWord(FncView(st), func).value].args != Some([])
    ensures ArgsLookup(st.(objs := objs), func).1 == ArgsLookup(st, func).1
    ensures ArgsLookup(st.(objs := objs), func).0 == ArgsLookup(st, func).0.(objs := objs)
    ensures ArgsLookup(st, func).0.objs == st.objs
  {
    var view := FncView(st);
    assert FncView(st.(objs := objs)) == view;
    match FirstWithWord(view, func)
    case None =>
      assert FilterArg(view, func) == Ok([Blank]);
    case Some(k) =>
      assert view[k] in view;
      assert view[k].args.value != [];
      assert |FilterArg(view, func).value| >= 1;
  }

  /** The argument list of a found function doubles at every lookup: the
      first lookup returns it twice and stores it twice, so the next one
      returns it four times. */
  lemma ArgsDoubleEachTime(st: State, func: string)
    requires StateValid(st) && func != ""
    requires FilterArg(FncView(st), func).Ok?
    requires FirstWithWord(FncView(st), func).Some?
    requires FncView(st)[FirstWithWord(FncView(st), func).value].args.value != []
    ensures var args := FncView(st)[FirstWithWord(FncView(st), func).value].args.value;
      var (st1, r1) := ArgsLookup(st, func);
      && r1 == Ok(Items(args) + Items(args))
      && ArgsLookup(st1, func).1 == Ok(Items(args + args) + Items(args + args))
  {
    var view := FncView(st);
    var k := FirstWithWord(view, func).value;
    assert view[k] in view;
    var args := view[k].args.value;
    var x := st.fncs[k];
    var st1 := WriteBack(st, x);
    assert ArgsLookup(st, func) == (st1, Ok(Items(args) + Items(args))) by {
      assert FilterArg(view, func) == Ok(Items(args));
    }
    var view1 := FncView(st1);
    // Only the argument list of the matches that are the same entry as `x`
    // changes; their word is `func`.
    assert FirstWithWord(view1, func) == Some(k) && view1[k] == DoubleArgs(view[k])
      && FilterArg(view1, func).Ok? by {
      forall j | 0 <= j < |view|
        ensures view1[j].word == view[j].word
        ensures view1[j].args.Some? <==> view[j].args.Some?
        ensures j == k ==> view1[j] == DoubleArgs(view[k])
      {
        assert st.fncs[j] in st.fncs;
        WriteBackDeref(st, x, st.fncs[j]);
      }
      FirstWithWordWords(view, view1, func);
    }
    assert FilterArg(view1, func) == Ok(Items(args + args));
  }

  /** Only the match the entry refers to changes, and only its argument
      list. */
  lemma WriteBackDeref(st: State, x: Ref, y: Ref)
    requires RefIn(x, st.pkgs, st.installed) && Deref(x, st.pkgs, st.installed).args.Some?
    requires RefIn(y, st.pkgs, st.installed)
    ensures var st1 := WriteBack(st, x);
      Deref(y, st1.pkgs, st1.installed)
        == if y == x then DoubleArgs(Deref(x, st.pkgs, st.installed)) else Deref(y, st.pkgs, st.installed)
  {
  }

  /** Two lists with the same words find the same first match. */
  lemma {:induction false} FirstWithWordWords(a: seq<Match>, b: seq<Match>, func: string)
    requires |a| == |b| && forall j :: 0 <= j < |a| ==> a[j].word == b[j].word
    ensures FirstWithWord(a, func) == FirstWithWord(b, func)
  {
    if |a| > 0 {
      FirstWithWordWords(a[1..], b[1..], func);
    }
  }

  /** `get_func_matches(func, word, pipe)`: the installed packages for
      `library` and `require`; otherwise the argument matches and the
      `get_matches` result, the objects first inside a pipeline. */
  function FuncMatchesSpec(st: State, func: string, word: string, pipe: Option<string>,
                           lines: seq<string>, file: Option<seq<string>>): (r: (State, Result<seq<Item>>))
    requires StateValid(st) && func != ""
    ensures StateValid(r.0)
  {
    if func == "library" || func == "require" then (st, Ok(Items(st.installed)))
    else
      var (st1, args) := ArgsLookup(st, func);
      if args.Err? then (st1, Err(args.error))
      else
        var (st2, objs) := MatchesSpec(st1, word, pipe, lines, file);
        if objs.Err? then (st2, Err(objs.error))
        else if HasPipe(pipe) then (st2, Ok(Items(objs.value) + args.value))
        else (st2, Ok(args.value + Items(objs.value)))
  }

  /** Inside a call the argument list comes before the `get_matches` result,
      and after it inside a pipeline. */
  lemma CallOrder(st: State, func: string, word: string, pipe: Option<string>,
                  lines: seq<string>, file: Option<seq<string>>)
    requires StateValid(st) && func != "" && func != "library" && func != "require"
    requires ArgsLookup(st, func).1.Ok?
    ensures var (st1, args) := ArgsLookup(st, func);
      var objs := MatchesSpec(st1, word, pipe, lines, file).1;
      var r := FuncMatchesSpec(st, func, word, pipe, lines, file).1;
      && (r.Ok? <==> objs.Ok?)
      && (r.Ok? && !HasPipe(pipe) ==>
            |args.value| <= |r.value| && r.value[..|args.value|] == args.value
            && r.value[|args.value|..] == Items(objs.value))
      && (r.Ok? && HasPipe(pipe) ==>
            |args.value| <= |r.value| && r.value[|r.value| - |args.value|..] == args.value
            && r.value[..|r.value| - |args.value|] == Items(objs.value))
  {
  }

  /** When the function is found with an empty argument list, the objects are
      searched, and they are the objects of the previous refresh: the
      argument part of the result comes from the old object list, whatever
      the new listing holds. */
  lemma StaleObjectsInCall(st: State, func: string, word: string,
                           lines: seq<string>, file: Option<seq<string>>)
    requires StateValid(st) && func != "" && func != "library" && func != "require"
    requires FilterArg(FncView(st), func).Ok? && FirstWithWord(FncView(st), func).Some?
    requires FncView(st)[FirstWithWord(FncView(st), func).value].args == Some([])
    requires FilterArg(st.objs, func).Ok?
    ensures var a := FilterArg(st.objs, func).value;
      var r := FuncMatchesSpec(st, func, word, None, lines, file).1;
      r.Ok? ==> |a + a| <= |r.value| && r.value[..|a + a|] == a + a
  {
    var view := FncView(st);
    var k := FirstWithWord(view, func).value;
    var a := FilterArg(st.objs, func).value;
    assert ArgsLookup(st, func).1 == Ok(a + a) by {
      assert view[k] in view;
      assert FilterArg(view, func) == Ok([]);
      WriteBackEmpty(st, st.fncs[k]);
    }
  }

  /** Doubling an empty argument list changes nothing. */
  lemma WriteBackEmpty(st: State, x: Ref)
    requires RefIn(x, st.pkgs, st.installed) && Deref(x, st.pkgs, st.installed).args == Some([])
    ensures WriteBack(st, x) == st
  {
    var m := Deref(x, st.pkgs, st.installed);
    assert m.args.value + m.args.value == [];
    assert DoubleArgs(m) == m;
  }

  /** After `library(` or `require(` the installed packages are offered and
      nothing changes. */
  lemma LibraryOffersInstalled(st: State, word: string, pipe: Option<string>,
                               lines: seq<string>, file: Option<seq<string>>)
    requires StateValid(st)
    ensures FuncMatchesSpec(st, "library", word, pipe, lines, file) == (st, Ok(Items(st.installed)))
    ensures FuncMatchesSpec(st, "require", word, pipe, lines, file) == (st, Ok(Items(st.installed)))
  {
  }

  // ---------------------------------------------------------------------
  // get_pipe

  /** The scan of `get_pipe` over the lines above index `k` (exclusive),
      nearest first, with `noPipe` lines without `%>%` already seen: a line
      with `%>%` gives its `R_PIPE` capture or is passed over; a line
      without stops the scan when it is an assignment or the second such
      line. */
  function PipeScan(buffer: seq<string>, k: nat, noPipe: nat): Option<string>
    requires k <= |buffer|
  {
    if k == 0 then None
    else
      var line := buffer[k - 1];
      if Contains(line, "%>%") then
        if RPipe(line).Some? then RPipe(line) else PipeScan(buffer, k - 1, noPipe)
      else if RLine(line) || noPipe + 1 == 2 then None
      else PipeScan(buffer, k - 1, noPipe + 1)
  }

  /** The number of lines in `[lo, hi)` without `%>%`. */
  function Gaps(buffer: seq<string>, lo: nat, hi: nat): nat
    requires hi <= |buffer|
  {
    if hi <= lo then 0
    else Gaps(buffer, lo, hi - 1) + (if Contains(buffer[hi - 1], "%>%") then 0 else 1)
  }

  /** The piped data of line `j` reaches index `k`: no line in between has a
      capture, at most one of them (counting `noPipe` earlier ones) lacks
      `%>%`, and such a line is no assignment. */
  predicate PipeReaches(buffer: seq<string>, j: nat, k: nat, noPipe: nat)
    requires j < k <= |buffer|
  {
    && (forall i :: j < i < k ==> RPipe(buffer[i]).None?)
    && noPipe + Gaps(buffer, j + 1, k) <= 1
    && (forall i :: j < i < k && !Contains(buffer[i], "%>%") ==> !RLine(buffer[i]))
  }

  /** A line below `j` that the scan passes over extends the reach by one. */
  lemma ReachesStep(buffer: seq<string>, j: nat, k: nat, noPipe: nat)
    requires j + 1 < k <= |buffer|
    requires RPipe(buffer[k - 1]).None?
    requires !Contains(buffer[k - 1], "%>%") ==> !RLine(buffer[k - 1])
    requires PipeReaches(buffer, j, k - 1, if Contains(buffer[k - 1], "%>%") then noPipe else noPipe + 1)
    ensures PipeReaches(buffer, j, k, noPipe)
  {
  }

  /** The reach of a pipe to `k` is its reach to `k - 1` and a passable last
      line. */
  lemma ReachesShrink(buffer: seq<string>, j: nat, k: nat, noPipe: nat)
    requires j + 1 < k <= |buffer|
    requires PipeReaches(buffer, j, k, noPipe)
    ensures RPipe(buffer[k - 1]).None?
    ensures !Contains(buffer[k - 1], "%>%") ==> !RLine(buffer[k - 1]) && noPipe == 0
    ensures PipeReaches(buffer, j, k - 1, if Contains(buffer[k - 1], "%>%") then noPipe else noPipe + 1)
  {
  }

  lemma {:induction false} PipeScanSound(buffer: seq<string>, k: nat, noPipe: nat)
    requires k <= |buffer| && noPipe <= 1
    requires PipeScan(buffer, k, noPipe).Some?
    ensures exists j :: 0 <= j < k && RPipe(buffer[j]) == PipeScan(buffer, k, noPipe)
                        && PipeReaches(buffer, j, k, noPipe)
  {
    var line := buffer[k - 1];
    if Contains(line, "%>%") && RPipe(line).Some? {
      assert PipeReaches(buffer, k - 1, k, noPipe);
    } else {
      var n := if Contains(line, "%>%") then noPipe else noPipe + 1;
      assert PipeScan(buffer, k, noPipe) == PipeScan(buffer, k - 1, n);
      PipeScanSound(buffer, k - 1, n);
      var j :| 0 <= j < k - 1 && RPipe(buffer[j]) == PipeScan(buffer, k - 1, n)
               && PipeReaches(buffer, j, k - 1, n);
      ReachesStep(buffer, j, k, noPipe);
    }
  }

  lemma {:induction false} PipeScanComplete(buffer: seq<string>, j: nat, k: nat, noPipe: nat)
    requires j < k <= |buffer| && RPipe(buffer[j]).Some?
    requires PipeReaches(buffer, j, k, noPipe)
    ensures PipeScan(buffer, k, noPipe) == RPipe(buffer[j])
    decreases k
  {
    if j < k - 1 {
      ReachesShrink(buffer, j, k, noPipe);
      var n := if Contains(buffer[k - 1], "%>%") then noPipe else noPipe + 1;
      PipeScanComplete(buffer, j, k - 1, n);
    }
  }

  /** `get_pipe` finds piped data `p` exactly when some line at or above the
      cursor has `p` as its `R_PIPE` capture and that pipe reaches the
      cursor's line. */
  lemma PipeScanSpec(buffer: seq<string>, k: nat, p: string)
    requires k <= |buffer|
    ensures PipeScan(buffer, k, 0) == Some(p) <==>
      exists j :: 0 <= j < k && RPipe(buffer[j]) == Some(p) && PipeReaches(buffer, j, k, 0)
  {
    if PipeScan(buffer, k, 0) == Some(p) {
      PipeScanSound(buffer, k, 0);
    }
    if exists j :: 0 <= j < k && RPipe(buffer[j]) == Some(p) && PipeReaches(buffer, j, k, 0) {
      var j :| 0 <= j < k && RPipe(buffer[j]) == Some(p) && PipeReaches(buffer, j, k, 0);
      PipeScanComplete(buffer, j, k, 0);
    }
  }

  // ---------------------------------------------------------------------
  // cm_refresh

  /** What `cm_refresh` does with a request: returns without completing,
      completes with a list, or lets an exception escape. */
  datatype Completion = Skipped | Completed(items: seq<Item>) | Failed(error: PyError)

  function ItemsResult(r: Result<seq<Item>>): Completion {
    match r
    case Ok(items) => Completed(items)
    case Err(e) => Failed(e)
  }

  /** `cm_refresh` for the typed text, the buffer and the cursor line `lnum`
      (1-based). */
  function RefreshSpec(st: State, typed: string, buffer: seq<string>, lnum: nat,
                       lines: seq<string>, file: Option<seq<string>>): (r: (State, Completion))
    requires StateValid(st) && lnum <= |buffer|
    ensures StateValid(r.0)
  {
    var word := RWord(typed);
    if IsInQuotes(typed, word) then (st, Skipped)
    else
      var func := if RFunc(typed).Some? then RFunc(typed).value else "";
      var pipe := PipeScan(buffer, lnum, 0);
      if func != "" then
        var (st1, r) := FuncMatchesSpec(st, func, word, pipe, lines, file);
        (st1, ItemsResult(r))
      else if word == "" then (st, Skipped)
      else
        var (st1, r) := MatchesSpec(st, word, None, lines, file);
        (st1, if r.Ok? then Completed(Items(r.value)) else Failed(r.error))
  }

  /** A request is skipped, leaving everything as it was, exactly when the
      word is quoted, or when there is neither a call nor a word. */
  lemma RefreshSkips(st: State, typed: string, buffer: seq<string>, lnum: nat,
                     lines: seq<string>, file: Option<seq<string>>)
    requires StateValid(st) && lnum <= |buffer|
    ensures var r := RefreshSpec(st, typed, buffer, lnum, lines, file);
      r.1 == Skipped <==>
        IsInQuotes(typed, RWord(typed)) || (RFunc(typed).None? && RWord(typed) == "")
    ensures var r := RefreshSpec(st, typed, buffer, lnum, lines, file);
      r.1 == Skipped ==> r.0 == st
  {
    var word := RWord(typed);
    if !IsInQuotes(typed, word) {
      var func := if RFunc(typed).Some? then RFunc(typed).value else "";
      var pipe := PipeScan(buffer, lnum, 0);
      if func != "" {
        var x := FuncMatchesSpec(st, func, word, pipe, lines, file);
        assert RefreshSpec(st, typed, buffer, lnum, lines, file).1 == ItemsResult(x.1);
      } else if word != "" {
        var x := MatchesSpec(st, word, None, lines, file);
        assert RefreshSpec(st, typed, buffer, lnum, lines, file).1
          == if x.1.Ok? then Completed(Items(x.1.value)) else Failed(x.1.error);
      }
    }
  }

  /** Outside a call the piped data is not used: the objects are filtered by
      the word alone. */
  lemma RefreshIgnoresPipe(st: State, typed: string, buffer: seq<string>, lnum: nat,
                           lines: seq<string>, file: Option<seq<string>>)
    requires StateValid(st) && lnum <= |buffer|
    requires !IsInQuotes(typed, RWord(typed)) && RFunc(typed).None? && RWord(typed) != ""
    ensures RefreshSpec(st, typed, buffer, lnum, lines, file).0
      == MatchesSpec(st, RWord(typed), None, lines, file).0
    ensures RefreshSpec(st, typed, buffer, lnum, lines, file).1
      == var r := MatchesSpec(st, RWord(typed), None, lines, file).1;
         if r.Ok? then Completed(Items(r.value)) else Failed(r.error)
  {
  }
}
