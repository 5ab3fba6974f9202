# ncm-R completion source, modelled in Dafny

This project models `pythonx/cm_sources/r.py`, the R source of the Neovim
Completion Manager. It covers three parts:

- **Match records.** Nvim-R writes omni lists: one record per line, with
  `\x06`-separated fields (word, struct, an unused field, package, info).
  `to_matches` and `create_match` turn those records into completion
  matches. `get_func_args` splits a function's info into argument tokens
  (separated by `\t`, cut at `\x08`, with `\x07` rendered as ` = `).
  `make_func_snippet` builds the call snippet with numbered `${n:arg}` fields.
- **Filters.** `filter_matches_arg`, `filter_matches_struct`,
  `filter_matches_pkgs` and `filter_matches` select and rewrite matches.
- **The `Source` object.** It holds five lists: loaded package names,
  installed package matches, package matches, function matches and object
  matches. Its methods keep those lists up to date and answer a request
  (`cm_refresh`). A request is classified by four regular expressions:
  the word before the cursor (`R_WORD`), the call around it (`R_FUNC`), an
  assignment (`R_LINE`) and a pipe (`R_PIPE`). A quote test is applied to
  the word.

Modules:

- `Wrappers`: `Option`, `Result` and the two Python exceptions that can
  escape, `IndexError` and `KeyError`.
- `Text`: the Python string operations used, such as `strip`, `split`,
  `join`, `in`, `replace`, `str(n)` and `'{:10}'.format`.
- `Matches`: the match datatype, the record parser, the snippet builder and
  the filters.
- `Scanners`: each regular expression written as a scanner that returns
  the match Python's `re` finds.
- `SourceState`: the five lists as a `State` value. Each operation of the
  source is a function from the old state to the new state and its
  result, and the lemmas about them live here.
- `RSource`: the class `Source`. Its methods update its `seq` fields in
  place. Each method's contract ties the new fields and the result to the
  matching function of `SourceState`.

Python's lists of dictionaries are shared, and the source mutates them
through that sharing, so the model has to keep track of it:

- The function list holds the very dictionaries of the package list and of
  the installed list. Its entries are therefore `Ref`s (an index into one
  of those two lists). `args.extend(args)` doubles the argument list of the
  match in its home list.
- `filter_matches(..., rm_typed=True)` rewrites the words of the object
  list it was given.
- `get_matches` appends the installed packages to the function list
  itself.
- Exceptions become `Err` results. Any state changes made before the raise
  are kept.

Where the code's behaviour is surprising, the model follows the code:

- A skipped `...` keeps its field number, so the numbering can have gaps.
- `$1` is appended whenever there is exactly one token, even after a field.
- `R_FUNC` finds the leftmost call in the typed text, not the innermost
  unclosed one.
- `rm_typed` removes every occurrence of the typed text, and it changes the
  stored object matches.
- A record with fewer than five fields raises `IndexError`; it is not just
  skipped.
- In the quote test the word is read as a regular expression: `.` matches
  any character, and `$` is an anchor.
- The cursor line is never cut at the cursor column.
- The object list is searched for arguments only when the function is
  found with an empty argument list. Argument lists come back doubled.
- The word-only branch of `cm_refresh` does not use the pipe.

## Model

| member | source | states |
|---|---|---|
| Text.Field10 | pythonx/cm_sources/r.py:40 | the default menu is exactly ten characters: the first ten of `struct`, or `struct` padded with blanks |
| Text.StripInfix | pythonx/cm_sources/r.py:77 | `strip` keeps an infix of the text and removes only whitespace around it |
| Text.StripIdempotent | pythonx/cm_sources/r.py:316 | stripping an already stripped line changes nothing |
| Text.NatToStringValue | pythonx/cm_sources/r.py:112 | the field number `str(numarg+1)` reads back as the number |
| Matches.GetFuncArgs | pythonx/cm_sources/r.py:124-138 | no tokens exactly when the info is empty; no token keeps a `\x07` |
| Matches.FuncArgsRoundTrip | pythonx/cm_sources/r.py:133-136 | tokens joined by tabs and followed by `\x08` and any rest are decoded back to the same tokens |
| Matches.WithoutSentinels | pythonx/cm_sources/r.py:58-63 | the argument tokens are exactly those other than `NO_ARGS` and `...`, in their order |
| Matches.WithoutSentinelsCount | pythonx/cm_sources/r.py:58-63 | each argument token is kept as often as it occurs among the tokens; `NO_ARGS` and `...` never |
| Matches.Mandatory | pythonx/cm_sources/r.py:106 | the mandatory tokens are exactly those without `=`, in their order |
| Matches.MandatoryCount | pythonx/cm_sources/r.py:106 | each token without `=` is kept as often as it occurs; tokens with `=` never |
| Matches.DropLastTwo | pythonx/cm_sources/r.py:115 | `s[:-2]` removes the last two characters, or leaves `''` when there are fewer |
| Matches.MakeFuncSnippet | pythonx/cm_sources/r.py:93-121 | the loop builds the snippet that the field-by-field definition describes |
| Matches.SnippetJoinsFields | pythonx/cm_sources/r.py:108-119 | with several tokens and at least one field, the snippet is the fields joined by `, ` in parentheses |
| Matches.SnippetNumberGap | pythonx/cm_sources/r.py:108-112 | tokens `a, ..., b` give `f(${1:a}, ${3:b})`: the skipped `...` keeps its number |
| Matches.SnippetEatsName | pythonx/cm_sources/r.py:114-119 | with several tokens and none mandatory, `[:-2]` cuts the last character of the name: `f(x = 1, y = 2)` gives a snippet that is the name minus one character, then `)` |
| Matches.SnippetMandatoryToken | pythonx/cm_sources/r.py:114-119 | one mandatory token `x` gives `f(${1:x}, $1)` |
| Matches.SnippetOptionalToken | pythonx/cm_sources/r.py:114-119 | one optional token gives `f($1)` |
| Matches.CreateMatch | pythonx/cm_sources/r.py:26-90 | no match exactly when word and struct are both empty; the struct is kept; `pkg` is present only when non-empty; `args` is present exactly for a function with info |
| Matches.CreateMatchSnippets | pythonx/cm_sources/r.py:39-74 | snippets by struct: `word($1)` for a function without info, `word$$1` for `data.frame`/`tbl_df`, `word::$1` for a package, none for other structs; the default menu is `struct` in ten columns |
| Matches.FunctionMatch | pythonx/cm_sources/r.py:46-65 | a function with info: the menu is `{pkg}` in ten columns followed by the call with every token; the snippet is `make_func_snippet`; there is one argument match per token other than `NO_ARGS` and `...`, in order |
| Matches.ArgumentMatch | pythonx/cm_sources/r.py:76-88 | an argument: the word is the stripped text before the first `=`; the menu is `param` in ten columns plus ` = rhs` for a non-empty rhs; the snippet is `lhs = ${1:rhs}` or `lhs = $1` |
| Matches.ArgumentRoundTrip | pythonx/cm_sources/r.py:76-79 | a token `name\x07default`, rendered by `get_func_args` and split by `create_match`, gives back the name and the default |
| Matches.RecordMatch | pythonx/cm_sources/r.py:151-153 | a record raises `IndexError` exactly when it has fewer than five fields |
| Matches.ParseRecordsSpec | pythonx/cm_sources/r.py:141-158 | a listing parses exactly when every record has five fields; it gives at most one match per record, and none with both word and struct empty |
| Matches.ToMatches | pythonx/cm_sources/r.py:141-158 | the loop returns the parse of the listing, or raises the `IndexError` of its first short record |
| Matches.RecordRoundTrip | pythonx/cm_sources/r.py:150-156 | a record written from five fields parses to the match of those fields, or to nothing when word and struct are empty |
| Matches.FilterStruct | pythonx/cm_sources/r.py:180-193 | everything for an empty struct; otherwise exactly the matches of that struct, as a subsequence |
| Matches.FilterStructCount | pythonx/cm_sources/r.py:191 | each match of the struct is kept as often as it occurs; other matches never |
| Matches.FilterPkgs | pythonx/cm_sources/r.py:196-209 | everything for no names; otherwise `KeyError` exactly when a match has no `pkg`, and else exactly the matches whose `pkg` contains a listed name, as a subsequence |
| Matches.FilterPkgsCount | pythonx/cm_sources/r.py:207 | each match whose `pkg` contains a listed name is kept as often as it occurs; other matches never |
| Matches.FirstWithWord | pythonx/cm_sources/r.py:172-175 | the index of the first match whose word is the name, or none when no match has it |
| Matches.FilterArg | pythonx/cm_sources/r.py:161-177 | the list itself for an empty name; `KeyError` exactly when a match with that word has no `args`; else `['']` when nothing is found, or the `args` of the first match found |
| Matches.FilterMatches | pythonx/cm_sources/r.py:212-234 | the loop returns the selected matches (none for an empty `typed`) and leaves the caller's list with exactly the kept matches rewritten |
| Matches.FilterKeepsOrder | pythonx/cm_sources/r.py:222-232 | without `rm_typed` the caller's list is unchanged, and the result is exactly the matches that start with `typed` and do not contain `hide`, in their order, each as often as it occurs |
| Matches.FilterRewrites | pythonx/cm_sources/r.py:229-232 | with `rm_typed` the selection is the same, and every occurrence of `typed` is removed from each word |
| Scanners.RWord | pythonx/cm_sources/r.py:240 | `R_WORD` finds a suffix of name characters that cannot be extended to the left |
| Scanners.RWordUnique | pythonx/cm_sources/r.py:240 | that suffix is the only one with this property |
| Scanners.QuotedWord | pythonx/cm_sources/r.py:446-448 | the quote test holds exactly when the word has no `$` and a quote comes right before it |
| Scanners.QuotedExamples | pythonx/cm_sources/r.py:443-448 | after `x <- "df` the word `df` is quoted; after `x <- "df$` the word `df$` is not |
| Scanners.RLineSpec | pythonx/cm_sources/r.py:242 | the scanner accepts exactly the lines with `<-` or `=` at an index of at least 1 and no `(` before it |
| Scanners.PipeStart | pythonx/cm_sources/r.py:243 | the scan finds the leftmost position where `R_PIPE` matches, or reports that there is none |
| Scanners.RPipe | pythonx/cm_sources/r.py:243 | a pipe capture is only found in a line that contains `%>%` |
| Scanners.PipeCapture | pythonx/cm_sources/r.py:243 | the capture is a whole, non-empty run of name characters that `R_PIPE` accepts |
| Scanners.PipeSpaced | pythonx/cm_sources/r.py:243 | one blank before `%>%` is allowed: `x %>%` gives `x` |
| Scanners.PipeColumn | pythonx/cm_sources/r.py:243 | `$` belongs to the capture: `df$a%>%` gives `df$a` |
| Scanners.FuncStart | pythonx/cm_sources/r.py:241 | the scan finds the leftmost run of call characters directly followed by `(`, or reports that there is none |
| Scanners.RFunc | pythonx/cm_sources/r.py:241 | the captured name is non-empty and has no `(`, `^` or whitespace |
| Scanners.FuncLeftmost | pythonx/cm_sources/r.py:450-451 | inside nested calls the outer function is found: `f(g(x` gives `f` |
| SourceState.InstalledMatches | pythonx/cm_sources/r.py:326-331 | one `package` match per name, in order, with word `name` and snippet `name::$1` |
| SourceState.LoadListingsSpec | pythonx/cm_sources/r.py:335-339 | loading fails with `IndexError` exactly when some omni list has a short record |
| SourceState.LoadListingsStops | pythonx/cm_sources/r.py:335-339 | after a failing file the later files are not read |
| SourceState.LoadPkgs | pythonx/cm_sources/r.py:320-339 | loading keeps every entry of the function list valid and leaves the loaded, function and object lists alone |
| SourceState.UpdateLoaded | pythonx/cm_sources/r.py:283-307 | only the loaded list changes; a missing file keeps it and reports no change; the result is true exactly when the set of names changed |
| SourceState.UpdateLoadedSettles | pythonx/cm_sources/r.py:304-307 | reading the same file a second time reports no change |
| SourceState.FuncRefs | pythonx/cm_sources/r.py:345-346 | a `KeyError` exactly when the package filter raises one; otherwise entries into the package list |
| SourceState.FuncRefsResolve | pythonx/cm_sources/r.py:345-347 | the stored entries resolve to the function records of the loaded packages, in order |
| SourceState.UpdateFuncs | pythonx/cm_sources/r.py:341-347 | only the loaded and function lists change, and the function list stays valid |
| SourceState.StaleAfterKeyError | pythonx/cm_sources/r.py:341-347 | after a `KeyError` the old function list stays, and the next call with the same file does not retry |
| SourceState.RefreshObjs | pythonx/cm_sources/r.py:309-318 | the object list becomes the parsed listing; a short record raises `IndexError` and changes nothing |
| SourceState.MatchesSpec | pythonx/cm_sources/r.py:349-382 | `get_matches` keeps the function list valid and leaves the package lists alone |
| SourceState.ObjectsHideColumns | pythonx/cm_sources/r.py:368-370 | with no pipe and no `$` in the word, the objects are those that start with the word and have no `$`, unchanged, in order, each as often as it occurs |
| SourceState.ObjectsOfPipe | pythonx/cm_sources/r.py:360-362 | inside a pipeline on `p`, the objects are those that start with `p$`, in order and each as often as it occurs, with `p$` removed |
| SourceState.ObjectsOfColumns | pythonx/cm_sources/r.py:364-367 | with no pipe and a `$` in the word, the objects are those that start with the word, in order and each as often as it occurs, with the word removed |
| SourceState.MatchesResult | pythonx/cm_sources/r.py:357-382 | `get_matches` raises `IndexError` for a short object record, changing nothing, or passes on the error of `update_func_matches`; otherwise it returns the object part followed by the matches of the extended function list that start with the word, in order, each as often as it occurs there |
| SourceState.FunctionListGrows | pythonx/cm_sources/r.py:376-377 | when the loaded packages do not change, each call appends the installed packages to the function list |
| SourceState.ArgsLookup | pythonx/cm_sources/r.py:396-402 | the lookup keeps the function list and the loaded names, and keeps every entry valid |
| SourceState.ArgsNotFound | pythonx/cm_sources/r.py:396-402 | a name missing from the function list gives `['', '']` and changes nothing, whatever the objects hold: the object list is not searched |
| SourceState.ArgsIgnoreObjects | pythonx/cm_sources/r.py:396-402 | unless the function is found with an empty argument list, the lookup's result does not depend on the object list, and the object list is left as it is |
| SourceState.ArgsDoubleEachTime | pythonx/cm_sources/r.py:398-399 | a found argument list is returned twice and stored doubled, so the next lookup returns it four times |
| SourceState.StaleObjectsInCall | pythonx/cm_sources/r.py:396-404 | when the function's argument list is empty, the arguments come from the objects of the previous request, whatever the new listing holds |
| SourceState.WriteBackEmpty | pythonx/cm_sources/r.py:399 | extending an empty argument list by itself changes nothing |
| SourceState.CallOrder | pythonx/cm_sources/r.py:404-412 | in a call, the arguments come before the `get_matches` result, and after it inside a pipeline |
| SourceState.LibraryOffersInstalled | pythonx/cm_sources/r.py:393-394 | after `library(` or `require(` the installed packages are offered and nothing changes |
| SourceState.PipeScanSpec | pythonx/cm_sources/r.py:414-438 | `get_pipe` finds `p` exactly when a line at or above the cursor captures `p`, and no line between has a capture, more than one line lacks `%>%`, or a line without `%>%` is an assignment |
| SourceState.RefreshSkips | pythonx/cm_sources/r.py:440-465 | a request is skipped exactly when the word is quoted, or when there is neither a call nor a word; a skipped request changes nothing |
| SourceState.RefreshIgnoresPipe | pythonx/cm_sources/r.py:456-462 | outside a call the request changes the lists as `get_matches` without a pipe does, and completes with its result or fails with its error |
| RSource.Source.constructor | pythonx/cm_sources/r.py:251-255 | the five lists start empty |
| RSource.Source.GetAllPkgMatches | pythonx/cm_sources/r.py:320-339 | the lists become what `LoadPkgs` says, and the `IndexError` it reports is raised |
| RSource.Source.AddInstalled | pythonx/cm_sources/r.py:326-331 | the loop appends one `package` match per name and changes nothing else |
| RSource.Source.ExtendWithListings | pythonx/cm_sources/r.py:333-339 | the loop appends the matches of each file up to the first malformed one, and raises its error |
| RSource.Source.UpdateLoadedPkgs | pythonx/cm_sources/r.py:283-307 | the loaded list and the change flag are those of `UpdateLoaded` |
| RSource.Source.UpdateFuncMatches | pythonx/cm_sources/r.py:341-347 | the lists and the error are those of `UpdateFuncs` |
| RSource.Source.GetAllObjMatches | pythonx/cm_sources/r.py:309-318 | the object list and the error are those of `RefreshObjs` |
| RSource.Source.GetMatches | pythonx/cm_sources/r.py:349-382 | the lists and the result are those of `MatchesSpec`, including the rewritten objects and the grown function list |
| RSource.Source.ExtendArgs | pythonx/cm_sources/r.py:399 | `extend` doubles the argument list of the match an entry refers to, in its home list |
| RSource.Source.LookupArgs | pythonx/cm_sources/r.py:396-402 | the loop over the two lists gives the arguments and the doubled stored lists that `ArgsLookup` describes |
| RSource.Source.GetFuncMatches | pythonx/cm_sources/r.py:384-412 | the lists and the result are those of the `get_func_matches` function |
| RSource.Source.GetPipe | pythonx/cm_sources/r.py:414-438 | the backward loop returns what the scan `PipeScan` returns on the full lines: the cut at the cursor column never happens |
| RSource.Source.Refresh | pythonx/cm_sources/r.py:440-465 | the lists and the completion are those of `RefreshSpec` |

## Left out

- `register_source` (lines 16-24) is plugin metadata with no behaviour.
- Neovim calls are not modelled: `nvim.eval`, `StartR`, `SendToNvimcom`,
  `AddForDeletion`, `BuildROmniList` and `complete`. The buffer is a
  parameter, and the completion list is the return value of `Refresh`.
- File and directory I/O is not modelled. The contents of the omni lists,
  the global-environment listing and the loaded-packages file are
  parameters. `None` stands for the missing loaded-packages file.
- `_start_nvimr` and `_r_output_to_file` are not modelled; they only send
  commands to R. Logging is not modelled either.
- RSource.Source.GetAllPkgMatches: takes the package names as input instead
  of extracting them from the file names with `_(\w+)_` (line 327). It
  takes the omni lists in the same order. A file name without a match
  (a `TypeError` in Python) is not modelled.
- RSource.Source.constructor: models only the five empty lists of
  `__init__`. Loading the package lists is the separate call
  `GetAllPkgMatches`. In the source, an `IndexError` raised while loading
  escapes `__init__`, so no `Source` object exists afterwards. The model
  instead keeps a `Source` whose lists are only partly loaded.
- `\w` is approximated by ASCII letters, digits and `_`. Python also
  accepts Unicode letters and digits there.
- Scanners.IsInQuotes: assumes the typed text holds no newline, so the
  `$` anchor only matches at the end of the text.
- RSource.Source.GetFuncMatches: requires a non-empty function name. The
  source calls it only when `R_FUNC` captured a name, and that capture is
  never empty.
- RSource.Source.GetPipe: requires the cursor line to be within the
  buffer. Neovim guarantees this.
- RSource.Source.LookupArgs: the loop over the two lists is written out as
  two steps, one per list.
- RSource.Source.UpdateLoadedPkgs: returns a `bool` instead of the integers
  0 and 1.
- Matches.SnippetNumberGap: states the expected snippet through the field
  texts `${1:a}` and `${3:b}`, not as one literal string.
- SourceState.MatchesSpec, SourceState.UpdateFuncs and
  SourceState.ArgsLookup: the contracts state only which lists stay the
  same. What they return is stated by MatchesResult, FuncRefsResolve,
  StaleAfterKeyError, ArgsNotFound, ArgsIgnoreObjects, ArgsDoubleEachTime
  and StaleObjectsInCall.
- An exception escaping from `cm_refresh` is modelled as the `Failed`
  outcome. The host's handling of it is not modelled.
