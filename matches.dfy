/** Match records of the R completion source: building them from omni-list
    records (`create_match`, `get_func_args`, `make_func_snippet`,
    `to_matches`) and the filters over lists of them (`filter_matches_arg`,
    `filter_matches_struct`, `filter_matches_pkgs`, `filter_matches`). */
module Matches {
  import opened Wrappers
  import opened Text

  /** The dictionary `create_match` returns. The keys `pkg`, `snippet` and
      `args` are optional; `args` holds the argument matches of a function. */
  datatype Match = Match(word: string, menu: string, struct: string,
                         pkg: Option<string>, snippet: Option<string>,
                         args: Option<seq<Match>>)

  /** An entry of a list handed to the editor: a match, or the empty string
      that `filter_matches_arg` puts in a list when no function is found. */
  datatype Item = Cand(m: Match) | Blank

  const NoArgs: string := "NO_ARGS"
  const Ellipsis: string := "..."

  /** Every match of `ms` as a list entry, in order. */
  function Items(ms: seq<Match>): (r: seq<Item>)
    ensures |r| == |ms| && forall i :: 0 <= i < |ms| ==> r[i] == Cand(ms[i])
  {
    seq(|ms|, i requires 0 <= i < |ms| => Cand(ms[i]))
  }

  /** `a` is `b` with some elements left out, the rest in their order. */
  predicate IsSubsequence<T(==)>(a: seq<T>, b: seq<T>)
  {
    if |a| == 0 then true
    else if |b| == 0 then false
    else
      || (a[|a| - 1] == b[|b| - 1] && IsSubsequence(a[..|a| - 1], b[..|b| - 1]))
      || IsSubsequence(a, b[..|b| - 1])
  }

  // ---------------------------------------------------------------------
  // Argument tokens

  /** `get_func_args`: the tab-separated tokens of the part of `info` before
      the first `\x08`, each with `\x07` rendered as `" = "`. */
  function GetFuncArgs(info: string): (r: seq<string>)
    ensures info == "" <==> r == []
    ensures forall a :: a in r ==> '\U{7}' !in a
  {
    if info == "" then []
    else
      var tokens := Split(Split(info, '\U{8}')[0], '\t');
      seq(|tokens|, i requires 0 <= i < |tokens| => ReplaceChar(tokens[i], '\U{7}', " = "))
  }

  lemma {:induction false} JoinWithout(parts: seq<string>, sep: char, c: char)
    requires c != sep
    requires forall p :: p in parts ==> c !in p
    ensures c !in Join(parts, [sep])
  {
    if |parts| > 1 {
      assert parts[0] in parts;
      assert forall p :: p in parts[1..] ==> p in parts;
      JoinWithout(parts[1..], sep, c);
    } else if |parts| == 1 {
      assert parts[0] in parts;
    }
  }

  /** Encoding the tokens of a function's info and decoding them with
      `get_func_args` gives the tokens back, whatever follows the `\x08`. */
  lemma FuncArgsRoundTrip(tokens: seq<string>, rest: string)
    requires |tokens| >= 1
    requires forall t :: t in tokens ==> '\t' !in t && '\U{8}' !in t && '\U{7}' !in t
    ensures GetFuncArgs(Join(tokens, "\t") + "\U{8}" + rest) == tokens
  {
    var joined := Join(tokens, "\t");
    JoinWithout(tokens, '\t', '\U{8}');
    SplitAfterPiece(joined, rest, '\U{8}');
    assert joined + "\U{8}" + rest == joined + ['\U{8}'] + rest;
    SplitJoin(tokens, '\t');
  }

  /** The tokens that become argument matches: all but `NO_ARGS` and `...`. */
  function WithoutSentinels(args: seq<string>): (r: seq<string>)
    ensures forall a :: a in r <==> a in args && a != NoArgs && a != Ellipsis
    ensures IsSubsequence(r, args)
  {
    if |args| == 0 then []
    else
      var init := WithoutSentinels(args[..|args| - 1]);
      var last := args[|args| - 1];
      assert args == args[..|args| - 1] + [last];
      if last == NoArgs || last == Ellipsis then init else init + [last]
  }

  /** Each argument token is kept as often as it occurs. */
  lemma {:induction false} WithoutSentinelsCount(args: seq<string>)
    ensures forall a :: multiset(WithoutSentinels(args))[a]
                          == if a != NoArgs && a != Ellipsis then multiset(args)[a] else 0
  {
    if |args| > 0 {
      WithoutSentinelsCount(args[..|args| - 1]);
      assert args == args[..|args| - 1] + [args[|args| - 1]];
    }
  }

  // ---------------------------------------------------------------------
  // make_func_snippet

  /** The tokens without `=`: the mandatory arguments. */
  function Mandatory(args: seq<string>): (r: seq<string>)
    ensures forall a :: a in r <==> a in args && '=' !in a
    ensures IsSubsequence(r, args)
  {
    if |args| == 0 then []
    else
      var init := Mandatory(args[..|args| - 1]);
      var last := args[|args| - 1];
      assert args == args[..|args| - 1] + [last];
      if '=' in last then init else init + [last]
  }

  /** Each mandatory token is kept as often as it occurs. */
  lemma {:induction false} MandatoryCount(args: seq<string>)
    ensures forall a :: multiset(Mandatory(args))[a] == if '=' !in a then multiset(args)[a] else 0
  {
    if |args| > 0 {
      MandatoryCount(args[..|args| - 1]);
      assert args == args[..|args| - 1] + [args[|args| - 1]];
    }
  }

  /** A token that is a substring of `'...'` (so `''`, `.`, `..` or `...`) and
      is not the first mandatory argument gets no field, but its number is
      used up all the same. */
  predicate FieldSkipped(arg: string, k: nat) {
    Contains(Ellipsis, arg) && k > 0
  }

  /** The numbered field `${n:arg}`. */
  function FieldText(n: nat, arg: string): string {
    "${" + NatToString(n) + ":" + arg + "}"
  }

  /** The text the loop adds for the mandatory argument at index `k`. */
  function Field(arg: string, k: nat): string {
    if FieldSkipped(arg, k) then "" else FieldText(k + 1, arg) + ", "
  }

  /** The fields of the first `n` mandatory arguments, each closed by `", "`. */
  function Fields(mand: seq<string>, n: nat): string
    requires n <= |mand|
  {
    if n == 0 then "" else Fields(mand, n - 1) + Field(mand[n - 1], n - 1)
  }

  lemma FieldsSkip(mand: seq<string>, n: nat)
    requires n < |mand| && FieldSkipped(mand[n], n)
    ensures Fields(mand, n + 1) == Fields(mand, n)
  {
    assert Fields(mand, n + 1) == Fields(mand, n) + "";
  }

  lemma FieldsAppend(open: string, mand: seq<string>, n: nat)
    requires n < |mand| && !FieldSkipped(mand[n], n)
    ensures open + Fields(mand, n) + FieldText(n + 1, mand[n]) + ", " == open + Fields(mand, n + 1)
  {
    var done, text := Fields(mand, n), FieldText(n + 1, mand[n]);
    assert Fields(mand, n + 1) == done + (text + ", ");
    ConcatAssoc(open, done, text, ", ");
  }

  lemma ConcatAssoc(a: string, b: string, c: string, d: string)
    ensures a + b + c + d == a + (b + (c + d))
  {
  }

  /** Python's `s[:-2]`: all but the last two characters, `''` when there are
      fewer than two. */
  function DropLastTwo(s: string): (r: string)
    ensures |s| >= 2 ==> s == r + s[|s| - 2..]
    ensures |s| < 2 ==> r == ""
  {
    if |s| >= 2 then s[..|s| - 2] else ""
  }

  /** The snippet `make_func_snippet(func, args)` returns. */
  function FuncSnippet(func: string, args: seq<string>): string
    requires |args| >= 1
  {
    if args[0] == NoArgs then func + "()"
    else
      var mand := Mandatory(args);
      var body := func + "(" + Fields(mand, |mand|);
      (if |args| > 1 then DropLastTwo(body) else body + "$1") + ")"
  }

  /** `make_func_snippet`: the name, `(`, a numbered field per mandatory
      argument, the closing text. `args` is never empty where it is called. */
  method MakeFuncSnippet(func: string, args: seq<string>) returns (snippet: string)
    requires |args| >= 1
    ensures snippet == FuncSnippet(func, args)
  {
    snippet := func + "(";
    if args[0] == NoArgs {
      return snippet + ")";
    }
    var mand := Mandatory(args);
    ghost var open := snippet;
    for numarg := 0 to |mand|
      invariant snippet == open + Fields(mand, numarg)
    {
      var arg := mand[numarg];
      if Contains(Ellipsis, arg) && numarg > 0 {
        FieldsSkip(mand, numarg);
        continue;
      }
      FieldsAppend(open, mand, numarg);
      snippet := snippet + FieldText(numarg + 1, arg) + ", ";
    }
    if |args| > 1 {
      snippet := DropLastTwo(snippet);
    } else {
      snippet := snippet + "$1";
    }
    snippet := snippet + ")";
  }

  /** The field texts `${k:arg}` that the loop emits, in order; `k` is the
      argument's 1-based index among the mandatory ones. */
  function FieldTexts(mand: seq<string>, n: nat): seq<string>
    requires n <= |mand|
  {
    if n == 0 then []
    else if FieldSkipped(mand[n - 1], n - 1) then FieldTexts(mand, n - 1)
    else FieldTexts(mand, n - 1) + [FieldText(n, mand[n - 1])]
  }

  /** Each text of `ts` followed by `sep`. */
  function Terminated(ts: seq<string>, sep: string): string {
    if |ts| == 0 then "" else Terminated(ts[..|ts| - 1], sep) + ts[|ts| - 1] + sep
  }

  lemma {:induction false} FieldsTerminated(mand: seq<string>, n: nat)
    requires n <= |mand|
    ensures Fields(mand, n) == Terminated(FieldTexts(mand, n), ", ")
  {
    if n > 0 {
      var prev := FieldTexts(mand, n - 1);
      FieldsTerminated(mand, n - 1);
      if FieldSkipped(mand[n - 1], n - 1) {
        assert Fields(mand, n) == Fields(mand, n - 1) + "";
      } else {
        var t := FieldText(n, mand[n - 1]);
        assert FieldTexts(mand, n) == prev + [t];
        assert Fields(mand, n) == Terminated(prev + [t], ", ") by {
          calc {
            Fields(mand, n);
            Fields(mand, n - 1) + (t + ", ");
            Terminated(prev, ", ") + (t + ", ");
            { AppendAssoc(Terminated(prev, ", "), t, ", "); }
            Terminated(prev, ", ") + t + ", ";
            { assert (prev + [t])[..|prev|] == prev && (prev + [t])[|prev|] == t; }
            Terminated(prev + [t], ", ");
          }
        }
      }
    }
  }

  lemma AppendAssoc<T>(a: seq<T>, b: seq<T>, c: seq<T>)
    ensures a + b + c == a + (b + c)
  {
  }

  lemma {:induction false} JoinAppend(ts: seq<string>, t: string, sep: string)
    requires |ts| >= 1
    ensures Join(ts + [t], sep) == Join(ts, sep) + sep + t
  {
    if |ts| > 1 {
      JoinAppend(ts[1..], t, sep);
      assert (ts + [t])[1..] == ts[1..] + [t];
    }
  }

  lemma {:induction false} TerminatedJoin(ts: seq<string>, sep: string)
    requires |ts| >= 1
    ensures Terminated(ts, sep) == Join(ts, sep) + sep
  {
    if |ts| > 1 {
      var init := ts[..|ts| - 1];
      TerminatedJoin(init, sep);
      JoinAppend(init, ts[|ts| - 1], sep);
      assert init + [ts[|ts| - 1]] == ts;
    }
  }

  /** With more than one token and at least one field, dropping the last two
      characters removes exactly the final `", "`: the snippet is the fields
      joined by `", "` inside the parentheses. */
  lemma SnippetJoinsFields(func: string, args: seq<string>)
    requires |args| > 1 && args[0] != NoArgs
    requires FieldTexts(Mandatory(args), |Mandatory(args)|) != []
    ensures FuncSnippet(func, args)
      == func + "(" + Join(FieldTexts(Mandatory(args), |Mandatory(args)|), ", ") + ")"
  {
    var mand := Mandatory(args);
    var ts := FieldTexts(mand, |mand|);
    FieldsTerminated(mand, |mand|);
    TerminatedJoin(ts, ", ");
    var head := func + "(" + Join(ts, ", ");
    var body := func + "(" + Fields(mand, |mand|);
    assert body == head + ", ";
    assert DropLastTwo(body) == head;
  }

  lemma {:induction false} MandatoryNone(args: seq<string>)
    requires forall a :: a in args ==> '=' in a
    ensures Mandatory(args) == []
  {
    if |args| > 0 {
      assert args[|args| - 1] in args;
      assert forall a :: a in args[..|args| - 1] ==> a in args;
      MandatoryNone(args[..|args| - 1]);
    }
  }

  lemma {:induction false} MandatoryAll(args: seq<string>)
    requires forall a :: a in args ==> '=' !in a
    ensures Mandatory(args) == args
  {
    if |args| > 0 {
      var init := args[..|args| - 1];
      assert args[|args| - 1] in args;
      assert forall a :: a in init ==> a in args;
      MandatoryAll(init);
      assert init + [args[|args| - 1]] == args;
    }
  }

  /** With more than one token and none of them mandatory, no field is emitted
      and `[:-2]` cuts into `func + '('`: `f` with arguments `x = 1` and
      `y = 2` gives `)` after all but the last character of the name. */
  lemma SnippetEatsName(func: string, args: seq<string>)
    requires |args| > 1 && args[0] != NoArgs
    requires forall a :: a in args ==> '=' in a
    ensures |func| >= 1 ==> FuncSnippet(func, args) == func[..|func| - 1] + ")"
    ensures |func| == 0 ==> FuncSnippet(func, args) == ")"
  {
    var mand := Mandatory(args);
    MandatoryNone(args);
    var body := func + "(";
    assert func + "(" + Fields(mand, |mand|) == body;
    if |func| >= 1 {
      assert body[..|body| - 2] == func[..|func| - 1];
    }
  }

  /** One mandatory token `x` gives `f(${1:x}, $1)`. */
  lemma SnippetMandatoryToken(func: string, arg: string)
    requires arg != NoArgs && '=' !in arg
    ensures FuncSnippet(func, [arg]) == func + "(${1:" + arg + "}, $1)"
  {
    var mand := Mandatory([arg]);
    var f := "${1:" + arg + "}";
    assert FuncSnippet(func, [arg]) == func + "(" + (f + ", ") + "$1" + ")" by {
      assert [arg][..0] == [];
      assert mand == [arg];
      assert FieldText(1, arg) == f by {
        assert NatToString(1) == "1";
      }
      assert Fields(mand, 1) == Fields(mand, 0) + Field(arg, 0);
    }
    assert "(${1:" == "(" + "${1:" && "}, $1)" == "}" + ", " + "$1" + ")";
    Regroup(func, "(", "${1:", arg, "}", ", ", "$1", ")");
  }

  lemma Regroup(f: string, p: string, q: string, a: string, r: string, s: string, t: string, u: string)
    ensures f + p + ((q + a + r) + s) + t + u == f + (p + q) + a + (r + s + t + u)
  {
  }

  /** One optional token gives `f($1)`. */
  lemma SnippetOptionalToken(func: string, arg: string)
    requires arg != NoArgs && '=' in arg
    ensures FuncSnippet(func, [arg]) == func + "($1)"
  {
    assert [arg][..0] == [];
    assert Mandatory([arg]) == [];
  }

  /** A later `...` keeps its number: `a, ..., b` gives `f(${1:a}, ${3:b})`,
      numbering `b` as field 3. */
  lemma SnippetNumberGap()
    ensures FuncSnippet("f", ["a", "...", "b"])
      == "f" + "(" + (FieldText(1, "a") + ", " + FieldText(3, "b")) + ")"
  {
    var args := ["a", "...", "b"];
    var a, b := FieldText(1, "a"), FieldText(3, "b");
    assert Mandatory(args) == args by {
      forall t | t in args ensures '=' !in t {
        assert t == "a" || t == "..." || t == "b";
      }
      MandatoryAll(args);
    }
    assert Fields(args, |args|) == (a + ", " + b) + ", " by {
      GapFields(args);
    }
    SnippetOfFields("f", args, a + ", " + b);
  }

  /** With several tokens, all of them mandatory, and fields `inner + ", "`,
      the snippet is `func(inner)`. */
  lemma SnippetOfFields(func: string, args: seq<string>, inner: string)
    requires |args| > 1 && args[0] != NoArgs && Mandatory(args) == args
    requires Fields(args, |args|) == inner + ", "
    ensures FuncSnippet(func, args) == func + "(" + inner + ")"
  {
    var body := func + "(" + Fields(args, |args|);
    assert body == (func + "(" + inner) + ", ";
  }

  lemma GapFields(args: seq<string>)
    requires args == ["a", "...", "b"]
    ensures Fields(args, 3) == (FieldText(1, "a") + ", " + FieldText(3, "b")) + ", "
  {
    var a, b := FieldText(1, "a"), FieldText(3, "b");
    assert Fields(args, 1) == a + ", " by {
      assert Fields(args, 1) == Fields(args, 0) + Field("a", 0);
    }
    assert Fields(args, 2) == a + ", " by {
      assert StartsWith(Ellipsis, "...");
      assert Field("...", 1) == "";
    }
    assert Field("b", 2) == b + ", " by {
      ContainsFirstChar(Ellipsis, "b");
    }
    assert (a + ", ") + (b + ", ") == (a + ", " + b) + ", ";
  }

  // ---------------------------------------------------------------------
  // create_match

  /** The parts of an argument token: the stripped text before the first `=`,
      and the stripped second part when the token splits into exactly two. */
  function ArgLhs(word: string): string {
    Strip(Split(word, '=')[0])
  }

  function ArgRhs(word: string): string {
    var parts := Split(word, '=');
    if |parts| == 2 then Strip(parts[1]) else ""
  }

  /** `create_match(word, struct, pkg, info)`: `None` when both the word and
      the struct are empty, otherwise the match record. */
  function CreateMatch(word: string, struct: string, pkg: string, info: string): (r: Option<Match>)
    ensures r.None? <==> word == "" && struct == ""
    ensures r.Some? ==> r.value.struct == struct
    ensures r.Some? ==> r.value.pkg == (if pkg != "" then Some(pkg) else None)
    ensures r.Some? ==> (r.value.args.Some? <==> struct == "function" && info != "")
    decreases if struct == "function" then 1 else 0
  {
    if word == "" && struct == "" then None
    else
      var base := Match(word, Field10(struct), struct,
                        if pkg != "" then Some(pkg) else None, None, None);
      var withFunc :=
        if struct == "function" then
          if info != "" then
            var args := GetFuncArgs(info);
            var margs := WithoutSentinels(args);
            var argMatches := seq(|margs|, i requires 0 <= i < |margs| =>
                                    CreateMatch(margs[i], "argument", "", "").value);
            var menu := Field10("{" + pkg + "}") + " " + word + "(" + Join(args, ", ") + ")";
            base.(menu := menu, snippet := Some(FuncSnippet(word, args)), args := Some(argMatches))
          else base.(snippet := Some(word + "($1)"))
        else base;
      var withFrame :=
        if struct == "data.frame" || struct == "tbl_df" then withFunc.(snippet := Some(word + "$$1"))
        else withFunc;
      var withPkg :=
        if struct == "package" then withFrame.(snippet := Some(word + "::$1")) else withFrame;
      var withArg :=
        if struct == "argument" then
          var lhs := ArgLhs(word);
          var rhs := ArgRhs(word);
          var menu := Field10("param") + (if rhs != "" then " = " + rhs else "");
          var snippet := if rhs != "" then lhs + " = ${1:" + rhs + "}" else lhs + " = $1";
          withPkg.(word := lhs, menu := menu, snippet := Some(snippet))
        else withPkg;
      Some(withArg)
  }

  /** The snippet each kind of record gets, and the ten-column menu of the
      kinds that keep the default menu. */
  lemma CreateMatchSnippets(word: string, struct: string, pkg: string, info: string)
    requires word != "" || struct != ""
    ensures var m := CreateMatch(word, struct, pkg, info).value;
      && (struct == "function" && info == "" ==> m.snippet == Some(word + "($1)"))
      && (struct == "data.frame" || struct == "tbl_df" ==> m.snippet == Some(word + "$$1"))
      && (struct == "package" ==> m.snippet == Some(word + "::$1"))
      && (struct != "function" && struct != "argument" ==> m.word == word && m.menu == Field10(struct))
      && (struct !in {"function", "data.frame", "tbl_df", "package", "argument"} ==> m.snippet.None?)
  {
  }

  /** A function record with info: menu `{pkg}` in ten columns, then the call
      with every raw token; snippet from `make_func_snippet`; one argument
      match per token other than `NO_ARGS` and `...`, in order. */
  lemma FunctionMatch(word: string, pkg: string, info: string)
    requires info != ""
    ensures var m := CreateMatch(word, "function", pkg, info).value;
      var args := GetFuncArgs(info);
      && m.word == word
      && m.menu == Field10("{" + pkg + "}") + " " + word + "(" + Join(args, ", ") + ")"
      && m.snippet == Some(FuncSnippet(word, args))
      && |m.args.value| == |WithoutSentinels(args)|
      && forall i :: 0 <= i < |m.args.value| ==>
           m.args.value[i] == CreateMatch(WithoutSentinels(args)[i], "argument", "", "").value
  {
    var args := GetFuncArgs(info);
    var margs := WithoutSentinels(args);
    var argMatches := seq(|margs|, i requires 0 <= i < |margs| =>
                            CreateMatch(margs[i], "argument", "", "").value);
    var menu := Field10("{" + pkg + "}") + " " + word + "(" + Join(args, ", ") + ")";
    var base := Match(word, Field10("function"), "function",
                      if pkg != "" then Some(pkg) else None, None, None);
    assert CreateMatch(word, "function", pkg, info)
      == Some(base.(menu := menu, snippet := Some(FuncSnippet(word, args)), args := Some(argMatches)));
  }

  /** An argument match: the word is the stripped text before the first `=`;
      the menu is `param` in ten columns, followed by ` = rhs` only for a
      non-empty right-hand side; the snippet `lhs = ${1:rhs}` or `lhs = $1`. */
  lemma ArgumentMatch(word: string)
    ensures var m := CreateMatch(word, "argument", "", "").value;
      && m.word == ArgLhs(word) && m.struct == "argument" && m.pkg.None? && m.args.None?
      && m.menu == "param     " + (if ArgRhs(word) != "" then " = " + ArgRhs(word) else "")
      && (ArgRhs(word) != "" ==> m.snippet == Some(ArgLhs(word) + " = ${1:" + ArgRhs(word) + "}"))
      && (ArgRhs(word) == "" ==> m.snippet == Some(ArgLhs(word) + " = $1"))
  {
    assert Field10("param") == "param     ";
  }

  lemma StripClean(s: string)
    requires s == [] || (!IsSpace(s[0]) && !IsSpace(s[|s| - 1]))
    ensures Strip(s) == s
  {
    assert TrimLeft(s) == s;
  }

  /** An argument token `name\x07default` from an omni list, rendered by
      `get_func_args` and parsed by `create_match`, gives back the name and
      the default (for a name and default without `=` or outer blanks). */
  lemma ArgumentRoundTrip(name: string, default: string)
    requires '=' !in name && '=' !in default && '\U{7}' !in name && '\U{7}' !in default
    requires name == [] || (!IsSpace(name[0]) && !IsSpace(name[|name| - 1]))
    requires default == [] || (!IsSpace(default[0]) && !IsSpace(default[|default| - 1]))
    ensures var token := ReplaceChar(name + "\U{7}" + default, '\U{7}', " = ");
      ArgLhs(token) == name && ArgRhs(token) == default
  {
    RenderedToken(name, default);
    var left, right := name + " ", " " + default;
    SplitRendered(name, default);
    StripSpaces(name, " ");
    StripLead(" ", default);
    assert Strip(left) == name && Strip(right) == default;
  }

  /** `get_func_args` renders `name\x07default` as `name = default`. */
  lemma RenderedToken(name: string, default: string)
    requires '\U{7}' !in name && '\U{7}' !in default
    ensures ReplaceChar(name + "\U{7}" + default, '\U{7}', " = ") == name + " = " + default
  {
    var mark := "\U{7}" + default;
    calc {
      ReplaceChar(name + "\U{7}" + default, '\U{7}', " = ");
      { assert name + "\U{7}" + default == name + mark; }
      ReplaceChar(name + mark, '\U{7}', " = ");
      { ReplaceAppend(name, mark, '\U{7}', " = "); }
      name + ReplaceChar(mark, '\U{7}', " = ");
      { ReplaceAppend("\U{7}", default, '\U{7}', " = ");
        assert ReplaceChar("\U{7}", '\U{7}', " = ") == " = "; }
      name + (" = " + default);
      name + " = " + default;
    }
  }

  /** `name = default` splits at its one `=` into `name ` and ` default`. */
  lemma SplitRendered(name: string, default: string)
    requires '=' !in name && '=' !in default
    ensures Split(name + " = " + default, '=') == [name + " ", " " + default]
  {
    assert name + " = " + default == (name + " ") + ['='] + (" " + default);
    assert '=' !in name + " " && '=' !in " " + default;
    SplitAfterPiece(name + " ", " " + default, '=');
    SplitNoSep(" " + default, '=');
  }

  lemma {:induction false} ReplaceAppend(a: string, b: string, c: char, rep: string)
    ensures ReplaceChar(a + b, c, rep) == ReplaceChar(a, c, rep) + ReplaceChar(b, c, rep)
  {
    if |a| > 0 {
      var head := if a[0] == c then rep else [a[0]];
      ReplaceAppend(a[1..], b, c, rep);
      assert (a + b)[0] == a[0] && (a + b)[1..] == a[1..] + b;
      assert ReplaceChar(a + b, c, rep) == head + ReplaceChar(a[1..] + b, c, rep);
      assert ReplaceChar(a, c, rep) == head + ReplaceChar(a[1..], c, rep);
    } else {
      assert a + b == b;
    }
  }

  lemma StripSpaces(s: string, blanks: string)
    requires s == [] || (!IsSpace(s[0]) && !IsSpace(s[|s| - 1]))
    requires blanks == " "
    ensures Strip(s + blanks) == s
  {
    if s == [] {
      assert s + blanks == " ";
      assert TrimLeft(" ") == "";
    } else {
      assert TrimLeft(s + blanks) == s + blanks;
      assert (s + blanks)[..|s|] == s;
    }
  }

  lemma StripLead(blanks: string, s: string)
    requires s == [] || (!IsSpace(s[0]) && !IsSpace(s[|s| - 1]))
    requires blanks == " "
    ensures Strip(blanks + s) == s
  {
    assert (blanks + s)[1..] == s;
    assert TrimLeft(blanks + s) == TrimLeft(s);
    StripClean(s);
  }

  // ---------------------------------------------------------------------
  // to_matches

  /** The match of one listing record, or `IndexError` when the record has
      fewer than five `\x06`-separated fields. */
  function RecordMatch(line: string): (r: Result<Option<Match>>)
    ensures r.Err? <==> |Split(line, '\U{6}')| < 5
    ensures r.Err? ==> r.error == IndexError
  {
    var parts := Split(line, '\U{6}');
    if |parts| < 5 then Err(IndexError)
    else Ok(CreateMatch(parts[0], parts[1], parts[3], parts[4]))
  }

  /** What `to_matches(lines)` returns, or the `IndexError` it raises. */
  function ParseRecords(lines: seq<string>): (r: Result<seq<Match>>)
    ensures r.Err? ==> r.error == IndexError
  {
    if |lines| == 0 then Ok([])
    else
      match ParseRecords(lines[..|lines| - 1])
      case Err(e) => Err(e)
      case Ok(ms) =>
        match RecordMatch(lines[|lines| - 1])
        case Err(e) => Err(e)
        case Ok(None) => Ok(ms)
        case Ok(Some(m)) => Ok(ms + [m])
  }

  /** The listing parses exactly when every record has at least five fields;
      it then gives at most one match per record, none of them with both the
      word and the struct empty. */
  lemma {:induction false} ParseRecordsSpec(lines: seq<string>)
    ensures ParseRecords(lines).Ok? <==> forall l :: l in lines ==> |Split(l, '\U{6}')| >= 5
    ensures ParseRecords(lines).Ok? ==> |ParseRecords(lines).value| <= |lines|
    ensures ParseRecords(lines).Ok? ==>
      forall m :: m in ParseRecords(lines).value ==> m.word != "" || m.struct != ""
  {
    if |lines| > 0 {
      var init := lines[..|lines| - 1];
      var last := lines[|lines| - 1];
      ParseRecordsSpec(init);
      assert lines == init + [last];
      assert forall l :: l in lines <==> l in init || l == last;
      if ParseRecords(init).Err? {
        var l :| l in init && |Split(l, '\U{6}')| < 5;
        assert l in lines;
      } else if RecordMatch(last).Err? {
        assert last in lines;
      } else {
        var ms := ParseRecords(init).value;
        assert ParseRecords(lines).value == ms + (if RecordMatch(last).value.Some? then [RecordMatch(last).value.value] else []);
      }
    }
  }

  lemma {:induction false} ParseRecordsErrPersists(lines: seq<string>, n: nat)
    requires n <= |lines| && ParseRecords(lines[..n]).Err?
    ensures ParseRecords(lines).Err?
  {
    ParseRecordsSpec(lines[..n]);
    ParseRecordsSpec(lines);
    var k :| k in lines[..n] && |Split(k, '\U{6}')| < 5;
    assert k in lines;
  }

  /** `to_matches`: one match per record, skipping the records for which
      `create_match` returns `None`; a short record raises `IndexError`. */
  method ToMatches(lines: seq<string>) returns (r: Result<seq<Match>>)
    ensures r == ParseRecords(lines)
  {
    var cmList: seq<Match> := [];
    for i := 0 to |lines|
      invariant ParseRecords(lines[..i]) == Ok(cmList)
    {
      assert lines[..i + 1][..i] == lines[..i];
      var parts := Split(lines[i], '\U{6}');
      if |parts| < 5 {
        ParseRecordsErrPersists(lines, i + 1);
        return Err(IndexError);
      }
      var created := CreateMatch(parts[0], parts[1], parts[3], parts[4]);
      if created.Some? {
        cmList := cmList + [created.value];
      }
    }
    assert lines[..|lines|] == lines;
    r := Ok(cmList);
  }

  /** A record written from its five fields parses to the match of those
      fields. */
  lemma RecordRoundTrip(word: string, struct: string, unused: string, pkg: string, info: string)
    requires forall f :: f in [word, struct, unused, pkg, info] ==> '\U{6}' !in f
    ensures var line := Join([word, struct, unused, pkg, info], "\U{6}");
      && (word == "" && struct == "" ==> ParseRecords([line]) == Ok([]))
      && (word != "" || struct != "" ==>
            ParseRecords([line]) == Ok([CreateMatch(word, struct, pkg, info).value]))
  {
    var fields := [word, struct, unused, pkg, info];
    var line := Join(fields, "\U{6}");
    SplitJoin(fields, '\U{6}');
    assert RecordMatch(line) == Ok(CreateMatch(word, struct, pkg, info));
    ParseOne(line);
  }

  /** A single record parses to its own match, if it has one. */
  lemma ParseOne(line: string)
    requires RecordMatch(line).Ok?
    ensures RecordMatch(line).value.None? ==> ParseRecords([line]) == Ok([])
    ensures RecordMatch(line).value.Some? ==>
      ParseRecords([line]) == Ok([RecordMatch(line).value.value])
  {
    assert [line][..0] == [] && [line][0] == line;
    assert ParseRecords([]) == Ok([]);
    match RecordMatch(line).value {
      case None =>
      case Some(m) => assert [] + [m] == [m];
    }
  }

  // ---------------------------------------------------------------------
  // Filters

  /** `filter_matches_struct`: everything for an empty struct, otherwise the
      matches of that struct in their order. */
  function FilterStruct(ms: seq<Match>, struct: string): (r: seq<Match>)
    ensures struct == "" ==> r == ms
    ensures struct != "" ==> forall m :: m in r <==> m in ms && m.struct == struct
    ensures IsSubsequence(r, ms)
  {
    if struct == "" then
      assert IsSubsequence(ms, ms) by { SubsequenceRefl(ms); }
      ms
    else if |ms| == 0 then []
    else
      var init := FilterStruct(ms[..|ms| - 1], struct);
      var last := ms[|ms| - 1];
      assert ms == ms[..|ms| - 1] + [last];
      if last.struct == struct then init + [last] else init
  }

  /** Each match of the struct is kept as often as it occurs. */
  lemma {:induction false} FilterStructCount(ms: seq<Match>, struct: string)
    requires struct != ""
    ensures forall m :: multiset(FilterStruct(ms, struct))[m]
                          == if m.struct == struct then multiset(ms)[m] else 0
  {
    if |ms| > 0 {
      FilterStructCount(ms[..|ms| - 1], struct);
      assert ms == ms[..|ms| - 1] + [ms[|ms| - 1]];
    }
  }

  lemma {:induction false} SubsequenceRefl<T>(s: seq<T>)
    ensures IsSubsequence(s, s)
  {
    if |s| > 0 {
      SubsequenceRefl(s[..|s| - 1]);
    }
  }

  /** Some listed package name occurs in `pkg`. */
  predicate FromListed(pkg: string, pkgs: seq<string>) {
    exists p :: p in pkgs && Contains(pkg, p)
  }

  function KeepListed(ms: seq<Match>, pkgs: seq<string>): (r: seq<Match>)
    requires forall m :: m in ms ==> m.pkg.Some?
    ensures forall m :: m in r <==> m in ms && FromListed(m.pkg.value, pkgs)
    ensures IsSubsequence(r, ms)
  {
    if |ms| == 0 then []
    else
      var last := ms[|ms| - 1];
      assert ms == ms[..|ms| - 1] + [last];
      var init := KeepListed(ms[..|ms| - 1], pkgs);
      if FromListed(last.pkg.value, pkgs) then init + [last] else init
  }

  lemma {:induction false} KeepListedCount(ms: seq<Match>, pkgs: seq<string>)
    requires forall m :: m in ms ==> m.pkg.Some?
    ensures forall m :: multiset(KeepListed(ms, pkgs))[m]
                          == if m.pkg.Some? && FromListed(m.pkg.value, pkgs) then multiset(ms)[m] else 0
  {
    if |ms| > 0 {
      var init := ms[..|ms| - 1];
      assert ms == init + [ms[|ms| - 1]];
      assert forall m :: m in init ==> m in ms;
      KeepListedCount(init, pkgs);
    }
  }

  /** `filter_matches_pkgs`: everything for an empty list of names; otherwise
      the matches whose `pkg` contains a listed name, or `KeyError` when some
      match has no `pkg` at all. */
  function FilterPkgs(ms: seq<Match>, pkgs: seq<string>): (r: Result<seq<Match>>)
    ensures pkgs == [] ==> r == Ok(ms)
    ensures pkgs != [] ==> (r.Err? <==> exists m :: m in ms && m.pkg.None?)
    ensures pkgs != [] && r.Ok? ==>
      (forall m :: m in r.value <==> m in ms && FromListed(m.pkg.value, pkgs))
      && IsSubsequence(r.value, ms)
  {
    if pkgs == [] then Ok(ms)
    else if exists m :: m in ms && m.pkg.None? then Err(KeyError("pkg"))
    else Ok(KeepListed(ms, pkgs))
  }

  /** Each match of a listed package is kept as often as it occurs. */
  lemma FilterPkgsCount(ms: seq<Match>, pkgs: seq<string>)
    requires pkgs != [] && FilterPkgs(ms, pkgs).Ok?
    ensures forall m :: multiset(FilterPkgs(ms, pkgs).value)[m]
                          == if m.pkg.Some? && FromListed(m.pkg.value, pkgs) then multiset(ms)[m] else 0
  {
    KeepListedCount(ms, pkgs);
  }

  /** The index of the first match whose word is `func`. */
  function FirstWithWord(ms: seq<Match>, func: string): (r: Option<nat>)
    ensures r.Some? ==>
      && r.value < |ms| && ms[r.value].word == func
      && forall j :: 0 <= j < r.value ==> ms[j].word != func
    ensures r.None? ==> forall j :: 0 <= j < |ms| ==> ms[j].word != func
  {
    if |ms| == 0 then None
    else if ms[0].word == func then Some(0)
    else match FirstWithWord(ms[1..], func)
      case None => None
      case Some(k) => Some(k + 1)
  }

  /** `filter_matches_arg`: the list itself for an empty name; otherwise the
      argument matches of the first match named `func`, or `['']` when there
      is none. Reading `args` of a match named `func` that has none raises
      `KeyError`. */
  function FilterArg(ms: seq<Match>, func: string): (r: Result<seq<Item>>)
    ensures func == "" ==> r == Ok(Items(ms))
    ensures func != "" ==>
      (r.Err? <==> exists m :: m in ms && m.word == func && m.args.None?)
    ensures func != "" && r.Ok? && FirstWithWord(ms, func).None? ==> r.value == [Blank]
    ensures func != "" && r.Ok? && FirstWithWord(ms, func).Some? ==>
      r.value == Items(ms[FirstWithWord(ms, func).value].args.value)
  {
    if func == "" then Ok(Items(ms))
    else if exists m :: m in ms && m.word == func && m.args.None? then Err(KeyError("args"))
    else
      match FirstWithWord(ms, func)
      case None => Ok([Blank])
      case Some(k) =>
        assert ms[k] in ms;
        Ok(Items(ms[k].args.value))
  }

  /** The test of `filter_matches` a match passes: a non-empty `typed` that
      starts the word, and no `exclude` inside it. */
  predicate Selected(m: Match, typed: string, exclude: string) {
    typed != "" && StartsWith(m.word, typed) && !(exclude != "" && Contains(m.word, exclude))
  }

  /** A kept match after `rm_typed`: every occurrence of `typed` removed. */
  function Rewrite(m: Match, typed: string, rmTyped: bool): Match {
    if rmTyped then m.(word := RemoveAll(m.word, typed)) else m
  }

  /** The list `filter_matches` returns. */
  function FilterKept(ms: seq<Match>, typed: string, exclude: string, rmTyped: bool): (r: seq<Match>)
    ensures typed == "" ==> r == []
    ensures |r| <= |ms|
  {
    if |ms| == 0 then []
    else
      var init := FilterKept(ms[..|ms| - 1], typed, exclude, rmTyped);
      var last := ms[|ms| - 1];
      if Selected(last, typed, exclude) then init + [Rewrite(last, typed, rmTyped)] else init
  }

  /** The caller's list after `filter_matches`: the kept matches have their
      word rewritten in place, the others are untouched. */
  function FilterSource(ms: seq<Match>, typed: string, exclude: string, rmTyped: bool): (r: seq<Match>)
    ensures |r| == |ms|
  {
    seq(|ms|, i requires 0 <= i < |ms| =>
      if Selected(ms[i], typed, exclude) then Rewrite(ms[i], typed, rmTyped) else ms[i])
  }

  /** `filter_matches`: returns the kept matches and the caller's list as the
      in-place rewrite leaves it. */
  method FilterMatches(ms: seq<Match>, typed: string, exclude: string, rmTyped: bool)
    returns (kept: seq<Match>, source: seq<Match>)
    ensures kept == FilterKept(ms, typed, exclude, rmTyped)
    ensures source == FilterSource(ms, typed, exclude, rmTyped)
  {
    kept, source := [], ms;
    for i := 0 to |ms|
      invariant |source| == |ms|
      invariant kept == FilterKept(ms[..i], typed, exclude, rmTyped)
      invariant forall j :: 0 <= j < i ==> source[j] == FilterSource(ms, typed, exclude, rmTyped)[j]
      invariant forall j :: i <= j < |ms| ==> source[j] == ms[j]
    {
      assert ms[..i + 1][..i] == ms[..i];
      assert source[i] == ms[i];
      if typed != "" && StartsWith(source[i].word, typed) {
        if exclude != "" && Contains(source[i].word, exclude) {
          continue;
        }
        if rmTyped {
          source := source[i := source[i].(word := RemoveAll(source[i].word, typed))];
        }
        kept := kept + [source[i]];
      }
    }
    assert ms[..|ms|] == ms;
  }

  /** Without `rm_typed` nothing is rewritten: the caller's list is unchanged
      and the result is the order-preserving subsequence of the selected
      matches. */
  lemma {:induction false} FilterKeepsOrder(ms: seq<Match>, typed: string, exclude: string)
    ensures FilterSource(ms, typed, exclude, false) == ms
    ensures IsSubsequence(FilterKept(ms, typed, exclude, false), ms)
    ensures forall m :: m in FilterKept(ms, typed, exclude, false) <==> m in ms && Selected(m, typed, exclude)
    ensures forall m ::
              multiset(FilterKept(ms, typed, exclude, false))[m]
                == if Selected(m, typed, exclude) then multiset(ms)[m] else 0
  {
    if |ms| > 0 {
      var init := ms[..|ms| - 1];
      FilterKeepsOrder(init, typed, exclude);
      assert ms == init + [ms[|ms| - 1]];
    }
  }

  /** With `rm_typed` the result is the same selection, each word rewritten. */
  lemma {:induction false} FilterRewrites(ms: seq<Match>, typed: string, exclude: string)
    ensures var plain := FilterKept(ms, typed, exclude, false);
      var stripped := FilterKept(ms, typed, exclude, true);
      |stripped| == |plain|
      && forall j :: 0 <= j < |plain| ==> stripped[j] == plain[j].(word := RemoveAll(plain[j].word, typed))
  {
    if |ms| > 0 {
      FilterRewrites(ms[..|ms| - 1], typed, exclude);
    }
  }
}
