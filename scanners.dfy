/** The four regular expressions of the completion source, each written as a
    scanner over the typed text or a buffer line, with the match Python's `re`
    module finds: `R_WORD` and the quote test of `cm_refresh` (searched),
    `R_FUNC` and `R_PIPE` (searched, first match), `R_LINE` (matched at the
    start). */
module Scanners {
  import opened Wrappers
  import opened Text

  /** `[\w\$_\.]`: a character of an R name, `$` included for column access. */
  predicate IsNameChar(c: char) {
    IsWordChar(c) || c == '$' || c == '.'
  }

  /** `[^\(^\s]`: anything but `(`, `^` and whitespace. */
  predicate IsCallChar(c: char) {
    c != '(' && c != '^' && !IsSpace(c)
  }

  predicate IsQuote(c: char) {
    c == '"' || c == '\''
  }

  // ---------------------------------------------------------------------
  // R_WORD

  /** `R_WORD` searched in the typed text: the longest suffix made of name
      characters (`''` when there is none). */
  function RWord(typed: string): (r: string)
    ensures |r| <= |typed| && r == typed[|typed| - |r|..]
    ensures forall k :: 0 <= k < |r| ==> IsNameChar(r[k])
    ensures |r| < |typed| ==> !IsNameChar(typed[|typed| - |r| - 1])
  {
    if |typed| == 0 || !IsNameChar(typed[|typed| - 1]) then ""
    else RWord(typed[..|typed| - 1]) + [typed[|typed| - 1]]
  }

  // ---------------------------------------------------------------------
  // The quote test of cm_refresh

  /** The word with its trailing `$` characters removed: inside the pattern
      `["']` + word + `$` those are end anchors, not characters. */
  function DropAnchors(w: string): (r: string)
    ensures |r| <= |w| && r == w[..|r|]
    ensures r == [] || r[|r| - 1] != '$'
    ensures forall k :: |r| <= k < |w| ==> w[k] == '$'
  {
    if |w| > 0 && w[|w| - 1] == '$' then DropAnchors(w[..|w| - 1]) else w
  }

  /** The text `t` matches the pattern characters `u` one for one: `.` matches
      any character but a newline, every other character itself. */
  predicate LiteralMatch(t: string, u: string)
    requires |t| == |u|
  {
    forall k :: 0 <= k < |u| ==> if u[k] == '.' then t[k] != '\n' else t[k] == u[k]
  }

  /** `re.search('["\']' + word + '$', typed)` for a word of name characters
      and a typed text without a newline. A `$` that is not at the end of the
      word is an anchor followed by more pattern, which cannot match; the
      trailing ones all match at the end. So the text must end with a quote
      followed by the word without its trailing `$` characters, read as a
      pattern. */
  predicate IsInQuotes(typed: string, word: string) {
    var u := DropAnchors(word);
    && '$' !in u
    && |typed| > |u|
    && IsQuote(typed[|typed| - |u| - 1])
    && LiteralMatch(typed[|typed| - |u|..], u)
  }

  /** For the word `R_WORD` finds, the test holds exactly when the word has no
      `$` and a quote comes right before it: after `df$` a column name is not
      treated as quoted, since the `$` ends the pattern early. */
  lemma QuotedWord(typed: string)
    ensures var word := RWord(typed);
      IsInQuotes(typed, word) <==>
        && '$' !in word
        && |typed| > |word|
        && IsQuote(typed[|typed| - |word| - 1])
  {
    var word := RWord(typed);
    if '$' !in word {
      QuotedPlainWord(typed, word);
    } else if word[|word| - 1] == '$' {
      QuotedAnchoredWord(typed, word);
    } else {
      assert DropAnchors(word) == word;
    }
  }

  lemma QuotedPlainWord(typed: string, word: string)
    requires '$' !in word && |word| <= |typed| && word == typed[|typed| - |word|..]
    ensures IsInQuotes(typed, word) <==> |typed| > |word| && IsQuote(typed[|typed| - |word| - 1])
  {
    assert DropAnchors(word) == word;
  }

  lemma QuotedAnchoredWord(typed: string, word: string)
    requires |word| > 0 && word[|word| - 1] == '$'
    requires |word| <= |typed| && word == typed[|typed| - |word|..]
    requires forall k :: 0 <= k < |word| ==> IsNameChar(word[k])
    ensures !IsInQuotes(typed, word)
  {
    var u := DropAnchors(word);
    assert |u| < |word|;
    if |typed| > |u| {
      var k := |typed| - |u| - 1;
      assert !IsQuote(typed[k]) by {
        var j := |word| - |u| - 1;
        assert typed[k] == word[j];
        assert IsNameChar(word[j]);
      }
    }
  }

  /** `R_WORD` finds the one suffix of name characters that cannot be
      extended to the left. */
  lemma RWordUnique(typed: string, n: nat)
    requires n <= |typed|
    requires forall k :: |typed| - n <= k < |typed| ==> IsNameChar(typed[k])
    requires n < |typed| ==> !IsNameChar(typed[|typed| - n - 1])
    ensures RWord(typed) == typed[|typed| - n..]
  {
    var r := RWord(typed);
  }

  /** After `x <- "df` the word `df` is quoted; after `x <- "df$` the word is
      `df$` and it is not. */
  lemma QuotedExamples()
    ensures var t := "x <- \"df"; RWord(t) == "df" && IsInQuotes(t, "df")
    ensures var t := "x <- \"df$"; RWord(t) == "df$" && !IsInQuotes(t, "df$")
  {
    var t1 := "x <- \"df";
    assert t1[5] == '"' && t1[6] == 'd' && t1[7] == 'f';
    RWordUnique(t1, 2);
    QuotedWord(t1);
    var t2 := "x <- \"df$";
    assert t2[5] == '"' && t2[6] == 'd' && t2[7] == 'f' && t2[8] == '$';
    RWordUnique(t2, 3);
    assert "df$"[2] == '$';
    QuotedWord(t2);
  }

  // ---------------------------------------------------------------------
  // Runs of characters

  /** The end of the run of `inRun` characters that starts at `i`. */
  function RunEnd(s: string, i: nat, inRun: char -> bool): (e: nat)
    requires i <= |s|
    ensures i <= e <= |s|
    ensures forall k :: i <= k < e ==> inRun(s[k])
    ensures e < |s| ==> !inRun(s[e])
    decreases |s| - i
  {
    if i < |s| && inRun(s[i]) then RunEnd(s, i + 1, inRun) else i
  }

  /** Every position inside a run shares its end. */
  lemma {:induction false} RunEndInside(s: string, i: nat, j: nat, inRun: char -> bool)
    requires i <= |s| && i <= j <= RunEnd(s, i, inRun)
    ensures RunEnd(s, j, inRun) == RunEnd(s, i, inRun)
    decreases j - i
  {
    if i < j {
      RunEndInside(s, i + 1, j, inRun);
    }
  }

  // ---------------------------------------------------------------------
  // R_LINE

  /** `<-` or `=` starts at `j`. */
  predicate AssignAt(s: string, j: nat)
    requires j < |s|
  {
    s[j] == '=' || (s[j] == '<' && j + 1 < |s| && s[j + 1] == '-')
  }

  /** `re.match(R_LINE, s)`, stated directly: at least one character other
      than `(` and then an assignment arrow or `=`. */
  predicate IsAssignmentLine(s: string) {
    exists j :: 1 <= j < |s| && '(' !in s[..j] && AssignAt(s, j)
  }

  /** The scanner for `R_LINE`, from position `j` on, with no `(` before `j`. */
  function AssignFrom(s: string, j: nat): bool
    requires j <= |s|
    decreases |s| - j
  {
    if j == |s| then false
    else if AssignAt(s, j) then true
    else if s[j] == '(' then false
    else AssignFrom(s, j + 1)
  }

  /** `re.match(R_LINE, line)` succeeds. */
  function RLine(s: string): bool {
    |s| >= 2 && s[0] != '(' && AssignFrom(s, 1)
  }

  lemma {:induction false} AssignFromSpec(s: string, j: nat)
    requires 1 <= j <= |s| && '(' !in s[..j]
    ensures AssignFrom(s, j) <==> exists i :: j <= i < |s| && '(' !in s[..i] && AssignAt(s, i)
    decreases |s| - j
  {
    if j < |s| && !AssignAt(s, j) {
      if s[j] == '(' {
        forall i | j < i < |s| ensures '(' in s[..i] {
          assert s[..i][j] == '(';
        }
      } else {
        assert s[..j + 1] == s[..j] + [s[j]];
        AssignFromSpec(s, j + 1);
      }
    }
  }

  /** The scanner finds an assignment exactly when the direct statement says
      there is one. */
  lemma RLineSpec(s: string)
    ensures RLine(s) <==> IsAssignmentLine(s)
  {
    if |s| >= 1 && s[0] != '(' {
      assert s[..1] == [s[0]];
      AssignFromSpec(s, 1);
    } else if |s| >= 1 {
      forall j | 1 <= j < |s| ensures '(' in s[..j] {
        assert s[..j][0] == '(';
      }
    }
  }

  // ---------------------------------------------------------------------
  // R_PIPE

  /** `\s?%>%` at `e`. */
  predicate PipeAfter(s: string, e: nat)
    requires e <= |s|
  {
    StartsWith(s[e..], "%>%") || (e < |s| && IsSpace(s[e]) && StartsWith(s[e + 1..], "%>%"))
  }

  /** A run of name characters starting at `j` that `R_PIPE` accepts. */
  predicate PipeRun(s: string, j: nat)
    requires j < |s|
  {
    IsNameChar(s[j]) && PipeAfter(s, RunEnd(s, j, IsNameChar))
  }

  /** `i` does not split a run of `inRun` characters. */
  predicate AtBoundary(s: string, i: nat, inRun: char -> bool)
    requires i <= |s|
  {
    i == 0 || i == |s| || !inRun(s[i - 1]) || !inRun(s[i])
  }

  /** Where the first match of `R_PIPE` at or after `i` starts. A match
      starting inside a run of name characters ends where the run ends, so
      only whole runs are tried. */
  function PipeStart(s: string, i: nat): (r: Option<nat>)
    requires i <= |s| && AtBoundary(s, i, IsNameChar)
    ensures r.Some? ==> i <= r.value < |s| && PipeRun(s, r.value)
    ensures r.Some? ==> r.value == 0 || !IsNameChar(s[r.value - 1])
    ensures r.Some? ==> forall j :: i <= j < r.value ==> !PipeRun(s, j)
    ensures r.None? ==> forall j :: i <= j < |s| ==> !PipeRun(s, j)
    decreases |s| - i
  {
    if i == |s| then None
    else if !IsNameChar(s[i]) then PipeStart(s, i + 1)
    else
      var e := RunEnd(s, i, IsNameChar);
      if PipeAfter(s, e) then Some(i)
      else
        assert forall j :: i <= j < e ==> !PipeRun(s, j) by {
          forall j | i <= j < e ensures !PipeRun(s, j) {
            RunEndInside(s, i, j, IsNameChar);
          }
        }
        PipeStart(s, e)
  }

  /** `re.search(R_PIPE, line).group(1)`: the first run of name characters
      followed by `%>%`, with at most one whitespace between. */
  function RPipe(s: string): (r: Option<string>)
    ensures r.Some? ==> Contains(s, "%>%")
  {
    match PipeStart(s, 0)
    case None => None
    case Some(i) =>
      var e := RunEnd(s, i, IsNameChar);
      assert Contains(s, "%>%") by {
        if StartsWith(s[e..], "%>%") {
          ContainsAt(s, "%>%", e);
        } else {
          ContainsAt(s, "%>%", e + 1);
        }
      }
      Some(s[i..e])
  }

  /** What `R_PIPE` captures is a whole, non-empty run of name characters. */
  lemma PipeCapture(s: string)
    requires RPipe(s).Some?
    ensures var p := RPipe(s).value;
      && p != []
      && (forall k :: 0 <= k < |p| ==> IsNameChar(p[k]))
      && exists i :: 0 <= i < |s| && PipeRun(s, i) && s[i..RunEnd(s, i, IsNameChar)] == p
  {
    var i := PipeStart(s, 0).value;
    assert PipeRun(s, i);
  }

  /** `x %>%` gives `x`. */
  lemma PipeSpaced()
    ensures RPipe("x %>%") == Some("x")
  {
    var s := "x %>%";
    assert RunEnd(s, 1, IsNameChar) == 1;
    assert RunEnd(s, 0, IsNameChar) == 1;
    assert s[2..] == "%>%";
    assert PipeStart(s, 0) == Some(0);
    assert s[0..1] == "x";
  }

  /** `df$a%>%` gives the whole `df$a`. */
  lemma PipeColumn()
    ensures RPipe("df$a%>%") == Some("df$a")
  {
    var s := "df$a%>%";
    assert RunEnd(s, 4, IsNameChar) == 4;
    assert RunEnd(s, 3, IsNameChar) == 4;
    assert RunEnd(s, 2, IsNameChar) == 4;
    assert RunEnd(s, 1, IsNameChar) == 4;
    assert RunEnd(s, 0, IsNameChar) == 4;
    assert s[4..] == "%>%";
    assert PipeStart(s, 0) == Some(0);
    assert s[0..4] == "df$a";
  }

  // ---------------------------------------------------------------------
  // R_FUNC

  /** A run of call characters starting at `j` and directly followed by `(`. */
  predicate CallRun(s: string, j: nat)
    requires j < |s|
  {
    var e := RunEnd(s, j, IsCallChar);
    IsCallChar(s[j]) && e < |s| && s[e] == '('
  }

  /** Where the first match of `R_FUNC` at or after `i` starts. */
  function FuncStart(s: string, i: nat): (r: Option<nat>)
    requires i <= |s| && AtBoundary(s, i, IsCallChar)
    ensures r.Some? ==> i <= r.value < |s| && CallRun(s, r.value)
    ensures r.Some? ==> r.value == 0 || !IsCallChar(s[r.value - 1])
    ensures r.Some? ==> forall j :: i <= j < r.value ==> !CallRun(s, j)
    ensures r.None? ==> forall j :: i <= j < |s| ==> !CallRun(s, j)
    decreases |s| - i
  {
    if i == |s| then None
    else if !IsCallChar(s[i]) then FuncStart(s, i + 1)
    else
      var e := RunEnd(s, i, IsCallChar);
      if e < |s| && s[e] == '(' then Some(i)
      else
        assert forall j :: i <= j < e ==> !CallRun(s, j) by {
          forall j | i <= j < e ensures !CallRun(s, j) {
            RunEndInside(s, i, j, IsCallChar);
          }
        }
        FuncStart(s, e)
  }

  /** `re.search(R_FUNC, typed).group(1)`: the first name directly followed by
      `(`. The pattern has no end anchor, so this is the leftmost call in the
      text, not the innermost one. */
  function RFunc(s: string): (r: Option<string>)
    ensures r.Some? ==> r.value != [] && forall k :: 0 <= k < |r.value| ==> IsCallChar(r.value[k])
  {
    match FuncStart(s, 0)
    case None => None
    case Some(i) => Some(s[i..RunEnd(s, i, IsCallChar)])
  }

  /** Inside nested calls the outer function is found: `f(g(x` gives `f`. */
  lemma FuncLeftmost()
    ensures RFunc("f(g(x") == Some("f")
  {
    var s := "f(g(x";
    assert RunEnd(s, 1, IsCallChar) == 1;
    assert RunEnd(s, 0, IsCallChar) == 1;
    assert FuncStart(s, 0) == Some(0);
    assert s[0..1] == "f";
  }
}
