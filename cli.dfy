/** Mode selection and dispatch of the command-line entry point (scrapper/src/index.ts). */
module Cli {
  import opened Wrappers
  import opened Products
  import opened PipelineSpec
  import opened ScraperService
  import opened PipelineProps
  import opened Store

  datatype Mode = Scrap | Check

  /** `c.toLowerCase()` for ASCII letters; every other character is kept. */
  function LowerChar(c: char): (d: char)
    ensures 'A' <= c <= 'Z' ==> d as int == c as int + 32
    ensures !('A' <= c <= 'Z') ==> d == c
  {
    if 'A' <= c <= 'Z' then (c as int + 32) as char else c
  }

  /** `s.toLowerCase()`, character by character. */
  function Lower(s: string): (r: string)
    ensures |r| == |s| && forall i :: 0 <= i < |s| ==> r[i] == LowerChar(s[i])
  {
    seq(|s|, i requires 0 <= i < |s| => LowerChar(s[i]))
  }

  /** The characters `String.prototype.trim` strips: white space and line terminators. */
  predicate IsJsSpace(c: char) {
    || c == '\t' || c == '\n' || c == '\U{000B}' || c == '\U{000C}' || c == '\r' || c == ' '
    || c == '\U{00A0}' || c == '\U{1680}' || ('\U{2000}' <= c <= '\U{200A}') || c == '\U{2028}' || c == '\U{2029}'
    || c == '\U{202F}' || c == '\U{205F}' || c == '\U{3000}' || c == '\U{FEFF}'
  }

  /** `s` without its leading spaces: the longest suffix of `s` after a run of spaces. */
  function TrimStart(s: string): (r: string)
    ensures |r| <= |s| && r == s[|s| - |r|..]
    ensures forall k :: 0 <= k < |s| - |r| ==> IsJsSpace(s[k])
    ensures r != [] ==> !IsJsSpace(r[0])
    decreases |s|
  {
    if s != [] && IsJsSpace(s[0]) then TrimStart(s[1..]) else s
  }

  /** `s` without its trailing spaces: the longest prefix of `s` before a run of spaces. */
  function TrimEnd(s: string): (r: string)
    ensures |r| <= |s| && r == s[..|r|]
    ensures forall k :: |r| <= k < |s| ==> IsJsSpace(s[k])
    ensures r != [] ==> !IsJsSpace(r[|r| - 1])
    decreases |s|
  {
    if s != [] && IsJsSpace(s[|s| - 1]) then TrimEnd(s[..|s| - 1]) else s
  }

  /** `s.trim()`: the infix of `s` left once the white space at both ends is dropped; it neither
      starts nor ends with white space. */
  function Trim(s: string): (r: string)
    ensures exists i :: 0 <= i <= |s| - |r| && r == s[i..][..|r|]
                        && (forall k :: 0 <= k < i ==> IsJsSpace(s[k]))
                        && (forall k :: i + |r| <= k < |s| ==> IsJsSpace(s[k]))
    ensures r != [] ==> !IsJsSpace(r[0]) && !IsJsSpace(r[|r| - 1])
  {
    TrimIsInfix(s);
    TrimEnd(TrimStart(s))
  }

  /** Trimming keeps the part of `s` that starts where `TrimStart` leaves it. */
  lemma TrimIsInfix(s: string)
    ensures var t := TrimStart(s);
            var i := |s| - |t|;
            var r := TrimEnd(t);
            && r == s[i..][..|r|]
            && (forall k :: 0 <= k < i ==> IsJsSpace(s[k]))
            && (forall k :: i + |r| <= k < |s| ==> IsJsSpace(s[k]))
  {
    var t := TrimStart(s);
    var i := |s| - |t|;
    var r := TrimEnd(t);
    assert t == s[i..];
    forall k | i + |r| <= k < |s|
      ensures IsJsSpace(s[k])
    {
      assert s[k] == t[k - i];
    }
  }

  /** The part of `s` a split on `'='` puts at index 1: the text after the first `'='` up to the next
      one or the end. None when `s` has no `'='` (`split('=')[1]` is undefined). */
  function SecondField(s: string): (r: Option<string>)
    ensures r.None? <==> '=' !in s
    decreases |s|
  {
    if s == [] then None
    else if s[0] == '=' then Some(UpTo(s[1..], '='))
    else SecondField(s[1..])
  }

  /** The longest prefix of `s` without `sep`. */
  function UpTo(s: string, sep: char): (r: string)
    ensures r <= s && sep !in r
    ensures |r| < |s| ==> s[|r|] == sep
    decreases |s|
  {
    if s == [] || s[0] == sep then [] else [s[0]] + UpTo(s[1..], sep)
  }

  /** Whether an argument names the mode. */
  predicate IsTypeArg(a: string) {
    "type=" <= a
  }

  /** The index of the first argument naming the mode, or `|args|` when none does. */
  function FirstTypeArg(args: seq<string>): (i: nat)
    ensures i <= |args|
    ensures forall j :: 0 <= j < i ==> !IsTypeArg(args[j])
    ensures i < |args| ==> IsTypeArg(args[i])
    decreases |args|
  {
    if args == [] || IsTypeArg(args[0]) then 0 else 1 + FirstTypeArg(args[1..])
  }

  /** `args.find(arg => arg.startsWith('type='))`. */
  function FindTypeArg(args: seq<string>): (r: Option<string>)
    ensures r.None? <==> forall i :: 0 <= i < |args| ==> !IsTypeArg(args[i])
    ensures r.Some? ==> r.value == args[FirstTypeArg(args)] && IsTypeArg(r.value)
  {
    var i := FirstTypeArg(args);
    if i < |args| then Some(args[i]) else None
  }

  /** `getTypeFromArgs` (lines 9-21) over the arguments after the program name: without a `type=`
      argument there is no mode; otherwise the first such argument's text after `type=` up to the
      next `'='`, lower-cased, names the mode when it reads `scrap` or `check`, and nothing else does. */
  function GetTypeFromArgs(args: seq<string>): (r: Option<Mode>)
    ensures FirstTypeArg(args) == |args| ==> r == None
    ensures FirstTypeArg(args) < |args| ==>
              var v := Lower(UpTo(args[FirstTypeArg(args)][5..], '='));
              && (r == Some(Scrap) <==> v == "scrap")
              && (r == Some(Check) <==> v == "check")
  {
    match FindTypeArg(args)
    case None => None
    case Some(a) =>
      SecondFieldOfTypeArg(a);
      match SecondField(a)
      case None => None
      case Some(v) =>
        var value := Lower(v);
        if value == "scrap" then Some(Scrap) else if value == "check" then Some(Check) else None
  }

  /** In an argument starting with `type=`, the second field starts right after that prefix. */
  lemma SecondFieldOfTypeArg(a: string)
    requires IsTypeArg(a)
    ensures SecondField(a) == Some(UpTo(a[5..], '='))
  {
    assert a == "type" + a[4..];
    SecondFieldSkips("type", a[4..]);
    assert a[4..][1..] == a[5..];
  }

  /** With no argument starting with `type=` there is no mode. */
  lemma NoTypeArgNoMode(args: seq<string>)
    requires forall i :: 0 <= i < |args| ==> !IsTypeArg(args[i])
    ensures GetTypeFromArgs(args) == None
  {
  }

  /** Only the first `type=` argument counts: whatever comes after it is ignored. */
  lemma {:induction false} FirstTypeArgWins(pre: seq<string>, a: string, post: seq<string>)
    requires forall i :: 0 <= i < |pre| ==> !IsTypeArg(pre[i])
    requires IsTypeArg(a)
    ensures GetTypeFromArgs(pre + [a] + post) == GetTypeFromArgs([a])
    decreases |pre|
  {
    if pre == [] {
      assert pre + [a] + post == [a] + post;
    } else {
      assert (pre + [a] + post)[1..] == pre[1..] + [a] + post;
      FirstTypeArgWins(pre[1..], a, post);
    }
  }

  /** A split skips any text before the first `'='`. */
  lemma {:induction false} SecondFieldSkips(p: string, s: string)
    requires '=' !in p
    ensures SecondField(p + s) == SecondField(s)
    decreases |p|
  {
    if p == [] {
      assert p + s == s;
    } else {
      assert (p + s)[0] == p[0] && (p + s)[1..] == p[1..] + s;
      SecondFieldSkips(p[1..], s);
    }
  }

  /** Taking up to `'='` stops where `v` ends. */
  lemma {:induction false} UpToStopsAtSeparator(v: string, rest: string)
    requires '=' !in v
    requires rest == [] || rest[0] == '='
    ensures UpTo(v + rest, '=') == v
    decreases |v|
  {
    if v == [] {
      assert v + rest == rest;
    } else {
      assert (v + rest)[0] == v[0] && (v + rest)[1..] == v[1..] + rest;
      UpToStopsAtSeparator(v[1..], rest);
    }
  }

  /** The value is the text between the first and the second `'='`, lower-cased, and it names a mode
      only when it reads `scrap` or `check`. */
  lemma TypeArgValue(v: string, rest: string)
    requires '=' !in v
    requires rest == [] || rest[0] == '='
    ensures GetTypeFromArgs(["type=" + v + rest])
            == if Lower(v) == "scrap" then Some(Scrap) else if Lower(v) == "check" then Some(Check) else None
  {
    var a := "type=" + v + rest;
    assert a[5..] == v + rest;
    UpToStopsAtSeparator(v, rest);
    assert IsTypeArg(a);
    assert FirstTypeArg([a]) == 0;
  }

  lemma LowerExamples()
    ensures Lower("CHECK") == "check" && Lower("check") == "check"
    ensures Lower("scrap") == "scrap" && Lower("foo") == "foo"
  {
  }

  lemma UpperCaseValueAccepted()
    ensures GetTypeFromArgs(["type=CHECK"]) == Some(Check)
  {
    LowerExamples();
    TypeArgValue("CHECK", "");
    assert "type=" + "CHECK" + "" == "type=CHECK";
  }

  lemma UnknownValueRejected()
    ensures GetTypeFromArgs(["type=foo"]) == None
  {
    TypeArgValue("foo", "");
    assert "type=" + "foo" + "" == "type=foo";
    LowerExamples();
  }

  lemma LaterFieldsIgnored()
    ensures GetTypeFromArgs(["type=check=now"]) == Some(Check)
  {
    TypeArgValue("check", "=now");
    assert "type=" + "check" + "=now" == "type=check=now";
    LowerExamples();
  }

  lemma ScrapValueAccepted()
    ensures GetTypeFromArgs(["type=scrap"]) == Some(Scrap)
  {
    TypeArgValue("scrap", "");
    assert "type=" + "scrap" + "" == "type=scrap";
    LowerExamples();
  }

  /** The answer branch of `askUserForMode` (lines 37-44): lower-cased, trimmed, and anything other
      than `scrap` or `check` falls back to scrap mode. */
  function AnswerMode(answer: string): (m: Mode)
    ensures m == Check <==> Trim(Lower(answer)) == "check"
  {
    var mode := Trim(Lower(answer));
    if mode == "scrap" then Scrap else if mode == "check" then Check else Scrap
  }

  /** `c` and `d` are the same character up to the case of an ASCII letter. */
  predicate SameLetterUpToCase(c: char, d: char) {
    || c == d
    || ('A' <= c <= 'Z' && d as int == c as int + 32)
    || ('A' <= d <= 'Z' && c as int == d as int + 32)
  }

  /** `s` and `t` differ at most in the case of ASCII letters. */
  predicate SameUpToAsciiCase(s: string, t: string) {
    |s| == |t| && forall i :: 0 <= i < |s| ==> SameLetterUpToCase(s[i], t[i])
  }

  /** Lower-casing leaves no ASCII capital behind. */
  lemma LowerHasNoCapital(s: string)
    ensures forall i :: 0 <= i < |Lower(s)| ==> !('A' <= Lower(s)[i] <= 'Z')
  {
  }

  /** Lower-casing twice is lower-casing once. */
  lemma LowerIdempotent(s: string)
    ensures Lower(Lower(s)) == Lower(s)
  {
    var l := Lower(s);
    assert forall i :: 0 <= i < |l| ==> Lower(l)[i] == l[i];
  }

  /** Two texts lower-case to the same text exactly when they differ only in the case of ASCII
      letters. */
  lemma LowerIgnoresCase(s: string, t: string)
    ensures Lower(s) == Lower(t) <==> SameUpToAsciiCase(s, t)
  {
    if Lower(s) == Lower(t) {
      assert forall i :: 0 <= i < |s| ==> Lower(s)[i] == Lower(t)[i];
    }
    if SameUpToAsciiCase(s, t) {
      assert forall i :: 0 <= i < |s| ==> Lower(s)[i] == Lower(t)[i];
    }
  }

  lemma {:induction false} TrimStartPadded(pre: string, core: string)
    requires forall k :: 0 <= k < |pre| ==> IsJsSpace(pre[k])
    requires core != [] && !IsJsSpace(core[0])
    ensures TrimStart(pre + core) == core
    decreases |pre|
  {
    if pre == [] {
      assert pre + core == core;
    } else {
      assert (pre + core)[0] == pre[0] && (pre + core)[1..] == pre[1..] + core;
      TrimStartPadded(pre[1..], core);
    }
  }

  lemma {:induction false} TrimEndPadded(core: string, post: string)
    requires forall k :: 0 <= k < |post| ==> IsJsSpace(post[k])
    requires core != [] && !IsJsSpace(core[|core| - 1])
    ensures TrimEnd(core + post) == core
    decreases |post|
  {
    if post == [] {
      assert core + post == core;
    } else {
      var s := core + post;
      assert s[|s| - 1] == post[|post| - 1] && s[..|s| - 1] == core + post[..|post| - 1];
      TrimEndPadded(core, post[..|post| - 1]);
    }
  }

  /** Conversely, spaces around a text that neither starts nor ends with a space are exactly what
      trimming removes. */
  lemma TrimPadded(pre: string, core: string, post: string)
    requires forall k :: 0 <= k < |pre| ==> IsJsSpace(pre[k])
    requires forall k :: 0 <= k < |post| ==> IsJsSpace(post[k])
    requires core != [] && !IsJsSpace(core[0]) && !IsJsSpace(core[|core| - 1])
    ensures Trim(pre + core + post) == core
  {
    assert pre + core + post == pre + (core + post);
    assert (core + post)[0] == core[0];
    TrimStartPadded(pre, core + post);
    TrimEndPadded(core, post);
  }

  lemma PaddedUpperCaseAnswer()
    ensures AnswerMode("  CHECK\n") == Check
  {
    assert Lower("  CHECK\n") == "  " + "check" + "\n";
    TrimPadded("  ", "check", "\n");
  }

  lemma UnknownAnswerFallsBackToScrap()
    ensures AnswerMode("2") == Scrap
    ensures AnswerMode("") == Scrap
  {
    assert Lower("2") == "2";
    assert Lower("") == "";
  }

  /** The mode `main` runs (lines 50-54): the one the arguments name, otherwise the answer's. */
  function SelectMode(args: seq<string>, answer: string): Mode {
    match GetTypeFromArgs(args)
    case Some(m) => m
    case None => AnswerMode(answer)
  }

  /** Whether the first `type=` argument names a mode: its lower-cased second field reads `scrap`
      or `check`. */
  predicate NamesMode(args: seq<string>, v: string) {
    var i := FirstTypeArg(args);
    && i < |args|
    && SecondField(args[i]).Some?
    && Lower(SecondField(args[i]).value) == v
  }

  /** The arguments decide the mode when the first `type=` argument's second field names one, for
      every answer; in every other case (no `type=` argument, an unknown value, no `'='`) the answer
      decides. */
  lemma SelectModeChoice(args: seq<string>, answer: string)
    ensures NamesMode(args, "scrap") ==> SelectMode(args, answer) == Scrap
    ensures NamesMode(args, "check") ==> SelectMode(args, answer) == Check
    ensures !NamesMode(args, "scrap") && !NamesMode(args, "check") ==> SelectMode(args, answer) == AnswerMode(answer)
  {
    var i := FirstTypeArg(args);
    if i < |args| {
      SecondFieldOfTypeArg(args[i]);
    }
  }

  /** A value other than `scrap` or `check`, or a bare `type`, leaves the choice to the answer. */
  lemma SelectModeFallbacks(answer: string)
    ensures SelectMode(["type=foo"], answer) == AnswerMode(answer)
    ensures SelectMode(["type"], answer) == AnswerMode(answer)
  {
    UnknownValueRejected();
    NoTypeArgNoMode(["type"]);
  }

  /** The first `type=` argument names the mode, whatever the answer; a later one does not count. */
  lemma SelectModeFirstArgument(answer: string)
    ensures SelectMode(["--x", "type=Scrap", "type=check"], answer) == Scrap
  {
    var args := ["--x", "type=Scrap", "type=check"];
    assert !IsTypeArg(args[0]) && IsTypeArg(args[1]);
    assert FirstTypeArg(args) == 1;
    assert args[1][5..] == "Scrap" + "";
    UpToStopsAtSeparator("Scrap", "");
    assert Lower("Scrap") == "scrap";
  }

  /** The dispatch of `main` (lines 72-81): scrap mode runs `runScrapMode`, every other mode
      `runCheckMode`; a thrown error ends the process with status 1. */
  method Dispatch(service: ProductScraperService, mode: Mode, now: Timestamp)
    returns (outcome: RunOutcome, exitCode: int, ghost listed: seq<Product>)
    requires service.Valid()
    modifies service.repositories, service.scraper, service`trace, service`totalProductsScraped
    ensures mode == Scrap ==>
              (outcome, service.Observed())
              == ScrapMode(old(service.Observed()), service.Setup(), service.initialProductsLimit, old(service.totalProductsScraped), now)
    ensures mode == Check ==>
              (outcome, service.Observed()) == CheckMode(old(service.Observed()), service.scraper.initOk, listed, now)
    ensures mode == Check && service.scraper.initOk && |service.repositories| > 0 ==>
              ListsRows(listed, old(service.repositories[CheckIndex(|service.repositories|)].rows),
                        old(service.repositories[CheckIndex(|service.repositories|)].rows).Keys)
    ensures exitCode == 0 || exitCode == 1
    ensures exitCode == 1 <==> outcome.Failed?
    ensures mode == Scrap ==>
              (exitCode == 1 <==> !(service.scraper.initOk && service.scraper.homepageOk && service.scraper.listingOk && |service.repositories| > 0))
    ensures mode == Check ==>
              (exitCode == 1 <==> !(service.scraper.initOk && |service.repositories| > 0))
  {
    ghost var w0 := service.Observed();
    assert |w0.tables| == |service.repositories|;
    listed := [];
    if mode == Scrap {
      outcome := service.RunScrapMode(now);
      ScrapModeEffect(w0, service.Setup(), service.initialProductsLimit, old(service.totalProductsScraped), now);
    } else {
      outcome, listed := service.RunCheckMode(now);
      CheckModeEffect(w0, service.scraper.initOk, listed, now);
    }
    exitCode := if outcome.Failed? then 1 else 0;
  }
}
