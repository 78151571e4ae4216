/**
  Localized texts in a subscription page configuration: which objects count as one, the issues
  reported for missing locales, and the cleaning that keeps the active locales only.
 */
module LocalizedTexts {
  import opened Json
  import opened Wrappers

  type Locale = string

  const LANGUAGE_CODES: seq<Locale> := [
    "en", "ru", "zh", "fr", "fa", "uz", "de", "hi", "tr", "az",
    "es", "vi", "ja", "be", "uk", "pt", "pl", "id", "tk", "th"]

  predicate IsLanguageCode(code: string) {
    code in LANGUAGE_CODES
  }

  /** The length ECMAScript sees: characters beyond the basic plane count twice. */
  function Utf16Length(s: string): nat {
    if s == "" then 0 else (if s[0] as int >= 0x1_0000 then 2 else 1) + Utf16Length(s[1..])
  }

  /** The twenty codes, in alphabetical order. */
  lemma LanguageCodesAre(code: string)
    ensures IsLanguageCode(code) <==>
            || code == "az" || code == "be" || code == "de" || code == "en" || code == "es" || code == "fa"
            || code == "fr" || code == "hi" || code == "id" || code == "ja" || code == "pl" || code == "pt"
            || code == "ru" || code == "th" || code == "tk" || code == "tr" || code == "uk" || code == "uz"
            || code == "vi" || code == "zh"
  {
    var c := LANGUAGE_CODES;
    assert c == ["en", "ru", "zh", "fr", "fa", "uz", "de", "hi", "tr", "az"]
             + ["es", "vi", "ja", "be", "uk", "pt", "pl", "id", "tk", "th"];
    assert c[0] == "en" && c[1] == "ru" && c[2] == "zh" && c[3] == "fr" && c[4] == "fa" && c[5] == "uz"
        && c[6] == "de" && c[7] == "hi" && c[8] == "tr" && c[9] == "az" && c[10] == "es" && c[11] == "vi"
        && c[12] == "ja" && c[13] == "be" && c[14] == "uk" && c[15] == "pt" && c[16] == "pl" && c[17] == "id"
        && c[18] == "tk" && c[19] == "th";
  }

  /** Two units are two characters of the basic plane or one beyond it. */
  lemma TwoUnitsAre(s: string)
    ensures Utf16Length(s) == 2 <==>
            || (|s| == 2 && s[0] as int <= 0xffff && s[1] as int <= 0xffff)
            || (|s| == 1 && s[0] as int > 0xffff)
  {
    if |s| >= 2 {
      assert s[1..][0] == s[1] && s[1..][1..] == s[2..];
      assert |s| > 2 ==> Utf16Length(s[2..]) >= 1;
    }
  }

  // ----- trimming

  /** White space and line terminators of ECMAScript. */
  predicate IsSpace(c: char) {
    var code := c as int;
    || 0x9 <= code <= 0xd || code == 0x20 || code == 0xa0 || code == 0x1680
    || 0x2000 <= code <= 0x200a || code == 0x2028 || code == 0x2029 || code == 0x202f
    || code == 0x205f || code == 0x3000 || code == 0xfeff
  }

  /** The twenty-five code points. */
  lemma SpacesAre(c: char)
    ensures IsSpace(c) <==>
            c as int in {
              9, 10, 11, 12, 13, 32, 160, 5760, 8192, 8193, 8194, 8195, 8196, 8197, 8198, 8199, 8200, 8201, 8202,
              8232, 8233, 8239, 8287, 12288, 65279}
  {}

  function TrimStart(s: string): string {
    if s != "" && IsSpace(s[0]) then TrimStart(s[1..]) else s
  }

  function TrimEnd(s: string): string {
    if s != "" && IsSpace(s[|s| - 1]) then TrimEnd(s[..|s| - 1]) else s
  }

  function Trim(s: string): string {
    TrimEnd(TrimStart(s))
  }

  predicate IsTrimmed(s: string) {
    s == "" || (!IsSpace(s[0]) && !IsSpace(s[|s| - 1]))
  }

  predicate IsBlank(s: string) {
    forall i :: 0 <= i < |s| ==> IsSpace(s[i])
  }

  lemma {:induction false} TrimStartCuts(s: string) returns (n: nat)
    ensures n <= |s| && TrimStart(s) == s[n..] && IsBlank(s[..n])
    ensures n < |s| ==> !IsSpace(s[n])
  {
    if s != "" && IsSpace(s[0]) {
      var rest := TrimStartCuts(s[1..]);
      n := rest + 1;
      assert s[1..][rest..] == s[n..] && s[..n] == [s[0]] + s[1..][..rest];
    } else {
      n := 0;
    }
  }

  lemma {:induction false} TrimEndCuts(s: string) returns (n: nat)
    ensures n <= |s| && TrimEnd(s) == s[..n] && IsBlank(s[n..])
    ensures n > 0 ==> !IsSpace(s[n - 1])
  {
    if s != "" && IsSpace(s[|s| - 1]) {
      var front := s[..|s| - 1];
      n := TrimEndCuts(front);
      assert front[..n] == s[..n] && s[n..] == front[n..] + [s[|s| - 1]];
    } else {
      n := |s|;
    }
  }

  /** Trimming cuts white space off both ends and nothing else. */
  lemma TrimMeans(s: string)
    ensures exists m, n :: 0 <= m <= n <= |s| && Trim(s) == s[m..n] && IsBlank(s[..m]) && IsBlank(s[n..])
    ensures IsTrimmed(Trim(s))
  {
    var m := TrimStartCuts(s);
    var start := s[m..];
    var n := TrimEndCuts(start);
    assert start[..n] == s[m..m + n] && start[n..] == s[m + n..];
  }

  lemma TrimmedStays(s: string)
    requires IsTrimmed(s)
    ensures Trim(s) == s
  {
  }

  // ----- localized texts

  predicate IsLocalizedText(v: Value) {
    v.Obj? && v.members != []
    && (forall m :: m in v.members ==> m.value.Str?)
    && exists m :: m in v.members && Utf16Length(m.key) == 2
  }

  /** A text for the locale that is more than white space. */
  predicate HasText(v: Value, locale: Locale)
    requires IsLocalizedText(v)
  {
    var value := Get(v.members, locale);
    value.Some? && value.value.Str? && Trim(value.value.text) != ""
  }

  ghost predicate IsTwoUnits(key: string) {
    (|key| == 2 && key[0] as int <= 0xffff && key[1] as int <= 0xffff) || (|key| == 1 && key[0] as int > 0xffff)
  }

  /** An object of texts with at least one key of two units. */
  lemma LocalizedTextsAre(v: Value)
    ensures IsLocalizedText(v) <==>
            && v.Obj? && (forall m :: m in v.members ==> m.value.Str?)
            && exists m :: m in v.members && IsTwoUnits(m.key)
  {
    if v.Obj? {
      forall m | m in v.members
        ensures Utf16Length(m.key) == 2 <==> IsTwoUnits(m.key)
      {
        TwoUnitsAre(m.key);
      }
    }
  }

  lemma NotBlankHasText(s: string)
    ensures Trim(s) != "" <==> !IsBlank(s)
  {
    var m := TrimStartCuts(s);
    var start := s[m..];
    var n := TrimEndCuts(start);
    if m == |s| {
      assert s[..m] == s && start == "";
    } else {
      assert start[0] == s[m];
    }
  }

  /** There is a text for the locale when the member under its key is not all white space. */
  lemma HasTextMeans(v: Value, locale: Locale)
    requires IsLocalizedText(v) && UniqueKeys(v.members)
    ensures HasText(v, locale) <==> exists m :: m in v.members && m.key == locale && !IsBlank(m.value.text)
  {
    var found := Get(v.members, locale);
    if found.Some? {
      GetFinds(v.members, locale);
      NotBlankHasText(found.value.text);
    }
    forall m | m in v.members && m.key == locale
      ensures found == Some(m.value)
    {
      GetMeans(v.members, locale, m.value);
    }
  }

  datatype Step = Root(name: string) | Key(key: string) | Index(index: nat)

  datatype Issue = MissingLocale(path: seq<Step>, locale: Locale)

  function StepTo(v: Value, i: nat): Step
    requires i < Width(v)
  {
    if v.Arr? then Index(i) else Key(v.members[i].key)
  }

  function LocaleIssues(v: Value, path: seq<Step>, locales: seq<Locale>): seq<Issue>
    requires IsLocalizedText(v)
  {
    if locales == [] then []
    else
      var front, last := LocaleIssues(v, path, locales[..|locales| - 1]), locales[|locales| - 1];
      if HasText(v, last) then front else front + [MissingLocale(path, last)]
  }

  function IssuesOf(v: Value, path: seq<Step>, locales: seq<Locale>): seq<Issue>
    decreases v, 1, 0
  {
    if IsLocalizedText(v) then LocaleIssues(v, path, locales) else ChildIssues(v, Width(v), path, locales)
  }

  /** The issues below the first `n` children. */
  function ChildIssues(v: Value, n: nat, path: seq<Step>, locales: seq<Locale>): seq<Issue>
    requires n <= Width(v)
    decreases v, 0, n
  {
    if n == 0 then []
    else ChildIssues(v, n - 1, path, locales) + IssuesOf(Child(v, n - 1), path + [StepTo(v, n - 1)], locales)
  }

  /** The steps lead through values that are no texts to a text that lacks the locale. */
  ghost predicate LacksAt(v: Value, steps: seq<Step>, locale: Locale) {
    if steps == [] then IsLocalizedText(v) && !HasText(v, locale)
    else
      && !IsLocalizedText(v)
      && match steps[0]
         case Root(_) => false
         case Key(key) =>
           v.Obj? && exists i :: 0 <= i < |v.members| && v.members[i].key == key
                                 && LacksAt(v.members[i].value, steps[1..], locale)
         case Index(index) => v.Arr? && index < |v.items| && LacksAt(v.items[index], steps[1..], locale)
  }

  ghost predicate IsMissing(v: Value, path: seq<Step>, locales: seq<Locale>, issue: Issue) {
    issue.locale in locales && path <= issue.path && LacksAt(v, issue.path[|path|..], issue.locale)
  }

  lemma {:induction false} LocaleIssuesExactly(v: Value, path: seq<Step>, locales: seq<Locale>, issue: Issue)
    requires IsLocalizedText(v)
    ensures issue in LocaleIssues(v, path, locales) <==>
            issue.path == path && issue.locale in locales && !HasText(v, issue.locale)
  {
    if locales != [] {
      var front, last := locales[..|locales| - 1], locales[|locales| - 1];
      assert locales == front + [last];
      LocaleIssuesExactly(v, path, front, issue);
    }
  }

  lemma {:induction false} ChildIssuesExactly(v: Value, n: nat, path: seq<Step>, locales: seq<Locale>, issue: Issue)
    requires n <= Width(v)
    ensures issue in ChildIssues(v, n, path, locales) <==>
            exists i :: 0 <= i < n && IsMissing(Child(v, i), path + [StepTo(v, i)], locales, issue)
    decreases v, 0, n
  {
    if n > 0 {
      ChildIssuesExactly(v, n - 1, path, locales, issue);
      IssuesExactly(Child(v, n - 1), path + [StepTo(v, n - 1)], locales, issue);
    }
  }

  lemma OneStepDown(v: Value, i: nat, path: seq<Step>, locales: seq<Locale>, issue: Issue)
    requires i < Width(v) && !IsLocalizedText(v)
    requires IsMissing(Child(v, i), path + [StepTo(v, i)], locales, issue)
    ensures IsMissing(v, path, locales, issue)
  {
    var steps := issue.path[|path|..];
    assert path <= path + [StepTo(v, i)] <= issue.path;
    assert steps[0] == issue.path[|path|] == StepTo(v, i);
    assert steps[1..] == issue.path[|path + [StepTo(v, i)]|..];
  }

  lemma OneStepUp(v: Value, path: seq<Step>, locales: seq<Locale>, issue: Issue) returns (i: nat)
    requires !IsLocalizedText(v) && IsMissing(v, path, locales, issue)
    ensures i < Width(v) && IsMissing(Child(v, i), path + [StepTo(v, i)], locales, issue)
  {
    var steps := issue.path[|path|..];
    match steps[0]
    case Key(key) =>
      i :| 0 <= i < |v.members| && v.members[i].key == key && LacksAt(v.members[i].value, steps[1..], issue.locale);
      assert steps[1..] == issue.path[|path| + 1..];
    case Index(index) =>
      i := index;
      assert steps[1..] == issue.path[|path| + 1..];
  }

  /**
    The issues are exactly the required locales that a localized text lacks, each under the path of
    keys and indexes that leads to that text.
   */
  lemma {:induction false} IssuesExactly(v: Value, path: seq<Step>, locales: seq<Locale>, issue: Issue)
    ensures issue in IssuesOf(v, path, locales) <==> IsMissing(v, path, locales, issue)
    decreases v, 1, 0
  {
    if IsLocalizedText(v) {
      LocaleIssuesExactly(v, path, locales, issue);
    } else {
      ChildIssuesExactly(v, Width(v), path, locales, issue);
      if IsMissing(v, path, locales, issue) {
        var _ := OneStepUp(v, path, locales, issue);
      }
      if i :| 0 <= i < Width(v) && IsMissing(Child(v, i), path + [StepTo(v, i)], locales, issue) {
        OneStepDown(v, i, path, locales, issue);
      }
    }
  }

  /** Issues come in the order of the locales and of the children: later ones only add to the end. */
  lemma {:induction false} LaterLocalesComeLater(v: Value, path: seq<Step>, locales: seq<Locale>, n: nat)
    requires IsLocalizedText(v) && n <= |locales|
    ensures LocaleIssues(v, path, locales[..n]) <= LocaleIssues(v, path, locales)
  {
    if n == |locales| {
      assert locales[..n] == locales;
    } else {
      var front := locales[..|locales| - 1];
      assert front[..n] == locales[..n];
      LaterLocalesComeLater(v, path, front, n);
    }
  }

  lemma {:induction false} LaterChildrenComeLater(v: Value, m: nat, n: nat, path: seq<Step>, locales: seq<Locale>)
    requires m <= n <= Width(v)
    ensures ChildIssues(v, m, path, locales) <= ChildIssues(v, n, path, locales)
    decreases n
  {
    if m < n {
      LaterChildrenComeLater(v, m, n - 1, path, locales);
    }
  }

  class Validator {
    var issues: seq<Issue>

    constructor ()
      ensures issues == []
    {
      issues := [];
    }

    method CheckLocalizedText(obj: Value, path: seq<Step>, requiredLocales: seq<Locale>)
      modifies this
      ensures issues == old(issues) + IssuesOf(obj, path, requiredLocales)
      decreases obj
    {
      if IsLocalizedText(obj) {
        for i := 0 to |requiredLocales|
          invariant issues == old(issues) + LocaleIssues(obj, path, requiredLocales[..i])
        {
          var locale := requiredLocales[i];
          assert requiredLocales[..i + 1][..i] == requiredLocales[..i];
          var value := Get(obj.members, locale);
          if value.None? || (value.value.Str? && Trim(value.value.text) == "") {
            issues := issues + [MissingLocale(path, locale)];
          } else {
            GetFinds(obj.members, locale);
          }
        }
        assert requiredLocales[..|requiredLocales|] == requiredLocales;
        return;
      }
      for i := 0 to Width(obj)
        invariant issues == old(issues) + ChildIssues(obj, i, path, requiredLocales)
      {
        CheckLocalizedText(Child(obj, i), path + [StepTo(obj, i)], requiredLocales);
      }
    }

    method ValidateLocalizedTexts(platforms: Value, baseTranslations: Value, requiredLocales: seq<Locale>)
      modifies this
      ensures issues == old(issues)
        + IssuesOf(platforms, [Root("platforms")], requiredLocales)
        + IssuesOf(baseTranslations, [Root("baseTranslations")], requiredLocales)
    {
      CheckLocalizedText(platforms, [Root("platforms")], requiredLocales);
      CheckLocalizedText(baseTranslations, [Root("baseTranslations")], requiredLocales);
    }
  }

  lemma {:induction false} GetFinds(members: Members, key: string)
    requires Get(members, key).Some?
    ensures exists m :: m in members && m.key == key && m.value == Get(members, key).value
  {
    if members[0].key == key {
      assert members[0] in members;
    } else {
      GetFinds(members[1..], key);
    }
  }

  // ----- cleaning

  predicate Keeps(m: Member, locales: seq<Locale>)
    requires m.value.Str?
  {
    IsLanguageCode(m.key) && m.key in locales && Trim(m.value.text) != ""
  }

  function CleanedText(members: Members, locales: seq<Locale>): (r: Members)
    requires forall m :: m in members ==> m.value.Str?
  {
    if members == [] then []
    else
      var front, last := CleanedText(members[..|members| - 1], locales), members[|members| - 1];
      if Keeps(last, locales) then front + [Member(last.key, Str(Trim(last.value.text)))] else front
  }

  function Cleaned(v: Value, locales: seq<Locale>): Value {
    match v
    case Arr(items) => Arr(seq(|items|, i requires 0 <= i < |items| => Cleaned(items[i], locales)))
    case Obj(members) =>
      if IsLocalizedText(v) then Obj(CleanedText(members, locales))
      else Obj(seq(|members|, i requires 0 <= i < |members| =>
        Member(members[i].key, Cleaned(members[i].value, locales))))
    case _ => v
  }

  method CleanLocalizedTexts(obj: Value, activeLocales: seq<Locale>) returns (r: Value)
    ensures r == Cleaned(obj, activeLocales)
    decreases obj
  {
    match obj {
      case Arr(items) =>
        var result: seq<Value> := [];
        for i := 0 to |items|
          invariant |result| == i && forall k :: 0 <= k < i ==> result[k] == Cleaned(items[k], activeLocales)
        {
          var item := CleanLocalizedTexts(items[i], activeLocales);
          result := result + [item];
        }
        return Arr(result);
      case Obj(members) =>
        var result: Members := [];
        if IsLocalizedText(obj) {
          for i := 0 to |members|
            invariant result == CleanedText(members[..i], activeLocales)
          {
            var m := members[i];
            assert members[..i + 1][..i] == members[..i];
            if IsLanguageCode(m.key) && m.key in activeLocales {
              var trimmed := Trim(m.value.text);
              if trimmed != "" {
                result := result + [Member(m.key, Str(trimmed))];
              }
            }
          }
          assert members[..|members|] == members;
          return Obj(result);
        }
        for i := 0 to |members|
          invariant |result| == i
          invariant forall k :: 0 <= k < i ==>
                      result[k] == Member(members[k].key, Cleaned(members[k].value, activeLocales))
        {
          var value := CleanLocalizedTexts(members[i].value, activeLocales);
          result := result + [Member(members[i].key, value)];
        }
        return Obj(result);
      case _ => return obj;
    }
  }

  // ----- what validating and cleaning mean to each other

  /** Every localized text in the value has a text for every locale. */
  ghost predicate Complete(v: Value, locales: seq<Locale>) {
    if IsLocalizedText(v) then forall locale :: locale in locales ==> HasText(v, locale)
    else forall i :: 0 <= i < Width(v) ==> Complete(Child(v, i), locales)
  }

  /** Every localized text in the value has a text for every locale, or for none of them. */
  ghost predicate AllOrNone(v: Value, locales: seq<Locale>) {
    if IsLocalizedText(v) then
      (forall locale :: locale in locales ==> HasText(v, locale))
        || (forall locale :: locale in locales ==> !HasText(v, locale))
    else forall i :: 0 <= i < Width(v) ==> AllOrNone(Child(v, i), locales)
  }

  lemma {:induction false} LocaleIssuesMean(v: Value, path: seq<Step>, locales: seq<Locale>)
    requires IsLocalizedText(v)
    ensures LocaleIssues(v, path, locales) == [] <==> forall locale :: locale in locales ==> HasText(v, locale)
  {
    if locales != [] {
      var front, last := locales[..|locales| - 1], locales[|locales| - 1];
      LocaleIssuesMean(v, path, front);
      assert locales == front + [last];
    }
  }

  lemma {:induction false} ChildIssuesMean(v: Value, n: nat, path: seq<Step>, locales: seq<Locale>)
    requires n <= Width(v)
    ensures ChildIssues(v, n, path, locales) == [] <==>
      forall i :: 0 <= i < n ==> IssuesOf(Child(v, i), path + [StepTo(v, i)], locales) == []
  {
    if n > 0 {
      ChildIssuesMean(v, n - 1, path, locales);
      var front, last := ChildIssues(v, n - 1, path, locales),
          IssuesOf(Child(v, n - 1), path + [StepTo(v, n - 1)], locales);
      assert |ChildIssues(v, n, path, locales)| == |front| + |last|;
    }
  }

  /** No issue is reported exactly when every localized text has a text for every required locale. */
  lemma {:induction false} NoIssuesMeans(v: Value, path: seq<Step>, locales: seq<Locale>)
    ensures IssuesOf(v, path, locales) == [] <==> Complete(v, locales)
    decreases v
  {
    if IsLocalizedText(v) {
      LocaleIssuesMean(v, path, locales);
    } else {
      forall i | 0 <= i < Width(v)
        ensures IssuesOf(Child(v, i), path + [StepTo(v, i)], locales) == [] <==> Complete(Child(v, i), locales)
      {
        NoIssuesMeans(Child(v, i), path + [StepTo(v, i)], locales);
      }
      ChildIssuesMean(v, Width(v), path, locales);
    }
  }

  lemma CodesHaveTwoUnits(code: string)
    requires IsLanguageCode(code)
    ensures Utf16Length(code) == 2
  {
    var i :| 0 <= i < |LANGUAGE_CODES| && LANGUAGE_CODES[i] == code;
    assert |code| == 2;
    assert code[1..] == [code[1]];
  }

  lemma {:induction false} CleanedTextMeans(members: Members, locales: seq<Locale>)
    requires forall m :: m in members ==> m.value.Str?
    ensures forall m :: m in CleanedText(members, locales) ==>
      m.value.Str? && IsTrimmed(m.value.text) && m.value.text != "" && IsLanguageCode(m.key) && m.key in locales
    ensures forall m :: m in members && Keeps(m, locales) ==>
              Member(m.key, Str(Trim(m.value.text))) in CleanedText(members, locales)
    ensures forall m :: m in CleanedText(members, locales) ==>
      exists o :: o in members && o.key == m.key && Trim(o.value.text) == m.value.text
  {
    if members != [] {
      var front, last := members[..|members| - 1], members[|members| - 1];
      assert members == front + [last];
      CleanedTextMeans(front, locales);
      TrimMeans(last.value.text);
      assert last in members;
    }
  }

  /** What is left of a text: the trimmed texts of the active language codes that are not blank. */
  lemma CleanedTextExactly(members: Members, locales: seq<Locale>, m: Member)
    requires forall o :: o in members ==> o.value.Str?
    ensures m in CleanedText(members, locales) <==>
            && m.value.Str? && IsLanguageCode(m.key) && m.key in locales && m.value.text != ""
            && exists o :: o in members && o.key == m.key && Trim(o.value.text) == m.value.text
  {
    CleanedTextMeans(members, locales);
  }

  /** The members keep their order. */
  lemma {:induction false} CleanedTextSplits(a: Members, b: Members, locales: seq<Locale>)
    requires (forall m :: m in a ==> m.value.Str?) && forall m :: m in b ==> m.value.Str?
    ensures CleanedText(a + b, locales) == CleanedText(a, locales) + CleanedText(b, locales)
  {
    if b == [] {
      assert a + b == a;
    } else {
      var front := b[..|b| - 1];
      assert (a + b)[..|a + b| - 1] == a + front && b == front + [b[|b| - 1]];
      CleanedTextSplits(a, front, locales);
      var last := b[|b| - 1];
      Associates(CleanedText(a, locales), CleanedText(front, locales),
        if Keeps(last, locales) then [Member(last.key, Str(Trim(last.value.text)))] else []);
    }
  }

  /** What cleaning leaves of a localized text is one, unless it is empty. */
  lemma CleanedTextIsText(members: Members, locales: seq<Locale>)
    requires forall m :: m in members ==> m.value.Str?
    ensures var r := CleanedText(members, locales); r == [] || IsLocalizedText(Obj(r))
  {
    var r := CleanedText(members, locales);
    CleanedTextMeans(members, locales);
    if r != [] {
      assert r[0] in r;
      CodesHaveTwoUnits(r[0].key);
    }
  }

  lemma {:induction false} CleanedTextStays(members: Members, locales: seq<Locale>)
    requires forall m :: m in members ==> m.value.Str? && Keeps(m, locales) && IsTrimmed(m.value.text)
    ensures CleanedText(members, locales) == members
  {
    if members != [] {
      var front, last := members[..|members| - 1], members[|members| - 1];
      assert members == front + [last];
      CleanedTextStays(front, locales);
      assert last in members;
      TrimmedStays(last.value.text);
    }
  }

  /** Cleaning keeps what kind of value each value is, so no other object turns into a localized text. */
  lemma CleanedKeepsTheKind(v: Value, locales: seq<Locale>)
    requires !IsLocalizedText(v)
    ensures !IsLocalizedText(Cleaned(v, locales)) && Width(Cleaned(v, locales)) == Width(v)
    ensures forall i :: 0 <= i < Width(v) ==> Child(Cleaned(v, locales), i) == Cleaned(Child(v, i), locales)
  {
    if v.Obj? {
      var r := Cleaned(v, locales).members;
      assert forall i :: 0 <= i < |r| ==>
               r[i].key == v.members[i].key && r[i].value == Cleaned(v.members[i].value, locales);
      assert forall i :: 0 <= i < |r| ==> r[i] in r && v.members[i] in v.members;
    }
  }

  /** The value that a path of positions leads to. */
  function At(v: Value, path: seq<nat>): Option<Value> {
    if path == [] then Some(v)
    else if path[0] < Width(v) then At(Child(v, path[0]), path[1..])
    else None
  }

  /** The path, up to its last value or where it breaks off, meets no localized text. */
  predicate OutsideTexts(v: Value, path: seq<nat>) {
    !IsLocalizedText(v) && (path != [] && path[0] < Width(v) ==> OutsideTexts(Child(v, path[0]), path[1..]))
  }

  /** The two are arrays of one length, objects with the same keys in the same order, or equal. */
  predicate SameNode(v: Value, w: Value) {
    match v
    case Arr(items) => w.Arr? && |w.items| == |items|
    case Obj(members) => w.Obj? && SameKeys(members, w.members)
    case _ => w == v
  }

  /** Outside the localized texts cleaning changes no length, no key and no value, wherever one looks. */
  lemma {:induction false} OnlyTextsChange(v: Value, path: seq<nat>, locales: seq<Locale>)
    requires OutsideTexts(v, path)
    ensures match At(v, path)
            case None => At(Cleaned(v, locales), path) == None
            case Some(w) => At(Cleaned(v, locales), path).Some? && SameNode(w, At(Cleaned(v, locales), path).value)
    decreases |path|
  {
    CleanedKeepsTheKind(v, locales);
    if path != [] && path[0] < Width(v) {
      OnlyTextsChange(Child(v, path[0]), path[1..], locales);
    }
  }

  /** Every localized text outside of others is cleaned, wherever it is. */
  lemma {:induction false} EveryTextIsCleaned(v: Value, path: seq<nat>, locales: seq<Locale>)
    requires At(v, path).Some? && IsLocalizedText(At(v, path).value)
    requires forall n :: 0 <= n < |path| && At(v, path[..n]).Some? ==> !IsLocalizedText(At(v, path[..n]).value)
    ensures At(Cleaned(v, locales), path) == Some(Obj(CleanedText(At(v, path).value.members, locales)))
    decreases |path|
  {
    if path != [] {
      assert At(v, path[..0]) == Some(v);
      CleanedKeepsTheKind(v, locales);
      forall n | 0 <= n < |path[1..]| && At(Child(v, path[0]), path[1..][..n]).Some?
        ensures !IsLocalizedText(At(Child(v, path[0]), path[1..][..n]).value)
      {
        assert path[..n + 1][1..] == path[1..][..n];
        assert At(v, path[..n + 1]) == At(Child(v, path[0]), path[1..][..n]);
      }
      EveryTextIsCleaned(Child(v, path[0]), path[1..], locales);
    }
  }

  /** Cleaning twice is cleaning once. */
  lemma {:induction false} CleaningIsIdempotent(v: Value, locales: seq<Locale>)
    ensures Cleaned(Cleaned(v, locales), locales) == Cleaned(v, locales)
    decreases v
  {
    var r := Cleaned(v, locales);
    if IsLocalizedText(v) {
      CleanedTextMeans(v.members, locales);
      CleanedTextIsText(v.members, locales);
      forall m | m in r.members
        ensures Keeps(m, locales)
      {
        TrimmedStays(m.value.text);
      }
      CleanedTextStays(r.members, locales);
    } else {
      CleanedKeepsTheKind(v, locales);
      CleanedKeepsTheKind(r, locales);
      forall i | 0 <= i < Width(v)
        ensures Child(Cleaned(r, locales), i) == Child(r, i)
      {
        CleaningIsIdempotent(Child(v, i), locales);
      }
      SameChildren(Cleaned(r, locales), r);
    }
  }

  predicate SameKeys(a: Members, b: Members) {
    |a| == |b| && forall i :: 0 <= i < |a| ==> a[i].key == b[i].key
  }

  lemma SameChildren(v: Value, w: Value)
    requires (v.Arr? && w.Arr?) || (v.Obj? && w.Obj?) || v == w
    requires v.Obj? && w.Obj? ==> SameKeys(v.members, w.members)
    requires Width(v) == Width(w) && forall i :: 0 <= i < Width(v) ==> Child(v, i) == Child(w, i)
    ensures v == w
  {
    if v.Arr? {
      assert forall i :: 0 <= i < |v.items| ==> v.items[i] == Child(v, i) && w.items[i] == Child(w, i);
    } else if v.Obj? {
      assert forall i :: 0 <= i < |v.members| ==>
               v.members[i].value == Child(v, i) && w.members[i].value == Child(w, i);
    }
  }

  /** A trimmed text that is kept for a locale is there after cleaning, and nothing else is. */
  lemma CleanedHasText(v: Value, locales: seq<Locale>, locale: Locale)
    requires IsLocalizedText(v) && UniqueKeys(v.members)
    requires locale in locales && IsLanguageCode(locale)
    ensures var r := CleanedText(v.members, locales);
      (exists m :: m in r && m.key == locale) <==> HasText(v, locale)
  {
    CleanedTextMeans(v.members, locales);
    var r := CleanedText(v.members, locales);
    if HasText(v, locale) {
      var text := Get(v.members, locale).value;
      GetMeans(v.members, locale, text);
      assert Member(locale, Str(Trim(text.text))) in r;
    }
    if m :| m in r && m.key == locale {
      var o :| o in v.members && o.key == locale && Trim(o.value.text) == m.value.text;
      GetMeans(v.members, locale, o.value);
    }
  }

  lemma {:induction false} CleanedTextKeepsUniqueKeys(members: Members, locales: seq<Locale>)
    requires UniqueKeys(members) && forall m :: m in members ==> m.value.Str?
    ensures UniqueKeys(CleanedText(members, locales))
  {
    if members != [] {
      var front, last := members[..|members| - 1], members[|members| - 1];
      assert forall i :: 0 <= i < |front| ==> front[i] == members[i];
      CleanedTextKeepsUniqueKeys(front, locales);
      CleanedTextMeans(front, locales);
      var r := CleanedText(front, locales);
      forall i | 0 <= i < |r|
        ensures r[i].key != last.key
      {
        assert r[i] in r;
      }
    }
  }

  predicate AreLanguageCodes(locales: seq<Locale>) {
    forall locale :: locale in locales ==> IsLanguageCode(locale)
  }

  /** What is left of one localized text reports nothing exactly when it had all locales or none. */
  lemma CleanedTextComplete(v: Value, locales: seq<Locale>)
    requires IsLocalizedText(v) && UniqueKeys(v.members) && AreLanguageCodes(locales)
    ensures Complete(Cleaned(v, locales), locales) <==> AllOrNone(v, locales)
  {
    var r := CleanedText(v.members, locales);
    CleanedTextMeans(v.members, locales);
    forall locale | locale in locales
      ensures (exists m :: m in r && m.key == locale) <==> HasText(v, locale)
    {
      CleanedHasText(v, locales, locale);
    }
    if r == [] {
      assert forall locale :: locale in locales ==> !HasText(v, locale);
      assert Width(Obj(r)) == 0;
    } else {
      CleanedTextIsText(v.members, locales);
      CleanedTextKeepsUniqueKeys(v.members, locales);
      assert r[0] in r && HasText(v, r[0].key);
      forall locale | locale in locales
        ensures HasText(Obj(r), locale) <==> HasText(v, locale)
      {
        KeptTextIsFound(r, locale);
      }
    }
  }

  lemma KeptTextIsFound(r: Members, locale: Locale)
    requires IsLocalizedText(Obj(r)) && UniqueKeys(r)
    requires forall m :: m in r ==> m.value.Str? && IsTrimmed(m.value.text) && m.value.text != ""
    ensures HasText(Obj(r), locale) <==> exists m :: m in r && m.key == locale
  {
    if m :| m in r && m.key == locale {
      GetMeans(r, locale, m.value);
      TrimmedStays(m.value.text);
    } else if Get(r, locale).Some? {
      GetFinds(r, locale);
    }
  }

  /**
    After cleaning with the active locales the validator reports nothing exactly when every
    localized text had all of them or none: a text with none is emptied and not looked at again.
   */
  lemma {:induction false} CleanedIsComplete(v: Value, locales: seq<Locale>)
    requires Proper(v) && AreLanguageCodes(locales)
    ensures Complete(Cleaned(v, locales), locales) <==> AllOrNone(v, locales)
    decreases v
  {
    if IsLocalizedText(v) {
      CleanedTextComplete(v, locales);
    } else {
      CleanedKeepsTheKind(v, locales);
      forall i | 0 <= i < Width(v)
        ensures Complete(Child(Cleaned(v, locales), i), locales) <==> AllOrNone(Child(v, i), locales)
      {
        CleanedIsComplete(Child(v, i), locales);
      }
    }
  }

  lemma {:induction false} CompleteIsAllOrNone(v: Value, locales: seq<Locale>)
    requires Complete(v, locales)
    ensures AllOrNone(v, locales)
    decreases v
  {
    if !IsLocalizedText(v) {
      forall i | 0 <= i < Width(v)
        ensures AllOrNone(Child(v, i), locales)
      {
        CompleteIsAllOrNone(Child(v, i), locales);
      }
    }
  }

  /** A value without issues has none after cleaning with the same locales. */
  lemma CleaningAddsNoIssues(v: Value, path: seq<Step>, locales: seq<Locale>)
    requires Proper(v) && AreLanguageCodes(locales)
    ensures IssuesOf(v, path, locales) == [] ==> IssuesOf(Cleaned(v, locales), path, locales) == []
    ensures IssuesOf(Cleaned(v, locales), path, locales) == [] <==> AllOrNone(v, locales)
  {
    NoIssuesMeans(v, path, locales);
    NoIssuesMeans(Cleaned(v, locales), path, locales);
    CleanedIsComplete(v, locales);
    if Complete(v, locales) {
      CompleteIsAllOrNone(v, locales);
    }
  }
}
