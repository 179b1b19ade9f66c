/** `checkURLValidity`: the structural and SEO-friendliness rules a URL must
    meet before the crawler visits it. Each broken rule contributes one
    `CustomError`; once the URL is parsed, every rule is checked and none
    stops the others. */
module UrlValidity {
  import opened CustomErrors

  /** The fields of a parsed URL that the rules read. Parsing itself is done by
      Go's `url.Parse` and is not part of this model: its outcome is an input. */
  datatype Url = Url(scheme: string, path: string, rawQuery: string, fragment: string)

  datatype ParseOutcome = Parsed(url: Url) | ParseFailed

  const MAX_PATH_LENGTH := 100

  const PARSING_ERROR := CustomError("There was a parsing error", 500)
  const HTTP_ERROR := CustomError("HTTP Error", 400)
  const PATH_TOO_LONG :=
    CustomError("SEO-Friendliness violation length of URL's path is over 100", 199)
  const QUERY_OR_FRAGMENT :=
    CustomError("SEO-Friendliness violation URL's path of either the query string or fragment is empty", 199)
  const UPPERCASE_OR_UNDERSCORE :=
    CustomError("SEO-Friendliness Violation URL's path contains uppercase letters and/or hyphens", 199)

  predicate IsUpperAscii(c: char) {
    'A' <= c <= 'Z'
  }

  function LowerChar(c: char): char {
    if IsUpperAscii(c) then (c as int + ('a' as int - 'A' as int)) as char else c
  }

  /** `strings.ToLower`, restricted to ASCII case mapping. */
  function ToLower(s: string): (r: string)
    ensures |r| == |s|
    ensures forall i :: 0 <= i < |s| ==> r[i] == LowerChar(s[i])
  {
    if s == [] then [] else [LowerChar(s[0])] + ToLower(s[1..])
  }

  /** The scheme comparison is exact and case-sensitive; `url.Parse` has
      already lowercased the scheme it hands over. */
  predicate SchemeAllowed(scheme: string) {
    scheme == "http" || scheme == "https"
  }

  /** A path an SEO-friendly URL may carry, character by character. */
  predicate PathLowercaseNoUnderscore(path: string) {
    forall i :: 0 <= i < |path| ==> !IsUpperAscii(path[i]) && path[i] != '_'
  }

  /** The four rules as the source tests them, one predicate per entry. */
  predicate SchemeRuleBroken(u: Url) {
    u.scheme != "http" && u.scheme != "https"
  }

  predicate LengthRuleBroken(u: Url) {
    |u.path| > MAX_PATH_LENGTH
  }

  predicate QueryRuleBroken(u: Url) {
    u.rawQuery != "" || u.fragment != ""
  }

  predicate CasingRuleBroken(u: Url) {
    u.path != ToLower(u.path) || '_' in u.path
  }

  function Guarded(broken: bool, e: CustomError): seq<CustomError> {
    if broken then [e] else []
  }

  /** The list `checkURLValidity` returns. On a failed parse the source appends
      the parsing error and then reads the scheme of a nil URL, which crashes;
      the model returns the parsing error alone (see `CheckAsWritten`). */
  function Violations(p: ParseOutcome): seq<CustomError> {
    match p
    case ParseFailed => [PARSING_ERROR]
    case Parsed(u) =>
      Guarded(SchemeRuleBroken(u), HTTP_ERROR)
      + Guarded(LengthRuleBroken(u), PATH_TOO_LONG)
      + Guarded(QueryRuleBroken(u), QUERY_OR_FRAGMENT)
      + Guarded(CasingRuleBroken(u), UPPERCASE_OR_UNDERSCORE)
  }

  /** `checkURLValidity`, appending to a local list check by check. */
  method CheckUrlValidity(p: ParseOutcome) returns (errors: seq<CustomError>)
    ensures errors == Violations(p)
  {
    errors := [];
    if p.ParseFailed? {
      errors := errors + [PARSING_ERROR];
      // The source continues here with a nil URL and crashes.
      return;
    }
    var u := p.url;
    if u.scheme != "http" && u.scheme != "https" {
      errors := errors + [HTTP_ERROR];
    }
    var maxUrlLength := MAX_PATH_LENGTH;
    if |u.path| > maxUrlLength {
      errors := errors + [PATH_TOO_LONG];
    }
    if u.rawQuery != "" || u.fragment != "" {
      errors := errors + [QUERY_OR_FRAGMENT];
    }
    if u.path != ToLower(u.path) || '_' in u.path {
      errors := errors + [UPPERCASE_OR_UNDERSCORE];
    }
  }

  /** A path is its own lower-case form exactly when it has no upper-case letter. */
  lemma ToLowerFixpoint(s: string)
    ensures s == ToLower(s) <==> forall i :: 0 <= i < |s| ==> !IsUpperAscii(s[i])
  {
  }

  lemma CasingRuleIsDeclarative(u: Url)
    ensures CasingRuleBroken(u) <==> !PathLowercaseNoUnderscore(u.path)
  {
    ToLowerFixpoint(u.path);
  }

  /** A parsed URL is accepted exactly when it meets every rule. */
  lemma AcceptedIffAllRulesHold(u: Url)
    ensures Violations(Parsed(u)) == [] <==>
      SchemeAllowed(u.scheme) && |u.path| <= MAX_PATH_LENGTH
      && u.rawQuery == "" && u.fragment == "" && PathLowercaseNoUnderscore(u.path)
  {
    CasingRuleIsDeclarative(u);
  }

  /** A scheme other than exactly "http" or "https" gives one HTTP error. */
  lemma SchemeReported(u: Url)
    ensures multiset(Violations(Parsed(u)))[HTTP_ERROR] == if SchemeAllowed(u.scheme) then 0 else 1
  {
  }

  /** The HTTP error is the only entry of a parsed URL with code 400. */
  lemma SchemeIsOnlyCode400(u: Url)
    ensures CountCode(Violations(Parsed(u)), 400) == if SchemeAllowed(u.scheme) then 0 else 1
  {
    CountCodeOfRules(u, 400);
  }

  /** A path over 100 characters gives one length entry; 100 exactly does not. */
  lemma PathLengthReported(u: Url)
    ensures multiset(Violations(Parsed(u)))[PATH_TOO_LONG] == if |u.path| > 100 then 1 else 0
  {
  }

  /** A query, a fragment, or both give a single entry: the tests are or-ed. */
  lemma QueryOrFragmentReported(u: Url)
    ensures multiset(Violations(Parsed(u)))[QUERY_OR_FRAGMENT]
      == if u.rawQuery != "" || u.fragment != "" then 1 else 0
  {
  }

  /** An upper-case letter, an underscore, or both in the path give a single
      entry; the host is never examined. */
  lemma CasingReported(u: Url)
    ensures multiset(Violations(Parsed(u)))[UPPERCASE_OR_UNDERSCORE]
      == if PathLowercaseNoUnderscore(u.path) then 0 else 1
  {
    CasingRuleIsDeclarative(u);
  }

  /** Rank of an entry in the checking order; -1 for anything else. */
  function RuleIndex(e: CustomError): int {
    if e == HTTP_ERROR then 0
    else if e == PATH_TOO_LONG then 1
    else if e == QUERY_OR_FRAGMENT then 2
    else if e == UPPERCASE_OR_UNDERSCORE then 3
    else -1
  }

  predicate InRuleOrder(v: seq<CustomError>) {
    forall i, j :: 0 <= i < j < |v| ==> RuleIndex(v[i]) < RuleIndex(v[j])
  }

  predicate RanksBelow(v: seq<CustomError>, k: int) {
    forall i :: 0 <= i < |v| ==> 0 <= RuleIndex(v[i]) < k
  }

  lemma RuleIndexOfRuleErrors()
    ensures RuleIndex(HTTP_ERROR) == 0 && RuleIndex(PATH_TOO_LONG) == 1
    ensures RuleIndex(QUERY_OR_FRAGMENT) == 2 && RuleIndex(UPPERCASE_OR_UNDERSCORE) == 3
  {
    assert |HTTP_ERROR.message| == 10;
    assert |PATH_TOO_LONG.message| == 59;
    assert |QUERY_OR_FRAGMENT.message| == 85;
    assert |UPPERCASE_OR_UNDERSCORE.message| == 79;
  }

  /** Appending the entry of the next rule keeps the list in checking order. */
  lemma ExtendInRuleOrder(v: seq<CustomError>, broken: bool, e: CustomError, k: int)
    requires InRuleOrder(v) && RanksBelow(v, k) && 0 <= k == RuleIndex(e)
    ensures InRuleOrder(v + Guarded(broken, e)) && RanksBelow(v + Guarded(broken, e), k + 1)
    ensures |v + Guarded(broken, e)| <= |v| + 1
  {
    if broken {
      var w := v + [e];
      assert forall i :: 0 <= i < |v| ==> w[i] == v[i];
      assert w[|v|] == e;
    } else {
      assert v + Guarded(broken, e) == v;
    }
  }

  /** Whatever subset of the four rules fails, their entries come out in
      checking order, at most four of them, each with code 400 or 199. */
  lemma GuardedInRuleOrder(scheme: bool, length: bool, query: bool, casing: bool)
    ensures var v := Guarded(scheme, HTTP_ERROR) + Guarded(length, PATH_TOO_LONG)
      + Guarded(query, QUERY_OR_FRAGMENT) + Guarded(casing, UPPERCASE_OR_UNDERSCORE);
      |v| <= 4 && RanksBelow(v, 4) && InRuleOrder(v)
      && (forall i :: 0 <= i < |v| ==> v[i].code == 400 || v[i].code == 199)
  {
    RuleIndexOfRuleErrors();
    var v0: seq<CustomError> := [];
    ExtendInRuleOrder(v0, scheme, HTTP_ERROR, 0);
    assert v0 + Guarded(scheme, HTTP_ERROR) == Guarded(scheme, HTTP_ERROR);
    var v1 := Guarded(scheme, HTTP_ERROR);
    ExtendInRuleOrder(v1, length, PATH_TOO_LONG, 1);
    var v2 := v1 + Guarded(length, PATH_TOO_LONG);
    ExtendInRuleOrder(v2, query, QUERY_OR_FRAGMENT, 2);
    var v3 := v2 + Guarded(query, QUERY_OR_FRAGMENT);
    ExtendInRuleOrder(v3, casing, UPPERCASE_OR_UNDERSCORE, 3);
    var v4 := v3 + Guarded(casing, UPPERCASE_OR_UNDERSCORE);
    forall i | 0 <= i < |v4|
      ensures v4[i].code == 400 || v4[i].code == 199
    {
      RuleCodes(v4[i]);
    }
  }

  /** Every failing rule is reported, in checking order, each at most once;
      so at most four entries, every one with code 400 or 199. */
  lemma ReportedInRuleOrder(u: Url)
    ensures var v := Violations(Parsed(u));
      |v| <= 4
      && (forall i :: 0 <= i < |v| ==> 0 <= RuleIndex(v[i]) && (v[i].code == 400 || v[i].code == 199))
      && (forall i, j :: 0 <= i < j < |v| ==> RuleIndex(v[i]) < RuleIndex(v[j]))
  {
    GuardedInRuleOrder(SchemeRuleBroken(u), LengthRuleBroken(u), QueryRuleBroken(u), CasingRuleBroken(u));
  }

  lemma RuleCodes(e: CustomError)
    requires 0 <= RuleIndex(e)
    ensures e.code == 400 || e.code == 199
  {
  }

  function CountCode(v: seq<CustomError>, code: int): nat {
    if v == [] then 0 else (if v[0].code == code then 1 else 0) + CountCode(v[1..], code)
  }

  lemma {:induction false} CountCodeAppend(a: seq<CustomError>, b: seq<CustomError>, code: int)
    ensures CountCode(a + b, code) == CountCode(a, code) + CountCode(b, code)
  {
    if a == [] {
      assert a + b == b;
    } else {
      assert (a + b)[1..] == a[1..] + b;
      CountCodeAppend(a[1..], b, code);
    }
  }

  /** The entries with a given code, counted rule by rule. */
  lemma CountCodeOfRules(u: Url, code: int)
    ensures CountCode(Violations(Parsed(u)), code)
      == CountCode(Guarded(SchemeRuleBroken(u), HTTP_ERROR), code)
      + CountCode(Guarded(LengthRuleBroken(u), PATH_TOO_LONG), code)
      + CountCode(Guarded(QueryRuleBroken(u), QUERY_OR_FRAGMENT), code)
      + CountCode(Guarded(CasingRuleBroken(u), UPPERCASE_OR_UNDERSCORE), code)
  {
    var a := Guarded(SchemeRuleBroken(u), HTTP_ERROR);
    var b := Guarded(LengthRuleBroken(u), PATH_TOO_LONG);
    var c := Guarded(QueryRuleBroken(u), QUERY_OR_FRAGMENT);
    var d := Guarded(CasingRuleBroken(u), UPPERCASE_OR_UNDERSCORE);
    CountCodeAppend(a + b + c, d, code);
    CountCodeAppend(a + b, c, code);
    CountCodeAppend(a, b, code);
  }

  /** Code 500 comes from a failed parse and from nowhere else. */
  lemma ParseFailureIsOnlyCode500(p: ParseOutcome)
    ensures CountCode(Violations(p), 500) == if p.ParseFailed? then 1 else 0
    ensures p.ParseFailed? ==> Violations(p) == [PARSING_ERROR]
  {
    if p.Parsed? {
      CountCodeOfRules(p.url, 500);
    }
  }

  /** What the Go function does, crash included. */
  datatype Execution = Returned(errors: seq<CustomError>) | Panicked(appended: seq<CustomError>)

  /** `checkURLValidity` as written, step by step: `url.Parse` yields a nil URL
      on failure, the parsing error is appended without returning, and the
      scheme check then dereferences the URL, which panics when it is nil. */
  function CheckAsWritten(p: ParseOutcome): (r: Execution)
    ensures r.Panicked? <==> p.ParseFailed?
    ensures r.Panicked? ==> r.appended == [PARSING_ERROR]
  {
    var u: Option<Url> := if p.Parsed? then Some(p.url) else None;
    var errors := if u.None? then [PARSING_ERROR] else [];
    match u
    case None => Panicked(errors)
    case Some(url) =>
      var errors := if url.scheme != "http" && url.scheme != "https" then errors + [HTTP_ERROR] else errors;
      var errors := if |url.path| > MAX_PATH_LENGTH then errors + [PATH_TOO_LONG] else errors;
      var errors := if url.rawQuery != "" || url.fragment != "" then errors + [QUERY_OR_FRAGMENT] else errors;
      var errors := if url.path != ToLower(url.path) || '_' in url.path then errors + [UPPERCASE_OR_UNDERSCORE] else errors;
      Returned(errors)
  }

  /** The discrepancy: as written, a failed parse crashes with exactly the list
      the corrected checker returns, and on every parsed URL the as-written
      steps return `Violations`. */
  lemma ParseFailureCrashesAsWritten(p: ParseOutcome)
    ensures p.ParseFailed? ==> CheckAsWritten(p) == Panicked(Violations(p))
    ensures p.Parsed? ==> CheckAsWritten(p) == Returned(Violations(p))
  {
  }
}
