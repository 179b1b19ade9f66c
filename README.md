# URL validity rules of the Go web crawler

The crawler reads URLs that the user separates with spaces. It checks each
one with `checkURLValidity` before it visits it. Once a URL has been parsed,
the checker returns every `CustomError` the URL earns. The list is empty when
the URL is acceptable:

- code 400: the scheme is not exactly `http` or `https`;
- code 199: the path is longer than 100 characters;
- code 199: there is a query string or a fragment;
- code 199: the path has an upper-case letter or an underscore.

For a parsed URL all four checks run, and none stops the ones after it.

A URL that cannot be parsed is different. The code appends the parsing error
(code 500), but it never returns it: the next check reads a field of the
missing URL, and the program crashes. The model keeps that behaviour in
`CheckAsWritten`. Everywhere else it uses the evident intent, which is a list
holding the parsing error alone (see "## Findings").

Each error is written to the crawling log through `CustomError.Error()`, as
`Error: <message> (Code: <code>)`.

This project models those two pieces:

- `decimal.dfy` (module `Decimal`): Go's `%d` rendering of an `int`, and its inverse.
- `custom_error.dfy` (module `CustomErrors`): the `CustomError` record and its
  `Error()` text (`Render`). `ParseRendered` reads that text back, and a round-trip
  lemma shows that no two records share a log line.
- `url_validity.dfy` (module `UrlValidity`): the parsed-URL record, the five
  error values with the source's literal messages, and the specification
  function `Violations`. `CheckUrlValidity` is a method that appends to a local
  list check by check, as the Go code does, and it is proved equal to
  `Violations`. The lemmas state each rule as "this entry appears if and only if
  this condition holds". They also state the checking order, the bound of four
  entries and the codes that can occur.

`url.Parse` is a library call, so its result is an input: `Parsed(Url(scheme, path, rawQuery, fragment))` or `ParseFailed`.

The code's messages are modelled exactly as written. They do not always describe their condition:

- The query/fragment entry (web_crawler.go:68) says the query or fragment "is empty", but it is reported when one of them is not empty.
- The casing entry (web_crawler.go:76) mentions "hyphens", but the check looks for underscores.

The parse-failure path is treated as described under "## Findings".

## Model

| member | source | states |
|---|---|---|
| `Decimal.NatToDecimal` | web_crawler.go:28 | the `%d` text of a non-negative code is a non-empty digit string with no leading zero |
| `Decimal.IntToDecimal` | web_crawler.go:28 | `%d` text starts with `-` exactly when the code is negative; the rest is a non-empty digit string without a leading zero, and it reads back as the code's magnitude |
| `Decimal.DecimalRoundTrip` | web_crawler.go:28 | reading the printed digits back gives the original number |
| `CustomErrors.Render` | web_crawler.go:27-29 | `Error()` text starts with `Error: `, carries the message right after it, and ends with `)` |
| `CustomErrors.RenderRoundTrip` | web_crawler.go:27-29 | message and code can be recovered from the rendered line: parsing `Error()`'s output gives back the same record |
| `CustomErrors.RenderInjective` | web_crawler.go:27-29 | two records render the same line if and only if they are equal |
| `UrlValidity.ToLower` | web_crawler.go:74 | lower-casing keeps the length and maps each character on its own |
| `UrlValidity.ToLowerFixpoint` | web_crawler.go:74 | a path equals its lower-case form if and only if it has no upper-case letter |
| `UrlValidity.CasingRuleIsDeclarative` | web_crawler.go:73-79 | the casing test (the path differs from its lower-case form, or contains `_`) holds if and only if some path character is upper-case or `_` |
| `UrlValidity.CheckUrlValidity` | web_crawler.go:32-83 | the step-by-step appends return exactly `Violations` of the parse outcome |
| `UrlValidity.AcceptedIffAllRulesHold` | web_crawler.go:44-82 | a parsed URL gets an empty list if and only if its scheme is `http`/`https`, its path has at most 100 characters, its query and fragment are empty and its path has no upper-case letter and no `_` |
| `UrlValidity.SchemeReported` | web_crawler.go:44-51 | a scheme other than exactly `http` or `https` (case-sensitive) gives the HTTP error exactly once, and an allowed one never gives it |
| `UrlValidity.SchemeIsOnlyCode400` | web_crawler.go:44-51 | for a parsed URL, the number of code-400 entries is 1 when the scheme is not allowed and 0 when it is |
| `UrlValidity.PathLengthReported` | web_crawler.go:53-63 | a path over 100 characters gives the length entry exactly once; a path of 100 or fewer gives none |
| `UrlValidity.QueryOrFragmentReported` | web_crawler.go:65-71 | a non-empty query, fragment, or both give exactly one query/fragment entry; neither gives none |
| `UrlValidity.CasingReported` | web_crawler.go:73-79 | an upper-case letter, an underscore, or both in the path give exactly one casing entry; a clean path gives none |
| `UrlValidity.ReportedInRuleOrder` | web_crawler.go:44-82 | for a parsed URL, every entry is one of the four rule errors and they appear in checking order. So there are at most four entries, and each has code 400 or 199 |
| `UrlValidity.ParseFailureIsOnlyCode500` | web_crawler.go:34-42 | a failed parse gives the parsing error (code 500) and nothing else; no parsed URL gives code 500 |
| `UrlValidity.GuardedInRuleOrder` | web_crawler.go:44-82 | whichever of the four checks fail, their entries come out in checking order, at most four of them, each with code 400 or 199 |
| `UrlValidity.CheckAsWritten` | web_crawler.go:32-83 | the source's steps as written (nil URL after a failed parse, the 500 append, the scheme read, the four guarded appends): it panics exactly when parsing failed, and at that point it has appended only the parsing error |
| `UrlValidity.ParseFailureCrashesAsWritten` | web_crawler.go:34-45 | the as-written steps crash on a failed parse holding exactly the list the corrected checker returns, and on every parsed URL they return `Violations` |

## Left out

- The desktop interface in `main` is not modelled (web_crawler.go:88-178): the window, entry, labels, form, buttons and reset handler are presentation code.
- Crawling through colly is not modelled (web_crawler.go:117-133, 152): the collector, `Visit`, and the `OnScraped`/`OnError` callbacks belong to a third-party library whose behaviour is not visible here.
- The buffered-channel limit of 10 concurrent requests, the goroutines and the `sync.WaitGroup` are not modelled (web_crawler.go:110-159). They are concurrency, and the log label they update is written from several goroutines.
- The splitting of the input line on whitespace (`strings.Fields`, web_crawler.go:106) is not modelled: it is a library call inside the interface handler.
- The "limit to 25" hint (web_crawler.go:167) is not modelled: it is label text and is never enforced.
- `url.Parse` is not modelled. Its outcome is the input `ParseOutcome`, and its errors and field decoding are library behaviour.
- UrlValidity.ToLower: it uses ASCII case mapping (`A`-`Z` only). Go's `strings.ToLower` is Unicode-aware, so the model does not capture a non-ASCII upper-case letter that would break the casing rule.
- UrlValidity.PathLengthReported: it measures the path in characters. Go's `len` counts bytes, so the model assumes ASCII paths.
- CustomErrors.Render: it renders the code as an unbounded integer. Go's `int` is at most 64 bits wide, and every value it can hold renders the same way.
- UrlValidity.SchemeReported: it compares the scheme exactly as the code does, so `HTTP` breaks the rule. But Go's `url.Parse` lowercases the scheme before the check runs, so the real program accepts `HTTP://example.com`. The model takes the parsed scheme as input and does not require it to be lower-case, so it also covers upper-case schemes that `url.Parse` never produces.

## Findings

| source | as written | input that shows it | evidently intended | confidence | as-written member | corrected member |
|---|---|---|---|---|---|---|
| web_crawler.go:36-45 | after a failed parse, the code appends the parsing error, does not return, and reads `u.Scheme` with `u` nil | `:foo` (url.Parse reports a missing protocol scheme), or any other string url.Parse rejects | return the parsing error alone and skip the checks on the missing fields | high, not executed | `UrlValidity.ParseFailureCrashesAsWritten` | `UrlValidity.ParseFailureIsOnlyCode500` |
