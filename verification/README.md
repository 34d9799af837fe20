# Ingress rules of the cloudflared tunnel agent, in Dafny

This project models the ingress-routing rule language of the cloudflared
tunnel agent. A configuration document holds an `ingress` list of rules,
each with an optional `hostname`, an optional `path` regular expression and
a `service` URL. Two operations are modelled:

- **parseIngress** (`IngressParse.Compile`) checks the decoded list and
  returns either the routing table, with the rules in the same order and
  the same fields, or an error and no table at all. The checks are: the
  list is non-empty; every service is an absolute reference
  `scheme://host…` whose host has no space or control character; every path
  pattern compiles; the last rule, and only the last, is a catch-all
  (hostname `""` or `"*"`); a catch-all carries no path.
- **rule.matches** (`IngressRules.Matches`) is the conjunction of two tests:
  - The hostname test: `""` and `"*"` match any host. A pattern starting
    with `*.` matches any host ending in the pattern without its `*`. Any
    other pattern must equal the host.
  - The path test: it passes when the rule has no path, and otherwise when
    the pattern finds a match in the request path.

  `IngressRules.FindMatch` is a companion built on rule.matches, not a
  function of the test file: the first-match-wins lookup over an ordered
  table, which is what the routing table is for.

The headline result is `IngressParse.CompiledTableRoutesEveryRequest`. Every
table that parseIngress accepts routes every request to some rule, because
its last rule is a path-less catch-all.

Files, one module each:

- `results.dfy`: `Option`, and a `Result` that holds either a value or an error.
- `service_url.dfy`: the service reference, its parser and its text form.
- `ingress_rules.dfy`: rules, the hostname and path tests, the table
  invariants and the lookup.
- `parse_ingress.dfy`: raw rules, the compiler and its properties.
- `ingress_examples.dfy`: every case of `Test_parseIngress` and of
  `Test_rule_matches`, stated as a lemma.

The behaviour is taken from the table-driven tests in
`cmd/cloudflared/tunnel/ingress_test.go`. The implementation file of
parseIngress and rule.matches is not part of this model. Where the tests
leave a choice open, the model makes its own choice, and each one is listed
here with its reason:

- **Catch-all by hostname.** A rule is a catch-all when its hostname is `""`
  or `"*"`, whatever its path. A catch-all is refused anywhere except the
  last position, and also whenever it has a path. The tests cannot tell this
  apart from the other reading, in which a `*` rule with a path is an
  ordinary rule. The difference shows in a list such as
  `[{hostname: "*", path: "/api", service: …}, {service: …}]`: the model
  refuses it (`IngressParse.CatchAllWithPathRejected`), and the other reading
  would accept it. The model's reason is that its rule language classifies a
  rule by its hostname alone. So no `*` or `""` rule may stand before the
  last one, and the one at the end must take every path.
- **Error order.** Faults in a rule's service or path are reported first:
  `CompileAll` checks every rule in turn, service then path, and reports the
  first rule that fails. Placement faults are looked for only after every
  rule compiles, and `TableError` then reports the first misplaced rule. So a
  misplaced catch-all at position 0 followed by a bad service at position 1
  reports the service (`IngressParse.RuleFaultsReportedFirst`,
  `IngressExamples.ServiceFaultBeforeMisplacedCatchAll`). The tests only
  check that some error occurs, so any order satisfies them.
- **Empty path.** An empty `path` is treated as no path, as Go decodes an
  omitted string field to `""`.
- **Empty wildcard label.** The tests do not decide whether the first label
  may be empty. `MatchesHost` uses the plain test
  `HasSuffix(host, pattern[1..])`, so `.example.com` matches
  `*.example.com`. The same test gives what the tests require:
  `*.example.com` matches `adam.example.com` and `adam.chalmers.example.com`
  but not `tunnel.com`. It also rules out `example.com` and `xexample.com`.
  `IngressRules.WildcardMatchesSubdomains` states exactly which hosts match.

## Model

| member | source | states |
|---|---|---|
| `ServiceUrl.ParseService` | cmd/cloudflared/tunnel/ingress_test.go:13-16 | a service string that parses gives a reference with a valid scheme, a non-empty host without space or control character and an empty or absolute path, and formatting that reference gives back exactly the input string |
| `ServiceUrl.ParseFormatted` | cmd/cloudflared/tunnel/ingress_test.go:79-85 | for the text `scheme://host…` of any reference with a valid scheme, a host without `/` and a path that is empty or starts with `/`: parsing fails with IllegalHost exactly when the host holds a space or control character (`local host:8000`), fails when the host is empty, and otherwise returns that very reference |
| `ServiceUrl.ParseFormat` | cmd/cloudflared/tunnel/ingress_test.go:40-48 | round trip: every valid reference formats and parses back to itself, so a compiled rule carries the parse of its service text |
| `ServiceUrl.FormatInjective` | cmd/cloudflared/tunnel/ingress_test.go:13-16 | two valid references with the same text are equal, so the service text determines the compiled service |
| `ServiceUrl.SchemeWithoutSlashesRejected` | cmd/cloudflared/tunnel/ingress_test.go:134-139 | text whose first `:` is not followed by `/` (such as `localhost:8000`) is refused with NoSchemeOrHost |
| `ServiceUrl.IndexOf` | cmd/cloudflared/tunnel/ingress_test.go:134-139 | the position found holds the character and no earlier position does; None means the character does not occur (the scheme ends at the first `:`) |
| `IngressRules.Matches` | cmd/cloudflared/tunnel/ingress_test.go:259-270 | rule.matches: no contract of its own; it is the conjunction of `MatchesHost` and `MatchesPath`, and its behaviour is stated by `WildcardMatchesSubdomains`, `LiteralHostnameIsExact` and `CatchAllMatchesAll` |
| `IngressRules.MatchesHost` | cmd/cloudflared/tunnel/ingress_test.go:177-246 | the hostname test of rule.matches: no contract of its own; its behaviour is stated by `WildcardMatchesSubdomains` (`*.` patterns), `LiteralHostnameIsExact` (other patterns) and `CatchAllMatchesAll` (`""` and `*`) |
| `IngressRules.MatchesPath` | cmd/cloudflared/tunnel/ingress_test.go:248-256 | the path test of rule.matches: no contract of its own; no path passes every request path (`CatchAllMatchesAll`), and a path passes exactly when the regular-expression library finds a match (`IngressExamples.HostnameAndPath`) |
| `IngressRules.FindMatch` | cmd/cloudflared/tunnel/ingress_test.go:259-270 | a companion built on rule.matches, not a function of the source (the cited loop applies `matches` to one rule at a time): the first-match-wins lookup, where the index returned is of a rule whose hostname and path tests both pass and no earlier rule passes; None only when no rule passes |
| `IngressRules.FirstMatchWins` | cmd/cloudflared/tunnel/ingress_test.go:259-270 | of the companion lookup built on rule.matches, not of a function of the source: the first rule that matches is the one returned, so an earlier rule has priority over the catch-all |
| `IngressRules.CatchAllMatchesAll` | cmd/cloudflared/tunnel/ingress_test.go:187-196 | a rule with hostname `""` or `*` and no path matches every host and path |
| `IngressRules.ValidTableIsTotal` | cmd/cloudflared/tunnel/ingress_test.go:94-112 | every request finds a rule in a table that keeps the invariants (catch-all last, without a path) |
| `IngressRules.CatchAllChosenIffNoEarlierMatch` | cmd/cloudflared/tunnel/ingress_test.go:103-112 | in such a table the last rule is chosen if and only if no earlier rule matches |
| `IngressRules.WildcardMatchesSubdomains` | cmd/cloudflared/tunnel/ingress_test.go:207-246 | `*.domain` matches a host if and only if the host is some prefix, a dot, then `domain` |
| `IngressRules.WildcardSkipsApex` | cmd/cloudflared/tunnel/ingress_test.go:217-226 | `*.domain` does not match `domain` itself |
| `IngressRules.LiteralHostnameIsExact` | cmd/cloudflared/tunnel/ingress_test.go:227-236 | a hostname that is neither a catch-all nor of the form `*.…` (such as `*example.com`) matches a host if and only if it equals it |
| `IngressParse.CompileRule` | cmd/cloudflared/tunnel/ingress_test.go:40-48 | one raw rule compiles if and only if its service parses and its path, if any, compiles; the compiled rule keeps hostname, service text and path pattern; a failure names that rule's position |
| `IngressParse.CompileAll` | cmd/cloudflared/tunnel/ingress_test.go:122-132 | the rules compile, in order, if and only if each one does; the result has one compiled rule per raw rule keeping its fields; a failure reports the first rule that does not compile and every earlier rule is fine |
| `IngressParse.TableError` | cmd/cloudflared/tunnel/ingress_test.go:94-121 | no error if and only if every rule is well placed (catch-all exactly at the last position, catch-all without path); an error names the first misplaced rule |
| `IngressParse.Compile` | cmd/cloudflared/tunnel/ingress_test.go:142-151 | parseIngress: an input that does not decode gives ParseError; a table returned has one rule per raw rule and keeps each one's hostname, service text and path; every table returned keeps the routing-table invariants. `CompileSucceedsIff`, `CompileAcceptable` and `CompiledTableIsValid` state the rest |
| `IngressParse.RuleFaultsReportedFirst` | cmd/cloudflared/tunnel/ingress_test.go:122-140 | when any rule has a bad service or path, parseIngress fails and reports the first such rule, before any placement fault |
| `IngressParse.CompileSucceedsIff` | cmd/cloudflared/tunnel/ingress_test.go:142-151 | parseIngress returns a table if and only if the document decoded and its rules are non-empty, each well formed, the last and only the last a catch-all, and no catch-all with a path; otherwise it returns an error and no table |
| `IngressParse.CompilePreservesRules` | cmd/cloudflared/tunnel/ingress_test.go:31-50 | an accepted document compiles to one rule per raw rule, in the same order, keeping hostname (omitted read as `""`), service text and path pattern |
| `IngressParse.CompileAcceptable` | cmd/cloudflared/tunnel/ingress_test.go:31-50 | an acceptable document compiles to exactly the rules that keep its fields, in order (the compiled table is unique) |
| `IngressParse.CompiledTableIsValid` | cmd/cloudflared/tunnel/ingress_test.go:94-131 | every table returned keeps the routing-table invariants |
| `IngressParse.CompiledTableRoutesEveryRequest` | cmd/cloudflared/tunnel/ingress_test.go:94-112 | every request finds a rule in every table returned |
| `IngressParse.NothingToCompile` | cmd/cloudflared/tunnel/ingress_test.go:26-30 | a document that does not decode fails with ParseError; one without rules (the empty file) fails with NoRules |
| `IngressParse.OtherKeysIgnored` | cmd/cloudflared/tunnel/ingress_test.go:51-65 | top-level keys other than `ingress` do not change the result |
| `IngressParse.OmittedHostnameIsCatchAll` | cmd/cloudflared/tunnel/ingress_test.go:66-77 | an omitted hostname is a catch-all, and omitting it gives the same result as writing the empty hostname |
| `IngressParse.LastRuleMustBeCatchAll` | cmd/cloudflared/tunnel/ingress_test.go:94-102 | a list whose last rule is not a catch-all is refused, whatever comes before it |
| `IngressParse.EarlyCatchAllRejected` | cmd/cloudflared/tunnel/ingress_test.go:103-112 | a catch-all before the last position is refused |
| `IngressParse.CatchAllWithPathRejected` | cmd/cloudflared/tunnel/ingress_test.go:113-121 | a catch-all with a path is refused |
| `IngressParse.InvalidPathRejected` | cmd/cloudflared/tunnel/ingress_test.go:122-132 | a rule whose path pattern does not compile is refused |
| `IngressParse.InvalidServiceRejected` | cmd/cloudflared/tunnel/ingress_test.go:133-140 | a rule whose service does not parse is refused |
| `IngressExamples.ServiceText8000` | cmd/cloudflared/tunnel/ingress_test.go:13-14 | the reference used for `https://localhost:8000` formats to exactly that text |
| `IngressExamples.ServiceText8001` | cmd/cloudflared/tunnel/ingress_test.go:15-16 | the reference used for `https://localhost:8001` formats to exactly that text |
| `IngressExamples.ServiceTextLocalSpaceHost` | cmd/cloudflared/tunnel/ingress_test.go:83 | the reference used for `https://local host:8000` formats to exactly that text |
| `IngressExamples.EmptyFile` | cmd/cloudflared/tunnel/ingress_test.go:26-30 | the empty file fails with NoRules |
| `IngressExamples.MultipleRules` | cmd/cloudflared/tunnel/ingress_test.go:31-50 | the two-rule case compiles to exactly the two expected rules, in order |
| `IngressExamples.NamedThenCatchAll` | cmd/cloudflared/tunnel/ingress_test.go:33-39 | any named rule followed by a `*` rule, both with services that parse, compiles to those two rules carrying the parsed services |
| `IngressExamples.ExtraKeys` | cmd/cloudflared/tunnel/ingress_test.go:51-65 | the case with `extraKey` compiles to the single `*` rule |
| `IngressExamples.LoneCatchAll` | cmd/cloudflared/tunnel/ingress_test.go:52-76 | a single catch-all rule whose service parses compiles to that rule with the parsed service, whatever the other top-level keys |
| `IngressExamples.HostnameCanBeOmitted` | cmd/cloudflared/tunnel/ingress_test.go:66-77 | a rule without hostname compiles to a rule with hostname `""` |
| `IngressExamples.SpaceInServiceHost` | cmd/cloudflared/tunnel/ingress_test.go:78-86 | `https://local host:8000` is refused |
| `IngressExamples.ServiceFaultBeforeMisplacedCatchAll` | cmd/cloudflared/tunnel/ingress_test.go:103-112 | a catch-all at position 0 followed by a rule whose service is `x` fails with InvalidService at position 1, not with the misplaced catch-all |
| `IngressExamples.InvalidYaml` | cmd/cloudflared/tunnel/ingress_test.go:87-93 | a document that does not decode fails with ParseError |
| `IngressExamples.LastRuleIsNotCatchAll` | cmd/cloudflared/tunnel/ingress_test.go:94-102 | a lone `example.com` rule is refused |
| `IngressExamples.FirstRuleIsCatchAll` | cmd/cloudflared/tunnel/ingress_test.go:103-112 | a catch-all followed by `example.com` is refused |
| `IngressExamples.CatchAllCannotHavePath` | cmd/cloudflared/tunnel/ingress_test.go:113-121 | a catch-all with path `/subpath1/(.*)/subpath2` is refused |
| `IngressExamples.InvalidRegex` | cmd/cloudflared/tunnel/ingress_test.go:122-132 | when `*/subpath2` does not compile, the list using it is refused |
| `IngressExamples.ServiceMustHaveScheme` | cmd/cloudflared/tunnel/ingress_test.go:133-140 | `localhost:8000` is refused as a service |
| `IngressExamples.JustHostnamePass` | cmd/cloudflared/tunnel/ingress_test.go:177-186 | `example.com` matches `example.com` |
| `IngressExamples.WholeHostnameWildcard` | cmd/cloudflared/tunnel/ingress_test.go:187-196 | `*` matches `example.com` |
| `IngressExamples.JustHostnameFail` | cmd/cloudflared/tunnel/ingress_test.go:197-206 | `example.com` does not match `foo.bar` |
| `IngressExamples.WildcardHostnamePass` | cmd/cloudflared/tunnel/ingress_test.go:207-216 | `*.example.com` matches `adam.example.com` |
| `IngressExamples.WildcardHostnameFail` | cmd/cloudflared/tunnel/ingress_test.go:217-226 | `*.example.com` does not match `tunnel.com` |
| `IngressExamples.StarOutsideSubdomainIsLiteral` | cmd/cloudflared/tunnel/ingress_test.go:227-236 | `*example.com` does not match `www.example.com` |
| `IngressExamples.WildcardOverSeveralLabels` | cmd/cloudflared/tunnel/ingress_test.go:237-246 | `*.example.com` matches `adam.chalmers.example.com` |
| `IngressExamples.HostnameAndPath` | cmd/cloudflared/tunnel/ingress_test.go:247-257 | with hostname `*.example.com` and path `/static/.*\.html`, the request `www.example.com` `/static/index.html` matches if and only if the pattern finds a match in the path |

## Left out

- YAML decoding is not modelled. The input is the decoded document
  (`Decoded`), and a document that does not decode is the separate outcome
  `Malformed`. Other top-level keys are kept only as a set of names.
- Go's `url.Parse` is replaced by `ServiceUrl.ParseService`. The replacement
  reads a scheme up to the first `:`, then `//`, then the host up to the
  first `/`. It differs from `url.Parse` in these ways:
  - It does not split off a query or fragment, so they stay in the host.
    As a result `https://localhost?a b` is refused with IllegalHost, which
    `url.Parse` accepts.
  - It keeps the scheme as written: `HTTPS://x` gives scheme `HTTPS`, where
    `url.Parse` lower-cases it.
  - It refuses only spaces and control characters in the host. A host
    holding `{`, `|`, `^`, `` ` `` or `\`, such as `local{host`, is
    accepted, which `url.Parse` refuses.
  - It does not decode percent-escapes or handle bracketed IPv6 hosts.
  - It checks for control characters only in the host.
  - It accepts a host made only of a port (`:8000`).
- Regular-expression compilation and search are not modelled. They belong
  to Go's `regexp` library and enter as the parameter
  `RegexEngine(compiles, finds)`. The cases with `*/subpath2` and
  `/static/.*\.html` take that library's answer as a premise.
- The request URL is not parsed. `Matches` takes the request's host name
  (without port) and its path directly.
- The test harness is not modelled (testify, `reflect.DeepEqual`, `t.Run`).
  Go's nil table on error is the `Failure` case of `Result`, which has no
  table in it.
- Error message texts are not modelled; `IngressError` only says which
  check failed.
- Configuration loading and reload, the atomic table swap, concurrent
  readers, and forwarding to the matched service are not modelled. They are
  I/O and concurrency outside the rule language.
- `IngressExamples.MultipleRules`, `ExtraKeys`, `HostnameCanBeOmitted` and
  `SpaceInServiceHost` write each service as `Format` of the reference it
  stands for. `IngressExamples.ServiceText8000`, `ServiceText8001` and
  `ServiceTextLocalSpaceHost` show that these `Format`s spell exactly the
  strings of the test cases.
