/**
 * The table-driven cases for parseIngress and rule.matches, stated as lemmas
 * over the model. Documents appear already decoded. A service written
 * `https://localhost:8000` in a case is written here as the Format of the
 * reference it parses to; ServiceText8000 and its siblings tie each such
 * Format to its text.
 */
module IngressExamples {
  import opened Results
  import opened ServiceUrl
  import opened IngressRules
  import opened IngressParse

  const Localhost8000: Url := Url("https", "localhost:8000", "")
  const Localhost8001: Url := Url("https", "localhost:8001", "")
  /** What `https://local host:8000` would be if a host could hold a space. */
  const LocalSpaceHost: Url := Url("https", "local host:8000", "")

  // Each service reference spells exactly the text the configuration gives.

  lemma ServiceText8000()
    ensures Format(Localhost8000) == "https://localhost:8000"
  {
  }

  lemma ServiceText8001()
    ensures Format(Localhost8001) == "https://localhost:8001"
  {
  }

  lemma ServiceTextLocalSpaceHost()
    ensures Format(LocalSpaceHost) == "https://local host:8000"
  {
  }

  lemma LocalhostIsValid()
    ensures ValidUrl(Localhost8000) && ValidUrl(Localhost8001)
  {
    assert ValidScheme("https");
    LocalhostPortIsValid("8000");
    LocalhostPortIsValid("8001");
    assert Localhost8000.host == "localhost:" + "8000";
    assert Localhost8001.host == "localhost:" + "8001";
  }

  /** Both local services parse to their references. */
  lemma LocalhostParses()
    ensures ParseService(Format(Localhost8000)) == Success(Localhost8000)
    ensures ParseService(Format(Localhost8001)) == Success(Localhost8001)
  {
    LocalhostIsValid();
    ParseFormat(Localhost8000);
    ParseFormat(Localhost8001);
  }

  /** `localhost:` followed by digits is a valid host. */
  lemma LocalhostPortIsValid(port: string)
    requires forall i :: 0 <= i < |port| ==> '0' <= port[i] <= '9'
    ensures ValidHost("localhost:" + port)
  {
    var h := "localhost:" + port;
    forall i | 0 <= i < |h| ensures h[i] != '/' && !IllegalHostChar(h[i]) {
      if i >= 10 {
        assert h[i] == port[i - 10];
      }
    }
  }

  lemma EmptyFile(engine: RegexEngine)
    ensures Compile(Doc(Document([], {})), engine) == Failure(NoRules)
  {
  }

  /** A named rule followed by a `*` catch-all, both with services that parse, compiles to those two rules. */
  lemma NamedThenCatchAll(hostname: string, firstText: string, first: Url, lastText: string, last: Url, engine: RegexEngine)
    requires !IsCatchAllHostname(hostname)
    requires ParseService(firstText) == Success(first) && ParseService(lastText) == Success(last)
    ensures Compile(Doc(Document([RawRule(Some(hostname), None, firstText), RawRule(Some("*"), None, lastText)], {})), engine)
         == Success([Rule(hostname, None, first), Rule("*", None, last)])
  {
    var raws := [RawRule(Some(hostname), None, firstText), RawRule(Some("*"), None, lastText)];
    var rules := [Rule(hostname, None, first), Rule("*", None, last)];
    TwoRulesAcceptable(raws, engine);
    TwoRulesPreserved(raws, rules);
    CompileAcceptable(Document(raws, {}), engine, rules);
  }

  lemma TwoRulesAcceptable(raws: seq<RawRule>, engine: RegexEngine)
    requires |raws| == 2 && raws[0].path.None? && raws[1].path.None?
    requires raws[0].hostname.Some? && !IsCatchAllHostname(raws[0].hostname.value) && raws[1].hostname == Some("*")
    requires ParseService(raws[0].service).Success? && ParseService(raws[1].service).Success?
    ensures Acceptable(raws, engine)
  {
    forall i | 0 <= i < 2 ensures RawRuleOk(raws[i], engine) && (i < 1 <==> !IsCatchAllHostname(HostnameOf(raws[i]))) {
      if i == 1 {
        assert HostnameOf(raws[i]) == "*";
      }
    }
    assert CatchAllPlacement(raws);
  }

  lemma TwoRulesPreserved(raws: seq<RawRule>, rules: seq<Rule>)
    requires |raws| == 2 && |rules| == 2
    requires PlainRuleOf(raws[0], rules[0]) && PlainRuleOf(raws[1], rules[1])
    ensures forall i :: 0 <= i < 2 ==> Preserves(raws[i], rules[i]) && ValidUrl(rules[i].service)
  {
    PlainRulePreserved(raws[0], rules[0]);
    PlainRulePreserved(raws[1], rules[1]);
    forall i | 0 <= i < 2 ensures Preserves(raws[i], rules[i]) && ValidUrl(rules[i].service) {
      if i == 0 {
      } else {
        assert i == 1;
      }
    }
  }

  /** `rule` is what a raw rule with a hostname, no path and a service that parses should compile to. */
  predicate PlainRuleOf(raw: RawRule, rule: Rule) {
    && raw.path.None? && raw.hostname == Some(rule.hostname) && rule.path.None?
    && ParseService(raw.service) == Success(rule.service)
  }

  lemma PlainRulePreserved(raw: RawRule, rule: Rule)
    requires PlainRuleOf(raw, rule)
    ensures Preserves(raw, rule) && ValidUrl(rule.service)
  {
  }

  /** A single catch-all rule whose service parses compiles to itself, whatever the other keys are. */
  lemma LoneCatchAll(hostname: Option<string>, text: string, service: Url, keys: set<string>, engine: RegexEngine)
    requires hostname == None || hostname == Some("*") || hostname == Some("")
    requires ParseService(text) == Success(service)
    ensures Compile(Doc(Document([RawRule(hostname, None, text)], keys)), engine)
         == Success([Rule(HostnameOf(RawRule(hostname, None, text)), None, service)])
  {
    var raw := RawRule(hostname, None, text);
    assert Acceptable([raw], engine);
    CompileAcceptable(Document([raw], keys), engine, [Rule(HostnameOf(raw), None, service)]);
  }

  lemma MultipleRules(engine: RegexEngine)
    ensures Compile(Doc(Document([
              RawRule(Some("tunnel1.example.com"), None, Format(Localhost8000)),
              RawRule(Some("*"), None, Format(Localhost8001))], {})), engine)
         == Success([Rule("tunnel1.example.com", None, Localhost8000), Rule("*", None, Localhost8001)])
  {
    LocalhostParses();
    NamedThenCatchAll("tunnel1.example.com", Format(Localhost8000), Localhost8000, Format(Localhost8001), Localhost8001, engine);
  }

  lemma ExtraKeys(engine: RegexEngine)
    ensures Compile(Doc(Document([RawRule(Some("*"), None, Format(Localhost8000))], {"extraKey"})), engine)
         == Success([Rule("*", None, Localhost8000)])
  {
    LocalhostParses();
    LoneCatchAll(Some("*"), Format(Localhost8000), Localhost8000, {"extraKey"}, engine);
  }

  lemma HostnameCanBeOmitted(engine: RegexEngine)
    ensures Compile(Doc(Document([RawRule(None, None, Format(Localhost8000))], {})), engine)
         == Success([Rule("", None, Localhost8000)])
  {
    LocalhostParses();
    LoneCatchAll(None, Format(Localhost8000), Localhost8000, {}, engine);
  }

  lemma SpaceInServiceHost(engine: RegexEngine)
    ensures Compile(Doc(Document([RawRule(Some("*"), None, Format(LocalSpaceHost))], {})), engine).Failure?
  {
    assert ValidScheme("https");
    assert IllegalHostChar(LocalSpaceHost.host[5]);
    ParseFormatted(LocalSpaceHost);
    InvalidServiceRejected(Document([RawRule(Some("*"), None, Format(LocalSpaceHost))], {}), 0, engine);
  }

  /** A bad service at position 1 is reported although the catch-all at position 0 is misplaced. */
  lemma ServiceFaultBeforeMisplacedCatchAll(engine: RegexEngine)
    ensures Compile(Doc(Document([
              RawRule(None, None, Format(Localhost8000)),
              RawRule(Some("a"), None, "x")], {})), engine)
         == Failure(InvalidService(1, NoSchemeOrHost))
  {
    var raws := [RawRule(None, None, Format(Localhost8000)), RawRule(Some("a"), None, "x")];
    LocalhostParses();
    assert ParseService("x") == Failure(NoSchemeOrHost);
    assert raws[1..] == [RawRule(Some("a"), None, "x")];
    assert CompileAll(raws[1..], 1, engine) == Failure(InvalidService(1, NoSchemeOrHost));
    assert CompileAll(raws, 0, engine) == Failure(InvalidService(1, NoSchemeOrHost));
  }

  lemma InvalidYaml(engine: RegexEngine)
    ensures Compile(Malformed, engine) == Failure(ParseError)
  {
  }

  lemma LastRuleIsNotCatchAll(engine: RegexEngine)
    ensures Compile(Doc(Document([RawRule(Some("example.com"), None, Format(Localhost8000))], {})), engine).Failure?
  {
    LastRuleMustBeCatchAll(Document([RawRule(Some("example.com"), None, Format(Localhost8000))], {}), engine);
  }

  lemma FirstRuleIsCatchAll(engine: RegexEngine)
    ensures Compile(Doc(Document([
              RawRule(None, None, Format(Localhost8000)),
              RawRule(Some("example.com"), None, Format(Localhost8000))], {})), engine).Failure?
  {
    LastRuleMustBeCatchAll(Document([
      RawRule(None, None, Format(Localhost8000)),
      RawRule(Some("example.com"), None, Format(Localhost8000))], {}), engine);
  }

  lemma CatchAllCannotHavePath(engine: RegexEngine)
    ensures Compile(Doc(Document([RawRule(None, Some("/subpath1/(.*)/subpath2"), Format(Localhost8001))], {})), engine).Failure?
  {
    CatchAllWithPathRejected(Document([RawRule(None, Some("/subpath1/(.*)/subpath2"), Format(Localhost8001))], {}), 0, engine);
  }

  // The regular-expression library refuses the pattern `*/subpath2`; here that is the premise.
  lemma InvalidRegex(engine: RegexEngine)
    requires !engine.compiles("*/subpath2")
    ensures Compile(Doc(Document([
              RawRule(Some("example.com"), Some("*/subpath2"), Format(Localhost8000)),
              RawRule(None, None, Format(Localhost8001))], {})), engine).Failure?
  {
    InvalidPathRejected(Document([
      RawRule(Some("example.com"), Some("*/subpath2"), Format(Localhost8000)),
      RawRule(None, None, Format(Localhost8001))], {}), 0, engine);
  }

  lemma ServiceMustHaveScheme(engine: RegexEngine)
    ensures Compile(Doc(Document([RawRule(None, None, "localhost:8000")], {})), engine).Failure?
  {
    var s := "localhost:8000";
    assert s == "localhost" + ":" + "8000";
    SchemeWithoutSlashesRejected("localhost", "8000");
    InvalidServiceRejected(Document([RawRule(None, None, s)], {}), 0, engine);
  }

  lemma JustHostnamePass(engine: RegexEngine, service: Url)
    ensures Matches(Rule("example.com", None, service), "example.com", "", engine)
  {
  }

  lemma WholeHostnameWildcard(engine: RegexEngine, service: Url)
    ensures Matches(Rule("*", None, service), "example.com", "", engine)
  {
  }

  lemma JustHostnameFail(engine: RegexEngine, service: Url)
    ensures !Matches(Rule("example.com", None, service), "foo.bar", "", engine)
  {
  }

  lemma WildcardHostnamePass(engine: RegexEngine, service: Url)
    ensures Matches(Rule("*.example.com", None, service), "adam.example.com", "", engine)
  {
    var host := "adam.example.com";
    assert host[4..] == ".example.com";
    assert MatchesHost("*.example.com", host);
  }

  lemma WildcardHostnameFail(engine: RegexEngine, service: Url)
    ensures !Matches(Rule("*.example.com", None, service), "tunnel.com", "", engine)
  {
  }

  /** `*example.com` is not a wildcard: only the literal host `*example.com` matches it. */
  lemma StarOutsideSubdomainIsLiteral(engine: RegexEngine, service: Url)
    ensures !Matches(Rule("*example.com", None, service), "www.example.com", "", engine)
  {
  }

  lemma WildcardOverSeveralLabels(engine: RegexEngine, service: Url)
    ensures Matches(Rule("*.example.com", None, service), "adam.chalmers.example.com", "", engine)
  {
    var host := "adam.chalmers.example.com";
    assert host[13..] == ".example.com";
    assert MatchesHost("*.example.com", host);
  }

  /** With a path pattern both tests must pass; whether the pattern finds a match is the engine's premise. */
  lemma HostnameAndPath(engine: RegexEngine, service: Url)
    ensures Matches(Rule("*.example.com", Some(Pattern("/static/.*\\.html")), service), "www.example.com", "/static/index.html", engine)
        <==> engine.finds("/static/.*\\.html", "/static/index.html")
  {
    var host := "www.example.com";
    assert host[3..] == ".example.com";
    assert MatchesHost("*.example.com", host);
  }
}
