/**
 * One ingress rule and how it matches a request: the hostname test, the path
 * test, and the first-match-wins lookup over an ordered table.
 */
module IngressRules {
  import opened Results
  import opened ServiceUrl

  /**
   * The regular-expression library is outside the model. It is a parameter:
   * `compiles(p)` says whether pattern source `p` compiles, and
   * `finds(p, s)` whether the compiled `p` finds a match anywhere in `s`.
   */
  datatype RegexEngine = RegexEngine(compiles: string -> bool, finds: (string, string) -> bool)

  /** A compiled path pattern, kept as the source it was compiled from. */
  datatype Pattern = Pattern(source: string)

  /** One routing rule: hostname pattern, optional path pattern, target service. */
  datatype Rule = Rule(hostname: string, path: Option<Pattern>, service: Url)

  /** The empty hostname and `*` match every host. */
  predicate IsCatchAllHostname(h: string) {
    h == "" || h == "*"
  }

  predicate IsCatchAll(r: Rule) {
    IsCatchAllHostname(r.hostname)
  }

  /** A pattern of the form `*.suffix`; `*` anywhere else is an ordinary character. */
  predicate IsWildcard(pattern: string) {
    |pattern| >= 2 && pattern[0] == '*' && pattern[1] == '.'
  }

  predicate HasSuffix(s: string, suffix: string) {
    |suffix| <= |s| && s[|s| - |suffix|..] == suffix
  }

  /** The hostname test of a rule. */
  predicate MatchesHost(pattern: string, host: string) {
    if IsCatchAllHostname(pattern) then true
    else if IsWildcard(pattern) then HasSuffix(host, pattern[1..])
    else host == pattern
  }

  /** The path test of a rule: no pattern matches every path. */
  predicate MatchesPath(path: Option<Pattern>, requestPath: string, engine: RegexEngine) {
    match path
    case None => true
    case Some(p) => engine.finds(p.source, requestPath)
  }

  /** A rule matches a request when both its hostname and its path test pass. */
  predicate Matches(r: Rule, host: string, requestPath: string, engine: RegexEngine) {
    MatchesHost(r.hostname, host) && MatchesPath(r.path, requestPath, engine)
  }

  /** Rule `j` sits where the table invariants allow it. */
  predicate WellPlaced(rules: seq<Rule>, j: nat)
    requires j < |rules|
  {
    && (IsCatchAll(rules[j]) <==> j == |rules| - 1)
    && (IsCatchAll(rules[j]) ==> rules[j].path.None?)
  }

  /** The fields of a compiled rule are well formed. */
  predicate WellFormedRule(r: Rule, engine: RegexEngine) {
    ValidUrl(r.service) && (r.path.Some? ==> engine.compiles(r.path.value.source))
  }

  /**
   * The routing-table invariants: non-empty; the last rule, and only the
   * last, is a catch-all, and it has no path; every service and pattern is
   * well formed.
   */
  predicate ValidTable(rules: seq<Rule>, engine: RegexEngine) {
    && |rules| > 0
    && (forall j :: 0 <= j < |rules| ==> WellPlaced(rules, j))
    && (forall j :: 0 <= j < |rules| ==> WellFormedRule(rules[j], engine))
  }

  /** The position of the first rule that matches the request, if any. */
  function FindMatch(rules: seq<Rule>, host: string, requestPath: string, engine: RegexEngine): (r: Option<nat>)
    ensures r.Some? ==> r.value < |rules| && Matches(rules[r.value], host, requestPath, engine)
    ensures r.Some? ==> forall j :: 0 <= j < r.value ==> !Matches(rules[j], host, requestPath, engine)
    ensures r.None? ==> forall j :: 0 <= j < |rules| ==> !Matches(rules[j], host, requestPath, engine)
  {
    if rules == [] then None
    else if Matches(rules[0], host, requestPath, engine) then Some(0)
    else
      match FindMatch(rules[1..], host, requestPath, engine)
      case None => None
      case Some(i) => Some(i + 1)
  }

  /** The first matching rule is the one FindMatch returns: earlier rules have priority. */
  lemma FirstMatchWins(rules: seq<Rule>, i: nat, host: string, requestPath: string, engine: RegexEngine)
    requires i < |rules| && Matches(rules[i], host, requestPath, engine)
    requires forall j :: 0 <= j < i ==> !Matches(rules[j], host, requestPath, engine)
    ensures FindMatch(rules, host, requestPath, engine) == Some(i)
  {
  }

  /** A catch-all without a path matches every request. */
  lemma CatchAllMatchesAll(r: Rule, host: string, requestPath: string, engine: RegexEngine)
    requires IsCatchAll(r) && r.path.None?
    ensures Matches(r, host, requestPath, engine)
  {
  }

  /** Every request finds a rule in a valid table. */
  lemma {:induction false} ValidTableIsTotal(rules: seq<Rule>, host: string, requestPath: string, engine: RegexEngine)
    requires ValidTable(rules, engine)
    ensures FindMatch(rules, host, requestPath, engine).Some?
  {
    var last := |rules| - 1;
    assert WellPlaced(rules, last);
    CatchAllMatchesAll(rules[last], host, requestPath, engine);
  }

  /** In a valid table the catch-all is chosen exactly when no earlier rule matches. */
  lemma {:induction false} CatchAllChosenIffNoEarlierMatch(rules: seq<Rule>, host: string, requestPath: string, engine: RegexEngine)
    requires ValidTable(rules, engine)
    ensures FindMatch(rules, host, requestPath, engine) == Some(|rules| - 1)
        <==> forall j :: 0 <= j < |rules| - 1 ==> !Matches(rules[j], host, requestPath, engine)
  {
    ValidTableIsTotal(rules, host, requestPath, engine);
    var r := FindMatch(rules, host, requestPath, engine);
    if forall j :: 0 <= j < |rules| - 1 ==> !Matches(rules[j], host, requestPath, engine) {
      assert r.value == |rules| - 1;
    }
  }

  /** `*.domain` matches exactly the hosts made of some prefix, a dot, and `domain`. */
  lemma {:induction false} WildcardMatchesSubdomains(domain: string, host: string)
    ensures MatchesHost("*." + domain, host) <==> exists prefix :: host == prefix + "." + domain
  {
    var pattern := "*." + domain;
    assert pattern[1..] == "." + domain;
    assert IsWildcard(pattern) && |pattern| >= 2 && !IsCatchAllHostname(pattern);
    if MatchesHost(pattern, host) {
      var prefix := host[..|host| - |domain| - 1];
      assert host == prefix + host[|host| - |domain| - 1..];
      assert host == prefix + "." + domain;
    }
    if exists prefix :: host == prefix + "." + domain {
      var prefix :| host == prefix + "." + domain;
      assert host == prefix + pattern[1..];
      assert host[|prefix|..] == pattern[1..];
      assert |host| - |pattern[1..]| == |prefix|;
      assert HasSuffix(host, pattern[1..]);
      assert MatchesHost(pattern, host);
    }
  }

  /** `*.domain` does not match `domain` itself. */
  lemma WildcardSkipsApex(domain: string)
    ensures !MatchesHost("*." + domain, domain)
  {
  }

  /** A hostname that is neither a catch-all nor a `*.` wildcard matches only itself. */
  lemma LiteralHostnameIsExact(pattern: string, host: string)
    requires !IsCatchAllHostname(pattern) && !IsWildcard(pattern)
    ensures MatchesHost(pattern, host) <==> host == pattern
  {
  }
}
