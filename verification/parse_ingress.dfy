/**
 * The rule compiler: turns the decoded `ingress` list of a configuration
 * document into a validated routing table, or an error and no table.
 */
module IngressParse {
  import opened Results
  import opened ServiceUrl
  import opened IngressRules

  /** One element of the `ingress` list as decoded; omitted keys are None. */
  datatype RawRule = RawRule(hostname: Option<string>, path: Option<string>, service: string)

  /** A decoded configuration document: its `ingress` list and the names of its other top-level keys. */
  datatype Document = Document(ingress: seq<RawRule>, otherKeys: set<string>)

  /** The outcome of decoding the document bytes; an empty file decodes to a document with no rules. */
  datatype Decoded = Malformed | Doc(doc: Document)

  /** Why a document was refused. The index is the rule's position, from 0. */
  datatype IngressError =
    | ParseError
    | NoRules
    | InvalidService(index: nat, reason: ServiceError)
    | InvalidPath(index: nat)
    | CatchAllHasPath(index: nat)
    | CatchAllNotLast(index: nat)
    | LastRuleNotCatchAll

  /** An omitted hostname is the empty hostname. */
  function HostnameOf(raw: RawRule): string {
    match raw.hostname
    case None => ""
    case Some(h) => h
  }

  /** The path pattern of a raw rule; an omitted or empty path means none. */
  function PathOf(raw: RawRule): Option<string> {
    match raw.path
    case Some(p) => if p == "" then None else Some(p)
    case None => None
  }

  /** Each raw rule on its own: its service parses and its path, if any, compiles. */
  predicate RawRuleOk(raw: RawRule, engine: RegexEngine) {
    ParseService(raw.service).Success? && (PathOf(raw).Some? ==> engine.compiles(PathOf(raw).value))
  }

  /** The conditions under which a list of raw rules is accepted, stated on the raw input. */
  predicate Acceptable(raws: seq<RawRule>, engine: RegexEngine) {
    && |raws| > 0
    && (forall i :: 0 <= i < |raws| ==> RawRuleOk(raws[i], engine))
    && CatchAllPlacement(raws)
  }

  /** The last rule, and no other, has a catch-all hostname; no catch-all has a path. */
  predicate CatchAllPlacement(raws: seq<RawRule>)
    requires |raws| > 0
  {
    && IsCatchAllHostname(HostnameOf(raws[|raws| - 1]))
    && (forall i :: 0 <= i < |raws| - 1 ==> !IsCatchAllHostname(HostnameOf(raws[i])))
    && (forall i :: 0 <= i < |raws| && IsCatchAllHostname(HostnameOf(raws[i])) ==> PathOf(raws[i]).None?)
  }

  /** A compiled rule keeps the hostname, the service text and the path pattern of its raw rule. */
  predicate Preserves(raw: RawRule, rule: Rule) {
    && rule.hostname == HostnameOf(raw)
    && Format(rule.service) == raw.service
    && (match PathOf(raw)
        case None => rule.path.None?
        case Some(p) => rule.path == Some(Pattern(p)))
  }

  /** Compiles one rule found at position `index`. */
  function CompileRule(raw: RawRule, index: nat, engine: RegexEngine): (r: Result<Rule, IngressError>)
    ensures r.Success? <==> RawRuleOk(raw, engine)
    ensures r.Success? ==> Preserves(raw, r.value) && WellFormedRule(r.value, engine)
    ensures r.Failure? ==> (r.error.InvalidService? || r.error.InvalidPath?) && r.error.index == index
  {
    match ParseService(raw.service)
    case Failure(e) => Failure(InvalidService(index, e))
    case Success(service) =>
      match PathOf(raw)
      case None => Success(Rule(HostnameOf(raw), None, service))
      case Some(p) =>
        if engine.compiles(p) then Success(Rule(HostnameOf(raw), Some(Pattern(p)), service))
        else Failure(InvalidPath(index))
  }

  /**
   * Compiles the rules one by one, in order, the first of them sitting at
   * position `offset`; stops at the first rule that does not compile.
   */
  function CompileAll(raws: seq<RawRule>, offset: nat, engine: RegexEngine): (r: Result<seq<Rule>, IngressError>)
    ensures r.Success? <==> forall i :: 0 <= i < |raws| ==> RawRuleOk(raws[i], engine)
    ensures r.Success? ==> |r.value| == |raws|
    ensures r.Success? ==> forall i :: 0 <= i < |raws| ==>
      Preserves(raws[i], r.value[i]) && WellFormedRule(r.value[i], engine)
    ensures r.Failure? ==> FirstBadRule(raws, offset, r.error, engine)
  {
    if raws == [] then Success([])
    else
      match CompileRule(raws[0], offset, engine)
      case Failure(e) => Failure(e)
      case Success(rule) =>
        match CompileAll(raws[1..], offset + 1, engine)
        case Failure(e) =>
          PrependBadRule(raws, offset, e, engine);
          Failure(e)
        case Success(rest) =>
          PrependCompiled(raws, rule, rest, engine);
          Success([rule] + rest)
  }

  /** Compiling the first rule and then the others keeps both halves of CompileAll's contract. */
  lemma PrependCompiled(raws: seq<RawRule>, rule: Rule, rest: seq<Rule>, engine: RegexEngine)
    requires raws != [] && |rest| == |raws| - 1
    requires RawRuleOk(raws[0], engine) && Preserves(raws[0], rule) && WellFormedRule(rule, engine)
    requires forall i :: 0 <= i < |rest| ==> RawRuleOk(raws[1..][i], engine)
    requires forall i :: 0 <= i < |rest| ==> Preserves(raws[1..][i], rest[i]) && WellFormedRule(rest[i], engine)
    ensures forall i :: 0 <= i < |raws| ==> RawRuleOk(raws[i], engine)
    ensures forall i :: 0 <= i < |raws| ==> Preserves(raws[i], ([rule] + rest)[i]) && WellFormedRule(([rule] + rest)[i], engine)
  {
    var rules := [rule] + rest;
    forall i | 0 < i < |raws| ensures RawRuleOk(raws[i], engine) {
      assert raws[i] == raws[1..][i - 1];
    }
    forall i | 0 < i < |raws| ensures Preserves(raws[i], rules[i]) && WellFormedRule(rules[i], engine) {
      var raw, compiled := raws[1..][i - 1], rest[i - 1];
      assert Preserves(raw, compiled) && WellFormedRule(compiled, engine);
      assert raws[i] == raw && rules[i] == compiled;
    }
  }

  /** A rule that compiles, followed by rules whose first bad one is reported by `e`: `e` is still the first bad one. */
  lemma PrependBadRule(raws: seq<RawRule>, offset: nat, e: IngressError, engine: RegexEngine)
    requires raws != [] && RawRuleOk(raws[0], engine)
    requires FirstBadRule(raws[1..], offset + 1, e, engine)
    ensures FirstBadRule(raws, offset, e, engine)
  {
    var k := e.index - offset;
    assert raws[k] == raws[1..][k - 1];
    forall i | 1 <= i < k ensures RawRuleOk(raws[i], engine) {
      assert raws[i] == raws[1..][i - 1];
    }
  }

  /**
   * `e` reports the first rule of `raws` that does not compile, where
   * `raws` starts at position `offset` of the document.
   */
  predicate FirstBadRule(raws: seq<RawRule>, offset: nat, e: IngressError, engine: RegexEngine) {
    && (e.InvalidService? || e.InvalidPath?)
    && offset <= e.index < offset + |raws|
    && !RawRuleOk(raws[e.index - offset], engine)
    && (forall i :: 0 <= i < e.index - offset ==> RawRuleOk(raws[i], engine))
  }

  /**
   * The table-level checks, scanning from position `from`: the first rule
   * that is a catch-all with a path, a catch-all before the last position,
   * or a last rule that is not a catch-all.
   */
  function TableError(rules: seq<Rule>, from: nat): (r: Option<IngressError>)
    requires from <= |rules|
    ensures r.None? <==> forall j :: from <= j < |rules| ==> WellPlaced(rules, j)
    ensures r.Some? ==> FirstMisplaced(rules, from, r.value)
    decreases |rules| - from
  {
    if from == |rules| then None
    else if IsCatchAll(rules[from]) && rules[from].path.Some? then
      assert !WellPlaced(rules, from);
      Some(CatchAllHasPath(from))
    else if IsCatchAll(rules[from]) && from < |rules| - 1 then
      assert !WellPlaced(rules, from);
      Some(CatchAllNotLast(from))
    else if !IsCatchAll(rules[from]) && from == |rules| - 1 then
      assert !WellPlaced(rules, from);
      Some(LastRuleNotCatchAll)
    else TableError(rules, from + 1)
  }

  /**
   * `e` reports the first rule, from position `from` on, that breaks the
   * table invariants: a catch-all with a path, a catch-all before the last
   * position, or a last rule that is not a catch-all.
   */
  predicate FirstMisplaced(rules: seq<Rule>, from: nat, e: IngressError)
    requires from <= |rules|
  {
    match e
    case CatchAllHasPath(j) =>
      from <= j < |rules| && IsCatchAll(rules[j]) && rules[j].path.Some?
      && forall k :: from <= k < j ==> WellPlaced(rules, k)
    case CatchAllNotLast(j) =>
      from <= j < |rules| - 1 && IsCatchAll(rules[j])
      && forall k :: from <= k < j ==> WellPlaced(rules, k)
    case LastRuleNotCatchAll =>
      from < |rules| && !IsCatchAll(rules[|rules| - 1])
      && forall k :: from <= k < |rules| - 1 ==> WellPlaced(rules, k)
    case _ => false
  }

  /** parseIngress: the whole compilation, on an already-decoded document. */
  function Compile(input: Decoded, engine: RegexEngine): (r: Result<seq<Rule>, IngressError>)
    ensures input.Malformed? ==> r == Failure(ParseError)
    ensures r.Success? ==> input.Doc? && |r.value| == |input.doc.ingress|
    ensures r.Success? ==> forall i :: 0 <= i < |r.value| ==> Preserves(input.doc.ingress[i], r.value[i])
    ensures r.Success? ==> ValidTable(r.value, engine)
  {
    match input
    case Malformed => Failure(ParseError)
    case Doc(d) =>
      if d.ingress == [] then Failure(NoRules)
      else
        var rules :- CompileAll(d.ingress, 0, engine);
        match TableError(rules, 0)
        case Some(e) => Failure(e)
        case None => Success(rules)
  }

  /**
   * A rule whose service or path is bad is reported before any placement
   * fault: the error names the first such rule, even when an earlier rule is
   * misplaced.
   */
  lemma {:induction false} RuleFaultsReportedFirst(d: Document, i: nat, engine: RegexEngine)
    requires i < |d.ingress| && !RawRuleOk(d.ingress[i], engine)
    ensures Compile(Doc(d), engine).Failure?
    ensures FirstBadRule(d.ingress, 0, Compile(Doc(d), engine).error, engine)
  {
    assert CompileAll(d.ingress, 0, engine).Failure?;
  }

  /** The table checks on compiled rules say the same as CatchAllPlacement on the raw rules. */
  lemma {:induction false} PlacementAgrees(raws: seq<RawRule>, rules: seq<Rule>)
    requires |raws| == |rules| > 0
    requires forall i :: 0 <= i < |raws| ==> Preserves(raws[i], rules[i])
    ensures (forall j :: 0 <= j < |rules| ==> WellPlaced(rules, j)) <==> CatchAllPlacement(raws)
  {
    var n := |raws|;
    if forall j :: 0 <= j < n ==> WellPlaced(rules, j) {
      assert WellPlaced(rules, n - 1);
      forall i | 0 <= i < n ensures IsCatchAllHostname(HostnameOf(raws[i])) ==> PathOf(raws[i]).None? {
        assert WellPlaced(rules, i);
      }
      forall i | 0 <= i < n - 1 ensures !IsCatchAllHostname(HostnameOf(raws[i])) {
        assert WellPlaced(rules, i);
      }
    }
    if CatchAllPlacement(raws) {
      forall j | 0 <= j < n ensures WellPlaced(rules, j) {
        assert Preserves(raws[j], rules[j]);
      }
    }
  }

  /** A document compiles exactly when it decoded and its rules are Acceptable. */
  lemma {:induction false} CompileSucceedsIff(input: Decoded, engine: RegexEngine)
    ensures Compile(input, engine).Success? <==> input.Doc? && Acceptable(input.doc.ingress, engine)
  {
    if input.Doc? && input.doc.ingress != [] {
      var raws := input.doc.ingress;
      var all := CompileAll(raws, 0, engine);
      if all.Success? {
        PlacementAgrees(raws, all.value);
      }
    }
  }

  /** A compiled table has one rule per raw rule, in the same order, with the same fields. */
  lemma {:induction false} CompilePreservesRules(input: Decoded, engine: RegexEngine)
    requires Compile(input, engine).Success?
    ensures input.Doc?
    ensures |Compile(input, engine).value| == |input.doc.ingress|
    ensures forall i :: 0 <= i < |input.doc.ingress| ==>
      Preserves(input.doc.ingress[i], Compile(input, engine).value[i])
  {
    assert input.Doc? && input.doc.ingress != [];
    assert CompileAll(input.doc.ingress, 0, engine).Success?;
  }

  /**
   * An acceptable document compiles to exactly the rules that keep its
   * hostnames, service texts and path patterns, in order.
   */
  lemma {:induction false} CompileAcceptable(d: Document, engine: RegexEngine, rules: seq<Rule>)
    requires Acceptable(d.ingress, engine)
    requires |rules| == |d.ingress|
    requires forall i :: 0 <= i < |rules| ==> Preserves(d.ingress[i], rules[i]) && ValidUrl(rules[i].service)
    ensures Compile(Doc(d), engine) == Success(rules)
  {
    CompileSucceedsIff(Doc(d), engine);
    CompilePreservesRules(Doc(d), engine);
    CompiledTableIsValid(Doc(d), engine);
    var t := Compile(Doc(d), engine).value;
    assert |t| == |rules|;
    forall i | 0 <= i < |rules| ensures t[i] == rules[i] {
      var raw := d.ingress[i];
      assert Preserves(raw, t[i]) && Preserves(raw, rules[i]);
      assert WellFormedRule(t[i], engine);
      FormatInjective(t[i].service, rules[i].service);
      assert t[i].path == rules[i].path;
    }
    assert t == rules;
  }

  /** Every table Compile returns keeps the routing-table invariants. */
  lemma {:induction false} CompiledTableIsValid(input: Decoded, engine: RegexEngine)
    requires Compile(input, engine).Success?
    ensures ValidTable(Compile(input, engine).value, engine)
  {
    assert input.Doc? && input.doc.ingress != [];
    var rules := CompileAll(input.doc.ingress, 0, engine).value;
    assert TableError(rules, 0).None?;
  }

  /** Every request finds a rule in every table Compile returns. */
  lemma {:induction false} CompiledTableRoutesEveryRequest(input: Decoded, engine: RegexEngine, host: string, requestPath: string)
    requires Compile(input, engine).Success?
    ensures FindMatch(Compile(input, engine).value, host, requestPath, engine).Some?
  {
    CompiledTableIsValid(input, engine);
    ValidTableIsTotal(Compile(input, engine).value, host, requestPath, engine);
  }

  /** A document that does not decode, or that has no rules, is refused. */
  lemma NothingToCompile(input: Decoded, engine: RegexEngine)
    requires input.Malformed? || input.doc.ingress == []
    ensures Compile(input, engine).Failure?
    ensures input.Malformed? ==> Compile(input, engine).error == ParseError
    ensures input.Doc? ==> Compile(input, engine).error == NoRules
  {
  }

  /** Top-level keys other than `ingress` do not change the result. */
  lemma OtherKeysIgnored(d: Document, keys: set<string>, engine: RegexEngine)
    ensures Compile(Doc(d.(otherKeys := keys)), engine) == Compile(Doc(d), engine)
  {
  }

  /** Rules that agree on hostname, path and service compile alike. */
  lemma {:induction false} CompileAllAgrees(raws: seq<RawRule>, raws': seq<RawRule>, offset: nat, engine: RegexEngine)
    requires |raws| == |raws'|
    requires forall i :: 0 <= i < |raws| ==>
      HostnameOf(raws[i]) == HostnameOf(raws'[i]) && PathOf(raws[i]) == PathOf(raws'[i]) && raws[i].service == raws'[i].service
    ensures CompileAll(raws, offset, engine) == CompileAll(raws', offset, engine)
  {
    if raws != [] {
      assert CompileRule(raws[0], offset, engine) == CompileRule(raws'[0], offset, engine);
      CompileAllAgrees(raws[1..], raws'[1..], offset + 1, engine);
    }
  }

  /** Omitting a hostname is the same as giving the empty hostname, which is a catch-all. */
  lemma {:induction false} OmittedHostnameIsCatchAll(d: Document, i: nat, engine: RegexEngine)
    requires i < |d.ingress| && d.ingress[i].hostname.None?
    ensures IsCatchAllHostname(HostnameOf(d.ingress[i]))
    ensures Compile(Doc(d.(ingress := d.ingress[i := d.ingress[i].(hostname := Some(""))])), engine)
         == Compile(Doc(d), engine)
  {
    var raws' := d.ingress[i := d.ingress[i].(hostname := Some(""))];
    forall j | 0 <= j < |raws'|
      ensures HostnameOf(raws'[j]) == HostnameOf(d.ingress[j]) && PathOf(raws'[j]) == PathOf(d.ingress[j])
      ensures raws'[j].service == d.ingress[j].service
    {
    }
    CompileAllAgrees(raws', d.ingress, 0, engine);
    CompileDependsOnRulesOnly(d.(ingress := raws'), d, engine);
  }

  /** Compile looks at a document only through whether it has rules and how they compile. */
  lemma CompileDependsOnRulesOnly(d: Document, d': Document, engine: RegexEngine)
    requires (d.ingress == []) == (d'.ingress == [])
    requires CompileAll(d.ingress, 0, engine) == CompileAll(d'.ingress, 0, engine)
    ensures Compile(Doc(d), engine) == Compile(Doc(d'), engine)
  {
  }

  /** A list whose last rule is not a catch-all is refused, whatever comes before it. */
  lemma {:induction false} LastRuleMustBeCatchAll(d: Document, engine: RegexEngine)
    requires |d.ingress| > 0 && !IsCatchAllHostname(HostnameOf(d.ingress[|d.ingress| - 1]))
    ensures Compile(Doc(d), engine).Failure?
  {
    CompileSucceedsIff(Doc(d), engine);
  }

  /** A catch-all before the last position is refused. */
  lemma {:induction false} EarlyCatchAllRejected(d: Document, i: nat, engine: RegexEngine)
    requires i < |d.ingress| - 1 && IsCatchAllHostname(HostnameOf(d.ingress[i]))
    ensures Compile(Doc(d), engine).Failure?
  {
    CompileSucceedsIff(Doc(d), engine);
  }

  /** A catch-all with a path is refused. */
  lemma {:induction false} CatchAllWithPathRejected(d: Document, i: nat, engine: RegexEngine)
    requires i < |d.ingress| && IsCatchAllHostname(HostnameOf(d.ingress[i])) && PathOf(d.ingress[i]).Some?
    ensures Compile(Doc(d), engine).Failure?
  {
    CompileSucceedsIff(Doc(d), engine);
  }

  /** A path pattern that does not compile is refused. */
  lemma {:induction false} InvalidPathRejected(d: Document, i: nat, engine: RegexEngine)
    requires i < |d.ingress| && PathOf(d.ingress[i]).Some? && !engine.compiles(PathOf(d.ingress[i]).value)
    ensures Compile(Doc(d), engine).Failure?
  {
    CompileSucceedsIff(Doc(d), engine);
    assert !RawRuleOk(d.ingress[i], engine);
  }

  /** A service that is not an absolute reference with a clean host is refused. */
  lemma {:induction false} InvalidServiceRejected(d: Document, i: nat, engine: RegexEngine)
    requires i < |d.ingress| && ParseService(d.ingress[i].service).Failure?
    ensures Compile(Doc(d), engine).Failure?
  {
    CompileSucceedsIff(Doc(d), engine);
    assert !RawRuleOk(d.ingress[i], engine);
  }
}
