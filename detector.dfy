/** The Technology Detector: `makeRequest` (src/index.js:40-125) with every
    HTTPS round trip replaced by a `server` function from probes to
    responses. */
module Detector {
  import opened Prober
  import opened Matcher
  import opened Evaluator

  /** A rule: the request to send and the response expected. */
  datatype Rule = Rule(request: RequestTemplate, response: Expected)

  /** A rule under its name, as a key of the technology's `rules` object. */
  datatype NamedRule = NamedRule(name: string, rule: Rule)

  /** A catalog entry: the technology's name and its parsed document, with
      the rules in the order `Object.keys` lists them. */
  datatype Technology = Technology(name: string, rules: seq<NamedRule>, condition: Condition)

  /** The value `makeRequest` resolves with: `{ technology: [...] }`. */
  datatype Detection = Detection(technology: seq<string>)

  function Names(rules: seq<NamedRule>): (names: seq<string>)
    ensures |names| == |rules|
    ensures forall i :: 0 <= i < |rules| ==> names[i] == rules[i].name
  {
    if rules == [] then [] else Names(rules[..|rules| - 1]) + [rules[|rules| - 1].name]
  }

  /** The set of rule names. */
  function NameSet(rules: seq<NamedRule>): set<string> {
    if rules == [] then {} else NameSet(rules[..|rules| - 1]) + {rules[|rules| - 1].name}
  }

  /** Rule names as a JavaScript object has them: no name twice. */
  predicate DistinctNames(rules: seq<NamedRule>) {
    forall i, j :: 0 <= i < j < |rules| ==> rules[i].name != rules[j].name
  }

  /** The probe sent to `url` for `rule` of the technology named `technology`. */
  function ProbeOf(url: string, technology: string, rule: NamedRule): Probe {
    Probe(technology, rule.name, BuildRequest(url, rule.rule.request))
  }

  /** The outcome of one rule: the matcher's verdict on the server's answer. */
  predicate Outcome(url: string, technology: string, rule: NamedRule,
                    server: Probe -> Response, matches: (string, string) -> bool) {
    RuleSucceeds(server(ProbeOf(url, technology, rule)), rule.rule.response, matches)
  }

  /** `rulesValid` after the rule loop: each name mapped to its rule's
      outcome; `Object.keys` of it lists exactly the rule names. */
  function RulesValid(url: string, technology: string, rules: seq<NamedRule>,
                      server: Probe -> Response, matches: (string, string) -> bool): (rulesValid: map<string, bool>)
    ensures rulesValid.Keys == NameSet(rules)
  {
    if rules == [] then map[]
    else
      var last := rules[|rules| - 1];
      RulesValid(url, technology, rules[..|rules| - 1], server, matches)[last.name := Outcome(url, technology, last, server, matches)]
  }

  /** The technology's `conditionCheck` is truthy. */
  predicate TechnologyPresent(url: string, technology: Technology,
                              server: Probe -> Response, matches: (string, string) -> bool) {
    Present(RulesValid(url, technology.name, technology.rules, server, matches),
            Names(technology.rules), technology.condition)
  }

  /** The names pushed onto `presentTechnologies`, in catalog order. */
  function PresentTechnologies(url: string, technologies: seq<Technology>,
                               server: Probe -> Response, matches: (string, string) -> bool): (names: seq<string>)
    ensures |names| <= |technologies|
  {
    if technologies == [] then []
    else
      var last := technologies[|technologies| - 1];
      PresentTechnologies(url, technologies[..|technologies| - 1], server, matches)
        + (if TechnologyPresent(url, last, server, matches) then [last.name] else [])
  }

  /** `makeRequest(url, technologies)`: probes every rule of every technology
      one after the other, records each outcome in `rulesValid`, evaluates the
      condition and pushes the name of each technology found present. */
  method MakeRequest(url: string, technologies: seq<Technology>,
                     server: Probe -> Response, matches: (string, string) -> bool)
    returns (result: Detection)
    ensures result.technology == PresentTechnologies(url, technologies, server, matches)
  {
    var presentTechnologies: seq<string> := [];
    for i := 0 to |technologies|
      invariant presentTechnologies == PresentTechnologies(url, technologies[..i], server, matches)
    {
      var technology := technologies[i];
      var name, rules, condition := technology.name, technology.rules, technology.condition;
      var rulesValid: map<string, bool> := map[];
      for j := 0 to |rules|
        invariant rulesValid == RulesValid(url, name, rules[..j], server, matches)
      {
        var rule := rules[j];
        var options := BuildRequest(url, rule.rule.request);
        var res := server(Probe(name, rule.name, options));
        var isTech := CheckRule(res, rule.rule.response, matches);
        rulesValid := rulesValid[rule.name := isTech];
        assert rules[..j + 1][..j] == rules[..j];
      }
      assert rules[..|rules|] == rules;
      var conditionCheck := EvaluateCondition(rulesValid, Names(rules), condition);
      if Truthy(conditionCheck) {
        presentTechnologies := presentTechnologies + [name];
      }
      assert technologies[..i + 1][..i] == technologies[..i];
    }
    assert technologies[..|technologies|] == technologies;
    result := Detection(presentTechnologies);
  }

  /** `Object.keys(rulesValid)` lists exactly the rule names. */
  lemma {:induction false} RulesValidKeys(url: string, technology: string, rules: seq<NamedRule>,
                                          server: Probe -> Response, matches: (string, string) -> bool)
    ensures ListsKeys(Names(rules), RulesValid(url, technology, rules, server, matches))
  {
    if rules != [] {
      RulesValidKeys(url, technology, rules[..|rules| - 1], server, matches);
    }
  }

  /** Every entry of `rulesValid` is the outcome of a rule of that name. */
  lemma {:induction false} RulesValidFromRule(url: string, technology: string, rules: seq<NamedRule>,
                                              server: Probe -> Response, matches: (string, string) -> bool,
                                              key: string)
    requires key in RulesValid(url, technology, rules, server, matches)
    ensures exists i :: 0 <= i < |rules| && rules[i].name == key
                        && RulesValid(url, technology, rules, server, matches)[key]
                           == Outcome(url, technology, rules[i], server, matches)
  {
    var init, last := rules[..|rules| - 1], rules[|rules| - 1];
    if last.name != key {
      RulesValidFromRule(url, technology, init, server, matches, key);
      var i :| 0 <= i < |init| && init[i].name == key
               && RulesValid(url, technology, init, server, matches)[key]
                  == Outcome(url, technology, init[i], server, matches);
      assert rules[i] == init[i];
    } else {
      assert rules[|rules| - 1] == last;
    }
  }

  /** With distinct names, each rule's own outcome is recorded under its name. */
  lemma {:induction false} RulesValidAt(url: string, technology: string, rules: seq<NamedRule>,
                                        server: Probe -> Response, matches: (string, string) -> bool,
                                        i: nat)
    requires DistinctNames(rules) && i < |rules|
    ensures rules[i].name in RulesValid(url, technology, rules, server, matches)
    ensures RulesValid(url, technology, rules, server, matches)[rules[i].name]
            == Outcome(url, technology, rules[i], server, matches)
  {
    var init := rules[..|rules| - 1];
    if i < |rules| - 1 {
      assert DistinctNames(init) by {
        forall a, b | 0 <= a < b < |init| ensures init[a].name != init[b].name {
          assert init[a] == rules[a] && init[b] == rules[b];
        }
      }
      RulesValidAt(url, technology, init, server, matches, i);
      assert init[i] == rules[i];
      assert rules[i].name != rules[|rules| - 1].name;
    }
  }

  /** Soundness: a technology is reported only when at least one of its
      rules succeeded; one without rules is never reported. */
  lemma TechnologyPresentNeedsEvidence(url: string, technology: Technology,
                                       server: Probe -> Response, matches: (string, string) -> bool)
    requires TechnologyPresent(url, technology, server, matches)
    ensures exists i :: 0 <= i < |technology.rules| && Outcome(url, technology.name, technology.rules[i], server, matches)
  {
    var rulesValid := RulesValid(url, technology.name, technology.rules, server, matches);
    PresentNeedsSomeSuccess(rulesValid, Names(technology.rules), technology.condition);
    var key :| key in rulesValid && rulesValid[key];
    RulesValidFromRule(url, technology.name, technology.rules, server, matches, key);
  }

  /** A technology with one rule and no multi-entry list is present exactly
      when that rule succeeds. */
  lemma SingleRuleTechnology(url: string, technology: Technology,
                             server: Probe -> Response, matches: (string, string) -> bool)
    requires |technology.rules| == 1
    requires |technology.condition.required| <= 1 && |technology.condition.optional| <= 1
    ensures TechnologyPresent(url, technology, server, matches)
            <==> Outcome(url, technology.name, technology.rules[0], server, matches)
  {
    var rules := technology.rules;
    var rulesValid := RulesValid(url, technology.name, rules, server, matches);
    RulesValidKeys(url, technology.name, rules, server, matches);
    PresentWithoutCombination(rulesValid, Names(rules), technology.condition);
    RulesValidAt(url, technology.name, rules, server, matches, 0);
    assert rulesValid.Keys == {rules[0].name};
  }

  /** The rule outcomes of a technology depend only on the answers to its
      own probes. */
  lemma {:induction false} RulesValidLocal(url: string, technology: string, rules: seq<NamedRule>,
                                           server1: Probe -> Response, server2: Probe -> Response,
                                           matches: (string, string) -> bool)
    requires forall p: Probe :: p.technology == technology ==> server1(p) == server2(p)
    ensures RulesValid(url, technology, rules, server1, matches) == RulesValid(url, technology, rules, server2, matches)
  {
    if rules != [] {
      RulesValidLocal(url, technology, rules[..|rules| - 1], server1, server2, matches);
      var p := ProbeOf(url, technology, rules[|rules| - 1]);
      assert server1(p) == server2(p);
    }
  }

  /** No coupling between technologies: the verdict on one technology does
      not depend on how the host answers the probes of any other. */
  lemma TechnologyIndependence(url: string, technology: Technology,
                               server1: Probe -> Response, server2: Probe -> Response,
                               matches: (string, string) -> bool)
    requires forall p: Probe :: p.technology == technology.name ==> server1(p) == server2(p)
    ensures TechnologyPresent(url, technology, server1, matches) <==> TechnologyPresent(url, technology, server2, matches)
  {
    RulesValidLocal(url, technology.name, technology.rules, server1, server2, matches);
  }

  /** The result lists exactly the names of present technologies. */
  lemma {:induction false} PresentTechnologiesMembers(url: string, technologies: seq<Technology>,
                                                      server: Probe -> Response, matches: (string, string) -> bool,
                                                      name: string)
    ensures name in PresentTechnologies(url, technologies, server, matches)
            <==> exists i :: 0 <= i < |technologies| && technologies[i].name == name
                             && TechnologyPresent(url, technologies[i], server, matches)
  {
    if technologies != [] {
      var init, last := technologies[..|technologies| - 1], technologies[|technologies| - 1];
      var before := PresentTechnologies(url, init, server, matches);
      var lastPresent := TechnologyPresent(url, last, server, matches);
      assert PresentTechnologies(url, technologies, server, matches)
             == before + (if lastPresent then [last.name] else []);
      PresentTechnologiesMembers(url, init, server, matches, name);
      if name in before {
        var i :| 0 <= i < |init| && init[i].name == name && TechnologyPresent(url, init[i], server, matches);
        assert technologies[i] == init[i];
      } else if lastPresent && last.name == name {
        assert technologies[|technologies| - 1] == last;
      } else {
        forall i | 0 <= i < |technologies| && technologies[i].name == name
          ensures !TechnologyPresent(url, technologies[i], server, matches)
        {
          if i < |init| {
            assert init[i] == technologies[i];
          }
        }
      }
    }
  }

  /** Catalog order is kept: the result for a catalog split in two is the
      result for the first part followed by that for the second. */
  lemma {:induction false} PresentTechnologiesAppend(url: string, first: seq<Technology>, second: seq<Technology>,
                                                     server: Probe -> Response, matches: (string, string) -> bool)
    ensures PresentTechnologies(url, first + second, server, matches)
            == PresentTechnologies(url, first, server, matches) + PresentTechnologies(url, second, server, matches)
  {
    if second == [] {
      assert first + second == first;
    } else {
      var init, last := second[..|second| - 1], second[|second| - 1];
      assert (first + second)[..|first + second| - 1] == first + init;
      assert (first + second)[|first + second| - 1] == last;
      PresentTechnologiesAppend(url, first, init, server, matches);
    }
  }
}
