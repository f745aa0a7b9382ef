/** The endpoint-map builder of src/endpoints.js: lines `endpoint tech1,tech2,...`
    folded into a map from technology to the endpoints naming it. */
module Endpoints {
  import opened Wrappers
  import opened Strings

  /** `allEndpoints`: technology name to its endpoints. */
  type EndpointMap = map<string, seq<string>>

  /** The TypeError thrown when the line at index `line` has no space, so
      that `technologies` is `undefined`; it aborts the whole build. */
  datatype BuildError = TechnologiesUndefined(line: nat)

  /** `const [endpoint, technologies] = endpointData.split(" ")`: the first
      two fields; `technologies` is absent when the line has no space. */
  function Fields(endpointData: string): (r: (string, Option<string>))
    ensures r.1.None? <==> ' ' !in endpointData
    ensures ' ' !in r.0
    ensures r.1.Some? ==> ' ' !in r.1.value
  {
    var fields := Split(endpointData, ' ');
    SplitLength(endpointData, ' ');
    CountZero(endpointData, ' ');
    SplitFieldsFree(endpointData, ' ');
    (fields[0], if |fields| >= 2 then Some(fields[1]) else None)
  }

  /** The `forEach` of src/endpoints.js:16-24: appends `endpoint` to the list
      of each name in `technologies`, creating the list for a new name. */
  function AddEndpoint(allEndpoints: EndpointMap, endpoint: string, technologies: seq<string>): (r: EndpointMap)
    ensures allEndpoints.Keys <= r.Keys
    ensures forall t :: t in technologies ==> t in r
  {
    if technologies == [] then allEndpoints
    else
      var m := AddEndpoint(allEndpoints, endpoint, technologies[..|technologies| - 1]);
      var technology := technologies[|technologies| - 1];
      if technology in m then m[technology := m[technology] + [endpoint]] else m[technology := [endpoint]]
  }

  /** The map the top-level loop builds from the lines, or the error that
      stops it at the first line without a space. */
  function Build(endpointsAndTechnology: seq<string>): (r: Result<EndpointMap, BuildError>)
    ensures r.Success? ==> forall i :: 0 <= i < |endpointsAndTechnology| ==> ' ' in endpointsAndTechnology[i]
    ensures r.Failure? ==> r.error.line < |endpointsAndTechnology|
  {
    if endpointsAndTechnology == [] then Success(map[])
    else
      var last := |endpointsAndTechnology| - 1;
      match Build(endpointsAndTechnology[..last])
      case Failure(e) => Failure(e)
      case Success(allEndpoints) =>
        var (endpoint, technologies) := Fields(endpointsAndTechnology[last]);
        match technologies
        case None => Failure(TechnologiesUndefined(last))
        case Some(names) => Success(AddEndpoint(allEndpoints, endpoint, Split(names, ',')))
  }

  /** The whole file: its text split at newlines, then built. A file that
      ends with a newline ends with an empty line, which has no space, so
      the whole build fails. */
  function BuildFromText(text: string): (r: Result<EndpointMap, BuildError>)
    ensures |text| > 0 && text[|text| - 1] == '\n' ==> r.Failure?
  {
    var lines := Split(text, '\n');
    if |text| > 0 && text[|text| - 1] == '\n' then
      SplitTrailingSeparator(text, '\n');
      assert ' ' !in lines[|lines| - 1];
      BuildFailsIff(lines);
      Build(lines)
    else
      Build(lines)
  }

  /** src/endpoints.js:11-25 over the lines of the file. */
  method BuildEndpoints(endpointsAndTechnology: seq<string>) returns (result: Result<EndpointMap, BuildError>)
    ensures result == Build(endpointsAndTechnology)
  {
    var allEndpoints: EndpointMap := map[];
    for i := 0 to |endpointsAndTechnology|
      invariant Build(endpointsAndTechnology[..i]) == Success(allEndpoints)
    {
      var endpointData := endpointsAndTechnology[i];
      var (endpoint, technologies) := Fields(endpointData);
      BuildStep(endpointsAndTechnology, i);
      if technologies.None? {
        BuildFailureIsFinal(endpointsAndTechnology, i + 1);
        return Failure(TechnologiesUndefined(i));
      }
      var alltechnologies := Split(technologies.value, ',');
      ghost var before := allEndpoints;
      for j := 0 to |alltechnologies|
        invariant allEndpoints == AddEndpoint(before, endpoint, alltechnologies[..j])
      {
        var technology := alltechnologies[j];
        AddEndpointStep(before, endpoint, alltechnologies, j);
        if technology in allEndpoints {
          allEndpoints := allEndpoints[technology := allEndpoints[technology] + [endpoint]];
        } else {
          allEndpoints := allEndpoints[technology := []];
          allEndpoints := allEndpoints[technology := allEndpoints[technology] + [endpoint]];
        }
      }
      assert alltechnologies[..|alltechnologies|] == alltechnologies;
    }
    assert endpointsAndTechnology[..|endpointsAndTechnology|] == endpointsAndTechnology;
    return Success(allEndpoints);
  }

  /** One iteration of the line loop. */
  lemma BuildStep(lines: seq<string>, i: nat)
    requires i < |lines| && Build(lines[..i]).Success?
    ensures Fields(lines[i]).1.None? ==> Build(lines[..i + 1]) == Failure(TechnologiesUndefined(i))
    ensures Fields(lines[i]).1.Some? ==>
              Build(lines[..i + 1])
              == Success(AddEndpoint(Build(lines[..i]).value, Fields(lines[i]).0, Split(Fields(lines[i]).1.value, ',')))
  {
    assert lines[..i + 1][..i] == lines[..i];
    assert lines[..i + 1][i] == lines[i];
  }

  /** One iteration of the `forEach`. */
  lemma AddEndpointStep(allEndpoints: EndpointMap, endpoint: string, technologies: seq<string>, j: nat)
    requires j < |technologies|
    ensures var m := AddEndpoint(allEndpoints, endpoint, technologies[..j]);
            var technology := technologies[j];
            AddEndpoint(allEndpoints, endpoint, technologies[..j + 1])
            == if technology in m then m[technology := m[technology] + [endpoint]]
               else m[technology := [] + [endpoint]]
  {
    assert technologies[..j + 1][..j] == technologies[..j];
    assert technologies[..j + 1][j] == technologies[j];
    assert [] + [endpoint] == [endpoint];
  }

  /** Once a prefix of the lines fails, the whole build fails with that error. */
  lemma {:induction false} BuildFailureIsFinal(lines: seq<string>, k: nat)
    requires k <= |lines| && Build(lines[..k]).Failure?
    ensures Build(lines) == Build(lines[..k])
    decreases |lines| - k
  {
    if k < |lines| {
      BuildFailureIsFinal(lines[..|lines| - 1], k) by {
        assert lines[..|lines| - 1][..k] == lines[..k];
      }
      assert lines[..|lines| - 1][..k] == lines[..k];
    } else {
      assert lines[..k] == lines;
    }
  }

  // ---- Reference definitions ----

  /** The technology names a line contributes (none when it has no space). */
  function Tokens(line: string): seq<string> {
    match Fields(line).1
    case None => []
    case Some(names) => Split(names, ',')
  }

  function Occurrences(names: seq<string>, name: string): nat {
    if names == [] then 0
    else Occurrences(names[..|names| - 1], name) + (if names[|names| - 1] == name then 1 else 0)
  }

  function Repeat(x: string, n: nat): seq<string> {
    if n == 0 then [] else Repeat(x, n - 1) + [x]
  }

  /** The endpoints of the lines naming `technology`, in line order, once per
      time the line names it. */
  function EndpointsFor(lines: seq<string>, technology: string): seq<string> {
    if lines == [] then []
    else
      var last := lines[|lines| - 1];
      EndpointsFor(lines[..|lines| - 1], technology) + Repeat(Fields(last).0, Occurrences(Tokens(last), technology))
  }

  function Elements(names: seq<string>): set<string> {
    set name | name in names
  }

  /** The names the lines contribute. */
  function NamesIn(lines: seq<string>): set<string> {
    if lines == [] then {}
    else NamesIn(lines[..|lines| - 1]) + Elements(Tokens(lines[|lines| - 1]))
  }

  /** Number of comma-separated fields over all lines. */
  function EntryCount(lines: seq<string>): nat {
    if lines == [] then 0 else EntryCount(lines[..|lines| - 1]) + |Tokens(lines[|lines| - 1])|
  }

  function ListOf(allEndpoints: EndpointMap, technology: string): seq<string> {
    if technology in allEndpoints then allEndpoints[technology] else []
  }

  /** Sum of the lengths of the lists stored under `keys`. */
  ghost function SumLengths(allEndpoints: EndpointMap, keys: set<string>): nat
    requires keys <= allEndpoints.Keys
  {
    if keys == {} then 0
    else
      var k :| k in keys;
      |allEndpoints[k]| + SumLengths(allEndpoints, keys - {k})
  }

  /** The number of stored entries. */
  ghost function Total(allEndpoints: EndpointMap): nat {
    SumLengths(allEndpoints, allEndpoints.Keys)
  }

  // ---- Properties ----

  /** A line lacks `technologies` exactly when it contains no space. */
  lemma FieldsMissingIff(line: string)
    ensures Fields(line).1.None? <==> ' ' !in line
  {
    SplitLength(line, ' ');
    CountZero(line, ' ');
  }

  /** Only the first two fields of the split are used: with no space in
      `endpoint` or `technologies`, anything after a second space is ignored. */
  lemma FieldsFirstTwo(endpoint: string, technologies: string, rest: string)
    requires ' ' !in endpoint && ' ' !in technologies
    ensures Fields(endpoint + " " + technologies) == (endpoint, Some(technologies))
    ensures Fields(endpoint + " " + technologies + " " + rest) == (endpoint, Some(technologies))
  {
    SplitAtFirst(endpoint, ' ', technologies);
    SplitNoSeparator(technologies, ' ');
    assert endpoint + " " + technologies == endpoint + [' '] + technologies;
    assert endpoint + " " + technologies + " " + rest == endpoint + [' '] + (technologies + [' '] + rest);
    SplitAtFirst(endpoint, ' ', technologies + [' '] + rest);
    SplitAtFirst(technologies, ' ', rest);
  }

  /** Two consecutive spaces after the endpoint give the technology name "". */
  lemma DoubleSpaceNamesEmptyTechnology(endpoint: string, rest: string)
    requires ' ' !in endpoint
    ensures Tokens(endpoint + "  " + rest) == [""]
  {
    assert endpoint + "  " + rest == endpoint + [' '] + ([] + [' '] + rest);
    SplitAtFirst(endpoint, ' ', [] + [' '] + rest);
    SplitAtFirst([], ' ', rest);
  }

  /** One `forEach`: each named technology gets `endpoint` appended once per
      time the line names it, a new name gets a list holding just that, and
      every other list is unchanged. */
  lemma {:induction false} AddEndpointAt(allEndpoints: EndpointMap, endpoint: string, technologies: seq<string>,
                                         technology: string)
    ensures technology in AddEndpoint(allEndpoints, endpoint, technologies)
            <==> technology in allEndpoints || technology in technologies
    ensures ListOf(AddEndpoint(allEndpoints, endpoint, technologies), technology)
            == ListOf(allEndpoints, technology) + Repeat(endpoint, Occurrences(technologies, technology))
  {
    AddEndpointKeyAt(allEndpoints, endpoint, technologies, technology);
    AddEndpointListAt(allEndpoints, endpoint, technologies, technology);
  }

  /** The last name of the `forEach`, appended to (or creating) its list. */
  lemma AddEndpointLast(allEndpoints: EndpointMap, endpoint: string, technologies: seq<string>)
    requires technologies != []
    ensures var m := AddEndpoint(allEndpoints, endpoint, technologies[..|technologies| - 1]);
            var last := technologies[|technologies| - 1];
            AddEndpoint(allEndpoints, endpoint, technologies) == m[last := ListOf(m, last) + [endpoint]]
  {
    var m := AddEndpoint(allEndpoints, endpoint, technologies[..|technologies| - 1]);
    var last := technologies[|technologies| - 1];
    if last !in m {
      assert ListOf(m, last) + [endpoint] == [endpoint];
    }
  }

  lemma {:induction false} AddEndpointKeyAt(allEndpoints: EndpointMap, endpoint: string, technologies: seq<string>,
                                            technology: string)
    ensures technology in AddEndpoint(allEndpoints, endpoint, technologies)
            <==> technology in allEndpoints || technology in technologies
  {
    if technologies != [] {
      var init, last := technologies[..|technologies| - 1], technologies[|technologies| - 1];
      AddEndpointLast(allEndpoints, endpoint, technologies);
      assert technology in technologies <==> technology in init || technology == last by {
        assert technologies == init + [last];
      }
      AddEndpointKeyAt(allEndpoints, endpoint, init, technology);
    }
  }

  lemma {:induction false} AddEndpointListAt(allEndpoints: EndpointMap, endpoint: string, technologies: seq<string>,
                                             technology: string)
    ensures ListOf(AddEndpoint(allEndpoints, endpoint, technologies), technology)
            == ListOf(allEndpoints, technology) + Repeat(endpoint, Occurrences(technologies, technology))
  {
    if technologies == [] {
      assert ListOf(allEndpoints, technology) + [] == ListOf(allEndpoints, technology);
    } else {
      var init, last := technologies[..|technologies| - 1], technologies[|technologies| - 1];
      var m := AddEndpoint(allEndpoints, endpoint, init);
      var n := Occurrences(init, technology);
      var r := AddEndpoint(allEndpoints, endpoint, technologies);
      var before := ListOf(allEndpoints, technology);
      AddEndpointLast(allEndpoints, endpoint, technologies);
      AddEndpointListAt(allEndpoints, endpoint, init, technology);
      assert ListOf(m, technology) == before + Repeat(endpoint, n);
      if last == technology {
        assert ListOf(r, technology) == ListOf(m, technology) + [endpoint];
        assert Occurrences(technologies, technology) == n + 1;
        assert Repeat(endpoint, n + 1) == Repeat(endpoint, n) + [endpoint];
        assert before + Repeat(endpoint, n) + [endpoint] == before + (Repeat(endpoint, n) + [endpoint]);
      } else {
        assert ListOf(r, technology) == ListOf(m, technology);
        assert Occurrences(technologies, technology) == n;
      }
    }
  }

  /** Every list in the map is non-empty, and the `forEach` keeps it so. */
  predicate ListsNonEmpty(allEndpoints: EndpointMap) {
    forall technology :: technology in allEndpoints ==> allEndpoints[technology] != []
  }

  lemma {:induction false} AddEndpointNonEmpty(allEndpoints: EndpointMap, endpoint: string, technologies: seq<string>)
    requires ListsNonEmpty(allEndpoints)
    ensures ListsNonEmpty(AddEndpoint(allEndpoints, endpoint, technologies))
  {
    if technologies != [] {
      AddEndpointNonEmpty(allEndpoints, endpoint, technologies[..|technologies| - 1]);
    }
  }

  /** The build fails exactly when some line has no space, and then with
      the index of the first such line. */
  lemma {:induction false} BuildFailsIff(lines: seq<string>)
    ensures Build(lines).Failure? <==> exists i :: 0 <= i < |lines| && ' ' !in lines[i]
    ensures Build(lines).Failure? ==>
              var k := Build(lines).error.line;
              k < |lines| && ' ' !in lines[k] && forall j :: 0 <= j < k ==> ' ' in lines[j]
  {
    if lines != [] {
      var init, last := lines[..|lines| - 1], lines[|lines| - 1];
      BuildFailsIff(init);
      FieldsMissingIff(last);
      forall j | 0 <= j < |init| ensures init[j] == lines[j] { }
      if exists i :: 0 <= i < |lines| && ' ' !in lines[i] {
        var i :| 0 <= i < |lines| && ' ' !in lines[i];
        if i < |init| {
          assert ' ' !in init[i];
        }
      }
    }
  }

  /** A successful build is the build of all lines but the last, followed
      by the `forEach` of the last line. */
  lemma BuildLast(lines: seq<string>)
    requires lines != [] && Build(lines).Success?
    ensures Build(lines[..|lines| - 1]).Success?
    ensures Fields(lines[|lines| - 1]).1.Some?
    ensures Build(lines).value
            == AddEndpoint(Build(lines[..|lines| - 1]).value, Fields(lines[|lines| - 1]).0, Tokens(lines[|lines| - 1]))
  {
  }

  /** After the loop the keys are exactly the names of all lines. */
  lemma {:induction false} BuildKeys(lines: seq<string>)
    requires Build(lines).Success?
    ensures Build(lines).value.Keys == NamesIn(lines)
  {
    if lines != [] {
      var init, last := lines[..|lines| - 1], lines[|lines| - 1];
      BuildLast(lines);
      BuildKeys(init);
      forall technology
        ensures technology in Build(lines).value <==> technology in NamesIn(lines)
      {
        AddEndpointAt(Build(init).value, Fields(last).0, Tokens(last), technology);
      }
    }
  }

  /** After the loop each technology's list holds the endpoints of the lines
      naming it, in line order, repeats kept. */
  lemma {:induction false} BuildLists(lines: seq<string>, technology: string)
    requires Build(lines).Success?
    ensures ListOf(Build(lines).value, technology) == EndpointsFor(lines, technology)
  {
    if lines != [] {
      var init, last := lines[..|lines| - 1], lines[|lines| - 1];
      BuildLast(lines);
      BuildLists(init, technology);
      AddEndpointAt(Build(init).value, Fields(last).0, Tokens(last), technology);
    }
  }

  /** After the loop no list is empty. */
  lemma {:induction false} BuildListsNonEmpty(lines: seq<string>)
    requires Build(lines).Success?
    ensures ListsNonEmpty(Build(lines).value)
  {
    if lines != [] {
      var init, last := lines[..|lines| - 1], lines[|lines| - 1];
      BuildLast(lines);
      BuildListsNonEmpty(init);
      AddEndpointNonEmpty(Build(init).value, Fields(last).0, Tokens(last));
    }
  }

  // ---- Counting entries ----

  lemma {:induction false} SumLengthsRemove(allEndpoints: EndpointMap, keys: set<string>, k: string)
    requires keys <= allEndpoints.Keys && k in keys
    ensures SumLengths(allEndpoints, keys) == |allEndpoints[k]| + SumLengths(allEndpoints, keys - {k})
    decreases keys
  {
    var j :| j in keys && SumLengths(allEndpoints, keys) == |allEndpoints[j]| + SumLengths(allEndpoints, keys - {j});
    if j != k {
      SumLengthsRemove(allEndpoints, keys - {j}, k);
      SumLengthsRemove(allEndpoints, keys - {k}, j);
      assert keys - {j} - {k} == keys - {k} - {j};
    }
  }

  lemma {:induction false} SumLengthsAgree(m1: EndpointMap, m2: EndpointMap, keys: set<string>)
    requires keys <= m1.Keys && keys <= m2.Keys
    requires forall k :: k in keys ==> m1[k] == m2[k]
    ensures SumLengths(m1, keys) == SumLengths(m2, keys)
    decreases keys
  {
    if keys != {} {
      var k :| k in keys && SumLengths(m1, keys) == |m1[k]| + SumLengths(m1, keys - {k});
      SumLengthsRemove(m2, keys, k);
      SumLengthsAgree(m1, m2, keys - {k});
    }
  }

  /** Appending one endpoint to one list adds one entry. */
  lemma AppendOneEntry(allEndpoints: EndpointMap, technology: string, endpoint: string)
    ensures Total(allEndpoints[technology := ListOf(allEndpoints, technology) + [endpoint]]) == Total(allEndpoints) + 1
  {
    var m := allEndpoints[technology := ListOf(allEndpoints, technology) + [endpoint]];
    if technology in allEndpoints {
      assert m.Keys == allEndpoints.Keys;
      assert |m[technology]| == |allEndpoints[technology]| + 1;
      SumLengthsRemove(m, m.Keys, technology);
      SumLengthsRemove(allEndpoints, allEndpoints.Keys, technology);
      SumLengthsAgree(m, allEndpoints, allEndpoints.Keys - {technology});
    } else {
      assert m.Keys - {technology} == allEndpoints.Keys;
      SumLengthsRemove(m, m.Keys, technology);
      SumLengthsAgree(m, allEndpoints, allEndpoints.Keys);
    }
  }

  lemma {:induction false} AddEndpointTotal(allEndpoints: EndpointMap, endpoint: string, technologies: seq<string>)
    ensures Total(AddEndpoint(allEndpoints, endpoint, technologies)) == Total(allEndpoints) + |technologies|
  {
    if technologies != [] {
      var init, last := technologies[..|technologies| - 1], technologies[|technologies| - 1];
      var before := AddEndpoint(allEndpoints, endpoint, init);
      AddEndpointTotal(allEndpoints, endpoint, init);
      AppendOneEntry(before, last, endpoint);
      if last !in before {
        assert ListOf(before, last) + [endpoint] == [endpoint];
      }
      assert AddEndpoint(allEndpoints, endpoint, technologies) == before[last := ListOf(before, last) + [endpoint]];
    }
  }

  /** The number of stored entries is the number of comma-separated fields
      over all lines. */
  lemma {:induction false} BuildTotal(lines: seq<string>)
    requires Build(lines).Success?
    ensures Total(Build(lines).value) == EntryCount(lines)
  {
    if lines == [] {
      assert Build(lines).value == map[];
    } else {
      var init, last := lines[..|lines| - 1], lines[|lines| - 1];
      BuildLast(lines);
      BuildTotal(init);
      AddEndpointTotal(Build(init).value, Fields(last).0, Tokens(last));
    }
  }

  /** Each line contributes one more field than it has commas after the
      first space. */
  lemma TokensCount(line: string)
    requires Fields(line).1.Some?
    ensures |Tokens(line)| == Count(Fields(line).1.value, ',') + 1
  {
    SplitLength(Fields(line).1.value, ',');
  }
}
