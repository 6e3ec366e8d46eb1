/** The flow diagram of `js/devansh/shankey.js`: each country's latest usable totals split
    into a flow to "Deaths" and a flow to "Non-Fatal Cases", over a node list that a `Set`
    keeps free of repeats. */
module Shankey {
  import opened Common
  import opened Csv
  import opened Dicts

  const DeathsNode: string := "Deaths"
  const NonFatalNode: string := "Non-Fatal Cases"

  const NoLinksMessage: string :=
    "No valid data found to create Sankey diagram links within the specified date range."

  /** One flow of the diagram. */
  datatype Link = Link(source: string, target: string, value: real)

  /** What `drawSankey` receives. */
  datatype Graph = Graph(nodes: seq<string>, links: seq<Link>)

  /** The condition of the backward scan: a non-empty date inside the data window, both
      cumulative counts non-empty, and both reading as non-negative numbers (text that does
      not parse reads as 0). */
  predicate UsableRow(row: Row)
  {
    InDateRange(row) &&
    HasValue(row, "cumulative_confirmed") && HasValue(row, "cumulative_deceased") &&
    FieldNumber(row, "cumulative_confirmed") >= 0.0 && FieldNumber(row, "cumulative_deceased") >= 0.0
  }

  /** The confirmed and deceased totals of the latest usable row, if there is one. */
  function Latest(rows: seq<Row>): Option<(real, real)>
  {
    match LastWhere(rows, UsableRow)
    case None => None
    case Some(j) => Some((FieldNumber(rows[j], "cumulative_confirmed"), FieldNumber(rows[j], "cumulative_deceased")))
  }

  /** `Math.max(0, confirmed - deceased)`. */
  function NonFatal(confirmed: real, deceased: real): real
  {
    if confirmed - deceased > 0.0 then confirmed - deceased else 0.0
  }

  /** The flows out of one country: none unless it has confirmed cases; then a flow to
      "Deaths" when it has deaths and one to "Non-Fatal Cases" when it has survivors. */
  function CountryLinks(code: string, confirmed: real, deceased: real): seq<Link>
  {
    if confirmed > 0.0 then
      (if deceased > 0.0 then [Link(code, DeathsNode, deceased)] else []) +
      (if NonFatal(confirmed, deceased) > 0.0 then [Link(code, NonFatalNode, NonFatal(confirmed, deceased))] else [])
    else []
  }

  /** The names one country passes to `addNode`, in order. */
  function CountryNames(code: string, rows: seq<Row>): seq<string>
  {
    if Latest(rows).Some? then [code, DeathsNode, NonFatalNode] else []
  }

  /** The links one country pushes. */
  function CountryLinksOf(code: string, rows: seq<Row>): seq<Link>
  {
    match Latest(rows)
    case None => []
    case Some(totals) => CountryLinks(code, totals.0, totals.1)
  }

  /** Every `addNode` argument of the first `n` countries, repeats included. */
  function NamesUpTo(data: seq<seq<Row>>, n: nat): seq<string>
    requires n <= |data| && n <= |CountryCodes|
  {
    if n == 0 then [] else NamesUpTo(data, n - 1) + CountryNames(CountryCodes[n - 1], data[n - 1])
  }

  /** `linksArray` after the first `n` countries. */
  function LinksUpTo(data: seq<seq<Row>>, n: nat): seq<Link>
    requires n <= |data| && n <= |CountryCodes|
  {
    if n == 0 then [] else LinksUpTo(data, n - 1) + CountryLinksOf(CountryCodes[n - 1], data[n - 1])
  }

  /** `addNode(name)` on a node list: a name not listed yet goes to the end. */
  function AddName(nodes: seq<string>, name: string): seq<string>
  {
    if name in nodes then nodes else nodes + [name]
  }

  /** `addNode` applied to each of `names` in turn. */
  function AddNames(nodes: seq<string>, names: seq<string>): seq<string>
  {
    if names == [] then nodes else AddName(AddNames(nodes, names[..|names| - 1]), names[|names| - 1])
  }

  /** Adding names one batch after another lists them in first-added order. */
  lemma {:induction false} KeysSeenConcat(a: seq<string>, b: seq<string>)
    ensures KeysSeen(a + b) == AddNames(KeysSeen(a), b)
  {
    if b == [] {
      assert a + b == a;
    } else {
      var init := b[..|b| - 1];
      KeysSeenConcat(a, init);
      assert (a + b)[..|a + b| - 1] == a + init;
    }
  }

  /** The mutable state of the graph-building step: `nodeSet`, `nodesArray` and `linksArray`. */
  class GraphBuilder {
    var nodeSet: set<string>
    var nodes: seq<string>
    var links: seq<Link>

    /** The node list has no repeats and the set holds exactly the listed names. */
    ghost predicate Valid()
      reads this
    {
      Distinct(nodes) && (forall name :: name in nodeSet <==> name in nodes)
    }

    constructor ()
      ensures Valid() && nodes == [] && links == []
    {
      nodeSet := {};
      nodes := [];
      links := [];
    }

    /** `addNode`: lists a name the set has not seen yet. */
    method AddNode(name: string)
      requires Valid()
      modifies this
      ensures Valid()
      ensures nodes == AddName(old(nodes), name)
      ensures links == old(links)
    {
      if name !in nodeSet {
        assert forall i :: 0 <= i < |nodes| ==> nodes[i] != name;
        nodeSet := nodeSet + {name};
        nodes := nodes + [name];
      }
    }

    /** The `forEach` body for one country: scan backwards for the latest usable row; if
        there is one, add the three node names and push the country's links. */
    method AddCountry(code: string, rows: seq<Row>)
      requires Valid()
      modifies this
      ensures Valid()
      ensures nodes == AddNames(old(nodes), CountryNames(code, rows))
      ensures links == old(links) + CountryLinksOf(code, rows)
    {
      var found := FindLatest(rows, UsableRow);
      if found.Some? {
        var entry := rows[found.value];
        var confirmed := FieldNumber(entry, "cumulative_confirmed");
        var deceased := FieldNumber(entry, "cumulative_deceased");
        var nonFatalCases := if 0.0 < confirmed - deceased then confirmed - deceased else 0.0;
        ghost var before := (nodes, links);
        AddNode(code);
        AddNode(DeathsNode);
        AddNode(NonFatalNode);
        if confirmed > 0.0 {
          if deceased > 0.0 {
            links := links + [Link(code, DeathsNode, deceased)];
          }
          if nonFatalCases > 0.0 {
            links := links + [Link(code, NonFatalNode, nonFatalCases)];
          }
        }
        assert Latest(rows) == Some((confirmed, deceased));
        AddThree(before.0, code, DeathsNode, NonFatalNode);
        assert links == before.1 + CountryLinks(code, confirmed, deceased) by {
          assert nonFatalCases == NonFatal(confirmed, deceased);
        }
      } else {
        assert CountryNames(code, rows) == [];
      }
    }
  }

  lemma {:induction false} AddThree(nodes: seq<string>, a: string, b: string, c: string)
    ensures AddNames(nodes, [a, b, c]) == AddName(AddName(AddName(nodes, a), b), c)
  {
    assert AddNames(nodes, [a]) == AddName(nodes, a) by {
      assert [a][..0] == [];
    }
    assert AddNames(nodes, [a, b]) == AddName(AddNames(nodes, [a]), b) by {
      assert [a, b][..1] == [a];
    }
    assert AddNames(nodes, [a, b, c]) == AddName(AddNames(nodes, [a, b]), c) by {
      assert [a, b, c][..2] == [a, b];
    }
  }

  /** The whole graph-building step over the three downloaded files. */
  method BuildGraph(data: seq<seq<Row>>) returns (graph: Graph)
    requires |data| == |CountryCodes|
    ensures graph.nodes == KeysSeen(NamesUpTo(data, |data|))
    ensures graph.links == LinksUpTo(data, |data|)
  {
    var builder := new GraphBuilder();
    var i := 0;
    while i < |data|
      invariant 0 <= i <= |data|
      invariant builder.Valid()
      invariant builder.nodes == KeysSeen(NamesUpTo(data, i))
      invariant builder.links == LinksUpTo(data, i)
    {
      builder.AddCountry(CountryCodes[i], data[i]);
      NodesStep(data, i);
      i := i + 1;
    }
    graph := Graph(builder.nodes, builder.links);
  }

  /** One more country extends the node list by that country's names. */
  lemma {:induction false} NodesStep(data: seq<seq<Row>>, i: nat)
    requires i < |data| && i < |CountryCodes|
    ensures KeysSeen(NamesUpTo(data, i + 1)) == AddNames(KeysSeen(NamesUpTo(data, i)), CountryNames(CountryCodes[i], data[i]))
  {
    KeysSeenConcat(NamesUpTo(data, i), CountryNames(CountryCodes[i], data[i]));
  }

  /** `drawSankey`'s guard: no links means a message instead of a diagram. */
  function SankeyView(graph: Graph): (r: Render<Graph>)
    ensures r.Message? <==> graph.links == []
    ensures r.Draw? ==> r.data == graph
  {
    if |graph.links| == 0 then Message(NoLinksMessage) else Draw(graph)
  }

  function LinkTotal(links: seq<Link>): real
  {
    if links == [] then 0.0 else LinkTotal(links[..|links| - 1]) + links[|links| - 1].value
  }

  /** The flows of one country: each leaves the country with a positive value; the one to
      "Deaths" (listed first) exists exactly when there are confirmed cases and deaths and
      carries the deaths; the one to "Non-Fatal Cases" exists exactly when there are
      confirmed cases and survivors and carries the survivors. */
  lemma {:induction false} CountryLinksShape(code: string, confirmed: real, deceased: real)
    ensures var r := CountryLinks(code, confirmed, deceased);
      |r| <= 2 &&
      (forall l :: l in r ==> l.source == code && l.value > 0.0 && (l.target == DeathsNode || l.target == NonFatalNode)) &&
      (Link(code, DeathsNode, deceased) in r <==> confirmed > 0.0 && deceased > 0.0) &&
      (forall l :: l in r && l.target == DeathsNode ==> l.value == deceased) &&
      (Link(code, NonFatalNode, confirmed - deceased) in r <==> confirmed > 0.0 && confirmed - deceased > 0.0) &&
      (forall l :: l in r && l.target == NonFatalNode ==> l.value == confirmed - deceased) &&
      (|r| == 2 ==> r[0].target == DeathsNode && r[1].target == NonFatalNode)
  {
  }

  /** With deaths between zero and the confirmed count, the flows out of a country add up to
      its confirmed count; deaths above the confirmed count are not clamped, so the flows
      then add up to more. */
  lemma {:induction false} CountryLinksTotal(code: string, confirmed: real, deceased: real)
    requires confirmed >= 0.0 && deceased >= 0.0
    ensures deceased <= confirmed ==> LinkTotal(CountryLinks(code, confirmed, deceased)) == confirmed
    ensures confirmed > 0.0 && deceased > confirmed ==>
      LinkTotal(CountryLinks(code, confirmed, deceased)) == deceased > confirmed
  {
    var r := CountryLinks(code, confirmed, deceased);
    if |r| == 2 {
      assert LinkTotal(r) == LinkTotal(r[..1]) + r[1].value;
      assert r[..1][..0] == [];
    } else if |r| == 1 {
      assert r[..0] == [];
    }
  }

  /** The latest usable row is read with non-negative totals. */
  lemma {:induction false} LatestNonNegative(rows: seq<Row>)
    ensures Latest(rows).Some? <==> exists j :: 0 <= j < |rows| && UsableRow(rows[j])
    ensures Latest(rows).Some? ==> Latest(rows).value.0 >= 0.0 && Latest(rows).value.1 >= 0.0
  {
    if exists j :: 0 <= j < |rows| && UsableRow(rows[j]) {
      assert LastWhere(rows, UsableRow).Some?;
    }
  }

  /** Every link joins two names that were passed to `addNode`. */
  lemma {:induction false} LinksBetweenNames(data: seq<seq<Row>>, n: nat)
    requires n <= |data| && n <= |CountryCodes|
    ensures forall l :: l in LinksUpTo(data, n) ==> l.source in NamesUpTo(data, n) && l.target in NamesUpTo(data, n)
  {
    if n > 0 {
      LinksBetweenNames(data, n - 1);
      var code := CountryCodes[n - 1];
      var names := NamesUpTo(data, n);
      assert NamesUpTo(data, n - 1) <= names;
      match Latest(data[n - 1])
      case None =>
      case Some(totals) =>
        CountryLinksShape(code, totals.0, totals.1);
        assert code in names && DeathsNode in names && NonFatalNode in names by {
          assert names[|names| - 3..] == [code, DeathsNode, NonFatalNode];
        }
    }
  }

  /** Some of the first `n` files has a usable row. */
  predicate AnyUsable(data: seq<seq<Row>>, n: nat)
    requires n <= |data|
  {
    exists i :: 0 <= i < n && Latest(data[i]).Some?
  }

  /** The only names added are the visited countries and the two outcome nodes. */
  lemma {:induction false} NamesWithin(data: seq<seq<Row>>, n: nat)
    requires n <= |data| && n <= |CountryCodes|
    ensures forall name :: name in NamesUpTo(data, n) ==> name in CountryCodes[..n] || name == DeathsNode || name == NonFatalNode
  {
    if n > 0 {
      NamesWithin(data, n - 1);
      var prev := NamesUpTo(data, n - 1);
      var extra := CountryNames(CountryCodes[n - 1], data[n - 1]);
      assert NamesUpTo(data, n) == prev + extra;
      assert CountryCodes[..n - 1] <= CountryCodes[..n];
      assert CountryCodes[n - 1] in CountryCodes[..n];
    }
  }

  /** Country `i`'s name is added exactly when its file has a usable row, even when its
      confirmed count is 0. */
  lemma {:induction false} CountryNamed(data: seq<seq<Row>>, n: nat, i: nat)
    requires n <= |data| && n <= |CountryCodes| && i < n
    ensures CountryCodes[i] in NamesUpTo(data, n) <==> Latest(data[i]).Some?
  {
    if i == n - 1 {
      CountryNamedOnItsTurn(data, i);
    } else {
      CountryNamed(data, n - 1, i);
      NamesOfOthers(data, n - 1, i);
    }
  }

  /** After country `i`'s turn, its name is listed exactly when its file has a usable row. */
  lemma {:induction false} CountryNamedOnItsTurn(data: seq<seq<Row>>, i: nat)
    requires i < |data| && i < |CountryCodes|
    ensures CountryCodes[i] in NamesUpTo(data, i + 1) <==> Latest(data[i]).Some?
  {
    var code := CountryCodes[i];
    var prev := NamesUpTo(data, i);
    var extra := CountryNames(code, data[i]);
    assert NamesUpTo(data, i + 1) == prev + extra;
    NamesWithin(data, i);
    assert code !in CountryCodes[..i];
    assert code != DeathsNode && code != NonFatalNode;
  }

  /** Another country's turn does not list country `i`. */
  lemma {:induction false} NamesOfOthers(data: seq<seq<Row>>, n: nat, i: nat)
    requires n < |data| && n < |CountryCodes| && i < n
    ensures CountryCodes[i] in NamesUpTo(data, n + 1) <==> CountryCodes[i] in NamesUpTo(data, n)
  {
    var code := CountryCodes[i];
    assert NamesUpTo(data, n + 1) == NamesUpTo(data, n) + CountryNames(CountryCodes[n], data[n]);
    assert code != DeathsNode && code != NonFatalNode && code != CountryCodes[n];
  }

  /** "Deaths" and "Non-Fatal Cases" are added exactly when some file has a usable row. */
  lemma {:induction false} OutcomesNamed(data: seq<seq<Row>>, n: nat)
    requires n <= |data| && n <= |CountryCodes|
    ensures DeathsNode in NamesUpTo(data, n) <==> AnyUsable(data, n)
    ensures NonFatalNode in NamesUpTo(data, n) <==> AnyUsable(data, n)
  {
    if n > 0 {
      OutcomesNamed(data, n - 1);
      var prev := NamesUpTo(data, n - 1);
      var extra := CountryNames(CountryCodes[n - 1], data[n - 1]);
      assert NamesUpTo(data, n) == prev + extra;
      assert AnyUsable(data, n) <==> AnyUsable(data, n - 1) || Latest(data[n - 1]).Some?;
    }
  }

  /** The finished graph: its nodes are the added names, each once, in first-added order;
      every link joins two nodes; a country is a node exactly when its file has a usable
      row. */
  lemma {:induction false} GraphProperties(data: seq<seq<Row>>)
    requires |data| == |CountryCodes|
    ensures var nodes := KeysSeen(NamesUpTo(data, |data|));
      Distinct(nodes) && InFirstSeenOrder(nodes, NamesUpTo(data, |data|)) &&
      (forall l :: l in LinksUpTo(data, |data|) ==> l.source in nodes && l.target in nodes) &&
      (forall i :: 0 <= i < |CountryCodes| ==> (CountryCodes[i] in nodes <==> Latest(data[i]).Some?)) &&
      (DeathsNode in nodes <==> AnyUsable(data, |data|)) &&
      (NonFatalNode in nodes <==> AnyUsable(data, |data|))
  {
    var names := NamesUpTo(data, |data|);
    KeysSeenMembers(names);
    KeysSeenOrder(names);
    LinksBetweenNames(data, |data|);
    OutcomesNamed(data, |data|);
    forall i | 0 <= i < |CountryCodes| ensures CountryCodes[i] in names <==> Latest(data[i]).Some? {
      CountryNamed(data, |data|, i);
    }
  }
}
