/**
 * The tree walk of commandRecursive: for every node of the forest, depth
 * first and in order, print its label behind the current prefix, fetch the
 * node's INFO text for the category and print the lines the filter keeps,
 * indented two columns past the prefix; then walk its replicas behind the
 * prefix "<spaces>├──".
 *
 * Printing is modelled as the sequence of printed lines, the INFO calls as
 * the sequence of addresses fetched, and log.Fatalln as a fault that ends
 * the walk (what was printed before it stays printed).
 */
module Walker {
  import opened Common
  import opened Text
  import opened Topology

  /**
   * The printing closure handed to commandRecursive (callWrapper's result):
   * from the indent and the node's INFO lines to the lines it prints.
   */
  type Printer = (string, seq<string>) -> seq<string>

  const NotFoundMessage := "not found redis master/slave info"
  const Branch := "├──"

  /** A string of n blanks. */
  function Pad(n: nat): (s: string)
    ensures |s| == n
    ensures forall k :: 0 <= k < n ==> s[k] == ' '
  {
    if n == 0 then "" else Pad(n - 1) + " "
  }

  /** spaces: n blanks built one at a time (none when n is not positive). */
  method Spaces(n: int) returns (s: string)
    ensures s == Pad(if n < 0 then 0 else n)
  {
    s := "";
    var i := 0;
    while i < n
      invariant 0 <= i && (n < 0 ==> i == 0) && (n >= 0 ==> i <= n)
      invariant s == Pad(i)
    {
      s := s + " ";
      i := i + 1;
    }
  }

  // ---------------------------------------------------------------------------
  // What a walk does

  /** What was printed, which nodes were asked for their INFO text, and the fault that ended it, if any. */
  datatype Run = Run(out: seq<string>, fetched: seq<(string, int)>, fault: Option<Fault>)

  const Idle := Run([], [], None)

  /** `a` and then, unless `a` ended the process, `b`. */
  function Then(a: Run, b: Run): Run {
    if a.fault.Some? then a else Run(a.out + b.out, a.fetched + b.fetched, b.fault)
  }

  lemma ThenAssoc(a: Run, b: Run, c: Run)
    ensures Then(Then(a, b), c) == Then(a, Then(b, c))
  {
    if a.fault.None? && b.fault.None? {
      assert (a.out + b.out) + c.out == a.out + (b.out + c.out);
      assert (a.fetched + b.fetched) + c.fetched == a.fetched + (b.fetched + c.fetched);
    }
  }

  lemma ThenIdle(a: Run)
    ensures Then(Idle, a) == a
    ensures a.fault.None? ==> Then(a, Idle) == a
  {
    assert [] + a.out == a.out && [] + a.fetched == a.fetched;
    assert a.out + [] == a.out && a.fetched + [] == a.fetched;
  }

  /** A node's own part of the walk: its label, the INFO call, and what the closure prints for its lines. */
  function NodeRun(fetch: Fetcher, command: string, call: Printer, prefix: string, n: Node): Run {
    var header := prefix + n.showText;
    match fetch(command, n.ip, n.port)
    case None => Run([header], [(n.ip, n.port)], Some(FetchFailed(command, n.ip, n.port)))
    case Some(text) => Run([header] + call(Pad(|prefix| + 2), Split(text, '\n')), [(n.ip, n.port)], None)
  }

  /** commandRecursive on a forest: the "not found" message when it is empty. */
  function Walk(fetch: Fetcher, command: string, call: Printer, prefix: string, ns: seq<Node>): Run
    decreases ns, 1
  {
    if |ns| == 0 then Run([NotFoundMessage], [], None)
    else WalkNodes(fetch, command, call, prefix, ns)
  }

  /** The loop over the nodes of a forest. */
  function WalkNodes(fetch: Fetcher, command: string, call: Printer, prefix: string, ns: seq<Node>): Run
    decreases ns, 0
  {
    if ns == [] then Idle
    else Then(Visit(fetch, command, call, prefix, ns[0]), WalkNodes(fetch, command, call, prefix, ns[1..]))
  }

  /** One node and then, when it has any, its replicas one level deeper. */
  function Visit(fetch: Fetcher, command: string, call: Printer, prefix: string, n: Node): Run
    decreases n, 2
  {
    Then(NodeRun(fetch, command, call, prefix, n),
         if |n.slaves| > 0 then Walk(fetch, command, call, Pad(|prefix|) + Branch, n.slaves) else Idle)
  }

  /** commandRecursive, printing as it goes. */
  method CommandRecursive(fetch: Fetcher, command: string, prefix: string, cluster: seq<Node>, call: Printer)
    returns (out: seq<string>, fetched: seq<(string, int)>, fault: Option<Fault>)
    ensures Run(out, fetched, fault) == Walk(fetch, command, call, prefix, cluster)
    decreases cluster
  {
    if |cluster| == 0 {
      return [NotFoundMessage], [], None;
    }
    out, fetched, fault := [], [], None;
    assert cluster[0..] == cluster;
    ThenIdle(WalkNodes(fetch, command, call, prefix, cluster));
    for i := 0 to |cluster|
      invariant fault == None
      invariant WalkNodes(fetch, command, call, prefix, cluster)
             == Then(Run(out, fetched, None), WalkNodes(fetch, command, call, prefix, cluster[i..]))
    {
      var redis := cluster[i];
      ghost var before, fetchedBefore := out, fetched;
      out := out + [prefix + redis.showText];
      fetched := fetched + [(redis.ip, redis.port)];
      var text := fetch(command, redis.ip, redis.port);
      if text.None? {
        fault := Some(FetchFailed(command, redis.ip, redis.port));
        FailedStep(fetch, command, call, prefix, cluster, i, before, fetchedBefore);
        return;
      }
      var indent := Spaces(|prefix| + 2);
      var printed := call(indent, Split(text.value, '\n'));
      out := out + printed;
      var below := Idle;
      if |redis.slaves| > 0 {
        var pad := Spaces(|prefix|);
        var subOut, subFetched, subFault := CommandRecursive(fetch, command, pad + Branch, redis.slaves, call);
        below := Run(subOut, subFetched, subFault);
      }
      VisitedStep(fetch, command, call, prefix, cluster, i, before, fetchedBefore, text.value, below);
      out, fetched := out + below.out, fetched + below.fetched;
      if below.fault.Some? {
        fault := below.fault;
        return;
      }
    }
    assert cluster[|cluster|..] == [];
    ThenIdle(Run(out, fetched, None));
  }

  /** A node whose INFO call fails ends the walk right after its label. */
  lemma FailedStep(fetch: Fetcher, command: string, call: Printer, prefix: string,
                   ns: seq<Node>, i: nat, out: seq<string>, fetched: seq<(string, int)>)
    requires i < |ns| && fetch(command, ns[i].ip, ns[i].port).None?
    requires WalkNodes(fetch, command, call, prefix, ns)
          == Then(Run(out, fetched, None), WalkNodes(fetch, command, call, prefix, ns[i..]))
    ensures WalkNodes(fetch, command, call, prefix, ns)
         == Run(out + [prefix + ns[i].showText], fetched + [(ns[i].ip, ns[i].port)],
                Some(FetchFailed(command, ns[i].ip, ns[i].port)))
  {
    WalkNodesAt(fetch, command, call, prefix, ns, i);
  }

  /**
   * A node whose INFO call succeeds adds its label, the lines the filter
   * keeps and then the walk of its replicas, if it has any.
   */
  lemma VisitedStep(fetch: Fetcher, command: string, call: Printer, prefix: string,
                    ns: seq<Node>, i: nat, out: seq<string>, fetched: seq<(string, int)>, text: string, below: Run)
    requires i < |ns| && fetch(command, ns[i].ip, ns[i].port) == Some(text)
    requires WalkNodes(fetch, command, call, prefix, ns)
          == Then(Run(out, fetched, None), WalkNodes(fetch, command, call, prefix, ns[i..]))
    requires below == if |ns[i].slaves| > 0 then Walk(fetch, command, call, Pad(|prefix|) + Branch, ns[i].slaves) else Idle
    ensures WalkNodes(fetch, command, call, prefix, ns)
         == Then(Run(out + [prefix + ns[i].showText] + call(Pad(|prefix| + 2), Split(text, '\n')) + below.out,
                     fetched + [(ns[i].ip, ns[i].port)] + below.fetched, below.fault),
                 WalkNodes(fetch, command, call, prefix, ns[i + 1..]))
  {
    WalkNodesAt(fetch, command, call, prefix, ns, i);
    var own := NodeRun(fetch, command, call, prefix, ns[i]);
    var done := Run(out, fetched, None);
    var rest := WalkNodes(fetch, command, call, prefix, ns[i + 1..]);
    ThenAssoc(own, below, rest);
    ThenAssoc(done, own, Then(below, rest));
    ThenAssoc(Then(done, own), below, rest);
    assert out + [prefix + ns[i].showText] + call(Pad(|prefix| + 2), Split(text, '\n'))
        == out + ([prefix + ns[i].showText] + call(Pad(|prefix| + 2), Split(text, '\n')));
  }

  /** WalkNodes from position i: the node at i, then the rest. */
  lemma WalkNodesAt(fetch: Fetcher, command: string, call: Printer, prefix: string, ns: seq<Node>, i: nat)
    requires i < |ns|
    ensures WalkNodes(fetch, command, call, prefix, ns[i..])
         == Then(Visit(fetch, command, call, prefix, ns[i]), WalkNodes(fetch, command, call, prefix, ns[i + 1..]))
  {
    assert ns[i..][0] == ns[i];
    assert ns[i..][1..] == ns[i + 1..];
  }

  // ---------------------------------------------------------------------------
  // The walk, flattened

  /** An empty forest prints only the "not found" message and fetches nothing; any other forest fetches. */
  lemma WalkFetchesIffNonEmpty(fetch: Fetcher, command: string, call: Printer, prefix: string, ns: seq<Node>)
    ensures Walk(fetch, command, call, prefix, ns).fetched == [] <==> |ns| == 0
    ensures |ns| == 0 ==> Walk(fetch, command, call, prefix, ns) == Run([NotFoundMessage], [], None)
  {
    if |ns| > 0 {
      var n := ns[0];
      var own := NodeRun(fetch, command, call, prefix, n);
      var visit := Visit(fetch, command, call, prefix, n);
      assert |own.fetched| == 1;
      assert |visit.fetched| >= 1;
      assert |Walk(fetch, command, call, prefix, ns).fetched| >= 1;
    }
  }

  /** The prefix of a node at depth d: nothing at the roots, else 3(d - 1) blanks and "├──". */
  function Prefix(depth: nat): (p: string)
    ensures |p| == 3 * depth
  {
    if depth == 0 then "" else Pad(3 * (depth - 1)) + Branch
  }

  /** The prefix is empty at the roots; deeper down it is blanks ending in a single branch marker. */
  lemma PrefixShape(depth: nat)
    ensures depth == 0 <==> Prefix(depth) == ""
    ensures depth > 0 ==> Prefix(depth)[3 * depth - 3..] == Branch
    ensures forall k :: 0 <= k < 3 * depth - 3 ==> Prefix(depth)[k] == ' '
  {
    if depth > 0 {
      var p := Pad(3 * (depth - 1));
      assert Prefix(depth) == p + Branch;
      assert (p + Branch)[|p|..] == Branch;
    }
  }

  /** Every node of a forest with its depth, in the order the walk visits them: a node, its replicas, its later siblings. */
  function Preorder(ns: seq<Node>, depth: nat): seq<(Node, nat)>
    decreases ns
  {
    if ns == [] then []
    else [(ns[0], depth)] + Preorder(ns[0].slaves, depth + 1) + Preorder(ns[1..], depth)
  }

  /** The nodes of a preorder list, each printed behind the prefix of its depth, without any recursion. */
  function RunEntries(fetch: Fetcher, command: string, call: Printer, es: seq<(Node, nat)>): Run
    decreases |es|
  {
    if es == [] then Idle
    else Then(NodeRun(fetch, command, call, Prefix(es[0].1), es[0].0), RunEntries(fetch, command, call, es[1..]))
  }

  lemma {:induction false} RunEntriesAppend(fetch: Fetcher, command: string, call: Printer, a: seq<(Node, nat)>, b: seq<(Node, nat)>)
    ensures RunEntries(fetch, command, call, a + b)
         == Then(RunEntries(fetch, command, call, a), RunEntries(fetch, command, call, b))
    decreases |a|
  {
    if a == [] {
      assert a + b == b;
      ThenIdle(RunEntries(fetch, command, call, b));
    } else {
      assert (a + b)[0] == a[0] && (a + b)[1..] == a[1..] + b;
      RunEntriesAppend(fetch, command, call, a[1..], b);
      ThenAssoc(NodeRun(fetch, command, call, Prefix(a[0].1), a[0].0),
                RunEntries(fetch, command, call, a[1..]), RunEntries(fetch, command, call, b));
    }
  }

  /** The flattened run of a non-empty forest: its first node, that node's replicas, then the later roots. */
  lemma PreorderRun(fetch: Fetcher, command: string, call: Printer, ns: seq<Node>, depth: nat)
    requires ns != []
    ensures RunEntries(fetch, command, call, Preorder(ns, depth))
         == Then(Then(NodeRun(fetch, command, call, Prefix(depth), ns[0]),
                      RunEntries(fetch, command, call, Preorder(ns[0].slaves, depth + 1))),
                 RunEntries(fetch, command, call, Preorder(ns[1..], depth)))
  {
    var n := ns[0];
    var own := NodeRun(fetch, command, call, Prefix(depth), n);
    var below := Preorder(n.slaves, depth + 1);
    RunEntriesAppend(fetch, command, call, [(n, depth)] + below, Preorder(ns[1..], depth));
    RunEntriesAppend(fetch, command, call, [(n, depth)], below);
    assert RunEntries(fetch, command, call, [(n, depth)]) == Then(own, Idle) by {
      assert [(n, depth)][1..] == [];
    }
    ThenIdle(own);
  }

  /**
   * The walk of a forest whose roots sit at depth d is the preorder list of
   * its nodes, each printed behind the prefix of its own depth: a node's
   * label and data lines come before its replicas, and its replicas before
   * its later siblings.
   */
  lemma {:induction false} WalkIsPreorder(fetch: Fetcher, command: string, call: Printer, ns: seq<Node>, depth: nat)
    ensures WalkNodes(fetch, command, call, Prefix(depth), ns)
         == RunEntries(fetch, command, call, Preorder(ns, depth))
    decreases ns
  {
    if ns != [] {
      var n := ns[0];
      var prefix := Prefix(depth);
      var below := RunEntries(fetch, command, call, Preorder(n.slaves, depth + 1));
      assert Visit(fetch, command, call, prefix, n)
          == Then(NodeRun(fetch, command, call, prefix, n), below) by {
        if |n.slaves| > 0 {
          assert Prefix(depth + 1) == Pad(|prefix|) + Branch;
          WalkIsPreorder(fetch, command, call, n.slaves, depth + 1);
        } else {
          assert Preorder(n.slaves, depth + 1) == [];
        }
      }
      WalkIsPreorder(fetch, command, call, ns[1..], depth);
      PreorderRun(fetch, command, call, ns, depth);
    }
  }

  /** commandRecursive as the category commands call it, with an empty prefix on a non-empty forest. */
  lemma WalkFromRoots(fetch: Fetcher, command: string, call: Printer, ns: seq<Node>)
    requires |ns| > 0
    ensures Walk(fetch, command, call, "", ns) == RunEntries(fetch, command, call, Preorder(ns, 0))
  {
    WalkIsPreorder(fetch, command, call, ns, 0);
  }

  // ---------------------------------------------------------------------------
  // What the flattened walk prints and fetches

  predicate Reachable(fetch: Fetcher, command: string, e: (Node, nat)) {
    fetch(command, e.0.ip, e.0.port).Some?
  }

  /** The addresses of the nodes of a preorder list, in order. */
  function Addresses(es: seq<(Node, nat)>): (r: seq<(string, int)>)
    ensures |r| == |es|
    ensures forall k :: 0 <= k < |es| ==> r[k] == (es[k].0.ip, es[k].0.port)
  {
    seq(|es|, k requires 0 <= k < |es| => (es[k].0.ip, es[k].0.port))
  }

  /** How many nodes at the front of the list answer their INFO call. */
  function Served(fetch: Fetcher, command: string, es: seq<(Node, nat)>): (m: nat)
    ensures m <= |es|
    ensures forall k :: 0 <= k < m ==> Reachable(fetch, command, es[k])
    ensures m < |es| ==> !Reachable(fetch, command, es[m])
    decreases |es|
  {
    if es == [] || !Reachable(fetch, command, es[0]) then 0
    else 1 + Served(fetch, command, es[1..])
  }

  /**
   * The walk asks every node for its INFO text in preorder and stops at the
   * first node that does not answer: it fails exactly when some node does
   * not answer, with that node's fault, after fetching every node up to it.
   */
  lemma RunEntriesStops(fetch: Fetcher, command: string, call: Printer, es: seq<(Node, nat)>)
    ensures RunEntries(fetch, command, call, es).fault.None? <==> Served(fetch, command, es) == |es|
    ensures Served(fetch, command, es) == |es| ==> RunEntries(fetch, command, call, es).fetched == Addresses(es)
    ensures Served(fetch, command, es) < |es| ==>
      var m := Served(fetch, command, es);
      && RunEntries(fetch, command, call, es).fetched == Addresses(es[..m + 1])
      && RunEntries(fetch, command, call, es).fault == Some(FetchFailed(command, es[m].0.ip, es[m].0.port))
  {
    RunEntriesFault(fetch, command, call, es);
    RunEntriesFetched(fetch, command, call, es);
    assert es[..|es|] == es;
  }

  /** The walk's fault: none when every node answers, else the first silent node's. */
  lemma {:induction false} RunEntriesFault(fetch: Fetcher, command: string, call: Printer, es: seq<(Node, nat)>)
    ensures RunEntries(fetch, command, call, es).fault.None? <==> Served(fetch, command, es) == |es|
    ensures Served(fetch, command, es) < |es| ==>
      RunEntries(fetch, command, call, es).fault
        == Some(FetchFailed(command, es[Served(fetch, command, es)].0.ip, es[Served(fetch, command, es)].0.port))
    decreases |es|
  {
    if es != [] {
      var tail := es[1..];
      RunEntriesFault(fetch, command, call, tail);
    }
  }

  /** How many nodes the walk fetches: those that answer, and the first one that does not. */
  function Asked(fetch: Fetcher, command: string, es: seq<(Node, nat)>): (k: nat)
    ensures k <= |es|
  {
    var m := Served(fetch, command, es);
    if m < |es| then m + 1 else m
  }

  /** The walk fetches the first Asked nodes, in order. */
  lemma {:induction false} RunEntriesFetched(fetch: Fetcher, command: string, call: Printer, es: seq<(Node, nat)>)
    ensures RunEntries(fetch, command, call, es).fetched == Addresses(es[..Asked(fetch, command, es)])
    decreases |es|
  {
    if es != [] {
      var e := es[0];
      var tail := es[1..];
      RunEntriesFetched(fetch, command, call, tail);
      var k := Asked(fetch, command, es);
      if Reachable(fetch, command, e) {
        var k' := Asked(fetch, command, tail);
        assert k == k' + 1;
        assert tail[..k'] == es[..k][1..];
        assert Addresses(es[..k]) == [(e.0.ip, e.0.port)] + Addresses(tail[..k']);
      } else {
        assert Addresses(es[..1]) == [(e.0.ip, e.0.port)];
      }
    }
  }

  /**
   * The lines printed for a node at depth d that answers with `text`: its
   * label behind a prefix 3d columns wide, then what the closure prints for
   * its lines, indented by 3d + 2 blanks.
   */
  function EntryLines(fetch: Fetcher, command: string, call: Printer, e: (Node, nat)): seq<string>
    requires Reachable(fetch, command, e)
  {
    [Prefix(e.1) + e.0.showText] + call(Pad(3 * e.1 + 2), Split(fetch(command, e.0.ip, e.0.port).value, '\n'))
  }

  function EntriesLines(fetch: Fetcher, command: string, call: Printer, es: seq<(Node, nat)>): seq<string>
    requires forall k :: 0 <= k < |es| ==> Reachable(fetch, command, es[k])
    decreases |es|
  {
    if es == [] then [] else EntryLines(fetch, command, call, es[0]) + EntriesLines(fetch, command, call, es[1..])
  }

  /** When every node answers, the walk prints each node's block in preorder, one after the other. */
  lemma {:induction false} RunEntriesPrints(fetch: Fetcher, command: string, call: Printer, es: seq<(Node, nat)>)
    requires forall k :: 0 <= k < |es| ==> Reachable(fetch, command, es[k])
    ensures RunEntries(fetch, command, call, es).out == EntriesLines(fetch, command, call, es)
    decreases |es|
  {
    if es != [] {
      RunEntriesPrints(fetch, command, call, es[1..]);
    }
  }

  /**
   * When a node does not answer, the walk has printed the blocks of the
   * nodes before it in preorder and then that node's label, and nothing more.
   */
  lemma {:induction false} RunEntriesFailurePrints(fetch: Fetcher, command: string, call: Printer, es: seq<(Node, nat)>)
    ensures var m := Served(fetch, command, es);
      m < |es| ==> RunEntries(fetch, command, call, es).out
                   == EntriesLines(fetch, command, call, es[..m]) + [Prefix(es[m].1) + es[m].0.showText]
    decreases |es|
  {
    var m := Served(fetch, command, es);
    if m < |es| {
      var first := NodeRun(fetch, command, call, Prefix(es[0].1), es[0].0);
      var tail := es[1..];
      assert RunEntries(fetch, command, call, es) == Then(first, RunEntries(fetch, command, call, tail));
      if m == 0 {
        assert first.out == [Prefix(es[0].1) + es[0].0.showText];
        assert es[..m] == [];
      } else {
        assert Served(fetch, command, tail) == m - 1;
        RunEntriesFailurePrints(fetch, command, call, tail);
        assert first.out == EntryLines(fetch, command, call, es[0]);
        assert es[..m][1..] == tail[..m - 1];
        assert EntriesLines(fetch, command, call, es[..m])
            == EntryLines(fetch, command, call, es[0]) + EntriesLines(fetch, command, call, tail[..m - 1]);
      }
    }
  }
}
