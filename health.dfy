/**
 * The health check of hc-vcs.py: the tables of expected attribute values and
 * `health_check`, with the printed warnings returned as a multiset (the
 * tables are dictionaries, so the order of the warnings is not fixed).
 */
module Health {
  import opened Wrappers
  import opened Text
  import opened Normalize
  import opened Records
  import opened Cluster

  /** Expected attributes of a failover service group (hc-vcs.py:36-44). */
  const FailoverGroupAttr: map<string, string> := map[
    "ManageFaults" := "ALL",
    "AutoStart" := "1",
    "AutoFailOver" := "1",
    "OnlineRetryLimit" := "0",
    "AutoStartPolicy" := "Order",
    "FailOverPolicy" := "Priority",
    "ClusterFailOverPolicy" := "Manual"]

  /** Expected attributes of a parallel service group: the failover table with one override (hc-vcs.py:50-51). */
  const ParallelGroupAttr: map<string, string> := FailoverGroupAttr["AutoFailOver" := "0"]

  /** Expected attributes of every resource (hc-vcs.py:57-61). */
  const StdResourceAttr: map<string, string> := map["Probed" := "1", "Enabled" := "1", "Critical" := "1"]

  /** Expected cluster attributes (hc-vcs.py:67-72). */
  const StdClusterAttr: map<string, string> := map[
    "BackupInterval" := "3",
    "Administrators" := "admin",
    "Guests" := "",
    "Operators" := ""]

  /** The cluster attributes read before any check (hc-vcs.py:87-90). */
  const Shown: set<string> := {"ClusterTime", "ClusterName", "VCSFeatures", "WACPort"}

  /**
   * The parallel table has the failover table's keys and values except
   * `AutoFailOver`, which is `'0'` instead of `'1'`; building it leaves the
   * failover table as it was.
   */
  lemma ParallelTable()
    ensures ParallelGroupAttr.Keys == FailoverGroupAttr.Keys
    ensures ParallelGroupAttr["AutoFailOver"] == "0" && FailoverGroupAttr["AutoFailOver"] == "1"
    ensures forall k :: k in FailoverGroupAttr && k != "AutoFailOver" ==> ParallelGroupAttr[k] == FailoverGroupAttr[k]
  {
  }

  /** What a warning is about. */
  datatype Scope = OnCluster(system: string) | OnGroup(group: string) | OnResource(resource: string, owner: string)

  /** One printed warning. */
  datatype Warning =
    | Writable
    | Frozen(system: string)
    | NotRunning(system: string, state: string)
    | AttrMismatch(scope: Scope, key: string, expected: string, actual: string)
    | NotProbed(group: string, system: string)
    | AutoDisabled(group: string)
    | NodesMissing(group: string, nodes: set<string>)

  /** How the check ended: it ran to the end, found no status, or raised. */
  datatype Halt = Completed | NoContact | Raised(error: Error)

  /** The warnings printed and how the check ended. */
  datatype Report = Report(warnings: multiset<Warning>, halt: Halt)

  /** `first` printed before a run that produced `rest`. */
  function Then(first: multiset<Warning>, rest: Report): Report {
    Report(first + rest.warnings, rest.halt)
  }

  /** `d.get(k, default)`. */
  function Get(m: map<string, string>, k: string, default: string): string {
    if k in m then m[k] else default
  }

  /**
   * The table a group is checked against (hc-vcs.py:119-122): the parallel one
   * exactly when its `Parallel` attribute is `'1'`; any other value, or none,
   * selects the failover one.
   */
  function TableFor(gInfo: map<string, string>): (t: map<string, string>)
    ensures t == ParallelGroupAttr <==> "Parallel" in gInfo && gInfo["Parallel"] == "1"
    ensures t == FailoverGroupAttr <==> !("Parallel" in gInfo && gInfo["Parallel"] == "1")
  {
    assert ParallelGroupAttr["AutoFailOver"] != FailoverGroupAttr["AutoFailOver"];
    if Get(gInfo, "Parallel", "0") == "1" then ParallelGroupAttr else FailoverGroupAttr
  }

  /** The mismatch warnings for those `keys` of `table` that `actual` holds with another value. */
  function Mismatches(scope: Scope, table: map<string, string>, actual: map<string, string>, keys: set<string>): set<Warning> {
    set k | k in keys && k in table && k in actual && actual[k] != table[k] :: AttrMismatch(scope, k, table[k], actual[k])
  }

  /** The mismatch warnings of a whole table. */
  function AttrWarnings(scope: Scope, table: map<string, string>, actual: map<string, string>): set<Warning> {
    Mismatches(scope, table, actual, table.Keys)
  }

  /**
   * A warning is issued exactly for an expected key that the map holds with a
   * different value, and it names the key, the expected and the actual value;
   * a key the map lacks issues nothing.
   */
  lemma AttrWarningsExact(scope: Scope, table: map<string, string>, actual: map<string, string>)
    ensures forall k, e, a :: AttrMismatch(scope, k, e, a) in AttrWarnings(scope, table, actual) <==>
      k in table && k in actual && actual[k] != table[k] && e == table[k] && a == actual[k]
    ensures forall w :: w in AttrWarnings(scope, table, actual) ==> w.AttrMismatch? && w.scope == scope
    ensures forall k :: k !in actual ==> forall e, a :: AttrMismatch(scope, k, e, a) !in AttrWarnings(scope, table, actual)
  {
  }

  lemma MismatchesAdd(scope: Scope, table: map<string, string>, actual: map<string, string>, keys: set<string>, k: string)
    requires k in table
    ensures k !in actual ==> Mismatches(scope, table, actual, keys + {k}) == Mismatches(scope, table, actual, keys)
    ensures k in actual ==>
      (Mismatches(scope, table, actual, keys + {k}) ==
       Mismatches(scope, table, actual, keys) + (if actual[k] != table[k] then {AttrMismatch(scope, k, table[k], actual[k])} else {}))
  {
  }

  /** The warnings for some of a table's keys are among those of the whole table. */
  lemma MismatchesWithin(scope: Scope, table: map<string, string>, actual: map<string, string>, keys: set<string>)
    requires keys <= table.Keys
    ensures Mismatches(scope, table, actual, keys) <= AttrWarnings(scope, table, actual)
  {
  }

  /**
   * The guarded comparison loop over a table (hc-vcs.py:123-128, 143-148): the
   * keys in whatever order the dictionary yields them, a missing key skipped.
   */
  method CompareGuarded(scope: Scope, table: map<string, string>, actual: map<string, string>) returns (found: set<Warning>)
    ensures found == AttrWarnings(scope, table, actual)
  {
    found := {};
    var todo := table.Keys;
    while todo != {}
      invariant todo <= table.Keys
      invariant found == Mismatches(scope, table, actual, table.Keys - todo)
      decreases |todo|
    {
      var k :| k in todo;
      MismatchesAdd(scope, table, actual, table.Keys - todo, k);
      assert table.Keys - (todo - {k}) == (table.Keys - todo) + {k};
      if k in actual && actual[k] != table[k] {
        found := found + {AttrMismatch(scope, k, table[k], actual[k])};
      }
      todo := todo - {k};
    }
    assert table.Keys - todo == table.Keys;
  }

  /**
   * The unguarded comparison loop over the cluster table (hc-vcs.py:101-104):
   * a key `actual` lacks raises `KeyError` (`missing`) after the warnings of the
   * keys visited before it.
   */
  method CompareStrict(scope: Scope, table: map<string, string>, actual: map<string, string>)
    returns (found: set<Warning>, missing: bool)
    ensures missing <==> !(table.Keys <= actual.Keys)
    ensures !missing ==> found == AttrWarnings(scope, table, actual)
    ensures found <= AttrWarnings(scope, table, actual)
  {
    found := {};
    var todo := table.Keys;
    while todo != {}
      invariant todo <= table.Keys
      invariant table.Keys - todo <= actual.Keys
      invariant found == Mismatches(scope, table, actual, table.Keys - todo)
      decreases |todo|
    {
      var k :| k in todo;
      if k !in actual {
        MismatchesWithin(scope, table, actual, table.Keys - todo);
        assert k in table.Keys && k !in actual.Keys;
        return found, true;
      }
      MismatchesAdd(scope, table, actual, table.Keys - todo, k);
      assert table.Keys - (todo - {k}) == (table.Keys - todo) + {k};
      if actual[k] != table[k] {
        found := found + {AttrMismatch(scope, k, table[k], actual[k])};
      }
      todo := todo - {k};
    }
    assert table.Keys - todo == table.Keys;
    return found, false;
  }

  /** The entries at even positions of a list. */
  function EvenPositions(xs: seq<string>): set<string> {
    set i | 0 <= i < |xs| && i % 2 == 0 :: xs[i]
  }

  /**
   * The systems a group may run on (hc-vcs.py:131-132): the even-position
   * entries of its tab-separated `SystemList`; without one, the single empty name.
   */
  function GroupNodes(gInfo: map<string, string>): (nodes: set<string>)
    ensures "SystemList" !in gInfo ==> nodes == {""}
  {
    var syslist := SplitOn(Get(gInfo, "SystemList", ""), '\t');
    assert "SystemList" !in gInfo ==> syslist == [""];
    assert "SystemList" !in gInfo ==> syslist[0] == "";
    EvenPositions(syslist)
  }

  /**
   * The missing-node warning (hc-vcs.py:133-136): issued exactly when some
   * cluster system is not among the group's systems, and naming exactly those.
   */
  function NodeWarnings(group: string, clusterNodes: set<string>, groupNodes: set<string>): (ws: multiset<Warning>)
    ensures ws == multiset{} <==> clusterNodes <= groupNodes
    ensures forall w :: w in ws ==> w == NodesMissing(group, clusterNodes - groupNodes)
    ensures forall w :: ws[w] <= 1
  {
    var off := clusterNodes - groupNodes;
    assert forall x :: x in clusterNodes && x !in groupNodes ==> x in off;
    if off != {} then multiset{NodesMissing(group, off)} else multiset{}
  }

  /**
   * The resources checked for a group (hc-vcs.py:139): the name column of those
   * `resource_list` rows whose system column is the target system, in order.
   */
  function ResourcesOn(rows: seq<Pair>, system: string): (names: seq<string>)
    ensures |names| <= |rows|
    ensures forall n :: n in names <==> exists i :: 0 <= i < |rows| && rows[i][1] == system && rows[i][0] == n
  {
    if rows == [] then []
    else
      var rest := ResourcesOn(rows[1..], system);
      assert forall i :: 1 <= i < |rows| ==> rows[i] == rows[1..][i - 1];
      (if rows[0][1] == system then [rows[0][0]] else []) + rest
  }

  /**
   * The system-level warnings (hc-vcs.py:94-99): writable when `ReadOnly` is not
   * `'1'`, frozen, and not running; each issued on its own condition alone.
   */
  function SystemWarnings(system: string, readOnly: string, st: SystemState): (ws: multiset<Warning>)
    ensures Writable in ws <==> readOnly != "1"
    ensures Frozen(system) in ws <==> st.frozen
    ensures NotRunning(system, st.state) in ws <==> st.state != "RUNNING"
    ensures forall w :: w in ws ==> w == Writable || w == Frozen(system) || w == NotRunning(system, st.state)
    ensures forall w :: ws[w] <= 1
  {
    (if readOnly != "1" then multiset{Writable} else multiset{}) +
    (if st.frozen then multiset{Frozen(system)} else multiset{}) +
    (if st.state != "RUNNING" then multiset{NotRunning(system, st.state)} else multiset{})
  }

  /** The group state warnings (hc-vcs.py:110-113): not probed, and autodisabled, each on its own. */
  function StateWarnings(group: string, system: string, st: GroupState): (ws: multiset<Warning>)
    ensures NotProbed(group, system) in ws <==> !st.probed
    ensures AutoDisabled(group) in ws <==> st.autodisabled
    ensures forall w :: w in ws ==> w == NotProbed(group, system) || w == AutoDisabled(group)
    ensures forall w :: ws[w] <= 1
  {
    (if !st.probed then multiset{NotProbed(group, system)} else multiset{}) +
    (if st.autodisabled then multiset{AutoDisabled(group)} else multiset{})
  }

  /**
   * The answers of the object's queries that `health_check` uses: the attribute
   * map of a group (hc-vcs.py:115-117), the `resource_list` rows of a group
   * (hc-vcs.py:139) and the attribute map of a resource on a system
   * (hc-vcs.py:140-141).
   */
  datatype Queries = Queries(
    groupInfo: string -> map<string, string>,
    resourceList: string -> seq<Pair>,
    resourceInfo: (string, string) -> map<string, string>)

  /** Those answers for the object on host `h`, with `quad2dict` as assumed. */
  function QueriesOf(h: Host): Queries {
    Queries(
      group => QuadToMap(h.GroupDisplay(group, "")),
      group => h.ResourceList(group),
      (resource, system) => QuadToMap(h.ResourceDisplay(resource, system)))
  }

  /** The resource warnings for the resources `names` of a group, one resource after another. */
  function ResourcesWarnings(q: Queries, system: string, group: string, names: seq<string>): multiset<Warning> {
    if names == [] then multiset{}
    else
      var r := names[|names| - 1];
      ResourcesWarnings(q, system, group, names[..|names| - 1]) +
      multiset(AttrWarnings(OnResource(r, group), StdResourceAttr, q.resourceInfo(r, system)))
  }

  /**
   * A resource warning is issued exactly for a listed resource, under that
   * resource and the group, for a mismatch in that resource's map on the system.
   */
  lemma {:induction false} ResourcesWarningsExact(q: Queries, system: string, group: string, names: seq<string>)
    ensures forall w :: w in ResourcesWarnings(q, system, group, names) <==>
      && w.AttrMismatch? && w.scope.OnResource? && w.scope.owner == group && w.scope.resource in names
      && w in AttrWarnings(w.scope, StdResourceAttr, q.resourceInfo(w.scope.resource, system))
  {
    if names != [] {
      var init := names[..|names| - 1];
      var r := names[|names| - 1];
      ResourcesWarningsExact(q, system, group, init);
      AttrWarningsExact(OnResource(r, group), StdResourceAttr, q.resourceInfo(r, system));
      assert names == init + [r];
      forall w ensures w in ResourcesWarnings(q, system, group, names) <==>
        && w.AttrMismatch? && w.scope.OnResource? && w.scope.owner == group && w.scope.resource in names
        && w in AttrWarnings(w.scope, StdResourceAttr, q.resourceInfo(w.scope.resource, system))
      {
        if w.AttrMismatch? && w.scope.OnResource? && w.scope.resource in names && w.scope.resource !in init {
          assert w.scope.resource == r;
        }
      }
    }
  }

  /**
   * All warnings for one group on the target system (hc-vcs.py:108-148): its
   * state, its attributes against the table its `Parallel` attribute selects,
   * the cluster systems missing from its `SystemList`, and the attributes of
   * each of its resources on the target system.
   */
  function GroupWarnings(q: Queries, system: string, group: string, st: GroupState, nodes: set<string>): multiset<Warning> {
    var gInfo := q.groupInfo(group);
    StateWarnings(group, system, st) +
    multiset(AttrWarnings(OnGroup(group), TableFor(gInfo), gInfo)) +
    NodeWarnings(group, nodes, GroupNodes(gInfo)) +
    ResourcesWarnings(q, system, group, ResourcesOn(q.resourceList(group), system))
  }

  /**
   * The group attribute warnings among a group's warnings are exactly the
   * mismatches of its attribute map against its table.
   */
  lemma GroupAttrWarnings(q: Queries, system: string, group: string, st: GroupState, nodes: set<string>)
    ensures var gInfo := q.groupInfo(group);
      forall k, e, a :: AttrMismatch(OnGroup(group), k, e, a) in GroupWarnings(q, system, group, st, nodes) <==>
        k in TableFor(gInfo) && k in gInfo && gInfo[k] != TableFor(gInfo)[k] && e == TableFor(gInfo)[k] && a == gInfo[k]
  {
    var gInfo := q.groupInfo(group);
    AttrWarningsExact(OnGroup(group), TableFor(gInfo), gInfo);
    ResourcesWarningsExact(q, system, group, ResourcesOn(q.resourceList(group), system));
  }

  /**
   * Resource checks cover exactly the resources the group's `resource_list`
   * places on the target system: a resource warning names such a resource and
   * a mismatch of its attribute map, and every such mismatch is warned about.
   */
  lemma GroupResourceWarnings(q: Queries, system: string, group: string, st: GroupState, nodes: set<string>)
    ensures forall r, k, e, a :: AttrMismatch(OnResource(r, group), k, e, a) in GroupWarnings(q, system, group, st, nodes) <==>
      && r in ResourcesOn(q.resourceList(group), system)
      && AttrMismatch(OnResource(r, group), k, e, a) in AttrWarnings(OnResource(r, group), StdResourceAttr, q.resourceInfo(r, system))
    ensures forall s, r, k, e, a :: s != group ==> AttrMismatch(OnResource(r, s), k, e, a) !in GroupWarnings(q, system, group, st, nodes)
  {
    var gInfo := q.groupInfo(group);
    var names := ResourcesOn(q.resourceList(group), system);
    var parts := StateWarnings(group, system, st) + multiset(AttrWarnings(OnGroup(group), TableFor(gInfo), gInfo)) +
      NodeWarnings(group, nodes, GroupNodes(gInfo));
    assert GroupWarnings(q, system, group, st, nodes) == parts + ResourcesWarnings(q, system, group, names);
    AttrWarningsExact(OnGroup(group), TableFor(gInfo), gInfo);
    assert forall w :: w in parts ==> !(w.AttrMismatch? && w.scope.OnResource?);
    ResourcesWarningsExact(q, system, group, names);
    ResourceWarningsAmong(parts, q, system, group, names);
  }

  lemma ResourceWarningsAmong(other: multiset<Warning>, q: Queries, system: string, group: string, names: seq<string>)
    requires forall w :: w in other ==> !(w.AttrMismatch? && w.scope.OnResource?)
    requires forall w :: w in ResourcesWarnings(q, system, group, names) <==>
      && w.AttrMismatch? && w.scope.OnResource? && w.scope.owner == group && w.scope.resource in names
      && w in AttrWarnings(w.scope, StdResourceAttr, q.resourceInfo(w.scope.resource, system))
    ensures forall r, k, e, a :: AttrMismatch(OnResource(r, group), k, e, a) in other + ResourcesWarnings(q, system, group, names) <==>
      && r in names
      && AttrMismatch(OnResource(r, group), k, e, a) in AttrWarnings(OnResource(r, group), StdResourceAttr, q.resourceInfo(r, system))
    ensures forall s, r, k, e, a :: s != group ==> AttrMismatch(OnResource(r, s), k, e, a) !in other + ResourcesWarnings(q, system, group, names)
  {
  }

  /** The missing-node warning of a group names exactly the cluster systems its `SystemList` leaves out. */
  lemma GroupNodeWarnings(q: Queries, system: string, group: string, st: GroupState, nodes: set<string>)
    ensures forall d :: NodesMissing(group, d) in GroupWarnings(q, system, group, st, nodes) <==>
      d == nodes - GroupNodes(q.groupInfo(group)) && d != {}
  {
    var gInfo := q.groupInfo(group);
    var other := OtherGroupWarnings(q, system, group, st);
    OtherGroupWarningsKinds(q, system, group, st);
    MoveLast(StateWarnings(group, system, st) + multiset(AttrWarnings(OnGroup(group), TableFor(gInfo), gInfo)),
      NodeWarnings(group, nodes, GroupNodes(gInfo)), ResourcesWarnings(q, system, group, ResourcesOn(q.resourceList(group), system)));
    NodeWarningsAmong(other, group, nodes, GroupNodes(gInfo));
  }

  lemma MoveLast(a: multiset<Warning>, b: multiset<Warning>, c: multiset<Warning>)
    ensures a + b + c == a + c + b
  {
    assert forall w :: (a + b + c)[w] == (a + c + b)[w];
  }

  /** The warnings of a group other than the missing-node one. */
  function OtherGroupWarnings(q: Queries, system: string, group: string, st: GroupState): multiset<Warning> {
    var gInfo := q.groupInfo(group);
    StateWarnings(group, system, st) + multiset(AttrWarnings(OnGroup(group), TableFor(gInfo), gInfo)) +
    ResourcesWarnings(q, system, group, ResourcesOn(q.resourceList(group), system))
  }

  lemma OtherGroupWarningsKinds(q: Queries, system: string, group: string, st: GroupState)
    ensures forall w :: w in OtherGroupWarnings(q, system, group, st) ==> !w.NodesMissing?
  {
    var gInfo := q.groupInfo(group);
    AttrWarningsExact(OnGroup(group), TableFor(gInfo), gInfo);
    ResourcesWarningsExact(q, system, group, ResourcesOn(q.resourceList(group), system));
  }

  lemma NodeWarningsAmong(other: multiset<Warning>, group: string, nodes: set<string>, groupNodes: set<string>)
    requires forall w :: w in other ==> !w.NodesMissing?
    ensures forall d :: NodesMissing(group, d) in other + NodeWarnings(group, nodes, groupNodes) <==>
      d == nodes - groupNodes && d != {}
  {
    if !(nodes <= groupNodes) {
      var x :| x in nodes && x !in groupNodes;
      assert x in nodes - groupNodes;
    }
  }

  /** A group's not-probed and autodisabled warnings follow its state on the target system alone. */
  lemma GroupStateWarnings(q: Queries, system: string, group: string, st: GroupState, nodes: set<string>)
    ensures NotProbed(group, system) in GroupWarnings(q, system, group, st, nodes) <==> !st.probed
    ensures AutoDisabled(group) in GroupWarnings(q, system, group, st, nodes) <==> st.autodisabled
  {
    var gInfo := q.groupInfo(group);
    AttrWarningsExact(OnGroup(group), TableFor(gInfo), gInfo);
    ResourcesWarningsExact(q, system, group, ResourcesOn(q.resourceList(group), system));
  }

  /**
   * The body of the group loop (hc-vcs.py:108-148) for a group whose state is
   * known on the target system.
   */
  method CheckGroup(q: Queries, system: string, group: string, st: GroupState, nodes: set<string>) returns (ws: multiset<Warning>)
    ensures ws == GroupWarnings(q, system, group, st, nodes)
  {
    ws := multiset{};
    if !st.probed {
      ws := ws + multiset{NotProbed(group, system)};
    }
    if st.autodisabled {
      ws := ws + multiset{AutoDisabled(group)};
    }
    assert ws == StateWarnings(group, system, st);
    var gInfo := q.groupInfo(group);
    var attrList := TableFor(gInfo);
    var found := CompareGuarded(OnGroup(group), attrList, gInfo);
    ws := ws + multiset(found);
    var groupNodes := GroupNodes(gInfo);
    var off := nodes - groupNodes;
    if off != {} {
      ws := ws + multiset{NodesMissing(group, off)};
    }
    assert ws == StateWarnings(group, system, st) + multiset(AttrWarnings(OnGroup(group), TableFor(gInfo), gInfo)) +
      NodeWarnings(group, nodes, GroupNodes(gInfo));
    var rws := CheckResources(q, system, group, ResourcesOn(q.resourceList(group), system));
    ws := ws + rws;
  }

  /** The resource loop of a group (hc-vcs.py:139-148) over the resources it places on the system. */
  method CheckResources(q: Queries, system: string, group: string, names: seq<string>) returns (rws: multiset<Warning>)
    ensures rws == ResourcesWarnings(q, system, group, names)
  {
    rws := multiset{};
    var j := 0;
    while j < |names|
      invariant 0 <= j <= |names|
      invariant rws == ResourcesWarnings(q, system, group, names[..j])
    {
      var rInfo := q.resourceInfo(names[j], system);
      var rfound := CompareGuarded(OnResource(names[j], group), StdResourceAttr, rInfo);
      assert names[..j + 1][..j] == names[..j];
      rws := rws + multiset(rfound);
      j := j + 1;
    }
    assert names[..j] == names;
  }

  /** A check of one group from its state on the target system. */
  type GroupCheck = (string, GroupState) -> multiset<Warning>

  /** The check `health_check` runs on each group. */
  function GroupCheckOf(q: Queries, system: string, nodes: set<string>): GroupCheck {
    (group: string, st: GroupState) => GroupWarnings(q, system, group, st, nodes)
  }

  lemma GroupCheckOfApply(q: Queries, system: string, nodes: set<string>, group: string, st: GroupState)
    ensures GroupCheckOf(q, system, nodes)(group, st) == GroupWarnings(q, system, group, st, nodes)
  {
  }

  /**
   * The group loop over the groups in the given order, each group checked by
   * `check`: a group without state on the target system raises `KeyError`.
   */
  function GroupsReport(sys: SystemState, groups: seq<string>, check: GroupCheck): Report {
    if groups == [] then Report(multiset{}, Completed)
    else
      var before := GroupsReport(sys, groups[..|groups| - 1], check);
      var g := groups[|groups| - 1];
      if before.halt != Completed then before
      else if g !in sys.groups then Report(before.warnings, Raised(KeyError))
      else Report(before.warnings + check(g, sys.groups[g]), Completed)
  }

  /** One more group is one more step of the loop. */
  lemma GroupsReportNext(sys: SystemState, groups: seq<string>, check: GroupCheck, i: nat, acc: multiset<Warning>)
    requires i < |groups| && GroupsReport(sys, groups[..i], check) == Report(acc, Completed)
    ensures groups[i] !in sys.groups ==> GroupsReport(sys, groups[..i + 1], check) == Report(acc, Raised(KeyError))
    ensures groups[i] in sys.groups ==>
      GroupsReport(sys, groups[..i + 1], check) == Report(acc + check(groups[i], sys.groups[groups[i]]), Completed)
  {
    assert groups[..i + 1][..i] == groups[..i];
  }

  /** Once the loop over a prefix of the groups has raised, the whole loop ends there. */
  lemma {:induction false} HaltPersists(sys: SystemState, groups: seq<string>, check: GroupCheck, k: nat)
    requires k <= |groups| && GroupsReport(sys, groups[..k], check).halt != Completed
    ensures GroupsReport(sys, groups, check) == GroupsReport(sys, groups[..k], check)
    decreases |groups| - k
  {
    if k < |groups| {
      assert groups[..k + 1][..k] == groups[..k];
      HaltPersists(sys, groups, check, k + 1);
    } else {
      assert groups[..k] == groups;
    }
  }

  /**
   * The group loop runs to its end exactly when every group has state on the
   * target system, and otherwise raises `KeyError`.
   */
  lemma {:induction false} GroupsComplete(sys: SystemState, groups: seq<string>, check: GroupCheck)
    ensures GroupsReport(sys, groups, check).halt == Completed <==> forall g :: g in groups ==> g in sys.groups
    ensures GroupsReport(sys, groups, check).halt != Completed ==> GroupsReport(sys, groups, check).halt == Raised(KeyError)
  {
    if groups != [] {
      var init := groups[..|groups| - 1];
      GroupsComplete(sys, init, check);
      assert groups == init + [groups[|groups| - 1]];
      assert forall g :: g in groups <==> g == groups[|groups| - 1] || g in init;
    }
  }

  /** The warnings of a set of groups that all have state on the target system, in no particular order. */
  ghost function WarningsOver(sys: SystemState, gs: set<string>, check: GroupCheck): multiset<Warning>
    requires gs <= sys.groups.Keys
    decreases |gs|
  {
    if gs == {} then multiset{}
    else
      var g :| g in gs;
      check(g, sys.groups[g]) + WarningsOver(sys, gs - {g}, check)
  }

  /** Any group of the set can be taken first. */
  lemma {:induction false} WarningsOverPick(sys: SystemState, gs: set<string>, check: GroupCheck, g: string)
    requires gs <= sys.groups.Keys && g in gs
    ensures WarningsOver(sys, gs, check) == check(g, sys.groups[g]) + WarningsOver(sys, gs - {g}, check)
    decreases |gs|
  {
    var g' :| g' in gs && WarningsOver(sys, gs, check) == check(g', sys.groups[g']) + WarningsOver(sys, gs - {g'}, check);
    if g' != g {
      WarningsOverPick(sys, gs - {g'}, check, g);
      WarningsOverPick(sys, gs - {g}, check, g');
      assert gs - {g'} - {g} == gs - {g} - {g'};
    }
  }

  /** A completed group loop over distinct groups prints the warnings of their set. */
  lemma {:induction false} GroupsReportOver(sys: SystemState, groups: seq<string>, check: GroupCheck)
    requires forall i, j :: 0 <= i < j < |groups| ==> groups[i] != groups[j]
    requires forall g :: g in groups ==> g in sys.groups
    ensures GroupsReport(sys, groups, check) == Report(WarningsOver(sys, (set g | g in groups), check), Completed)
  {
    if groups != [] {
      var init := groups[..|groups| - 1];
      var last := groups[|groups| - 1];
      DistinctInit(groups);
      GroupsReportOver(sys, init, check);
      var rest := set g | g in init;
      var mine := check(last, sys.groups[last]);
      WarningsOverPick(sys, (set g | g in groups), check, last);
      assert GroupsReport(sys, groups, check) == Report(WarningsOver(sys, rest, check) + mine, Completed);
      MultisetSwap(WarningsOver(sys, rest, check), mine);
    }
  }

  /** Dropping the last of distinct elements: the rest stay distinct and their set loses just that one. */
  lemma DistinctInit(groups: seq<string>)
    requires groups != []
    requires forall i, j :: 0 <= i < j < |groups| ==> groups[i] != groups[j]
    ensures var init := groups[..|groups| - 1];
      && (forall i, j :: 0 <= i < j < |init| ==> init[i] != init[j])
      && (set g | g in groups) - {groups[|groups| - 1]} == (set g | g in init)
  {
    var init := groups[..|groups| - 1];
    var last := groups[|groups| - 1];
    assert groups == init + [last];
    assert last !in init;
    var all, rest := (set g | g in groups), (set g | g in init);
    forall x ensures x in all - {last} <==> x in rest {
      assert x in groups <==> x in init || x == last;
    }
  }

  lemma MultisetSwap(a: multiset<Warning>, b: multiset<Warning>)
    ensures a + b == b + a
  {
    assert forall w :: (a + b)[w] == (b + a)[w];
  }

  /**
   * The order in which the group list comes out of the dictionary does not
   * matter: two orders of the same groups end the same way, and when they run
   * to the end they print the same warnings.
   */
  lemma GroupOrderIrrelevant(sys: SystemState, groups1: seq<string>, groups2: seq<string>, seen: set<string>, check: GroupCheck)
    requires IsEnumeration(groups1, seen) && IsEnumeration(groups2, seen)
    ensures GroupsReport(sys, groups1, check).halt == GroupsReport(sys, groups2, check).halt
    ensures GroupsReport(sys, groups1, check).halt == Completed ==>
      GroupsReport(sys, groups1, check) == GroupsReport(sys, groups2, check)
  {
    GroupsComplete(sys, groups1, check);
    GroupsComplete(sys, groups2, check);
    if forall g :: g in seen ==> g in sys.groups {
      EnumerationSet(groups1, seen);
      EnumerationSet(groups2, seen);
      GroupsReportOver(sys, groups1, check);
      GroupsReportOver(sys, groups2, check);
    }
  }

  /** A group of a completed loop has its warnings among the loop's. */
  lemma {:induction false} GroupsInclude(sys: SystemState, groups: seq<string>, check: GroupCheck, g: string)
    requires g in groups && forall x :: x in groups ==> x in sys.groups
    ensures check(g, sys.groups[g]) <= GroupsReport(sys, groups, check).warnings
  {
    var init := groups[..|groups| - 1];
    assert groups == init + [groups[|groups| - 1]];
    GroupsComplete(sys, init, check);
    if groups[|groups| - 1] != g {
      assert g in init;
      GroupsInclude(sys, init, check, g);
    }
  }

  /**
   * What `health_check` does once the object exists (hc-vcs.py:82-148), given
   * its `info`, `status` and `groups`: no status ends the check with no
   * warning; a missing displayed attribute, an unknown target system or a
   * missing `ReadOnly` raises `KeyError` before any warning; a missing cluster
   * attribute raises `KeyError` after the system warnings and some of the
   * cluster attribute warnings; otherwise the group loop follows.
   */
  ghost predicate Checked(q: Queries, info: map<string, string>, status: map<string, SystemState>,
                          groups: seq<string>, system: string, report: Report)
  {
    if status == map[] then report == Report(multiset{}, NoContact)
    else if !(Shown <= info.Keys) || system !in status || "ReadOnly" !in info then
      report == Report(multiset{}, Raised(KeyError))
    else
      var base := SystemWarnings(system, info["ReadOnly"], status[system]);
      var attrs := multiset(AttrWarnings(OnCluster(system), StdClusterAttr, info));
      if !(StdClusterAttr.Keys <= info.Keys) then
        report.halt == Raised(KeyError) && base <= report.warnings && report.warnings <= base + attrs
      else
        report == Then(base + attrs, GroupsReport(status[system], groups, GroupCheckOf(q, system, status.Keys)))
  }

  /** An empty status ends the check at once, with no warning. */
  lemma EmptyStatusStops(q: Queries, info: map<string, string>, groups: seq<string>, system: string, report: Report)
    requires Checked(q, info, map[], groups, system, report)
    ensures report.warnings == multiset{} && report.halt == NoContact
  {
  }

  /**
   * When the check runs to its end, every group's warnings have been printed,
   * after the system and cluster attribute warnings.
   */
  lemma {:induction false} CompletedCoversGroups(q: Queries, info: map<string, string>, status: map<string, SystemState>,
                                                 groups: seq<string>, system: string, report: Report)
    requires Checked(q, info, status, groups, system, report) && report.halt == Completed
    ensures system in status && "ReadOnly" in info
    ensures SystemWarnings(system, info["ReadOnly"], status[system]) <= report.warnings
    ensures multiset(AttrWarnings(OnCluster(system), StdClusterAttr, info)) <= report.warnings
    ensures forall g :: g in groups ==>
      (g in status[system].groups &&
       GroupWarnings(q, system, g, status[system].groups[g], status.Keys) <= report.warnings)
  {
    var sys := status[system];
    var check := GroupCheckOf(q, system, status.Keys);
    GroupsComplete(sys, groups, check);
    forall g | g in groups
      ensures GroupWarnings(q, system, g, sys.groups[g], status.Keys) <= report.warnings
    {
      GroupsInclude(sys, groups, check, g);
      assert check(g, sys.groups[g]) == GroupWarnings(q, system, g, sys.groups[g], status.Keys);
    }
  }

  /** `health_check` from the object on (hc-vcs.py:82-148). */
  method CheckCluster(q: Queries, info: map<string, string>, status: map<string, SystemState>,
                      groups: seq<string>, system: string) returns (report: Report)
    ensures Checked(q, info, status, groups, system, report)
  {
    if status == map[] {
      return Report(multiset{}, NoContact);
    }
    if !("ClusterTime" in info && "ClusterName" in info && "VCSFeatures" in info && "WACPort" in info) {
      return Report(multiset{}, Raised(KeyError));
    }
    if system !in status {
      return Report(multiset{}, Raised(KeyError));
    }
    var cInfo := status[system];
    if "ReadOnly" !in info {
      return Report(multiset{}, Raised(KeyError));
    }
    var warnings := CheckSystem(system, info["ReadOnly"], cInfo);
    assert Shown <= info.Keys;
    var found, missing := CompareStrict(OnCluster(system), StdClusterAttr, info);
    if missing {
      report := Report(warnings + multiset(found), Raised(KeyError));
      HaltedIsChecked(q, info, status, groups, system, found, report);
      return;
    }
    var rest := CheckGroups(q, system, cInfo, status.Keys, groups);
    report := Then(warnings + multiset(found), rest);
    assert report == Then(SystemWarnings(system, info["ReadOnly"], cInfo) +
      multiset(AttrWarnings(OnCluster(system), StdClusterAttr, info)), rest);
  }

  /** The system-level checks of `health_check` (hc-vcs.py:94-99). */
  method CheckSystem(system: string, readOnly: string, st: SystemState) returns (warnings: multiset<Warning>)
    ensures warnings == SystemWarnings(system, readOnly, st)
  {
    warnings := multiset{};
    if readOnly != "1" {
      warnings := warnings + multiset{Writable};
    }
    if st.frozen {
      warnings := warnings + multiset{Frozen(system)};
    }
    if st.state != "RUNNING" {
      warnings := warnings + multiset{NotRunning(system, st.state)};
    }
  }

  /** The report of a check that stopped at a missing cluster attribute meets `Checked`. */
  lemma HaltedIsChecked(q: Queries, info: map<string, string>, status: map<string, SystemState>,
                        groups: seq<string>, system: string, found: set<Warning>, report: Report)
    requires status != map[] && Shown <= info.Keys && system in status && "ReadOnly" in info
    requires !(StdClusterAttr.Keys <= info.Keys)
    requires found <= AttrWarnings(OnCluster(system), StdClusterAttr, info)
    requires report == Report(SystemWarnings(system, info["ReadOnly"], status[system]) + multiset(found), Raised(KeyError))
    ensures Checked(q, info, status, groups, system, report)
  {
    var attrs := AttrWarnings(OnCluster(system), StdClusterAttr, info);
    assert multiset(found) <= multiset(attrs);
  }

  /** The group loop of `health_check` (hc-vcs.py:107-148). */
  method CheckGroups(q: Queries, system: string, sys: SystemState, nodes: set<string>, groups: seq<string>)
    returns (report: Report)
    ensures report == GroupsReport(sys, groups, GroupCheckOf(q, system, nodes))
  {
    ghost var check := GroupCheckOf(q, system, nodes);
    var acc: multiset<Warning> := multiset{};
    var i := 0;
    while i < |groups|
      invariant 0 <= i <= |groups|
      invariant GroupsReport(sys, groups[..i], check) == Report(acc, Completed)
    {
      var group := groups[i];
      GroupsReportNext(sys, groups, check, i, acc);
      if group !in sys.groups {
        HaltPersists(sys, groups, check, i + 1);
        return Report(acc, Raised(KeyError));
      }
      var st := sys.groups[group];
      var gw := CheckGroup(q, system, group, st, nodes);
      GroupCheckOfApply(q, system, nodes, group, st);
      assert check(group, st) == gw;
      acc := acc + gw;
      i := i + 1;
    }
    assert groups[..i] == groups;
    report := Report(acc, Completed);
  }

  /** The system to check: the one given, or this host's name when none is (hc-vcs.py:77-78). */
  function Target(system: string, hostname: string): (t: string)
    ensures system == "" ==> t == hostname
    ensures system != "" ==> t == system
  {
    if system == "" then hostname else system
  }

  /**
   * `health_check(system)` (hc-vcs.py:74-148), with this host's name and the
   * target's command surface as inputs: the report of the object's
   * construction error, or of the checks over its groups in the order the
   * object lists them.
   */
  method HealthCheck(system: string, hostname: string, surface: Surface) returns (report: Report)
    ensures var host := Host(Target(system, hostname), surface);
      Summarize(host.StatusLines()).Err? ==>
        report == Report(multiset{}, Raised(Summarize(host.StatusLines()).error))
    ensures var host := Host(Target(system, hostname), surface);
      Summarize(host.StatusLines()).Ok? ==>
        exists groups :: IsEnumeration(groups, Summarize(host.StatusLines()).value.seen) &&
          Checked(QueriesOf(host), host.Info(), Summarize(host.StatusLines()).value.status, groups, Target(system, hostname), report)
  {
    var target := Target(system, hostname);
    var host := Host(target, surface);
    var made := VCS.Open(host);
    if made.Err? {
      return Report(multiset{}, Raised(made.error));
    }
    var c := made.value;
    var groups := c.groups;
    ghost var parsed := Summarize(host.StatusLines()).value;
    assert c.info == host.Info() && c.status == parsed.status;
    report := CheckCluster(QueriesOf(host), c.info, c.status, groups, target);
    assert IsEnumeration(groups, parsed.seen);
  }

  /** The example group's attributes, with `ManageFaults` `NONE` and every other expected key matching. */
  const ExampleGroupInfo: map<string, string> := map[
    "ManageFaults" := "NONE",
    "Parallel" := "0",
    "AutoStart" := "1",
    "AutoFailOver" := "1",
    "OnlineRetryLimit" := "0",
    "AutoStartPolicy" := "Order",
    "FailOverPolicy" := "Priority",
    "ClusterFailOverPolicy" := "Manual"]

  /**
   * The example group is checked against the failover table and gives exactly
   * one warning: `ManageFaults` expected `ALL`, currently `NONE`.
   */
  lemma ManageFaultsExample()
    ensures TableFor(ExampleGroupInfo) == FailoverGroupAttr
    ensures AttrWarnings(OnGroup("myS1oraSG"), TableFor(ExampleGroupInfo), ExampleGroupInfo) ==
      {AttrMismatch(OnGroup("myS1oraSG"), "ManageFaults", "ALL", "NONE")}
  {
    var gInfo := ExampleGroupInfo;
    assert TableFor(gInfo) == FailoverGroupAttr;
    forall k | k in FailoverGroupAttr && k in gInfo && k != "ManageFaults"
      ensures gInfo[k] == FailoverGroupAttr[k]
    {
    }
    OneMismatch(OnGroup("myS1oraSG"), FailoverGroupAttr, gInfo, "ManageFaults");
  }

  /** A table whose only key held with another value is `k0` gives exactly the one warning for `k0`. */
  lemma OneMismatch(scope: Scope, table: map<string, string>, actual: map<string, string>, k0: string)
    requires k0 in table && k0 in actual && actual[k0] != table[k0]
    requires forall k :: k in table && k in actual && k != k0 ==> actual[k] == table[k]
    ensures AttrWarnings(scope, table, actual) == {AttrMismatch(scope, k0, table[k0], actual[k0])}
  {
    AttrWarningsExact(scope, table, actual);
  }

  /** `SystemList` `charlie 0 delta 1` on a cluster of charlie, delta and echo: echo is missing. */
  lemma SystemListExample(syslist: string)
    requires syslist == Join(["charlie", "0", "delta", "1"], '\t')
    ensures GroupNodes(map["SystemList" := syslist]) == {"charlie", "delta"}
    ensures NodeWarnings("myS1oraSG", {"charlie", "delta", "echo"}, GroupNodes(map["SystemList" := syslist])) ==
      multiset{NodesMissing("myS1oraSG", {"echo"})}
  {
    var parts := ["charlie", "0", "delta", "1"];
    ExampleSystemListSplit(syslist, parts);
    ExampleEvenPositions(parts);
    var gInfo := map["SystemList" := syslist];
    assert Get(gInfo, "SystemList", "") == syslist;
    assert GroupNodes(gInfo) == {"charlie", "delta"};
    assert {"charlie", "delta", "echo"} - {"charlie", "delta"} == {"echo"};
  }

  lemma ExampleSystemListSplit(syslist: string, parts: seq<string>)
    requires parts == ["charlie", "0", "delta", "1"] && syslist == Join(parts, '\t')
    ensures SplitOn(syslist, '\t') == parts
  {
    assert forall i :: 0 <= i < |parts| ==> '\t' !in parts[i];
    SplitOnJoin(parts, '\t');
  }

  lemma ExampleEvenPositions(parts: seq<string>)
    requires parts == ["charlie", "0", "delta", "1"]
    ensures EvenPositions(parts) == {"charlie", "delta"}
  {
    assert parts[0] == "charlie" && parts[2] == "delta";
  }

  /**
   * A group whose display query fails has an empty attribute map: it is checked
   * against the failover table with no attribute warning, and every cluster
   * system other than the empty name is reported missing.
   */
  lemma FailedGroupDisplay(h: Host, group: string)
    requires NoData(h.IsRemote(), h.surface("/opt/VRTS/bin/hagrp -display " + group))
    ensures QueriesOf(h).groupInfo(group) == map[]
    ensures TableFor(QueriesOf(h).groupInfo(group)) == FailoverGroupAttr
    ensures AttrWarnings(OnGroup(group), FailoverGroupAttr, QueriesOf(h).groupInfo(group)) == {}
    ensures GroupNodes(QueriesOf(h).groupInfo(group)) == {""}
  {
    FailedDisplayIsEmpty(h, group, "");
    var gInfo := QueriesOf(h).groupInfo(group);
    assert gInfo == QuadToMap(h.GroupDisplay(group, ""));
    EmptyGroupInfo(OnGroup(group), gInfo);
  }

  lemma EmptyGroupInfo(scope: Scope, gInfo: map<string, string>)
    requires gInfo == map[]
    ensures TableFor(gInfo) == FailoverGroupAttr
    ensures AttrWarnings(scope, FailoverGroupAttr, gInfo) == {}
    ensures GroupNodes(gInfo) == {""}
  {
    AttrWarningsExact(scope, FailoverGroupAttr, gInfo);
  }
}
