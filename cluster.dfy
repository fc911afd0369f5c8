/**
 * The cluster model of hcvcs.py: the parse of `hastatus -sum` into per-system
 * and per-group status, the on-demand queries of class `VCS`, and the object
 * itself, whose construction fills `info`, `groups` and `status`.
 */
module Cluster {
  import opened Wrappers
  import opened Text
  import opened Normalize
  import opened Records

  /** A `B` line's record for one group on one system. */
  datatype GroupState = GroupState(probed: bool, autodisabled: bool, state: string)

  /** An `A` line's record for one system, with the group records later `B` lines add to it. */
  datatype SystemState = SystemState(state: string, frozen: bool, groups: map<string, GroupState>)

  /** The dictionaries `status` and `groups` (only its keys matter) of `get_cluster_status`. */
  datatype Summary = Summary(status: map<string, SystemState>, seen: set<string>)

  /**
   * One line of `hastatus -sum`, split on whitespace, applied to the summary so
   * far (hcvcs.py:151-159). `A system state frozen` replaces the system's record;
   * `B group system probed autodisabled state` sets the group's record under an
   * existing system; other lines change nothing. Missing fields raise
   * `IndexError` (the right-hand side is evaluated first); a `B` line for an
   * unknown system raises `KeyError`.
   */
  function Step(acc: Summary, parts: seq<string>): Result<Summary> {
    if |parts| == 0 then Err(IndexError)
    else if parts[0] == "A" then
      if |parts| < 4 then Err(IndexError)
      else Ok(acc.(status := acc.status[parts[1] := SystemState(parts[2], parts[3] != "0", map[])]))
    else if parts[0] == "B" then
      if |parts| < 6 then Err(IndexError)
      else if parts[2] !in acc.status then Err(KeyError)
      else
        var sys := acc.status[parts[2]];
        var entry := GroupState(parts[3] == "Y", parts[4] == "Y", parts[5]);
        Ok(Summary(acc.status[parts[2] := sys.(groups := sys.groups[parts[1] := entry])], acc.seen + {parts[1]}))
    else Ok(acc)
  }

  /** The loop of `get_cluster_status` over all lines, stopping at the first exception. */
  function Summarize(lines: seq<string>): Result<Summary> {
    if lines == [] then Ok(Summary(map[], {}))
    else
      match Summarize(lines[..|lines| - 1])
      case Err(e) => Err(e)
      case Ok(acc) => Step(acc, Tokens(lines[|lines| - 1]))
  }

  /** Once a prefix of the lines raised, so does the whole loop, with the same exception. */
  lemma {:induction false} ErrPersists(lines: seq<string>, k: nat, e: Error)
    requires k <= |lines| && Summarize(lines[..k]) == Err(e)
    ensures Summarize(lines) == Err(e)
    decreases |lines| - k
  {
    if k < |lines| {
      assert lines[..k + 1][..k] == lines[..k];
      ErrPersists(lines, k + 1, e);
    } else {
      assert lines[..k] == lines;
    }
  }

  /** One more line is one more step of the loop. */
  lemma SummarizeNext(lines: seq<string>, i: nat, acc: Summary)
    requires i < |lines| && Summarize(lines[..i]) == Ok(acc)
    ensures Summarize(lines[..i + 1]) == Step(acc, Tokens(lines[i]))
  {
    assert lines[..i + 1][..i] == lines[..i];
  }

  /** `A sys st fz` sets `status[sys]` to `{state: st, frozen: fz != '0'}`, replacing any earlier record. */
  lemma ALine(lines: seq<string>, line: string, acc: Summary)
    requires Summarize(lines) == Ok(acc)
    requires |Tokens(line)| >= 4 && Tokens(line)[0] == "A"
    ensures var p := Tokens(line);
      Summarize(lines + [line]) ==
        Ok(Summary(acc.status[p[1] := SystemState(p[2], p[3] != "0", map[])], acc.seen))
  {
    assert (lines + [line])[..|lines|] == lines;
  }

  /**
   * `B grp sys pr ad st` on a known system sets `status[sys][grp]` to
   * `{probed: pr == 'Y', autodisabled: ad == 'Y', state: st}` and records `grp`;
   * on a system with no earlier `A` line it raises `KeyError`.
   */
  lemma BLine(lines: seq<string>, line: string, acc: Summary)
    requires Summarize(lines) == Ok(acc)
    requires |Tokens(line)| >= 6 && Tokens(line)[0] == "B"
    ensures var p := Tokens(line);
      && (p[2] !in acc.status ==> Summarize(lines + [line]) == Err(KeyError))
      && (p[2] in acc.status ==>
            Summarize(lines + [line]).Ok? &&
            var after := Summarize(lines + [line]).value;
            && after.status.Keys == acc.status.Keys
            && after.status[p[2]].groups == acc.status[p[2]].groups[p[1] := GroupState(p[3] == "Y", p[4] == "Y", p[5])]
            && after.status[p[2]].state == acc.status[p[2]].state
            && after.status[p[2]].frozen == acc.status[p[2]].frozen
            && (forall s :: s in acc.status && s != p[2] ==> after.status[s] == acc.status[s])
            && after.seen == acc.seen + {p[1]})
  {
    assert (lines + [line])[..|lines|] == lines;
  }

  /** A line whose first token is neither `A` nor `B` changes nothing. */
  lemma OtherLine(lines: seq<string>, line: string, acc: Summary)
    requires Summarize(lines) == Ok(acc)
    requires Tokens(line) != [] && Tokens(line)[0] != "A" && Tokens(line)[0] != "B"
    ensures Summarize(lines + [line]) == Ok(acc)
  {
    assert (lines + [line])[..|lines|] == lines;
  }

  /** A well-formed `B` line. */
  predicate IsBLine(parts: seq<string>) {
    |parts| >= 6 && parts[0] == "B"
  }

  /** The group names of all `B` lines. */
  function BGroups(lines: seq<string>): set<string> {
    set i | 0 <= i < |lines| && IsBLine(Tokens(lines[i])) :: Tokens(lines[i])[1]
  }

  /** When the parse succeeds, the group list is exactly the distinct names on the `B` lines. */
  lemma {:induction false} SeenIsBGroups(lines: seq<string>)
    requires Summarize(lines).Ok?
    ensures Summarize(lines).value.seen == BGroups(lines)
  {
    if lines != [] {
      var init := lines[..|lines| - 1];
      var last := lines[|lines| - 1];
      assert Summarize(init).Ok?;
      SeenIsBGroups(init);
      assert lines == init + [last];
      assert forall i :: 0 <= i < |init| ==> lines[i] == init[i];
      var p := Tokens(last);
      if IsBLine(p) {
        assert BGroups(lines) == BGroups(init) + {p[1]};
      } else {
        assert BGroups(lines) == BGroups(init);
      }
    }
  }

  /**
   * The example status summary with one `A charlie RUNNING 0` line and one
   * `B myS1oraSG charlie Y N ONLINE` line.
   */
  lemma StatusExample(a: string, b: string)
    requires a == Join(["A", "charlie", "RUNNING", "0"], ' ')
    requires b == Join(["B", "myS1oraSG", "charlie", "Y", "N", "ONLINE"], ' ')
    ensures Summarize([a, b]) == Ok(Summary(
      map["charlie" := SystemState("RUNNING", false, map["myS1oraSG" := GroupState(true, false, "ONLINE")])],
      {"myS1oraSG"}))
  {
    ExampleTokens(a, b);
    ExampleFirstLine(a);
    ExampleSecondLine(a, b);
  }

  lemma ExampleTokens(a: string, b: string)
    requires a == Join(["A", "charlie", "RUNNING", "0"], ' ')
    requires b == Join(["B", "myS1oraSG", "charlie", "Y", "N", "ONLINE"], ' ')
    ensures Tokens(a) == ["A", "charlie", "RUNNING", "0"]
    ensures Tokens(b) == ["B", "myS1oraSG", "charlie", "Y", "N", "ONLINE"]
  {
    ExampleWords(["A", "charlie", "RUNNING", "0"], ["B", "myS1oraSG", "charlie", "Y", "N", "ONLINE"]);
    TokensOfLiteral(a, ["A", "charlie", "RUNNING", "0"]);
    TokensOfLiteral(b, ["B", "myS1oraSG", "charlie", "Y", "N", "ONLINE"]);
  }

  lemma ExampleWords(wa: seq<string>, wb: seq<string>)
    requires wa == ["A", "charlie", "RUNNING", "0"]
    requires wb == ["B", "myS1oraSG", "charlie", "Y", "N", "ONLINE"]
    ensures forall i :: 0 <= i < |wa| ==> IsWord(wa[i])
    ensures forall i :: 0 <= i < |wb| ==> IsWord(wb[i])
  {
    assert IsWord("A") && IsWord("charlie") && IsWord("RUNNING") && IsWord("0");
    assert IsWord("B") && IsWord("myS1oraSG") && IsWord("Y") && IsWord("N") && IsWord("ONLINE");
  }

  lemma ExampleFirstLine(a: string)
    requires Tokens(a) == ["A", "charlie", "RUNNING", "0"]
    ensures Summarize([a]) == Ok(Summary(map["charlie" := SystemState("RUNNING", false, map[])], {}))
  {
    assert [a][..0] == [];
  }

  lemma ExampleSecondLine(a: string, b: string)
    requires Summarize([a]) == Ok(Summary(map["charlie" := SystemState("RUNNING", false, map[])], {}))
    requires Tokens(b) == ["B", "myS1oraSG", "charlie", "Y", "N", "ONLINE"]
    ensures Summarize([a, b]) == Ok(Summary(
      map["charlie" := SystemState("RUNNING", false, map["myS1oraSG" := GroupState(true, false, "ONLINE")])],
      {"myS1oraSG"}))
  {
    var one := Summary(map["charlie" := SystemState("RUNNING", false, map[])], {});
    var p := Tokens(b);
    assert [a, b][..1] == [a];
    assert Summarize([a, b]) == Step(one, p);
    assert p[0] == "B" && p[1] == "myS1oraSG" && p[2] == "charlie" && p[3] == "Y" && p[4] == "N" && p[5] == "ONLINE";
    assert one.status["charlie"].groups[p[1] := GroupState(true, false, "ONLINE")]
        == map["myS1oraSG" := GroupState(true, false, "ONLINE")];
    assert one.seen + {p[1]} == {"myS1oraSG"};
    var sys := one.status["charlie"];
    var upd := sys.(groups := sys.groups[p[1] := GroupState(true, false, "ONLINE")]);
    assert upd == SystemState("RUNNING", false, map["myS1oraSG" := GroupState(true, false, "ONLINE")]);
    assert one.status["charlie" := upd] == map["charlie" := upd];
    assert Step(one, p) == Ok(Summary(one.status[p[2] := upd], one.seen + {p[1]}));
  }

  /** `words` joined by single spaces splits back into `words`. */
  lemma {:induction false} TokensOfLiteral(s: string, words: seq<string>)
    requires forall i :: 0 <= i < |words| ==> IsWord(words[i])
    requires s == Join(words, ' ')
    ensures Tokens(s) == words
    decreases |words|
  {
    if words == [] {
    } else if |words| == 1 {
      TokensOfWord(words[0]);
    } else {
      var w := words[0];
      var rest := Join(words[1..], ' ');
      assert s == w + [' '] + rest;
      assert SkipSpace(s) == s;
      var k := WordLen(s);
      assert s[|w|] == ' ';
      assert k == |w| by {
        assert forall i :: 0 <= i < |w| ==> s[i] == w[i];
      }
      assert s[..k] == w;
      assert s[k..] == [' '] + rest;
      assert SkipSpace(s[k..]) == SkipSpace(rest);
      TokensOfLiteral(rest, words[1..]);
      assert Tokens(s[k..]) == Tokens(rest) by {
        assert SkipSpace(rest) == rest;
      }
    }
  }

  /** `gs` lists every element of `s` exactly once, in some order. */
  ghost predicate IsEnumeration(gs: seq<string>, s: set<string>) {
    && (forall i, j :: 0 <= i < j < |gs| ==> gs[i] != gs[j])
    && (forall x :: x in gs <==> x in s)
  }

  /** The elements of an enumeration of `s` are `s`. */
  lemma EnumerationSet(gs: seq<string>, s: set<string>)
    requires IsEnumeration(gs, s)
    ensures (set g | g in gs) == s
  {
  }

  /** `groups.keys()`: the keys of a dictionary, in an order the model leaves open. */
  method Keys(s: set<string>) returns (gs: seq<string>)
    ensures IsEnumeration(gs, s)
  {
    gs := [];
    var rest := s;
    while rest != {}
      invariant rest <= s
      invariant forall x :: x in gs <==> x in s && x !in rest
      invariant forall i, j :: 0 <= i < j < |gs| ==> gs[i] != gs[j]
      decreases |rest|
    {
      var x :| x in rest;
      gs := gs + [x];
      rest := rest - {x};
    }
  }

  /**
   * The server a `VCS` object talks to and that server's command surface. The
   * queries of `VCS` re-run a command each time and keep nothing, so they are
   * functions of this pair.
   */
  datatype Host = Host(server: string, surface: Surface) {

    /** `VCS.__isremote` (hcvcs.py:89-90). */
    predicate IsRemote() {
      server != "local"
    }

    /** `VCS.run(cmd, filter, ncol)` (hcvcs.py:92-130). */
    function Run(cmd: string, keep: string -> bool, ncol: nat): (r: Output)
      ensures ncol == 0 ==> r.Lines?
      ensures ncol > 0 ==> r.Rows? && forall i :: 0 <= i < |r.rows| ==> |r.rows[i]| == ncol
    {
      Normalize.Run(IsRemote(), surface(cmd), keep, ncol)
    }

    /** `self.run('haclus -display', filter='^[^#].*', ncol=2)` (hcvcs.py:80). */
    function InfoRows(): seq<Pair> {
      Run("haclus -display", NotComment, 2).rows
    }

    /** The attribute map `info` (hcvcs.py:80). */
    function Info(): map<string, string> {
      PairMap(InfoRows())
    }

    /** The lines `get_cluster_status` reads (hcvcs.py:150). */
    function StatusLines(): seq<string> {
      Run("/opt/VRTS/bin/hastatus -sum", WordLead, 0).lines
    }

    /**
     * `VCS.resource_list(group)` (hcvcs.py:164-173): `[resource, system]` rows,
     * for the resources of `group` when one is given. Every kept line starts
     * with a word character, so every row's resource name is a whole word.
     */
    function ResourceList(group: string): (r: seq<Pair>)
      ensures forall i :: 0 <= i < |r| ==> IsWord(r[i][0])
    {
      var cmd := "/opt/VRTS/bin/hares -list" + (if group != "" then " Group=" + group else "");
      WordLeadFirstField(Captured(IsRemote(), surface(cmd)), 2);
      Run(cmd, WordLead, 2).rows
    }

    /** The quad records of a `-display` command, comments dropped. */
    function Display(cmd: string): seq<Quad> {
      Run(cmd, NotComment, 4).rows
    }

    /** `VCS.resource_display(res, system)` (hcvcs.py:175-185). */
    function ResourceDisplay(res: string, system: string): (r: seq<Quad>)
      ensures forall x :: x in r <==>
        (x in Display("/opt/VRTS/bin/hares -display") &&
         (res == "" || x[0] == res) && (system == "" || x[2] == system || x[2] == "global"))
    {
      SelectResource(Display("/opt/VRTS/bin/hares -display"), res, system)
    }

    /** `VCS.group_list()` (hcvcs.py:187-193): `[group, system]` rows, each group name a whole word. */
    function GroupList(): (r: seq<Pair>)
      ensures forall i :: 0 <= i < |r| ==> IsWord(r[i][0])
    {
      WordLeadFirstField(Captured(IsRemote(), surface("/opt/VRTS/bin/hagrp -list")), 2);
      Run("/opt/VRTS/bin/hagrp -list", WordLead, 2).rows
    }

    /** `VCS.group_display(group, system)` (hcvcs.py:195-204); an empty `group` asks for all groups. */
    function GroupDisplay(group: string, system: string): (r: seq<Quad>)
      ensures forall x :: x in r <==>
        (x in Display("/opt/VRTS/bin/hagrp -display " + group) &&
         (system == "" || x[2] == system || x[2] == "global"))
      ensures system == "" ==> r == Display("/opt/VRTS/bin/hagrp -display " + group)
    {
      ForScope(Display("/opt/VRTS/bin/hagrp -display " + group), system)
    }
  }

  /**
   * On any server but `local` (the empty name and a host's own name included),
   * `run` reads a command's output whatever its exit status.
   */
  lemma RemoteKeepsOutput(h: Host, cmd: string, keep: string -> bool, ncol: nat, code: int, out: string)
    requires h.server != "local" && h.surface(cmd) == Exited(code, out)
    ensures h.Run(cmd, keep, ncol) == Shape(FindAll(out, keep), ncol)
  {
  }

  /**
   * On the server `local`, a command that exits non-zero leaves no output:
   * `run` sees the empty text, and under a filter that rejects the empty line
   * it returns nothing.
   */
  lemma LocalDropsFailedOutput(h: Host, cmd: string, keep: string -> bool, ncol: nat)
    requires h.server == "local" && h.surface(cmd).Exited? && h.surface(cmd).code != 0
    ensures h.Run(cmd, keep, ncol) == Shape(FindAll("", keep), ncol)
    ensures !keep("") ==> h.Run(cmd, keep, ncol).IsEmpty()
  {
    RunWithoutData(h.IsRemote(), h.surface(cmd), keep, ncol);
  }

  /** A query whose command fails yields no records, so the checks that use it find nothing. */
  lemma FailedDisplayIsEmpty(h: Host, group: string, system: string)
    requires NoData(h.IsRemote(), h.surface("/opt/VRTS/bin/hagrp -display " + group))
    ensures h.GroupDisplay(group, system) == []
    ensures QuadToMap(h.GroupDisplay(group, system)) == map[]
  {
    RunWithoutData(h.IsRemote(), h.surface("/opt/VRTS/bin/hagrp -display " + group), NotComment, 4);
  }

  /**
   * The loop of `get_cluster_status` (hcvcs.py:150-161) over the lines of
   * `hastatus -sum`: the status table and the set of group names it builds, or
   * the exception the first malformed line raises.
   */
  method ParseStatus(lines: seq<string>) returns (r: Result<Summary>)
    ensures r == Summarize(lines)
  {
    var st: map<string, SystemState> := map[];
    var seen: set<string> := {};
    var i := 0;
    while i < |lines|
      invariant 0 <= i <= |lines|
      invariant Summarize(lines[..i]) == Ok(Summary(st, seen))
    {
      SummarizeNext(lines, i, Summary(st, seen));
      var parts := Tokens(lines[i]);
      if |parts| == 0 || (parts[0] == "A" && |parts| < 4) || (parts[0] == "B" && |parts| < 6) {
        ErrPersists(lines, i + 1, IndexError);
        return Err(IndexError);
      }
      if parts[0] == "A" {
        st := st[parts[1] := SystemState(parts[2], parts[3] != "0", map[])];
      } else if parts[0] == "B" {
        if parts[2] !in st {
          ErrPersists(lines, i + 1, KeyError);
          return Err(KeyError);
        }
        var sys := st[parts[2]];
        st := st[parts[2] := sys.(groups := sys.groups[parts[1] := GroupState(parts[3] == "Y", parts[4] == "Y", parts[5])])];
        seen := seen + {parts[1]};
      }
      i := i + 1;
    }
    assert lines[..i] == lines;
    r := Ok(Summary(st, seen));
  }

  /**
   * A connection to one cluster server (hcvcs.py:63-204): the cluster attributes
   * `info`, the group names `groups` and the per-system `status`.
   */
  class VCS {
    const host: Host
    var info: map<string, string>
    var groups: seq<string>
    var status: map<string, SystemState>

    /** `__init__` up to the status query (hcvcs.py:73-81). */
    constructor (host: Host)
      ensures this.host == host
      ensures info == host.Info() && groups == [] && status == map[]
    {
      this.host := host;
      info := host.Info();
      groups := [];
      status := map[];
    }

    /**
     * `get_cluster_status` (hcvcs.py:132-162): returns the status table and
     * sets `groups` to the distinct group names of the `B` lines; when a line
     * raises, `groups` is left as it was.
     */
    method GetClusterStatus() returns (r: Result<map<string, SystemState>>)
      modifies this`groups
      ensures Summarize(host.StatusLines()).Ok? ==>
        r == Ok(Summarize(host.StatusLines()).value.status) &&
        IsEnumeration(groups, Summarize(host.StatusLines()).value.seen)
      ensures Summarize(host.StatusLines()).Err? ==>
        r == Err(Summarize(host.StatusLines()).error) && groups == old(groups)
    {
      var parsed := ParseStatus(host.StatusLines());
      match parsed
      case Err(e) =>
        r := Err(e);
      case Ok(s) =>
        groups := Keys(s.seen);
        r := Ok(s.status);
    }

    /** `VCS(server)` (hcvcs.py:73-82): the object, or the exception its construction raises. */
    static method Open(host: Host) returns (r: Result<VCS>)
      ensures Summarize(host.StatusLines()).Err? ==> r == Err(Summarize(host.StatusLines()).error)
      ensures Summarize(host.StatusLines()).Ok? ==>
        && r.Ok? && fresh(r.value)
        && r.value.host == host
        && r.value.info == host.Info()
        && r.value.status == Summarize(host.StatusLines()).value.status
        && IsEnumeration(r.value.groups, Summarize(host.StatusLines()).value.seen)
    {
      var c := new VCS(host);
      var st := c.GetClusterStatus();
      match st
      case Err(e) =>
        r := Err(e);
      case Ok(s) =>
        c.status := s;
        r := Ok(c);
    }
  }
}
