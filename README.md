# hc-vcs health check, modelled in Dafny

`hc-vcs` audits a Veritas Cluster Server (VCS) cluster. It runs the
cluster's own query commands (`haclus -display`, `hastatus -sum`,
`hares -list/-display`, `hagrp -list/-display`). It normalises their
line-oriented output into fixed-width records and builds a `VCS` object
holding `info`, `groups` and `status`. Then `health_check` compares the
cluster, each service group and each of the group's resources on the
target system against fixed tables of expected attribute values, and it
prints a warning for every drift it finds.

This project models that pipeline once each command's reply is known:

- `wrappers.dfy` (`Wrappers`): the Python exceptions the code can raise
  (`KeyError`, `IndexError`) and `Result`/`Option`.
- `text.dfy` (`Text`): the Python 2 byte-string operations the code relies
  on. These are `split()`, `split(None, n)`, `split('\t')` and its inverse
  `join`, with their shape and round-trip lemmas.
- `lists.dfy` (`Lists`): `filter` and order-preserving subsequences.
- `normalize.dfy` (`Normalize`): the reply of a command, the line filters,
  and the split-and-pad of `VCS.run` and of the free function `command`.
- `records.dfy` (`Records`): `dict(...)` of rows, the assumed `quad2dict`,
  the record filters of `resource_display` / `group_display`, and
  `make_pyfriendly`.
- `cluster.dfy` (`Cluster`): the parse of `hastatus -sum` (function
  `Summarize`, method `ParseStatus`), the on-demand queries of a host (a
  `Host` value), and class `VCS` with its fields `info`, `groups` and
  `status`.
- `health.dfy` (`Health`): the four expectation tables, the warnings as
  a multiset, and `health_check` as loops that add warnings.

Inputs that the program gets from the outside are parameters of the model:

- A command's outcome is a `Reply`: `Exited(code, output)` or `Failed`
  (launch failure, or an SSH error). A host's command surface is a total
  function from the command string to its `Reply`.
- This host's name (`os.uname()[1]`) is a parameter of `HealthCheck`.

Behaviour of the code that the model keeps:

- `VCS.__isremote` treats every server name but `local` as remote,
  including the empty name and the host's own name. The default target of
  `health_check`, `os.uname()[1]`, is therefore remote unless the host is
  itself named `local` (`RemoteKeepsOutput`, `LocalDropsFailedOutput`).
- The remote branch of `VCS.run` reads the output whatever the exit status.
  Only the local branch discards it on a non-zero status. An `OSError` on
  the local branch, or any exception on the remote branch, leaves the empty
  text (`Captured`). Other exceptions on the local branch propagate; the
  model has no such case, since a launch either yields a `Reply` or fails.
- A failed run still leaves one empty "line", and the default filter
  `'^[^\n]*'` matches it. So `run` with the default filter yields `['']`
  (or one record of empty fields), not `[]`. The two filters that `VCS`
  itself uses reject it, so there the result is `[]`
  (`RunWithoutData`, `FiltersRejectEmpty`). The free function `command`
  returns `[]` on every failure.
- The group and resource attribute loops skip a key that the map lacks.
  The cluster attribute loop does not: a missing key raises `KeyError`
  after some of the warnings (`CompareStrict`, `Checked`). `health_check`
  also raises `KeyError` for these cases:
  - a missing `ClusterTime`, `ClusterName`, `VCSFeatures`, `WACPort` or
    `ReadOnly` attribute;
  - a target system that has no status;
  - a group that has no status on the target system.
- `get_cluster_status` raises `IndexError` on a short `A` or `B` line. It
  raises `KeyError` on a `B` line for a system that no `A` line has
  introduced. The object then does not exist, and `health_check` ends with
  that exception.

## Model

| member | source | states |
|---|---|---|
| `Text.SplitNShape` | hcvcs.py:127 | `line.split(None, n)` has min(n+1, #tokens) parts. Every part but the last is the token at its position. The last part starts with a non-space byte. |
| `Text.SplitNLastIsRest` | hcvcs.py:127 | With more tokens than allowed splits, the last part of `split(None, n)` is the rest of the line verbatim, trailing whitespace included. |
| `Text.SplitNRest` | hcvcs.py:127 | When `split(None, n)` has a part at position `n`, that part is a suffix `s[j..]` of the line, with `j` inside the line. |
| `Text.SplitNTokens` | hcvcs.py:127 | Re-splitting the parts of `split(None, n)` on whitespace gives back exactly the tokens of the line, in order. |
| `Text.SplitNFew` | hcvcs.py:127 | With no more tokens than allowed splits, `split(None, n)` equals `split()`. |
| `Text.TokensAreWords` | hcvcs.py:151 | Every token of `split()` is non-empty and holds no whitespace. |
| `Text.SplitOn` | hc-vcs.py:131 | `s.split(sep)` has at least one piece, and no piece contains `sep`. |
| `Text.JoinSplitOn` | hc-vcs.py:131 | Joining the pieces of `s.split(sep)` with `sep` gives back `s`. |
| `Text.SplitOnJoin` | hc-vcs.py:131 | Splitting a `sep`-join of `sep`-free pieces gives back the pieces. |
| `Lists.FilterSpec` | hcvcs.py:182-184 | `filter` keeps exactly the elements satisfying the predicate, each as many times as it occurs, as an order-preserving subsequence. |
| `Lists.FilterCount` | hcvcs.py:182-184 | `filter` keeps each element satisfying the predicate exactly as often as it occurs, and no other. |
| `Lists.FilterTwice` | hcvcs.py:181-184 | Two successive `filter`s equal one `filter` by the conjunction. |
| `Normalize.Blanks` | hcvcs.py:127 | `[''] * k` holds max(k, 0) empty strings. |
| `Normalize.Record` | hcvcs.py:127 | A line becomes exactly `ncol` fields. Their tokens are the line's tokens. No field but the last holds whitespace. A short line is its tokens padded with `''` (an empty line: `ncol` empty strings). A long line keeps its first `ncol-1` tokens, and its last field is the rest of the line verbatim (inner and trailing whitespace kept). |
| `Normalize.Shape` | hcvcs.py:126-127 | With `ncol == 0` the lines come back untouched. Otherwise there is one record of exactly `ncol` fields per line, in order. |
| `Normalize.Command` | hcvcs.py:10-30 | On exit 0, `command` is the local `run` of the output. On a non-zero exit or a failed launch it is `[]`. |
| `Normalize.RunUntouched` | hcvcs.py:122-130 | With the default filter and `ncol == 0`, the returned lines joined by newlines are exactly the captured output. |
| `Normalize.RunFiltersLines` | hcvcs.py:122-123 | With `ncol == 0`, `run` returns exactly the captured lines that pass the filter, unaltered, in order and with their repetitions. |
| `Normalize.WordLeadFirstField` | hcvcs.py:173 | Under `'^\w.*'` with two or more columns, every record's first field is a whole word. |
| `Normalize.RunWithoutData` | hcvcs.py:112-123 | A failed run, or a local non-zero exit, yields `[]` under a filter that rejects the empty line. It yields one empty line (record) otherwise. |
| `Normalize.FiltersRejectEmpty` | hcvcs.py:150 | `'^\w.*'` and `'^[^#].*'` reject the empty line; the default filter accepts it. |
| `Normalize.WordLeadHasToken` | hcvcs.py:150-153 | A line kept by `'^\w.*'` has a first token, so `parts[0]` exists. |
| `Records.IndexLookup` | hcvcs.py:80 | `dict(rows)` holds a key iff some row carries it, and it maps the key to the value of the last such row. |
| `Records.ForEntity` | hcvcs.py:181-182 | The kept records are an ordered subsequence, exactly those with `x[0] == res`, each as often as in the input. All records are kept when `res` is empty. |
| `Records.ForScope` | hcvcs.py:202-203 | The kept records are an ordered subsequence, exactly those with scope `system` or `global`, each as often as in the input. All records are kept when `system` is empty. |
| `Records.SelectResource` | hcvcs.py:180-185 | `resource_display` keeps an ordered subsequence: exactly the records matching `res` (if given) and with scope `system`/`global` (if given), each as often as in the input. With neither, all records. |
| `Records.Coerce` | hcvcs.py:57-60 | `'1'` becomes `True` and `'0'` becomes `False`. Every other value is unchanged. |
| `Records.MakePyFriendly` | hcvcs.py:52-61 | The last element is coerced in place. The others and the length are unchanged. The same list is returned. An empty list raises `IndexError`. |
| `Cluster.ALine` | hcvcs.py:153-154 | `A sys st fz` sets `status[sys]` to `{state: st, frozen: fz != '0'}`, replacing any earlier record and its groups. |
| `Cluster.BLine` | hcvcs.py:155-159 | `B grp sys pr ad st` sets `status[sys][grp]` to `{probed: pr=='Y', autodisabled: ad=='Y', state: st}` and adds `grp`. Nothing else changes. With no earlier `A` line for `sys` it raises `KeyError`. |
| `Cluster.OtherLine` | hcvcs.py:152-159 | A line with any other discriminator changes nothing. |
| `Cluster.ErrPersists` | hcvcs.py:150-159 | Once a line raises, the whole parse ends with that exception. |
| `Cluster.SeenIsBGroups` | hcvcs.py:159-161 | After a successful parse, the group set is exactly the distinct group names of the `B` lines. |
| `Cluster.StatusExample` | hcvcs.py:150-161 | `A charlie RUNNING 0` then `B myS1oraSG charlie Y N ONLINE` give charlie RUNNING, not frozen, group myS1oraSG probed, not autodisabled, ONLINE. |
| `Cluster.ParseStatus` | hcvcs.py:148-159 | The loop over the status lines computes the parse `Summarize`: the status table and group set, or the first line's exception. |
| `Cluster.Keys` | hcvcs.py:161 | `groups.keys()` lists every group name exactly once. |
| `Cluster.RemoteKeepsOutput` | hcvcs.py:89-90 | On any server but `local`, `run` works on a command's output whatever its exit status. |
| `Cluster.LocalDropsFailedOutput` | hcvcs.py:112-119 | On the server `local`, a non-zero exit leaves `run` only the empty text, so it returns nothing under a filter that rejects the empty line. |
| `Cluster.Host.Run` | hcvcs.py:92-130 | `run` gives plain lines when `ncol == 0`. Otherwise it gives records of exactly `ncol` fields. |
| `Cluster.Host.ResourceDisplay` | hcvcs.py:175-185 | Exactly the `hares -display` records of `res` (if given) whose scope is `system` or `global` (if given). |
| `Cluster.Host.ResourceList` | hcvcs.py:164-173 | The `[resource, system]` rows of `hares -list`, restricted to a group when one is given. Every resource name is a whole word. |
| `Cluster.Host.GroupList` | hcvcs.py:187-193 | The `[group, system]` rows of `hagrp -list`. Every group name is a whole word. |
| `Cluster.Host.GroupDisplay` | hcvcs.py:195-204 | Exactly the `hagrp -display group` records whose scope is `system` or `global` (if given). With no system, all of them. |
| `Cluster.FailedDisplayIsEmpty` | hcvcs.py:195-204 | A failed group display query yields no records and an empty attribute map. |
| `Cluster.VCS.constructor` | hcvcs.py:73-81 | Sets `info` from `haclus -display`. `groups` and `status` start empty. |
| `Cluster.VCS.GetClusterStatus` | hcvcs.py:132-162 | Returns the parsed status table and sets `groups` to the distinct `B` group names. On an exception, `groups` is left as it was. |
| `Cluster.VCS.Open` | hcvcs.py:73-82 | Construction yields an object whose `info`, `status` and `groups` are those of the parse, or the parse's exception. |
| `Health.ParallelTable` | hc-vcs.py:36-51 | The parallel table has the failover table's keys and values, except `AutoFailOver`: `'0'` instead of `'1'`. |
| `Health.TableFor` | hc-vcs.py:119-122 | The parallel table is selected iff `Parallel` is present and equals `'1'`. Otherwise the failover table is selected. |
| `Health.AttrWarningsExact` | hc-vcs.py:123-128 | A mismatch warning is issued exactly for an expected key that the map holds with a different value, naming both values. An absent key gives none. |
| `Health.OneMismatch` | hc-vcs.py:123-128 | A table whose only key held with another value is `k0` gives exactly the one warning for `k0`. |
| `Health.CompareGuarded` | hc-vcs.py:123-128 | The guarded loop over a table finds exactly the mismatch warnings. |
| `Health.CompareStrict` | hc-vcs.py:101-104 | The unguarded loop raises iff some table key is absent. Its warnings are always among the mismatches, and are all of them when it does not raise. |
| `Health.GroupNodes` | hc-vcs.py:131-132 | With no `SystemList`, the group's node set is `{''}`. |
| `Health.NodeWarnings` | hc-vcs.py:133-136 | One warning is issued iff some cluster system is outside the group's node set, and it lists exactly the difference. |
| `Health.ResourcesOn` | hc-vcs.py:139 | The resources checked are exactly the names of `resource_list` rows whose system column is the target. |
| `Health.SystemWarnings` | hc-vcs.py:94-99 | The writable, frozen and not-running warnings each fire iff their own condition holds. |
| `Health.StateWarnings` | hc-vcs.py:110-113 | The not-probed and autodisabled warnings each fire iff their own condition holds. |
| `Health.ResourcesWarningsExact` | hc-vcs.py:139-148 | The resource warnings are exactly the mismatches of the listed resources' maps, each under its resource and group. |
| `Health.GroupAttrWarnings` | hc-vcs.py:115-128 | A group's attribute warnings are exactly its map's mismatches against the table its `Parallel` attribute selects. |
| `Health.GroupResourceWarnings` | hc-vcs.py:139-148 | A group's resource warnings cover exactly its resources on the target system. No warning names another group. |
| `Health.GroupNodeWarnings` | hc-vcs.py:130-136 | A group's missing-node warning names exactly the cluster systems that its `SystemList` leaves out, and is issued only when there are some. |
| `Health.GroupStateWarnings` | hc-vcs.py:108-113 | A group's not-probed and autodisabled warnings depend on its state on the target system alone. |
| `Health.CheckResources` | hc-vcs.py:139-148 | The resource loop yields the resource warnings of the listed resources. |
| `Health.CheckGroup` | hc-vcs.py:108-148 | The body of the group loop yields exactly the group's warnings. |
| `Health.GroupsComplete` | hc-vcs.py:107-108 | The group loop completes iff every group has state on the target system. Otherwise it raises `KeyError`. |
| `Health.HaltPersists` | hc-vcs.py:107-108 | Once the group loop raises, later groups add nothing. |
| `Health.GroupsReportOver` | hc-vcs.py:107-148 | A completed loop over distinct groups yields the warnings of their set, whatever the order. |
| `Health.GroupOrderIrrelevant` | hc-vcs.py:107 | Any two orders of the group list end the same way and yield the same warnings. |
| `Health.GroupsInclude` | hc-vcs.py:107-148 | In a completed loop, every group's warnings are among the loop's. |
| `Health.CheckGroups` | hc-vcs.py:107-148 | The group loop computes the group-loop report. |
| `Health.CheckSystem` | hc-vcs.py:94-99 | The system checks yield exactly the system warnings. |
| `Health.CheckCluster` | hc-vcs.py:82-148 | The check once the object exists meets `Checked`: the stop on empty status, the `KeyError` cases, and the cluster then group warnings. |
| `Health.EmptyStatusStops` | hc-vcs.py:82-84 | An empty status ends the check at once with no warning. |
| `Health.CompletedCoversGroups` | hc-vcs.py:92-148 | A completed check holds the system warnings, the cluster attribute warnings and every group's warnings. |
| `Health.Target` | hc-vcs.py:77-78 | An empty target system is replaced by this host's name; a given one is kept. |
| `Health.HealthCheck` | hc-vcs.py:74-148 | Either the object's construction exception, or a `Checked` report over some enumeration of the parsed groups. |
| `Health.ManageFaultsExample` | hc-vcs.py:119-128 | A group with `ManageFaults: NONE`, `Parallel: 0` and the six other expected keys matching is checked against the failover table and gives exactly one warning: `ManageFaults` expected `ALL`, got `NONE`. |
| `Health.SystemListExample` | hc-vcs.py:131-136 | `SystemList` `charlie\t0\tdelta\t1` on cluster {charlie, delta, echo} reports exactly {echo} as missing. |
| `Health.FailedGroupDisplay` | hc-vcs.py:115-136 | A failed group display gives the failover table, no attribute warning, and the node set `{''}`. |

## Left out

- SSH (`remote_command`, the connection handling in the remote branch of
  `VCS.run`, `__del__`) and `subprocess.Popen`. Each command appears only
  through its `Reply`. The `PATH="..."` prefix that the remote branch puts
  on the command (hcvcs.py:78, 106) is not modelled, so a host's surface is
  keyed by the bare command.
- The `re` module: each filter is a line predicate over the newline-split
  output. A quirk of `'^[^#].*'` is not modelled: its `[^#]` can match the
  newline of a blank line, which glues the blank line onto the next one.
  `re.findall('^[^#].*', 'a\n\n#c', re.M)` gives `['a', '\n#c']`, so a
  comment line that follows a blank line gets through the filter.
- `hcvcs.quad2dict` is not part of this model. `Records.QuadToMap`
  assumes it maps field 1 to field 3 of each record, the last row winning.
  Nothing more is assumed about it.
- `make_pyfriendly` is modelled on a list of `Value`s (a string or a
  boolean), because the Python list changes its element type in place.
- The status dictionary of a system keeps `state`, `frozen` and its groups
  under one set of keys. A group named `state` or `frozen` would overwrite
  those fields. The model keeps them apart (`SystemState`).
- `time.localtime`, `strftime` and `int(...)` on `ClusterTime`
  (hc-vcs.py:87-88): only the lookups of the four shown attributes are
  modelled. A non-numeric `ClusterTime` raising `ValueError` is not.
- The printed text of warnings and status lines. Warnings are values of
  `Health.Warning`, gathered in a multiset, because the tables are
  dictionaries with no fixed iteration order.
- `Health.Checked`: when the cluster attribute loop raises, the model says
  only that the printed warnings lie between the system warnings and the
  system plus all cluster mismatch warnings. Which mismatches were printed
  depends on the dictionary order.
- The `__main__` blocks and `setup.py`.
