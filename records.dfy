/**
 * Records of normalised output in hcvcs.py: the `dict(...)` of two-column rows,
 * the record filters of `VCS.resource_display` and `VCS.group_display`, and the
 * boolean coercion `make_pyfriendly`.
 */
module Records {
  import opened Wrappers
  import opened Lists

  /** A two-column row: `[name, rest]`. */
  type Pair = r: seq<string> | |r| == 2 witness ["", ""]

  /** A quad record: `[entity, attribute, scope, value]`; the scope is a system or `global`. */
  type Quad = r: seq<string> | |r| == 4 witness ["", "", "", ""]

  /**
   * The map from column `kcol` to column `vcol` of the rows, the last row with a
   * given key winning: `dict((x[kcol], x[vcol]) for x in rows)`.
   */
  function Index(rows: seq<seq<string>>, kcol: nat, vcol: nat): map<string, string>
    requires forall i :: 0 <= i < |rows| ==> kcol < |rows[i]| && vcol < |rows[i]|
  {
    if rows == [] then map[]
    else
      var last := rows[|rows| - 1];
      Index(rows[..|rows| - 1], kcol, vcol)[last[kcol] := last[vcol]]
  }

  /**
   * A key is in the index exactly when some row carries it, and it maps to the
   * value of the last such row.
   */
  lemma {:induction false} IndexLookup(rows: seq<seq<string>>, kcol: nat, vcol: nat, key: string)
    requires forall i :: 0 <= i < |rows| ==> kcol < |rows[i]| && vcol < |rows[i]|
    ensures key in Index(rows, kcol, vcol) <==> exists i :: 0 <= i < |rows| && rows[i][kcol] == key
    ensures forall i :: 0 <= i < |rows| && rows[i][kcol] == key &&
                        (forall j :: i < j < |rows| ==> rows[j][kcol] != key) ==>
                        key in Index(rows, kcol, vcol) && Index(rows, kcol, vcol)[key] == rows[i][vcol]
  {
    if rows != [] {
      var init := rows[..|rows| - 1];
      IndexLookup(init, kcol, vcol, key);
      assert forall i :: 0 <= i < |init| ==> init[i] == rows[i];
    }
  }

  /** `dict(pairs)` of the two-column rows of `haclus -display`. */
  function PairMap(rows: seq<Pair>): map<string, string> {
    Index(rows, 0, 1)
  }

  /**
   * `hcvcs.quad2dict`, which the repository calls but does not define: assumed to
   * map each record's attribute (field 1) to its value (field 3), as `dict` would.
   */
  function QuadToMap(rows: seq<Quad>): map<string, string> {
    Index(rows, 1, 3)
  }

  /** `filter(lambda x: x[0] == res, rows)`, applied only when `res` is given. */
  function ForEntity(rows: seq<Quad>, res: string): (r: seq<Quad>)
    ensures IsSubsequence(r, rows)
    ensures forall x :: x in r <==> x in rows && (res == "" || x[0] == res)
    ensures forall x: Quad :: multiset(r)[x] == (if res == "" || x[0] == res then multiset(rows)[x] else 0)
    ensures res == "" ==> r == rows
  {
    if res == "" then
      assert IsSubsequence(rows, rows) by { SubsequenceOfSelf(rows); }
      rows
    else
      FilterSpec(rows, (x: Quad) => x[0] == res);
      Filter(rows, (x: Quad) => x[0] == res)
  }

  /** `filter(lambda x: x[2] in [system, 'global'], rows)`, applied only when `system` is given. */
  function ForScope(rows: seq<Quad>, system: string): (r: seq<Quad>)
    ensures IsSubsequence(r, rows)
    ensures forall x :: x in r <==> x in rows && (system == "" || x[2] == system || x[2] == "global")
    ensures forall x: Quad :: (multiset(r)[x] ==
      if system == "" || x[2] == system || x[2] == "global" then multiset(rows)[x] else 0)
    ensures system == "" ==> r == rows
  {
    if system == "" then
      assert IsSubsequence(rows, rows) by { SubsequenceOfSelf(rows); }
      rows
    else
      FilterSpec(rows, (x: Quad) => x[2] in [system, "global"]);
      Filter(rows, (x: Quad) => x[2] in [system, "global"])
  }

  /**
   * The record selection of `VCS.resource_display` (hcvcs.py:181-185): an
   * order-preserving subsequence of the records, holding exactly those of the
   * resource `res` (when given) whose scope is `system` or `global` (when
   * `system` is given); with neither given, all records.
   */
  function SelectResource(rows: seq<Quad>, res: string, system: string): (r: seq<Quad>)
    ensures IsSubsequence(r, rows)
    ensures forall x :: x in r <==>
      x in rows && (res == "" || x[0] == res) && (system == "" || x[2] == system || x[2] == "global")
    ensures forall x: Quad :: (multiset(r)[x] ==
      if (res == "" || x[0] == res) && (system == "" || x[2] == system || x[2] == "global")
      then multiset(rows)[x] else 0)
    ensures res == "" && system == "" ==> r == rows
  {
    var byName := ForEntity(rows, res);
    var r := ForScope(byName, system);
    SubsequenceTransitive(r, byName, rows);
    r
  }

  /** A value of a record after `make_pyfriendly`: a string, or a Python boolean. */
  datatype Value = Str(s: string) | Flag(b: bool)

  /**
   * The coercion `make_pyfriendly` applies to the last element: `'1'` becomes
   * `True`, `'0'` becomes `False`, anything else is left alone.
   */
  function Coerce(v: Value): (r: Value)
    ensures r.Flag? <==> v.Flag? || v == Str("1") || v == Str("0")
    ensures r == Flag(true) <==> v == Str("1") || v == Flag(true)
    ensures r == Flag(false) <==> v == Str("0") || v == Flag(false)
    ensures r.Str? ==> r == v
  {
    if v == Str("1") then Flag(true)
    else if v == Str("0") then Flag(false)
    else v
  }

  /**
   * `make_pyfriendly(x)` (hcvcs.py:52-61): rewrites the last element of the list
   * in place and returns the same list; an empty list raises `IndexError`.
   */
  method MakePyFriendly(x: array<Value>) returns (r: Result<array<Value>>)
    modifies x
    ensures x.Length == 0 ==> r == Err(IndexError) && x[..] == old(x[..])
    ensures x.Length > 0 ==> r == Ok(x)
    ensures x.Length > 0 ==> x[..x.Length - 1] == old(x[..x.Length - 1])
    ensures x.Length > 0 ==> x[x.Length - 1] == Coerce(old(x[x.Length - 1]))
  {
    if x.Length == 0 {
      return Err(IndexError);
    }
    var last := x.Length - 1;
    if x[last] == Str("1") {
      x[last] := Flag(true);
    } else if x[last] == Str("0") {
      x[last] := Flag(false);
    }
    r := Ok(x);
  }
}
