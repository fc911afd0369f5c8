/**
 * Output normalisation of hcvcs.py: what a command launch leaves behind, the
 * per-line filter, and the split of each kept line into a fixed number of
 * columns, right-padded with empty strings (`VCS.run` and the free function
 * `command`).
 */
module Normalize {
  import opened Text
  import opened Lists

  /**
   * What launching one command gives back: the exit status and the captured
   * output, or a failure to launch or to reach the host at all.
   */
  datatype Reply = Exited(code: int, output: string) | Failed

  /** The command surface of a host: the reply every command string gets. */
  type Surface = string -> Reply

  /**
   * The text `VCS.run` goes on to filter. The local branch keeps the output only
   * on exit status 0; the remote branch reads the output whatever the status;
   * any failure leaves the empty text.
   */
  function Captured(remote: bool, reply: Reply): string {
    match reply
    case Failed => ""
    case Exited(code, output) => if remote || code == 0 then output else ""
  }

  /** The default filter `'^[^\n]*'`: every line matches, empty lines included. */
  predicate AnyLine(line: string) {
    true
  }

  /** The filter `'^[^#].*'`: a non-empty line that does not start with `#`. */
  predicate NotComment(line: string) {
    line != [] && line[0] != '#'
  }

  /** Python 2's `\w` without the UNICODE flag: an ASCII letter, a digit or `_`. */
  predicate IsWordChar(c: char) {
    ('a' <= c <= 'z') || ('A' <= c <= 'Z') || ('0' <= c <= '9') || c == '_'
  }

  /** The filter `'^\w.*'`: a line that starts with a word character. */
  predicate WordLead(line: string) {
    line != [] && IsWordChar(line[0])
  }

  /** `re.findall(filter, text)` with `re.M`, for a filter that matches whole lines. */
  function FindAll(text: string, keep: string -> bool): seq<string> {
    Filter(SplitOn(text, '\n'), keep)
  }

  /** `[''] * k`: `k` empty strings, none when `k` is not positive. */
  function Blanks(k: int): (r: seq<string>)
    ensures |r| == if k > 0 then k else 0
    ensures forall i :: 0 <= i < |r| ==> r[i] == ""
  {
    if k <= 0 then [] else Blanks(k - 1) + [""]
  }

  lemma {:induction false} RetokenizeBlanks(k: int)
    ensures Retokenize(Blanks(k)) == []
    decreases k
  {
    if k > 0 {
      RetokenizeBlanks(k - 1);
      RetokenizeAppend(Blanks(k - 1), [""]);
      assert Retokenize([""]) == Tokens("") + Retokenize([]);
    }
  }

  /**
   * One line as a record of exactly `ncol` fields:
   * `parts + [''] * (ncol - len(parts))` where `parts = line.split(None, ncol - 1)`.
   * The fields re-split on whitespace give back the line's tokens; no field but
   * the last holds whitespace; a line with fewer than `ncol` tokens becomes its
   * tokens followed by empty fields (an empty line: `ncol` empty fields); a line
   * with more keeps its first `ncol - 1` tokens as fields and the rest, with
   * their spacing, in the last field.
   */
  function Record(line: string, ncol: nat): (r: seq<string>)
    requires ncol > 0
    ensures |r| == ncol
    ensures Retokenize(r) == Tokens(line)
    ensures forall i :: 0 <= i < ncol - 1 ==> NoSpace(r[i])
    ensures |Tokens(line)| < ncol ==> r == Tokens(line) + Blanks(ncol - |Tokens(line)|)
    ensures |Tokens(line)| >= ncol ==>
              r[..ncol - 1] == Tokens(line)[..ncol - 1] && IsWordStart(r[ncol - 1]) &&
              Tokens(r[ncol - 1]) == Tokens(line)[ncol - 1..]
    ensures |Tokens(line)| >= ncol ==> exists j :: 0 <= j < |line| && r[ncol - 1] == line[j..]
  {
    var parts := SplitN(line, ncol - 1);
    RecordPartsShape(line, ncol);
    RecordPartsTokens(line, ncol);
    RecordPartsFew(line, ncol);
    SplitNLastIsRest(line, ncol - 1);
    TokensAreWords(line);
    RecordFacts(Tokens(line), ncol, parts);
    parts + Blanks(ncol - |parts|)
  }

  /** The shape of `line.split(None, ncol - 1)`, in the terms of `RecordFacts`. */
  lemma RecordPartsShape(line: string, ncol: nat)
    requires ncol > 0
    ensures |SplitN(line, ncol - 1)| == Min(ncol, |Tokens(line)|)
    ensures forall i :: 0 <= i < |SplitN(line, ncol - 1)| - 1 ==> SplitN(line, ncol - 1)[i] == Tokens(line)[i]
    ensures SplitN(line, ncol - 1) != [] ==> IsWordStart(SplitN(line, ncol - 1)[|SplitN(line, ncol - 1)| - 1])
  {
    SplitNShape(line, ncol - 1);
  }

  /** The tokens of the parts of `line.split(None, ncol - 1)` are the line's tokens. */
  lemma RecordPartsTokens(line: string, ncol: nat)
    requires ncol > 0
    ensures Retokenize(SplitN(line, ncol - 1)) == Tokens(line)
  {
    SplitNTokens(line, ncol - 1);
  }

  /** A line with fewer than `ncol` tokens splits into just its tokens. */
  lemma RecordPartsFew(line: string, ncol: nat)
    requires ncol > 0
    ensures |Tokens(line)| <= ncol - 1 ==> SplitN(line, ncol - 1) == Tokens(line)
  {
    SplitNFew(line, ncol - 1);
  }

  lemma RecordFacts(toks: seq<string>, ncol: nat, parts: seq<string>)
    requires ncol > 0
    requires |parts| == Min(ncol, |toks|)
    requires forall i :: 0 <= i < |parts| - 1 ==> parts[i] == toks[i]
    requires parts != [] ==> IsWordStart(parts[|parts| - 1])
    requires Retokenize(parts) == toks
    requires |toks| <= ncol - 1 ==> parts == toks
    requires forall i :: 0 <= i < |toks| ==> IsWord(toks[i])
    ensures var r := parts + Blanks(ncol - |parts|);
      && |r| == ncol
      && Retokenize(r) == toks
      && (forall i :: 0 <= i < ncol - 1 ==> NoSpace(r[i]))
      && (|toks| < ncol ==> r == toks + Blanks(ncol - |toks|))
      && (|toks| >= ncol ==>
            r[..ncol - 1] == toks[..ncol - 1] && IsWordStart(r[ncol - 1]) &&
            Tokens(r[ncol - 1]) == toks[ncol - 1..])
  {
    RetokenizeAppend(parts, Blanks(ncol - |parts|));
    RetokenizeBlanks(ncol - |parts|);
    RecordNoSpace(toks, ncol, parts);
    if |toks| >= ncol {
      RecordLong(toks, ncol, parts);
    }
  }

  lemma RecordNoSpace(toks: seq<string>, ncol: nat, parts: seq<string>)
    requires ncol > 0 && |parts| == Min(ncol, |toks|)
    requires forall i :: 0 <= i < |parts| - 1 ==> parts[i] == toks[i]
    requires |toks| <= ncol - 1 ==> parts == toks
    requires forall i :: 0 <= i < |toks| ==> IsWord(toks[i])
    ensures var r := parts + Blanks(ncol - |parts|);
      forall i :: 0 <= i < ncol - 1 ==> NoSpace(r[i])
  {
    var r := parts + Blanks(ncol - |parts|);
    forall i | 0 <= i < ncol - 1 ensures NoSpace(r[i]) {
      if i < |parts| - 1 {
        assert r[i] == toks[i];
      } else if i >= |parts| {
        assert r[i] == "";
      } else {
        assert r[i] == toks[i];
      }
    }
  }

  lemma RecordLong(toks: seq<string>, ncol: nat, parts: seq<string>)
    requires ncol > 0 && |toks| >= ncol && |parts| == ncol
    requires forall i :: 0 <= i < |parts| - 1 ==> parts[i] == toks[i]
    requires Retokenize(parts) == toks
    requires forall i :: 0 <= i < |toks| ==> IsWord(toks[i])
    ensures parts[..ncol - 1] == toks[..ncol - 1]
    ensures Tokens(parts[ncol - 1]) == toks[ncol - 1..]
  {
    var head, last := parts[..ncol - 1], parts[ncol - 1];
    assert head == toks[..ncol - 1];
    assert parts == head + [last];
    RetokenizeWordsThen(head, last);
    assert toks == head + Tokens(last);
  }

  /** Words followed by one more field re-split into the words and that field's tokens. */
  lemma RetokenizeWordsThen(head: seq<string>, last: string)
    requires forall i :: 0 <= i < |head| ==> IsWord(head[i])
    ensures Retokenize(head + [last]) == head + Tokens(last)
  {
    RetokenizeWords(head);
    RetokenizeAppend(head, [last]);
    RetokenizeOne(last);
  }

  lemma RetokenizeOne(field: string)
    ensures Retokenize([field]) == Tokens(field)
  {
    assert [field][1..] == [];
  }

  /** The rows of a normalised output: the kept lines as they are, or one record per line. */
  datatype Output = Lines(lines: seq<string>) | Rows(rows: seq<seq<string>>) {
    /** The empty list `[]` of the source. */
    predicate IsEmpty() {
      match this
      case Lines(ls) => ls == []
      case Rows(rs) => rs == []
    }
  }

  /**
   * hcvcs.py:126-127 (and 23-25): with `ncol == 0` the kept lines come back
   * untouched and in order; otherwise every line becomes a record of exactly
   * `ncol` fields whose tokens are the line's tokens.
   */
  function Shape(lines: seq<string>, ncol: nat): (r: Output)
    ensures ncol == 0 ==> r == Lines(lines)
    ensures ncol > 0 ==> r.Rows? && |r.rows| == |lines|
    ensures ncol > 0 ==> forall i :: 0 <= i < |lines| ==>
              |r.rows[i]| == ncol && Retokenize(r.rows[i]) == Tokens(lines[i]) && r.rows[i] == Record(lines[i], ncol)
  {
    if ncol == 0 then Lines(lines)
    else Rows(seq(|lines|, i requires 0 <= i < |lines| => Record(lines[i], ncol)))
  }

  /** The result of `VCS.run` (local or remote branch) once the reply is known. */
  function Run(remote: bool, reply: Reply, keep: string -> bool, ncol: nat): Output {
    Shape(FindAll(Captured(remote, reply), keep), ncol)
  }

  /**
   * The free function `command` (hcvcs.py:10-30): on exit status 0 it returns
   * what the local branch of `VCS.run` returns; on a non-zero status or a failed
   * launch it returns the empty list, whatever the filter.
   */
  function Command(reply: Reply, keep: string -> bool, nparts: nat): (r: Output)
    ensures reply.Exited? && reply.code == 0 ==> r == Run(false, reply, keep, nparts)
    ensures !(reply.Exited? && reply.code == 0) ==> r.IsEmpty()
  {
    if reply.Exited? && reply.code == 0 then Shape(FindAll(reply.output, keep), nparts)
    else Shape([], nparts)
  }

  /**
   * With no column count and the default filter, `run` returns the lines of
   * the captured output untouched and in order: joined with newlines they are
   * that output.
   */
  lemma RunUntouched(remote: bool, reply: Reply)
    ensures Run(remote, reply, AnyLine, 0).Lines?
    ensures Join(Run(remote, reply, AnyLine, 0).lines, '\n') == Captured(remote, reply)
  {
    var lines := SplitOn(Captured(remote, reply), '\n');
    FilterKeepsAll(lines, AnyLine);
    JoinSplitOn(Captured(remote, reply), '\n');
  }

  /**
   * With no column count and any filter, `run` returns exactly the lines of the
   * captured output that pass the filter, unaltered, in their order.
   */
  lemma RunFiltersLines(remote: bool, reply: Reply, keep: string -> bool)
    ensures var out := Run(remote, reply, keep, 0);
      && out.Lines?
      && IsSubsequence(out.lines, SplitOn(Captured(remote, reply), '\n'))
      && (forall l :: multiset(out.lines)[l] ==
            if keep(l) then multiset(SplitOn(Captured(remote, reply), '\n'))[l] else 0)
      && (forall l :: l in out.lines <==> l in SplitOn(Captured(remote, reply), '\n') && keep(l))
  {
    FilterSpec(SplitOn(Captured(remote, reply), '\n'), keep);
  }

  /** A local run that exits non-zero, or any run that fails, captures no text. */
  predicate NoData(remote: bool, reply: Reply) {
    reply.Failed? || (!remote && reply.code != 0)
  }

  /**
   * A run without data yields nothing under a filter that rejects the empty
   * line (both filters `VCS` uses do); under the default filter the empty
   * output still has one empty line, so `run` yields that line, or one record
   * of empty fields.
   */
  lemma {:induction false} RunWithoutData(remote: bool, reply: Reply, keep: string -> bool, ncol: nat)
    requires NoData(remote, reply)
    ensures !keep("") ==> Run(remote, reply, keep, ncol).IsEmpty()
    ensures keep("") ==> Run(remote, reply, keep, ncol) == Shape([""], ncol)
  {
    assert Captured(remote, reply) == "";
    assert SplitOn("", '\n') == [""];
    assert Filter([""], keep) == (if keep("") then [""] else []) + Filter([], keep);
  }

  /**
   * Under `'^\w.*'` and two or more columns, the first field of every record is
   * the line's first token, a whole word (a resource or group name).
   */
  lemma WordLeadFirstField(text: string, ncol: nat)
    requires ncol >= 2
    ensures var out := Shape(FindAll(text, WordLead), ncol);
      forall i :: 0 <= i < |out.rows| ==> IsWord(out.rows[i][0])
  {
    var lines := FindAll(text, WordLead);
    FilterSpec(SplitOn(text, '\n'), WordLead);
    forall i | 0 <= i < |lines|
      ensures IsWord(Record(lines[i], ncol)[0])
    {
      WordLeadHasToken(lines[i]);
      TokensAreWords(lines[i]);
    }
  }

  /** Neither filter `VCS` uses keeps the empty line. */
  lemma FiltersRejectEmpty()
    ensures !NotComment("") && !WordLead("") && AnyLine("")
  {
  }

  /** A line kept by `'^\w.*'` always has a first token, so `parts[0]` exists. */
  lemma WordLeadHasToken(line: string)
    requires WordLead(line)
    ensures Tokens(line) != []
  {
    assert SkipSpace(line) == line;
  }
}
