/**
 * Model of examples/R1107/msa/1/tosto.py: `fasta_to_stockholm`, which groups FASTA
 * lines into (identifier, sequence) records and writes them out as a Stockholm file.
 *
 * Input and output files are modelled as lists of lines without terminators; the
 * final `print` of a summary is left out.
 */
module Tosto {
  import opened PyStr

  /** One FASTA record as the reformatter stores it. */
  datatype Record = Record(id: string, residues: string)

  // ---------------------------------------------------------------------------
  // Grouping FASTA lines, as the loop does it
  // ---------------------------------------------------------------------------

  /** The loop's accumulators: the records kept so far and the record being built. */
  datatype FastaState = FastaState(records: seq<Record>, currentId: string, currentSeq: string)

  const Initial := FastaState([], "", "")

  /** The record under construction, when it has both an identifier and residues. */
  function Emit(id: string, residues: string): (r: seq<Record>)
    ensures r != [] <==> id != "" && residues != ""
    ensures r != [] ==> r == [Record(id, residues)]
  {
    if id != "" && residues != "" then [Record(id, residues)] else []
  }

  /** Every line as the loop sees it, after `line.strip()`. */
  function Stripped(lines: seq<string>): (r: seq<string>)
    ensures |r| == |lines|
  {
    seq(|lines|, i requires 0 <= i < |lines| => Strip(lines[i]))
  }

  /** A stripped line that opens a record: `line.startswith(">")` (see `PyStr.StartsWithChar`). */
  predicate IsHeader(l: string) {
    l != [] && l[0] == '>'
  }

  /** The identifier of a stripped header line: what follows `>`, stripped. */
  function HeaderId(l: string): string
    requires IsHeader(l)
  {
    Strip(l[1..])
  }

  /**
   * One pass of the loop body on a stripped line: blank lines are ignored; a header
   * line closes the current record and starts a new one; any other line is appended
   * to the current residues.
   */
  function Step(st: FastaState, l: string): FastaState {
    if l == "" then st
    else if IsHeader(l) then
      FastaState(st.records + Emit(st.currentId, st.currentSeq), Strip(l[1..]), "")
    else st.(currentSeq := st.currentSeq + l)
  }

  function Run(st: FastaState, ls: seq<string>): FastaState
    decreases |ls|
  {
    if ls == [] then st else Run(Step(st, ls[0]), ls[1..])
  }

  /** The records kept after the last line, once the pending one is added. */
  function Flush(st: FastaState): seq<Record> {
    st.records + Emit(st.currentId, st.currentSeq)
  }

  /** The records `fasta_to_stockholm` writes, in input order. */
  function FastaRecords(lines: seq<string>): seq<Record> {
    Flush(Run(Initial, Stripped(lines)))
  }

  // ---------------------------------------------------------------------------
  // Grouping FASTA lines, described record by record
  // ---------------------------------------------------------------------------

  /** The number of (stripped) lines before the first header line. */
  function LeadingLength(ls: seq<string>): (k: nat)
    ensures k <= |ls|
    ensures k < |ls| ==> IsHeader(ls[k])
  {
    if ls == [] || IsHeader(ls[0]) then 0 else 1 + LeadingLength(ls[1..])
  }

  /** The residues of a run of stripped lines, glued together in order. */
  function Body(ls: seq<string>): string {
    if ls == [] then "" else ls[0] + Body(ls[1..])
  }

  /**
   * The records of stripped lines that start with a header (or are none): each header
   * line with the run of lines after it up to the next header, kept when both the
   * identifier and the residues are non-empty.
   */
  function Groups(ls: seq<string>): seq<Record>
    requires ls == [] || IsHeader(ls[0])
    decreases |ls|
  {
    if ls == [] then []
    else
      var rest := ls[1..];
      var k := LeadingLength(rest);
      Emit(HeaderId(ls[0]), Body(rest[..k])) + Groups(rest[k..])
  }

  /** The records of a whole FASTA file: lines before the first header are dropped. */
  function ReferenceRecords(lines: seq<string>): seq<Record> {
    var ls := Stripped(lines);
    Groups(ls[LeadingLength(ls)..])
  }

  /** Running the loop from state `st` over `ls` ends as the record-by-record description says. */
  predicate RunsAsGroups(st: FastaState, ls: seq<string>) {
    var k := LeadingLength(ls);
    Flush(Run(st, ls))
    == st.records + Emit(st.currentId, st.currentSeq + Body(ls[..k])) + Groups(ls[k..])
  }

  lemma RunsAsGroupsHeader(st: FastaState, ls: seq<string>)
    requires ls != [] && IsHeader(ls[0])
    requires RunsAsGroups(Step(st, ls[0]), ls[1..])
    ensures RunsAsGroups(st, ls)
  {
    var rest := ls[1..];
    var j := LeadingLength(rest);
    var body, later := Body(rest[..j]), Groups(rest[j..]);
    HeaderRun(st, ls, body, later);
    HeaderGroupsSide(st, ls);
  }

  /** The loop's side of a header step, with the residues and the later records left abstract. */
  lemma HeaderRun(st: FastaState, ls: seq<string>, body: string, later: seq<Record>)
    requires ls != [] && IsHeader(ls[0])
    requires var next := Step(st, ls[0]);
             Flush(Run(next, ls[1..])) == next.records + Emit(next.currentId, next.currentSeq + body) + later
    ensures Flush(Run(st, ls)) == st.records + Emit(st.currentId, st.currentSeq) + Emit(HeaderId(ls[0]), body) + later
  {
    StepHeader(st, ls[0]);
    EmptyConcat(body);
  }

  /** Kept as a lemma so that the header step needs no sequence extensionality. */
  lemma EmptyConcat(s: string)
    ensures "" + s == s
  {
  }

  /** A header line closes the pending record and opens an empty one. */
  lemma StepHeader(st: FastaState, l: string)
    requires IsHeader(l)
    ensures Step(st, l) == FastaState(st.records + Emit(st.currentId, st.currentSeq), HeaderId(l), "")
  {
  }

  /** The description's side of a header step. */
  lemma HeaderGroupsSide(st: FastaState, ls: seq<string>)
    requires ls != [] && IsHeader(ls[0])
    ensures var rest := ls[1..];
            var j := LeadingLength(rest);
            var k := LeadingLength(ls);
            st.records + Emit(st.currentId, st.currentSeq + Body(ls[..k])) + Groups(ls[k..])
            == st.records + Emit(st.currentId, st.currentSeq) + Emit(HeaderId(ls[0]), Body(rest[..j])) + Groups(rest[j..])
  {
    var rest := ls[1..];
    var j := LeadingLength(rest);
    HeaderNoLeading(st.currentSeq, ls);
    GroupsAtHeader(ls);
    AppendAssoc(st.records + Emit(st.currentId, st.currentSeq),
                Emit(HeaderId(ls[0]), Body(rest[..j])), Groups(rest[j..]));
  }

  /** A run that starts with a header line has no leading lines to glue on. */
  lemma HeaderNoLeading(current: string, ls: seq<string>)
    requires ls != [] && IsHeader(ls[0])
    ensures current + Body(ls[..LeadingLength(ls)]) == current
    ensures ls[LeadingLength(ls)..] == ls
  {
    assert ls[..0] == [];
    assert current + "" == current;
  }

  /** `Groups` unfolded once at a header line. */
  lemma GroupsAtHeader(ls: seq<string>)
    requires ls != [] && IsHeader(ls[0])
    ensures Groups(ls) == Emit(HeaderId(ls[0]), Body(ls[1..][..LeadingLength(ls[1..])]))
                          + Groups(ls[1..][LeadingLength(ls[1..])..])
  {
  }

  lemma AppendAssoc(a: seq<Record>, b: seq<Record>, c: seq<Record>)
    ensures a + (b + c) == a + b + c
  {
  }

  lemma RunsAsGroupsOther(st: FastaState, ls: seq<string>)
    requires ls != [] && !IsHeader(ls[0])
    requires RunsAsGroups(Step(st, ls[0]), ls[1..])
    ensures RunsAsGroups(st, ls)
  {
    var l, rest := ls[0], ls[1..];
    var next := Step(st, l);
    assert Run(st, ls) == Run(next, rest);
    var j := LeadingLength(rest);
    var k := LeadingLength(ls);
    assert k == 1 + j;
    assert ls[..k] == [l] + rest[..j];
    assert ls[k..] == rest[j..];
    assert Body(ls[..k]) == l + Body(rest[..j]);
    assert next.records == st.records && next.currentId == st.currentId;
    if l == "" {
      assert l + Body(rest[..j]) == Body(rest[..j]);
    } else {
      assert next.currentSeq == st.currentSeq + l;
      assert next.currentSeq + Body(rest[..j]) == st.currentSeq + (l + Body(rest[..j]));
    }
    assert next.currentSeq + Body(rest[..j]) == st.currentSeq + Body(ls[..k]);
  }

  lemma {:induction false} RunGroups(st: FastaState, ls: seq<string>)
    ensures RunsAsGroups(st, ls)
    decreases |ls|
  {
    if ls == [] {
      assert st.currentSeq + "" == st.currentSeq;
    } else {
      RunGroups(Step(st, ls[0]), ls[1..]);
      if IsHeader(ls[0]) {
        RunsAsGroupsHeader(st, ls);
      } else {
        RunsAsGroupsOther(st, ls);
      }
    }
  }

  /**
   * The loop groups lines exactly as described record by record: one record per
   * header line with its identifier and the glued residues of the lines up to the
   * next header, kept only when both are non-empty; lines before the first header
   * are dropped.
   */
  lemma FastaRecordsAreGroups(lines: seq<string>)
    ensures FastaRecords(lines) == ReferenceRecords(lines)
  {
    RunGroups(Initial, Stripped(lines));
  }

  lemma {:induction false} GroupsNonEmpty(ls: seq<string>)
    requires ls == [] || IsHeader(ls[0])
    ensures forall r :: r in Groups(ls) ==> r.id != "" && r.residues != ""
    decreases |ls|
  {
    if ls != [] {
      var rest := ls[1..];
      GroupsNonEmpty(rest[LeadingLength(rest)..]);
    }
  }

  /** Every record written has a non-empty identifier and non-empty residues. */
  lemma RecordsNonEmpty(lines: seq<string>)
    ensures forall r :: r in FastaRecords(lines) ==> r.id != "" && r.residues != ""
  {
    FastaRecordsAreGroups(lines);
    var ls := Stripped(lines);
    GroupsNonEmpty(ls[LeadingLength(ls)..]);
  }

  lemma {:induction false} PrefixLeading(preamble: seq<string>, ls: seq<string>)
    requires forall i :: 0 <= i < |preamble| ==> !IsHeader(preamble[i])
    requires ls == [] || IsHeader(ls[0])
    ensures LeadingLength(preamble + ls) == |preamble|
    decreases |preamble|
  {
    if preamble != [] {
      assert (preamble + ls)[1..] == preamble[1..] + ls;
      PrefixLeading(preamble[1..], ls);
    }
  }

  /** Lines before the first header line never reach the output. */
  lemma PreambleDropped(preamble: seq<string>, lines: seq<string>)
    requires forall i :: 0 <= i < |preamble| ==> !IsHeader(Strip(preamble[i]))
    requires lines == [] || IsHeader(Strip(lines[0]))
    ensures FastaRecords(preamble + lines) == FastaRecords(lines)
  {
    var pre, ls := Stripped(preamble), Stripped(lines);
    StrippedAppend(preamble, lines);
    PrefixLeading(pre, ls);
    assert (pre + ls)[|pre|..] == ls;
    assert ReferenceRecords(preamble + lines) == ReferenceRecords(lines);
    FastaRecordsAreGroups(preamble + lines);
    FastaRecordsAreGroups(lines);
  }

  lemma StrippedAppend(a: seq<string>, b: seq<string>)
    ensures Stripped(a + b) == Stripped(a) + Stripped(b)
  {
    assert forall i :: 0 <= i < |a + b| ==> Stripped(a + b)[i] == (Stripped(a) + Stripped(b))[i];
  }

  // ---------------------------------------------------------------------------
  // Writing the Stockholm file
  // ---------------------------------------------------------------------------

  const HeaderLine := "# STOCKHOLM 1.0"
  const EndMarker := "//"
  const LabelWidth: nat := 40

  /** The first record is written as `query`, every other one under its own identifier. */
  function Label(i: nat, id: string): string {
    if i == 0 then "query" else id
  }

  /** `"{:<40} {}".format(name, residues)`. */
  function RecordLine(name: string, residues: string): string {
    PadRight(name, LabelWidth) + " " + residues
  }

  function RecordLines(records: seq<Record>): (r: seq<string>)
    ensures |r| == |records|
  {
    seq(|records|, i requires 0 <= i < |records| => RecordLine(Label(i, records[i].id), records[i].residues))
  }

  /** The written file: the header, one blank line, a line per record and `//`. */
  function StockholmText(records: seq<Record>): (out: seq<string>)
    ensures |out| == |records| + 3
    ensures out[0] == HeaderLine && out[1] == "" && out[|out| - 1] == EndMarker
    ensures forall i :: 0 <= i < |records| ==>
              out[i + 2] == RecordLine(Label(i, records[i].id), records[i].residues)
  {
    [HeaderLine, ""] + RecordLines(records) + [EndMarker]
  }

  /** `zip(identifiers, sequences)`: pairs up to the shorter list. */
  function Zip(identifiers: seq<string>, sequences: seq<string>): (r: seq<Record>)
    ensures |r| == if |identifiers| < |sequences| then |identifiers| else |sequences|
    ensures forall i :: 0 <= i < |r| ==> r[i] == Record(identifiers[i], sequences[i])
  {
    if identifiers == [] || sequences == [] then []
    else [Record(identifiers[0], sequences[0])] + Zip(identifiers[1..], sequences[1..])
  }

  function IdsOf(records: seq<Record>): (r: seq<string>)
    ensures |r| == |records| && forall i :: 0 <= i < |r| ==> r[i] == records[i].id
  {
    seq(|records|, i requires 0 <= i < |records| => records[i].id)
  }

  function ResiduesOf(records: seq<Record>): (r: seq<string>)
    ensures |r| == |records| && forall i :: 0 <= i < |r| ==> r[i] == records[i].residues
  {
    seq(|records|, i requires 0 <= i < |records| => records[i].residues)
  }

  // ---------------------------------------------------------------------------
  // The methods
  // ---------------------------------------------------------------------------

  lemma Appended(records: seq<Record>, r: Record)
    ensures IdsOf(records + [r]) == IdsOf(records) + [r.id]
    ensures ResiduesOf(records + [r]) == ResiduesOf(records) + [r.residues]
  {
    assert IdsOf(records + [r]) == IdsOf(records) + [r.id];
    assert ResiduesOf(records + [r]) == ResiduesOf(records) + [r.residues];
  }

  /** Running from the `i`-th line is one step followed by running from the next. */
  lemma RunFrom(st: FastaState, ls: seq<string>, i: nat)
    requires i < |ls|
    ensures Run(st, ls[i..]) == Run(Step(st, ls[i]), ls[i + 1..])
  {
    assert ls[i..][0] == ls[i] && ls[i..][1..] == ls[i + 1..];
  }

  /** The reading half of `fasta_to_stockholm`: the loop over lines and the final flush. */
  method ReadFasta(lines: seq<string>) returns (identifiers: seq<string>, sequences: seq<string>)
    ensures identifiers == IdsOf(FastaRecords(lines))
    ensures sequences == ResiduesOf(FastaRecords(lines))
  {
    sequences := [];
    identifiers := [];
    var currentSeq := "";
    var currentId := "";
    ghost var records: seq<Record> := [];
    ghost var ls := Stripped(lines);
    var i := 0;
    while i < |lines|
      invariant 0 <= i <= |lines|
      invariant identifiers == IdsOf(records) && sequences == ResiduesOf(records)
      invariant Run(FastaState(records, currentId, currentSeq), ls[i..]) == Run(Initial, ls)
    {
      ghost var before := FastaState(records, currentId, currentSeq);
      RunFrom(before, ls, i);
      var line := Strip(lines[i]);
      assert line == ls[i];
      if line != "" {
        StartsWithChar(line, '>');
        if StartsWith(line, ">") {
          StepHeader(before, line);
          if currentId != "" && currentSeq != "" {
            Appended(records, Record(currentId, currentSeq));
            sequences := sequences + [currentSeq];
            identifiers := identifiers + [currentId];
            records := records + [Record(currentId, currentSeq)];
          } else {
            assert records + [] == records;
          }
          currentId := Strip(line[1..]);
          currentSeq := "";
        } else {
          currentSeq := currentSeq + line;
        }
      }
      assert FastaState(records, currentId, currentSeq) == Step(before, line);
      i := i + 1;
    }
    assert ls[i..] == [];
    if currentId != "" && currentSeq != "" {
      Appended(records, Record(currentId, currentSeq));
      sequences := sequences + [currentSeq];
      identifiers := identifiers + [currentId];
      records := records + [Record(currentId, currentSeq)];
    }
    assert records == FastaRecords(lines);
  }

  /** The writing half of `fasta_to_stockholm`. */
  method WriteStockholm(identifiers: seq<string>, sequences: seq<string>) returns (output: seq<string>)
    ensures output == StockholmText(Zip(identifiers, sequences))
  {
    ghost var records := Zip(identifiers, sequences);
    output := [HeaderLine, ""];
    var i := 0;
    while i < |identifiers| && i < |sequences|
      invariant 0 <= i <= |records|
      invariant output == [HeaderLine, ""] + RecordLines(records[..i])
    {
      var line: string;
      if i == 0 {
        line := RecordLine("query", sequences[i]);
      } else {
        line := RecordLine(identifiers[i], sequences[i]);
      }
      assert records[..i + 1] == records[..i] + [records[i]];
      output := output + [line];
      i := i + 1;
    }
    assert records[..i] == records;
    output := output + [EndMarker];
  }

  lemma ZipUnzip(records: seq<Record>)
    ensures Zip(IdsOf(records), ResiduesOf(records)) == records
  {
  }

  /** `fasta_to_stockholm(fasta_file, output_file)`: the lines written for the lines read. */
  method FastaToStockholm(lines: seq<string>) returns (output: seq<string>)
    ensures output == StockholmText(FastaRecords(lines))
  {
    var identifiers, sequences := ReadFasta(lines);
    ZipUnzip(FastaRecords(lines));
    output := WriteStockholm(identifiers, sequences);
  }
}
