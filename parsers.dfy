/**
 * Model of protenix/openfold_local/data/parsers.py: the `Msa` alignment record and
 * `parse_stockholm`, the chunked, tolerant reader of Stockholm alignment files.
 *
 * A file is modelled as the list of its lines (without line terminators); reading is
 * a cursor into that list. The logger calls are left out.
 */
module Parsers {
  import opened Wrappers
  import opened PyStr

  // ---------------------------------------------------------------------------
  // The alignment record
  // ---------------------------------------------------------------------------

  /** An alignment: sequences, one description per sequence, one deletion row per sequence. */
  datatype Msa = Msa(sequences: seq<string>, descriptions: seq<string>, deletionMatrices: seq<seq<int>>)
  {
    /** The shape invariant that `Msa.__init__` enforces. */
    predicate Valid() {
      Shaped(sequences, descriptions, deletionMatrices)
    }
  }

  predicate Shaped(sequences: seq<string>, descriptions: seq<string>, matrices: seq<seq<int>>) {
    && |sequences| == |descriptions|
    && |sequences| == |matrices|
    && forall i :: 0 <= i < |sequences| ==> |sequences[i]| == |matrices[i]|
  }

  /** The `ValueError`s raised by `Msa.__init__`, in the order it looks for them. */
  datatype MsaError =
    | DescriptionCountMismatch(sequenceCount: nat, descriptionCount: nat)
    | MatrixCountMismatch(sequenceCount: nat, matrixCount: nat)
    | RowLengthMismatch(index: nat, sequenceLength: nat, rowLength: nat)

  /**
   * The deletion row built for one sequence. The source tests each symbol for a gap
   * and appends 0 on both branches, so no deletion is ever counted.
   */
  function ZeroRow(s: string): (row: seq<int>)
    ensures |row| == |s|
    ensures forall j :: 0 <= j < |row| ==> row[j] == 0
  {
    seq(|s|, j requires 0 <= j < |s| => if s[j] == '-' then 0 else 0)
  }

  /** One zero row per sequence. */
  function ZeroMatrices(sequences: seq<string>): (m: seq<seq<int>>)
    ensures |m| == |sequences|
    ensures forall i :: 0 <= i < |m| ==> |m[i]| == |sequences[i]|
    ensures forall i, j :: 0 <= i < |m| && 0 <= j < |m[i]| ==> m[i][j] == 0
  {
    seq(|sequences|, i requires 0 <= i < |sequences| => ZeroRow(sequences[i]))
  }

  /** The deletion matrices `Msa.__init__` ends up holding. */
  function MatricesOrDefault(sequences: seq<string>, deletionMatrices: Option<seq<seq<int>>>): seq<seq<int>> {
    if deletionMatrices.Some? then deletionMatrices.value else ZeroMatrices(sequences)
  }

  /**
   * `Msa(sequences, descriptions, deletion_matrices)`. Without deletion matrices it
   * builds one zero row per sequence; it then checks the shapes and raises on the
   * first mismatch it finds.
   */
  method NewMsa(sequences: seq<string>, descriptions: seq<string>, deletionMatrices: Option<seq<seq<int>>>)
    returns (r: Result<Msa, MsaError>)
    ensures r.Success? <==> Shaped(sequences, descriptions, MatricesOrDefault(sequences, deletionMatrices))
    ensures r.Success? ==> r.value == Msa(sequences, descriptions, MatricesOrDefault(sequences, deletionMatrices))
    ensures |sequences| != |descriptions| ==>
              r == Failure(DescriptionCountMismatch(|sequences|, |descriptions|))
    ensures var m := MatricesOrDefault(sequences, deletionMatrices);
            |sequences| == |descriptions| && |sequences| != |m| ==>
              r == Failure(MatrixCountMismatch(|sequences|, |m|))
    ensures var m := MatricesOrDefault(sequences, deletionMatrices);
            |sequences| == |descriptions| == |m| && r.Failure? ==> r.error.RowLengthMismatch?
    ensures var m := MatricesOrDefault(sequences, deletionMatrices);
            r.Failure? && r.error.RowLengthMismatch? ==>
              var i := r.error.index;
              && i < |sequences| == |m|
              && r.error == RowLengthMismatch(i, |sequences[i]|, |m[i]|)
              && |sequences[i]| != |m[i]|
              && forall k :: 0 <= k < i ==> |sequences[k]| == |m[k]|
  {
    var matrices: seq<seq<int>>;
    if deletionMatrices.Some? {
      matrices := deletionMatrices.value;
    } else {
      matrices := [];
      var i := 0;
      while i < |sequences|
        invariant 0 <= i <= |sequences|
        invariant |matrices| == i
        invariant forall k :: 0 <= k < i ==> matrices[k] == ZeroRow(sequences[k])
      {
        var row: seq<int> := [];
        var j := 0;
        while j < |sequences[i]|
          invariant 0 <= j <= |sequences[i]|
          invariant |row| == j
          invariant forall t :: 0 <= t < j ==> row[t] == 0
        {
          if sequences[i][j] == '-' {
            row := row + [0];
          } else {
            row := row + [0];
          }
          j := j + 1;
        }
        assert row == ZeroRow(sequences[i]);
        matrices := matrices + [row];
        i := i + 1;
      }
      assert matrices == ZeroMatrices(sequences);
    }
    if |sequences| != |descriptions| {
      return Failure(DescriptionCountMismatch(|sequences|, |descriptions|));
    }
    if |sequences| != |matrices| {
      return Failure(MatrixCountMismatch(|sequences|, |matrices|));
    }
    var i := 0;
    while i < |sequences|
      invariant 0 <= i <= |sequences|
      invariant forall k :: 0 <= k < i ==> |sequences[k]| == |matrices[k]|
    {
      if |sequences[i]| != |matrices[i]| {
        return Failure(RowLengthMismatch(i, |sequences[i]|, |matrices[i]|));
      }
      i := i + 1;
    }
    return Success(Msa(sequences, descriptions, matrices));
  }

  /** `Msa([""], [""])`: the record returned on every failure path of the parser. */
  function Degenerate(): (m: Msa)
    ensures m.Valid()
  {
    Msa([""], [""], [[]])
  }

  /** Builds the degenerate record the way the source does, through the constructor. */
  method DegenerateMsa() returns (m: Msa)
    ensures m == Degenerate()
  {
    var r := NewMsa([""], [""], None);
    assert ZeroMatrices([""]) == [[]];
    m := r.value;
  }

  // ---------------------------------------------------------------------------
  // One line
  // ---------------------------------------------------------------------------

  /** The stored (description, sequence) pair of one data line. */
  datatype Entry = Entry(description: string, sequence: string)

  /** What a line read inside a chunk turns out to be. */
  datatype LineKind =
    | Blank
    | Comment
    | Terminator
    | Unsplit            // no whitespace between an identifier and residues
    | Data(entry: Entry)

  /**
   * The per-line decisions of the inner loop: strip; skip blank and `#` lines; stop
   * the chunk at `//`; split off the identifier at the first whitespace run, skip the
   * line when there is none, and drop whitespace and digits from the residues.
   */
  function Classify(line: string): LineKind {
    var s := Strip(line);
    if s == "" then Blank
    else if StartsWith(s, "#") then Comment
    else if s == "//" then Terminator
    else
      var parts := SplitOnce(s);
      if |parts| != 2 then Unsplit
      else Data(Entry(parts[0], RemoveSpacesAndDigits(parts[1])))
  }

  /**
   * Which lines are data lines, and what a data line stores: a non-empty,
   * whitespace-free description and residues free of whitespace and digits.
   */
  lemma ClassifyKinds(line: string)
    ensures Classify(line).Blank? <==> Strip(line) == ""
    ensures Classify(line).Comment? <==> Strip(line) != "" && Strip(line)[0] == '#'
    ensures Classify(line).Terminator? <==> Strip(line) == "//"
    ensures Classify(line).Data? <==>
              var s := Strip(line);
              s != "" && s[0] != '#' && s != "//" && !NoSpace(s)
    ensures Classify(line).Data? ==>
              var e := Classify(line).entry;
              e.description != "" && NoSpace(e.description) && NoSpaceOrDigit(e.sequence)
  {
    StartsWithChar(Strip(line), '#');
  }

  /**
   * A line made of an identifier, a whitespace run and clean residues is a data line
   * storing exactly that identifier and those residues.
   */
  lemma ClassifyDataLine(id: string, gap: string, residues: string)
    requires id != [] && NoSpace(id) && id[0] != '#'
    requires gap != [] && AllSpace(gap)
    requires residues != [] && NoSpaceOrDigit(residues)
    ensures Classify(id + gap + residues) == Data(Entry(id, residues))
  {
    var line := id + gap + residues;
    assert line[0] == id[0] && line[|line| - 1] == residues[|residues| - 1];
    StripUnchanged(line);
    assert Strip(line) == line;
    assert !StartsWith(line, "#");
    assert line[1] == (if |id| > 1 then id[1] else gap[0]);
    assert line != "//";
    SplitOnceAt(id, gap, residues);
    assert RemoveSpacesAndDigits(residues) == residues;
  }

  /** The kind of every line of a file, in order. */
  function KindsOf(lines: seq<string>): (kinds: seq<LineKind>)
    ensures |kinds| == |lines|
  {
    seq(|lines|, i requires 0 <= i < |lines| => Classify(lines[i]))
  }

  /**
   * `kinds` holds the kind of every line. The link is instantiated only for lines
   * whose kind a proof names, which keeps the string reasoning out of the chunk
   * reasoning.
   */
  predicate KindsMatch(lines: seq<string>, kinds: seq<LineKind>) {
    && |kinds| == |lines|
    && forall i {:trigger Classify(lines[i])} :: 0 <= i < |lines| ==> kinds[i] == Classify(lines[i])
  }

  lemma KindsOfMatch(lines: seq<string>)
    ensures KindsMatch(lines, KindsOf(lines))
  {
  }

  function EntryOf(kind: LineKind): seq<Entry> {
    match kind
    case Data(e) => [e]
    case _ => []
  }

  /**
   * The entries that lines `from` up to (not including) `to` contribute: one per data
   * line, in file order, and nothing for any other line.
   */
  function DataBetween(kinds: seq<LineKind>, from: nat, to: nat): seq<Entry>
    requires from <= to <= |kinds|
    decreases (to as int) - (from as int)
  {
    if from == to then [] else EntryOf(kinds[from]) + DataBetween(kinds, from + 1, to)
  }

  lemma {:induction false} DataBetweenSplit(kinds: seq<LineKind>, i: nat, j: nat, k: nat)
    requires i <= j <= k <= |kinds|
    ensures DataBetween(kinds, i, k) == DataBetween(kinds, i, j) + DataBetween(kinds, j, k)
    decreases (j as int) - (i as int)
  {
    if i < j {
      DataBetweenSplit(kinds, i + 1, j, k);
      var e, a, b := EntryOf(kinds[i]), DataBetween(kinds, i + 1, j), DataBetween(kinds, j, k);
      assert e + (a + b) == (e + a) + b;
    } else {
      assert [] + DataBetween(kinds, j, k) == DataBetween(kinds, j, k);
    }
  }

  /** Every entry drawn from data lines has a non-empty, whitespace-free description and clean residues. */
  lemma {:induction false} DataBetweenWellFormed(lines: seq<string>, kinds: seq<LineKind>, from: nat, to: nat)
    requires KindsMatch(lines, kinds) && from <= to <= |lines|
    ensures forall e :: e in DataBetween(kinds, from, to) ==>
              e.description != "" && NoSpace(e.description) && NoSpaceOrDigit(e.sequence)
    decreases (to as int) - (from as int)
  {
    if from < to {
      ClassifyKinds(lines[from]);
      DataBetweenWellFormed(lines, kinds, from + 1, to);
    }
  }

  // ---------------------------------------------------------------------------
  // Chunks
  // ---------------------------------------------------------------------------

  /**
   * One run of the inner `for _ in range(chunk_size)` loop, started at line `pos` with
   * `budget` reads left: the entries it collects and the index of the next unread
   * line. Every line read costs one unit of budget, skipped or not; the loop stops at
   * the end of the file, after a `//` line, or when the budget is spent.
   */
  function ScanChunk(kinds: seq<LineKind>, pos: nat, budget: int): (r: (seq<Entry>, nat))
    requires pos <= |kinds|
    ensures pos <= r.1 <= |kinds|
    decreases |kinds| - pos
  {
    if budget <= 0 || pos == |kinds| then ([], pos)
    else
      match kinds[pos]
      case Terminator => ([], pos + 1)
      case Data(e) =>
        var rest := ScanChunk(kinds, pos + 1, budget - 1);
        ([e] + rest.0, rest.1)
      case _ => ScanChunk(kinds, pos + 1, budget - 1)
  }

  /** A chunk reads at most `budget` lines and keeps at most one entry per line read. */
  lemma {:induction false} ScanChunkBounds(kinds: seq<LineKind>, pos: nat, budget: int)
    requires pos <= |kinds|
    ensures var r := ScanChunk(kinds, pos, budget);
            r.1 - pos <= (if budget < 0 then 0 else budget) && |r.0| <= r.1 - pos
    decreases |kinds| - pos
  {
    if budget > 0 && pos < |kinds| && !kinds[pos].Terminator? {
      ScanChunkBounds(kinds, pos + 1, budget - 1);
    }
  }

  /** One line read by a chunk with budget left. */
  lemma ScanChunkStep(kinds: seq<LineKind>, pos: nat, budget: int)
    requires pos < |kinds| && budget > 0
    ensures kinds[pos].Terminator? ==> ScanChunk(kinds, pos, budget) == ([], pos + 1)
    ensures kinds[pos].Data? ==>
              var rest := ScanChunk(kinds, pos + 1, budget - 1);
              ScanChunk(kinds, pos, budget) == ([kinds[pos].entry] + rest.0, rest.1)
    ensures !kinds[pos].Terminator? && !kinds[pos].Data? ==>
              ScanChunk(kinds, pos, budget) == ScanChunk(kinds, pos + 1, budget - 1)
  {
  }

  /**
   * One pass of the chunk loop: if `done` followed by what is left of the chunk make
   * up `total`, ending at `end`, they still do once the line at `pos` is read.
   */
  lemma ScanChunkRound(kinds: seq<LineKind>, pos: nat, budget: int, done: seq<Entry>, total: seq<Entry>, end: nat)
    requires pos < |kinds| && budget > 0
    requires done + ScanChunk(kinds, pos, budget).0 == total && ScanChunk(kinds, pos, budget).1 == end
    ensures kinds[pos].Terminator? ==> done == total && pos + 1 == end
    ensures kinds[pos].Data? ==>
              (done + [kinds[pos].entry]) + ScanChunk(kinds, pos + 1, budget - 1).0 == total
              && ScanChunk(kinds, pos + 1, budget - 1).1 == end
    ensures !kinds[pos].Terminator? && !kinds[pos].Data? ==>
              done + ScanChunk(kinds, pos + 1, budget - 1).0 == total
              && ScanChunk(kinds, pos + 1, budget - 1).1 == end
  {
    ScanChunkStep(kinds, pos, budget);
    if kinds[pos].Terminator? {
      assert done + [] == done;
    } else if kinds[pos].Data? {
      var rest := ScanChunk(kinds, pos + 1, budget - 1).0;
      assert (done + [kinds[pos].entry]) + rest == done + ([kinds[pos].entry] + rest);
    }
  }

  /** A chunk with no budget left, or at the end of the file, reads nothing more. */
  lemma ScanChunkOver(kinds: seq<LineKind>, pos: nat, budget: int, done: seq<Entry>, total: seq<Entry>, end: nat)
    requires pos <= |kinds| && (budget <= 0 || pos == |kinds|)
    requires done + ScanChunk(kinds, pos, budget).0 == total && ScanChunk(kinds, pos, budget).1 == end
    ensures done == total && pos == end
  {
    assert done + [] == done;
  }

  /** A chunk collects exactly the entries of the data lines it reads, in file order. */
  lemma {:induction false} ScanChunkIsDataBetween(kinds: seq<LineKind>, pos: nat, budget: int)
    requires pos <= |kinds|
    ensures ScanChunk(kinds, pos, budget).0 == DataBetween(kinds, pos, ScanChunk(kinds, pos, budget).1)
    decreases |kinds| - pos
  {
    if budget > 0 && pos < |kinds| && !kinds[pos].Terminator? {
      ScanChunkIsDataBetween(kinds, pos + 1, budget - 1);
      if !kinds[pos].Data? {
        var rest := ScanChunk(kinds, pos + 1, budget - 1);
        assert [] + rest.0 == rest.0;
      }
    }
  }

  /** The final loop of `parse_stockholm`: one row of zeros per sequence, built symbol by symbol. */
  method ZeroDeletionMatrices(sequences: seq<string>) returns (matrices: seq<seq<int>>)
    ensures matrices == ZeroMatrices(sequences)
  {
    matrices := [];
    var i := 0;
    while i < |sequences|
      invariant 0 <= i <= |sequences|
      invariant |matrices| == i
      invariant forall t :: 0 <= t < i ==> matrices[t] == ZeroRow(sequences[t])
    {
      var row: seq<int> := [];
      var j := 0;
      while j < |sequences[i]|
        invariant 0 <= j <= |sequences[i]|
        invariant |row| == j
        invariant forall t :: 0 <= t < j ==> row[t] == 0
      {
        row := row + [if sequences[i][j] == '-' then 0 else 0];
        j := j + 1;
      }
      assert row == ZeroRow(sequences[i]);
      matrices := matrices + [row];
      i := i + 1;
    }
  }

  /**
   * The outer `while current_count < max_sequences` loop from line `pos` with `count`
   * sequences gathered so far: the entries still to come and the index where reading
   * stops. Reading ends when a chunk yields no entry or once the count reaches the
   * cap, which is looked at only after a whole chunk.
   */
  function Chunks(kinds: seq<LineKind>, pos: nat, count: int, maxSequences: int, chunkSize: int): (r: (seq<Entry>, nat))
    requires pos <= |kinds|
    ensures pos <= r.1 <= |kinds|
    ensures r.0 == [] || count + |r.0| <= maxSequences + chunkSize - 1
    decreases |kinds| - pos
  {
    if count >= maxSequences then ([], pos)
    else
      var chunk := ScanChunk(kinds, pos, chunkSize);
      ScanChunkBounds(kinds, pos, chunkSize);
      if chunk.0 == [] then ([], chunk.1)
      else if count + |chunk.0| >= maxSequences then chunk
      else
        var rest := Chunks(kinds, chunk.1, count + |chunk.0|, maxSequences, chunkSize);
        (chunk.0 + rest.0, rest.1)
  }

  /**
   * One round of the reading loop: if `entries` followed by what is still to be read
   * make up `total`, they still do after the next chunk is read and appended.
   */
  lemma ChunksRound(kinds: seq<LineKind>, pos: nat, entries: seq<Entry>, total: seq<Entry>,
                    maxSequences: int, chunkSize: int)
    requires pos <= |kinds| && |entries| < maxSequences
    requires entries + Chunks(kinds, pos, |entries|, maxSequences, chunkSize).0 == total
    ensures var c := ScanChunk(kinds, pos, chunkSize);
            && (c.0 == [] ==> entries == total)
            && (c.0 != [] && |entries + c.0| >= maxSequences ==> entries + c.0 == total)
            && (c.0 != [] && |entries + c.0| < maxSequences
                ==> (entries + c.0) + Chunks(kinds, c.1, |entries + c.0|, maxSequences, chunkSize).0 == total)
  {
    var c := ScanChunk(kinds, pos, chunkSize);
    ScanChunkBounds(kinds, pos, chunkSize);
    if c.0 == [] {
      assert entries + [] == entries;
    } else if |entries + c.0| < maxSequences {
      var later := Chunks(kinds, c.1, |entries + c.0|, maxSequences, chunkSize).0;
      assert (entries + c.0) + later == entries + (c.0 + later);
    }
  }

  /** Once the cap is reached nothing more is read. */
  lemma ChunksCapped(kinds: seq<LineKind>, pos: nat, entries: seq<Entry>, total: seq<Entry>,
                     maxSequences: int, chunkSize: int)
    requires pos <= |kinds| && |entries| >= maxSequences
    requires entries + Chunks(kinds, pos, |entries|, maxSequences, chunkSize).0 == total
    ensures entries == total
  {
    assert entries + [] == entries;
  }

  /**
   * The entries gathered are exactly those of the data lines between `pos` and the
   * point where reading stops, in file order: blank, `#`, `//` and unsplittable lines
   * contribute nothing, every other line exactly one entry.
   */
  lemma {:induction false} ChunksIsDataBetween(kinds: seq<LineKind>, pos: nat, count: int, maxSequences: int, chunkSize: int)
    requires pos <= |kinds|
    ensures var r := Chunks(kinds, pos, count, maxSequences, chunkSize);
            r.0 == DataBetween(kinds, pos, r.1)
    decreases |kinds| - pos
  {
    if count < maxSequences {
      var chunk := ScanChunk(kinds, pos, chunkSize);
      ScanChunkIsDataBetween(kinds, pos, chunkSize);
      if chunk.0 != [] && count + |chunk.0| < maxSequences {
        var rest := Chunks(kinds, chunk.1, count + |chunk.0|, maxSequences, chunkSize);
        ChunksIsDataBetween(kinds, chunk.1, count + |chunk.0|, maxSequences, chunkSize);
        DataBetweenSplit(kinds, pos, chunk.1, rest.1);
      }
    }
  }

  // ---------------------------------------------------------------------------
  // The whole file
  // ---------------------------------------------------------------------------

  /** What the parser is given: a missing path, a file whose reading raises, or the lines of a file. */
  datatype StockholmFile = Missing | Unreadable | Present(lines: seq<string>)

  /** The default arguments of `parse_stockholm`. */
  const DefaultMaxSequences: int := 10000
  const DefaultChunkSize: int := 500

  /** The first line, stripped, starts with `# STOCKHOLM` (an empty file has the empty first line). */
  predicate HasHeader(lines: seq<string>) {
    StartsWith(if |lines| > 0 then Strip(lines[0]) else "", "# STOCKHOLM")
  }

  /** The entries read after the header line. */
  function ReadEntries(lines: seq<string>, maxSequences: int, chunkSize: int): (r: (seq<Entry>, nat))
    requires |lines| > 0
    ensures 1 <= r.1 <= |lines|
  {
    Chunks(KindsOf(lines), 1, 0, maxSequences, chunkSize)
  }

  function SequencesOf(entries: seq<Entry>): (r: seq<string>)
    ensures |r| == |entries| && forall i :: 0 <= i < |r| ==> r[i] == entries[i].sequence
  {
    seq(|entries|, i requires 0 <= i < |entries| => entries[i].sequence)
  }

  function DescriptionsOf(entries: seq<Entry>): (r: seq<string>)
    ensures |r| == |entries| && forall i :: 0 <= i < |r| ==> r[i] == entries[i].description
  {
    seq(|entries|, i requires 0 <= i < |entries| => entries[i].description)
  }

  lemma EntriesAppend(a: seq<Entry>, b: seq<Entry>)
    ensures SequencesOf(a + b) == SequencesOf(a) + SequencesOf(b)
    ensures DescriptionsOf(a + b) == DescriptionsOf(a) + DescriptionsOf(b)
  {
    assert SequencesOf(a + b) == SequencesOf(a) + SequencesOf(b);
    assert DescriptionsOf(a + b) == DescriptionsOf(a) + DescriptionsOf(b);
  }

  /** One sequence brought to the reference length: gap-padded on the right, or cut. */
  function Fit(s: string, refLen: nat): (r: string)
    ensures |r| == refLen
    ensures |s| <= refLen ==> r[..|s|] == s
    ensures forall i :: |s| <= i < refLen ==> r[i] == '-'
    ensures |s| >= refLen ==> r == s[..refLen]
  {
    if |s| < refLen then s + Repeat('-', refLen - |s|)
    else if |s| > refLen then s[..refLen]
    else s
  }

  /** Every sequence has the first one's length, or each later one is fitted to it. */
  function Reconciled(sequences: seq<string>): (r: seq<string>)
    requires |sequences| > 0
    ensures |r| == |sequences| && r[0] == sequences[0]
    ensures forall i :: 0 <= i < |r| ==> |r[i]| == |sequences[0]|
    ensures forall i :: 1 <= i < |r| ==> r[i] == Fit(sequences[i], |sequences[0]|)
  {
    if forall i :: 0 <= i < |sequences| ==> |sequences[i]| == |sequences[0]| then sequences
    else [sequences[0]] + seq(|sequences| - 1, i requires 0 <= i < |sequences| - 1 => Fit(sequences[i + 1], |sequences[0]|))
  }

  /**
   * The record `parse_stockholm` returns: the degenerate one for a missing or
   * unreadable file, a missing header, or no entry at all; otherwise the entries read,
   * their sequences reconciled to the first one's length, with zero deletion rows.
   */
  function StockholmMsa(file: StockholmFile, maxSequences: int, chunkSize: int): (m: Msa)
    ensures m.Valid()
    ensures forall i, j :: 0 <= i < |m.deletionMatrices| && 0 <= j < |m.deletionMatrices[i]| ==>
              m.deletionMatrices[i][j] == 0
    ensures |m.sequences| <= if maxSequences + chunkSize - 1 >= 1 then maxSequences + chunkSize - 1 else 1
  {
    match file
    case Missing => Degenerate()
    case Unreadable => Degenerate()
    case Present(lines) =>
      if !HasHeader(lines) then Degenerate()
      else
        var entries := ReadEntries(lines, maxSequences, chunkSize).0;
        if entries == [] then Degenerate()
        else
          var sequences := Reconciled(SequencesOf(entries));
          Msa(sequences, DescriptionsOf(entries), ZeroMatrices(sequences))
  }

  /**
   * The post-processing loop of `parse_stockholm`: when the lengths differ, rewrite
   * every later sequence in place to the first one's length.
   */
  method ReconcileLengths(sequences: seq<string>) returns (r: seq<string>)
    requires |sequences| > 0
    ensures r == Reconciled(sequences)
  {
    r := sequences;
    if exists i :: 0 <= i < |r| && |r[i]| != |r[0]| {
      var refLen := |r[0]|;
      var i := 1;
      while i < |r|
        invariant 1 <= i <= |r| == |sequences|
        invariant r[0] == sequences[0]
        invariant forall k :: 1 <= k < i ==> r[k] == Fit(sequences[k], refLen)
        invariant forall k :: i <= k < |r| ==> r[k] == sequences[k]
      {
        if |r[i]| < refLen {
          r := r[i := r[i] + Repeat('-', refLen - |r[i]|)];
        } else if |r[i]| > refLen {
          r := r[i := r[i][..refLen]];
        }
        i := i + 1;
      }
    }
  }

  /**
   * The body of the inner loop for line `i`, once read: strip it, skip it when blank or a
   * `#` line, stop the chunk on `//`, skip it when it does not split, and otherwise
   * keep the identifier and the residues with whitespace and digits removed.
   */
  method ReadLine(lines: seq<string>, ghost kinds: seq<LineKind>, i: nat) returns (kind: LineKind)
    requires KindsMatch(lines, kinds) && i < |lines|
    ensures kind == kinds[i]
  {
    var line := Strip(lines[i]);
    assert kinds[i] == Classify(lines[i]);
    if line == "" || StartsWith(line, "#") {
      return if line == "" then Blank else Comment;
    }
    if line == "//" {
      return Terminator;
    }
    var parts := SplitOnce(line);
    if |parts| != 2 {
      return Unsplit;
    }
    var description, sequence := parts[0], parts[1];
    sequence := RemoveSpacesAndDigits(sequence);
    return Data(Entry(description, sequence));
  }

  /**
   * One run of the inner `for _ in range(chunk_size)` loop of `parse_stockholm`, reading
   * from line `pos`: the sequences and descriptions of the chunk and the next line to read.
   */
  method ReadChunk(lines: seq<string>, ghost kinds: seq<LineKind>, pos: nat, chunkSize: int)
    returns (chunkSequences: seq<string>, chunkDescriptions: seq<string>, next: nat)
    requires KindsMatch(lines, kinds) && pos <= |lines|
    ensures chunkSequences == SequencesOf(ScanChunk(kinds, pos, chunkSize).0)
    ensures chunkDescriptions == DescriptionsOf(ScanChunk(kinds, pos, chunkSize).0)
    ensures next == ScanChunk(kinds, pos, chunkSize).1
  {
    chunkSequences := [];
    chunkDescriptions := [];
    ghost var chunkEntries: seq<Entry> := [];
    ghost var total, end := ScanChunk(kinds, pos, chunkSize).0, ScanChunk(kinds, pos, chunkSize).1;
    assert [] + total == total;
    next := pos;
    var k := 0;
    while k < chunkSize
      invariant pos <= next <= |lines|
      invariant 0 <= k && (k == 0 || k <= chunkSize)
      invariant chunkSequences == SequencesOf(chunkEntries)
      invariant chunkDescriptions == DescriptionsOf(chunkEntries)
      invariant chunkEntries + ScanChunk(kinds, next, chunkSize - k).0 == total
      invariant ScanChunk(kinds, next, chunkSize - k).1 == end
      decreases chunkSize - k
    {
      if next == |lines| {
        ScanChunkOver(kinds, next, chunkSize - k, chunkEntries, total, end);
        return;  // readline() returned "": end of file
      }
      ScanChunkRound(kinds, next, chunkSize - k, chunkEntries, total, end);
      var kind := ReadLine(lines, kinds, next);
      next := next + 1;
      match kind {
        case Terminator =>
          return;
        case Data(entry) =>
          EntriesAppend(chunkEntries, [entry]);
          chunkDescriptions := chunkDescriptions + [entry.description];
          chunkSequences := chunkSequences + [entry.sequence];
          chunkEntries := chunkEntries + [entry];
        case _ =>
      }
      k := k + 1;
    }
    ScanChunkOver(kinds, next, chunkSize - k, chunkEntries, total, end);
  }

  /**
   * The outer `while current_count < max_sequences` loop of `parse_stockholm`, run
   * after the header line: the sequences and descriptions of all the chunks it keeps.
   */
  method ReadSequences(lines: seq<string>, ghost kinds: seq<LineKind>, maxSequences: int, chunkSize: int)
    returns (sequences: seq<string>, descriptions: seq<string>)
    requires KindsMatch(lines, kinds) && |lines| > 0
    ensures sequences == SequencesOf(Chunks(kinds, 1, 0, maxSequences, chunkSize).0)
    ensures descriptions == DescriptionsOf(Chunks(kinds, 1, 0, maxSequences, chunkSize).0)
  {
    sequences := [];
    descriptions := [];
    ghost var entries: seq<Entry> := [];
    ghost var total := Chunks(kinds, 1, 0, maxSequences, chunkSize).0;
    assert [] + total == total;
    var pos := 1;
    var currentCount := 0;
    while currentCount < maxSequences
      invariant 1 <= pos <= |lines|
      invariant currentCount == |entries|
      invariant sequences == SequencesOf(entries) && descriptions == DescriptionsOf(entries)
      invariant entries + Chunks(kinds, pos, |entries|, maxSequences, chunkSize).0 == total
      decreases |lines| - pos
    {
      ChunksRound(kinds, pos, entries, total, maxSequences, chunkSize);
      ghost var chunkEntries := ScanChunk(kinds, pos, chunkSize).0;
      var chunkSequences, chunkDescriptions;
      chunkSequences, chunkDescriptions, pos := ReadChunk(lines, kinds, pos, chunkSize);

      if chunkSequences == [] {
        return;
      }
      EntriesAppend(entries, chunkEntries);
      sequences := sequences + chunkSequences;
      descriptions := descriptions + chunkDescriptions;
      entries := entries + chunkEntries;
      currentCount := currentCount + |chunkSequences|;
      if currentCount >= maxSequences {
        return;
      }
    }
    ChunksCapped(kinds, pos, entries, total, maxSequences, chunkSize);
  }

  /** `parse_stockholm(stockholm_file, max_sequences, chunk_size)`. */
  method ParseStockholm(file: StockholmFile, maxSequences: int, chunkSize: int) returns (m: Msa)
    ensures m == StockholmMsa(file, maxSequences, chunkSize)
  {
    if file.Missing? {
      m := DegenerateMsa();
      return;
    }
    if file.Unreadable? {
      // Any exception raised while reading is caught and logged.
      m := DegenerateMsa();
      return;
    }
    var lines := file.lines;
    var header := if |lines| > 0 then Strip(lines[0]) else "";
    if !StartsWith(header, "# STOCKHOLM") {
      m := DegenerateMsa();
      return;
    }

    KindsOfMatch(lines);
    var sequences, descriptions := ReadSequences(lines, KindsOf(lines), maxSequences, chunkSize);
    if sequences == [] {
      m := DegenerateMsa();
      return;
    }
    sequences := ReconcileLengths(sequences);
    var deletionMatrices := ZeroDeletionMatrices(sequences);
    var result := NewMsa(sequences, descriptions, Some(deletionMatrices));
    // The final constructor call cannot raise: the shapes agree by construction.
    m := result.value;
  }

  // ---------------------------------------------------------------------------
  // What parse_stockholm promises
  // ---------------------------------------------------------------------------

  /** A data line's entry: a non-empty identifier without whitespace, and clean residues. */
  predicate WellFormedEntry(e: Entry) {
    e.description != "" && NoSpace(e.description) && NoSpaceOrDigit(e.sequence)
  }

  /**
   * Once the header is accepted, the entries read are exactly those of the data lines
   * between the header and the line where reading stops, in file order, and each is
   * well formed.
   */
  lemma ReadEntriesAreDataLines(lines: seq<string>, maxSequences: int, chunkSize: int)
    requires |lines| > 0
    ensures var r := ReadEntries(lines, maxSequences, chunkSize);
            r.0 == DataBetween(KindsOf(lines), 1, r.1)
    ensures forall e :: e in ReadEntries(lines, maxSequences, chunkSize).0 ==> WellFormedEntry(e)
  {
    var kinds := KindsOf(lines);
    ChunksIsDataBetween(kinds, 1, 0, maxSequences, chunkSize);
    KindsOfMatch(lines);
    DataBetweenWellFormed(lines, kinds, 1, Chunks(kinds, 1, 0, maxSequences, chunkSize).1);
  }

  /**
   * The degenerate record comes back exactly on the failure paths: no file, an
   * unreadable one, a missing header, or no entry read.
   */
  lemma DegenerateExactly(file: StockholmFile, maxSequences: int, chunkSize: int)
    ensures StockholmMsa(file, maxSequences, chunkSize) == Degenerate() <==>
              || !file.Present?
              || !HasHeader(file.lines)
              || ReadEntries(file.lines, maxSequences, chunkSize).0 == []
  {
    if file.Present? && HasHeader(file.lines) {
      var entries := ReadEntries(file.lines, maxSequences, chunkSize).0;
      if entries != [] {
        ReadEntriesAreDataLines(file.lines, maxSequences, chunkSize);
        assert WellFormedEntry(entries[0]);
        assert StockholmMsa(file, maxSequences, chunkSize).descriptions[0] == entries[0].description;
      }
    }
  }

  lemma FitClean(s: string, refLen: nat)
    requires NoSpaceOrDigit(s)
    ensures NoSpaceOrDigit(Fit(s, refLen))
  {
    var r := Fit(s, refLen);
    forall i | 0 <= i < |r|
      ensures !IsSpace(r[i]) && !IsDigit(r[i])
    {
      if i < |s| {
        if |s| <= refLen {
          assert r[..|s|][i] == s[i];
        } else {
          assert r == s[..refLen];
        }
      }
    }
  }

  /**
   * Every record returned is aligned and clean: all sequences share the first one's
   * length, residues hold no whitespace or digit, identifiers no whitespace.
   */
  lemma ParsedMsaClean(file: StockholmFile, maxSequences: int, chunkSize: int)
    ensures var m := StockholmMsa(file, maxSequences, chunkSize);
            && |m.sequences| > 0
            && (forall i :: 0 <= i < |m.sequences| ==> |m.sequences[i]| == |m.sequences[0]|)
            && (forall i :: 0 <= i < |m.sequences| ==> NoSpaceOrDigit(m.sequences[i]))
            && (forall i :: 0 <= i < |m.descriptions| ==> NoSpace(m.descriptions[i]))
  {
    var m := StockholmMsa(file, maxSequences, chunkSize);
    if file.Present? && HasHeader(file.lines) {
      var entries := ReadEntries(file.lines, maxSequences, chunkSize).0;
      if entries != [] {
        ReadEntriesAreDataLines(file.lines, maxSequences, chunkSize);
        var raw := SequencesOf(entries);
        forall i | 0 <= i < |m.sequences|
          ensures NoSpaceOrDigit(m.sequences[i])
        {
          assert WellFormedEntry(entries[i]);
          if i > 0 {
            FitClean(raw[i], |raw[0]|);
          }
        }
        forall i | 0 <= i < |m.descriptions|
          ensures NoSpace(m.descriptions[i])
        {
          assert WellFormedEntry(entries[i]);
        }
      }
    }
  }

  /**
   * A `//` line ends only the chunk it occurs in: the data line after it is read by the
   * next chunk.
   */
  lemma TerminatorEndsOnlyTheChunk(header: LineKind, a: Entry, b: Entry, maxSequences: int, chunkSize: int)
    requires maxSequences >= 2 && chunkSize >= 2
    ensures Chunks([header, Data(a), Terminator, Data(b)], 1, 0, maxSequences, chunkSize) == ([a, b], 4)
  {
    var kinds := [header, Data(a), Terminator, Data(b)];
    assert ScanChunk(kinds, 2, chunkSize - 1) == ([], 3);
    assert [a] + [] == [a] && [b] + [] == [b] && [a] + ([b] + []) == [a, b];
    assert ScanChunk(kinds, 1, chunkSize) == ([a], 3);
    assert ScanChunk(kinds, 4, chunkSize - 1) == ([], 4);
    assert ScanChunk(kinds, 3, chunkSize) == ([b], 4);
    assert Chunks(kinds, 4, 2, maxSequences, chunkSize) == ([], 4);
  }

  /**
   * Skipped lines use up a chunk's budget, and a chunk that ends up empty ends the
   * whole read: with two-line chunks, two `#` lines hide the data line behind them.
   */
  lemma SkippedLinesEndTheRead(header: LineKind, a: Entry, maxSequences: int)
    requires maxSequences >= 1
    ensures Chunks([header, Comment, Comment, Data(a)], 1, 0, maxSequences, 2) == ([], 3)
  {
    var kinds := [header, Comment, Comment, Data(a)];
    assert ScanChunk(kinds, 3, 0) == ([], 3);
    assert ScanChunk(kinds, 2, 1) == ([], 3);
    assert ScanChunk(kinds, 1, 2) == ([], 3);
  }

  /**
   * The sequence cap is looked at only between chunks: a chunk is kept whole, so a
   * cap of one still returns both records of a two-record chunk.
   */
  lemma CapCheckedPerChunk(header: LineKind, a: Entry, b: Entry, chunkSize: int)
    requires chunkSize >= 2
    ensures Chunks([header, Data(a), Data(b)], 1, 0, 1, chunkSize) == ([a, b], 3)
  {
    var kinds := [header, Data(a), Data(b)];
    assert ScanChunk(kinds, 3, chunkSize - 2) == ([], 3);
    assert [b] + [] == [b] && [a] + [b] == [a, b];
    assert ScanChunk(kinds, 2, chunkSize - 1) == ([b], 3);
    assert ScanChunk(kinds, 1, chunkSize) == ([a, b], 3);
  }
}
