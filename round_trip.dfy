/**
 * The two halves read together: the Stockholm text written by `fasta_to_stockholm`
 * (examples/R1107/msa/1/tosto.py) as `parse_stockholm`
 * (protenix/openfold_local/data/parsers.py) reads it back.
 *
 * The written file is the header line, a blank line, one line per record and `//`.
 * The proofs first describe it by the kinds of its lines and then follow the chunked
 * reader over those kinds alone.
 */
module RoundTrip {
  import opened PyStr
  import opened Parsers
  import opened Tosto

  // ---------------------------------------------------------------------------
  // The written file, line by line
  // ---------------------------------------------------------------------------

  /** The (description, sequence) pair the reader should find on each record line. */
  function WrittenEntries(records: seq<Record>): (e: seq<Entry>)
    ensures |e| == |records|
    ensures forall i :: 0 <= i < |e| ==> e[i] == Entry(Label(i, records[i].id), records[i].residues)
  {
    seq(|records|, i requires 0 <= i < |records| => Entry(Label(i, records[i].id), records[i].residues))
  }

  /** `kinds` is a header line, a blank line, one data line per entry and a `//` line. */
  predicate Layout(kinds: seq<LineKind>, entries: seq<Entry>) {
    && |kinds| == |entries| + 3
    && kinds[1] == Blank
    && kinds[|entries| + 2] == Terminator
    && forall i :: 0 <= i < |entries| ==> kinds[i + 2] == Data(entries[i])
  }

  /** Records the reader gets back intact: the conditions of the round trip. */
  predicate Writable(records: seq<Record>) {
    && (forall i :: 0 <= i < |records| ==>
          records[i].residues != "" && NoSpaceOrDigit(records[i].residues)
          && |records[i].residues| == |records[0].residues|)
    && (forall i :: 1 <= i < |records| ==>
          records[i].id != "" && NoSpace(records[i].id) && records[i].id[0] != '#')
  }

  lemma ClassifyBlank()
    ensures Classify("") == Blank
  {
  }

  lemma ClassifyEndMarker()
    ensures Classify(EndMarker) == Terminator
  {
    StripUnchanged(EndMarker);
    StartsWithChar(EndMarker, '#');
  }

  /** The header line written is one the reader accepts. */
  lemma HeaderAccepted(records: seq<Record>)
    ensures HasHeader(StockholmText(records))
  {
    StripUnchanged(HeaderLine);
    var p := "# STOCKHOLM";
    assert HeaderLine == p + " 1.0";
    PrefixStartsWith(p, " 1.0");
  }

  lemma {:induction false} PrefixStartsWith(p: string, s: string)
    ensures StartsWith(p + s, p)
    decreases |p|
  {
    if p != [] {
      assert (p + s)[1..] == p[1..] + s;
      PrefixStartsWith(p[1..], s);
    }
  }

  /** A record line with a clean name and clean residues is the data line of that pair. */
  lemma RecordLineKind(name: string, residues: string)
    requires name != "" && NoSpace(name) && name[0] != '#'
    requires residues != "" && NoSpaceOrDigit(residues)
    ensures Classify(RecordLine(name, residues)) == Data(Entry(name, residues))
  {
    if |name| < LabelWidth {
      var gap := Repeat(' ', LabelWidth - |name|) + " ";
      assert RecordLine(name, residues) == name + gap + residues;
      assert AllSpace(gap) by {
        forall i | 0 <= i < |gap| ensures IsSpace(gap[i]) {
          assert gap[i] == ' ';
        }
      }
      ClassifyDataLine(name, gap, residues);
    } else {
      assert PadRight(name, LabelWidth) == name;
      ClassifyDataLine(name, " ", residues);
    }
  }

  /** The kinds of the lines written for records the reader gets back intact. */
  lemma TextLayout(records: seq<Record>)
    requires Writable(records)
    ensures Layout(KindsOf(StockholmText(records)), WrittenEntries(records))
  {
    var kinds := KindsOf(StockholmText(records));
    var entries := WrittenEntries(records);
    FramingKinds(records);
    forall i | 0 <= i < |entries|
      ensures kinds[i + 2] == Data(entries[i])
    {
      RecordKind(records, i);
    }
  }

  /** The blank line and the `//` line around the record lines. */
  lemma FramingKinds(records: seq<Record>)
    ensures var kinds := KindsOf(StockholmText(records));
            kinds[1] == Blank && kinds[|records| + 2] == Terminator
  {
    var text := StockholmText(records);
    assert text[1] == "" && text[|records| + 2] == EndMarker;
    ClassifyBlank();
    ClassifyEndMarker();
  }

  lemma RecordKind(records: seq<Record>, i: nat)
    requires Writable(records) && i < |records|
    ensures KindsOf(StockholmText(records))[i + 2] == Data(WrittenEntries(records)[i])
  {
    var name, residues := Label(i, records[i].id), records[i].residues;
    LabelClean(records, i);
    RecordLineKind(name, residues);
    KindAt(StockholmText(records), i + 2, RecordLine(name, residues));
  }

  /** The name written for a record to be read back: `query`, or a clean identifier. */
  lemma LabelClean(records: seq<Record>, i: nat)
    requires Writable(records) && i < |records|
    ensures var name := Label(i, records[i].id);
            name != "" && NoSpace(name) && name[0] != '#'
    ensures records[i].residues != "" && NoSpaceOrDigit(records[i].residues)
  {
    if i == 0 {
      assert Label(i, records[i].id) == "query";
    }
  }

  lemma KindAt(lines: seq<string>, j: nat, line: string)
    requires j < |lines| && lines[j] == line
    ensures KindsOf(lines)[j] == Classify(line)
  {
  }

  // ---------------------------------------------------------------------------
  // The chunked reader over that layout
  // ---------------------------------------------------------------------------

  /**
   * A chunk starting on a data line reads data lines until its budget is spent, or
   * reads all remaining data lines and then the `//` line.
   */
  lemma {:induction false} ScanLayout(kinds: seq<LineKind>, entries: seq<Entry>, p: nat, budget: int)
    requires Layout(kinds, entries) && 2 <= p <= |entries| + 2
    ensures ScanChunk(kinds, p, budget)
            == if budget <= 0 then ([], p)
               else if budget <= |entries| + 2 - p then (entries[p - 2..p - 2 + budget], p + budget)
               else (entries[p - 2..], |entries| + 3)
    decreases |entries| + 2 - p
  {
    if budget > 0 {
      if p == |entries| + 2 {
        assert entries[p - 2..] == [];
      } else {
        var e := entries[p - 2];
        assert kinds[p] == Data(e);
        ScanLayout(kinds, entries, p + 1, budget - 1);
        if budget == 1 {
          assert [e] + [] == entries[p - 2..p - 1];
        } else if budget <= |entries| + 2 - p {
          assert [e] + entries[p - 1..p - 2 + budget] == entries[p - 2..p - 2 + budget];
        } else {
          assert [e] + entries[p - 1..] == entries[p - 2..];
        }
      }
    }
  }

  /** After the `//` line nothing is read. */
  lemma ChunksAtEnd(kinds: seq<LineKind>, entries: seq<Entry>, maxSequences: int, chunkSize: int)
    requires Layout(kinds, entries)
    ensures Chunks(kinds, |entries| + 3, |entries|, maxSequences, chunkSize).0 == []
  {
  }

  /**
   * From data line `p` on, with the entries before it counted, the reader collects
   * every remaining entry when the cap leaves room for all of them.
   */
  lemma {:induction false} ChunksLayout(kinds: seq<LineKind>, entries: seq<Entry>, p: nat, maxSequences: int, chunkSize: int)
    requires Layout(kinds, entries) && 2 <= p <= |entries| + 2
    requires |entries| <= maxSequences && chunkSize >= 1
    ensures Chunks(kinds, p, p - 2, maxSequences, chunkSize).0 == entries[p - 2..]
    decreases |entries| + 2 - p
  {
    var n := |entries|;
    if p - 2 < maxSequences {
      ScanLayout(kinds, entries, p, chunkSize);
      if chunkSize <= n + 2 - p {
        var got := entries[p - 2..p - 2 + chunkSize];
        if p - 2 + chunkSize < maxSequences {
          ChunksLayout(kinds, entries, p + chunkSize, maxSequences, chunkSize);
          assert got + entries[p - 2 + chunkSize..] == entries[p - 2..];
        } else {
          assert got == entries[p - 2..];
        }
      } else if p < n + 2 && n < maxSequences {
        ChunksAtEnd(kinds, entries, maxSequences, chunkSize);
        assert entries[p - 2..] + [] == entries[p - 2..];
      }
    } else {
      assert entries[p - 2..] == [];
    }
  }

  /**
   * The whole read: the first chunk spends one line of its budget on the blank line,
   * and with room for every entry under the cap all of them are collected, in order.
   */
  lemma ReadLayout(kinds: seq<LineKind>, entries: seq<Entry>, maxSequences: int, chunkSize: int)
    requires Layout(kinds, entries)
    requires 1 <= |entries| <= maxSequences && chunkSize >= 2
    ensures Chunks(kinds, 1, 0, maxSequences, chunkSize).0 == entries
  {
    var n := |entries|;
    assert ScanChunk(kinds, 1, chunkSize) == ScanChunk(kinds, 2, chunkSize - 1);
    ScanLayout(kinds, entries, 2, chunkSize - 1);
    if chunkSize - 1 <= n {
      var got := entries[..chunkSize - 1];
      assert entries[0..chunkSize - 1] == got;
      if chunkSize - 1 < maxSequences {
        ChunksLayout(kinds, entries, chunkSize + 1, maxSequences, chunkSize);
        assert got + entries[chunkSize - 1..] == entries;
      } else {
        assert got == entries;
      }
    } else {
      assert entries[0..] == entries;
      if n < maxSequences {
        ChunksAtEnd(kinds, entries, maxSequences, chunkSize);
        assert entries + [] == entries;
      }
    }
  }

  // ---------------------------------------------------------------------------
  // Round trips
  // ---------------------------------------------------------------------------

  /** Entries of equal length are kept as they are by the length reconciliation. */
  lemma ReconciledEqualLengths(sequences: seq<string>)
    requires |sequences| > 0
    requires forall i :: 0 <= i < |sequences| ==> |sequences[i]| == |sequences[0]|
    ensures Reconciled(sequences) == sequences
  {
  }

  lemma WrittenColumns(records: seq<Record>)
    requires |records| > 0
    ensures SequencesOf(WrittenEntries(records)) == ResiduesOf(records)
    ensures DescriptionsOf(WrittenEntries(records)) == ["query"] + IdsOf(records)[1..]
  {
    var e := WrittenEntries(records);
    assert SequencesOf(e) == ResiduesOf(records);
    assert DescriptionsOf(e) == ["query"] + IdsOf(records)[1..];
  }

  /**
   * Parsing what the reformatter writes gives back every record's residues in order,
   * and every identifier except the first, which is read back as `query`; the
   * deletion rows are all zero. This holds when there is at least one record and no
   * more than the cap, chunks hold at least two lines, residues are non-empty, free of
   * whitespace and digits and of equal length, and every identifier after the first is
   * non-empty, whitespace-free and does not start with `#`.
   */
  lemma ParseWritten(records: seq<Record>, maxSequences: int, chunkSize: int)
    requires Writable(records)
    requires 1 <= |records| <= maxSequences && chunkSize >= 2
    ensures var m := StockholmMsa(Present(StockholmText(records)), maxSequences, chunkSize);
            && m.sequences == ResiduesOf(records)
            && m.descriptions == ["query"] + IdsOf(records)[1..]
            && m.deletionMatrices == ZeroMatrices(ResiduesOf(records))
  {
    var text := StockholmText(records);
    var entries := WrittenEntries(records);
    TextLayout(records);
    HeaderAccepted(records);
    ReadLayout(KindsOf(text), entries, maxSequences, chunkSize);
    assert ReadEntries(text, maxSequences, chunkSize).0 == entries;
    WrittenColumns(records);
    ReconciledEqualLengths(ResiduesOf(records));
  }

  /** With no record, the written file parses to the degenerate record, whatever the parameters. */
  lemma ParseWrittenEmpty(maxSequences: int, chunkSize: int)
    ensures StockholmMsa(Present(StockholmText([])), maxSequences, chunkSize) == Degenerate()
  {
    var kinds := KindsOf(StockholmText([]));
    FramingKinds([]);
    EmptyLayoutReadsNothing(kinds, maxSequences, chunkSize);
  }

  lemma EmptyLayoutReadsNothing(kinds: seq<LineKind>, maxSequences: int, chunkSize: int)
    requires |kinds| == 3 && kinds[1] == Blank && kinds[2] == Terminator
    ensures Chunks(kinds, 1, 0, maxSequences, chunkSize).0 == []
  {
    if 0 < maxSequences && chunkSize >= 1 {
      assert ScanChunk(kinds, 1, chunkSize) == ScanChunk(kinds, 2, chunkSize - 1);
      if chunkSize >= 2 {
        assert ScanChunk(kinds, 2, chunkSize - 1) == ([], 3);
      }
    }
  }

  /**
   * With one-line chunks nothing written is read: the first chunk is spent on the blank
   * line, comes back empty, and ends the read.
   */
  lemma ParseWrittenChunkOne(records: seq<Record>, maxSequences: int)
    ensures StockholmMsa(Present(StockholmText(records)), maxSequences, 1) == Degenerate()
  {
    var kinds := KindsOf(StockholmText(records));
    FramingKinds(records);
    BlankSpendsChunkOne(kinds, maxSequences);
  }

  lemma BlankSpendsChunkOne(kinds: seq<LineKind>, maxSequences: int)
    requires |kinds| >= 2 && kinds[1] == Blank
    ensures Chunks(kinds, 1, 0, maxSequences, 1).0 == []
  {
    assert ScanChunk(kinds, 2, 0) == ([], 2);
  }

  /**
   * The same round trip from the FASTA lines: what `fasta_to_stockholm` writes for
   * them parses back to the residues of its records and their identifiers, the first
   * read as `query`.
   */
  lemma FastaRoundTrip(lines: seq<string>, maxSequences: int, chunkSize: int)
    requires var records := FastaRecords(lines);
             && 1 <= |records| <= maxSequences && chunkSize >= 2
             && (forall i :: 0 <= i < |records| ==>
                   NoSpaceOrDigit(records[i].residues) && |records[i].residues| == |records[0].residues|)
             && (forall i :: 1 <= i < |records| ==>
                   NoSpace(records[i].id) && (records[i].id != "" ==> records[i].id[0] != '#'))
    ensures var records := FastaRecords(lines);
            var m := StockholmMsa(Present(StockholmText(records)), maxSequences, chunkSize);
            && m.sequences == ResiduesOf(records)
            && m.descriptions == ["query"] + IdsOf(records)[1..]
  {
    var records := FastaRecords(lines);
    RecordsNonEmpty(lines);
    assert forall i :: 0 <= i < |records| ==> records[i] in records;
    ParseWritten(records, maxSequences, chunkSize);
  }
}
