# RNA MSA parsing and tokenization, modelled in Dafny

This project models the part of Protenix that ingests RNA multiple sequence
alignments, and proves properties of that model. The part covered is:

* the alignment record `Msa` and the chunked Stockholm reader `parse_stockholm`
  (`protenix/openfold_local/data/parsers.py`);
* the FASTA-to-Stockholm reformatter `fasta_to_stockholm`
  (`examples/R1107/msa/1/tosto.py`), and the round trip of its output through
  `parse_stockholm`;
* the RNA featurizer (`protenix/data/msa_featurizer_rna.py`):
  * `process_rna_single_sequence`, which picks the alignment file for one entity;
  * `get_inference_rna_msa_features_for_assembly`, which selects and gathers the RNA entities;
  * `tokenize_msa`, which maps alignment columns onto structure tokens and computes the deletion means;
  * `make_msa_feature`, which chains the two.

Files:

| file | module | what it holds |
|---|---|---|
| `text.dfy` | `Wrappers`, `PyStr` | `Option` and `Result`; the Python string operations the sources use: `str.strip`, `startswith`, `in`, `"{:<40}".format`, `re.split(r"\s+", s, 1)` and `re.sub(r"[\s\d]", "", s)` |
| `parsers.dfy` | `Parsers` | `Msa`; the line classification; the chunk loop and the outer loop as functions; the reading loops as methods proved against them |
| `tosto.dfy` | `Tosto` | the FASTA loop as a fold, a record-by-record reference grouping proved equal to it, the Stockholm writer |
| `round_trip.dfy` | `RoundTrip` | what `parse_stockholm` reads back from what `fasta_to_stockholm` writes |
| `rna_tokenize.dfy` | `RnaTokenize` | feature dictionaries; the residue map; token-to-column mapping; restype codes; deletion means; `tokenize_msa` |
| `rna_features.dfy` | `RnaFeatures` | path selection, entity selection and the gathering loop, `make_msa_feature` |

Conventions:

* Files are lists of lines, without line terminators.
* A file that is missing or whose reading raises is a constructor of `StockholmFile`.
* An exception that the source catches and turns into a default becomes that default: `Degenerate()` in the parser, `None` in the featurizer.
* A dictionary key that may be missing is an `Option` field.
* A feature dictionary records the other keys it holds by name (`FeatureDict.otherKeys`), without their values, so that its emptiness is that of the whole dictionary.
* numpy arrays are rectangular grids (`RnaTokenize.Matrix`).
* Floating-point numbers are `real`.
* The callees the featurizer cannot see are fields of `RnaFeatures.Env`, so every property holds whatever they return. These are `make_sequence_features`, `load_and_process_msa`, `merge_features_from_prot_rna` and `os.path.exists`.

## Model

| member | source | states |
|---|---|---|
| Parsers.ZeroRow | protenix/openfold_local/data/parsers.py:46-53 | the default deletion row has one entry per symbol and every entry is 0: both branches of the gap test append 0 |
| Parsers.ZeroMatrices | protenix/openfold_local/data/parsers.py:44-53 | one default row per sequence, each as long as its sequence, all zeros |
| Parsers.NewMsa | protenix/openfold_local/data/parsers.py:27-72 | construction succeeds iff the counts of sequences, descriptions and deletion rows agree and every row has the length of its sequence, using the zero default when no matrices are given; the first failing check decides the error: description count, then matrix count, then the first row whose length differs; when all three counts agree, every failure is a row-length mismatch |
| Parsers.Degenerate | protenix/openfold_local/data/parsers.py:94 | `Msa([""], [""])` passes the constructor's checks |
| Parsers.DegenerateMsa | protenix/openfold_local/data/parsers.py:94 | building the failure record through `NewMsa` yields `Degenerate()` |
| Parsers.ClassifyKinds | protenix/openfold_local/data/parsers.py:123-141 | after stripping, a line is skipped iff blank or starting with `#`; it ends the chunk iff it is `//`; it is a data line iff it is none of these and contains whitespace; a data line's description is non-empty and whitespace-free and its residues hold no whitespace or digit |
| Parsers.ClassifyDataLine | protenix/openfold_local/data/parsers.py:134-144 | an identifier, a whitespace run and clean residues are read as exactly that (description, sequence) pair |
| Parsers.DataBetweenWellFormed | protenix/openfold_local/data/parsers.py:134-144 | every entry drawn from a range of lines is well formed |
| Parsers.ScanChunk | protenix/openfold_local/data/parsers.py:118-144 | one run of the chunk loop never moves backwards and stops within the file |
| Parsers.ScanChunkBounds | protenix/openfold_local/data/parsers.py:118-144 | a chunk reads at most `chunk_size` lines, skipped lines included, and keeps at most one entry per line read |
| Parsers.ScanChunkStep | protenix/openfold_local/data/parsers.py:119-144 | with budget left, `//` ends the chunk after consuming its line; a data line is kept before the rest of the chunk; any other line only uses one unit of budget |
| Parsers.ScanChunkIsDataBetween | protenix/openfold_local/data/parsers.py:118-144 | a chunk collects exactly the entries of the data lines it reads, in order |
| Parsers.Chunks | protenix/openfold_local/data/parsers.py:114-160 | the outer loop stops within the file; when it keeps anything, it keeps at most `max_sequences + chunk_size - 1` entries, because the cap is checked only after a whole chunk |
| Parsers.ChunksCapped | protenix/openfold_local/data/parsers.py:114 | once the count has reached the cap nothing more is read |
| Parsers.ChunksIsDataBetween | protenix/openfold_local/data/parsers.py:114-160 | the entries gathered are those of the data lines between the start and the stopping point, in file order |
| Parsers.Fit | protenix/openfold_local/data/parsers.py:176-179 | a sequence brought to the reference length has that length, keeps its prefix, is padded with `-` when shorter, and is cut when longer |
| Parsers.Reconciled | protenix/openfold_local/data/parsers.py:170-179 | after reconciliation the first sequence is unchanged, every sequence has its length, and each later one is the fitted original |
| Parsers.FitClean | protenix/openfold_local/data/parsers.py:176-179 | padding and cutting introduce no whitespace or digit |
| Parsers.StockholmMsa | protenix/openfold_local/data/parsers.py:74-191 | whatever the file, the record returned passes the constructor's checks, has all-zero deletion rows and holds at most `max(1, max_sequences + chunk_size - 1)` sequences |
| Parsers.ZeroDeletionMatrices | protenix/openfold_local/data/parsers.py:182-185 | the final loop builds exactly one zero row per sequence |
| Parsers.ReconcileLengths | protenix/openfold_local/data/parsers.py:170-179 | the in-place rewriting loop leaves the reconciled sequences |
| Parsers.ReadLine | protenix/openfold_local/data/parsers.py:119-141 | the per-line decisions of the inner loop compute that line's classification |
| Parsers.ReadChunk | protenix/openfold_local/data/parsers.py:115-144 | the inner loop returns the sequences and descriptions of the chunk's entries and the next line to read |
| Parsers.ReadSequences | protenix/openfold_local/data/parsers.py:111-160 | the outer loop returns the sequences and descriptions of all the chunks it keeps |
| Parsers.ParseStockholm | protenix/openfold_local/data/parsers.py:74-191 | the parser returns the record `StockholmMsa` describes |
| Parsers.ReadEntriesAreDataLines | protenix/openfold_local/data/parsers.py:111-160 | after the header line, every data line up to the stopping point gives one entry, in order, and no other line gives any; every entry is well formed |
| Parsers.DegenerateExactly | protenix/openfold_local/data/parsers.py:90-165 | the degenerate record comes back iff the file is missing or unreadable, its stripped first line does not start with `# STOCKHOLM`, or no entry was read |
| Parsers.ParsedMsaClean | protenix/openfold_local/data/parsers.py:74-191 | every record returned is non-empty and aligned (all sequences as long as the first); its residues hold no whitespace or digit and its descriptions no whitespace |
| Parsers.TerminatorEndsOnlyTheChunk | protenix/openfold_local/data/parsers.py:130-131 | `//` ends only the current chunk: a data line after it is read by the next chunk |
| Parsers.SkippedLinesEndTheRead | protenix/openfold_local/data/parsers.py:118-148 | skipped lines use up a chunk's budget: with two-line chunks, two `#` lines give an empty chunk, which ends the read before the data line behind them |
| Parsers.CapCheckedPerChunk | protenix/openfold_local/data/parsers.py:151-160 | a chunk is kept whole even past the cap: a cap of one returns both entries of a two-entry chunk |
| Tosto.StepHeader | examples/R1107/msa/1/tosto.py:25-30 | a header line closes the pending record and opens one with the stripped identifier and no residues |
| Tosto.RunGroups | examples/R1107/msa/1/tosto.py:19-37 | from any state, running the loop and flushing yields the pending record extended by the leading lines, then the record-by-record grouping of the rest |
| Tosto.FastaRecordsAreGroups | examples/R1107/msa/1/tosto.py:19-37 | the loop gives one record per header line, with its identifier and the concatenated residues up to the next header, kept when both are non-empty; lines before the first header are dropped |
| Tosto.RecordsNonEmpty | examples/R1107/msa/1/tosto.py:26-37 | every record written has a non-empty identifier and non-empty residues |
| Tosto.PreambleDropped | examples/R1107/msa/1/tosto.py:19-32 | lines before the first header line do not change the records |
| Tosto.StockholmText | examples/R1107/msa/1/tosto.py:40-48 | the output is the header line, a blank line, one line per record (the first labelled `query`, name padded to 40 columns) and `//` |
| Tosto.Zip | examples/R1107/msa/1/tosto.py:42 | pairs identifiers and sequences up to the shorter list |
| Tosto.ZipUnzip | examples/R1107/msa/1/tosto.py:42 | zipping the identifiers and residues of records gives back the records |
| Tosto.ReadFasta | examples/R1107/msa/1/tosto.py:13-37 | the reading loop and the final flush leave the identifiers and residues of the records, in order |
| Tosto.WriteStockholm | examples/R1107/msa/1/tosto.py:40-48 | the writing loop emits the Stockholm text of the zipped records |
| Tosto.FastaToStockholm | examples/R1107/msa/1/tosto.py:11-48 | the lines written are the Stockholm text of the records of the lines read |
| RoundTrip.HeaderAccepted | examples/R1107/msa/1/tosto.py:41 | the header written is one `parse_stockholm` accepts |
| RoundTrip.RecordLineKind | examples/R1107/msa/1/tosto.py:44-47 | a written record line with a clean name and clean residues is read as exactly that pair |
| RoundTrip.TextLayout | examples/R1107/msa/1/tosto.py:40-48 | for records that can be read back, the written lines are a header, a blank line, one data line per record and a terminator |
| RoundTrip.ScanLayout | protenix/openfold_local/data/parsers.py:118-144 | over that layout, a chunk reads data lines until its budget is spent, or all of them and the `//` |
| RoundTrip.ChunksLayout | protenix/openfold_local/data/parsers.py:114-160 | with room under the cap and chunks of at least one line, every remaining entry is collected |
| RoundTrip.ReadLayout | protenix/openfold_local/data/parsers.py:114-160 | the whole read, whose first chunk spends one line on the blank line, collects every entry in order |
| RoundTrip.ReconciledEqualLengths | protenix/openfold_local/data/parsers.py:170-179 | sequences of equal length are left as they are |
| RoundTrip.WrittenColumns | examples/R1107/msa/1/tosto.py:42-47 | the pairs written are the residues of the records, in order, with descriptions `query` then the later identifiers |
| RoundTrip.ParseWritten | examples/R1107/msa/1/tosto.py:40-48 | parsing what is written gives back every record's residues, every later identifier, `query` for the first, and zero deletion rows. Conditions: 1 to `max_sequences` records, chunks of at least two lines, residues non-empty, clean and of equal length, and later identifiers non-empty, whitespace-free and not starting with `#` |
| RoundTrip.ParseWrittenEmpty | protenix/openfold_local/data/parsers.py:163-165 | with no records, the written file parses to the degenerate record |
| RoundTrip.ParseWrittenChunkOne | protenix/openfold_local/data/parsers.py:118-148 | with one-line chunks nothing written is read back: the blank line empties the first chunk |
| RoundTrip.FastaRoundTrip | examples/R1107/msa/1/tosto.py:11-48 | the same round trip starting from the FASTA lines |
| RnaTokenize.BuildResidueMap | protenix/data/msa_featurizer_rna.py:175-191 | the map-building loop computes the fold `ResidueMap` under either registration rule |
| RnaTokenize.ResidueMapWellIndexed | protenix/data/msa_featurizer_rna.py:175-191 | the counter never exceeds the atom count; the map's values are exactly the columns `0 .. msa_idx - 1` handed out; every key is a 1-based or 0-based key of an eligible `C4'` atom |
| RnaTokenize.ResidueMapBounded | protenix/data/msa_featurizer_rna.py:175-191 | every column in the map lies below the final counter |
| RnaTokenize.ResidueMapExtends | protenix/data/msa_featurizer_rna.py:188-191 | entries are never overwritten: the map after any prefix of the atoms is kept by the final map |
| RnaTokenize.BothKeysFreeStep | protenix/data/msa_featurizer_rna.py:187-191 | under the source's rule an atom is registered iff it is an eligible `C4'` atom and neither key is present; both keys then get the same new column, and otherwise nothing changes |
| RnaTokenize.AtomAt | protenix/data/msa_featurizer_rna.py:205 | indexing the atom array succeeds iff the index is in `[-n, n)`, and a non-negative index gives that atom |
| RnaTokenize.MapTokens | protenix/data/msa_featurizer_rna.py:204-217 | the mapping loop fails iff some centre index is out of range; otherwise it returns the list `TokenColumns` describes and the number of tokens that matched |
| RnaTokenize.MappedTokensCountsHits | protenix/data/msa_featurizer_rna.py:204-217 | `mapped_tokens` is the number of entries that are not the sentinel `-1` |
| RnaTokenize.TokenColumnsAt | protenix/data/msa_featurizer_rna.py:204-217 | when every centre atom has both annotations, there is one entry per token: the 1-based key's column, else the 0-based key's, else `-1` |
| RnaTokenize.TokenColumnsBounded | protenix/data/msa_featurizer_rna.py:204-217 | every entry is `-1` or a column the map holds |
| RnaTokenize.PositionalFallbackAt | protenix/data/msa_featurizer_rna.py:220-224 | the fallback has one entry per token, token `i` on column `i` while the alignment has that column, `-1` after |
| RnaTokenize.IndexOf | protenix/data/msa_featurizer_rna.py:231 | `list.index` fails iff the value is absent, and otherwise returns its first position |
| RnaTokenize.RestypeCodes | protenix/data/msa_featurizer_rna.py:231 | encoding fails iff some residue type is not in the alphabet; otherwise each code is the position of its residue type |
| RnaTokenize.PadRestypes | protenix/data/msa_featurizer_rna.py:232-234 | codes shorter than the token count are padded with the unknown code up to it; longer ones are kept whole |
| RnaTokenize.ZeroColumnMean | protenix/data/msa_featurizer_rna.py:256-257 | a column with no flagged row has deletion mean exactly 0: the epsilon keeps the division defined |
| RnaTokenize.ColumnMeanBounds | protenix/data/msa_featurizer_rna.py:256-257 | with deletion values in [0, 1], every deletion mean lies in [0, 1) |
| RnaTokenize.ComputeDeletionMean | protenix/data/msa_featurizer_rna.py:250-258 | the column loop fills a fresh array with every column's deletion mean |
| RnaTokenize.ComputeTokenToMsaCol | protenix/data/msa_featurizer_rna.py:175-224 | building the residue map, mapping the tokens and falling back to positions fails iff some centre index is out of range; otherwise it yields `token_2_msa_col`: the identity mapping, or the positional fallback when no token matched. The registration rule is a parameter: `BothKeysFree` is the source's rule (lines 187-191), `PerKey` the corrected one |
| RnaTokenize.TokenizeMsa | protenix/data/msa_featurizer_rna.py:156-269 | the method returns what the function `Tokenized` describes, under the registration rule it is given; with `BothKeysFree` that is the source as written |
| RnaTokenize.TokenizedNone | protenix/data/msa_featurizer_rna.py:158-172 | no result iff any of these holds: the features are empty or lack `msa`, `has_deletion` or `deletion_value`; the centre atom indices are missing, empty or out of range; a residue type is unknown; or the deletion arrays do not cover the alignment |
| RnaTokenize.TokenizedShape | protenix/data/msa_featurizer_rna.py:231-262 | a result passes `msa`, `has_deletion`, `deletion_value` and `profile` through unchanged; `msa_cols` is the length of `token_2_msa_col` and `msa_rows` the alignment's row count; there is one deletion mean per alignment column; the residue types start with the codes and are padded with the unknown code |
| RnaTokenize.TokenizedZeroColumns | protenix/data/msa_featurizer_rna.py:250-258 | an unflagged column's deletion mean in the result is 0 |
| RnaTokenize.TokenizedFallback | protenix/data/msa_featurizer_rna.py:219-224 | under either registration rule (the source's included), when no token matched, `token_2_msa_col` is the positional mapping |
| RnaTokenize.TokenizedIdentity | protenix/data/msa_featurizer_rna.py:204-217 | under either registration rule (the source's included), when some token matched, `token_2_msa_col` has one looked-up entry per token; each entry is `-1` or below the final `msa_idx`; the hit count is its number of non-sentinel entries |
| RnaTokenize.BothKeysFreeCollides | protenix/data/msa_featurizer_rna.py:187-191 | under the source's rule, two consecutive residues of one chain get one column between them, and both tokens map to column 0 |
| RnaTokenize.BothKeysFreeFiveResidues | protenix/data/msa_featurizer_rna.py:175-217 | under the source's rule, residues 1 to 5 of chain `A` map to `[0, 1, 1, 2, 2]` |
| RnaTokenize.TokenizedFiveResidues | protenix/data/msa_featurizer_rna.py:175-224 | end to end, `tokenize_msa` on residues 1 to 5 of chain `A` returns `token_2_msa_col == [0, 1, 1, 2, 2]` under the source's rule and `[0, 1, 2, 3, 4]` under the per-key rule |
| RnaTokenize.PerKeyConsecutive | protenix/data/msa_featurizer_rna.py:175-191 | under the per-key rule, a chain of `n` consecutive residues gets `n` columns; residue `first + j` is on column `j`; only keys of that chain are written |
| RnaTokenize.PerKeyTokensInOrder | protenix/data/msa_featurizer_rna.py:175-217 | under the per-key rule, token `i` of such a chain maps to column `i` |
| RnaFeatures.JoinPath | protenix/data/msa_featurizer_rna.py:54 | the joined path starts with the directory and adds `/` when the directory lacks one |
| RnaFeatures.ProcessLoadsNonPairing | protenix/data/msa_featurizer_rna.py:50-68 | given an existing non-empty directory holding `non_pairing.sto` that loads, the result is the sequence features updated by the loaded ones. The load uses the `rfam` database, no per-database cap and 16384 sequences in total |
| RnaFeatures.ProcessFallsBack | protenix/data/msa_featurizer_rna.py:50-76 | with no directory, an empty or missing one, no `non_pairing.sto`, or a failing load, the result is the sequence features alone |
| RnaFeatures.ProcessKeepsSequenceFeatures | protenix/data/msa_featurizer_rna.py:47-76 | the result is always either the sequence features, or the sequence features updated by what loading `non_pairing.sto` of the given non-empty directory returned |
| PyStr.StartsWithPrefix | protenix/openfold_local/data/parsers.py:126 | `s.startswith(p)` holds iff `p` is the first `len(p)` characters of `s` |
| PyStr.ContainsAt | protenix/data/msa_featurizer_rna.py:93 | `sub in s` holds iff `sub` occurs in `s` at some position |
| RnaFeatures.RnaEntityIdsByOccurrence | protenix/data/msa_featurizer_rna.py:90-94 | an entity is selected iff it has a poly type and `polyribonucleotide` occurs somewhere in it |
| RnaFeatures.OnlyEntities | protenix/data/msa_featurizer_rna.py:101-103 | an entry is kept iff it is an entry of the original mapping whose entity is selected; the result is no longer than the original |
| RnaFeatures.GetInferenceRnaMsaFeaturesForAssembly | protenix/data/msa_featurizer_rna.py:84-153 | the method, including its gathering loop, returns what `InferenceRnaMsaFeatures` describes |
| RnaFeatures.FeatureListShape | protenix/data/msa_featurizer_rna.py:121-140 | the loop collects at most one feature dictionary per entry, and none of them is empty |
| RnaFeatures.FeatureListNone | protenix/data/msa_featurizer_rna.py:122-124 | entries whose entity has no RNA sequence contribute nothing |
| RnaFeatures.PrefilterRedundant | protenix/data/msa_featurizer_rna.py:101-124 | filtering by RNA entity before the loop changes nothing the loop collects |
| RnaFeatures.NoSelectedEntityNoFeatures | protenix/data/msa_featurizer_rna.py:90-144 | if no entry of `entity_to_asym_id` is an RNA entity with a sequence, the result is `None` |
| RnaFeatures.InferenceMergesSelected | protenix/data/msa_featurizer_rna.py:121-149 | a result is the merge of a non-empty list of non-empty features, at most one per entry, collected from the whole unfiltered mapping |
| RnaFeatures.MakeMsaFeature | protenix/data/msa_featurizer_rna.py:271-295 | the result is `None` when no RNA features were gathered, and their tokenization otherwise; empty features (no key at all) and a missing `msa` give `None`. The registration rule is passed on to the tokenization; `BothKeysFree` is the source as written |

## Left out

- Logging, `os.path.getsize` and the summary `print` of `fasta_to_stockholm` are left out: they do not affect any result.
- The command-line `main` of `tosto.py` (argument parsing, exit on a missing input) is left out; it only calls `fasta_to_stockholm`.
- The file system is not modelled. Reading a file is its list of lines. An `open` or read that raises is `Unreadable`. `os.path.exists` is a parameter.
- `os.path.join` is modelled only for a relative file name (`RnaFeatures.JoinPath`), which is the only way it is called.
- The callees `make_sequence_features`, `load_and_process_msa` and `merge_features_from_prot_rna` are not part of this model: they live in `protenix.data.msa_utils`. They are uninterpreted functions of `RnaFeatures.Env`, and a raising `load_and_process_msa` is `None`.
- `process_rna_single_sequence`'s outer `except`, which calls `make_sequence_features` a second time, is left out. In the model `make_sequence_features` always returns, so that branch cannot be reached.
- `rna_order_with_x` is defined outside the modelled files; the alphabet is a parameter.
- The annotation `centre_atom_index` is an `Option` parameter.
- Atoms are records whose `asym_id` and `residue_id` may be absent (the `hasattr` tests).
- `entity_ids` membership is membership in a list.
- The debug loop over the first five tokens (`msa_featurizer_rna.py:198-202`) is left out: it only logs. It indexes the same atoms as the mapping loop, so an index that makes it raise makes the mapping loop raise too.
- `RnaTokenize.DeletionFault`: numpy raises on missing columns or unequal row counts, and the model treats every row-count mismatch as that error. Broadcasting of a single-row array is left out.
- numpy dtypes and shapes beyond two dimensions are left out: arrays are rectangular grids.
- Floating-point rounding is left out: `deletion_mean` is computed over `real`.
- Python's `\s` is the whitespace set of `str.isspace`. `\d` is the ASCII digits only: Unicode decimal digits are left out.
- `re.split` is modelled only in the form the parser calls (`maxsplit=1`, pattern `\s+`, on a stripped line).
- The residue types are padded to the token count with `np.pad` and never truncated: `RnaTokenize.PadRestypes` keeps a longer code list whole.
- The sequence cap is checked only after a whole chunk, so a chunk is never cut at the cap (`Parsers.CapCheckedPerChunk`).
- The values of the feature keys that `tokenize_msa` does not read are left out; only their names are kept (`FeatureDict.otherKeys`).

## Findings

| source | as written | input that shows it | evidently intended | confidence | as-written member | corrected member |
|---|---|---|---|---|---|---|
| protenix/data/msa_featurizer_rna.py:187-191 | a residue is registered only when neither its 1-based key `(asym, res)` nor its 0-based key `(asym, res-1)` is in the map; then both keys get the new column | one chain, `C4'` atoms of residues 1..5, one token per residue: residue 2's 0-based key is residue 1's 1-based key, so residue 2 is skipped. Likewise residue 4. `token_2_msa_col` becomes `[0, 1, 1, 2, 2]` | consecutive residues get consecutive columns `[0, 1, 2, 3, 4]`: a residue is registered when its own 1-based key is new, and the alternative key is written only where free | not executed | RnaTokenize.BothKeysFreeFiveResidues | RnaTokenize.PerKeyTokensInOrder |
