/**
 * Model of the RNA feature pipeline of protenix/data/msa_featurizer_rna.py:
 * `process_rna_single_sequence`, `get_inference_rna_msa_features_for_assembly` and
 * `make_msa_feature`.
 *
 * The callees from `protenix.data.msa_utils` and the file system are fields of an
 * `Env`, so every property below holds whatever they compute. A callee that raises is
 * modelled by `None` where the source catches the exception.
 */
module RnaFeatures {
  import opened Wrappers
  import opened PyStr
  import opened RnaTokenize

  /** The callees the pipeline cannot see into. */
  datatype Env = Env(
    /** `make_sequence_features(sequence, description, molecule_type)`. */
    sequenceFeatures: (string, string, string) -> FeatureDict,
    /** `os.path.exists(path)`. */
    pathExists: string -> bool,
    /**
     * `load_and_process_msa(raw_msa_paths, sequence, max_seqs, max_total, is_homomer)`;
     * `None` where it raises.
     */
    loadMsa: (map<string, string>, string, map<string, int>, int, bool) -> Option<FeatureDict>,
    /** `merge_features_from_prot_rna(features, molecule_type)`. */
    merge: (seq<FeatureDict>, string) -> FeatureDict)

  /** The parts of a bioassembly dictionary the pipeline reads; a missing key is `None`. */
  datatype Assembly = Assembly(
    entityPolyType: Option<map<string, string>>,
    sequences: Option<map<string, string>>,
    rnaMsaDirs: Option<map<string, string>>)

  /** `entity_to_asym_id`, in its key order. */
  type EntityToAsymId = seq<(string, seq<string>)>

  const MoleculeType := "rna"
  const RnaPolymer := "polyribonucleotide"
  const StockholmFileName := "non_pairing.sto"
  const DatabaseName := "rfam"
  /** `{"rfam": -1}`: no per-database cap on the number of sequences. */
  const NoCap: int := -1
  const MaxTotalSequences: int := 16384

  // ---------------------------------------------------------------------------
  // process_rna_single_sequence
  // ---------------------------------------------------------------------------

  /** `os.path.join(dir, name)` for a non-empty directory and a relative name. */
  function JoinPath(dir: string, name: string): (r: string)
    requires dir != []
    ensures |r| >= |dir| && r[..|dir|] == dir
    ensures dir[|dir| - 1] != '/' ==> r == dir + "/" + name
  {
    if dir[|dir| - 1] == '/' then dir + name else dir + "/" + name
  }

  /** The Stockholm file of an MSA directory, where the directory and the file exist. */
  function StockholmPath(env: Env, msaDir: Option<string>): Option<string> {
    if msaDir.Some? && msaDir.value != "" && env.pathExists(msaDir.value) then
      var path := JoinPath(msaDir.value, StockholmFileName);
      if env.pathExists(path) then Some(path) else None
    else None
  }

  /** The call that loads the alignment of one file. */
  function LoadStockholm(env: Env, path: string, sequence: string, isHomomer: bool): Option<FeatureDict> {
    env.loadMsa(map[DatabaseName := path], sequence, map[DatabaseName := NoCap], MaxTotalSequences, isHomomer)
  }

  /** `process_rna_single_sequence(sequence, description, is_homomer_or_monomer, msa_dir)`. */
  function ProcessRnaSingleSequence(env: Env, sequence: string, description: string, isHomomer: bool, msaDir: Option<string>)
    : FeatureDict
  {
    var base := env.sequenceFeatures(sequence, description, MoleculeType);
    var path := StockholmPath(env, msaDir);
    if path.None? then base
    else
      var loaded := LoadStockholm(env, path.value, sequence, isHomomer);
      if loaded.None? then base else base.Update(loaded.value)
  }

  /**
   * The only file the pipeline reads for an entity is `non_pairing.sto` inside its MSA
   * directory, and only when the directory is given, non-empty and exists and the file
   * exists too; when that file loads, its features override the sequence features.
   */
  lemma ProcessLoadsNonPairing(env: Env, sequence: string, description: string, isHomomer: bool, dir: string)
    requires dir != ""
    requires env.pathExists(dir) && env.pathExists(JoinPath(dir, StockholmFileName))
    requires LoadStockholm(env, JoinPath(dir, StockholmFileName), sequence, isHomomer).Some?
    ensures ProcessRnaSingleSequence(env, sequence, description, isHomomer, Some(dir))
            == env.sequenceFeatures(sequence, description, MoleculeType)
                 .Update(LoadStockholm(env, JoinPath(dir, StockholmFileName), sequence, isHomomer).value)
  {
  }

  /**
   * Without a usable MSA (no directory, an empty or missing one, no `non_pairing.sto`
   * in it, or a load that raises) the result is the sequence features alone.
   */
  lemma ProcessFallsBack(env: Env, sequence: string, description: string, isHomomer: bool, msaDir: Option<string>)
    requires || msaDir.None? || msaDir.value == "" || !env.pathExists(msaDir.value)
             || !env.pathExists(JoinPath(msaDir.value, StockholmFileName))
             || LoadStockholm(env, JoinPath(msaDir.value, StockholmFileName), sequence, isHomomer).None?
    ensures ProcessRnaSingleSequence(env, sequence, description, isHomomer, msaDir)
            == env.sequenceFeatures(sequence, description, MoleculeType)
  {
  }

  /**
   * Whatever happens with the MSA, the result is the sequence features, or the sequence
   * features updated by what `load_and_process_msa` returned for `non_pairing.sto` in
   * the given directory.
   */
  lemma ProcessKeepsSequenceFeatures(env: Env, sequence: string, description: string, isHomomer: bool, msaDir: Option<string>)
    ensures var base := env.sequenceFeatures(sequence, description, MoleculeType);
            var r := ProcessRnaSingleSequence(env, sequence, description, isHomomer, msaDir);
            || r == base
            || (&& msaDir.Some? && msaDir.value != ""
                && LoadStockholm(env, JoinPath(msaDir.value, StockholmFileName), sequence, isHomomer).Some?
                && r == base.Update(LoadStockholm(env, JoinPath(msaDir.value, StockholmFileName), sequence, isHomomer).value))
  {
  }

  // ---------------------------------------------------------------------------
  // Selecting the RNA entities
  // ---------------------------------------------------------------------------

  predicate IsRnaPolyType(polyType: string) {
    Contains(polyType, RnaPolymer)
  }

  /** `rna_entity_ids`. */
  function RnaEntityIds(polyTypes: map<string, string>): (r: set<string>)
    ensures forall k :: k in r <==> k in polyTypes && IsRnaPolyType(polyTypes[k])
  {
    set k | k in polyTypes && IsRnaPolyType(polyTypes[k])
  }

  /** An entity is selected exactly when `polyribonucleotide` occurs somewhere in its polymer type. */
  lemma RnaEntityIdsByOccurrence(polyTypes: map<string, string>, k: string)
    ensures k in RnaEntityIds(polyTypes) <==> k in polyTypes && exists i :: OccursAt(polyTypes[k], RnaPolymer, i)
  {
    if k in polyTypes {
      ContainsAt(polyTypes[k], RnaPolymer);
    }
  }

  /** `filtered_entity_to_asym_id`: the entries whose entity is in `ids`, in their order. */
  function OnlyEntities(entityToAsymId: EntityToAsymId, ids: set<string>): (r: EntityToAsymId)
    ensures forall e :: e in r <==> e in entityToAsymId && e.0 in ids
    ensures |r| <= |entityToAsymId|
    decreases |entityToAsymId|
  {
    if entityToAsymId == [] then []
    else
      var front := OnlyEntities(entityToAsymId[..|entityToAsymId| - 1], ids);
      var last := entityToAsymId[|entityToAsymId| - 1];
      if last.0 in ids then front + [last] else front
  }

  /** `rna_sequences`. */
  function RnaSequences(sequences: map<string, string>, ids: set<string>): (r: map<string, string>)
    ensures forall k :: k in r <==> k in sequences && k in ids
    ensures forall k :: k in r ==> r[k] == sequences[k]
  {
    map k | k in sequences && k in ids :: sequences[k]
  }

  /** `msa_dir` for an entity. */
  function MsaDir(assembly: Assembly, entityId: string): Option<string> {
    if assembly.rnaMsaDirs.Some? && entityId in assembly.rnaMsaDirs.value then Some(assembly.rnaMsaDirs.value[entityId])
    else None
  }

  /** The features of one entity: its sequence, `entity_<id>`, and whether it has several chains. */
  function EntityFeatures(env: Env, assembly: Assembly, rnaSequences: map<string, string>, entityId: string, asymIds: seq<string>)
    : FeatureDict
    requires entityId in rnaSequences
  {
    ProcessRnaSingleSequence(env, rnaSequences[entityId], "entity_" + entityId, |asymIds| > 1, MsaDir(assembly, entityId))
  }

  /** What one entry adds to `msa_features_list`. */
  function Contribution(env: Env, assembly: Assembly, rnaSequences: map<string, string>, entry: (string, seq<string>))
    : seq<FeatureDict>
  {
    if entry.0 !in rnaSequences then []
    else
      var f := EntityFeatures(env, assembly, rnaSequences, entry.0, entry.1);
      if f.IsEmpty() then [] else [f]
  }

  /** `msa_features_list` after the loop has seen `entries`. */
  function FeatureList(env: Env, assembly: Assembly, rnaSequences: map<string, string>, entries: EntityToAsymId)
    : seq<FeatureDict>
    decreases |entries|
  {
    if entries == [] then []
    else
      FeatureList(env, assembly, rnaSequences, entries[..|entries| - 1])
      + Contribution(env, assembly, rnaSequences, entries[|entries| - 1])
  }

  /** What `get_inference_rna_msa_features_for_assembly(bioassembly, entity_to_asym_id)` returns. */
  function InferenceRnaMsaFeatures(env: Env, assembly: Assembly, entityToAsymId: EntityToAsymId): Option<FeatureDict> {
    if assembly.entityPolyType.None? then None
    else
      var ids := RnaEntityIds(assembly.entityPolyType.value);
      var filtered := OnlyEntities(entityToAsymId, ids);
      if ids == {} || filtered == [] || assembly.sequences.None? then None
      else
        var rnaSequences := RnaSequences(assembly.sequences.value, ids);
        var features := FeatureList(env, assembly, rnaSequences, filtered);
        if rnaSequences == map[] || features == [] then None
        else Some(env.merge(features, MoleculeType))
  }

  lemma FeatureListSnoc(env: Env, assembly: Assembly, rnaSequences: map<string, string>, entries: EntityToAsymId, i: nat)
    requires i < |entries|
    ensures FeatureList(env, assembly, rnaSequences, entries[..i + 1])
            == FeatureList(env, assembly, rnaSequences, entries[..i]) + Contribution(env, assembly, rnaSequences, entries[i])
  {
    assert entries[..i + 1][..i] == entries[..i];
  }

  /** `RNAMSAFeaturizer.get_inference_rna_msa_features_for_assembly`. */
  method GetInferenceRnaMsaFeaturesForAssembly(env: Env, assembly: Assembly, entityToAsymId: EntityToAsymId)
    returns (r: Option<FeatureDict>)
    ensures r == InferenceRnaMsaFeatures(env, assembly, entityToAsymId)
  {
    if assembly.entityPolyType.None? {
      return None;  // KeyError
    }
    var ids := RnaEntityIds(assembly.entityPolyType.value);
    if ids == {} {
      return None;
    }
    var filtered := OnlyEntities(entityToAsymId, ids);
    if filtered == [] {
      return None;
    }
    if assembly.sequences.None? {
      return None;  // KeyError
    }
    var rnaSequences := RnaSequences(assembly.sequences.value, ids);
    if rnaSequences == map[] {
      return None;
    }
    var features: seq<FeatureDict> := [];
    for i := 0 to |filtered|
      invariant features == FeatureList(env, assembly, rnaSequences, filtered[..i])
    {
      FeatureListSnoc(env, assembly, rnaSequences, filtered, i);
      var (entityId, asymIds) := filtered[i];
      if entityId in rnaSequences {
        var msaDir := None;
        if assembly.rnaMsaDirs.Some? && entityId in assembly.rnaMsaDirs.value {
          msaDir := Some(assembly.rnaMsaDirs.value[entityId]);
        }
        var isHomomer := |asymIds| > 1;
        var feature := ProcessRnaSingleSequence(env, rnaSequences[entityId], "entity_" + entityId, isHomomer, msaDir);
        if !feature.IsEmpty() {
          features := features + [feature];
        } else {
          assert features + [] == features;
        }
      } else {
        assert features + [] == features;
      }
    }
    assert filtered[..|filtered|] == filtered;
    if features == [] {
      return None;
    }
    return Some(env.merge(features, MoleculeType));
  }

  // ---------------------------------------------------------------------------
  // What the selection promises
  // ---------------------------------------------------------------------------

  /** An entry the loop processes: an RNA entity that has a sequence. */
  predicate Selected(assembly: Assembly, entry: (string, seq<string>))
    requires assembly.entityPolyType.Some? && assembly.sequences.Some?
  {
    && entry.0 in assembly.entityPolyType.value && IsRnaPolyType(assembly.entityPolyType.value[entry.0])
    && entry.0 in assembly.sequences.value
  }

  /** Every feature the loop collects is non-empty, and there is at most one per entry. */
  lemma {:induction false} FeatureListShape(env: Env, assembly: Assembly, rnaSequences: map<string, string>, entries: EntityToAsymId)
    ensures |FeatureList(env, assembly, rnaSequences, entries)| <= |entries|
    ensures forall j :: 0 <= j < |FeatureList(env, assembly, rnaSequences, entries)| ==>
              !FeatureList(env, assembly, rnaSequences, entries)[j].IsEmpty()
    decreases |entries|
  {
    if entries != [] {
      var front := entries[..|entries| - 1];
      FeatureListShape(env, assembly, rnaSequences, front);
      var a: seq<FeatureDict> := FeatureList(env, assembly, rnaSequences, front);
      var c: seq<FeatureDict> := Contribution(env, assembly, rnaSequences, entries[|entries| - 1]);
      assert FeatureList(env, assembly, rnaSequences, entries) == a + c;
      var ac: seq<FeatureDict> := a + c;
      forall j | 0 <= j < |ac| ensures !ac[j].IsEmpty() {
        if j < |a| { assert ac[j] == a[j]; } else { assert ac[j] == c[j - |a|]; }
      }
    }
  }

  /** Entries whose entity has no sequence contribute nothing. */
  lemma {:induction false} FeatureListNone(env: Env, assembly: Assembly, rnaSequences: map<string, string>, entries: EntityToAsymId)
    requires forall i :: 0 <= i < |entries| ==> entries[i].0 !in rnaSequences
    ensures FeatureList(env, assembly, rnaSequences, entries) == []
    decreases |entries|
  {
    if entries != [] {
      var front := entries[..|entries| - 1];
      assert forall i :: 0 <= i < |front| ==> front[i].0 !in rnaSequences by {
        forall i | 0 <= i < |front| ensures front[i].0 !in rnaSequences {
          assert front[i] == entries[i];
        }
      }
      FeatureListNone(env, assembly, rnaSequences, front);
    }
  }

  /**
   * Filtering by RNA entity first changes nothing the loop does: entities outside the
   * RNA set have no RNA sequence and are skipped anyway.
   */
  lemma {:induction false} PrefilterRedundant(env: Env, assembly: Assembly, sequences: map<string, string>, ids: set<string>, entries: EntityToAsymId)
    ensures FeatureList(env, assembly, RnaSequences(sequences, ids), OnlyEntities(entries, ids))
            == FeatureList(env, assembly, RnaSequences(sequences, ids), entries)
    decreases |entries|
  {
    if entries != [] {
      var front := entries[..|entries| - 1];
      var last := entries[|entries| - 1];
      var rs := RnaSequences(sequences, ids);
      PrefilterRedundant(env, assembly, sequences, ids, front);
      var a := FeatureList(env, assembly, rs, OnlyEntities(front, ids));
      if last.0 in ids {
        var kept := OnlyEntities(front, ids) + [last];
        assert OnlyEntities(entries, ids) == kept;
        assert kept[..|kept| - 1] == OnlyEntities(front, ids);
        assert FeatureList(env, assembly, rs, kept) == a + Contribution(env, assembly, rs, last);
      } else {
        assert Contribution(env, assembly, rs, last) == [];
        assert FeatureList(env, assembly, rs, entries) == a + [];
      }
    }
  }

  /**
   * No RNA features come out unless some entry of `entity_to_asym_id` is an RNA entity
   * with a sequence: every other entry is filtered out or skipped.
   */
  lemma NoSelectedEntityNoFeatures(env: Env, assembly: Assembly, entityToAsymId: EntityToAsymId)
    requires assembly.entityPolyType.Some? && assembly.sequences.Some?
    requires forall i :: 0 <= i < |entityToAsymId| ==> !Selected(assembly, entityToAsymId[i])
    ensures InferenceRnaMsaFeatures(env, assembly, entityToAsymId) == None
  {
    var ids := RnaEntityIds(assembly.entityPolyType.value);
    var rs := RnaSequences(assembly.sequences.value, ids);
    PrefilterRedundant(env, assembly, assembly.sequences.value, ids, entityToAsymId);
    FeatureListNone(env, assembly, rs, entityToAsymId);
  }

  /**
   * Whenever there are RNA features, they merge one non-empty feature dictionary for
   * each of at most as many RNA entities as `entity_to_asym_id` lists, with the
   * entities outside `entity_to_asym_id` or without a sequence ignored.
   */
  lemma InferenceMergesSelected(env: Env, assembly: Assembly, entityToAsymId: EntityToAsymId)
    requires InferenceRnaMsaFeatures(env, assembly, entityToAsymId).Some?
    ensures assembly.entityPolyType.Some? && assembly.sequences.Some?
    ensures var ids := RnaEntityIds(assembly.entityPolyType.value);
            var features := FeatureList(env, assembly, RnaSequences(assembly.sequences.value, ids), entityToAsymId);
            && features != [] && |features| <= |entityToAsymId|
            && (forall j :: 0 <= j < |features| ==> !features[j].IsEmpty())
            && InferenceRnaMsaFeatures(env, assembly, entityToAsymId) == Some(env.merge(features, MoleculeType))
  {
    var ids := RnaEntityIds(assembly.entityPolyType.value);
    var rs := RnaSequences(assembly.sequences.value, ids);
    PrefilterRedundant(env, assembly, assembly.sequences.value, ids, entityToAsymId);
    FeatureListShape(env, assembly, rs, entityToAsymId);
  }

  // ---------------------------------------------------------------------------
  // make_msa_feature
  // ---------------------------------------------------------------------------

  /**
   * `make_msa_feature(bioassembly, entity_to_asym_id, token_array, atom_array)`: the
   * tokenized RNA features, or `None` as soon as either stage has none. `policy` is
   * the registration rule of the residue map, `BothKeysFree` for the source as written.
   */
  method MakeMsaFeature(policy: Registration, env: Env, assembly: Assembly, entityToAsymId: EntityToAsymId,
                        centreAtomIndex: Option<seq<int>>, atoms: seq<Atom>, alphabet: seq<string>)
    returns (r: Option<TokenizedMsa>)
    ensures var f := InferenceRnaMsaFeatures(env, assembly, entityToAsymId);
            r == if f.None? then None else Tokenized(policy, f.value, centreAtomIndex, atoms, alphabet)
  {
    var features := GetInferenceRnaMsaFeaturesForAssembly(env, assembly, entityToAsymId);
    if features.None? || features.value.IsEmpty() {
      if features.Some? {
        TokenizedNone(policy, features.value, centreAtomIndex, atoms, alphabet);
      }
      return None;
    }
    if features.value.msa.None? {
      // `rna_msa_features.get('msa', {}).shape` raises AttributeError.
      TokenizedNone(policy, features.value, centreAtomIndex, atoms, alphabet);
      return None;
    }
    r := TokenizeMsa(policy, features.value, centreAtomIndex, atoms, alphabet);
  }
}
