/**
 * Model of `RNAMSAFeaturizer.tokenize_msa` (protenix/data/msa_featurizer_rna.py):
 * aligning the columns of an RNA alignment with the tokens of a structure.
 *
 * numpy arrays are modelled as rectangular grids of Dafny values, biotite atoms as
 * records whose `asym_id` and `residue_id` may be missing (the `hasattr` guards),
 * and `rna_order_with_x` as a list passed in by the caller. Floating point is
 * modelled by `real`.
 */
module RnaTokenize {
  import opened Wrappers

  // ---------------------------------------------------------------------------
  // Arrays, atoms and features
  // ---------------------------------------------------------------------------

  /** A two-dimensional numpy array: `cells` holds the rows, each `width` long. */
  datatype Grid<T> = Grid(width: nat, cells: seq<seq<T>>) {
    predicate Valid() {
      forall r :: 0 <= r < |cells| ==> |cells[r]| == width
    }
  }

  type Matrix<T> = g: Grid<T> | g.Valid() witness Grid(0, [])

  /** One atom of the structure, with the annotations the mapping reads. */
  datatype Atom = Atom(asymId: Option<string>, residueId: Option<int>, atomName: string, entityId: string)

  /** A residue key `(asym_id, residue_id)`. */
  datatype ResidueKey = ResidueKey(asymId: string, residueId: int)

  /** The features `tokenize_msa` reads; a missing key is `None`. */
  datatype FeatureDict = FeatureDict(
    msa: Option<Matrix<int>>,
    hasDeletion: Option<Matrix<bool>>,
    deletionValue: Option<Matrix<real>>,
    restypes: Option<seq<string>>,
    entityIds: Option<seq<string>>,
    profile: Option<Matrix<real>>,
    /** The names of the other keys it holds (`aatype`, `sequence`, ...), which are not read here. */
    otherKeys: set<string>)
  {
    /** `not msa_feats`: the dictionary holds no key at all. */
    predicate IsEmpty() {
      msa.None? && hasDeletion.None? && deletionValue.None? && restypes.None? && entityIds.None? && profile.None?
      && otherKeys == {}
    }

    /** `self.update(other)`: every key of `other` overrides. */
    function Update(other: FeatureDict): (r: FeatureDict)
      ensures other.msa.Some? ==> r.msa == other.msa
      ensures other.msa.None? ==> r.msa == msa
    {
      FeatureDict(
        if other.msa.Some? then other.msa else msa,
        if other.hasDeletion.Some? then other.hasDeletion else hasDeletion,
        if other.deletionValue.Some? then other.deletionValue else deletionValue,
        if other.restypes.Some? then other.restypes else restypes,
        if other.entityIds.Some? then other.entityIds else entityIds,
        if other.profile.Some? then other.profile else profile,
        otherKeys + other.otherKeys)
    }
  }

  /** The features `tokenize_msa` returns. */
  datatype TokenizedMsa = TokenizedMsa(
    origRestypes: seq<int>,
    msaRows: nat,
    msaCols: nat,
    tokenToMsaCol: seq<int>,
    msa: Matrix<int>,
    hasDeletion: Matrix<bool>,
    deletionValue: Matrix<real>,
    deletionMean: seq<real>,
    profile: Option<Matrix<real>>)

  /** The value `token_2_msa_col` holds for a token without a column. */
  const Unmapped: int := -1

  /** The atom name that registers a residue. */
  const CentreAtomName := "C4'"

  // ---------------------------------------------------------------------------
  // The residue map
  // ---------------------------------------------------------------------------

  predicate HasKeys(a: Atom) {
    a.asymId.Some? && a.residueId.Some?
  }

  /** `(atom.asym_id, atom.residue_id)`. */
  function Key1(a: Atom): ResidueKey
    requires HasKeys(a)
  {
    ResidueKey(a.asymId.value, a.residueId.value)
  }

  /** `(atom.asym_id, atom.residue_id - 1)`. */
  function Key0(a: Atom): ResidueKey
    requires HasKeys(a)
  {
    ResidueKey(a.asymId.value, a.residueId.value - 1)
  }

  /** The atoms that take part in the map: `C4'` atoms of an entity the features list. */
  predicate Eligible(a: Atom, entityIds: seq<string>) {
    HasKeys(a) && a.atomName == CentreAtomName && a.entityId in entityIds
  }

  /**
   * How a residue is registered. `BothKeysFree` is the source's rule: register only
   * when neither key is present, and then write both. `PerKey` registers a residue
   * whenever its own key is new and writes the other key only where it is free.
   */
  datatype Registration = BothKeysFree | PerKey

  /** The map `res_id_2_msa_idx` and the counter `msa_idx`. */
  datatype ResidueIndex = ResidueIndex(columns: map<ResidueKey, int>, next: int)

  /** Whether an atom is given the next column under a policy. */
  predicate Registers(policy: Registration, ri: ResidueIndex, a: Atom, entityIds: seq<string>) {
    && Eligible(a, entityIds)
    && Key1(a) !in ri.columns
    && (policy == BothKeysFree ==> Key0(a) !in ri.columns)
  }

  /** One pass of the map-building loop. */
  function Register(policy: Registration, ri: ResidueIndex, a: Atom, entityIds: seq<string>): ResidueIndex {
    if Registers(policy, ri, a, entityIds) then
      var withKey0 := if Key0(a) in ri.columns then ri.columns else ri.columns[Key0(a) := ri.next];
      ResidueIndex(withKey0[Key1(a) := ri.next], ri.next + 1)
    else ri
  }

  /** The map after the loop has seen `atoms`, in order. */
  function ResidueMap(policy: Registration, atoms: seq<Atom>, entityIds: seq<string>): ResidueIndex
    decreases |atoms|
  {
    if atoms == [] then ResidueIndex(map[], 0)
    else Register(policy, ResidueMap(policy, atoms[..|atoms| - 1], entityIds), atoms[|atoms| - 1], entityIds)
  }

  /**
   * The facts every map built by the loop keeps: its values are the columns
   * 0, 1, ..., next - 1 handed out so far, each held by the key of a registered atom,
   * and every key comes from an eligible atom.
   */
  predicate WellIndexed(ri: ResidueIndex, atoms: seq<Atom>, entityIds: seq<string>) {
    && 0 <= ri.next <= |atoms|
    && (forall k :: k in ri.columns ==> 0 <= ri.columns[k] < ri.next)
    && (forall v :: 0 <= v < ri.next ==> v in ri.columns.Values)
    && (forall k :: k in ri.columns ==>
          exists i :: 0 <= i < |atoms| && Eligible(atoms[i], entityIds)
                      && (k == Key1(atoms[i]) || k == Key0(atoms[i])))
  }

  /** `b` keeps every entry of `a`: nothing is ever overwritten or removed. */
  predicate Extends(b: map<ResidueKey, int>, a: map<ResidueKey, int>) {
    forall k :: k in a ==> k in b && b[k] == a[k]
  }

  lemma RegisterExtends(policy: Registration, ri: ResidueIndex, a: Atom, entityIds: seq<string>)
    ensures Extends(Register(policy, ri, a, entityIds).columns, ri.columns)
  {
  }

  lemma WellIndexedMore(ri: ResidueIndex, atoms: seq<Atom>, a: Atom, entityIds: seq<string>)
    requires WellIndexed(ri, atoms, entityIds)
    ensures WellIndexed(ri, atoms + [a], entityIds)
  {
    var more := atoms + [a];
    forall k | k in ri.columns
      ensures exists i :: 0 <= i < |more| && Eligible(more[i], entityIds) && (k == Key1(more[i]) || k == Key0(more[i]))
    {
      var i :| 0 <= i < |atoms| && Eligible(atoms[i], entityIds) && (k == Key1(atoms[i]) || k == Key0(atoms[i]));
      assert more[i] == atoms[i];
    }
  }

  lemma RegisterWellIndexed(policy: Registration, ri: ResidueIndex, atoms: seq<Atom>, a: Atom, entityIds: seq<string>)
    requires WellIndexed(ri, atoms, entityIds)
    ensures WellIndexed(Register(policy, ri, a, entityIds), atoms + [a], entityIds)
  {
    WellIndexedMore(ri, atoms, a, entityIds);
    if Registers(policy, ri, a, entityIds) {
      var more := atoms + [a];
      var r := Register(policy, ri, a, entityIds);
      assert more[|atoms|] == a;
      RegisterExtends(policy, ri, a, entityIds);
      forall v | 0 <= v < r.next
        ensures v in r.columns.Values
      {
        if v == ri.next {
          assert Key1(a) in r.columns && r.columns[Key1(a)] == v;
        } else {
          assert v in ri.columns.Values;
          var k :| k in ri.columns && ri.columns[k] == v;
          assert k in r.columns && r.columns[k] == v;
        }
      }
      forall k | k in r.columns
        ensures exists i :: 0 <= i < |more| && Eligible(more[i], entityIds) && (k == Key1(more[i]) || k == Key0(more[i]))
      {
        if k !in ri.columns {
          assert k == Key1(more[|atoms|]) || k == Key0(more[|atoms|]);
        }
      }
    }
  }

  /**
   * Whatever the policy: at most one column per atom is handed out, the columns in
   * the map are exactly 0, 1, 2, ..., next - 1 without gaps, and every key in the map
   * is a key of an eligible atom (a `C4'` atom of an entity the features list).
   */
  lemma {:induction false} ResidueMapWellIndexed(policy: Registration, atoms: seq<Atom>, entityIds: seq<string>)
    ensures WellIndexed(ResidueMap(policy, atoms, entityIds), atoms, entityIds)
    decreases |atoms|
  {
    if atoms != [] {
      var front := atoms[..|atoms| - 1];
      ResidueMapWellIndexed(policy, front, entityIds);
      assert front + [atoms[|atoms| - 1]] == atoms;
      RegisterWellIndexed(policy, ResidueMap(policy, front, entityIds), front, atoms[|atoms| - 1], entityIds);
    }
  }

  /** The columns of the map lie in 0 .. next - 1. */
  lemma ResidueMapBounded(policy: Registration, atoms: seq<Atom>, entityIds: seq<string>)
    ensures var ri := ResidueMap(policy, atoms, entityIds);
            forall k :: k in ri.columns ==> 0 <= ri.columns[k] < ri.next
  {
    ResidueMapWellIndexed(policy, atoms, entityIds);
  }

  /** Entries are never overwritten: the map after a prefix of the atoms is kept by the full map. */
  lemma {:induction false} ResidueMapExtends(policy: Registration, atoms: seq<Atom>, entityIds: seq<string>, n: nat)
    requires n <= |atoms|
    ensures Extends(ResidueMap(policy, atoms, entityIds).columns, ResidueMap(policy, atoms[..n], entityIds).columns)
    decreases |atoms|
  {
    if n < |atoms| {
      var front := atoms[..|atoms| - 1];
      assert front[..n] == atoms[..n];
      ResidueMapExtends(policy, front, entityIds, n);
      RegisterExtends(policy, ResidueMap(policy, front, entityIds), atoms[|atoms| - 1], entityIds);
    } else {
      assert atoms[..n] == atoms;
    }
  }

  /**
   * Under the source's rule an atom is registered exactly when it is eligible and
   * neither of its keys is present, and then both keys receive the same new column.
   */
  lemma BothKeysFreeStep(ri: ResidueIndex, a: Atom, entityIds: seq<string>)
    ensures var r := Register(BothKeysFree, ri, a, entityIds);
            && (r.next == ri.next + 1 <==>
                  Eligible(a, entityIds) && Key1(a) !in ri.columns && Key0(a) !in ri.columns)
            && (r.next != ri.next + 1 ==> r == ri)
            && (r.next == ri.next + 1 ==>
                  r.columns == ri.columns[Key1(a) := ri.next][Key0(a) := ri.next])
  {
    if Registers(BothKeysFree, ri, a, entityIds) {
      assert Key1(a) != Key0(a);
      var r := Register(BothKeysFree, ri, a, entityIds);
      assert r.columns == ri.columns[Key1(a) := ri.next][Key0(a) := ri.next];
    }
  }

  /** The loop that builds `res_id_2_msa_idx`. */
  method BuildResidueMap(policy: Registration, atoms: seq<Atom>, entityIds: seq<string>)
    returns (columns: map<ResidueKey, int>, next: int)
    ensures ResidueIndex(columns, next) == ResidueMap(policy, atoms, entityIds)
  {
    columns := map[];
    next := 0;
    var idx := 0;
    while idx < |atoms|
      invariant 0 <= idx <= |atoms|
      invariant ResidueIndex(columns, next) == ResidueMap(policy, atoms[..idx], entityIds)
    {
      assert atoms[..idx + 1][..idx] == atoms[..idx];
      var atom := atoms[idx];
      if atom.residueId.Some? && atom.asymId.Some? {
        var key1 := ResidueKey(atom.asymId.value, atom.residueId.value);
        var key0 := ResidueKey(atom.asymId.value, atom.residueId.value - 1);
        if atom.atomName == CentreAtomName && atom.entityId in entityIds {
          if key1 !in columns && (policy == PerKey || key0 !in columns) {
            if key0 !in columns {
              columns := columns[key0 := next];
            }
            columns := columns[key1 := next];
            next := next + 1;
          }
        }
      }
      idx := idx + 1;
    }
    assert atoms[..idx] == atoms;
  }

  // ---------------------------------------------------------------------------
  // Tokens to columns
  // ---------------------------------------------------------------------------

  /**
   * `atom_array[i]`: numpy indexing, counting from the end for a negative index;
   * `None` where it raises `IndexError`.
   */
  function AtomAt(atoms: seq<Atom>, i: int): (r: Option<Atom>)
    ensures r.Some? <==> -|atoms| <= i < |atoms|
    ensures 0 <= i < |atoms| ==> r == Some(atoms[i])
  {
    if 0 <= i < |atoms| then Some(atoms[i])
    else if -|atoms| <= i < 0 then Some(atoms[|atoms| + i])
    else None
  }

  predicate AllInRange(atoms: seq<Atom>, centres: seq<int>) {
    forall t :: 0 <= t < |centres| ==> -|atoms| <= centres[t] < |atoms|
  }

  /** The column of a token's centre atom: its 1-based key, else its 0-based key. */
  function Lookup(columns: map<ResidueKey, int>, a: Atom): Option<int>
    requires HasKeys(a)
  {
    if Key1(a) in columns then Some(columns[Key1(a)])
    else if Key0(a) in columns then Some(columns[Key0(a)])
    else None
  }

  /** What one token appends to `token_2_msa_col`: nothing when its atom lacks the keys. */
  function TokenEntry(columns: map<ResidueKey, int>, a: Atom): seq<int> {
    if HasKeys(a) then [Lookup(columns, a).GetOr(Unmapped)] else []
  }

  /** What one token adds to `mapped_tokens`. */
  function TokenHit(columns: map<ResidueKey, int>, a: Atom): nat {
    if HasKeys(a) && Lookup(columns, a).Some? then 1 else 0
  }

  /** `token_2_msa_col` as the mapping loop leaves it. */
  function TokenColumns(columns: map<ResidueKey, int>, atoms: seq<Atom>, centres: seq<int>): seq<int>
    requires AllInRange(atoms, centres)
    decreases |centres|
  {
    if centres == [] then []
    else
      var last := AtomAt(atoms, centres[|centres| - 1]).value;
      TokenColumns(columns, atoms, centres[..|centres| - 1]) + TokenEntry(columns, last)
  }

  /** `mapped_tokens` as the mapping loop leaves it. */
  function MappedTokens(columns: map<ResidueKey, int>, atoms: seq<Atom>, centres: seq<int>): nat
    requires AllInRange(atoms, centres)
    decreases |centres|
  {
    if centres == [] then 0
    else
      var last := AtomAt(atoms, centres[|centres| - 1]).value;
      MappedTokens(columns, atoms, centres[..|centres| - 1]) + TokenHit(columns, last)
  }

  /** The number of entries that are not the sentinel. */
  function CountMapped(entries: seq<int>): nat {
    if entries == [] then 0
    else CountMapped(entries[..|entries| - 1]) + (if entries[|entries| - 1] != Unmapped then 1 else 0)
  }

  lemma CountMappedAppend(a: seq<int>, b: seq<int>)
    ensures CountMapped(a + b) == CountMapped(a) + CountMapped(b)
    decreases |b|
  {
    if b != [] {
      assert (a + b)[..|a + b| - 1] == a + b[..|b| - 1];
      CountMappedAppend(a, b[..|b| - 1]);
    } else {
      assert a + b == a;
    }
  }

  predicate NonNegativeValues(columns: map<ResidueKey, int>) {
    forall k :: k in columns ==> columns[k] >= 0
  }

  /**
   * `mapped_tokens` counts exactly the entries that are not the sentinel, since every
   * column in the map is a real index.
   */
  lemma {:induction false} MappedTokensCountsHits(columns: map<ResidueKey, int>, atoms: seq<Atom>, centres: seq<int>)
    requires AllInRange(atoms, centres) && NonNegativeValues(columns)
    ensures MappedTokens(columns, atoms, centres) == CountMapped(TokenColumns(columns, atoms, centres))
    decreases |centres|
  {
    if centres != [] {
      var front := centres[..|centres| - 1];
      var last := AtomAt(atoms, centres[|centres| - 1]).value;
      assert AllInRange(atoms, front);
      MappedTokensCountsHits(columns, atoms, front);
      CountMappedAppend(TokenColumns(columns, atoms, front), TokenEntry(columns, last));
      EntryCountsHit(columns, last);
    }
  }

  lemma EntryCountsHit(columns: map<ResidueKey, int>, a: Atom)
    requires NonNegativeValues(columns)
    ensures CountMapped(TokenEntry(columns, a)) == TokenHit(columns, a)
  {
    if HasKeys(a) {
      var e := TokenEntry(columns, a);
      assert e[..0] == [];
      assert CountMapped(e) == if e[0] != Unmapped then 1 else 0;
    }
  }

  /**
   * When every centre atom carries its keys, `token_2_msa_col` has one entry per token:
   * the column of its 1-based key if present, else of its 0-based key, else the
   * sentinel.
   */
  lemma {:induction false} TokenColumnsAt(columns: map<ResidueKey, int>, atoms: seq<Atom>, centres: seq<int>)
    requires AllInRange(atoms, centres)
    requires forall t :: 0 <= t < |centres| ==> HasKeys(AtomAt(atoms, centres[t]).value)
    ensures var cols := TokenColumns(columns, atoms, centres);
            && |cols| == |centres|
            && forall t :: 0 <= t < |centres| ==>
                 cols[t] == Lookup(columns, AtomAt(atoms, centres[t]).value).GetOr(Unmapped)
    decreases |centres|
  {
    if centres != [] {
      var front := centres[..|centres| - 1];
      assert AllInRange(atoms, front);
      assert forall t :: 0 <= t < |front| ==> HasKeys(AtomAt(atoms, front[t]).value) by {
        forall t | 0 <= t < |front| ensures HasKeys(AtomAt(atoms, front[t]).value) {
          assert front[t] == centres[t];
        }
      }
      TokenColumnsAt(columns, atoms, front);
    }
  }

  /** One more token: what the mapping loop appends and counts for it. */
  lemma TokenStep(columns: map<ResidueKey, int>, atoms: seq<Atom>, centres: seq<int>, t: nat, atom: Atom)
    requires t < |centres| && AllInRange(atoms, centres[..t]) && AtomAt(atoms, centres[t]) == Some(atom)
    ensures AllInRange(atoms, centres[..t + 1])
    ensures TokenColumns(columns, atoms, centres[..t + 1])
            == TokenColumns(columns, atoms, centres[..t]) + TokenEntry(columns, atom)
    ensures MappedTokens(columns, atoms, centres[..t + 1])
            == MappedTokens(columns, atoms, centres[..t]) + TokenHit(columns, atom)
  {
    assert centres[..t + 1][..t] == centres[..t];
  }

  /** Every entry is the sentinel or one of the columns the map holds. */
  lemma {:induction false} TokenColumnsBounded(columns: map<ResidueKey, int>, atoms: seq<Atom>, centres: seq<int>, next: int)
    requires AllInRange(atoms, centres)
    requires forall k :: k in columns ==> 0 <= columns[k] < next
    ensures forall t :: 0 <= t < |TokenColumns(columns, atoms, centres)| ==>
              TokenColumns(columns, atoms, centres)[t] == Unmapped || 0 <= TokenColumns(columns, atoms, centres)[t] < next
    decreases |centres|
  {
    if centres != [] {
      var front := centres[..|centres| - 1];
      var last := AtomAt(atoms, centres[|centres| - 1]).value;
      assert AllInRange(atoms, front);
      TokenColumnsBounded(columns, atoms, front, next);
      var e := TokenEntry(columns, last);
      assert forall t :: 0 <= t < |e| ==> e[t] == Unmapped || 0 <= e[t] < next by {
        if HasKeys(last) {
          var l := Lookup(columns, last);
          assert l.Some? ==> 0 <= l.value < next;
        }
      }
      var a := TokenColumns(columns, atoms, front);
      assert TokenColumns(columns, atoms, centres) == a + e;
      forall t | 0 <= t < |a + e| ensures (a + e)[t] == Unmapped || 0 <= (a + e)[t] < next {
        if t < |a| {
          assert (a + e)[t] == a[t];
          assert a[t] == Unmapped || 0 <= a[t] < next;
        } else {
          assert (a + e)[t] == e[t - |a|];
          assert e[t - |a|] == Unmapped || 0 <= e[t - |a|] < next;
        }
      }
    }
  }

  /** The mapping loop over the centre atom indices. */
  /** One run of the mapping loop's body: the entry for one centre atom and whether it matched. */
  method MapToken(columns: map<ResidueKey, int>, atom: Atom) returns (entry: seq<int>, hit: nat)
    ensures entry == TokenEntry(columns, atom) && hit == TokenHit(columns, atom)
  {
    entry, hit := [], 0;
    if atom.residueId.Some? && atom.asymId.Some? {
      var key1 := ResidueKey(atom.asymId.value, atom.residueId.value);
      var key0 := ResidueKey(atom.asymId.value, atom.residueId.value - 1);
      if key1 in columns {
        entry, hit := [columns[key1]], 1;
      } else if key0 in columns {
        entry, hit := [columns[key0]], 1;
      } else {
        entry := [Unmapped];
      }
    }
  }

  method MapTokens(columns: map<ResidueKey, int>, atoms: seq<Atom>, centres: seq<int>)
    returns (inRange: bool, tokenToMsaCol: seq<int>, mappedTokens: nat)
    ensures inRange <==> AllInRange(atoms, centres)
    ensures inRange ==> tokenToMsaCol == TokenColumns(columns, atoms, centres)
    ensures inRange ==> mappedTokens == MappedTokens(columns, atoms, centres)
  {
    tokenToMsaCol := [];
    mappedTokens := 0;
    var t := 0;
    while t < |centres|
      invariant 0 <= t <= |centres|
      invariant AllInRange(atoms, centres[..t])
      invariant tokenToMsaCol == TokenColumns(columns, atoms, centres[..t])
      invariant mappedTokens == MappedTokens(columns, atoms, centres[..t])
    {
      var centre := centres[t];
      if !(-|atoms| <= centre < |atoms|) {
        // atom_array[center_idx] raises IndexError.
        assert !AllInRange(atoms, centres) by {
          assert centres[t] == centre;
        }
        return false, [], 0;
      }
      var atom := if centre >= 0 then atoms[centre] else atoms[|atoms| + centre];
      TokenStep(columns, atoms, centres, t, atom);
      var entry, hit := MapToken(columns, atom);
      tokenToMsaCol := tokenToMsaCol + entry;
      mappedTokens := mappedTokens + hit;
      t := t + 1;
    }
    assert centres[..t] == centres;
    return true, tokenToMsaCol, mappedTokens;
  }

  /**
   * The positional fallback: `list(range(min(n, width)))` followed by the sentinel up
   * to length `n`.
   */
  function PositionalFallback(n: nat, width: nat): seq<int> {
    var m := if n < width then n else width;
    seq(m, i requires 0 <= i < m => i) + seq(n - m, _ => Unmapped)
  }

  /** Token `i` gets column `i` while both exist; every later token gets the sentinel. */
  lemma PositionalFallbackAt(n: nat, width: nat)
    ensures var f := PositionalFallback(n, width);
            && |f| == n
            && (forall i :: 0 <= i < n && i < width ==> f[i] == i)
            && (forall i :: width <= i < n ==> f[i] == Unmapped)
  {
  }

  // ---------------------------------------------------------------------------
  // Residue types
  // ---------------------------------------------------------------------------

  /** `alphabet.index(x)`: the first position holding `x`, or `None` where it raises `ValueError`. */
  function IndexOf(alphabet: seq<string>, x: string): (r: Option<nat>)
    ensures r.None? <==> x !in alphabet
    ensures r.Some? ==> r.value < |alphabet| && alphabet[r.value] == x
    ensures r.Some? ==> forall j :: 0 <= j < r.value ==> alphabet[j] != x
  {
    if alphabet == [] then None
    else if alphabet[0] == x then Some(0)
    else
      var rest := IndexOf(alphabet[1..], x);
      if rest.None? then None else Some(rest.value + 1)
  }

  /** `[rna_order_with_x.index(res) for res in restypes]`, or `None` for an unknown residue. */
  function RestypeCodes(alphabet: seq<string>, restypes: seq<string>): (r: Option<seq<int>>)
    ensures r.None? <==> exists i :: 0 <= i < |restypes| && restypes[i] !in alphabet
    ensures r.Some? ==> |r.value| == |restypes|
    ensures r.Some? ==> forall i :: 0 <= i < |restypes| ==>
              0 <= r.value[i] < |alphabet| && alphabet[r.value[i]] == restypes[i]
  {
    if restypes == [] then Some([])
    else
      var head := IndexOf(alphabet, restypes[0]);
      var tail := RestypeCodes(alphabet, restypes[1..]);
      if head.None? then None
      else if tail.None? then
        assert exists i :: 0 <= i < |restypes| && restypes[i] !in alphabet by {
          var j :| 0 <= j < |restypes[1..]| && restypes[1..][j] !in alphabet;
          assert restypes[j + 1] !in alphabet;
        }
        None
      else
        Some([head.value as int] + tail.value)
  }

  /** `np.pad(codes, (0, n - len(codes)), constant_values=unknown)` when `codes` is shorter than `n`. */
  function PadRestypes(codes: seq<int>, n: nat, unknown: int): (r: seq<int>)
    ensures |r| == if |codes| < n then n else |codes|
    ensures r[..|codes|] == codes
    ensures forall i :: |codes| <= i < |r| ==> r[i] == unknown
  {
    if |codes| < n then codes + seq(n - |codes|, _ => unknown) else codes
  }

  // ---------------------------------------------------------------------------
  // Deletion mean
  // ---------------------------------------------------------------------------

  /** The small constant added to the denominator. */
  const Epsilon: real := 0.0000000001

  /** `np.sum(deletion_value[:, col] * has_deletion[:, col])` over the first `rows` rows. */
  function FlaggedSum(hasDeletion: seq<seq<bool>>, deletionValue: seq<seq<real>>, col: nat, rows: nat): real
    requires rows <= |hasDeletion| && rows <= |deletionValue|
    requires forall r :: 0 <= r < rows ==> col < |hasDeletion[r]| && col < |deletionValue[r]|
  {
    if rows == 0 then 0.0
    else
      FlaggedSum(hasDeletion, deletionValue, col, rows - 1)
      + (if hasDeletion[rows - 1][col] then deletionValue[rows - 1][col] else 0.0)
  }

  /** `np.sum(has_deletion[:, col])` over the first `rows` rows. */
  function FlagCount(hasDeletion: seq<seq<bool>>, col: nat, rows: nat): nat
    requires rows <= |hasDeletion|
    requires forall r :: 0 <= r < rows ==> col < |hasDeletion[r]|
  {
    if rows == 0 then 0
    else FlagCount(hasDeletion, col, rows - 1) + (if hasDeletion[rows - 1][col] then 1 else 0)
  }

  /** The shapes under which the loop raises: missing columns, or row counts that differ. */
  predicate DeletionFault(width: nat, hasDeletion: Matrix<bool>, deletionValue: Matrix<real>) {
    width > 0 && (hasDeletion.width < width || deletionValue.width < width
                  || |hasDeletion.cells| != |deletionValue.cells|)
  }

  /** `deletion_mean[col]`. */
  function ColumnMean(hasDeletion: Matrix<bool>, deletionValue: Matrix<real>, col: nat): real
    requires col < hasDeletion.width && col < deletionValue.width
    requires |hasDeletion.cells| == |deletionValue.cells|
  {
    var rows := |hasDeletion.cells|;
    FlaggedSum(hasDeletion.cells, deletionValue.cells, col, rows)
      / (FlagCount(hasDeletion.cells, col, rows) as real + Epsilon)
  }

  function DeletionMeans(width: nat, hasDeletion: Matrix<bool>, deletionValue: Matrix<real>): (r: seq<real>)
    requires !DeletionFault(width, hasDeletion, deletionValue)
    ensures |r| == width
  {
    seq(width, col requires 0 <= col < width => ColumnMean(hasDeletion, deletionValue, col))
  }

  lemma {:induction false} NoFlagNoSum(hasDeletion: seq<seq<bool>>, deletionValue: seq<seq<real>>, col: nat, rows: nat)
    requires rows <= |hasDeletion| && rows <= |deletionValue|
    requires forall r :: 0 <= r < rows ==> col < |hasDeletion[r]| && col < |deletionValue[r]|
    requires FlagCount(hasDeletion, col, rows) == 0
    ensures FlaggedSum(hasDeletion, deletionValue, col, rows) == 0.0
  {
    if rows > 0 {
      NoFlagNoSum(hasDeletion, deletionValue, col, rows - 1);
    }
  }

  /** A column in which no row is flagged has mean 0: the epsilon keeps the division defined. */
  lemma ZeroColumnMean(hasDeletion: Matrix<bool>, deletionValue: Matrix<real>, col: nat)
    requires col < hasDeletion.width && col < deletionValue.width
    requires |hasDeletion.cells| == |deletionValue.cells|
    requires forall r :: 0 <= r < |hasDeletion.cells| ==> !hasDeletion.cells[r][col]
    ensures ColumnMean(hasDeletion, deletionValue, col) == 0.0
  {
    var rows := |hasDeletion.cells|;
    NoFlagsCounted(hasDeletion.cells, col, rows);
    NoFlagNoSum(hasDeletion.cells, deletionValue.cells, col, rows);
  }

  lemma {:induction false} NoFlagsCounted(hasDeletion: seq<seq<bool>>, col: nat, rows: nat)
    requires rows <= |hasDeletion|
    requires forall r :: 0 <= r < rows ==> col < |hasDeletion[r]| && !hasDeletion[r][col]
    ensures FlagCount(hasDeletion, col, rows) == 0
  {
    if rows > 0 {
      NoFlagsCounted(hasDeletion, col, rows - 1);
    }
  }

  lemma {:induction false} FlaggedSumBounds(hasDeletion: seq<seq<bool>>, deletionValue: seq<seq<real>>, col: nat, rows: nat)
    requires rows <= |hasDeletion| && rows <= |deletionValue|
    requires forall r :: 0 <= r < rows ==> col < |hasDeletion[r]| && col < |deletionValue[r]|
    requires forall r :: 0 <= r < rows ==> 0.0 <= deletionValue[r][col] <= 1.0
    ensures 0.0 <= FlaggedSum(hasDeletion, deletionValue, col, rows) <= FlagCount(hasDeletion, col, rows) as real
  {
    if rows > 0 {
      FlaggedSumBounds(hasDeletion, deletionValue, col, rows - 1);
    }
  }

  /** With deletion values in [0, 1], as normalized magnitudes are, every mean lies in [0, 1). */
  lemma ColumnMeanBounds(hasDeletion: Matrix<bool>, deletionValue: Matrix<real>, col: nat)
    requires col < hasDeletion.width && col < deletionValue.width
    requires |hasDeletion.cells| == |deletionValue.cells|
    requires forall r :: 0 <= r < |deletionValue.cells| ==> 0.0 <= deletionValue.cells[r][col] <= 1.0
    ensures 0.0 <= ColumnMean(hasDeletion, deletionValue, col) < 1.0
  {
    var rows := |hasDeletion.cells|;
    FlaggedSumBounds(hasDeletion.cells, deletionValue.cells, col, rows);
    var num := FlaggedSum(hasDeletion.cells, deletionValue.cells, col, rows);
    var den := FlagCount(hasDeletion.cells, col, rows) as real + Epsilon;
    assert 0.0 <= num < den;
    DivisionBelowOne(num, den);
  }

  lemma DivisionBelowOne(num: real, den: real)
    requires 0.0 <= num < den
    ensures 0.0 <= num / den < 1.0
  {
  }

  /** The column loop that fills `deletion_mean`, starting from `np.zeros`. */
  method ComputeDeletionMean(width: nat, hasDeletion: Matrix<bool>, deletionValue: Matrix<real>)
    returns (deletionMean: array<real>)
    requires !DeletionFault(width, hasDeletion, deletionValue)
    ensures fresh(deletionMean)
    ensures deletionMean[..] == DeletionMeans(width, hasDeletion, deletionValue)
  {
    deletionMean := new real[width](_ => 0.0);
    for col := 0 to width
      invariant forall c :: 0 <= c < col ==> deletionMean[c] == ColumnMean(hasDeletion, deletionValue, c)
    {
      deletionMean[col] := ColumnMean(hasDeletion, deletionValue, col);
    }
  }

  // ---------------------------------------------------------------------------
  // tokenize_msa
  // ---------------------------------------------------------------------------

  /** The three keys without which there is no tokenization. */
  predicate HasRequiredKeys(f: FeatureDict) {
    f.msa.Some? && f.hasDeletion.Some? && f.deletionValue.Some?
  }

  /** `token_2_msa_col`: the identity mapping, or the positional fallback when no token matched. */
  function TokenToMsaCol(policy: Registration, f: FeatureDict, atoms: seq<Atom>, centres: seq<int>): seq<int>
    requires HasRequiredKeys(f) && AllInRange(atoms, centres)
  {
    var columns := ResidueMap(policy, atoms, f.entityIds.GetOr([])).columns;
    if MappedTokens(columns, atoms, centres) == 0 then PositionalFallback(|centres|, f.msa.value.width)
    else TokenColumns(columns, atoms, centres)
  }

  /**
   * What `tokenize_msa(msa_feats, token_array, atom_array)` returns, with
   * `centreAtomIndex` the token annotation (`None` when absent) and `alphabet` the list
   * `rna_order_with_x`. `policy` is the registration rule of the residue map:
   * `BothKeysFree` is the rule the source applies, `PerKey` the corrected one (see
   * `BothKeysFreeFiveResidues` and `PerKeyTokensInOrder`).
   */
  function Tokenized(policy: Registration, f: FeatureDict, centreAtomIndex: Option<seq<int>>, atoms: seq<Atom>, alphabet: seq<string>)
    : Option<TokenizedMsa>
  {
    if f.IsEmpty() || !HasRequiredKeys(f) then None
    else if centreAtomIndex.None? || |centreAtomIndex.value| == 0 then None
    else if !AllInRange(atoms, centreAtomIndex.value) then None
    else
      var msa, hd, dv := f.msa.value, f.hasDeletion.value, f.deletionValue.value;
      var cols := TokenToMsaCol(policy, f, atoms, centreAtomIndex.value);
      var codes := RestypeCodes(alphabet, f.restypes.GetOr([]));
      if codes.None? || DeletionFault(msa.width, hd, dv) then None
      else
        Some(TokenizedMsa(PadRestypes(codes.value, |cols|, |alphabet| - 1), |msa.cells|, |cols|, cols,
                          msa, hd, dv, DeletionMeans(msa.width, hd, dv), f.profile))
  }

  /**
   * The residue map, the mapping loop and the positional fallback: `token_2_msa_col`,
   * or `inRange == false` where `atom_array[center_idx]` raises.
   */
  method ComputeTokenToMsaCol(policy: Registration, f: FeatureDict, atoms: seq<Atom>, centres: seq<int>)
    returns (inRange: bool, tokenToMsaCol: seq<int>)
    requires HasRequiredKeys(f)
    ensures inRange <==> AllInRange(atoms, centres)
    ensures inRange ==> tokenToMsaCol == TokenToMsaCol(policy, f, atoms, centres)
  {
    var columns, next := BuildResidueMap(policy, atoms, f.entityIds.GetOr([]));
    var mappedTokens;
    inRange, tokenToMsaCol, mappedTokens := MapTokens(columns, atoms, centres);
    if inRange && mappedTokens == 0 {
      var width := f.msa.value.width;
      var m := if |centres| < width then |centres| else width;
      tokenToMsaCol := seq(m, i requires 0 <= i < m => i);
      tokenToMsaCol := tokenToMsaCol + seq(|centres| - |tokenToMsaCol|, _ => Unmapped);
    }
  }

  /** `RNAMSAFeaturizer.tokenize_msa`. */
  method TokenizeMsa(policy: Registration, f: FeatureDict, centreAtomIndex: Option<seq<int>>, atoms: seq<Atom>, alphabet: seq<string>)
    returns (r: Option<TokenizedMsa>)
    ensures r == Tokenized(policy, f, centreAtomIndex, atoms, alphabet)
  {
    if f.IsEmpty() {
      return None;
    }
    if !HasRequiredKeys(f) {
      return None;
    }
    if centreAtomIndex.None? || |centreAtomIndex.value| == 0 {
      return None;
    }
    var centres := centreAtomIndex.value;
    var inRange, tokenToMsaCol := ComputeTokenToMsaCol(policy, f, atoms, centres);
    if !inRange {
      return None;
    }
    var codes := RestypeCodes(alphabet, f.restypes.GetOr([]));
    if codes.None? {
      return None;  // rna_order_with_x.index raises ValueError
    }
    var restypes := PadRestypes(codes.value, |tokenToMsaCol|, |alphabet| - 1);
    var msa, hd, dv := f.msa.value, f.hasDeletion.value, f.deletionValue.value;
    if DeletionFault(msa.width, hd, dv) {
      return None;  // numpy raises on the column slices
    }
    var deletionMean := ComputeDeletionMean(msa.width, hd, dv);
    r := Some(TokenizedMsa(restypes, |msa.cells|, |tokenToMsaCol|, tokenToMsaCol,
                           msa, hd, dv, deletionMean[..], f.profile));
  }

  // ---------------------------------------------------------------------------
  // Consecutive residues: the source's rule against the per-key rule
  // ---------------------------------------------------------------------------

  /** The `C4'` atoms of residues `first`, `first + 1`, ..., `first + n - 1` of one chain. */
  function Chain(asymId: string, entityId: string, first: int, n: nat): (r: seq<Atom>)
    ensures |r| == n
  {
    seq(n, j requires 0 <= j < n => Atom(Some(asymId), Some(first + j), CentreAtomName, entityId))
  }

  lemma ChainFront(asymId: string, entityId: string, first: int, n: nat)
    requires n > 0
    ensures Chain(asymId, entityId, first, n)[..n - 1] == Chain(asymId, entityId, first, n - 1)
  {
  }

  /** The map after one more atom. */
  lemma ResidueMapSnoc(policy: Registration, atoms: seq<Atom>, entityIds: seq<string>, n: nat)
    requires 0 < n <= |atoms|
    ensures ResidueMap(policy, atoms[..n], entityIds)
            == Register(policy, ResidueMap(policy, atoms[..n - 1], entityIds), atoms[n - 1], entityIds)
  {
    assert atoms[..n][..n - 1] == atoms[..n - 1];
  }

  /** An eligible atom whose keys are both free takes the next column under both keys. */
  lemma RegisterFresh(policy: Registration, ri: ResidueIndex, a: Atom, entityIds: seq<string>)
    requires Eligible(a, entityIds) && Key1(a) !in ri.columns && Key0(a) !in ri.columns
    ensures Register(policy, ri, a, entityIds) == ResidueIndex(ri.columns[Key0(a) := ri.next][Key1(a) := ri.next], ri.next + 1)
  {
  }

  /** Under the source's rule an atom whose 0-based key is taken changes nothing. */
  lemma RegisterBlocked(ri: ResidueIndex, a: Atom, entityIds: seq<string>)
    requires HasKeys(a) && Key0(a) in ri.columns
    ensures Register(BothKeysFree, ri, a, entityIds) == ri
  {
  }

  /** Under the per-key rule an eligible atom with a new 1-based key takes the next column under it. */
  lemma RegisterShared(ri: ResidueIndex, a: Atom, entityIds: seq<string>)
    requires Eligible(a, entityIds) && Key1(a) !in ri.columns && Key0(a) in ri.columns
    ensures Register(PerKey, ri, a, entityIds) == ResidueIndex(ri.columns[Key1(a) := ri.next], ri.next + 1)
  {
  }

  /**
   * Under the per-key rule a chain of consecutive residues gets columns 0, 1, ..., n - 1
   * in order, residue `first + j` on column `j`, and the map holds only keys of that
   * chain from `first - 1` to `first + n - 1`.
   */
  lemma {:induction false} PerKeyConsecutive(asymId: string, entityId: string, entityIds: seq<string>, first: int, n: nat)
    requires entityId in entityIds
    ensures ResidueMap(PerKey, Chain(asymId, entityId, first, n), entityIds).next == n
    ensures forall r :: first <= r < first + n ==>
              ResidueKey(asymId, r) in ResidueMap(PerKey, Chain(asymId, entityId, first, n), entityIds).columns
              && ResidueMap(PerKey, Chain(asymId, entityId, first, n), entityIds).columns[ResidueKey(asymId, r)] == r - first
    ensures forall k :: k in ResidueMap(PerKey, Chain(asymId, entityId, first, n), entityIds).columns ==>
              k.asymId == asymId && first - 1 <= k.residueId < first + n
    decreases n
  {
    if n > 0 {
      var atoms := Chain(asymId, entityId, first, n);
      ChainFront(asymId, entityId, first, n);
      PerKeyConsecutive(asymId, entityId, entityIds, first, n - 1);
      ResidueMapSnoc(PerKey, atoms, entityIds, n);
      assert atoms[..n] == atoms;
      var before := ResidueMap(PerKey, Chain(asymId, entityId, first, n - 1), entityIds);
      var a := atoms[n - 1];
      assert Key1(a) == ResidueKey(asymId, first + n - 1);
      assert Key0(a) == ResidueKey(asymId, first + n - 2);
      assert Key1(a) !in before.columns;
      if n == 1 {
        RegisterFresh(PerKey, before, a, entityIds);
      } else {
        assert Key0(a) in before.columns;
        RegisterShared(before, a, entityIds);
      }
    }
  }

  /** The positions 0, 1, ..., n - 1 as centre atom indices. */
  function Positions(n: nat): (r: seq<int>)
    ensures |r| == n && forall i :: 0 <= i < n ==> r[i] == i
  {
    seq(n, i requires 0 <= i < n => i)
  }

  /**
   * With the per-key rule, tokens standing on a chain of consecutive residues are
   * mapped to the columns 0, 1, ..., n - 1: token `i` to column `i`.
   */
  lemma PerKeyTokensInOrder(asymId: string, entityId: string, entityIds: seq<string>, first: int, n: nat)
    requires entityId in entityIds
    ensures var atoms := Chain(asymId, entityId, first, n);
            AllInRange(atoms, Positions(n))
            && TokenColumns(ResidueMap(PerKey, atoms, entityIds).columns, atoms, Positions(n)) == Positions(n)
  {
    var atoms := Chain(asymId, entityId, first, n);
    var columns := ResidueMap(PerKey, atoms, entityIds).columns;
    var ps := Positions(n);
    PerKeyConsecutive(asymId, entityId, entityIds, first, n);
    TokenColumnsAt(columns, atoms, ps);
    var cols := TokenColumns(columns, atoms, ps);
    forall i | 0 <= i < n ensures cols[i] == ps[i] {
      assert ps[i] == i;
      var a := AtomAt(atoms, ps[i]).value;
      assert a == atoms[i];
      assert Key1(a) == ResidueKey(asymId, first + i);
      assert Key1(a) in columns && columns[Key1(a)] == i;
    }
  }

  /**
   * Under the source's rule the second residue of a chain is never registered: its
   * 0-based key is the first residue's 1-based key. Both tokens then land on column 0.
   */
  lemma BothKeysFreeCollides(asymId: string, entityId: string, entityIds: seq<string>, first: int)
    requires entityId in entityIds
    ensures var atoms := Chain(asymId, entityId, first, 2);
            AllInRange(atoms, Positions(2))
            && ResidueMap(BothKeysFree, atoms, entityIds).next == 1
            && TokenColumns(ResidueMap(BothKeysFree, atoms, entityIds).columns, atoms, Positions(2)) == [0, 0]
  {
    var atoms := Chain(asymId, entityId, first, 2);
    var a0, a1 := atoms[0], atoms[1];
    ResidueMapSnoc(BothKeysFree, atoms, entityIds, 1);
    assert atoms[..0] == [];
    RegisterFresh(BothKeysFree, ResidueIndex(map[], 0), a0, entityIds);
    var one := ResidueMap(BothKeysFree, atoms[..1], entityIds);
    assert one == ResidueIndex(map[][Key0(a0) := 0][Key1(a0) := 0], 1);
    ResidueMapSnoc(BothKeysFree, atoms, entityIds, 2);
    assert Key0(a1) == Key1(a0);
    RegisterBlocked(one, a1, entityIds);
    assert atoms[..2] == atoms;
    var two := ResidueMap(BothKeysFree, atoms, entityIds);
    assert two == one;
    TokenColumnsAt(two.columns, atoms, Positions(2));
    var cols := TokenColumns(two.columns, atoms, Positions(2));
    assert Positions(2)[0] == 0 && Positions(2)[1] == 1;
    assert cols[0] == 0 && cols[1] == 0;
  }

  /**
   * The chain `Chain("A", "1", 1, 5)` under the source's rule: the tokens are mapped
   * to `[0, 1, 1, 2, 2]` rather than `[0, 1, 2, 3, 4]`.
   */
  lemma BothKeysFreeFiveResidues()
    ensures var atoms := Chain("A", "1", 1, 5);
            AllInRange(atoms, Positions(5))
            && TokenColumns(ResidueMap(BothKeysFree, atoms, ["1"]).columns, atoms, Positions(5)) == [0, 1, 1, 2, 2]
  {
    var atoms := Chain("A", "1", 1, 5);
    var ids := ["1"];
    var m := ResidueMap(BothKeysFree, atoms, ids).columns;
    FiveResiduesMap(atoms, ids);
    TokenColumnsAt(m, atoms, Positions(5));
    var cols := TokenColumns(m, atoms, Positions(5));
    forall i | 0 <= i < 5 ensures cols[i] == [0, 1, 1, 2, 2][i] {
      assert Positions(5)[i] == i;
      assert Key1(AtomAt(atoms, i).value) == ResidueKey("A", i + 1);
    }
  }

  /**
   * End to end: `tokenize_msa` on the chain `Chain("A", "1", 1, 5)` whose tokens stand
   * on its five residues returns `token_2_msa_col == [0, 1, 1, 2, 2]` under the
   * source's rule, where the per-key rule returns `[0, 1, 2, 3, 4]`.
   */
  lemma TokenizedFiveResidues(f: FeatureDict, alphabet: seq<string>)
    requires f.entityIds == Some(["1"])
    requires Tokenized(BothKeysFree, f, Some(Positions(5)), Chain("A", "1", 1, 5), alphabet).Some?
    ensures Tokenized(BothKeysFree, f, Some(Positions(5)), Chain("A", "1", 1, 5), alphabet).value.tokenToMsaCol
            == [0, 1, 1, 2, 2]
    ensures Tokenized(PerKey, f, Some(Positions(5)), Chain("A", "1", 1, 5), alphabet).Some?
    ensures Tokenized(PerKey, f, Some(Positions(5)), Chain("A", "1", 1, 5), alphabet).value.tokenToMsaCol
            == [0, 1, 2, 3, 4]
  {
    FreeFiveColumns(f);
    PerKeyFiveColumns(f);
  }

  lemma FreeFiveColumns(f: FeatureDict)
    requires HasRequiredKeys(f) && f.entityIds == Some(["1"])
    ensures AllInRange(Chain("A", "1", 1, 5), Positions(5))
    ensures TokenToMsaCol(BothKeysFree, f, Chain("A", "1", 1, 5), Positions(5)) == [0, 1, 1, 2, 2]
  {
    var atoms, ids, ps := Chain("A", "1", 1, 5), ["1"], Positions(5);
    BothKeysFreeFiveResidues();
    var free := ResidueMap(BothKeysFree, atoms, ids).columns;
    ResidueMapBounded(BothKeysFree, atoms, ids);
    MappedTokensCountsHits(free, atoms, ps);
    assert CountMapped(TokenColumns(free, atoms, ps)) > 0;
  }

  lemma PerKeyFiveColumns(f: FeatureDict)
    requires HasRequiredKeys(f) && f.entityIds == Some(["1"])
    ensures AllInRange(Chain("A", "1", 1, 5), Positions(5))
    ensures TokenToMsaCol(PerKey, f, Chain("A", "1", 1, 5), Positions(5)) == [0, 1, 2, 3, 4]
  {
    var atoms, ids, ps := Chain("A", "1", 1, 5), ["1"], Positions(5);
    PerKeyTokensInOrder("A", "1", ids, 1, 5);
    var per := ResidueMap(PerKey, atoms, ids).columns;
    ResidueMapBounded(PerKey, atoms, ids);
    MappedTokensCountsHits(per, atoms, ps);
    assert ps == [0, 1, 2, 3, 4];
    assert CountMapped(TokenColumns(per, atoms, ps)) > 0;
  }

  lemma FiveResiduesMap(atoms: seq<Atom>, ids: seq<string>)
    requires atoms == Chain("A", "1", 1, 5) && ids == ["1"]
    ensures var m := ResidueMap(BothKeysFree, atoms, ids).columns;
            && ResidueKey("A", 1) in m && ResidueKey("A", 2) in m && ResidueKey("A", 3) in m
            && ResidueKey("A", 4) in m && ResidueKey("A", 5) in m
            && m[ResidueKey("A", 1)] == 0 && m[ResidueKey("A", 2)] == 1 && m[ResidueKey("A", 3)] == 1
            && m[ResidueKey("A", 4)] == 2 && m[ResidueKey("A", 5)] == 2
  {
    FourResiduesMap(atoms, ids);
    var a5 := atoms[4];
    assert Key1(a5) == ResidueKey("A", 5) && Key0(a5) == ResidueKey("A", 4);
    var r4 := ResidueMap(BothKeysFree, atoms[..4], ids);
    assert "1" in ids;
    ResidueMapSnoc(BothKeysFree, atoms, ids, 5);
    RegisterFresh(BothKeysFree, r4, a5, ids);
    assert atoms[..5] == atoms;
  }

  /** The first four residues of the chain `Chain("A", "1", 1, 5)`: residue 4 is skipped as well. */
  lemma FourResiduesMap(atoms: seq<Atom>, ids: seq<string>)
    requires atoms == Chain("A", "1", 1, 5) && ids == ["1"]
    ensures var r := ResidueMap(BothKeysFree, atoms[..4], ids);
            && r.next == 2
            && ResidueKey("A", 1) in r.columns && ResidueKey("A", 2) in r.columns && ResidueKey("A", 3) in r.columns
            && r.columns[ResidueKey("A", 1)] == 0 && r.columns[ResidueKey("A", 2)] == 1
            && r.columns[ResidueKey("A", 3)] == 1
            && ResidueKey("A", 4) !in r.columns && ResidueKey("A", 5) !in r.columns
  {
    ThreeResiduesMap(atoms, ids);
    var a4 := atoms[3];
    assert Key0(a4) == ResidueKey("A", 3);
    var r3 := ResidueMap(BothKeysFree, atoms[..3], ids);
    ResidueMapSnoc(BothKeysFree, atoms, ids, 4);
    RegisterBlocked(r3, a4, ids);
  }

  /** The first three residues of the chain `Chain("A", "1", 1, 5)`: residue 2 is skipped. */
  lemma ThreeResiduesMap(atoms: seq<Atom>, ids: seq<string>)
    requires atoms == Chain("A", "1", 1, 5) && ids == ["1"]
    ensures var r := ResidueMap(BothKeysFree, atoms[..3], ids);
            && r.next == 2
            && ResidueKey("A", 1) in r.columns && ResidueKey("A", 2) in r.columns && ResidueKey("A", 3) in r.columns
            && r.columns[ResidueKey("A", 1)] == 0 && r.columns[ResidueKey("A", 2)] == 1
            && r.columns[ResidueKey("A", 3)] == 1
            && ResidueKey("A", 4) !in r.columns && ResidueKey("A", 5) !in r.columns
  {
    TwoResiduesMap(atoms, ids);
    var a3 := atoms[2];
    assert Key1(a3) == ResidueKey("A", 3) && Key0(a3) == ResidueKey("A", 2);
    assert "1" in ids;
    var r2 := ResidueMap(BothKeysFree, atoms[..2], ids);
    ResidueMapSnoc(BothKeysFree, atoms, ids, 3);
    RegisterFresh(BothKeysFree, r2, a3, ids);
  }

  /** The first two residues of the chain `Chain("A", "1", 1, 5)`: only residue 1 is registered. */
  lemma TwoResiduesMap(atoms: seq<Atom>, ids: seq<string>)
    requires atoms == Chain("A", "1", 1, 5) && ids == ["1"]
    ensures var r := ResidueMap(BothKeysFree, atoms[..2], ids);
            && r.next == 1
            && ResidueKey("A", 1) in r.columns && r.columns[ResidueKey("A", 1)] == 0
            && forall k :: k in r.columns ==> k.asymId == "A" && 0 <= k.residueId <= 1
  {
    assert "1" in ids;
    assert atoms[..0] == [];
    var a1, a2 := atoms[0], atoms[1];
    assert Key1(a1) == ResidueKey("A", 1) && Key0(a1) == ResidueKey("A", 0);
    assert Key0(a2) == ResidueKey("A", 1);
    ResidueMapSnoc(BothKeysFree, atoms, ids, 1);
    RegisterFresh(BothKeysFree, ResidueIndex(map[], 0), a1, ids);
    var r1 := ResidueMap(BothKeysFree, atoms[..1], ids);
    ResidueMapSnoc(BothKeysFree, atoms, ids, 2);
    RegisterBlocked(r1, a2, ids);
  }

  // ---------------------------------------------------------------------------
  // What tokenize_msa promises
  // ---------------------------------------------------------------------------

  /**
   * No result exactly when the features are empty or lack `msa`, `has_deletion` or
   * `deletion_value`, when the centre atom indices are absent, empty or out of range,
   * when a residue type is not in the alphabet, or when the deletion arrays do not fit
   * the alignment.
   */
  lemma TokenizedNone(policy: Registration, f: FeatureDict, centreAtomIndex: Option<seq<int>>, atoms: seq<Atom>, alphabet: seq<string>)
    ensures Tokenized(policy, f, centreAtomIndex, atoms, alphabet).None? <==>
              || f.IsEmpty() || !HasRequiredKeys(f)
              || centreAtomIndex.None? || |centreAtomIndex.value| == 0
              || !AllInRange(atoms, centreAtomIndex.value)
              || (exists i :: 0 <= i < |f.restypes.GetOr([])| && f.restypes.GetOr([])[i] !in alphabet)
              || DeletionFault(f.msa.value.width, f.hasDeletion.value, f.deletionValue.value)
  {
  }

  /**
   * A result passes `msa`, `has_deletion`, `deletion_value` and `profile` through
   * unchanged, has as many columns as `token_2_msa_col` has entries and as many rows as
   * the alignment, one deletion mean per alignment column, and residue types that start
   * with the given codes and are padded with the last code up to the token count,
   * never cut.
   */
  lemma TokenizedShape(policy: Registration, f: FeatureDict, centreAtomIndex: Option<seq<int>>, atoms: seq<Atom>, alphabet: seq<string>)
    requires Tokenized(policy, f, centreAtomIndex, atoms, alphabet).Some?
    ensures var t := Tokenized(policy, f, centreAtomIndex, atoms, alphabet).value;
            var codes := RestypeCodes(alphabet, f.restypes.GetOr([])).value;
            && t.msa == f.msa.value && t.hasDeletion == f.hasDeletion.value
            && t.deletionValue == f.deletionValue.value && t.profile == f.profile
            && t.msaCols == |t.tokenToMsaCol| && t.msaRows == |f.msa.value.cells|
            && |t.deletionMean| == f.msa.value.width
            && |t.origRestypes| == (if |codes| < t.msaCols then t.msaCols else |codes|)
            && t.origRestypes[..|codes|] == codes
            && (forall i :: |codes| <= i < |t.origRestypes| ==> t.origRestypes[i] == |alphabet| - 1)
  {
  }

  /** A deletion mean of 0 for every column in which no row is flagged. */
  lemma TokenizedZeroColumns(policy: Registration, f: FeatureDict, centreAtomIndex: Option<seq<int>>, atoms: seq<Atom>, alphabet: seq<string>, col: nat)
    requires Tokenized(policy, f, centreAtomIndex, atoms, alphabet).Some?
    requires col < f.msa.value.width
    requires forall r :: 0 <= r < |f.hasDeletion.value.cells| ==> !f.hasDeletion.value.cells[r][col]
    ensures Tokenized(policy, f, centreAtomIndex, atoms, alphabet).value.deletionMean[col] == 0.0
  {
    ZeroColumnMean(f.hasDeletion.value, f.deletionValue.value, col);
  }

  /**
   * When no token matched, `token_2_msa_col` is the positional mapping: one entry per
   * centre atom index, token `i` on column `i` while both exist, the sentinel after.
   */
  lemma TokenizedFallback(policy: Registration, f: FeatureDict, centreAtomIndex: Option<seq<int>>, atoms: seq<Atom>, alphabet: seq<string>)
    requires Tokenized(policy, f, centreAtomIndex, atoms, alphabet).Some?
    requires MappedTokens(ResidueMap(policy, atoms, f.entityIds.GetOr([])).columns, atoms, centreAtomIndex.value) == 0
    ensures var cols := Tokenized(policy, f, centreAtomIndex, atoms, alphabet).value.tokenToMsaCol;
            var n, width := |centreAtomIndex.value|, f.msa.value.width;
            && |cols| == n
            && (forall i :: 0 <= i < n && i < width ==> cols[i] == i)
            && (forall i :: width <= i < n ==> cols[i] == Unmapped)
  {
    PositionalFallbackAt(|centreAtomIndex.value|, f.msa.value.width);
  }

  /**
   * When some token matched, `token_2_msa_col` holds, for each token whose centre atom
   * carries its keys, the looked-up column or the sentinel; the number of tokens that
   * matched is the number of entries that are not the sentinel; and every such entry
   * is a column handed out by the residue map.
   */
  lemma TokenizedIdentity(policy: Registration, f: FeatureDict, centreAtomIndex: Option<seq<int>>, atoms: seq<Atom>, alphabet: seq<string>)
    requires Tokenized(policy, f, centreAtomIndex, atoms, alphabet).Some?
    requires forall t :: 0 <= t < |centreAtomIndex.value| ==> HasKeys(AtomAt(atoms, centreAtomIndex.value[t]).value)
    requires MappedTokens(ResidueMap(policy, atoms, f.entityIds.GetOr([])).columns, atoms, centreAtomIndex.value) > 0
    ensures var ri := ResidueMap(policy, atoms, f.entityIds.GetOr([]));
            var cs := centreAtomIndex.value;
            var cols := Tokenized(policy, f, centreAtomIndex, atoms, alphabet).value.tokenToMsaCol;
            && |cols| == |cs|
            && (forall t :: 0 <= t < |cs| ==> cols[t] == Lookup(ri.columns, AtomAt(atoms, cs[t]).value).GetOr(Unmapped))
            && (forall t :: 0 <= t < |cs| ==> cols[t] == Unmapped || 0 <= cols[t] < ri.next)
            && CountMapped(cols) == MappedTokens(ri.columns, atoms, cs)
  {
    var ids := f.entityIds.GetOr([]);
    var ri := ResidueMap(policy, atoms, ids);
    var cs := centreAtomIndex.value;
    assert Tokenized(policy, f, centreAtomIndex, atoms, alphabet).value.tokenToMsaCol == TokenColumns(ri.columns, atoms, cs);
    ResidueMapBounded(policy, atoms, ids);
    TokenColumnsAt(ri.columns, atoms, cs);
    TokenColumnsBounded(ri.columns, atoms, cs, ri.next);
    MappedTokensCountsHits(ri.columns, atoms, cs);
  }
}
