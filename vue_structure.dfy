/**
 * The "Vue Structure" export of the ASP: one row per structure (asp_id). The rows are
 * filtered, validated, and turned into three lookup dictionaries used to reconcile the
 * export with the SIAEs already known.
 */
module VueStructure {
  import opened Wrappers

  type AspId = int

  /** One row of the export, after the columns have been renamed. */
  datatype VueStructureRow = VueStructureRow(
    aspId: AspId,
    siret: string,           // current SIRET
    siretSignature: string,  // SIRET at the signature of the convention
    authEmail: Option<string>,
    naf: string,
    name: string)

  datatype LoadError =
    | InvalidSiret(value: string)
    | InvalidNaf(value: string)
    | AuthEmailHasSpace(email: string)
    | AuthEmailWithoutAt(email: string)
    | SirenMismatch(siret: string, siretSignature: string)
    | DuplicateAspId(aspId: AspId)

  /** Python's `s[:9]`: the first nine characters, or all of them when there are fewer. */
  function Prefix9(s: string): (r: string)
    ensures |s| >= 9 ==> |r| == 9
    ensures |s| < 9 ==> r == s
    ensures r <= s
  {
    if |s| >= 9 then s[..9] else s
  }

  /** A row is kept when its technical-contact email is neither NULL nor empty. */
  predicate HasAuthEmail(row: VueStructureRow)
  {
    row.authEmail.Some? && row.authEmail.value != ""
  }

  /** The rows whose technical-contact email is present and not empty, in their original order. */
  function DropRowsWithoutAuthEmail(rows: seq<VueStructureRow>): (r: seq<VueStructureRow>)
    ensures |r| <= |rows|
    ensures forall row :: row in r <==> row in rows && HasAuthEmail(row)
  {
    if rows == [] then []
    else (if HasAuthEmail(rows[0]) then [rows[0]] else []) + DropRowsWithoutAuthEmail(rows[1..])
  }

  /** The filter keeps the relative order of the rows: it distributes over concatenation. */
  lemma {:induction false} DropRowsWithoutAuthEmailDistributes(a: seq<VueStructureRow>, b: seq<VueStructureRow>)
    ensures DropRowsWithoutAuthEmail(a + b) == DropRowsWithoutAuthEmail(a) + DropRowsWithoutAuthEmail(b)
  {
    if a == [] {
      assert a + b == b;
    } else {
      assert (a + b)[1..] == a[1..] + b;
      DropRowsWithoutAuthEmailDistributes(a[1..], b);
    }
  }

  /** A single row is kept exactly when it has an email; with the lemma above this determines the filter. */
  lemma DropRowsWithoutAuthEmailSingleton(row: VueStructureRow)
    ensures DropRowsWithoutAuthEmail([row]) == if HasAuthEmail(row) then [row] else []
  {
    assert [row][1..] == [];
  }

  /**
   * The first check of the validation loop that `row` fails, in the loop's order, if any.
   * `validSiret` and `validNaf` stand for the project's `validate_siret` and `validate_naf`.
   */
  function RowError(row: VueStructureRow, validSiret: string -> bool, validNaf: string -> bool): (e: Option<LoadError>)
    requires HasAuthEmail(row)
    ensures e.None? <==>
              && validSiret(row.siret) && validSiret(row.siretSignature) && validNaf(row.naf)
              && ' ' !in row.authEmail.value && '@' in row.authEmail.value
              && Prefix9(row.siret) == Prefix9(row.siretSignature)
    // The checks run in the loop's order, and the first one to fail is reported.
    ensures !validSiret(row.siret) ==> e == Some(InvalidSiret(row.siret))
    ensures validSiret(row.siret) && !validSiret(row.siretSignature) ==> e == Some(InvalidSiret(row.siretSignature))
    ensures validSiret(row.siret) && validSiret(row.siretSignature) && !validNaf(row.naf) ==> e == Some(InvalidNaf(row.naf))
    ensures validSiret(row.siret) && validSiret(row.siretSignature) && validNaf(row.naf) && ' ' in row.authEmail.value ==>
              e == Some(AuthEmailHasSpace(row.authEmail.value))
    ensures validSiret(row.siret) && validSiret(row.siretSignature) && validNaf(row.naf) &&
              ' ' !in row.authEmail.value && '@' !in row.authEmail.value ==>
              e == Some(AuthEmailWithoutAt(row.authEmail.value))
    ensures validSiret(row.siret) && validSiret(row.siretSignature) && validNaf(row.naf) &&
              ' ' !in row.authEmail.value && '@' in row.authEmail.value &&
              Prefix9(row.siret) != Prefix9(row.siretSignature) ==>
              e == Some(SirenMismatch(row.siret, row.siretSignature))
  {
    var email := row.authEmail.value;
    if !validSiret(row.siret) then Some(InvalidSiret(row.siret))
    else if !validSiret(row.siretSignature) then Some(InvalidSiret(row.siretSignature))
    else if !validNaf(row.naf) then Some(InvalidNaf(row.naf))
    else if ' ' in email then Some(AuthEmailHasSpace(email))
    else if '@' !in email then Some(AuthEmailWithoutAt(email))
    else if Prefix9(row.siret) != Prefix9(row.siretSignature) then Some(SirenMismatch(row.siret, row.siretSignature))
    else None
  }

  /**
   * `get_vue_structure_df` without the file loading: rows without an email are dropped, then
   * every remaining row is validated and the first failure aborts the whole load.
   */
  method GetVueStructureRows(rows: seq<VueStructureRow>, validSiret: string -> bool, validNaf: string -> bool)
    returns (r: Result<seq<VueStructureRow>, LoadError>)
    ensures r.Success? <==>
              forall i :: 0 <= i < |DropRowsWithoutAuthEmail(rows)| ==>
                RowError(DropRowsWithoutAuthEmail(rows)[i], validSiret, validNaf).None?
    ensures r.Success? ==> r.value == DropRowsWithoutAuthEmail(rows)
    ensures r.Failure? ==>
              exists i :: 0 <= i < |DropRowsWithoutAuthEmail(rows)| &&
                RowError(DropRowsWithoutAuthEmail(rows)[i], validSiret, validNaf) == Some(r.error) &&
                forall j :: 0 <= j < i ==> RowError(DropRowsWithoutAuthEmail(rows)[j], validSiret, validNaf).None?
  {
    var df := DropRowsWithoutAuthEmail(rows);
    for i := 0 to |df|
      invariant forall j :: 0 <= j < i ==> RowError(df[j], validSiret, validNaf).None?
    {
      var e := RowError(df[i], validSiret, validNaf);
      if e.Some? {
        assert !RowError(DropRowsWithoutAuthEmail(rows)[i], validSiret, validNaf).None?;
        return Failure(e.value);
      }
    }
    r := Success(df);
  }

  /** The asp_ids of the first `k` rows. */
  ghost function AspIds(rows: seq<VueStructureRow>, k: nat): set<AspId>
    requires k <= |rows|
  {
    set i | 0 <= i < k :: rows[i].aspId
  }

  /** The first `k` rows have pairwise distinct asp_ids. */
  ghost predicate DistinctAspIds(rows: seq<VueStructureRow>, k: nat)
    requires k <= |rows|
  {
    forall i, j :: 0 <= i < j < k ==> rows[i].aspId != rows[j].aspId
  }

  /** `get_asp_id_to_siae_row`: fails on a repeated asp_id, otherwise maps each asp_id to its row. */
  method GetAspIdToSiaeRow(rows: seq<VueStructureRow>) returns (r: Result<map<AspId, VueStructureRow>, LoadError>)
    ensures r.Success? <==> DistinctAspIds(rows, |rows|)
    ensures r.Success? ==> r.value.Keys == AspIds(rows, |rows|)
    ensures r.Success? ==> forall i :: 0 <= i < |rows| ==> r.value[rows[i].aspId] == rows[i]
    ensures r.Failure? ==>
              r.error.DuplicateAspId? &&
              exists i, j :: 0 <= i < j < |rows| && rows[i].aspId == rows[j].aspId == r.error.aspId
  {
    var aspIdToSiaeRow: map<AspId, VueStructureRow> := map[];
    for k := 0 to |rows|
      invariant aspIdToSiaeRow.Keys == AspIds(rows, k)
      invariant forall i :: 0 <= i < k ==> rows[i].aspId in aspIdToSiaeRow && aspIdToSiaeRow[rows[i].aspId] == rows[i]
      invariant DistinctAspIds(rows, k)
    {
      var row := rows[k];
      if row.aspId in aspIdToSiaeRow {
        var i :| 0 <= i < k && rows[i].aspId == row.aspId;
        return Failure(DuplicateAspId(row.aspId));
      }
      aspIdToSiaeRow := aspIdToSiaeRow[row.aspId := row];
    }
    return Success(aspIdToSiaeRow);
  }

  /** `get_asp_id_to_siret_signature`: same guard, each asp_id maps to its row's signature SIRET. */
  method GetAspIdToSiretSignature(rows: seq<VueStructureRow>) returns (r: Result<map<AspId, string>, LoadError>)
    ensures r.Success? <==> DistinctAspIds(rows, |rows|)
    ensures r.Success? ==> r.value.Keys == AspIds(rows, |rows|)
    ensures r.Success? ==> forall i :: 0 <= i < |rows| ==> r.value[rows[i].aspId] == rows[i].siretSignature
    ensures r.Failure? ==>
              r.error.DuplicateAspId? &&
              exists i, j :: 0 <= i < j < |rows| && rows[i].aspId == rows[j].aspId == r.error.aspId
  {
    var aspIdToSiretSignature: map<AspId, string> := map[];
    for k := 0 to |rows|
      invariant aspIdToSiretSignature.Keys == AspIds(rows, k)
      invariant forall i :: 0 <= i < k ==>
                  rows[i].aspId in aspIdToSiretSignature && aspIdToSiretSignature[rows[i].aspId] == rows[i].siretSignature
      invariant DistinctAspIds(rows, k)
    {
      var row := rows[k];
      if row.aspId in aspIdToSiretSignature {
        var i :| 0 <= i < k && rows[i].aspId == row.aspId;
        return Failure(DuplicateAspId(row.aspId));
      }
      aspIdToSiretSignature := aspIdToSiretSignature[row.aspId := row.siretSignature];
    }
    return Success(aspIdToSiretSignature);
  }

  /** The current SIRETs of the first `k` rows. */
  function CurrentSirets(rows: seq<VueStructureRow>, k: nat): set<string>
    requires k <= |rows|
  {
    set i | 0 <= i < k :: rows[i].siret
  }

  /** The signature SIRETs of the first `k` rows. */
  function SignatureSirets(rows: seq<VueStructureRow>, k: nat): set<string>
    requires k <= |rows|
  {
    set i | 0 <= i < k :: rows[i].siretSignature
  }

  /** The last of the first `k` rows whose current SIRET is `siret`. */
  function LastCurrentRow(rows: seq<VueStructureRow>, siret: string, k: nat): (last: Option<nat>)
    requires k <= |rows|
    ensures last.Some? ==>
              last.value < k && rows[last.value].siret == siret &&
              forall j :: last.value < j < k ==> rows[j].siret != siret
    ensures last.None? <==> siret !in CurrentSirets(rows, k)
  {
    if k == 0 then None
    else if rows[k - 1].siret == siret then Some(k - 1)
    else LastCurrentRow(rows, siret, k - 1)
  }

  /** The first of the first `k` rows whose signature SIRET is `siret`. */
  function FirstSignatureRow(rows: seq<VueStructureRow>, siret: string, k: nat): (first: Option<nat>)
    requires k <= |rows|
    ensures first.Some? ==>
              first.value < k && rows[first.value].siretSignature == siret &&
              forall j :: 0 <= j < first.value ==> rows[j].siretSignature != siret
    ensures first.None? <==> siret !in SignatureSirets(rows, k)
  {
    if k == 0 then None
    else
      var earlier := FirstSignatureRow(rows, siret, k - 1);
      if earlier.Some? then earlier
      else if rows[k - 1].siretSignature == siret then Some(k - 1)
      else None
  }

  /** One iteration of `get_siret_to_asp_id`: the current SIRET overwrites, the signature only fills a gap. */
  function AddRow(siretToAspId: map<string, AspId>, row: VueStructureRow): (next: map<string, AspId>)
    ensures next.Keys == siretToAspId.Keys + {row.siret, row.siretSignature}
    ensures next[row.siret] == row.aspId
    ensures row.siretSignature != row.siret ==>
              next[row.siretSignature] == if row.siretSignature in siretToAspId then siretToAspId[row.siretSignature] else row.aspId
    ensures forall siret :: siret in siretToAspId && siret != row.siret && siret != row.siretSignature ==>
              next[siret] == siretToAspId[siret]
  {
    var current := siretToAspId[row.siret := row.aspId];
    if row.siretSignature !in current then current[row.siretSignature := row.aspId] else current
  }

  lemma SiretSetsGrow(rows: seq<VueStructureRow>, k: nat)
    requires k < |rows|
    ensures CurrentSirets(rows, k + 1) == CurrentSirets(rows, k) + {rows[k].siret}
    ensures SignatureSirets(rows, k + 1) == SignatureSirets(rows, k) + {rows[k].siretSignature}
  {
  }

  /**
   * What `siret_to_asp_id` holds for `siret` after the first `k` rows: a current SIRET maps to
   * the asp_id of its last row; a SIRET seen only as a signature maps to the asp_id of its first row.
   */
  ghost predicate SiretEntryMeaning(rows: seq<VueStructureRow>, k: nat, siretToAspId: map<string, AspId>, siret: string)
    requires k <= |rows| && siret in siretToAspId
  {
    var last := LastCurrentRow(rows, siret, k);
    var first := FirstSignatureRow(rows, siret, k);
    && (last.Some? ==> siretToAspId[siret] == rows[last.value].aspId)
    && (last.None? ==> first.Some? && siretToAspId[siret] == rows[first.value].aspId)
  }

  /** What `siret_to_asp_id` holds after the first `k` rows. */
  ghost predicate SiretMapInvariant(rows: seq<VueStructureRow>, k: nat, siretToAspId: map<string, AspId>)
    requires k <= |rows|
  {
    && siretToAspId.Keys == CurrentSirets(rows, k) + SignatureSirets(rows, k)
    && forall siret :: siret in siretToAspId ==> SiretEntryMeaning(rows, k, siretToAspId, siret)
  }

  /**
   * `get_siret_to_asp_id`: both SIRETs of every row are keys; the current SIRET overwrites,
   * the signature SIRET only fills a missing key.
   */
  method GetSiretToAspId(rows: seq<VueStructureRow>) returns (siretToAspId: map<string, AspId>)
    ensures siretToAspId.Keys == CurrentSirets(rows, |rows|) + SignatureSirets(rows, |rows|)
    // A current SIRET maps to the asp_id of the last row carrying it as current SIRET ...
    ensures forall i :: 0 <= i < |rows| && (forall j :: i < j < |rows| ==> rows[j].siret != rows[i].siret) ==>
              siretToAspId[rows[i].siret] == rows[i].aspId
    // ... and a SIRET that is no row's current SIRET maps to the first row carrying it as signature.
    ensures forall i :: 0 <= i < |rows| &&
                        (forall j :: 0 <= j < |rows| ==> rows[j].siret != rows[i].siretSignature) &&
                        (forall j :: 0 <= j < i ==> rows[j].siretSignature != rows[i].siretSignature) ==>
              siretToAspId[rows[i].siretSignature] == rows[i].aspId
  {
    siretToAspId := map[];
    for k := 0 to |rows|
      invariant SiretMapInvariant(rows, k, siretToAspId)
    {
      var row := rows[k];
      SiretMapStep(rows, k, siretToAspId);
      ghost var previous := siretToAspId;
      siretToAspId := siretToAspId[row.siret := row.aspId];
      if row.siretSignature !in siretToAspId {
        siretToAspId := siretToAspId[row.siretSignature := row.aspId];
      }
      assert siretToAspId == AddRow(previous, row);
    }
    SiretMapMeaning(rows, siretToAspId);
  }

  /** Once every row is read, `SiretMapInvariant` says what `GetSiretToAspId` promises. */
  lemma SiretMapMeaning(rows: seq<VueStructureRow>, siretToAspId: map<string, AspId>)
    requires SiretMapInvariant(rows, |rows|, siretToAspId)
    ensures siretToAspId.Keys == CurrentSirets(rows, |rows|) + SignatureSirets(rows, |rows|)
    ensures forall i :: 0 <= i < |rows| && (forall j :: i < j < |rows| ==> rows[j].siret != rows[i].siret) ==>
              siretToAspId[rows[i].siret] == rows[i].aspId
    ensures forall i :: 0 <= i < |rows| &&
                        (forall j :: 0 <= j < |rows| ==> rows[j].siret != rows[i].siretSignature) &&
                        (forall j :: 0 <= j < i ==> rows[j].siretSignature != rows[i].siretSignature) ==>
              siretToAspId[rows[i].siretSignature] == rows[i].aspId
  {
    SiretMapKeys(rows, siretToAspId);
    forall i | 0 <= i < |rows| && (forall j :: i < j < |rows| ==> rows[j].siret != rows[i].siret)
      ensures siretToAspId[rows[i].siret] == rows[i].aspId
    {
      SiretMapCurrent(rows, siretToAspId, i);
    }
    forall i | 0 <= i < |rows| &&
               (forall j :: 0 <= j < |rows| ==> rows[j].siret != rows[i].siretSignature) &&
               (forall j :: 0 <= j < i ==> rows[j].siretSignature != rows[i].siretSignature)
      ensures siretToAspId[rows[i].siretSignature] == rows[i].aspId
    {
      SiretMapSignature(rows, siretToAspId, i);
    }
  }

  lemma SiretMapKeys(rows: seq<VueStructureRow>, siretToAspId: map<string, AspId>)
    requires SiretMapInvariant(rows, |rows|, siretToAspId)
    ensures siretToAspId.Keys == CurrentSirets(rows, |rows|) + SignatureSirets(rows, |rows|)
  {
  }

  /** The last row carrying a current SIRET gives its asp_id. */
  lemma SiretMapCurrent(rows: seq<VueStructureRow>, siretToAspId: map<string, AspId>, i: nat)
    requires SiretMapInvariant(rows, |rows|, siretToAspId)
    requires i < |rows| && forall j :: i < j < |rows| ==> rows[j].siret != rows[i].siret
    ensures rows[i].siret in siretToAspId && siretToAspId[rows[i].siret] == rows[i].aspId
  {
    var siret := rows[i].siret;
    assert siret in CurrentSirets(rows, |rows|);
    assert SiretEntryMeaning(rows, |rows|, siretToAspId, siret);
    assert LastCurrentRow(rows, siret, |rows|) == Some(i);
  }

  /** A SIRET that is only a signature takes the asp_id of the first row carrying it. */
  lemma SiretMapSignature(rows: seq<VueStructureRow>, siretToAspId: map<string, AspId>, i: nat)
    requires SiretMapInvariant(rows, |rows|, siretToAspId)
    requires i < |rows|
    requires forall j :: 0 <= j < |rows| ==> rows[j].siret != rows[i].siretSignature
    requires forall j :: 0 <= j < i ==> rows[j].siretSignature != rows[i].siretSignature
    ensures rows[i].siretSignature in siretToAspId && siretToAspId[rows[i].siretSignature] == rows[i].aspId
  {
    var siret := rows[i].siretSignature;
    assert siret in SignatureSirets(rows, |rows|);
    assert SiretEntryMeaning(rows, |rows|, siretToAspId, siret);
    assert LastCurrentRow(rows, siret, |rows|).None?;
    assert FirstSignatureRow(rows, siret, |rows|) == Some(i);
  }

  /** One iteration of the loop of `GetSiretToAspId` keeps `SiretMapInvariant`. */
  lemma SiretMapStep(rows: seq<VueStructureRow>, k: nat, siretToAspId: map<string, AspId>)
    requires k < |rows|
    requires SiretMapInvariant(rows, k, siretToAspId)
    ensures SiretMapInvariant(rows, k + 1, AddRow(siretToAspId, rows[k]))
  {
    var next := AddRow(siretToAspId, rows[k]);
    SiretSetsGrow(rows, k);
    forall siret | siret in next
      ensures SiretEntryMeaning(rows, k + 1, next, siret)
    {
      if siret in siretToAspId {
        assert SiretEntryMeaning(rows, k, siretToAspId, siret);
      }
      SiretEntryStep(rows, k, siretToAspId, siret);
    }
  }

  /** `SiretMapStep` for one key. */
  lemma SiretEntryStep(rows: seq<VueStructureRow>, k: nat, siretToAspId: map<string, AspId>, siret: string)
    requires k < |rows|
    requires siretToAspId.Keys == CurrentSirets(rows, k) + SignatureSirets(rows, k)
    requires siret in siretToAspId ==> SiretEntryMeaning(rows, k, siretToAspId, siret)
    requires siret in AddRow(siretToAspId, rows[k])
    ensures SiretEntryMeaning(rows, k + 1, AddRow(siretToAspId, rows[k]), siret)
  {
    var row := rows[k];
    if siret == row.siret {
    } else if siret == row.siretSignature && siret !in siretToAspId {
      assert LastCurrentRow(rows, siret, k).None?;
      assert FirstSignatureRow(rows, siret, k).None?;
    } else {
      assert LastCurrentRow(rows, siret, k + 1) == LastCurrentRow(rows, siret, k);
    }
  }
}
