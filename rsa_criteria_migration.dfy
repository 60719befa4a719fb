/**
 * Data migration 0008 of the eligibility app: the administrative criterion
 * "Bénéficiaire du RSA (socle)" is renamed "Bénéficiaire du RSA", and back when the
 * migration is unapplied.
 */
module RsaCriteriaMigration {

  const OLD_NAME := "Bénéficiaire du RSA (socle)"
  const NEW_NAME := "Bénéficiaire du RSA"

  /** A row of the `AdministrativeCriteria` table; only its name is touched here. */
  datatype AdministrativeCriterion = AdministrativeCriterion(id: nat, level: string, name: string)

  /** The criteria with every one named `from` renamed to `to`; the others, and the order, are kept. */
  function Renamed(rows: seq<AdministrativeCriterion>, from: string, to: string): (r: seq<AdministrativeCriterion>)
    ensures |r| == |rows|
    ensures forall i :: 0 <= i < |rows| && rows[i].name == from ==> r[i] == rows[i].(name := to)
    ensures forall i :: 0 <= i < |rows| && rows[i].name != from ==> r[i] == rows[i]
    ensures from != to ==> forall i :: 0 <= i < |r| ==> r[i].name != from
  {
    if rows == [] then []
    else [if rows[0].name == from then rows[0].(name := to) else rows[0]] + Renamed(rows[1..], from, to)
  }

  /** Renaming twice is renaming once. */
  lemma {:induction false} RenamedIdempotent(rows: seq<AdministrativeCriterion>, from: string, to: string)
    ensures Renamed(Renamed(rows, from, to), from, to) == Renamed(rows, from, to)
  {
    var once := Renamed(rows, from, to);
    var twice := Renamed(once, from, to);
    assert |twice| == |once|;
    forall i | 0 <= i < |once|
      ensures twice[i] == once[i]
    {
      if rows[i].name == from && from != to {
        assert once[i].name == to;
      }
    }
  }

  /** Renaming back undoes the rename when no row had the target name beforehand. */
  lemma {:induction false} RenamedBackRestores(rows: seq<AdministrativeCriterion>, from: string, to: string)
    requires forall i :: 0 <= i < |rows| ==> rows[i].name != to
    ensures Renamed(Renamed(rows, from, to), to, from) == rows
  {
    var there := Renamed(rows, from, to);
    var back := Renamed(there, to, from);
    assert |back| == |rows|;
    forall i | 0 <= i < |rows|
      ensures back[i] == rows[i]
    {
      if rows[i].name == from {
        assert there[i].name == to;
      }
    }
  }

  /** The `AdministrativeCriteria` table the migration runs against. */
  class AdministrativeCriteriaTable {
    var rows: seq<AdministrativeCriterion>

    constructor (initial: seq<AdministrativeCriterion>)
      ensures rows == initial
    {
      rows := initial;
    }

    /** `migrate_data_forward` */
    method MigrateDataForward()
      modifies this
      ensures rows == Renamed(old(rows), OLD_NAME, NEW_NAME)
      ensures forall i :: 0 <= i < |rows| ==> rows[i].name != OLD_NAME
    {
      rows := Renamed(rows, OLD_NAME, NEW_NAME);
    }

    /** `migrate_data_backward` */
    method MigrateDataBackward()
      modifies this
      ensures rows == Renamed(old(rows), NEW_NAME, OLD_NAME)
      ensures forall i :: 0 <= i < |rows| ==> rows[i].name != NEW_NAME
    {
      rows := Renamed(rows, NEW_NAME, OLD_NAME);
    }

    /** `RunPython(migrate_data_forward, migrate_data_backward)` applied, then unapplied. */
    method ApplyThenUnapply()
      requires forall i :: 0 <= i < |rows| ==> rows[i].name != NEW_NAME
      modifies this
      ensures rows == old(rows)
    {
      RenamedBackRestores(rows, OLD_NAME, NEW_NAME);
      MigrateDataForward();
      MigrateDataBackward();
    }
  }
}
