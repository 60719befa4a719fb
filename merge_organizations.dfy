/**
 * The `merge_organizations` management command: a prescriber organization is
 * merged into another one by re-parenting the rows of four tables (job
 * applications, memberships, eligibility diagnoses, invitations) and deleting
 * the source organization, all inside one database transaction.
 */
module PrescriberMerge {
  import opened Wrappers

  type OrganizationId = int
  type UserId = int

  datatype PrescriberOrganization = PrescriberOrganization(siret: string, name: string)

  /** A job application; its sender organization is NULL when the sender is not a prescriber. */
  datatype JobApplication = JobApplication(id: nat, senderPrescriberOrganization: Option<OrganizationId>)

  datatype PrescriberMembership = PrescriberMembership(id: nat, user: UserId, organization: OrganizationId, isAdmin: bool)

  /** An eligibility diagnosis; its author organization is NULL when it was made by an employer. */
  datatype EligibilityDiagnosis = EligibilityDiagnosis(id: nat, authorPrescriberOrganization: Option<OrganizationId>)

  datatype PrescriberWithOrgInvitation = PrescriberWithOrgInvitation(id: nat, email: string, organization: OrganizationId)

  /** The writes performed inside the transaction, in the order the command performs them. */
  datatype MergeStep = UpdateJobApplications | UpdateMemberships | UpdateDiagnoses | UpdateInvitations | DeleteSource

  datatype MergeError =
    | SameOrganization(id: OrganizationId)  // the ValueError raised when source and destination coincide
    | DoesNotExist(id: OrganizationId)      // `PrescriberOrganization.DoesNotExist` raised by `objects.get`
    | TransactionFailed(step: MergeStep)    // a write refused by the database; the transaction is rolled back

  /** The content of the five tables the command touches. */
  datatype Tables = Tables(
    organizations: map<OrganizationId, PrescriberOrganization>,
    jobApplications: seq<JobApplication>,
    memberships: seq<PrescriberMembership>,
    diagnoses: seq<EligibilityDiagnosis>,
    invitations: seq<PrescriberWithOrgInvitation>)

  /** The job applications with every one sent by organization `fromId` now sent by `toId`. */
  function MoveJobApplications(rows: seq<JobApplication>, fromId: OrganizationId, toId: OrganizationId): (r: seq<JobApplication>)
    ensures |r| == |rows|
    ensures forall i :: 0 <= i < |rows| && rows[i].senderPrescriberOrganization == Some(fromId) ==>
              r[i] == rows[i].(senderPrescriberOrganization := Some(toId))
    ensures forall i :: 0 <= i < |rows| && rows[i].senderPrescriberOrganization != Some(fromId) ==> r[i] == rows[i]
  {
    if rows == [] then []
    else
      var head := if rows[0].senderPrescriberOrganization == Some(fromId)
                  then rows[0].(senderPrescriberOrganization := Some(toId)) else rows[0];
      [head] + MoveJobApplications(rows[1..], fromId, toId)
  }

  /** The eligibility diagnoses with every one authored by organization `fromId` now authored by `toId`. */
  function MoveDiagnoses(rows: seq<EligibilityDiagnosis>, fromId: OrganizationId, toId: OrganizationId): (r: seq<EligibilityDiagnosis>)
    ensures |r| == |rows|
    ensures forall i :: 0 <= i < |rows| && rows[i].authorPrescriberOrganization == Some(fromId) ==>
              r[i] == rows[i].(authorPrescriberOrganization := Some(toId))
    ensures forall i :: 0 <= i < |rows| && rows[i].authorPrescriberOrganization != Some(fromId) ==> r[i] == rows[i]
  {
    if rows == [] then []
    else
      var head := if rows[0].authorPrescriberOrganization == Some(fromId)
                  then rows[0].(authorPrescriberOrganization := Some(toId)) else rows[0];
      [head] + MoveDiagnoses(rows[1..], fromId, toId)
  }

  /** The invitations with every one to organization `fromId` now to `toId`. */
  function MoveInvitations(rows: seq<PrescriberWithOrgInvitation>, fromId: OrganizationId, toId: OrganizationId): (r: seq<PrescriberWithOrgInvitation>)
    ensures |r| == |rows|
    ensures forall i :: 0 <= i < |rows| && rows[i].organization == fromId ==> r[i] == rows[i].(organization := toId)
    ensures forall i :: 0 <= i < |rows| && rows[i].organization != fromId ==> r[i] == rows[i]
  {
    if rows == [] then []
    else
      var head := if rows[0].organization == fromId then rows[0].(organization := toId) else rows[0];
      [head] + MoveInvitations(rows[1..], fromId, toId)
  }

  /** The users holding a membership of `organization`. */
  function MembersOf(memberships: seq<PrescriberMembership>, organization: OrganizationId): set<UserId>
  {
    set m | m in memberships && m.organization == organization :: m.user
  }

  /** Re-parents to `toId` every membership of `fromId` whose user is not in `excluded`. */
  function ReparentMemberships(memberships: seq<PrescriberMembership>, fromId: OrganizationId, toId: OrganizationId, excluded: set<UserId>): (r: seq<PrescriberMembership>)
    ensures |r| == |memberships|
    ensures forall i :: 0 <= i < |memberships| && memberships[i].organization == fromId && memberships[i].user !in excluded ==>
              r[i] == memberships[i].(organization := toId)
    ensures forall i :: 0 <= i < |memberships| && !(memberships[i].organization == fromId && memberships[i].user !in excluded) ==>
              r[i] == memberships[i]
  {
    if memberships == [] then []
    else
      var m := memberships[0];
      var head := if m.organization == fromId && m.user !in excluded then m.(organization := toId) else m;
      [head] + ReparentMemberships(memberships[1..], fromId, toId, excluded)
  }

  /**
   * The memberships with every membership of `fromId` whose user is not yet a member of `toId`
   * moved to `toId`; the memberships of users already in `toId` stay on `fromId`.
   * The exclusion is a sub-query of the same UPDATE statement, so it is evaluated against the
   * table as it was before the update.
   */
  function MoveMemberships(memberships: seq<PrescriberMembership>, fromId: OrganizationId, toId: OrganizationId): (r: seq<PrescriberMembership>)
    ensures |r| == |memberships|
    ensures forall i :: 0 <= i < |memberships| && memberships[i].organization == fromId && memberships[i].user !in MembersOf(memberships, toId) ==>
              r[i] == memberships[i].(organization := toId)
    ensures forall i :: 0 <= i < |memberships| && !(memberships[i].organization == fromId && memberships[i].user !in MembersOf(memberships, toId)) ==>
              r[i] == memberships[i]
  {
    ReparentMemberships(memberships, fromId, toId, MembersOf(memberships, toId))
  }

  /** No user holds two memberships of the same organization. */
  ghost predicate OneMembershipPerOrganization(memberships: seq<PrescriberMembership>)
  {
    forall i, j :: 0 <= i < j < |memberships| ==>
      memberships[i].user != memberships[j].user || memberships[i].organization != memberships[j].organization
  }

  /** Moving the memberships never gives a user a second membership of the destination. */
  lemma MoveMembershipsKeepsOneMembershipPerOrganization(memberships: seq<PrescriberMembership>, fromId: OrganizationId, toId: OrganizationId)
    requires OneMembershipPerOrganization(memberships)
    ensures OneMembershipPerOrganization(MoveMemberships(memberships, fromId, toId))
  {
    var r := MoveMemberships(memberships, fromId, toId);
    var destination := MembersOf(memberships, toId);
    forall i, j | 0 <= i < j < |r|
      ensures r[i].user != r[j].user || r[i].organization != r[j].organization
    {
      var a, b := memberships[i], memberships[j];
      var movedA := a.organization == fromId && a.user !in destination;
      var movedB := b.organization == fromId && b.user !in destination;
      if movedA && !movedB && b.organization == toId {
        assert b in memberships;
        assert b.user in destination;
      } else if movedB && !movedA && a.organization == toId {
        assert a in memberships;
        assert a.user in destination;
      }
    }
  }

  /**
   * After the move, the destination's members are its former members plus the source's;
   * the source keeps exactly the members it shared with the destination; every other
   * organization keeps its members.
   */
  lemma MoveMembershipsMembers(memberships: seq<PrescriberMembership>, fromId: OrganizationId, toId: OrganizationId)
    requires fromId != toId
    ensures MembersOf(MoveMemberships(memberships, fromId, toId), toId) == MembersOf(memberships, toId) + MembersOf(memberships, fromId)
    ensures MembersOf(MoveMemberships(memberships, fromId, toId), fromId) == MembersOf(memberships, fromId) * MembersOf(memberships, toId)
    ensures forall organization :: organization != fromId && organization != toId ==>
              MembersOf(MoveMemberships(memberships, fromId, toId), organization) == MembersOf(memberships, organization)
  {
    var r := MoveMemberships(memberships, fromId, toId);
    var destination := MembersOf(memberships, toId);
    // Every row of the result comes from the row at the same position.
    forall m | m in r
      ensures exists i :: 0 <= i < |memberships| && r[i] == m
    {
      var i :| 0 <= i < |r| && r[i] == m;
    }
    forall u | u in MembersOf(memberships, toId) + MembersOf(memberships, fromId)
      ensures u in MembersOf(r, toId)
    {
      var m :| m in memberships && (m.organization == toId || m.organization == fromId) && m.user == u;
      var i :| 0 <= i < |memberships| && memberships[i] == m;
      assert r[i] in r;
      if m.organization == fromId && u in destination {
        var d :| d in memberships && d.organization == toId && d.user == u;
        var k :| 0 <= k < |memberships| && memberships[k] == d;
        assert r[k] in r;
      }
    }
    forall u | u in MembersOf(memberships, fromId) * MembersOf(memberships, toId)
      ensures u in MembersOf(r, fromId)
    {
      var m :| m in memberships && m.organization == fromId && m.user == u;
      var i :| 0 <= i < |memberships| && memberships[i] == m;
      assert r[i] in r;
    }
    forall organization | organization != fromId && organization != toId
      ensures MembersOf(memberships, organization) <= MembersOf(r, organization)
    {
      forall u | u in MembersOf(memberships, organization)
        ensures u in MembersOf(r, organization)
      {
        var m :| m in memberships && m.organization == organization && m.user == u;
        var i :| 0 <= i < |memberships| && memberships[i] == m;
        assert r[i] in r;
      }
    }
  }

  /** The memberships whose organization is not `organization`, in their order. */
  function MembershipsOutside(memberships: seq<PrescriberMembership>, organization: OrganizationId): (r: seq<PrescriberMembership>)
    ensures |r| <= |memberships|
    ensures forall m :: m in r <==> m in memberships && m.organization != organization
  {
    if memberships == [] then []
    else
      (if memberships[0].organization != organization then [memberships[0]] else [])
      + MembershipsOutside(memberships[1..], organization)
  }

  /** Leaving out the rows of one organization does not change the members of another. */
  lemma MembersOfOutside(memberships: seq<PrescriberMembership>, left: OrganizationId, organization: OrganizationId)
    requires organization != left
    ensures MembersOf(MembershipsOutside(memberships, left), organization) == MembersOf(memberships, organization)
  {
  }

  /**
   * `after` is what `organization_merge_into(fromId, toId)` commits from `before`: the source
   * organization row is deleted, the job applications, diagnoses and invitations are moved, and
   * the memberships that are not attached to the source are those the membership update leaves
   * outside it. The memberships still attached to the source when it is deleted are not
   * constrained: what the delete does to them depends on the foreign key's deletion rule.
   */
  ghost predicate CommittedMerge(before: Tables, after: Tables, fromId: OrganizationId, toId: OrganizationId)
  {
    && after.organizations == before.organizations - {fromId}
    && after.jobApplications == MoveJobApplications(before.jobApplications, fromId, toId)
    && MembershipsOutside(after.memberships, fromId) ==
         MembershipsOutside(MoveMemberships(before.memberships, fromId, toId), fromId)
    && after.diagnoses == MoveDiagnoses(before.diagnoses, fromId, toId)
    && after.invitations == MoveInvitations(before.invitations, fromId, toId)
  }

  /**
   * What a committed merge guarantees: the source organization is gone and the destination is
   * kept; no job application, diagnosis or invitation refers to the source; the destination's
   * members are its former members plus the source's; every other organization keeps its members.
   */
  lemma CommittedMergeProperties(before: Tables, after: Tables, fromId: OrganizationId, toId: OrganizationId)
    requires fromId != toId
    requires CommittedMerge(before, after, fromId, toId)
    ensures fromId !in after.organizations
    ensures toId in before.organizations ==> toId in after.organizations
    ensures forall a :: a in after.jobApplications ==> a.senderPrescriberOrganization != Some(fromId)
    ensures forall d :: d in after.diagnoses ==> d.authorPrescriberOrganization != Some(fromId)
    ensures forall v :: v in after.invitations ==> v.organization != fromId
    ensures MembersOf(after.memberships, toId) == MembersOf(before.memberships, toId) + MembersOf(before.memberships, fromId)
    ensures forall organization :: organization != fromId && organization != toId ==>
              MembersOf(after.memberships, organization) == MembersOf(before.memberships, organization)
  {
    forall a | a in after.jobApplications
      ensures a.senderPrescriberOrganization != Some(fromId)
    {
      var i :| 0 <= i < |after.jobApplications| && after.jobApplications[i] == a;
    }
    forall d | d in after.diagnoses
      ensures d.authorPrescriberOrganization != Some(fromId)
    {
      var i :| 0 <= i < |after.diagnoses| && after.diagnoses[i] == d;
    }
    forall v | v in after.invitations
      ensures v.organization != fromId
    {
      var i :| 0 <= i < |after.invitations| && after.invitations[i] == v;
    }
    var moved := MoveMemberships(before.memberships, fromId, toId);
    MoveMembershipsMembers(before.memberships, fromId, toId);
    MembersOfOutside(after.memberships, fromId, toId);
    MembersOfOutside(moved, fromId, toId);
    forall organization | organization != fromId && organization != toId
      ensures MembersOf(after.memberships, organization) == MembersOf(before.memberships, organization)
    {
      MembersOfOutside(after.memberships, fromId, organization);
      MembersOfOutside(moved, fromId, organization);
    }
  }

  class PrescriberDatabase {
    var organizations: map<OrganizationId, PrescriberOrganization>
    var jobApplications: seq<JobApplication>
    var memberships: seq<PrescriberMembership>
    var diagnoses: seq<EligibilityDiagnosis>
    var invitations: seq<PrescriberWithOrgInvitation>

    ghost predicate Valid()
      reads this
    {
      OneMembershipPerOrganization(memberships)
    }

    function Snapshot(): (t: Tables)
      reads this
    {
      Tables(organizations, jobApplications, memberships, diagnoses, invitations)
    }

    constructor (initial: Tables)
      requires OneMembershipPerOrganization(initial.memberships)
      ensures Valid() && Snapshot() == initial
    {
      organizations := initial.organizations;
      jobApplications := initial.jobApplications;
      memberships := initial.memberships;
      diagnoses := initial.diagnoses;
      invitations := initial.invitations;
    }

    /** Rolls the tables back to a savepoint, as a failed `transaction.atomic()` block does. */
    method Rollback(savepoint: Tables, step: MergeStep) returns (outcome: Outcome<MergeError>)
      requires OneMembershipPerOrganization(savepoint.memberships)
      modifies this
      ensures Valid()
      ensures Snapshot() == savepoint
      ensures outcome == Fail(TransactionFailed(step))
    {
      organizations := savepoint.organizations;
      jobApplications := savepoint.jobApplications;
      memberships := savepoint.memberships;
      diagnoses := savepoint.diagnoses;
      invitations := savepoint.invitations;
      outcome := Fail(TransactionFailed(step));
    }

    /**
     * `organization_merge_into(fromId, toId)`. The database's own refusal of a write inside the
     * transaction (a constraint, a protected foreign key) is not visible in the command: it is the
     * parameter `failingStep`, the first write the database refuses, if any.
     */
    method MergeInto(fromId: OrganizationId, toId: OrganizationId, failingStep: Option<MergeStep>) returns (outcome: Outcome<MergeError>)
      requires Valid()
      modifies this
      ensures Valid()
      // The guards, checked in the command's order, before anything is written.
      ensures fromId == toId ==> outcome == Fail(SameOrganization(fromId))
      ensures fromId != toId && fromId !in old(organizations) ==> outcome == Fail(DoesNotExist(fromId))
      ensures fromId != toId && fromId in old(organizations) && toId !in old(organizations) ==>
                outcome == Fail(DoesNotExist(toId))
      ensures fromId != toId && fromId in old(organizations) && toId in old(organizations) && failingStep.Some? ==>
                outcome == Fail(TransactionFailed(failingStep.value))
      ensures outcome.Pass? <==> fromId != toId && fromId in old(organizations) && toId in old(organizations) && failingStep.None?
      // All or nothing.
      ensures outcome.Fail? ==> Snapshot() == old(Snapshot())
      ensures outcome.Pass? ==> CommittedMerge(old(Snapshot()), Snapshot(), fromId, toId)
      ensures outcome.Pass? ==> fromId !in organizations && toId in organizations
      ensures outcome.Pass? ==>
                && (forall a :: a in jobApplications ==> a.senderPrescriberOrganization != Some(fromId))
                && (forall d :: d in diagnoses ==> d.authorPrescriberOrganization != Some(fromId))
                && (forall v :: v in invitations ==> v.organization != fromId)
      ensures outcome.Pass? ==>
                MembersOf(memberships, toId) == old(MembersOf(memberships, toId) + MembersOf(memberships, fromId))
    {
      if fromId == toId {
        return Fail(SameOrganization(fromId));
      }
      if fromId !in organizations {
        return Fail(DoesNotExist(fromId));
      }
      if toId !in organizations {
        return Fail(DoesNotExist(toId));
      }

      var savepoint := Snapshot();
      MoveMembershipsKeepsOneMembershipPerOrganization(memberships, fromId, toId);
      var committed := Tables(organizations - {fromId}, MoveJobApplications(jobApplications, fromId, toId),
                              MoveMemberships(memberships, fromId, toId), MoveDiagnoses(diagnoses, fromId, toId),
                              MoveInvitations(invitations, fromId, toId));
      CommittedMergeProperties(savepoint, committed, fromId, toId);

      jobApplications := MoveJobApplications(jobApplications, fromId, toId);
      if failingStep == Some(UpdateJobApplications) {
        outcome := Rollback(savepoint, UpdateJobApplications);
        return;
      }
      memberships := MoveMemberships(memberships, fromId, toId);
      if failingStep == Some(UpdateMemberships) {
        outcome := Rollback(savepoint, UpdateMemberships);
        return;
      }
      diagnoses := MoveDiagnoses(diagnoses, fromId, toId);
      if failingStep == Some(UpdateDiagnoses) {
        outcome := Rollback(savepoint, UpdateDiagnoses);
        return;
      }
      invitations := MoveInvitations(invitations, fromId, toId);
      if failingStep == Some(UpdateInvitations) {
        outcome := Rollback(savepoint, UpdateInvitations);
        return;
      }
      organizations := organizations - {fromId};
      if failingStep == Some(DeleteSource) {
        outcome := Rollback(savepoint, DeleteSource);
        return;
      }
      assert failingStep.None? by {
        if failingStep.Some? {
          match failingStep.value
          case UpdateJobApplications =>
          case UpdateMemberships =>
          case UpdateDiagnoses =>
          case UpdateInvitations =>
          case DeleteSource =>
        }
      }
      outcome := Pass;
    }
  }
}
