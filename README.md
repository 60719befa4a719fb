# itou core, modelled in Dafny

This project is a Dafny model of six pieces of the itou platform. Itou is the French inclusion-employment service. It connects structures of "insertion par l'activité économique" (SIAE), prescriber organizations and job seekers. The six pieces are:

1. **Merging prescriber organizations.** The `merge_organizations` management command moves every row that refers to a source organization over to a destination organization, inside one transaction, and then deletes the source. The rows moved are job applications, memberships, eligibility diagnoses and invitations. The membership of a user who is already a member of the destination is not moved, so no user gets a second membership of the destination. What deleting the source does to the memberships still attached to it depends on the foreign key's deletion rule; the model says nothing about them.
2. **The ASP "Vue Structure" import.** These helpers filter and validate the rows of the DGEFP/ASP structure export. From those rows they build three lookup tables: asp_id to row, asp_id to siret_signature, and SIRET to asp_id. In the last table a row's current SIRET takes precedence over a siret_signature.
3. **E-mail helpers.** This covers collapsing runs of three or more line breaks, building a message with a "[DEMO] " subject prefix, the dummy asynchronous backend, and how messages are serialized for the task queue and read back.
4. **SIAE query sets and model.** This covers the geographic `within` filter with its ascending-distance order, the manager that keeps only the test departments, the prefetch of active jobs by (rank, short name), and the string form `"<siret> <name>"`.
5. **The city model.** This covers the display name, latitude and longitude, the region lookup, and the manager that keeps only the test departments.
6. **The data migration that renames the RSA administrative criterion.** It runs forward and backward.

The modules are `PrescriberMerge`, `VueStructure`, `Emails`, `Siaes`, `Cities` and `RsaCriteriaMigration`. They share `Wrappers` (Option, Result, Outcome), `Geo` (a point), `Sequences` (one fact about concatenation) and `QuerySets`. `QuerySets` is a generic model of a Django `filter(...)`, given as the multiset of kept rows, and of `order_by(...)`, given as a sorted permutation.

Some behaviour is passed in as parameters:
- the SIRET and NAF validators (`validSiret`, `validNaf`);
- the geodesic distance function;
- the configured test departments;
- the deployment environment name;
- the region table;
- an optional step that the database refuses (`failingStep`) during the merge transaction.

Template rendering is outside the model. `GetEmailMessage` receives the subject and body already rendered and stripped.

A few places call for comment:
- **Help text of the merge command.** It mentions a mode without a destination organization. The code makes `--to` required and has no such mode, so the model follows the code (`itou/prescribers/management/commands/merge_organizations.py:15-20` against lines 79-86).
- **Memberships left on the source.** The merge moves only the memberships whose user is not yet a member of the destination. This is computed from the memberships table as it stood before the update, because the source issues one SQL `UPDATE` with a sub-query. The other memberships of the source are still attached to it when it is deleted. The deletion rule of that foreign key is not part of this model, so the merge's contract constrains only the memberships that are not attached to the source.

## Model

| member | source | states |
|---|---|---|
| PrescriberMerge.MoveJobApplications | itou/prescribers/management/commands/merge_organizations.py:37 | Row by row: every job application sent by the source organization is now sent by the destination, and every other job application is unchanged. |
| PrescriberMerge.MoveMemberships | itou/prescribers/management/commands/merge_organizations.py:41-43 | A membership of the source organization moves to the destination exactly when its user is not already a member of the destination. Every other membership is unchanged. |
| PrescriberMerge.ReparentMemberships | itou/prescribers/management/commands/merge_organizations.py:61 | Row by row: a membership of the source whose user is not excluded gets the destination as its organization. All other rows stay as they were. |
| PrescriberMerge.MoveDiagnoses | itou/prescribers/management/commands/merge_organizations.py:46 | Row by row: every eligibility diagnosis authored by the source organization is now authored by the destination, and the others are unchanged. |
| PrescriberMerge.MoveInvitations | itou/prescribers/management/commands/merge_organizations.py:49 | Row by row: every invitation to the source organization now invites to the destination, and the others are unchanged. |
| PrescriberMerge.MoveMembershipsKeepsOneMembershipPerOrganization | itou/prescribers/management/commands/merge_organizations.py:40-43 | If no user has two memberships in the same organization before the move, none has two afterwards either. This is why the command excludes the destination's members. |
| PrescriberMerge.MoveMembershipsMembers | itou/prescribers/management/commands/merge_organizations.py:40-43 | After the move: the destination's members are the union of both organizations' members; the only source members left are those the destination already had; every other organization keeps exactly its members. |
| PrescriberMerge.MembershipsOutside | itou/prescribers/management/commands/merge_organizations.py:64 | The memberships not attached to a given organization: a membership is kept exactly when it is in the table and belongs to another organization. |
| PrescriberMerge.MembersOfOutside | itou/prescribers/management/commands/merge_organizations.py:64 | Leaving out one organization's memberships does not change the members of any other organization. |
| PrescriberMerge.CommittedMergeProperties | itou/prescribers/management/commands/merge_organizations.py:59-64 | For any committed merge (`CommittedMerge`): the source organization is deleted and the destination is kept; no job application, eligibility diagnosis or invitation refers to the source; the destination's members are its former members plus the source's; every other organization keeps exactly its members. This holds whatever the delete does to the memberships still attached to the source. |
| PrescriberMerge.PrescriberDatabase.Rollback | itou/prescribers/management/commands/merge_organizations.py:59 | Leaving `transaction.atomic` on an error restores every table to the savepoint and reports which step failed. A savepoint with one membership per user and organization gives a valid database. |
| PrescriberMerge.PrescriberDatabase.MergeInto | itou/prescribers/management/commands/merge_organizations.py:23-64 | The guards run in the command's order (same id, missing source, missing destination). The merge succeeds exactly when the ids differ, both organizations exist and no step is refused. Any failure leaves every table unchanged. On success the new tables are a committed merge of the old ones (`CommittedMerge`): only the source organization is removed; job applications, diagnoses and invitations are their Move function of the old table; the memberships not attached to the source are those the membership update leaves outside it. Also on success: no job application, diagnosis or invitation refers to the source; the destination's members are the union; the one-membership-per-organization invariant is kept. |
| VueStructure.Prefix9 | itou/siaes/management/commands/_import_siae/vue_structure.py:86 | Python's `s[:9]`: the first nine characters, or the whole string when it is shorter. |
| VueStructure.DropRowsWithoutAuthEmail | itou/siaes/management/commands/_import_siae/vue_structure.py:76-78 | A row is kept exactly when its auth_email is present and not empty. The result is never longer than the input. |
| VueStructure.DropRowsWithoutAuthEmailDistributes | itou/siaes/management/commands/_import_siae/vue_structure.py:76-78 | The filter distributes over concatenation, so it keeps the export's row order. |
| VueStructure.DropRowsWithoutAuthEmailSingleton | itou/siaes/management/commands/_import_siae/vue_structure.py:76-78 | A single row is kept exactly when it has an auth_email. |
| VueStructure.RowError | itou/siaes/management/commands/_import_siae/vue_structure.py:80-86 | A row is rejected exactly when one of the six checks fails: valid siret, valid siret_signature, valid NAF, no space in the auth_email, an "@" in the auth_email, same SIREN (first nine characters) in both SIRETs. For each of the six checks, a row that passes the earlier ones and fails that one gets that check's error (two SIRETs that differ in their SIREN give SirenMismatch with both), in the source's order. |
| VueStructure.GetVueStructureRows | itou/siaes/management/commands/_import_siae/vue_structure.py:76-88 | The load succeeds exactly when every kept row passes all checks, and it then returns the kept rows. Otherwise it fails with the error of the first kept row that does not pass. |
| VueStructure.GetAspIdToSiaeRow | itou/siaes/management/commands/_import_siae/vue_structure.py:95-103 | Succeeds exactly when the asp_ids are pairwise distinct. The keys are then exactly the rows' asp_ids, and each maps to its own row. A failure names an asp_id that two rows share. |
| VueStructure.GetAspIdToSiretSignature | itou/siaes/management/commands/_import_siae/vue_structure.py:110-118 | Succeeds exactly when the asp_ids are pairwise distinct. The keys are then exactly the asp_ids, and each maps to its row's siret_signature. A failure names a shared asp_id. |
| VueStructure.LastCurrentRow | itou/siaes/management/commands/_import_siae/vue_structure.py:148-149 | Among the first k rows: the last row whose current SIRET is the given one, or nothing when no such row exists. |
| VueStructure.FirstSignatureRow | itou/siaes/management/commands/_import_siae/vue_structure.py:155-156 | Among the first k rows: the first row whose siret_signature is the given one, or nothing when no such row exists. |
| VueStructure.AddRow | itou/siaes/management/commands/_import_siae/vue_structure.py:148-156 | One row read into the map: the keys gain both of the row's SIRETs. The current SIRET maps to the row's asp_id. The signature SIRET keeps an earlier value when it already had one. Every other key keeps its value. |
| VueStructure.SiretEntryStep | itou/siaes/management/commands/_import_siae/vue_structure.py:148-156 | Reading one more row keeps the meaning of each SIRET key, whether it is the row's current SIRET, the row's signature, or a key read earlier. |
| VueStructure.SiretMapStep | itou/siaes/management/commands/_import_siae/vue_structure.py:148-156 | One iteration of the loop keeps the map's meaning for one more row: a current SIRET overrides, and a siret_signature is only added when the SIRET is missing. |
| VueStructure.SiretMapMeaning | itou/siaes/management/commands/_import_siae/vue_structure.py:145-157 | Once every row is processed, a SIRET that is some row's current SIRET maps to the asp_id of the last such row. Any other SIRET maps to the asp_id of the first row that has it as siret_signature. |
| VueStructure.SiretMapKeys | itou/siaes/management/commands/_import_siae/vue_structure.py:147-157 | Once every row is read, the keys are exactly the rows' current SIRETs and signature SIRETs. |
| VueStructure.SiretMapCurrent | itou/siaes/management/commands/_import_siae/vue_structure.py:148 | The last row carrying a given current SIRET is the one whose asp_id the map holds for it. |
| VueStructure.SiretMapSignature | itou/siaes/management/commands/_import_siae/vue_structure.py:154-156 | A SIRET that is no row's current SIRET maps to the asp_id of the first row that carries it as siret_signature. |
| VueStructure.GetSiretToAspId | itou/siaes/management/commands/_import_siae/vue_structure.py:124-157 | The keys are exactly the current SIRETs and signature SIRETs of all rows. A current SIRET has precedence (the last row with it wins). A SIRET known only as a signature maps to the first row that carries it. |
| Emails.RemoveExtraLineBreaks | itou/utils/emails.py:12-19 | `re.sub(r"\n{3,}", "\n\n", text)`: the result is never longer than the text. Its meaning is stated by the lemmas below: no triple is left, clean text is unchanged, the substitution is idempotent, other characters are kept, and each run of three or more line breaks becomes two. |
| Emails.RemoveExtraLineBreaksLeavesNoTriple | itou/utils/emails.py:19 | The result never contains three consecutive line breaks. |
| Emails.RemoveExtraLineBreaksFixesCleanText | itou/utils/emails.py:19 | A text without three consecutive line breaks is returned unchanged. |
| Emails.RemoveExtraLineBreaksShortens | itou/utils/emails.py:19 | The result is never longer than the text. |
| Emails.RemoveExtraLineBreaksLength | itou/utils/emails.py:19 | The result is never longer than the text, and has the same length exactly when the text has no run of three line breaks. |
| Emails.RemoveExtraLineBreaksIdempotent | itou/utils/emails.py:19 | Applying the substitution twice gives the same text as applying it once. |
| Emails.RemoveExtraLineBreaksKeepsOtherCharacters | itou/utils/emails.py:19 | With the line breaks removed, the result and the text are the same string: every other character is kept, in order. |
| Emails.RemoveExtraLineBreaksSplits | itou/utils/emails.py:19 | When the left part is empty or ends with a character other than a line break, the substitution of a concatenation is the concatenation of the substitutions. |
| Emails.RemoveExtraLineBreaksOfRun | itou/utils/emails.py:19 | A run of n line breaks followed by a text that does not start with one becomes two line breaks when n >= 3. Otherwise the run is kept as it is. |
| Emails.RunOfLineBreaksCollapses | itou/utils/emails.py:19 | Between two line-break-free boundaries, a run of three or more line breaks becomes exactly two, and the surrounding text is substituted independently. |
| Emails.GetEmailMessage | itou/utils/emails.py:34-42 | The subject starts with "[DEMO] " exactly when the environment is "DEMO", followed by the cleaned subject. The body is the rendered body cleaned of extra line breaks (each run of three or more becomes two, shorter runs stay), so it contains no run of three line breaks and keeps every other character of the rendered body. Sender, recipients and bcc are the ones given, and cc is empty. |
| Emails.SerializeEmailMessage | itou/utils/emails.py:81-89 | The dictionary has exactly the keys subject, to, from_email, cc, bcc and body. |
| Emails.DeserializeEmailMessage | itou/utils/emails.py:92-93 | A message is built exactly when the dictionary has those six keys, with text values for subject, from_email and body and address lists for to, cc and bcc. |
| Emails.SerializeRoundTrip | itou/utils/emails.py:81-93 | Deserializing a serialized message gives back the same message. |
| Emails.DeserializeRoundTrip | itou/utils/emails.py:81-93 | Serializing a message read from a dictionary gives back that dictionary. |
| Emails.SerializeIsInjective | itou/utils/emails.py:81-89 | Two different messages never serialize to the same dictionary. |
| Emails.DummyAsyncEmailBackend.SendMessages | itou/utils/emails.py:68-78 | An empty list returns nothing and dispatches nothing. Otherwise every message is handed to the task, in order, and the count returned is the number of messages. |
| QuerySets.Filter | itou/siaes/models.py:18 | `filter(...)`: each row's multiplicity is kept when the condition holds and is zero otherwise. |
| QuerySets.FilterDistributes | itou/siaes/models.py:18 | `filter(...)` distributes over concatenation. |
| QuerySets.InsertKeepsSorted | itou/siaes/models.py:20 | Inserting a row into a list sorted by a total preorder leaves it sorted. |
| QuerySets.OrderBy | itou/siaes/models.py:20 | `order_by(...)` under a total preorder is sorted and is a permutation of its input. |
| QuerySets.TextLeTotal | itou/siaes/models.py:30 | The character-by-character order on strings is total. |
| QuerySets.TextLeTransitive | itou/siaes/models.py:30 | The character-by-character order on strings is transitive. |
| Siaes.ByDistanceIsTotalPreorder | itou/siaes/models.py:19-20 | Ordering by annotated distance, with missing distances last, is a total preorder. |
| Siaes.SortedInRangeIsAscending | itou/siaes/models.py:17-21 | Sorting the in-range SIAEs by annotated distance orders them by ascending distance. |
| Siaes.Within | itou/siaes/models.py:16-21 | Every SIAE returned has coordinates at most distance_km from the point. Each SIAE in range keeps its multiplicity and each one out of range is dropped. The result is in ascending distance. |
| Siaes.WithinGrowsWithRadius | itou/siaes/models.py:16-21 | A larger radius returns a superset (as multisets) of what a smaller radius returns. |
| Siaes.ActiveObjects | itou/siaes/models.py:36-39 | The active manager keeps exactly the SIAEs whose department is a test department, with their multiplicity. |
| Siaes.JobOrderIsTotalPreorder | itou/siaes/models.py:30 | Ordering jobs by (rank, appellation short name) is a total preorder. |
| Siaes.PrefetchJobs | itou/siaes/models.py:23-33 | The prefetched jobs of a SIAE are exactly its active jobs, each with its multiplicity, sorted by rank and then by appellation short name. |
| Siaes.ToString | itou/siaes/models.py:82-83 | `__str__` of a SIAE: when the SIRET has no space, the string parses back into exactly its SIRET and its name. |
| Siaes.ToStringRoundTrip | itou/siaes/models.py:82-83 | A SIRET without spaces and a name joined by a space split back into that SIRET and name at the first space. |
| Cities.ActiveCities | itou/cities/models.py:12-15 | The active manager keeps exactly the cities whose department is a test department, with their multiplicity. |
| Cities.DisplayName | itou/cities/models.py:43-48 | `display_name` (and `__str__`) of a city: when the department has no opening parenthesis, the string parses back into exactly its name and its department. |
| Cities.DisplayNameRoundTrip | itou/cities/models.py:46-48 | `"<name> (<department>)"` splits back into name and department at the last opening parenthesis, provided the department contains none. |
| Cities.Latitude | itou/cities/models.py:50-54 | Present exactly when the city has coordinates, and then the point's y. |
| Cities.Longitude | itou/cities/models.py:56-60 | Present exactly when the city has coordinates, and then the point's x. |
| Cities.CoordinatesRoundTrip | itou/cities/models.py:50-60 | Latitude and longitude are present exactly when the city has coordinates, and they are the point's y and x. |
| Cities.FirstRegionListing | itou/cities/models.py:65-67 | The index of the first region whose list contains the department, or the number of regions when none does. |
| Cities.Region | itou/cities/models.py:62-68 | A city without a department has no region. Otherwise the region is the first region in table order that lists the department, and there is none when no region lists it. |
| RsaCriteriaMigration.Renamed | itou/eligibility/migrations/0008_rename_rsa_administrative_criteria.py:8 | Row by row: every criterion with the old name gets the new name, and the others are unchanged. When the names differ, no row carries the old name afterwards. |
| RsaCriteriaMigration.RenamedIdempotent | itou/eligibility/migrations/0008_rename_rsa_administrative_criteria.py:8 | Running the forward rename twice is the same as running it once. |
| RsaCriteriaMigration.RenamedBackRestores | itou/eligibility/migrations/0008_rename_rsa_administrative_criteria.py:8-13 | When no row carried the new name beforehand, the backward rename undoes the forward rename. |
| RsaCriteriaMigration.AdministrativeCriteriaTable.MigrateDataForward | itou/eligibility/migrations/0008_rename_rsa_administrative_criteria.py:6-8 | The table becomes the forward rename of its old rows, and no row is still named "Bénéficiaire du RSA (socle)". |
| RsaCriteriaMigration.AdministrativeCriteriaTable.MigrateDataBackward | itou/eligibility/migrations/0008_rename_rsa_administrative_criteria.py:11-13 | The table becomes the backward rename of its old rows, and no row is still named "Bénéficiaire du RSA". |
| RsaCriteriaMigration.AdministrativeCriteriaTable.ApplyThenUnapply | itou/eligibility/migrations/0008_rename_rsa_administrative_criteria.py:22 | Applying and then reverting the migration restores the table, provided no criterion was already named "Bénéficiaire du RSA". |

## Left out

- Logging in the merge command (`logger.info` and the `count()` calls) is left out because it has no effect on the data.
- Command-line argument parsing of the merge command is left out. The model takes the two ids directly.
- PrescriberMerge.PrescriberDatabase.MergeInto: `Valid()` is an assumption: each (user, organization) pair has at most one membership. The exclusion at itou/prescribers/management/commands/merge_organizations.py:40-43 keeps it so (MoveMembershipsKeepsOneMembershipPerOrganization). The prescribers models that would declare it as a constraint are not part of this model, so it is a precondition of the constructor, `Rollback` and `MergeInto`.
- PrescriberMerge.PrescriberDatabase.MergeInto: the database's own refusal of an update is modelled as the `failingStep` parameter.
- PrescriberMerge.PrescriberDatabase.MergeInto: what deleting the source organization does to the memberships still attached to it (cascade, or a refusal that rolls the merge back) is not modelled, because the foreign key's deletion rule is outside the model. The contract says nothing about those rows. The model's own state leaves them in place.
- Loading the Vue Structure export is not modelled: reading the file with pandas, renaming columns, replacing NaN with None, and the `@timeit` timing. The rows arrive already parsed.
- The Vue Structure module-level globals are left out. `VUE_STRUCTURE_DF`, `ASP_ID_TO_SIAE_ROW`, `ASP_ID_TO_SIRET_SIGNATURE` and `SIRET_TO_ASP_ID` are computed at import time; they are the results of the modelled functions.
- VueStructure.RowError: `validate_siret` and `validate_naf` are parameters, because itou/utils/validators.py is not part of this model.
- VueStructure.RowError: Python's `assert` raising AssertionError, and the validators raising ValidationError, are both modelled as a `Failure` carrying the first error.
- Emails.GetEmailMessage: template loading, rendering and `strip()` (itou/utils/emails.py:22-31) are left out, because templates and settings are outside the model. The subject and body come in already rendered and stripped.
- Emails.GetEmailMessage: the fallback to `settings.DEFAULT_FROM_EMAIL` is not modelled. The caller passes the sender, and an empty sender is kept as it is, where Django's `EmailMessage` would replace it with the default.
- Emails.DeserializeEmailMessage: the same fallback is not modelled. A dictionary whose `from_email` is empty gives a message with an empty sender, and re-serializing it gives that dictionary back.
- Emails.DummyAsyncEmailBackend.SendMessages: the Huey task `_async_proces_email` only prints the message. It is modelled as the list of dispatched messages; printing and retries are not modelled.
- `open` and `close` of the dummy backend are left out; they do nothing.
- `_async_send_messages` and `AsyncEmailBackend.send_messages` are left out, because they hand messages to the Huey queue and to Django's mail connection, which are I/O. Their data path, serialization and deserialization, is modelled.
- Emails.DeserializeEmailMessage: modelled only for dictionaries keyed by the message fields. The attached mail connection is not modelled, and neither are the other keyword arguments of Django's `EmailMessage` (headers, attachments).
- Siaes.Within: the geodesic distance of PostGIS is the `distance` parameter; floating point and units are not modelled. The order of SIAEs at equal distance is not specified by SQL, and the model fixes it as a stable sort.
- Siaes.PrefetchJobs: strings compare by code point, not by the database collation. Ties are broken by a stable sort.
- The rank range of `PositiveSmallIntegerField` and its default of 32767 are left out of Siaes.PrefetchJobs: ranks are natural numbers, and creating a job row is not modelled.
- Siaes.ToStringRoundTrip and Cities.DisplayNameRoundTrip are stated under the conditions that make the string forms parseable (no space in the SIRET, no parenthesis in the department).
- `Siae.get_card_url` is left out because it reverses a URL route, which is outside the model.
- Model field declarations are not modelled: `max_length`, `choices`, `blank`, and the field validators (`validate_siret`, `validate_naf`), which Django runs in `full_clean()` and form validation, not in `save()`.
- The SIAE membership model has no operations and is left out.
- Cities.CoordinatesRoundTrip: an empty GEOS point, which is falsy in Python, is not distinguished from a missing point.
- `find_suspicious_siae_cities` (itou/cities/models.py:71-91) is left out. It runs database queries, slugifies and prints; it is a diagnostic report with no result.
- The region table `REGIONS` is a parameter, because itou/utils/address/departments.py is not part of this model.
- `settings.ITOU_ENVIRONMENT` and `settings.ITOU_TEST_DEPARTMENTS` are parameters.
