# Role membership checks over LDAP group records

This project is a verified Dafny model of the decision logic in a small integration
layer. The layer reads group records from an LDAP-backed REST API and answers two
questions about them.

- **`check-roles` (index.js).** A workflow task names a user (`assignee`). The
  handler keeps every group record whose `memberUid` array holds a string starting
  with the literal `uid=<assignee>,`. It counts the kept records and completes the
  task with `secondRole = (count >= 2)`.
- **The audit script (cek2role.js).** This script takes the uid from every member
  reference with `/^uid=([^,]+)/i`. It builds an index from each uid to the *set* of
  labels of the groups that reference it, and reports the uids whose set has exactly
  two labels.

The two paths are kept separate on purpose, because they disagree:

- index.js matches case-sensitively and needs the trailing comma.
- index.js ignores a `memberUid` that is a single string.
- index.js counts records. cek2role.js collapses repeated labels.

`PathComparison` proves where the two paths agree and where they differ.

Files:

- `js_data.dfy` (module `JsData`). The JSON shapes the scripts read. `memberUid` is
  absent, a single value, or an array. A member value is a string or some other value
  whose truthiness is all that matters. `cn` and `dn` are optional strings.
- `role_check.dfy` (module `RoleCheck`). `extractUserGroupsFromList` as a loop proved
  against the filter function `UserGroups`, and the `check-roles` decision as a method.
- `role_audit.dfy` (module `RoleAudit`). `extractUid` as a hand-written scanner for the
  one pattern, the index loops proved against the label sets `RolesOf`, the "exactly
  two" query, and the index loop as written over a plain JavaScript object (see
  Findings).
- `path_comparison.dfy` (module `PathComparison`). Lemmas relating the two paths.

I/O becomes parameters:

- The outcome of `fetchUserByAssignee` is the boolean `userFound`.
- The response of `GET /groups` is a `Fetch<Payload>` (a body, or a failed request).
- In the audit, the record list is the input.

`/^uid=([^,]+)/i` (cek2role.js:32) does not require a comma after the uid: `"uid=abc"`
yields `"abc"`. `Captures` and `ExtractUid` model the regular expression.

## Model

| member | source | states |
|---|---|---|
| RoleCheck.NormalizeGroups | index.js:42-44 | an array body is returned unchanged, an object body becomes a one-element list, anything else becomes the empty list |
| RoleCheck.SomeStartsWith | index.js:54-56 | `.some(...)` is true iff some member is a string that starts with the needle |
| RoleCheck.Matches | index.js:49-57 | a record is kept iff `memberUid` is an array with some string element starting with `uid=<uid>,` (case and comma included) |
| RoleCheck.NonArrayMemberUidNeverMatches | index.js:53 | a record whose `memberUid` is absent or a single value (for example one string) is never kept |
| RoleCheck.ExtractUserGroupsFromList | index.js:48-66 | the loop returns exactly `UserGroups(groups, uid)` |
| RoleCheck.KeptIndicesIncreasing | index.js:52-64 | the kept positions are valid and strictly increase, so each record appears at most once |
| RoleCheck.KeptIndicesExact | index.js:52-57 | a position is kept exactly when its record matches |
| RoleCheck.UserGroupsAtKept | index.js:57-62 | the k-th entry is the summary of the record at the k-th kept position |
| RoleCheck.UserGroupsIsFilter | index.js:52-64 | the result is an order-preserving subsequence of the records, mapped to their `cn`, `dn` and `gidNumber` and nothing else, holding exactly the matching records |
| RoleCheck.UserGroupsLength | index.js:52-64 | the result is never longer than the record list |
| RoleCheck.UserGroupsAppend | index.js:52-64 | the result for a concatenation is the concatenation of the results |
| RoleCheck.CheckRoles | index.js:87-115 | a missing, empty or non-string `assignee` fails before any lookup; a failed user lookup or groups fetch fails next; otherwise the workflow task is completed with `secondRole` true iff the number of kept records (the logged `totalRoles`) is at least 2 |
| RoleCheck.NonArrayPayloadCount | index.js:42-44 | a non-array payload counts once if it is a matching object and zero otherwise, so it never sets `secondRole` |
| RoleAudit.CommaFreeLength | cek2role.js:32 | the greedy `[^,]+` run ends at the first comma or at the end of the string |
| RoleAudit.ExtractUid | cek2role.js:30-34 | a non-string or empty input gives null; any uid returned is the capture of `/^uid=([^,]+)/i`; null means no capture exists |
| RoleAudit.CapturesUnique | cek2role.js:32 | the regular expression captures at most one uid from a string |
| RoleAudit.ExtractUidExact | cek2role.js:30-34 | `extractUid` returns `u` iff `uid=` (any case) is followed by the maximal non-empty comma-free run `u`; a returned uid is non-empty and comma-free |
| RoleAudit.Label | cek2role.js:45 | the label is `cn` if truthy, else `dn` if truthy, else `UNKNOWN_GROUP`, so it is never empty |
| RoleAudit.MentionsExists | cek2role.js:52-54 | a member list mentions `u` iff some position in it extracts to `u` |
| RoleAudit.GroupMentions | cek2role.js:46-50 | an array is walked as it is; a single value counts as a one-element list (a falsy one references nobody); an absent field references nobody |
| RoleAudit.AddMembers | cek2role.js:52-58 | after one group, every uid extracted from its members has the group's label added, and no other entry changes |
| RoleAudit.BuildIndex | cek2role.js:42-59 | a uid is a key iff some member of some record extracts to it, and its set is `RolesOf(groups, uid)` |
| RoleAudit.RolesOfExact | cek2role.js:44-59 | a uid's set holds exactly the labels of the records with a member extracting to that uid |
| RoleAudit.RolesOfNonEmpty | cek2role.js:44-59 | a uid's set is non-empty iff some record references it |
| RoleAudit.RolesOfBound | cek2role.js:55-56 | a uid's set has at most as many labels as there are records referencing it |
| RoleAudit.RolesOfAppend | cek2role.js:44-59 | the sets for a concatenation of record lists are the unions of the sets |
| RoleAudit.RolesOfDuplicated | cek2role.js:55-56 | listing every record twice leaves every set unchanged, because a repeated label is absorbed |
| RoleAudit.Audit | cek2role.js:62-64 | the result holds exactly the uids whose set has two labels, each paired with those two labels |
| RoleAudit.AddMembersAsWritten | cek2role.js:52-58 | on a plain object, the inner loop throws at a member whose uid is an inherited property name, no earlier member having extracted to one, and otherwise does what `AddMembers` does |
| RoleAudit.BuildIndexAsWritten | cek2role.js:42-59 | over an object inheriting the names `inherited` (`PrototypeKeys` for `{}`), the loop as written ends in a TypeError iff some record references an inherited name, and otherwise builds the same index as `BuildIndex` |
| RoleAudit.ConstructorReference | cek2role.js:32 | `extractUid("uid=constructor,ou=users")` is `"constructor"` |
| RoleAudit.SingleMemberGroup | cek2role.js:44-59 | a lone record whose only member extracts to `u` gives `u` exactly that record's label |
| RoleAudit.SingleReferenceRun | cek2role.js:42-59 | a one-record input whose only member extracts to an inherited name `u` ends the loop as written in a TypeError on `u` |
| RoleAudit.PrototypeNameRun | cek2role.js:55-56 | over `{}`, the one-record input with member `uid=constructor,ou=users` ends in a TypeError on `constructor` |
| RoleAudit.PrototypeNameAbortsAudit | cek2role.js:55-56 | the one-record input with member `uid=constructor,ou=users` references `constructor`, a name every plain object inherits, so by `BuildIndexAsWritten` the audit aborts, while `BuildIndex` gives the uid the set `{admins}` |
| PathComparison.NeedleImpliesExtract | index.js:49-55 | for a non-empty comma-free uid, a reference passing index.js's prefix test yields that uid under cek2role.js's extraction |
| PathComparison.ExtractImpliesNeedle | index.js:49-55 | a uid extracted from a reference spelled `uid=` in lower case, with a comma after the uid, passes index.js's prefix test |
| PathComparison.DuplicatedRecordsDiverge | index.js:52-64 | repeating the record list doubles index.js's count but leaves cek2role.js's sets unchanged |
| PathComparison.SingleStringDiverges | index.js:53 | a single-string `memberUid` is ignored by index.js but indexed by cek2role.js |
| PathComparison.TwoGroupsCount | index.js:98-106 | two records listing `uid=<uid>,...` give a count of 2, so `secondRole` is true |
| PathComparison.TwoGroupsRoles | cek2role.js:44-59 | two records with labels `a` and `b` listing the same reference give that uid the set `{a, b}` |
| PathComparison.TwoGroupsAgree | cek2role.js:62-64 | with distinct labels, the uid is counted twice by index.js and reported with exactly two labels by the audit |

## Left out

- HTTP is not modelled: `fetchUserByAssignee`, the request in `fetchAllGroups`, `fetchGroups`, the axios instance, the base URLs, the timeout and the TLS agent settings. These are network calls. Their outcomes are inputs of `CheckRoles` (`userFound` and `groupsFetch`), and the audit takes its record list as input.
- `fetchGroups` in cek2role.js wraps any non-array body, `null` included, into a one-element list. This is part of the left-out HTTP helper. The audit starts from a list of records.
- The user record fetched at index.js:93 is never used afterwards. Only whether the lookup succeeded is modelled.
- The Camunda client is not modelled: `subscribe`, `taskService.complete`, `handleFailure` and the retry values 3 and 5000. This is a foreign library running an asynchronous task loop. `CheckOutcome` records what would be completed or why the workflow task fails.
- The `ldap-json` and `ldap-json-negatif` handlers are not modelled. They log and complete with constant strings and contain no decision logic.
- `buildRules` and json-rules-engine are not modelled. The rules are declared but never evaluated.
- Console output and the try/catch around `main` are not modelled. The audit's TypeError appears as the `TypeErrorOn` outcome of `BuildIndexAsWritten`.
- RoleAudit.Audit: the result is a map from uid to a set of labels. The source returns an array of `{uid, roles}` whose entry order follows `Object.entries` and whose role order follows `Set` insertion order. That order depends on the engine (integer-like keys come first), so the model states the result without order.
- A record in the groups array that is `null` or not an object is not modelled. In JavaScript, `g.memberUid` on `null` throws. Every record here is an object.
- `cn` and `dn` values that are not strings are not modelled.
- A general regular-expression engine is not modelled. `ExtractUid` scans for the single pattern `^uid=([^,]+)` with the `i` flag.
- Strings are sequences of Unicode scalar values, not UTF-16 code units. A lone surrogate in a reference cannot be represented. No other answer changes, because the only characters the scanner tests (`u`, `i`, `d`, `=`, `,`) are single code units.

## Findings

| source | as written | input that shows it | evidently intended | confidence | as-written member | corrected member |
|---|---|---|---|---|---|---|
| cek2role.js:42-56 | `uidRoles` is a plain object `{}`. For a uid such as `constructor`, `toString` or `__proto__`, `uidRoles[uid]` is an inherited property and is truthy, so no Set is created. Then `uidRoles[uid].add(cn)` throws a TypeError, and the whole audit stops with an error. | one group `{cn: "admins", memberUid: ["uid=constructor,ou=users"]}` | every uid indexes its own set of labels, whatever its name (a `Map`, or `Object.create(null)`) | high, not executed | RoleAudit.BuildIndexAsWritten | RoleAudit.BuildIndex |
