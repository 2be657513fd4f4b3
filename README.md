# Kickstart factory and tree edit operation, modelled in Dafny

This project models two pieces of the kickstart provisioning layer of a
Spacewalk-style systems-management server:

- **KickstartFactory**: the logic it adds on top of its named Hibernate
  queries. This covers the filter that removes command names a profile does
  not support, and the tree lookup by label that falls back to a
  system-owned tree. It also covers the org-ownership guards on trees and
  scripts, the null-argument short-circuits, the "first session or null"
  lookup, and the state change that fails kickstart sessions and rewrites
  their history.
- **BaseTreeEditOperation**: the command object that edits a kickstartable
  tree. Its setters each change one field. `Store` checks the label against
  `^([-_0-9A-Za-z@.]{1,255})$`. If the label is invalid it returns
  `kickstart.tree.invalidlabel`. If it is valid it saves the tree and then
  syncs it to Cobbler exactly once. The operation also has helpers that
  rewrite legacy package names and filter install types by channel version.

The database is replaced by in-memory tables. Trees and sessions are
sequences in query order; scripts are a map keyed by id. Two named queries
have meanings their names do not fix (`findByIdAndOrg` and
`verifyTreeAssignment`), so the caller passes each one in as a relation.
Collaborators outside the core are parameters: PackageManager,
ChannelManager, the ChannelVersion mapping and the install-type query. A
Hibernate `load` of an id that does not exist gives a proxy that throws
`ObjectNotFoundException` when first used. The model returns
`Failure(ObjectNotFound)` in that case.

Files:

- `wrappers.dfy`: Option and Result.
- `sequences.dfy`: the generic operations. `Filter` is an order-preserving
  filter, `FirstWhere` returns the first match or None, and `RemoveFirst`
  is `replaceFirst(literal, "")`. Their lemmas are here too.
- `kickstart_domain.dfy`: the entities. `KickstartSession` is a class,
  because the factory changes its state, action and history in place.
- `kickstart_factory.dfy`: module `KickstartFactory`.
- `tree_edit.dfy`: module `TreeEdit`, with class `BaseTreeEditOperation`.
  The operation's outside effects are recorded in its `effects` log: a
  `SavedTree` entry for each save and a `CobblerStore` entry for each Cobbler
  sync. The class invariant says that every sync comes right after a save of
  the same tree.

Failing a session rewrites the messages of its old `failed` history entries
and then always appends a new `failed` entry. So failing a session twice
leaves two more `failed` entries than before (`RefailAppendsAgain`).

Where the code and its documentation disagree, the model follows the code:

- The doc comment of `validateLabel` asks for at least 4 characters. The
  regular expression accepts labels of 1 to 255 characters, and it also
  accepts `@`.
- The javadoc of `findTreeById` says the tree is returned "if found,
  otherwise null". In the code, a Hibernate `load` of a missing id throws
  `ObjectNotFoundException` when the proxy is first used, so that case is an
  exception, not null. `lookupKickstartScript` behaves the same way. The
  model returns `Failure(ObjectNotFound)` for both.

## Model

| member | source | states |
|---|---|---|
| `KickstartFactory.ListCommandNames` | java/code/src/com/redhat/rhn/domain/kickstart/KickstartFactory.java:113-144 | the loop returns the chosen query's command names filtered by profile support, in order |
| `KickstartFactory.LookupKickstartCommandNames` | java/code/src/com/redhat/rhn/domain/kickstart/KickstartFactory.java:155-159 | the advanced-option names the profile supports, never more than were queried |
| `KickstartFactory.LookupAllKickstartCommandNames` | java/code/src/com/redhat/rhn/domain/kickstart/KickstartFactory.java:169-173 | all option names the profile supports, never more than were queried |
| `KickstartFactory.SupportedCommandNamesIff` | java/code/src/com/redhat/rhn/domain/kickstart/KickstartFactory.java:128-141 | a queried name is kept iff it is not `selinux` on a legacy profile and not `lilocheck` on a profile that is not pre-RHEL 5 |
| `KickstartFactory.SupportedCommandNamesKeptExactlyOnce` | java/code/src/com/redhat/rhn/domain/kickstart/KickstartFactory.java:128-143 | the result is a subsequence of the query result; each supported name occurs exactly as often as in the query, each dropped one never |
| `KickstartFactory.LookupKickstartTreeByLabel` | java/code/src/com/redhat/rhn/domain/kickstart/KickstartFactory.java:346-364 | the result has the label and is org-owned or system-owned; it is org-owned whenever an org-owned tree with the label exists; it is null iff neither exists |
| `KickstartFactory.LookupKickstartTreeByLabelUnique` | java/code/src/com/redhat/rhn/domain/kickstart/KickstartFactory.java:350-363 | with labels unique per owner, the org's tree is returned, and otherwise the system-owned tree |
| `KickstartFactory.FindTreeById` | java/code/src/com/redhat/rhn/domain/kickstart/KickstartFactory.java:615-626 | load fails iff no tree has the id; a returned tree has the id and a channel of no org or of `orgId`; null only when the tree's channel belongs to another org |
| `KickstartFactory.FindTreeByIdOwnership` | java/code/src/com/redhat/rhn/domain/kickstart/KickstartFactory.java:617-625 | with unique ids, the tree is returned unchanged unless its channel has a non-null org other than `orgId`, in which case null |
| `KickstartFactory.LookupKickstartTreeByIdAndOrg` | java/code/src/com/redhat/rhn/domain/kickstart/KickstartFactory.java:450-472 | null whenever the id or the org is null, whatever the store; otherwise a tree the query matches, found whenever one exists |
| `KickstartFactory.VerifyTreeAssignment` | java/code/src/com/redhat/rhn/domain/kickstart/KickstartFactory.java:586-607 | true iff channel, org and tree ids are all non-null and the query matches some tree |
| `KickstartFactory.LookupKickstartSessionByServer` | java/code/src/com/redhat/rhn/domain/kickstart/KickstartFactory.java:485-505 | a session of that server from the store; null iff the server has no session |
| `KickstartFactory.LookupKickstartSessionByServerIsFirst` | java/code/src/com/redhat/rhn/domain/kickstart/KickstartFactory.java:489-497 | the session returned is the first of the server's sessions in query order |
| `KickstartFactory.LookupKickstartScript` | java/code/src/com/redhat/rhn/domain/kickstart/KickstartFactory.java:842-849 | load fails iff the id is absent; the script is returned iff its profile's org is the caller's org, and null otherwise |
| `KickstartFactory.SetKickstartSessionHistoryMessage` | java/code/src/com/redhat/rhn/domain/kickstart/KickstartFactory.java:819-834 | the session's new history is the old one with messages rewritten for the state, plus one appended (state, message) entry |
| `KickstartFactory.WithHistoryMessageSpec` | java/code/src/com/redhat/rhn/domain/kickstart/KickstartFactory.java:826-833 | length grows by one and the last entry is (state, message); old entries keep their state; those of the state get the message, others are unchanged; every entry of the state carries the message; the state's count grows by one |
| `KickstartFactory.RewriteMessagesAt` | java/code/src/com/redhat/rhn/domain/kickstart/KickstartFactory.java:827-831 | the rewrite keeps the length; an entry gets the message exactly when its state is the given one |
| `KickstartFactory.RewriteMessagesIdempotent` | java/code/src/com/redhat/rhn/domain/kickstart/KickstartFactory.java:827-831 | rewriting the messages twice is the same as rewriting them once |
| `KickstartFactory.RefailAppendsAgain` | java/code/src/com/redhat/rhn/domain/kickstart/KickstartFactory.java:833 | a second application appends a second entry for the state: the code does not avoid duplicates |
| `KickstartFactory.FailKickstartSessions` | java/code/src/com/redhat/rhn/domain/kickstart/KickstartFactory.java:787-806 | every pending session ends failed, with no action, and with the cancellation message set in its history; only pending sessions are modified |
| `TreeEdit.BaseTreeEditOperation.constructor` | java/code/src/com/redhat/rhn/manager/kickstart/tree/BaseTreeEditOperation.java:54-56 | the operation belongs to the user, holds no tree and has done nothing |
| `TreeEdit.BaseTreeEditOperation.ForLabel` | java/code/src/com/redhat/rhn/manager/kickstart/tree/BaseTreeEditOperation.java:63-67 | the tree is the result of the label lookup for the user's org |
| `TreeEdit.BaseTreeEditOperation.ValidateLabel` | java/code/src/com/redhat/rhn/manager/kickstart/tree/BaseTreeEditOperation.java:94-99 | true iff the label has 1 to 255 characters, all in `-_0-9A-Za-z@.` |
| `TreeEdit.MatchesLabelClassIff` | java/code/src/com/redhat/rhn/manager/kickstart/tree/BaseTreeEditOperation.java:95-98 | a whole-string match of the class repeated min to max times holds iff the length is within bounds and every character is in the class |
| `TreeEdit.LabelWithSeparatorInvalid` | java/code/src/com/redhat/rhn/manager/kickstart/tree/BaseTreeEditOperation.java:94-99 | a label containing a space or a slash is rejected |
| `TreeEdit.BaseTreeEditOperation.Store` | java/code/src/com/redhat/rhn/manager/kickstart/tree/BaseTreeEditOperation.java:74-84 | invalid label: returns `kickstart.tree.invalidlabel`, with no save and no sync; valid label: saves, then syncs once, then returns null; the sync count grows by exactly one iff the label is valid; every sync follows a save of the same tree |
| `TreeEdit.BaseTreeEditOperation.SetInstallType` | java/code/src/com/redhat/rhn/manager/kickstart/tree/BaseTreeEditOperation.java:113-115 | only the tree's install type changes |
| `TreeEdit.BaseTreeEditOperation.SetLabel` | java/code/src/com/redhat/rhn/manager/kickstart/tree/BaseTreeEditOperation.java:121-123 | only the tree's label changes |
| `TreeEdit.BaseTreeEditOperation.SetBasePath` | java/code/src/com/redhat/rhn/manager/kickstart/tree/BaseTreeEditOperation.java:129-131 | only the tree's base path changes |
| `TreeEdit.BaseTreeEditOperation.SetBootImage` | java/code/src/com/redhat/rhn/manager/kickstart/tree/BaseTreeEditOperation.java:137-139 | only the tree's boot image changes |
| `TreeEdit.BaseTreeEditOperation.SetChannel` | java/code/src/com/redhat/rhn/manager/kickstart/tree/BaseTreeEditOperation.java:145-147 | only the tree's channel changes |
| `TreeEdit.BaseTreeEditOperation.ReplaceLegacyPackageNames` | java/code/src/com/redhat/rhn/manager/kickstart/tree/BaseTreeEditOperation.java:165-172 | the array, rewritten in place, is the legacy-name rewrite of its old contents |
| `TreeEdit.StripLegacyNamesSpec` | java/code/src/com/redhat/rhn/manager/kickstart/tree/BaseTreeEditOperation.java:165-172 | the rewrite keeps length, order and every field but the name; a name loses exactly its first occurrence of the legacy name, or is unchanged when it has none |
| `Sequences.RemoveFirstSpec` | java/code/src/com/redhat/rhn/manager/kickstart/tree/BaseTreeEditOperation.java:169-170 | removing the first occurrence at position i leaves the text before i followed by the text after the occurrence |
| `Sequences.RemoveFirstAbsent` | java/code/src/com/redhat/rhn/manager/kickstart/tree/BaseTreeEditOperation.java:169-170 | a name without an occurrence is left unchanged |
| `TreeEdit.BaseTreeEditOperation.GetAutoKickstartPackageNames` | java/code/src/com/redhat/rhn/manager/kickstart/tree/BaseTreeEditOperation.java:153-158 | the kickstart-capability packages of the user's org, with legacy names rewritten |
| `TreeEdit.BaseTreeEditOperation.GetKickstartPackageNamesForChannel` | java/code/src/com/redhat/rhn/manager/kickstart/tree/BaseTreeEditOperation.java:180-193 | empty when the base channel has no tools channel; otherwise the tools channel's kickstart packages with legacy names rewritten |
| `TreeEdit.BaseTreeEditOperation.GetKickstartInstallTypesForChannel` | java/code/src/com/redhat/rhn/manager/kickstart/tree/BaseTreeEditOperation.java:200-218 | the install types in their original order, filtered; a type is kept iff its channel version (possibly null) is in the channel's version set (which may hold null) |

## Left out

- Hibernate session mechanics are not modelled: named-query HQL, the query cache flag, `evict` in the invalid-label branch of `store()`, and save and remove row counts. Each query is a function over the in-memory tables.
- A `uniqueResult()` that finds several rows would throw. The model takes the first row instead. `TreeLabelsUnique` and `TreeIdsUnique` state the store invariants under which the first row is the only one.
- Exception translation and logging are not modelled: `HibernateException` to `HibernateRuntimeException`, `log.error` and `log.debug`. The same goes for the `catch` in `lookupKickstartSessionByServer` that returns null.
- `KickstartSession.findPendingForActions` is not part of this model. `FailKickstartSessions` takes the pending sessions as a set, so it has no action or server arguments and no iteration order. The updates to different sessions are independent.
- The rest of KickstartFactory is not modelled: the other lookups, saves and removes, key and session-state constants loaded from the database, and command timestamps. Each is a single query or session call with no logic of its own. Session states are datatype constructors.
- History entries carry only their state and message. Their creation time and other columns are not modelled.
- `replaceFirst` treats the legacy package name as a regular expression. The model removes it as literal text. `KickstartData.LEGACY_KICKSTART_PACKAGE_NAME` is not part of this model, so its value is the parameter `legacy`.
- The model uses values where Java shares objects. The tree is a value that the setters replace, but in Java the same object is also attached to the Hibernate session. The package lists returned by PackageManager are copied into an array, rewritten in place and returned as a sequence, where Java rewrites the returned list's objects.
- `getCobblerCommand().store()` is recorded only as a `CobblerStore` effect. What Cobbler does with the tree is not part of this model.
- `getKickstartableChannels` and `getTree` are not modelled: one is a plain delegation to ChannelFactory and the other a getter.
- KickstartFactory.LookupKickstartSessionByServer: the javadoc promises the *most recent* session of the server. The model returns the first of the server's sessions in table order. That is the most recent one only if the table follows the ordering of the `findByServer` query, whose HQL is not part of this model.
- Null dereferences are not modelled. A null label, a null `org` in `lookupKickstartTreeByLabel` and a null script id would throw `NullPointerException`; the model's types exclude these nulls. A null tree in the setters and in `store()` is excluded by their `requires`.
