/**
 * The logic KickstartFactory puts on top of its named queries. The database is
 * replaced by in-memory tables (sequences in the order a query returns them,
 * or maps keyed by id); a named query whose meaning is not fixed by its name
 * is a relation given by the caller.
 */
module KickstartFactory {
  import opened Wrappers
  import opened Sequences
  import opened KickstartDomain

  /** Message written to the history of a session failed because its action was removed. */
  const KickstartCancelledMessage: string := "Kickstart cancelled due to action removal"

  /** The error a Hibernate `load` proxy raises on first use when no row has the id. */
  datatype LoadError = ObjectNotFound

  // ---------------------------------------------------------------------------
  // Command names supported by a profile
  // ---------------------------------------------------------------------------

  /** The two cached named queries over the command-name table, in query order. */
  datatype CommandNameCatalog = CommandNameCatalog(
    allOptions: seq<CommandName>,
    advancedOptions: seq<CommandName>)

  /** `selinux` is not offered for legacy profiles, `lilocheck` only for pre-RHEL 5 ones. */
  predicate CommandNameSupported(cn: CommandName, ksdata: Profile)
  {
    if cn.name == "selinux" && ksdata.isLegacyKickstart then false
    else if cn.name == "lilocheck" && !ksdata.isPreRHEL5Kickstart then false
    else true
  }

  function SupportedBy(ksdata: Profile): CommandName -> bool
  {
    (cn: CommandName) => CommandNameSupported(cn, ksdata)
  }

  /** Filters the chosen query's command names down to those the profile supports. */
  method ListCommandNames(catalog: CommandNameCatalog, ksdata: Profile, onlyAdvancedOptions: bool)
    returns (retval: seq<CommandName>)
    ensures retval == Filter(if onlyAdvancedOptions then catalog.advancedOptions else catalog.allOptions,
                             SupportedBy(ksdata))
  {
    var names := catalog.allOptions;
    if onlyAdvancedOptions {
      names := catalog.advancedOptions;
    }
    retval := [];
    var i := 0;
    while i < |names|
      invariant 0 <= i <= |names|
      invariant retval == Filter(names[..i], SupportedBy(ksdata))
    {
      var cn := names[i];
      assert names[..i + 1] == names[..i] + [cn];
      FilterSnoc(names[..i], cn, SupportedBy(ksdata));
      assert SupportedBy(ksdata)(cn) == CommandNameSupported(cn, ksdata);
      if cn.name == "selinux" && ksdata.isLegacyKickstart {
      } else if cn.name == "lilocheck" && !ksdata.isPreRHEL5Kickstart {
      } else {
        retval := retval + [cn];
      }
      i := i + 1;
    }
    assert names[..i] == names;
  }

  /** The advanced-option command names the profile supports. */
  method LookupKickstartCommandNames(catalog: CommandNameCatalog, ksdata: Profile)
    returns (r: seq<CommandName>)
    ensures r == Filter(catalog.advancedOptions, SupportedBy(ksdata))
    ensures |r| <= |catalog.advancedOptions|
  {
    r := ListCommandNames(catalog, ksdata, true);
  }

  /** All command names the profile supports. */
  method LookupAllKickstartCommandNames(catalog: CommandNameCatalog, ksdata: Profile)
    returns (r: seq<CommandName>)
    ensures r == Filter(catalog.allOptions, SupportedBy(ksdata))
    ensures |r| <= |catalog.allOptions|
  {
    r := ListCommandNames(catalog, ksdata, false);
  }

  /**
   * The supported command names are the queried ones, in their order, with
   * each supported name kept as often as it occurs and each unsupported one dropped.
   */
  lemma SupportedCommandNamesKeptExactlyOnce(names: seq<CommandName>, ksdata: Profile, cn: CommandName)
    ensures IsSubsequence(Filter(names, SupportedBy(ksdata)), names)
    ensures multiset(Filter(names, SupportedBy(ksdata)))[cn] ==
            if CommandNameSupported(cn, ksdata) then multiset(names)[cn] else 0
  {
    FilterIsSubsequence(names, SupportedBy(ksdata));
    FilterCount(names, SupportedBy(ksdata), cn);
  }

  /**
   * A queried name is in the result exactly when it is neither `selinux` for
   * a legacy profile nor `lilocheck` for a profile that is not pre-RHEL 5.
   */
  lemma SupportedCommandNamesIff(names: seq<CommandName>, ksdata: Profile, i: nat)
    requires i < |names|
    ensures names[i] in Filter(names, SupportedBy(ksdata)) <==>
      !(names[i].name == "selinux" && ksdata.isLegacyKickstart) &&
      !(names[i].name == "lilocheck" && !ksdata.isPreRHEL5Kickstart)
  {
  }

  // ---------------------------------------------------------------------------
  // Trees
  // ---------------------------------------------------------------------------

  /** Within one owner (an org, or the system), tree labels are unique. */
  ghost predicate TreeLabelsUnique(trees: seq<Tree>)
  {
    forall i, j :: 0 <= i < |trees| && 0 <= j < |trees| && i != j && trees[i].treeLabel == trees[j].treeLabel ==>
      trees[i].org != trees[j].org
  }

  /** Tree ids are unique. */
  ghost predicate TreeIdsUnique(trees: seq<Tree>)
  {
    forall i, j :: 0 <= i < |trees| && 0 <= j < |trees| && i != j ==> trees[i].id != trees[j].id
  }

  function ByLabelAndOrg(treeLabel: string, org: OrgId): Tree -> bool
  {
    (t: Tree) => t.treeLabel == treeLabel && t.org == Some(org)
  }

  function ByLabelAndNullOrg(treeLabel: string): Tree -> bool
  {
    (t: Tree) => t.treeLabel == treeLabel && t.org == None
  }

  function ById(treeId: int): Tree -> bool
  {
    (t: Tree) => t.id == treeId
  }

  /** Named query KickstartableTree.findByLabelAndOrg. */
  function FindByLabelAndOrg(trees: seq<Tree>, treeLabel: string, org: OrgId): (r: Option<Tree>)
  {
    FirstWhere(trees, ByLabelAndOrg(treeLabel, org))
  }

  /** Named query KickstartableTree.findByLabelAndNullOrg. */
  function FindByLabelAndNullOrg(trees: seq<Tree>, treeLabel: string): (r: Option<Tree>)
  {
    FirstWhere(trees, ByLabelAndNullOrg(treeLabel))
  }

  /**
   * The org's own tree with this label; failing that, the system-owned tree
   * with this label; failing that, nothing.
   */
  function LookupKickstartTreeByLabel(trees: seq<Tree>, treeLabel: string, org: OrgId): (r: Option<Tree>)
    ensures r.Some? ==> r.value in trees && r.value.treeLabel == treeLabel
    ensures r.Some? ==> r.value.org == Some(org) || r.value.org == None
    ensures r.None? <==>
      forall i :: 0 <= i < |trees| && trees[i].treeLabel == treeLabel ==> trees[i].org != Some(org) && trees[i].org != None
    ensures (exists i :: 0 <= i < |trees| && trees[i].treeLabel == treeLabel && trees[i].org == Some(org)) ==>
      r.Some? && r.value.org == Some(org)
  {
    var retval := FindByLabelAndOrg(trees, treeLabel, org);
    if retval.None? then FindByLabelAndNullOrg(trees, treeLabel) else retval
  }

  /**
   * When labels are unique per owner, the lookup returns THE org-owned tree
   * with the label, and otherwise THE system-owned one.
   */
  lemma LookupKickstartTreeByLabelUnique(trees: seq<Tree>, treeLabel: string, org: OrgId, k: nat)
    requires TreeLabelsUnique(trees)
    requires k < |trees| && trees[k].treeLabel == treeLabel
    requires trees[k].org == Some(org) ||
             (trees[k].org == None &&
              forall i :: 0 <= i < |trees| && trees[i].treeLabel == treeLabel ==> trees[i].org != Some(org))
    ensures LookupKickstartTreeByLabel(trees, treeLabel, org) == Some(trees[k])
  {
  }

  /** Session.load of a tree: a proxy that fails on first use when no row has the id. */
  function LoadTree(trees: seq<Tree>, treeId: int): (r: Result<Tree, LoadError>)
  {
    match FirstWhere(trees, ById(treeId))
    case None => Failure(ObjectNotFound)
    case Some(t) => Success(t)
  }

  /**
   * The tree with this id, or null when its channel belongs to another org
   * than `orgId` (a null `orgId` matches no org).
   */
  function FindTreeById(trees: seq<Tree>, treeId: int, orgId: Option<OrgId>): (r: Result<Option<Tree>, LoadError>)
    ensures r.Failure? <==> forall i :: 0 <= i < |trees| ==> trees[i].id != treeId
    ensures r.Success? && r.value.Some? ==>
      r.value.value in trees && r.value.value.id == treeId &&
      (r.value.value.channel.org == None || r.value.value.channel.org == orgId)
    ensures r.Success? && r.value.None? ==>
      exists i :: 0 <= i < |trees| && trees[i].id == treeId &&
        trees[i].channel.org.Some? && trees[i].channel.org != orgId
  {
    match LoadTree(trees, treeId)
    case Failure(e) => Failure(e)
    case Success(retval) =>
      if retval.channel.org.Some? && retval.channel.org != orgId then Success(None)
      else Success(Some(retval))
  }

  /** With unique ids: a tree is returned unchanged unless its channel is another org's. */
  lemma FindTreeByIdOwnership(trees: seq<Tree>, treeId: int, orgId: Option<OrgId>, k: nat)
    requires TreeIdsUnique(trees)
    requires k < |trees| && trees[k].id == treeId
    ensures FindTreeById(trees, treeId, orgId) ==
      if trees[k].channel.org.Some? && trees[k].channel.org != orgId then Success(None)
      else Success(Some(trees[k]))
  {
  }

  /**
   * Named query KickstartableTree.findByIdAndOrg, given as the relation
   * `findByIdAndOrg`; a null id or org answers null without running it.
   */
  function LookupKickstartTreeByIdAndOrg(
    trees: seq<Tree>, treeId: Option<int>, org: Option<OrgId>, findByIdAndOrg: (Tree, int, OrgId) -> bool)
    : (r: Option<Tree>)
    ensures treeId.None? || org.None? ==> r.None?
    ensures r.Some? ==> r.value in trees && findByIdAndOrg(r.value, treeId.value, org.value)
    ensures (treeId.Some? && org.Some? &&
             exists i :: 0 <= i < |trees| && findByIdAndOrg(trees[i], treeId.value, org.value)) ==> r.Some?
  {
    if treeId.Some? && org.Some? then FirstWhere(trees, t => findByIdAndOrg(t, treeId.value, org.value))
    else None
  }

  /**
   * Named query KickstartableTree.verifyTreeAssignment, given as the relation
   * `assignable`; a null argument answers false without running it.
   */
  function VerifyTreeAssignment(
    trees: seq<Tree>, channelId: Option<int>, orgId: Option<OrgId>, treeId: Option<int>,
    assignable: (Tree, int, OrgId, int) -> bool)
    : (r: bool)
    ensures r <==>
      channelId.Some? && orgId.Some? && treeId.Some? &&
      exists i :: 0 <= i < |trees| && assignable(trees[i], channelId.value, orgId.value, treeId.value)
  {
    if channelId.Some? && orgId.Some? && treeId.Some? then
      FirstWhere(trees, t => assignable(t, channelId.value, orgId.value, treeId.value)).Some?
    else false
  }

  // ---------------------------------------------------------------------------
  // Scripts
  // ---------------------------------------------------------------------------

  /** The script with this id, or null when its profile belongs to another org. */
  function LookupKickstartScript(scripts: map<int, KickstartScript>, org: OrgId, id: int)
    : (r: Result<Option<KickstartScript>, LoadError>)
    ensures r.Failure? <==> id !in scripts
    ensures r.Success? ==> (r.value.Some? <==> scripts[id].profile.org == org)
    ensures r.Success? && r.value.Some? ==> r.value.value == scripts[id]
  {
    if id !in scripts then Failure(ObjectNotFound)
    else
      var script := scripts[id];
      if org != script.profile.org then Success(None) else Success(Some(script))
  }

  // ---------------------------------------------------------------------------
  // Sessions
  // ---------------------------------------------------------------------------

  function ForServer(sid: int): KickstartSession -> bool
  {
    (s: KickstartSession) => s.server == sid
  }

  /** Named query KickstartSession.findByServer over the sessions, in query order. */
  function FindByServer(sessions: seq<KickstartSession>, sid: int): (r: seq<KickstartSession>)
  {
    Filter(sessions, ForServer(sid))
  }

  /** The first of the server's sessions, or null when it has none. */
  function LookupKickstartSessionByServer(sessions: seq<KickstartSession>, sid: int): (r: Option<KickstartSession>)
    ensures r.Some? ==> r.value in sessions && r.value.server == sid
    ensures r.None? <==> forall i :: 0 <= i < |sessions| ==> sessions[i].server != sid
  {
    var ksessions := FindByServer(sessions, sid);
    if |ksessions| > 0 then Some(ksessions[0]) else None
  }

  /** The session returned is the earliest of the server's sessions in query order. */
  lemma LookupKickstartSessionByServerIsFirst(sessions: seq<KickstartSession>, sid: int)
    ensures LookupKickstartSessionByServer(sessions, sid) == FirstWhere(sessions, ForServer(sid))
    ensures LookupKickstartSessionByServer(sessions, sid).Some? ==>
      exists i :: IsFirstWhere(sessions, ForServer(sid), i) &&
        sessions[i] == LookupKickstartSessionByServer(sessions, sid).value
  {
    FirstWhereIsHeadOfFilter(sessions, ForServer(sid));
  }

  /** Every entry of `h` recorded for `state` gets `message`; the others stay as they are. */
  function RewriteMessages(h: seq<HistoryEntry>, state: SessionState, message: string): (r: seq<HistoryEntry>)
  {
    if h == [] then []
    else [if h[0].state == state then h[0].(message := message) else h[0]]
         + RewriteMessages(h[1..], state, message)
  }

  lemma {:induction false} RewriteMessagesAt(h: seq<HistoryEntry>, state: SessionState, message: string, k: nat)
    requires k < |h|
    ensures |RewriteMessages(h, state, message)| == |h|
    ensures RewriteMessages(h, state, message)[k] ==
            if h[k].state == state then h[k].(message := message) else h[k]
  {
    if k > 0 {
      RewriteMessagesAt(h[1..], state, message, k - 1);
    } else if |h| > 1 {
      RewriteMessagesAt(h[1..], state, message, 0);
    }
  }

  /** The history of a session after SetKickstartSessionHistoryMessage. */
  function WithHistoryMessage(h: seq<HistoryEntry>, state: SessionState, message: string): (r: seq<HistoryEntry>)
  {
    RewriteMessages(h, state, message) + [HistoryEntry(state, message)]
  }

  /** Number of entries of `h` recorded for `state`. */
  function CountState(h: seq<HistoryEntry>, state: SessionState): (r: nat)
  {
    if h == [] then 0 else (if h[0].state == state then 1 else 0) + CountState(h[1..], state)
  }

  lemma {:induction false} RewriteMessagesCount(h: seq<HistoryEntry>, state: SessionState, message: string, s: SessionState)
    ensures CountState(RewriteMessages(h, state, message), s) == CountState(h, s)
  {
    if h != [] {
      RewriteMessagesCount(h[1..], state, message, s);
    }
  }

  lemma {:induction false} CountStateAppend(a: seq<HistoryEntry>, b: seq<HistoryEntry>, s: SessionState)
    ensures CountState(a + b, s) == CountState(a, s) + CountState(b, s)
  {
    if a == [] {
      assert a + b == b;
    } else {
      assert (a + b)[1..] == a[1..] + b;
      CountStateAppend(a[1..], b, s);
    }
  }

  /**
   * Setting the history message keeps every old entry's state, gives the
   * message to exactly the old entries of that state, and appends one entry,
   * so the session then has one more entry for the state, all of them
   * carrying the message.
   */
  lemma WithHistoryMessageSpec(h: seq<HistoryEntry>, state: SessionState, message: string)
    ensures var w := WithHistoryMessage(h, state, message);
      && |w| == |h| + 1
      && w[|h|] == HistoryEntry(state, message)
      && (forall k :: 0 <= k < |h| ==>
            w[k].state == h[k].state &&
            w[k].message == if h[k].state == state then message else h[k].message)
      && (forall k :: 0 <= k < |w| && w[k].state == state ==> w[k].message == message)
      && CountState(w, state) == CountState(h, state) + 1
  {
    var w := WithHistoryMessage(h, state, message);
    if h != [] {
      RewriteMessagesAt(h, state, message, 0);
    }
    forall k | 0 <= k < |h|
      ensures w[k] == if h[k].state == state then h[k].(message := message) else h[k]
    {
      RewriteMessagesAt(h, state, message, k);
    }
    RewriteMessagesCount(h, state, message, state);
    CountStateAppend(RewriteMessages(h, state, message), [HistoryEntry(state, message)], state);
    assert CountState([HistoryEntry(state, message)], state) == 1;
  }

  /** Rewriting the messages a second time changes nothing. */
  lemma {:induction false} RewriteMessagesIdempotent(h: seq<HistoryEntry>, state: SessionState, message: string)
    ensures RewriteMessages(RewriteMessages(h, state, message), state, message) == RewriteMessages(h, state, message)
  {
    if h != [] {
      RewriteMessagesIdempotent(h[1..], state, message);
    }
  }

  /**
   * Setting the message again on the resulting history appends yet another
   * entry: the session then has two more entries for the state than before.
   */
  lemma RefailAppendsAgain(h: seq<HistoryEntry>, state: SessionState, message: string)
    ensures CountState(WithHistoryMessage(WithHistoryMessage(h, state, message), state, message), state) ==
            CountState(h, state) + 2
  {
    WithHistoryMessageSpec(h, state, message);
    WithHistoryMessageSpec(WithHistoryMessage(h, state, message), state, message);
  }

  /**
   * Gives every history entry of the session recorded for `state` the
   * message, then appends an entry (state, message).
   */
  method SetKickstartSessionHistoryMessage(ksSession: KickstartSession, state: SessionState, message: string)
    modifies ksSession`history
    ensures ksSession.history == WithHistoryMessage(old(ksSession.history), state, message)
  {
    ghost var h0 := ksSession.history;
    var i := 0;
    while i < |ksSession.history|
      invariant 0 <= i <= |ksSession.history| == |h0|
      invariant forall k :: 0 <= k < i ==>
        ksSession.history[k] == if h0[k].state == state then h0[k].(message := message) else h0[k]
      invariant forall k :: i <= k < |h0| ==> ksSession.history[k] == h0[k]
    {
      if ksSession.history[i].state == state {
        ksSession.history := ksSession.history[i := ksSession.history[i].(message := message)];
      }
      i := i + 1;
    }
    if h0 != [] {
      RewriteMessagesAt(h0, state, message, 0);
    }
    forall k | 0 <= k < |h0|
      ensures ksSession.history[k] == RewriteMessages(h0, state, message)[k]
    {
      RewriteMessagesAt(h0, state, message, k);
    }
    assert ksSession.history == RewriteMessages(h0, state, message);
    ksSession.AddHistory(state, message);
  }

  /**
   * Fails every pending session: state failed, action detached, and the
   * cancellation message recorded in its history. Sessions outside `pending`
   * are not touched.
   */
  method FailKickstartSessions(pending: set<KickstartSession>)
    modifies pending
    ensures forall ks :: ks in pending ==>
      && ks.state == Failed
      && ks.action == None
      && ks.history == WithHistoryMessage(old(ks.history), Failed, KickstartCancelledMessage)
  {
    var rest := pending;
    while rest != {}
      invariant rest <= pending
      invariant forall ks :: ks in pending && ks !in rest ==>
        && ks.state == Failed
        && ks.action == None
        && ks.history == WithHistoryMessage(old(ks.history), Failed, KickstartCancelledMessage)
      invariant forall ks :: ks in rest ==> ks.history == old(ks.history)
      decreases rest
    {
      var ks :| ks in rest;
      ks.state := Failed;
      ks.action := None;
      SetKickstartSessionHistoryMessage(ks, Failed, KickstartCancelledMessage);
      rest := rest - {ks};
    }
  }
}
