/**
 * The kickstart entities the factory and the tree edit operation work on.
 * Rows of the relational store are values; a kickstart session, whose state
 * and history the factory changes in place, is an object.
 */
module KickstartDomain {
  import opened Wrappers

  /**
   * Organisations, servers, actions and entities are identified by their
   * surrogate ids. (`label` is a Dafny keyword, so labels are called `name`,
   * and a tree's label `treeLabel`.)
   */
  type OrgId = int

  datatype Channel = Channel(id: int, name: string, org: Option<OrgId>)

  datatype InstallType = InstallType(id: int, name: string)

  /** A kickstartable tree; `org` None means the tree is owned by the system (RHN), not an org. */
  datatype Tree = Tree(
    id: int,
    treeLabel: string,
    basePath: string,
    bootImage: string,
    installType: InstallType,
    channel: Channel,
    org: Option<OrgId>)

  /**
   * A kickstart profile (KickstartData). Whether it targets a legacy release or
   * a release before RHEL 5 is derived from its install type elsewhere; here
   * the two answers are given.
   */
  datatype Profile = Profile(
    id: int,
    name: string,
    org: OrgId,
    isLegacyKickstart: bool,
    isPreRHEL5Kickstart: bool)

  datatype CommandName = CommandName(id: int, name: string)

  datatype KickstartScript = KickstartScript(id: int, profile: Profile, language: string, contents: string)

  datatype SessionState = Created | Started | ConfigurationAccessed | Complete | Failed

  datatype HistoryEntry = HistoryEntry(state: SessionState, message: string)

  /** One provisioning attempt of a server: its current state, its action and its history log. */
  class KickstartSession {
    const id: int
    const server: int
    var state: SessionState
    var action: Option<int>
    var history: seq<HistoryEntry>

    constructor (id: int, server: int, action: Option<int>)
      ensures this.id == id && this.server == server && this.action == action
      ensures state == Created && history == []
    {
      this.id := id;
      this.server := server;
      this.action := action;
      state := Created;
      history := [];
    }

    /** Appends one entry to the history log. */
    method AddHistory(state: SessionState, message: string)
      modifies this`history
      ensures history == old(history) + [HistoryEntry(state, message)]
    {
      history := history + [HistoryEntry(state, message)];
    }
  }
}
