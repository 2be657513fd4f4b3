/**
 * The tree edit operation: a command object holding the kickstartable tree
 * being edited. Its setters change one field of the tree each; `Store`
 * validates the label, then saves the tree and synchronises it to Cobbler.
 */
module TreeEdit {
  import opened Wrappers
  import opened Sequences
  import opened KickstartDomain
  import KickstartFactory

  /** Message key of the error `Store` returns for a malformed label. */
  const InvalidLabelKey: string := "kickstart.tree.invalidlabel"

  /** Capability of the packages that provide a kickstart boot image. */
  const KickstartCapability: string := "rhn.kickstart.boot_image"

  const MaxLabelLength: nat := 255

  datatype User = User(id: int, org: OrgId)

  datatype ValidatorError = ValidatorError(key: string)

  datatype PackageListItem = PackageListItem(id: int, name: string, evr: string)

  datatype ChannelVersion = ChannelVersion(name: string)

  /** What the operation does outside itself: a save to the database, a sync to Cobbler. */
  datatype Effect = SavedTree(tree: Tree) | CobblerStore(tree: Tree)

  // ---------------------------------------------------------------------------
  // Label validation: ^([-_0-9A-Za-z@.]{1,255})$
  // ---------------------------------------------------------------------------

  /** The character class [-_0-9A-Za-z@.]. */
  predicate IsLabelChar(c: char)
  {
    c == '-' || c == '_' || '0' <= c <= '9' || 'A' <= c <= 'Z' || 'a' <= c <= 'z' || c == '@' || c == '.'
  }

  /** `s`, as a whole, matches the class repeated between `min` and `max` times. */
  function MatchesLabelClass(s: string, min: nat, max: nat): (r: bool)
  {
    if s == [] then min == 0
    else 0 < max && IsLabelChar(s[0]) && MatchesLabelClass(s[1..], if min == 0 then 0 else min - 1, max - 1)
  }

  /** The label pattern, anchored at both ends. */
  predicate ValidLabel(treeLabel: string)
  {
    MatchesLabelClass(treeLabel, 1, MaxLabelLength)
  }

  /** A bounded repetition of the class matches exactly the strings of the class with a length in bounds. */
  lemma {:induction false} MatchesLabelClassIff(s: string, min: nat, max: nat)
    ensures MatchesLabelClass(s, min, max) <==>
      min <= |s| <= max && forall i :: 0 <= i < |s| ==> IsLabelChar(s[i])
  {
    if s != [] && 0 < max {
      var min' := if min == 0 then 0 else min - 1;
      MatchesLabelClassIff(s[1..], min', max - 1);
      if forall i :: 0 <= i < |s| - 1 ==> IsLabelChar(s[1..][i]) {
        if IsLabelChar(s[0]) {
          forall i | 0 <= i < |s| ensures IsLabelChar(s[i]) {
            if i > 0 {
              assert s[i] == s[1..][i - 1];
            }
          }
        }
      }
    }
  }

  /** A label with a space or a slash in it is rejected. */
  lemma LabelWithSeparatorInvalid(treeLabel: string, i: nat)
    requires i < |treeLabel| && (treeLabel[i] == ' ' || treeLabel[i] == '/')
    ensures !ValidLabel(treeLabel)
  {
    MatchesLabelClassIff(treeLabel, 1, MaxLabelLength);
  }

  // ---------------------------------------------------------------------------
  // Package names
  // ---------------------------------------------------------------------------

  /** Each item's name with the first occurrence of the legacy package name cut out. */
  function StripLegacyNames(items: seq<PackageListItem>, legacy: string): (r: seq<PackageListItem>)
  {
    seq(|items|, i requires 0 <= i < |items| => items[i].(name := RemoveFirst(items[i].name, legacy)))
  }

  /**
   * The rewrite keeps the list's length, order and every field but the name;
   * a name loses its first occurrence of the legacy name, or stays as it is
   * when it has none.
   */
  lemma StripLegacyNamesSpec(items: seq<PackageListItem>, legacy: string, k: nat)
    requires k < |items|
    ensures var r := StripLegacyNames(items, legacy);
      && |r| == |items|
      && r[k].id == items[k].id && r[k].evr == items[k].evr
      && (forall i ::
            (0 <= i <= |items[k].name| && OccursAt(items[k].name, legacy, i) &&
             forall j :: 0 <= j < i ==> !OccursAt(items[k].name, legacy, j))
            ==> r[k].name == items[k].name[..i] + items[k].name[i + |legacy|..])
      && ((forall j :: 0 <= j <= |items[k].name| ==> !OccursAt(items[k].name, legacy, j)) ==>
            r[k] == items[k])
  {
    var name := items[k].name;
    forall i | 0 <= i <= |name| && OccursAt(name, legacy, i) &&
               (forall j :: 0 <= j < i ==> !OccursAt(name, legacy, j))
      ensures RemoveFirst(name, legacy) == name[..i] + name[i + |legacy|..]
    {
      RemoveFirstSpec(name, legacy, i);
    }
    if forall j :: 0 <= j <= |name| ==> !OccursAt(name, legacy, j) {
      RemoveFirstAbsent(name, legacy);
    }
  }

  // ---------------------------------------------------------------------------
  // Install types
  // ---------------------------------------------------------------------------

  /**
   * An install type applies to a channel whose versions include the type's
   * version. Both may be null: a null version applies exactly when the
   * channel's version set holds null.
   */
  function ApplicableTo(channelVersions: set<Option<ChannelVersion>>, versionFor: InstallType -> Option<ChannelVersion>)
    : InstallType -> bool
  {
    (t: InstallType) => versionFor(t) in channelVersions
  }

  // ---------------------------------------------------------------------------
  // The operation
  // ---------------------------------------------------------------------------

  /** Number of Cobbler syncs among `effects`. */
  function CobblerStoreCount(effects: seq<Effect>): (r: nat)
  {
    if effects == [] then 0
    else (if effects[0].CobblerStore? then 1 else 0) + CobblerStoreCount(effects[1..])
  }

  lemma {:induction false} CobblerStoreCountAppend(a: seq<Effect>, b: seq<Effect>)
    ensures CobblerStoreCount(a + b) == CobblerStoreCount(a) + CobblerStoreCount(b)
  {
    if a == [] {
      assert a + b == b;
    } else {
      assert (a + b)[1..] == a[1..] + b;
      CobblerStoreCountAppend(a[1..], b);
    }
  }

  /** Cobbler is only ever given a tree right after that same tree was saved. */
  ghost predicate EverySyncFollowsSave(effects: seq<Effect>)
  {
    forall i :: 0 <= i < |effects| && effects[i].CobblerStore? ==>
      0 < i && effects[i - 1] == SavedTree(effects[i].tree)
  }

  class BaseTreeEditOperation {
    const user: User
    /** The tree being edited; null until set or when the lookup by label found none. */
    var tree: Option<Tree>
    /** The saves and Cobbler syncs `Store` has performed, oldest first. */
    var effects: seq<Effect>

    ghost predicate Valid()
      reads this
    {
      EverySyncFollowsSave(effects)
    }

    constructor (userIn: User)
      ensures Valid()
      ensures user == userIn && tree == None && effects == []
    {
      user := userIn;
      tree := None;
      effects := [];
    }

    /** Starts from the tree the user's org sees under `treeLabel`, if any. */
    constructor ForLabel(treeLabel: string, userIn: User, trees: seq<Tree>)
      ensures Valid()
      ensures user == userIn && effects == []
      ensures tree == KickstartFactory.LookupKickstartTreeByLabel(trees, treeLabel, userIn.org)
    {
      user := userIn;
      tree := KickstartFactory.LookupKickstartTreeByLabel(trees, treeLabel, userIn.org);
      effects := [];
    }

    /** Whether the tree's label matches the label pattern. */
    function ValidateLabel(): (valid: bool)
      reads this
      requires tree.Some?
      ensures valid <==>
        1 <= |tree.value.treeLabel| <= MaxLabelLength &&
        forall i :: 0 <= i < |tree.value.treeLabel| ==> IsLabelChar(tree.value.treeLabel[i])
    {
      MatchesLabelClassIff(tree.value.treeLabel, 1, MaxLabelLength);
      ValidLabel(tree.value.treeLabel)
    }

    /**
     * With an invalid label: nothing is saved or synced, and the error
     * `kickstart.tree.invalidlabel` is returned. With a valid label: the tree
     * is saved, then synced to Cobbler once, and no error is returned.
     */
    method Store() returns (err: Option<ValidatorError>)
      requires Valid() && tree.Some?
      modifies this`effects
      ensures Valid()
      ensures !ValidLabel(tree.value.treeLabel) ==>
        err == Some(ValidatorError(InvalidLabelKey)) && effects == old(effects)
      ensures ValidLabel(tree.value.treeLabel) ==>
        err == None && effects == old(effects) + [SavedTree(tree.value), CobblerStore(tree.value)]
      ensures CobblerStoreCount(effects) ==
        CobblerStoreCount(old(effects)) + if ValidLabel(tree.value.treeLabel) then 1 else 0
    {
      if !ValidateLabel() {
        return Some(ValidatorError(InvalidLabelKey));
      }
      ghost var before := effects;
      // KickstartFactory.saveKickstartableTree
      effects := effects + [SavedTree(tree.value)];
      // getCobblerCommand().store()
      effects := effects + [CobblerStore(tree.value)];
      ghost var added := [SavedTree(tree.value), CobblerStore(tree.value)];
      assert effects == before + added;
      CobblerStoreCountAppend(before, added);
      assert added[1..][1..] == [];
      assert CobblerStoreCount(added[1..]) == 1;
      return None;
    }

    method SetInstallType(typeIn: InstallType)
      requires tree.Some?
      modifies this`tree
      ensures tree == Some(old(tree).value.(installType := typeIn))
    {
      tree := Some(tree.value.(installType := typeIn));
    }

    method SetLabel(labelIn: string)
      requires tree.Some?
      modifies this`tree
      ensures tree == Some(old(tree).value.(treeLabel := labelIn))
    {
      tree := Some(tree.value.(treeLabel := labelIn));
    }

    method SetBasePath(url: string)
      requires tree.Some?
      modifies this`tree
      ensures tree == Some(old(tree).value.(basePath := url))
    {
      tree := Some(tree.value.(basePath := url));
    }

    method SetBootImage(imgIn: string)
      requires tree.Some?
      modifies this`tree
      ensures tree == Some(old(tree).value.(bootImage := imgIn))
    {
      tree := Some(tree.value.(bootImage := imgIn));
    }

    method SetChannel(channelIn: Channel)
      requires tree.Some?
      modifies this`tree
      ensures tree == Some(old(tree).value.(channel := channelIn))
    {
      tree := Some(tree.value.(channel := channelIn));
    }

    /** Cuts the legacy package name out of every item's name, in place. */
    method ReplaceLegacyPackageNames(packageListItems: array<PackageListItem>, legacy: string)
      modifies packageListItems
      ensures packageListItems[..] == StripLegacyNames(old(packageListItems[..]), legacy)
    {
      var i := 0;
      while i < packageListItems.Length
        invariant 0 <= i <= packageListItems.Length
        invariant forall k :: 0 <= k < i ==>
          packageListItems[k] == old(packageListItems[k]).(name := RemoveFirst(old(packageListItems[k]).name, legacy))
        invariant forall k :: i <= k < packageListItems.Length ==> packageListItems[k] == old(packageListItems[k])
      {
        var pli := packageListItems[i];
        packageListItems[i] := pli.(name := RemoveFirst(pli.name, legacy));
        i := i + 1;
      }
    }

    /** The auto-kickstart packages of the user's org, with legacy names rewritten. */
    method GetAutoKickstartPackageNames(
      packageNamesByCapability: (OrgId, string) -> seq<PackageListItem>, legacy: string)
      returns (retval: seq<PackageListItem>)
      ensures retval == StripLegacyNames(packageNamesByCapability(user.org, KickstartCapability), legacy)
    {
      var found := packageNamesByCapability(user.org, KickstartCapability);
      var items := new PackageListItem[|found|](i requires 0 <= i < |found| => found[i]);
      assert items[..] == found;
      ReplaceLegacyPackageNames(items, legacy);
      retval := items[..];
    }

    /**
     * The kickstart packages of the tools channel paired with `baseChannel`,
     * legacy names rewritten; empty when there is no tools channel.
     */
    method GetKickstartPackageNamesForChannel(
      baseChannel: Channel,
      getToolsChannel: (Channel, User) -> Option<Channel>,
      packageNamesByCapabilityAndChannel: (OrgId, string, Channel) -> seq<PackageListItem>,
      legacy: string)
      returns (retval: seq<PackageListItem>)
      ensures getToolsChannel(baseChannel, user).None? ==> retval == []
      ensures getToolsChannel(baseChannel, user).Some? ==>
        retval == StripLegacyNames(
          packageNamesByCapabilityAndChannel(user.org, KickstartCapability, getToolsChannel(baseChannel, user).value),
          legacy)
    {
      var toolsChannel := getToolsChannel(baseChannel, user);
      if toolsChannel.None? {
        return [];
      }
      var ksPackages := packageNamesByCapabilityAndChannel(user.org, KickstartCapability, toolsChannel.value);
      var items := new PackageListItem[|ksPackages|](i requires 0 <= i < |ksPackages| => ksPackages[i]);
      assert items[..] == ksPackages;
      ReplaceLegacyPackageNames(items, legacy);
      retval := items[..];
    }

    /**
     * The install types, in their order, whose channel version is one of the
     * channel's versions.
     */
    method GetKickstartInstallTypesForChannel(
      channel: Channel,
      installTypes: seq<InstallType>,
      getChannelVersions: Channel -> set<Option<ChannelVersion>>,
      versionFor: InstallType -> Option<ChannelVersion>)
      returns (returnInstallTypes: seq<InstallType>)
      ensures returnInstallTypes == Filter(installTypes, ApplicableTo(getChannelVersions(channel), versionFor))
      ensures forall i :: 0 <= i < |installTypes| ==>
        (installTypes[i] in returnInstallTypes <==> versionFor(installTypes[i]) in getChannelVersions(channel))
    {
      var channelVersions := getChannelVersions(channel);
      returnInstallTypes := [];
      var i := 0;
      while i < |installTypes|
        invariant 0 <= i <= |installTypes|
        invariant returnInstallTypes == Filter(installTypes[..i], ApplicableTo(channelVersions, versionFor))
      {
        var ksType := installTypes[i];
        assert installTypes[..i + 1] == installTypes[..i] + [ksType];
        FilterSnoc(installTypes[..i], ksType, ApplicableTo(channelVersions, versionFor));
        if versionFor(ksType) in channelVersions {
          returnInstallTypes := returnInstallTypes + [ksType];
        }
        i := i + 1;
      }
      assert installTypes[..i] == installTypes;
      forall k | 0 <= k < |installTypes|
        ensures installTypes[k] in returnInstallTypes <==> ApplicableTo(channelVersions, versionFor)(installTypes[k])
      {
        FilterKeeps(installTypes, ApplicableTo(channelVersions, versionFor), k);
      }
    }
  }
}
