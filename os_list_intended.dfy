/**
 * The listing the help texts of CHANLIST and USERLIST describe, next to the
 * one the commands produce. The commands build a list of required modes from
 * the SECRET / INVISIBLE keyword, but the `continue` inside each mode loop
 * only moves on to the next mode, so no entity is ever skipped. Here a
 * channel or user that lacks one of the requested modes is left out, which
 * is what the loops were evidently written to do; the model of the commands
 * themselves (module OsList) keeps the behaviour as written.
 */
module OsListIntended {
  import opened Selection
  import opened Registry
  import opened CiString
  import opened OsList

  /** An entity whose mode set is `have` has every mode in `modes`. */
  predicate HasModes<M>(have: set<M>, modes: seq<M>) {
    forall k :: 0 <= k < |modes| ==> modes[k] in have
  }

  function ChannelModeFilter(modes: seq<ChannelModeName>): (keep: Channel -> bool) {
    (c: Channel) => HasModes(c.modes, modes)
  }

  function IntendedChannelScanFilter(pattern: string, matches: (string, string) -> bool,
                                     modes: seq<ChannelModeName>): (keep: Channel -> bool) {
    (c: Channel) => (pattern == "" || matches(c.name, pattern)) && HasModes(c.modes, modes)
  }

  function UserModeFilter(modes: seq<UserModeName>): (keep: User -> bool) {
    (u: User) => HasModes(u.modes, modes)
  }

  /** As in the command, the mode check sits inside the `if (!pattern.empty())` block. */
  function IntendedUserScanFilter(pattern: string, matches: (string, string) -> bool,
                                  modes: seq<UserModeName>): (keep: User -> bool) {
    (u: User) => pattern == "" || (matches(Mask(u), pattern) && HasModes(u.modes, modes))
  }

  // ---------------------------------------------------------------- CHANLIST

  /** The channels CHANLIST was meant to list: only those that have every requested mode. */
  function IntendedListedChannels(net: Snapshot, pattern: string, modes: seq<ChannelModeName>,
                                  matches: (string, string) -> bool, sameName: (string, string) -> bool): (cs: seq<Channel>)
    requires net.Valid()
    ensures forall k :: 0 <= k < |cs| ==> cs[k] in net.channels && HasModes(cs[k].modes, modes)
  {
    match ChanListMode(net, pattern, sameName)
    case Traversal(i) =>
      DerefWithin(net.channels, net.users[i].chans);
      Filter(Deref(net.channels, net.users[i].chans), ChannelModeFilter(modes))
    case Scan => Filter(net.channels, IntendedChannelScanFilter(pattern, matches, modes))
  }

  /**
   * In scan the intended CHANLIST listing is the registry's channels that
   * the pattern admits and that have every requested mode, each once and in
   * registry order.
   */
  lemma IntendedChanListScan(net: Snapshot, pattern: string, modes: seq<ChannelModeName>,
                             matches: (string, string) -> bool, sameName: (string, string) -> bool)
    requires net.Valid()
    requires ChanListMode(net, pattern, sameName).Scan?
    ensures var cs := IntendedListedChannels(net, pattern, modes, matches, sameName);
            var p := Positions(net.channels, IntendedChannelScanFilter(pattern, matches, modes));
      && |cs| == |p|
      && (forall k :: 0 <= k < |p| ==> cs[k] == net.channels[p[k]])
      && (forall k, l :: 0 <= k < l < |p| ==> p[k] < p[l])
      && (forall j :: 0 <= j < |net.channels| ==>
            (j in p <==> (pattern == "" || matches(net.channels[j].name, pattern))
                         && HasModes(net.channels[j].modes, modes)))
  {
    FilterAtPositions(net.channels, IntendedChannelScanFilter(pattern, matches, modes));
  }

  /**
   * In traversal the intended CHANLIST listing is the found user's channels
   * that have every requested mode, each once and in the order of the
   * user's list.
   */
  lemma IntendedChanListTraversal(net: Snapshot, pattern: string, modes: seq<ChannelModeName>,
                                  matches: (string, string) -> bool, sameName: (string, string) -> bool)
    requires net.Valid()
    requires ChanListMode(net, pattern, sameName).Traversal?
    ensures var chans := net.users[ChanListMode(net, pattern, sameName).target].chans;
            var cs := IntendedListedChannels(net, pattern, modes, matches, sameName);
            var p := Positions(Deref(net.channels, chans), ChannelModeFilter(modes));
      && |cs| == |p|
      && (forall k :: 0 <= k < |p| ==> p[k] < |chans| && cs[k] == net.channels[chans[p[k]]])
      && (forall k, l :: 0 <= k < l < |p| ==> p[k] < p[l])
      && (forall j :: 0 <= j < |chans| ==> (j in p <==> HasModes(net.channels[chans[j]].modes, modes)))
  {
    var chans := net.users[ChanListMode(net, pattern, sameName).target].chans;
    FilterAtPositions(Deref(net.channels, chans), ChannelModeFilter(modes));
  }

  /** CHANLIST with the SECRET filter applied; header and footer are those of the command. */
  function IntendedChanListReplies(net: Snapshot, params: seq<string>, matches: (string, string) -> bool,
                                   sameName: (string, string) -> bool): (replies: seq<Reply>)
    requires net.Valid()
  {
    IntendedChanListing(net, PatternOf(params), RequestedChannelModes(OptionOf(params)), matches, sameName)
  }

  /** The intended CHANLIST reply for a pattern and the modes asked for. */
  function IntendedChanListing(net: Snapshot, pattern: string, modes: seq<ChannelModeName>,
                               matches: (string, string) -> bool, sameName: (string, string) -> bool): (replies: seq<Reply>)
    requires net.Valid()
  {
    [ChanListHeader(net, pattern, sameName)]
    + Map(IntendedListedChannels(net, pattern, modes, matches, sameName), ChannelRowOf)
    + [ChannelListEnd]
  }

  /** Asking for +s and +p, the intended listing keeps live channels that have both. */
  lemma IntendedListedChannelsAreSecret(net: Snapshot, pattern: string, matches: (string, string) -> bool,
                                        sameName: (string, string) -> bool)
    requires net.Valid()
    ensures var listed := IntendedListedChannels(net, pattern, [Secret, Private], matches, sameName);
      forall k :: 0 <= k < |listed| ==>
        listed[k] in net.channels && Secret in listed[k].modes && Private in listed[k].modes
  {
    var listed := IntendedListedChannels(net, pattern, [Secret, Private], matches, sameName);
    forall k | 0 <= k < |listed|
      ensures Secret in listed[k].modes && Private in listed[k].modes
    {
      assert HasModes(listed[k].modes, [Secret, Private]);
      assert [Secret, Private][0] in listed[k].modes && [Secret, Private][1] in listed[k].modes;
    }
  }

  /**
   * With SECRET given, the intended reply has one row per channel the
   * intended filter keeps, in order, and each is the row of a live channel
   * with both +s and +p.
   */
  lemma IntendedChanListRowsHaveModes(net: Snapshot, params: seq<string>, matches: (string, string) -> bool,
                                      sameName: (string, string) -> bool)
    requires net.Valid()
    requires EqualsCi(OptionOf(params), "SECRET")
    ensures var listed := IntendedListedChannels(net, PatternOf(params), [Secret, Private], matches, sameName);
            var r := IntendedChanListReplies(net, params, matches, sameName);
      && |r| == |listed| + 2
      && (forall k :: 0 <= k < |listed| ==>
            && r[k + 1] == ChannelRowOf(listed[k]) && listed[k] in net.channels
            && Secret in listed[k].modes && Private in listed[k].modes)
      && forall k :: 0 < k < |r| - 1 ==> r[k].ChannelRow? && Secret in r[k].modes && Private in r[k].modes
  {
    var pattern := PatternOf(params);
    assert RequestedChannelModes(OptionOf(params)) == [Secret, Private];
    var listed := IntendedListedChannels(net, pattern, [Secret, Private], matches, sameName);
    IntendedListedChannelsAreSecret(net, pattern, matches, sameName);
    var r := IntendedChanListing(net, pattern, [Secret, Private], matches, sameName);
    assert IntendedChanListReplies(net, params, matches, sameName) == r;
    FramedRows(ChanListHeader(net, pattern, sameName), Map(listed, ChannelRowOf), ChannelListEnd);
    assert forall k :: 0 < k < |r| - 1 ==> r[k] == ChannelRowOf(listed[k - 1]);
  }

  /** With no mode requested the intended rows are exactly the rows the command gives. */
  lemma IntendedChanListRowsWithoutModes(net: Snapshot, pattern: string, matches: (string, string) -> bool,
                                         sameName: (string, string) -> bool)
    requires net.Valid()
    ensures Map(IntendedListedChannels(net, pattern, [], matches, sameName), ChannelRowOf)
         == ChanListRows(net, pattern, matches, sameName)
  {
    match ChanListMode(net, pattern, sameName)
    case Traversal(i) =>
      var listed := Deref(net.channels, net.users[i].chans);
      FilterMapIsMapOfFilter(listed, ChannelModeFilter([]), ChannelRowOf);
      FilterMapKeepingAll(listed, ChannelModeFilter([]), ChannelRowOf);
    case Scan =>
      forall k | 0 <= k < |net.channels|
        ensures IntendedChannelScanFilter(pattern, matches, [])(net.channels[k])
             == ChannelScanFilter(pattern, matches)(net.channels[k])
      {
        assert HasModes(net.channels[k].modes, []);
      }
      FilterMapIsMapOfFilter(net.channels, IntendedChannelScanFilter(pattern, matches, []), ChannelRowOf);
      FilterMapCongruent(net.channels, IntendedChannelScanFilter(pattern, matches, []),
                         ChannelScanFilter(pattern, matches), ChannelRowOf);
  }

  /**
   * The option has no effect on CHANLIST: whatever follows the pattern, the
   * reply is the intended reply to the pattern alone.
   */
  lemma ChanListIgnoresOption(net: Snapshot, params: seq<string>, matches: (string, string) -> bool,
                              sameName: (string, string) -> bool)
    requires net.Valid()
    ensures ChanListReplies(net, params, matches, sameName)
         == IntendedChanListReplies(net, [PatternOf(params)], matches, sameName)
  {
    var alone := [PatternOf(params)];
    assert PatternOf(alone) == PatternOf(params) && OptionOf(alone) == "";
    assert RequestedChannelModes("") == [];
    IntendedChanListRowsWithoutModes(net, PatternOf(params), matches, sameName);
  }

  /** `CHANLIST #a SECRET` still lists #a although it has neither +s nor +p. */
  lemma SecretListsChannelWithoutModes()
    ensures var net := Snapshot([Channel("#a", {}, "", [])], []);
            var params := ["#a", "SECRET"];
            var same := (a: string, b: string) => a == b;
      && ChanListReplies(net, params, same, same) == [ChannelListAll, ChannelRow("#a", 0, {}, ""), ChannelListEnd]
      && IntendedChanListReplies(net, params, same, same) == [ChannelListAll, ChannelListEnd]
  {
    var net := Snapshot([Channel("#a", {}, "", [])], []);
    var params := ["#a", "SECRET"];
    var same := (a: string, b: string) => a == b;
    assert RequestedChannelModes(OptionOf(params)) == [Secret, Private] by {
      assert EqualsCi(OptionOf(params), "SECRET");
    }
    assert ChanListMode(net, "#a", same) == Scan;
    assert ChanListRows(net, "#a", same, same) == [ChannelRow("#a", 0, {}, "")] by {
      assert net.channels[..0] == [];
    }
    assert IntendedListedChannels(net, "#a", [Secret, Private], same, same) == [] by {
      assert net.channels[..0] == [];
      assert !HasModes(net.channels[0].modes, [Secret, Private]) by {
        assert [Secret, Private][0] !in net.channels[0].modes;
      }
    }
  }

  // ---------------------------------------------------------------- USERLIST

  /**
   * The users USERLIST was meant to list: when a pattern is given, only
   * those that have every requested mode.
   */
  function IntendedListedUsers(net: Snapshot, pattern: string, modes: seq<UserModeName>,
                               matches: (string, string) -> bool, sameName: (string, string) -> bool): (us: seq<User>)
    requires net.Valid()
    ensures forall k :: 0 <= k < |us| ==> us[k] in net.users && (pattern != "" ==> HasModes(us[k].modes, modes))
  {
    match UserListMode(net, pattern, sameName)
    case Traversal(i) =>
      DerefWithin(net.users, net.channels[i].users);
      Filter(Deref(net.users, net.channels[i].users), UserModeFilter(modes))
    case Scan => Filter(net.users, IntendedUserScanFilter(pattern, matches, modes))
  }

  /**
   * In scan the intended USERLIST listing is the registry's users that the
   * pattern admits, with every requested mode when a pattern is given, each
   * once and in registry order.
   */
  lemma IntendedUserListScan(net: Snapshot, pattern: string, modes: seq<UserModeName>,
                             matches: (string, string) -> bool, sameName: (string, string) -> bool)
    requires net.Valid()
    requires UserListMode(net, pattern, sameName).Scan?
    ensures var us := IntendedListedUsers(net, pattern, modes, matches, sameName);
            var p := Positions(net.users, IntendedUserScanFilter(pattern, matches, modes));
      && |us| == |p|
      && (forall k :: 0 <= k < |p| ==> us[k] == net.users[p[k]])
      && (forall k, l :: 0 <= k < l < |p| ==> p[k] < p[l])
      && (forall j :: 0 <= j < |net.users| ==>
            (j in p <==> pattern == "" || (matches(Mask(net.users[j]), pattern)
                                           && HasModes(net.users[j].modes, modes))))
  {
    FilterAtPositions(net.users, IntendedUserScanFilter(pattern, matches, modes));
  }

  /**
   * In traversal the intended USERLIST listing is the found channel's members
   * that have every requested mode, each once and in the order of the
   * channel's list.
   */
  lemma IntendedUserListTraversal(net: Snapshot, pattern: string, modes: seq<UserModeName>,
                                  matches: (string, string) -> bool, sameName: (string, string) -> bool)
    requires net.Valid()
    requires UserListMode(net, pattern, sameName).Traversal?
    ensures var members := net.channels[UserListMode(net, pattern, sameName).target].users;
            var us := IntendedListedUsers(net, pattern, modes, matches, sameName);
            var p := Positions(Deref(net.users, members), UserModeFilter(modes));
      && |us| == |p|
      && (forall k :: 0 <= k < |p| ==> p[k] < |members| && us[k] == net.users[members[p[k]]])
      && (forall k, l :: 0 <= k < l < |p| ==> p[k] < p[l])
      && (forall j :: 0 <= j < |members| ==> (j in p <==> HasModes(net.users[members[j]].modes, modes)))
  {
    var members := net.channels[UserListMode(net, pattern, sameName).target].users;
    FilterAtPositions(Deref(net.users, members), UserModeFilter(modes));
  }

  /** USERLIST with the INVISIBLE filter applied; header and footer are those of the command. */
  function IntendedUserListReplies(net: Snapshot, params: seq<string>, matches: (string, string) -> bool,
                                   sameName: (string, string) -> bool): (replies: seq<Reply>)
    requires net.Valid()
  {
    IntendedUserListing(net, PatternOf(params), RequestedUserModes(OptionOf(params)), matches, sameName)
  }

  /** The intended USERLIST reply for a pattern and the modes asked for. */
  function IntendedUserListing(net: Snapshot, pattern: string, modes: seq<UserModeName>,
                               matches: (string, string) -> bool, sameName: (string, string) -> bool): (replies: seq<Reply>)
    requires net.Valid()
  {
    [UserListHeader(net, pattern, sameName)]
    + Map(IntendedListedUsers(net, pattern, modes, matches, sameName), UserRowOf)
    + [UserListEnd]
  }

  /** Asking for +i with a pattern given, the intended listing keeps live +i users only. */
  lemma IntendedListedUsersAreInvisible(net: Snapshot, pattern: string, matches: (string, string) -> bool,
                                        sameName: (string, string) -> bool)
    requires net.Valid()
    requires pattern != ""
    ensures var listed := IntendedListedUsers(net, pattern, [Invisible], matches, sameName);
      forall k :: 0 <= k < |listed| ==> listed[k] in net.users && Invisible in listed[k].modes
  {
    var listed := IntendedListedUsers(net, pattern, [Invisible], matches, sameName);
    forall k | 0 <= k < |listed|
      ensures Invisible in listed[k].modes
    {
      assert HasModes(listed[k].modes, [Invisible]);
      assert [Invisible][0] in listed[k].modes;
    }
  }

  /** With INVISIBLE and a pattern given, every user the intended listing shows is a live +i user. */
  lemma IntendedUserListRowsHaveModes(net: Snapshot, params: seq<string>, matches: (string, string) -> bool,
                                      sameName: (string, string) -> bool)
    requires net.Valid()
    requires PatternOf(params) != ""
    requires EqualsCi(OptionOf(params), "INVISIBLE")
    ensures var listed := IntendedListedUsers(net, PatternOf(params), [Invisible], matches, sameName);
            var r := IntendedUserListReplies(net, params, matches, sameName);
      && |r| == |listed| + 2
      && forall k :: 0 <= k < |listed| ==>
           r[k + 1] == UserRowOf(listed[k]) && listed[k] in net.users && Invisible in listed[k].modes
  {
    var pattern := PatternOf(params);
    assert RequestedUserModes(OptionOf(params)) == [Invisible];
    var listed := IntendedListedUsers(net, pattern, [Invisible], matches, sameName);
    IntendedListedUsersAreInvisible(net, pattern, matches, sameName);
    var r := IntendedUserListing(net, pattern, [Invisible], matches, sameName);
    assert IntendedUserListReplies(net, params, matches, sameName) == r;
    FramedRows(UserListHeader(net, pattern, sameName), Map(listed, UserRowOf), UserListEnd);
  }

  /** With no mode requested the intended rows are exactly the rows the command gives. */
  lemma IntendedUserListRowsWithoutModes(net: Snapshot, pattern: string, matches: (string, string) -> bool,
                                         sameName: (string, string) -> bool)
    requires net.Valid()
    ensures Map(IntendedListedUsers(net, pattern, [], matches, sameName), UserRowOf)
         == UserListRows(net, pattern, matches, sameName)
  {
    match UserListMode(net, pattern, sameName)
    case Traversal(i) =>
      var listed := Deref(net.users, net.channels[i].users);
      FilterMapIsMapOfFilter(listed, UserModeFilter([]), UserRowOf);
      FilterMapKeepingAll(listed, UserModeFilter([]), UserRowOf);
    case Scan =>
      forall k | 0 <= k < |net.users|
        ensures IntendedUserScanFilter(pattern, matches, [])(net.users[k])
             == UserScanFilter(pattern, matches)(net.users[k])
      {
        assert HasModes(net.users[k].modes, []);
      }
      FilterMapIsMapOfFilter(net.users, IntendedUserScanFilter(pattern, matches, []), UserRowOf);
      FilterMapCongruent(net.users, IntendedUserScanFilter(pattern, matches, []),
                         UserScanFilter(pattern, matches), UserRowOf);
  }

  /**
   * The option has no effect on USERLIST: whatever follows the pattern, the
   * reply is the intended reply to the pattern alone.
   */
  lemma UserListIgnoresOption(net: Snapshot, params: seq<string>, matches: (string, string) -> bool,
                              sameName: (string, string) -> bool)
    requires net.Valid()
    ensures UserListReplies(net, params, matches, sameName)
         == IntendedUserListReplies(net, [PatternOf(params)], matches, sameName)
  {
    var alone := [PatternOf(params)];
    assert PatternOf(alone) == PatternOf(params) && OptionOf(alone) == "";
    assert RequestedUserModes("") == [];
    IntendedUserListRowsWithoutModes(net, PatternOf(params), matches, sameName);
  }

  /** A network with one user, bob, who is not +i, and no channel. */
  function BobNet(): (net: Snapshot) {
    Snapshot([], [User("bob", "b", "host", {}, [])])
  }

  /** A glob matcher that accepts everything. */
  function MatchAll(s: string, pattern: string): (ok: bool) {
    true
  }

  /** Name comparison by plain equality. */
  function SameText(a: string, b: string): (same: bool) {
    a == b
  }

  /** As written, `USERLIST * INVISIBLE` lists bob. */
  lemma BobListedAsWritten()
    ensures UserListReplies(BobNet(), ["*", "INVISIBLE"], MatchAll, SameText)
         == [UserListAll, UserRow("bob", "b@host"), UserListEnd]
  {
    var net := BobNet();
    assert UserListMode(net, "*", SameText) == Scan;
    assert net.users[..0] == [];
    assert MatchAll(Mask(net.users[0]), "*");
    assert UserScanFilter("*", MatchAll)(net.users[0]);
    assert "b" + "@" + "host" == "b@host";
    assert UserRowOf(net.users[0]) == UserRow("bob", "b@host");
    assert FilterMap(net.users, UserScanFilter("*", MatchAll), UserRowOf) == [UserRow("bob", "b@host")];
  }

  /** As intended, `USERLIST * INVISIBLE` lists nobody. */
  lemma BobNotListedAsIntended()
    ensures IntendedUserListReplies(BobNet(), ["*", "INVISIBLE"], MatchAll, SameText) == [UserListAll, UserListEnd]
  {
    var net := BobNet();
    var params := ["*", "INVISIBLE"];
    assert RequestedUserModes(OptionOf(params)) == [Invisible] by {
      assert EqualsCi(OptionOf(params), "INVISIBLE");
    }
    assert UserListMode(net, "*", SameText) == Scan;
    assert net.users[..0] == [];
    assert !HasModes(net.users[0].modes, [Invisible]) by {
      assert [Invisible][0] !in net.users[0].modes;
    }
    assert IntendedListedUsers(net, "*", [Invisible], MatchAll, SameText) == [];
  }

  /** `USERLIST * INVISIBLE` still lists a user who is not +i. */
  lemma InvisibleListsVisibleUser()
    ensures UserListReplies(BobNet(), ["*", "INVISIBLE"], MatchAll, SameText)
         == [UserListAll, UserRow("bob", "b@host"), UserListEnd]
    ensures IntendedUserListReplies(BobNet(), ["*", "INVISIBLE"], MatchAll, SameText) == [UserListAll, UserListEnd]
  {
    BobListedAsWritten();
    BobNotListedAsIntended();
  }
}
