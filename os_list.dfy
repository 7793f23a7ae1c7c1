/**
 * The OperServ CHANLIST and USERLIST commands (`CommandOSChanList::Execute`,
 * `CommandOSUserList::Execute`). Each call reads a snapshot of the registries
 * and answers with a header, one row per listed entity and a footer.
 *
 * The glob matcher (`Anope::Match`) and the registry's key comparison are
 * parameters: `matches(candidate, pattern)` and `sameName(key, query)`.
 */
module OsList {
  import opened Wrappers
  import opened Selection
  import opened Registry
  import opened CiString

  /** One `source.Reply` line, as an abstract record rather than formatted text. */
  datatype Reply =
    | ChannelListOf(nick: string)       // "<nick> channel list:"
    | ChannelListAll                    // "Channel list:"
    | ChannelRow(name: string, userCount: nat, modes: set<ChannelModeName>, topic: string)
    | ChannelListEnd                    // "End of channel list."
    | UserListOf(channel: string)       // "<channel> users list:"
    | UserListAll                       // "Users list:"
    | UserRow(nick: string, userHost: string)
    | UserListEnd                       // "End of users list."

  /** Which of the two ways of listing a call takes. */
  datatype ListMode = Traversal(target: nat) | Scan

  /** The first parameter, or "" when there is none. */
  function PatternOf(params: seq<string>): (pattern: string)
    ensures |params| == 0 ==> pattern == ""
    ensures |params| > 0 ==> pattern == params[0]
  {
    if |params| > 0 then params[0] else ""
  }

  /** The second parameter, or "" when there is none. */
  function OptionOf(params: seq<string>): (opt: string)
    ensures |params| < 2 ==> opt == ""
    ensures |params| >= 2 ==> opt == params[1]
  {
    if |params| > 1 then params[1] else ""
  }

  /**
   * The mode test of both commands: a loop over the requested modes whose
   * `continue` on a missing mode only moves this loop on, so it rejects
   * nothing and changes nothing.
   */
  method CheckModes<M>(have: set<M>, modes: seq<M>) {
    var k := 0;
    while k < |modes| {
      var m := modes[k];
      k := k + 1;
      if m !in have {
        continue;
      }
    }
  }

  // ---------------------------------------------------------------- CHANLIST

  /** The channel modes the option keyword asks for: SECRET (any case) gives +s and +p. */
  function RequestedChannelModes(opt: string): (r: seq<ChannelModeName>)
    ensures r == [Secret, Private] <==> EqualsCi(opt, "SECRET")
    ensures r != [Secret, Private] ==> r == []
  {
    if opt != "" && EqualsCi(opt, "SECRET") then [Secret, Private] else []
  }

  /** Builds the `Modes` list of CHANLIST from the option. */
  method ParseChannelModes(opt: string) returns (modes: seq<ChannelModeName>)
    ensures modes == RequestedChannelModes(opt)
  {
    modes := [];
    if opt != "" && EqualsCi(opt, "SECRET") {
      modes := modes + [Secret];
      modes := modes + [Private];
    }
  }

  /** CHANLIST lists a user's channels exactly when the pattern is a nick in use. */
  function ChanListMode(net: Snapshot, pattern: string, sameName: (string, string) -> bool): (m: ListMode)
    ensures m.Traversal? <==>
              pattern != "" && exists j :: 0 <= j < |net.users| && sameName(net.users[j].nick, pattern)
    ensures m.Traversal? ==> m.target < |net.users| && sameName(net.users[m.target].nick, pattern)
  {
    if pattern == "" then Scan
    else match FindUser(net.users, pattern, sameName)
      case Some(i) => Traversal(i)
      case None => Scan
  }

  /** The row printed for a channel: name, member count, modes and topic. */
  function ChannelRowOf(c: Channel): (row: Reply)
    ensures row.ChannelRow? && row.name == c.name && row.userCount == |c.users|
    ensures row.modes == c.modes && row.topic == c.topic
  {
    ChannelRow(c.name, |c.users|, c.modes, c.topic)
  }

  /** The channel scan keeps a channel when the pattern is empty or its name matches it. */
  function ChannelScanFilter(pattern: string, matches: (string, string) -> bool): (keep: Channel -> bool) {
    (c: Channel) => pattern == "" || matches(c.name, pattern)
  }

  /** The first line of a CHANLIST reply: the found user's own nick, or the plain heading. */
  function ChanListHeader(net: Snapshot, pattern: string, sameName: (string, string) -> bool): (header: Reply) {
    match ChanListMode(net, pattern, sameName)
    case Traversal(i) => ChannelListOf(net.users[i].nick)
    case Scan => ChannelListAll
  }

  /** The channel rows of a CHANLIST reply: the user's channels, or the matching registry entries. */
  function ChanListRows(net: Snapshot, pattern: string, matches: (string, string) -> bool,
                        sameName: (string, string) -> bool): (rows: seq<Reply>)
    requires net.Valid()
  {
    match ChanListMode(net, pattern, sameName)
    case Traversal(i) => Map(Deref(net.channels, net.users[i].chans), ChannelRowOf)
    case Scan => FilterMap(net.channels, ChannelScanFilter(pattern, matches), ChannelRowOf)
  }

  /** Everything CHANLIST with these parameters replies, in order. */
  function ChanListReplies(net: Snapshot, params: seq<string>, matches: (string, string) -> bool,
                           sameName: (string, string) -> bool): (replies: seq<Reply>)
    requires net.Valid()
  {
    var pattern := PatternOf(params);
    [ChanListHeader(net, pattern, sameName)] + ChanListRows(net, pattern, matches, sameName) + [ChannelListEnd]
  }

  /**
   * `CommandOSChanList::Execute`. The mode loops are kept as written: their
   * `continue` ends only the loop over the modes, so no channel is skipped
   * for lacking a mode, and the reply does not depend on the option.
   */
  method ChanList(net: Snapshot, params: seq<string>, matches: (string, string) -> bool,
                  sameName: (string, string) -> bool) returns (out: seq<Reply>)
    requires net.Valid()
    ensures out == ChanListReplies(net, params, matches, sameName)
  {
    var pattern := PatternOf(params);
    var opt := OptionOf(params);
    var modes := ParseChannelModes(opt);

    var u2: Option<UserRef> := None;
    if pattern != "" {
      u2 := FindUser(net.users, pattern, sameName);
    }

    if u2.Some? {
      var u := net.users[u2.value];
      out := ReplyUserChannels(net, u.chans, modes, [ChannelListOf(u.nick)]);
    } else {
      out := ReplyChannelScan(net.channels, pattern, modes, matches, [ChannelListAll]);
    }

    out := out + [ChannelListEnd];
  }

  /** The loop over `u2->chans`: one row per channel the user is on, in that list's order. */
  method ReplyUserChannels(net: Snapshot, chans: seq<ChannelRef>, modes: seq<ChannelModeName>, prefix: seq<Reply>)
    returns (out: seq<Reply>)
    requires forall k :: 0 <= k < |chans| ==> chans[k] < |net.channels|
    ensures out == prefix + Map(Deref(net.channels, chans), ChannelRowOf)
  {
    out := prefix;
    var i := 0;
    while i < |chans|
      invariant i <= |chans|
      invariant out == prefix + Map(Deref(net.channels, chans[..i]), ChannelRowOf)
    {
      var c := net.channels[chans[i]];
      if |modes| > 0 {
        CheckModes(c.modes, modes);
      }
      MapDerefStep(prefix, net.channels, chans, i, ChannelRowOf);
      out := out + [ChannelRowOf(c)];
      i := i + 1;
    }
    assert chans[..i] == chans;
  }

  /** The loop over `ChannelList`: one row per channel whose name matches, in registry order. */
  method ReplyChannelScan(channels: seq<Channel>, pattern: string, modes: seq<ChannelModeName>,
                          matches: (string, string) -> bool, prefix: seq<Reply>) returns (out: seq<Reply>)
    ensures out == prefix + FilterMap(channels, ChannelScanFilter(pattern, matches), ChannelRowOf)
  {
    out := prefix;
    var i := 0;
    while i < |channels|
      invariant i <= |channels|
      invariant out == prefix + FilterMap(channels[..i], ChannelScanFilter(pattern, matches), ChannelRowOf)
    {
      var c := channels[i];
      i := i + 1;
      assert channels[..i][..i - 1] == channels[..i - 1];
      if pattern != "" && !matches(c.name, pattern) {
        continue;
      }
      if |modes| > 0 {
        CheckModes(c.modes, modes);
      }
      out := out + [ChannelRowOf(c)];
    }
    assert channels[..i] == channels;
  }

  // ---------------------------------------------------------------- USERLIST

  /** The user modes the option keyword asks for: INVISIBLE (any case) gives +i. */
  function RequestedUserModes(opt: string): (r: seq<UserModeName>)
    ensures r == [Invisible] <==> EqualsCi(opt, "INVISIBLE")
    ensures r != [Invisible] ==> r == []
  {
    if opt != "" && EqualsCi(opt, "INVISIBLE") then [Invisible] else []
  }

  /** Builds the `Modes` list of USERLIST from the option. */
  method ParseUserModes(opt: string) returns (modes: seq<UserModeName>)
    ensures modes == RequestedUserModes(opt)
  {
    modes := [];
    if opt != "" && EqualsCi(opt, "INVISIBLE") {
      modes := modes + [Invisible];
    }
  }

  /** USERLIST lists a channel's members exactly when the pattern is a channel in use. */
  function UserListMode(net: Snapshot, pattern: string, sameName: (string, string) -> bool): (m: ListMode)
    ensures m.Traversal? <==>
              pattern != "" && exists j :: 0 <= j < |net.channels| && sameName(net.channels[j].name, pattern)
    ensures m.Traversal? ==> m.target < |net.channels| && sameName(net.channels[m.target].name, pattern)
  {
    if pattern == "" then Scan
    else match FindChannel(net.channels, pattern, sameName)
      case Some(i) => Traversal(i)
      case None => Scan
  }

  /** The row printed for a user: the nick, then `ident@host`, which is the mask without its `nick!` prefix. */
  function UserRowOf(u: User): (r: Reply)
    ensures r.UserRow? && r.nick == u.nick
    ensures Mask(u) == r.nick + "!" + r.userHost
  {
    UserRow(u.nick, u.ident + "@" + u.displayedHost)
  }

  /** The user scan keeps a user when the pattern is empty or the user's mask matches it. */
  function UserScanFilter(pattern: string, matches: (string, string) -> bool): (keep: User -> bool) {
    (u: User) => pattern == "" || matches(Mask(u), pattern)
  }

  /** The first line of a USERLIST reply: the pattern as typed, or the plain heading. */
  function UserListHeader(net: Snapshot, pattern: string, sameName: (string, string) -> bool): (header: Reply) {
    match UserListMode(net, pattern, sameName)
    case Traversal(_) => UserListOf(pattern)
    case Scan => UserListAll
  }

  /** The user rows of a USERLIST reply: the channel's members, or the matching registry entries. */
  function UserListRows(net: Snapshot, pattern: string, matches: (string, string) -> bool,
                        sameName: (string, string) -> bool): (rows: seq<Reply>)
    requires net.Valid()
  {
    match UserListMode(net, pattern, sameName)
    case Traversal(i) => Map(Deref(net.users, net.channels[i].users), UserRowOf)
    case Scan => FilterMap(net.users, UserScanFilter(pattern, matches), UserRowOf)
  }

  /** Everything USERLIST with these parameters replies, in order. */
  function UserListReplies(net: Snapshot, params: seq<string>, matches: (string, string) -> bool,
                           sameName: (string, string) -> bool): (replies: seq<Reply>)
    requires net.Valid()
  {
    var pattern := PatternOf(params);
    [UserListHeader(net, pattern, sameName)] + UserListRows(net, pattern, matches, sameName) + [UserListEnd]
  }

  /**
   * `CommandOSUserList::Execute`. As in CHANLIST the mode loops skip nothing;
   * in the scan the mode loop is only reached when a pattern is given.
   */
  method UserList(net: Snapshot, params: seq<string>, matches: (string, string) -> bool,
                  sameName: (string, string) -> bool) returns (out: seq<Reply>)
    requires net.Valid()
    ensures out == UserListReplies(net, params, matches, sameName)
  {
    var pattern := PatternOf(params);
    var opt := OptionOf(params);
    var modes := ParseUserModes(opt);

    var c: Option<ChannelRef> := None;
    if pattern != "" {
      c := FindChannel(net.channels, pattern, sameName);
    }

    if c.Some? {
      out := ReplyChannelUsers(net, net.channels[c.value].users, modes, [UserListOf(pattern)]);
    } else {
      out := ReplyUserScan(net.users, pattern, modes, matches, [UserListAll]);
    }

    out := out + [UserListEnd];
  }

  /** The loop over `c->users`: one row per member of the channel, in that list's order. */
  method ReplyChannelUsers(net: Snapshot, members: seq<UserRef>, modes: seq<UserModeName>, prefix: seq<Reply>)
    returns (out: seq<Reply>)
    requires forall k :: 0 <= k < |members| ==> members[k] < |net.users|
    ensures out == prefix + Map(Deref(net.users, members), UserRowOf)
  {
    out := prefix;
    var i := 0;
    while i < |members|
      invariant i <= |members|
      invariant out == prefix + Map(Deref(net.users, members[..i]), UserRowOf)
    {
      var u := net.users[members[i]];
      if |modes| > 0 {
        CheckModes(u.modes, modes);
      }
      MapDerefStep(prefix, net.users, members, i, UserRowOf);
      out := out + [UserRowOf(u)];
      i := i + 1;
    }
    assert members[..i] == members;
  }

  /** The loop over `UserListByNick`: one row per user whose mask matches, in registry order. */
  method ReplyUserScan(users: seq<User>, pattern: string, modes: seq<UserModeName>,
                       matches: (string, string) -> bool, prefix: seq<Reply>) returns (out: seq<Reply>)
    ensures out == prefix + FilterMap(users, UserScanFilter(pattern, matches), UserRowOf)
  {
    out := prefix;
    var i := 0;
    while i < |users|
      invariant i <= |users|
      invariant out == prefix + FilterMap(users[..i], UserScanFilter(pattern, matches), UserRowOf)
    {
      var u2 := users[i];
      i := i + 1;
      assert users[..i][..i - 1] == users[..i - 1];
      if pattern != "" {
        var mask := u2.nick + "!" + u2.ident + "@" + u2.displayedHost;
        if !matches(mask, pattern) {
          continue;
        }
        if |modes| > 0 {
          CheckModes(u2.modes, modes);
        }
      }
      out := out + [UserRowOf(u2)];
    }
    assert users[..i] == users;
  }
}
