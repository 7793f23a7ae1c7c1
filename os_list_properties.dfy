/**
 * What the replies of CHANLIST and USERLIST are: framing, the choice of
 * mode, the rows of a traversal and of a scan, and the option keywords.
 */
module OsListProperties {
  import opened Selection
  import opened Registry
  import opened CiString
  import opened OsList

  // ---------------------------------------------------------------- keywords

  /** SECRET is recognised in upper, lower and mixed case, and only as the whole word. */
  lemma ChannelKeywordSpellings()
    ensures RequestedChannelModes("SECRET") == [Secret, Private]
    ensures RequestedChannelModes("secret") == [Secret, Private]
    ensures RequestedChannelModes("SeCrEt") == [Secret, Private]
    ensures RequestedChannelModes("") == []
    ensures RequestedChannelModes("SECRETS") == []
    ensures RequestedChannelModes("SACRET") == []
    ensures RequestedChannelModes("PRIVATE") == []
  {
    assert EqualsCi("secret", "SECRET") by {
      assert forall i :: 0 <= i < 6 ==> FoldCase("secret"[i]) == FoldCase("SECRET"[i]);
    }
    assert EqualsCi("SeCrEt", "SECRET") by {
      assert forall i :: 0 <= i < 6 ==> FoldCase("SeCrEt"[i]) == FoldCase("SECRET"[i]);
    }
    assert !EqualsCi("SACRET", "SECRET") by {
      assert FoldCase("SACRET"[1]) != FoldCase("SECRET"[1]);
    }
  }

  /** INVISIBLE is recognised in upper, lower and capitalised spellings, and only as the whole word. */
  lemma UserKeywordSpellings()
    ensures RequestedUserModes("INVISIBLE") == [Invisible]
    ensures RequestedUserModes("invisible") == [Invisible]
    ensures RequestedUserModes("Invisible") == [Invisible]
    ensures RequestedUserModes("") == []
    ensures RequestedUserModes("INVIS") == []
    ensures RequestedUserModes("SECRET") == []
  {
  }

  // ---------------------------------------------------------------- CHANLIST

  /** Every line between the CHANLIST header and footer is a channel row. */
  lemma ChanListRowsAreChannelRows(net: Snapshot, pattern: string, matches: (string, string) -> bool,
                                   sameName: (string, string) -> bool)
    requires net.Valid()
    ensures forall k :: 0 <= k < |ChanListRows(net, pattern, matches, sameName)| ==>
              ChanListRows(net, pattern, matches, sameName)[k].ChannelRow?
  {
    if ChanListMode(net, pattern, sameName).Scan? {
      FilterMapAtPositions(net.channels, ChannelScanFilter(pattern, matches), ChannelRowOf);
    }
  }

  /** One header first, one "End of channel list." last, and only channel rows between them. */
  lemma ChanListFraming(net: Snapshot, params: seq<string>, matches: (string, string) -> bool,
                        sameName: (string, string) -> bool)
    requires net.Valid()
    ensures var r := ChanListReplies(net, params, matches, sameName);
      && |r| >= 2
      && (r[0].ChannelListOf? || r[0] == ChannelListAll)
      && r[|r| - 1] == ChannelListEnd
      && forall k :: 0 < k < |r| - 1 ==> r[k].ChannelRow?
  {
    var pattern := PatternOf(params);
    var rows := ChanListRows(net, pattern, matches, sameName);
    ChanListRowsAreChannelRows(net, pattern, matches, sameName);
    var r := ChanListReplies(net, params, matches, sameName);
    assert forall k :: 0 < k < |r| - 1 ==> r[k] == rows[k - 1];
  }

  /**
   * When the pattern names a user, the reply is headed by that user's own nick
   * and lists every channel on the user's list, in its order; the glob matcher
   * plays no part.
   */
  lemma ChanListTraversal(net: Snapshot, pattern: string, matches: (string, string) -> bool,
                          otherMatches: (string, string) -> bool, sameName: (string, string) -> bool)
    requires net.Valid()
    requires ChanListMode(net, pattern, sameName).Traversal?
    ensures var u := net.users[ChanListMode(net, pattern, sameName).target];
            var rows := ChanListRows(net, pattern, matches, sameName);
      && sameName(u.nick, pattern)
      && ChanListHeader(net, pattern, sameName) == ChannelListOf(u.nick)
      && |rows| == |u.chans|
      && (forall k :: 0 <= k < |u.chans| ==> rows[k] == ChannelRowOf(net.channels[u.chans[k]]))
      && rows == ChanListRows(net, pattern, otherMatches, sameName)
  {
  }

  /**
   * Otherwise the reply lists the registry's channels whose name matches (all
   * of them when the pattern is empty), each once and in registry order.
   */
  lemma ChanListScan(net: Snapshot, pattern: string, matches: (string, string) -> bool,
                     sameName: (string, string) -> bool)
    requires net.Valid()
    requires ChanListMode(net, pattern, sameName).Scan?
    ensures var rows := ChanListRows(net, pattern, matches, sameName);
            var p := Positions(net.channels, ChannelScanFilter(pattern, matches));
      && ChanListHeader(net, pattern, sameName) == ChannelListAll
      && |rows| == |p|
      && (forall k :: 0 <= k < |p| ==> rows[k] == ChannelRowOf(net.channels[p[k]]))
      && (forall k, l :: 0 <= k < l < |p| ==> p[k] < p[l])
      && (forall j :: 0 <= j < |net.channels| ==>
            (j in p <==> pattern == "" || matches(net.channels[j].name, pattern)))
  {
    FilterMapAtPositions(net.channels, ChannelScanFilter(pattern, matches), ChannelRowOf);
  }

  /** Without a pattern, the reply holds one row per channel of the registry, in registry order. */
  lemma ChanListWithoutPattern(net: Snapshot, matches: (string, string) -> bool, sameName: (string, string) -> bool)
    requires net.Valid()
    ensures var rows := ChanListRows(net, "", matches, sameName);
      && ChanListHeader(net, "", sameName) == ChannelListAll
      && rows == Map(net.channels, ChannelRowOf)
      && |rows| == |net.channels|
  {
    FilterMapKeepingAll(net.channels, ChannelScanFilter("", matches), ChannelRowOf);
  }

  // ---------------------------------------------------------------- USERLIST

  /** Every line between the USERLIST header and footer is a user row. */
  lemma UserListRowsAreUserRows(net: Snapshot, pattern: string, matches: (string, string) -> bool,
                                sameName: (string, string) -> bool)
    requires net.Valid()
    ensures forall k :: 0 <= k < |UserListRows(net, pattern, matches, sameName)| ==>
              UserListRows(net, pattern, matches, sameName)[k].UserRow?
  {
    if UserListMode(net, pattern, sameName).Scan? {
      FilterMapAtPositions(net.users, UserScanFilter(pattern, matches), UserRowOf);
    }
  }

  /** One header first, one "End of users list." last, and only user rows between them. */
  lemma UserListFraming(net: Snapshot, params: seq<string>, matches: (string, string) -> bool,
                        sameName: (string, string) -> bool)
    requires net.Valid()
    ensures var r := UserListReplies(net, params, matches, sameName);
      && |r| >= 2
      && (r[0].UserListOf? || r[0] == UserListAll)
      && r[|r| - 1] == UserListEnd
      && forall k :: 0 < k < |r| - 1 ==> r[k].UserRow?
  {
    var pattern := PatternOf(params);
    var rows := UserListRows(net, pattern, matches, sameName);
    UserListRowsAreUserRows(net, pattern, matches, sameName);
    var r := UserListReplies(net, params, matches, sameName);
    assert forall k :: 0 < k < |r| - 1 ==> r[k] == rows[k - 1];
  }

  /**
   * When the pattern names a channel, the reply is headed by the pattern as
   * typed and lists every member on the channel's list, in its order; the glob
   * matcher plays no part.
   */
  lemma UserListTraversal(net: Snapshot, pattern: string, matches: (string, string) -> bool,
                          otherMatches: (string, string) -> bool, sameName: (string, string) -> bool)
    requires net.Valid()
    requires UserListMode(net, pattern, sameName).Traversal?
    ensures var c := net.channels[UserListMode(net, pattern, sameName).target];
            var rows := UserListRows(net, pattern, matches, sameName);
      && sameName(c.name, pattern)
      && UserListHeader(net, pattern, sameName) == UserListOf(pattern)
      && |rows| == |c.users|
      && (forall k :: 0 <= k < |c.users| ==> rows[k] == UserRowOf(net.users[c.users[k]]))
      && rows == UserListRows(net, pattern, otherMatches, sameName)
  {
  }

  /**
   * Otherwise the reply lists the registry's users whose `nick!ident@host`
   * matches (all of them when the pattern is empty), each once and in
   * registry order.
   */
  lemma UserListScan(net: Snapshot, pattern: string, matches: (string, string) -> bool,
                     sameName: (string, string) -> bool)
    requires net.Valid()
    requires UserListMode(net, pattern, sameName).Scan?
    ensures var rows := UserListRows(net, pattern, matches, sameName);
            var p := Positions(net.users, UserScanFilter(pattern, matches));
      && UserListHeader(net, pattern, sameName) == UserListAll
      && |rows| == |p|
      && (forall k :: 0 <= k < |p| ==> rows[k] == UserRowOf(net.users[p[k]]))
      && (forall k, l :: 0 <= k < l < |p| ==> p[k] < p[l])
      && (forall j :: 0 <= j < |net.users| ==>
            (j in p <==> pattern == "" || matches(Mask(net.users[j]), pattern)))
  {
    FilterMapAtPositions(net.users, UserScanFilter(pattern, matches), UserRowOf);
  }

  /** Without a pattern, the reply holds one row per user of the registry, in registry order. */
  lemma UserListWithoutPattern(net: Snapshot, matches: (string, string) -> bool, sameName: (string, string) -> bool)
    requires net.Valid()
    ensures var rows := UserListRows(net, "", matches, sameName);
      && UserListHeader(net, "", sameName) == UserListAll
      && rows == Map(net.users, UserRowOf)
      && |rows| == |net.users|
  {
    FilterMapKeepingAll(net.users, UserScanFilter("", matches), UserRowOf);
  }
}
