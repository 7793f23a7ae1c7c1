/**
 * A read-only snapshot of the services' view of the network: the global
 * channel registry (`ChannelList`), the global user registry
 * (`UserListByNick`), and the membership lists kept on each side
 * (`User::chans`, `Channel::users`). Membership entries are references,
 * modelled as indices into the opposite registry.
 */
module Registry {
  import opened Wrappers

  /** The channel modes the listing commands ask about; every other mode is `OtherChannelMode`. */
  datatype ChannelModeName = Secret | Private | OtherChannelMode(letter: char)

  /** The user modes the listing commands ask about; every other mode is `OtherUserMode`. */
  datatype UserModeName = Invisible | OtherUserMode(letter: char)

  /** Index into `Snapshot.channels`. */
  type ChannelRef = nat

  /** Index into `Snapshot.users`. */
  type UserRef = nat

  /** A live channel: its name, the modes it has (what `HasMode` tests), its topic and its members. */
  datatype Channel = Channel(name: string, modes: set<ChannelModeName>, topic: string, users: seq<UserRef>)

  /** A live user: nick, ident (`GetIdent`), displayed host (`GetDisplayedHost`), modes and channels. */
  datatype User = User(nick: string, ident: string, displayedHost: string, modes: set<UserModeName>, chans: seq<ChannelRef>)

  /** Both registries, each in its own iteration order. */
  datatype Snapshot = Snapshot(channels: seq<Channel>, users: seq<User>) {

    /** Every membership entry refers to a live entity of the other kind. */
    predicate Valid() {
      && (forall i, k :: 0 <= i < |channels| && 0 <= k < |channels[i].users| ==> channels[i].users[k] < |users|)
      && (forall i, k :: 0 <= i < |users| && 0 <= k < |users[i].chans| ==> users[i].chans[k] < |channels|)
    }
  }

  /** The string the user list matches a pattern against: `nick!ident@host`. */
  function Mask(u: User): (mask: string)
    ensures |mask| == |u.nick| + |u.ident| + |u.displayedHost| + 2
    ensures mask[..|u.nick|] == u.nick && mask[|u.nick|] == '!'
    ensures mask[|u.nick| + 1..] == u.ident + "@" + u.displayedHost
  {
    u.nick + "!" + u.ident + "@" + u.displayedHost
  }

  /**
   * The first element of `s` whose name `sameName` considers equal to `key`.
   * `sameName` is the registry's own key comparison.
   */
  function FindByName<T>(s: seq<T>, key: string, nameOf: T -> string, sameName: (string, string) -> bool): (r: Option<nat>)
    ensures r.Some? ==> r.value < |s| && sameName(nameOf(s[r.value]), key)
    ensures r.Some? ==> forall j :: 0 <= j < r.value ==> !sameName(nameOf(s[j]), key)
    ensures r.None? <==> forall j :: 0 <= j < |s| ==> !sameName(nameOf(s[j]), key)
  {
    if s == [] then None
    else if sameName(nameOf(s[0]), key) then Some(0)
    else match FindByName(s[1..], key, nameOf, sameName)
      case None => None
      case Some(i) => Some(i + 1)
  }

  function NickOf(u: User): (nick: string) { u.nick }

  function NameOf(c: Channel): (name: string) { c.name }

  /** `finduser`: the live user whose nick is `key`, if there is one. */
  function FindUser(users: seq<User>, key: string, sameName: (string, string) -> bool): (r: Option<UserRef>)
    ensures r.Some? ==> r.value < |users| && sameName(users[r.value].nick, key)
    ensures r.Some? ==> forall j :: 0 <= j < r.value ==> !sameName(users[j].nick, key)
    ensures r.None? <==> forall j :: 0 <= j < |users| ==> !sameName(users[j].nick, key)
  {
    FindByName(users, key, NickOf, sameName)
  }

  /** `findchan`: the live channel whose name is `key`, if there is one. */
  function FindChannel(channels: seq<Channel>, key: string, sameName: (string, string) -> bool): (r: Option<ChannelRef>)
    ensures r.Some? ==> r.value < |channels| && sameName(channels[r.value].name, key)
    ensures r.Some? ==> forall j :: 0 <= j < r.value ==> !sameName(channels[j].name, key)
    ensures r.None? <==> forall j :: 0 <= j < |channels| ==> !sameName(channels[j].name, key)
  {
    FindByName(channels, key, NameOf, sameName)
  }
}
