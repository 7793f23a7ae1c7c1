# OperServ CHANLIST and USERLIST

A Dafny model of the two listing commands in Anope's OperServ module
`os_list`. Both take an optional pattern and an optional keyword.

**CHANLIST** (`CommandOSChanList::Execute`):
- If the pattern is the nick of a user who is online, it lists that user's channels.
- Otherwise it lists every channel in the channel registry whose name matches the pattern.
- The keyword `SECRET` requests the modes +s and +p.

**USERLIST** (`CommandOSUserList::Execute`):
- If the pattern names a channel in use, it lists that channel's members.
- Otherwise it lists every user in the nick registry whose `nick!ident@host` matches the pattern.
- The keyword `INVISIBLE` requests +i.

Each reply is one header line, one line per listed entity and the line "End of channel list." or "End of users list.".

How it is modelled:
- **Network state.** The network is an immutable `Snapshot` of the two registries, in their iteration order.
  - A user's channel list and a channel's member list are sequences of indices into the other registry.
  - `Snapshot.Valid` says that every such index is in range.
- **Replies.** A reply line is a `Reply` value, not a formatted string.
- **Execution.**
  - Each `Execute` is a method (`OsList.ChanList`, `OsList.UserList`).
  - It builds the mode list the way the source builds it with `push_back`.
  - It picks traversal or scan, then runs the loops, appending one `Reply` at a time.
  - The loops include the inner loop over the requested modes.
- **Specification functions.** Each method is proved equal to a specification function (`ChanListReplies`, `UserListReplies`). That function is the header, the rows and the footer. The rows are built from generic sequence operations in module `Selection`:
  - `Map` of a dereferenced membership list in traversal;
  - `FilterMap` of the registry in scan.
- **Properties.** Module `OsListProperties` proves from these functions what the commands promise:
  - the framing;
  - the choice of mode;
  - traversal order and independence of the matcher;
  - scan as an order-preserving subsequence, with the exact membership condition;
  - keyword recognition.

**The mode filter never drops anything.** In all four loops (os_list.cpp lines 47-50, 66-69, 121-124 and 143-146) the `continue` on a missing mode belongs to the inner loop over the modes. It therefore never skips the entity being listed.
- **As written.** The model keeps this as written (`OsList.CheckModes`, one generic loop that all four places call). The specification functions do not mention the keyword at all, so the fact that the methods meet them is the proof that `SECRET` and `INVISIBLE` have no effect.
- **As intended.** The help text (lines 83-88 and 160-166) describes a filter. Module `OsListIntended` defines that filter separately. It proves that the commands give exactly the intended reply with no modes requested, and it proves concrete inputs where the two differ (see Findings).
- **Choice of "all modes".** The intended filter keeps an entity only if it has every requested mode, which is what the loop over the modes evidently aims at. The CHANLIST help text says "+s or +p" instead. In USERLIST the intended check stays inside `if (!pattern.empty())`, as the code nests it.

## Model

| member | source | states |
|---|---|---|
| Registry.FindUser | modules/commands/os_list.cpp:38 | `finduser`: Some(i) gives a user in the registry whose nick matches the key, and no earlier user matches; None exactly when no user's nick matches |
| Registry.FindChannel | modules/commands/os_list.cpp:112 | `findchan`: Some(i) gives a channel in the registry whose name matches the key, and no earlier channel matches; None exactly when no channel's name matches |
| Registry.Mask | modules/commands/os_list.cpp:140 | the string USERLIST matches against is the nick, then `!`, then `ident@host`: its length is the sum of the three parts plus two, its prefix is the nick, the next character is `!`, and the rest is the ident, `@` and the displayed host |
| OsList.CheckModes | modules/commands/os_list.cpp:47-50 | the loop over the requested modes, shared by the loops at lines 47-50, 66-69, 121-124 and 143-146: it has no result and changes nothing, so the entity being listed is emitted whatever its modes; the methods that call it are proved against specifications in which the modes do not appear |
| OsList.PatternOf | modules/commands/os_list.cpp:27 | the pattern is the first parameter, or the empty string when no parameter is given (likewise line 104) |
| OsList.OptionOf | modules/commands/os_list.cpp:28 | the option is the second parameter, or the empty string when fewer than two are given (likewise line 105) |
| OsList.RequestedChannelModes | modules/commands/os_list.cpp:32-36 | the requested channel modes are exactly [+s, +p] if and only if the option equals SECRET ignoring case, and empty in every other case (including a missing option) |
| OsList.ParseChannelModes | modules/commands/os_list.cpp:29-36 | the `Modes` list built by appending is exactly the requested channel modes of the option |
| OsList.ChanListMode | modules/commands/os_list.cpp:38 | CHANLIST traverses if and only if the pattern is non-empty and some user's nick matches it; the traversed user's nick matches the pattern |
| OsList.ChannelRowOf | modules/commands/os_list.cpp:71 | a channel's row carries its name, its member count (`users.size()`), its modes and its topic, as lines 52 and 71 print them |
| OsList.ChanList | modules/commands/os_list.cpp:25-77 | the whole CHANLIST reply equals the specification: the header, then the traversal or scan rows, then "End of channel list."; the option has no effect on it |
| OsList.ReplyUserChannels | modules/commands/os_list.cpp:43-53 | the loop over the user's channels appends one row per channel on the user's list, in that list's order, and the mode loop drops none |
| OsList.ReplyChannelScan | modules/commands/os_list.cpp:60-72 | the loop over the channel registry appends, in registry order, the rows of exactly the channels for which the pattern is empty or matches the name; the mode loop drops none |
| OsList.RequestedUserModes | modules/commands/os_list.cpp:109-110 | the requested user modes are exactly [+i] if and only if the option equals INVISIBLE ignoring case, and empty otherwise |
| OsList.ParseUserModes | modules/commands/os_list.cpp:107-110 | the `Modes` list built by appending is exactly the requested user modes of the option |
| OsList.UserListMode | modules/commands/os_list.cpp:112 | USERLIST traverses if and only if the pattern is non-empty and some channel's name matches it; the traversed channel's name matches the pattern |
| OsList.UserRowOf | modules/commands/os_list.cpp:148 | a user's row carries the nick and `ident@host`, which is the user's mask with its `nick!` prefix removed |
| OsList.UserList | modules/commands/os_list.cpp:102-154 | the whole USERLIST reply equals the specification: the header, then the traversal or scan rows, then "End of users list."; the option has no effect on it |
| OsList.ReplyChannelUsers | modules/commands/os_list.cpp:117-127 | the loop over the channel's members appends one row per member, in the channel's list order, and the mode loop drops none |
| OsList.ReplyUserScan | modules/commands/os_list.cpp:134-149 | the loop over the nick registry appends, in registry order, the rows of exactly the users for which the pattern is empty or matches `nick!ident@host`; the mode loop, reached only with a pattern, drops none |
| OsListProperties.ChannelKeywordSpellings | modules/commands/os_list.cpp:32 | SECRET is recognised in upper, lower and mixed case; the empty option, a longer word, a misspelling and PRIVATE request nothing |
| OsListProperties.UserKeywordSpellings | modules/commands/os_list.cpp:109 | INVISIBLE is recognised in upper, lower and capitalised spellings; the empty option, a prefix and an unrelated keyword request nothing |
| OsListProperties.ChanListRowsAreChannelRows | modules/commands/os_list.cpp:43-72 | every line CHANLIST emits between header and footer is a channel row, in both modes |
| OsListProperties.ChanListFraming | modules/commands/os_list.cpp:40-75 | every CHANLIST reply has at least two lines: one of the two headers first, "End of channel list." last, and only channel rows between; no input leads to an error path |
| OsListProperties.ChanListTraversal | modules/commands/os_list.cpp:38-53 | in traversal the found user's nick matches the pattern, the header carries that user's nick, and the rows are that user's channels, one each and in list order; the rows are the same whatever the glob matcher is |
| OsListProperties.ChanListScan | modules/commands/os_list.cpp:55-72 | in scan the header is the plain one, and the rows are the channels at strictly increasing registry positions; a position is listed if and only if the pattern is empty or the name matches |
| OsListProperties.ChanListWithoutPattern | modules/commands/os_list.cpp:60-72 | with an empty pattern CHANLIST scans and lists every channel of the registry, in registry order, so the row count is the registry size |
| OsListProperties.UserListRowsAreUserRows | modules/commands/os_list.cpp:117-149 | every line USERLIST emits between header and footer is a user row, in both modes |
| OsListProperties.UserListFraming | modules/commands/os_list.cpp:114-152 | every USERLIST reply has at least two lines: one of the two headers first, "End of users list." last, and only user rows between; no input leads to an error path |
| OsListProperties.UserListTraversal | modules/commands/os_list.cpp:112-127 | in traversal the found channel's name matches the pattern, the header carries the pattern as typed, and the rows are the channel's members, one each and in list order, whatever the glob matcher is |
| OsListProperties.UserListScan | modules/commands/os_list.cpp:129-149 | in scan the header is the plain one, and the rows are the users at strictly increasing registry positions; a position is listed if and only if the pattern is empty or `nick!ident@host` matches it |
| OsListProperties.UserListWithoutPattern | modules/commands/os_list.cpp:134-149 | with an empty pattern USERLIST scans and lists every user of the registry, in registry order, so the row count is the registry size |
| OsListIntended.IntendedListedChannels | modules/commands/os_list.cpp:43-72 | the channels the mode filter was meant to keep are channels of the registry that have every requested mode; which channels, and in what order, `IntendedChanListScan` and `IntendedChanListTraversal` state |
| OsListIntended.IntendedChanListScan | modules/commands/os_list.cpp:60-72 | in scan the intended listing is the registry's channels at strictly increasing positions, and a position is kept if and only if the pattern is empty or matches the name, and the channel has every requested mode |
| OsListIntended.IntendedChanListTraversal | modules/commands/os_list.cpp:43-53 | in traversal the intended listing is the found user's channels at strictly increasing positions of the user's list, and a position is kept if and only if that channel has every requested mode |
| OsListIntended.IntendedListedChannelsAreSecret | modules/commands/os_list.cpp:66-69 | with +s and +p requested, the intended listing keeps only channels of the registry that have both modes |
| OsListIntended.IntendedChanListRowsHaveModes | modules/commands/os_list.cpp:83-88 | with SECRET, the intended CHANLIST reply has one row per channel the intended filter keeps, in that order; each row is the row of a channel of the registry that is both +s and +p, and every line between header and footer is such a row |
| OsListIntended.IntendedChanListRowsWithoutModes | modules/commands/os_list.cpp:47-50 | with no mode requested, the intended filter gives exactly the rows CHANLIST gives, in both modes |
| OsListIntended.ChanListIgnoresOption | modules/commands/os_list.cpp:66-69 | for any option, the reply CHANLIST gives equals the intended reply to the pattern alone: the mode loop has no effect |
| OsListIntended.SecretListsChannelWithoutModes | modules/commands/os_list.cpp:66-69 | `CHANLIST #a SECRET` on a network whose only channel, #a, has no modes lists #a, whereas the intended listing is empty |
| OsListIntended.IntendedListedUsers | modules/commands/os_list.cpp:117-149 | the users the mode filter was meant to keep are users of the registry and, when a pattern is given, have every requested mode; which users, and in what order, `IntendedUserListScan` and `IntendedUserListTraversal` state |
| OsListIntended.IntendedUserListScan | modules/commands/os_list.cpp:134-149 | in scan the intended listing is the registry's users at strictly increasing positions, and a position is kept if and only if the pattern is empty, or `nick!ident@host` matches it and the user has every requested mode |
| OsListIntended.IntendedUserListTraversal | modules/commands/os_list.cpp:117-127 | in traversal the intended listing is the found channel's members at strictly increasing positions of the channel's list, and a position is kept if and only if that member has every requested mode |
| OsListIntended.IntendedListedUsersAreInvisible | modules/commands/os_list.cpp:143-146 | with +i requested and a pattern given, the intended listing keeps only +i users from the registry |
| OsListIntended.IntendedUserListRowsHaveModes | modules/commands/os_list.cpp:160-166 | with INVISIBLE and a pattern, the intended USERLIST reply has one row per +i user the intended filter keeps, in that order |
| OsListIntended.IntendedUserListRowsWithoutModes | modules/commands/os_list.cpp:121-124 | with no mode requested, the intended filter gives exactly the rows USERLIST gives, in both modes |
| OsListIntended.UserListIgnoresOption | modules/commands/os_list.cpp:143-146 | for any option, the reply USERLIST gives equals the intended reply to the pattern alone: the mode loop has no effect |
| OsListIntended.BobListedAsWritten | modules/commands/os_list.cpp:134-148 | on a network whose only user, bob, is not +i, `USERLIST * INVISIBLE` replies with the plain header, bob's row and the footer |
| OsListIntended.BobNotListedAsIntended | modules/commands/os_list.cpp:160-166 | on the same network the intended listing for `USERLIST * INVISIBLE` is the plain header and the footer only |
| OsListIntended.InvisibleListsVisibleUser | modules/commands/os_list.cpp:143-146 | `USERLIST * INVISIBLE` on a network whose only user, bob, is not +i lists bob, whereas the intended listing is empty |

## Left out

- Reply formatting (the printf widths, the bold markers, the column headings) and localisation: replies are `Reply` values that carry the fields each line prints.
- `GetModes`: a channel row carries the channel's mode set rather than the string `GetModes` renders from it.
- Topic: a channel row carries the topic field as is; an empty topic already prints as empty.
- `Anope::Match`: a parameter `matches`, because its glob semantics and case rules are not part of this file.
- `finduser` and `findchan`: the first registry entry whose key agrees with the pattern under a parameter `sameName`. The real registries are maps with unique, case-insensitively compared keys, and their comparison is not part of this file.
- `HasMode`: modelled as membership in the entity's mode set.
- `GetIdent` and `GetDisplayedHost`: the fields `ident` and `displayedHost`.
- `equals_ci`: modelled as equal length plus ASCII case folding, character by character. Anope's own case mapping is not part of this model.
- Iteration order of `ChannelList` and `UserListByNick`: taken as the order of the registry sequences.
- Symmetry of the user/channel membership relation: not assumed; the commands only read each side's own list.
- Command registration, the constructors, the syntax strings and `OnHelp`: no logic beyond the help texts, which are used only as the statement of the intended filter.
- Concurrency and the lifetime of users and channels: the commands run on a fixed snapshot.

## Findings

| source | as written | input that shows it | evidently intended | confidence | as-written member | corrected member |
|---|---|---|---|---|---|---|
| modules/commands/os_list.cpp:66-69 | the `continue` on a missing mode only advances the inner loop over the modes, so CHANLIST with SECRET lists every channel | `CHANLIST #a SECRET` where #a is the only channel and has neither +s nor +p: #a is listed | channels lacking a requested mode are skipped (the help text says "+s or +p"; the loop's shape requires both) | high, not executed | OsListIntended.SecretListsChannelWithoutModes | OsListIntended.IntendedListedChannels |
| modules/commands/os_list.cpp:143-146 | the same inner `continue` in USERLIST, so INVISIBLE lists users that are not +i | `USERLIST * INVISIBLE` where the only user, bob, is not +i: bob is listed | when a pattern is given, users without +i are skipped | high, not executed | OsListIntended.InvisibleListsVisibleUser | OsListIntended.IntendedListedUsers |
