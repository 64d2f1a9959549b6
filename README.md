# Picture-album chat bot: a verified model of its core

The bot keeps an album of pictures sorted into named decks. A message
`!<deck>` gets back a random picture of that deck. Administrators add
pictures with `!add <deck>` and attachments, and delete them with
`!delete_pic <deck> <url>`. Four flower emoji on one message give and take
pronoun roles.

This project models three parts of the bot:

- **The album** (`album.dfy`, module `AlbumStore`). A class `Album` with:
  - a `pictures` field: a multimap from deck name to the URLs of that deck, in insertion order;
  - a `lastSent` field.

  It models `Album::new`, `Album::default`, `get_rand_pic`, `deck_count`
  and `picture_count`. The multimap itself is in `multimap.dfy`, module
  `MultiMaps`.
- **The command handlers** (`command.dfy`, module `Commands`):
  - the words each command reads from the message and what it does with them;
  - `mk_names_str`, the sorted and comma-separated list of deck names, as an
    imperative loop proved against a specification function.
- **The event handler** (`bot.dfy`, module `Bot`):
  - the first-match-wins guard chain of `handle_event`;
  - the administrator check `admin_guard`;
  - the emoji-to-role table `role_from_emoji`;
  - the reaction events that use that table.

Two support modules model the Rust string operations the bot relies on:

- `str_ops.dfy`, module `StrOps`: `contains`, `starts_with`, `strip_prefix`,
  `split(' ')`, joining, the UTF-8 byte length `len()`, and decimal
  formatting.
- `str_order.dfy`, module `StrOrder`: the string order and `Vec::sort`.

Key modelling choices:

- **Randomness.** `thread_rng().gen_range(0..len)` in `get_rand_pic` becomes a
  parameter `n` with the precondition `n < len`. `EveryPictureDrawable`
  shows that every picture of a deck can be drawn.
- **Reading does not change state.** `get_rand_pic` takes `&mut self` but
  changes nothing. It is a function that reads the album, so `pictures` and
  `lastSent` are unchanged by construction.
- **Chat-platform calls.** Sending a message, adding a role and resetting a
  nickname are values of the datatype `Bot.Effect`. `handle_event` returns
  the effect it would perform.
- **Byte length.** `len()` counts UTF-8 bytes. `StrOps.ByteLen` counts 1 to 4
  bytes per code point.
- **Splitting.** `split(' ')` always yields at least one piece, and two
  spaces in a row yield an empty piece. `StrOps.Split` does the same.
  - Consequence: `!add  deck`, with two spaces, adds to the deck named `""`.
  - This is modelled as written; see `Commands.AddDeckName`.
- **Exact deck lookup.** A lookup uses the deck name exactly as typed, with
  no normalisation of case or accents.
  - src/bot/command.rs calls `remove_last`, `save`, `deck_names` and
    `remove_picture`, which src/album.rs does not define.
  - The model follows src/album.rs: exact lookup, no undo, no persistence.

## Model

| member | source | states |
|---|---|---|
| AlbumStore.Album.constructor | src/album.rs:11-16 | `Album::new()` has no deck, no picture (deck count and picture count 0) and nothing sent; no deck is empty |
| AlbumStore.Album.Default | src/album.rs:38-62 | `Album::default()` makes six in-place inserts into three decks and remembers the riri1 URL as sent; the decks are exactly mood = [mood1, mood2, mood3], tata = [tata], riri = [riri1, riri2]; no deck is empty |
| AlbumStore.Album.AddPicture | src/bot/command.rs:98 | `add_picture` appends the URL to the named deck (creating it if absent) and leaves `lastSent` alone; it never makes a deck empty |
| AlbumStore.Album.GetRandPic | src/album.rs:18-27 | no picture exactly when the deck is missing or empty; otherwise the result is a picture of exactly that deck |
| AlbumStore.EveryPictureDrawable | src/album.rs:20-23 | every picture of a deck is returned for some index in `0..len` |
| AlbumStore.Album.DeckCount | src/album.rs:29-31 | the deck count is 0 exactly when the album has no deck |
| AlbumStore.Album.PictureCount | src/album.rs:33-35 | when no deck is empty (which every album built by `new`, `default` and `add_picture` keeps), there are at least as many pictures as decks |
| AlbumStore.SeedDecksNonEmpty | src/album.rs:40-58 | no seed deck is empty |
| AlbumStore.SeedIsSixInserts | src/album.rs:40-58 | the six `insert` calls of `default` build exactly the three seed decks |
| AlbumStore.SeedCounts | src/album.rs:68-79 | the seeded album has 3 decks and 6 pictures |
| AlbumStore.SeedNoMatch | src/album.rs:81-87 | on the seeded album, the key `not_matching_key` gives no picture |
| AlbumStore.SeedUrlNamesDeck | src/album.rs:40-58 | every seed URL holds its deck's name right after the host part |
| AlbumStore.SeedDrawMatchesDeck | src/album.rs:89-122 | on the seeded album, every draw from mood, tata or riri gives a URL containing that deck's name |
| MultiMaps.Insert | src/album.rs:41-43 | `insert` puts the value at the end of the key's list, creating the key if absent |
| MultiMaps.InsertOthersUnchanged | src/album.rs:41-43 | `insert` leaves every other key and its list as they were |
| MultiMaps.InsertAll | src/bot/command.rs:97-100 | inserting several values under one key appends them, in order, to that key's list |
| MultiMaps.TotalLen | src/album.rs:34 | the sum of the list lengths, taking the keys in any order (the order-independence is `TotalLenRemove`) |
| MultiMaps.InsertKeepsListsNonEmpty | src/album.rs:40-58 | inserting never leaves a key with an empty list |
| MultiMaps.InsertKeyCount | src/album.rs:29-31 | an insert adds one key exactly when the key was absent |
| MultiMaps.InsertTotalLen | src/album.rs:33-35 | an insert adds exactly one to the sum of the list lengths |
| MultiMaps.TotalLenRemove | src/album.rs:33-35 | the sum of the list lengths is a key's list length plus the sum over the other keys |
| MultiMaps.TotalLenAtLeastKeys | src/album.rs:29-35 | with no empty list, the sum of the list lengths is at least the number of keys |
| MultiMaps.InsertAllAppends | src/bot/command.rs:97-100 | inserting values one by one appends them all, in order, to the key's list and touches no other key |
| MultiMaps.InsertAllTotalLen | src/bot/command.rs:97-100 | inserting k values adds k to the sum of the list lengths |
| Commands.PictureFindAndSend | src/bot/command.rs:23-48 | no lookup without a leading `!`; a result is a picture of the deck named by the rest of the message; a non-empty deck of that name always gives one |
| Commands.ArgumentsFollowFirstSpace | src/bot/command.rs:91-94 | the first word has no space and the message is that word, one space, then the remaining words joined by spaces |
| Commands.TokenCount | src/bot/command.rs:150-154 | a message has a second word exactly when it holds a space, and a third exactly when it holds two |
| Commands.Tokens | src/bot/command.rs:91 | the words of a message are `split(' ')` of its text (its properties are those of `StrOps.Split`) |
| Commands.SecondWordLayout | src/bot/command.rs:91-94 | the message is its first word, a space, its second word, then nothing or a space and the rest |
| Commands.ThirdWordLayout | src/bot/command.rs:150-154 | the message is its first word, a space, its second word, a space, its third word, then nothing or a space and the rest |
| Commands.AddDeckName | src/bot/command.rs:91-94 | `picture_add` finds a deck name exactly when the message holds a space; the name is the second word: the message is a space-free first word, a space, the name, then nothing or a space and the rest |
| Commands.PictureAdd | src/bot/command.rs:85-116 | with a deck name, every attachment is appended to that deck in order and the count is the number of attachments; without one, nothing changes and the "nothing found" reply is chosen; the reply tells the count when it is positive; no deck becomes empty |
| Commands.AddedReply | src/bot/command.rs:110 | the reply after adding pictures holds the count in decimal (read back by `StrOps.NatToStringValue`) |
| Commands.PictureAddEffect | src/bot/command.rs:94-100 | an add appends the attachments to the named deck and grows the picture count by their number |
| Commands.DeleteRequest | src/bot/command.rs:150-154 | `delete_picture` has a deck and a URL exactly when the message holds two spaces; they are the second and third words: the message is a space-free first word, a space, the deck, a space, the URL, then nothing or a space and the rest |
| Commands.DeletePicture | src/bot/command.rs:144-171 | something is removed exactly when the message names a deck and a URL and the album removes that picture; fewer than two spaces never remove; the reply follows the outcome |
| Commands.NicksToReset | src/bot/command.rs:201-203 | one nickname per space in the message, none holding a space; they are every word after the first: the message is a space-free first word, a space, and the nicknames joined by spaces |
| Commands.MembersToReset | src/bot/command.rs:219-222 | the selected members are exactly the members whose nickname is one of the requested ones |
| Commands.NoNickNeverReset | src/bot/command.rs:219-222 | a member without a nickname is never selected |
| Commands.MkNamesStr | src/bot/command.rs:50-63 | the loop builds the sorted names separated by `", "` |
| Commands.NamesStrSmall | src/bot/command.rs:52-62 | the list of no deck is empty; the list of one deck is its name |
| Commands.NamesStrSortIndependent | src/bot/command.rs:51 | any correct ascending sort gives the same list |
| Commands.NamesStrEnds | src/bot/command.rs:51-61 | the list starts with the smallest name, and every name lies between the first and the last in the order |
| StrOps.Contains | src/bot.rs:139 | `contains` holds exactly when the pattern occurs at some position |
| StrOps.StartsWith | src/bot.rs:146 | `starts_with` holds exactly when the pattern occurs at position 0 |
| StrOps.StripPrefix | src/bot/command.rs:28 | `strip_prefix` succeeds exactly when the text starts with the prefix, and the prefix plus the rest is the text |
| StrOps.StripPrefixUnique | src/bot/command.rs:28 | the rest is the one string that completes the prefix to the text |
| StrOps.Split | src/bot/command.rs:91 | `split(' ')` always yields at least one piece (its round trips are `JoinSplit` and `SplitJoin`) |
| StrOps.SplitPiecesFree | src/bot/command.rs:91 | no piece of `split(' ')` holds a space |
| StrOps.JoinSplit | src/bot/command.rs:91 | joining the pieces of `split` with the separator gives back the text |
| StrOps.SplitJoin | src/bot/command.rs:91 | splitting a join of separator-free pieces gives back the pieces |
| StrOps.SplitCount | src/bot/command.rs:150-154 | `split` yields one more piece than there are separators |
| StrOps.JoinEnds | src/bot/command.rs:53-61 | a join starts with the first piece and ends with the last |
| StrOps.JoinFront | src/bot/command.rs:53-61 | a join of two or more pieces is the first piece, a separator, then the join of the rest |
| StrOps.ByteLen | src/bot.rs:161 | `len()`, the UTF-8 byte length, lies between the code-point count and four times it |
| StrOps.ByteLenAboveOne | src/bot.rs:161 | the byte length exceeds 1 exactly when there are two code points or one non-ASCII code point |
| StrOps.NatToString | src/bot/command.rs:110 | `{}` of a count is a non-empty string of decimal digits with no leading zero |
| StrOps.NatToStringValue | src/bot/command.rs:110 | the decimal form of the count reads back as the count |
| StrOrder.Leq | src/bot/command.rs:51 | the order `sort` uses: lexicographic over characters, a prefix first (its order laws are the four lemmas below) |
| StrOrder.LeqReflexive | src/bot/command.rs:51 | the string order is reflexive |
| StrOrder.LeqTotal | src/bot/command.rs:51 | the string order is total |
| StrOrder.LeqTransitive | src/bot/command.rs:51 | the string order is transitive |
| StrOrder.LeqAntisymmetric | src/bot/command.rs:51 | the string order is antisymmetric |
| StrOrder.InsertName | src/bot/command.rs:51 | inserting into a sorted list keeps it sorted and adds exactly that name |
| StrOrder.SortNames | src/bot/command.rs:51 | `sort` gives an ascending permutation of the names |
| StrOrder.SortedEnds | src/bot/command.rs:51 | a sorted list starts with its least element and ends with its greatest |
| StrOrder.SortedPermutationUnique | src/bot/command.rs:51 | two ascending permutations of the same names are equal |
| Bot.CommandPrefixesExclusive | src/bot.rs:146-160 | no message starts with two of the three command prefixes |
| Bot.RouteMessage | src/bot.rs:138-163 | first match wins: Pong exactly when "patate" occurs; each command exactly when its prefix starts the message and "patate" does not occur; ignored exactly when none of these hold and the message is empty or one ASCII character |
| Bot.Guarded | src/bot.rs:146-160 | `if admin_guard(..) { command }`: the command runs exactly when the member holds an administrator role; the refusal is replied exactly when the member holds none; nothing happens exactly when there is no member |
| Bot.HandleMessage | src/bot.rs:138-163 | "Pong!" exactly when "patate" occurs; a lookup exactly when no earlier guard matched and the text is longer than one byte; commands and refusals only for messages starting with `!` |
| Bot.HandleEvent | src/bot.rs:132-199 | only new messages produce messages, commands or lookups; a role is added (removed) exactly for an added (removed) reaction that has a role, always in the guild, for the reacting user and that role; the shard log exactly for a shard connection (with `PatateAlwaysPongs`, `CommandRunsOnlyForAdmins`, `ShortMessagesIgnored`, `ReactionsSymmetric`) |
| Bot.PatateAlwaysPongs | src/bot.rs:139-145 | a message holding "patate" gets "Pong!" and nothing else |
| Bot.CommandRunsOnlyForAdmins | src/bot.rs:146-160 | a command runs exactly when its prefix starts the message, "patate" does not occur, and the author holds an administrator role |
| Bot.ShortMessagesIgnored | src/bot.rs:161-163 | an empty message, or one of a single ASCII character, has no effect |
| Bot.FirstAdminRole | src/bot.rs:207-210 | `find` gives nothing exactly when no role is an administrator role, and otherwise the first one |
| Bot.AdminGuard | src/bot.rs:206-224 | admitted exactly when there is a member holding an administrator role; refused silently exactly when there is no member |
| Bot.RoleFromEmoji | src/bot.rs:227-236 | a role exactly for the four flower emoji |
| Bot.RoleFromEmojiInjective | src/bot.rs:227-236 | distinct emoji give distinct roles |
| Bot.ReactionRole | src/bot.rs:164-168 | a reaction acts exactly when it is on the pronoun message and is one of the four flower emoji |
| Bot.ReactionsSymmetric | src/bot.rs:164-191 | adding a reaction gives a role exactly when removing the same reaction takes that role away |

## Left out

- `remove_picture`, `remove_last`, `save`, `deck_names` and `add_picture`:
  - src/album.rs has no body for any of them.
  - `add_picture` is taken to be the multimap `insert` that `default` uses.
  - The deletion itself is the parameter `removePicture` of `Commands.DeletePicture`.
- `helper` and `delete_last`: their only logic is in `deck_names` and `remove_last`.
- Discord HTTP and gateway calls:
  - `reply_in_chann`, sending messages, adding and removing roles, fetching the guild's members, resetting nicknames, `find_roles_admin`, cluster start-up.
  - These are network I/O. The model returns the effect or reply instead.
- The text of `reset_nick`'s reply: it depends on which network calls succeed.
- `reset_nick` is not routed: `handle_event` in src/bot.rs has no arm that calls it.
- Locking the album mutex, including its failure replies; `tokio::spawn`; the ctrl-c save handler.
  - These concern concurrency and process exit.
  - The model assumes the lock succeeds.
- `thread_rng`: replaced by the injected index `n`.
- `album.save()` in `picture_add`: persistence is file and database I/O.
- The shard-connected log line: it is modelled only as the effect value `LogConnected`.
- `src/mongo.rs`, `src/main.rs` and `src/bot/mod.rs` are not part of this model.
  - They hold database import, JSON file output, and an older dispatcher with slash commands.
- `Commands.MkNamesStr`:
  - it sorts a copy through the function `StrOrder.SortNames`, instead of sorting the vector in place;
  - `NamesStrSortIndependent` shows that any correct sort gives the same string.
- `AlbumStore.Album.PictureCount`:
  - it is a ghost function, because the sum over the map's values chooses keys one at a time;
  - its exact value is characterised by the `MultiMaps.TotalLen*` and `InsertTotalLen` lemmas.
- `usize` overflow of the counts is not modelled; the counts are unbounded naturals.
