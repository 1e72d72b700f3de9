# Mail client core, modelled in Dafny

This project models the logic layer of a browser mail client. The client talks to its server over a WebSocket that carries JSON frames derived from IMAP. The logic layer does three jobs:

- **Folder tree.** It rebuilds the folder tree from the flat IMAP LIST reply (`src/logic/folder.ts`).
  - There are six fixed roots: Inbox, Drafts, Sent, Archive, Junk and Trash.
  - An entry carrying a special-use marker (`\Drafts`, `\Sent`, …) renames and re-paths its root.
  - Any other entry is attached below its root's subtree. A greedy walk over the name's delimiters decides where.
- **Message cache.** It caches messages per folder (`src/logic/message.ts`).
  - A fetch request is remembered under its timestamp token.
  - The reply to that token is merged, by sequence number, into the folder's partition.
  - The pending promise is then resolved with the whole partition.
- **Frame dispatch.** It dispatches the inbound frames (`src/logic/ws.ts`).
  - An accepted handshake triggers a LIST request.
  - A `list` frame is filtered, sorted by depth and fed to the tree builder one entry at a time.
  - A `fetch` frame is converted to messages and handed to the cache.

The files:

| file | module | contents |
|---|---|---|
| `js.dfy` | `Js` | The JavaScript built-ins the code relies on, with their edge cases explicit: `indexOf`, `slice`, comparing a one-character string with a delimiter, `new Set`, `countChar`, and an insertion-ordered `Map`. |
| `imap.dfy` | `Imap` | The IMAP records, as values. |
| `wire.dfy` | `Wire` | The outbound frame `{action, args}` and a `Socket` that logs the frames written to it. |
| `folder.dfy` | `Folder` | `MailFolder`, `RootMailFolder` and `FolderManager` as classes updated in place. |
| `message.dfy` | `Message` | `MailMessage` as a value; `FolderMessageManager` and `MessageManager` as classes. |
| `ws.dfy` | `Ws` | The filter, an in-place stable insertion sort by depth, and the `WS` class. |
| `scenario.dfy` | `Scenario` | Concrete runs of `resolveFolder` on a small LIST reply, in depth order and out of it. |

Modelling choices:

- **Time.** A clock reading is a natural number in milliseconds, passed in as a parameter `now`. `in2mins()` is `now + 120000`. The source reads the clock separately for each `new MailMessage` and each `new FolderMessageManager` (`src/logic/message.ts:17`, `src/logic/message.ts:77`). The model takes all readings made while one frame is handled to be the same `now`. Nothing reads an expiry time back, so no behaviour depends on this.
- **Promises.** A promise is an id. Resolving it appends a `Delivery(id, messages)` to a log.
- **Socket.** The WebSocket is a log of `Outbound(action, args)` frames.
- **Who holds the socket.** The source passes the `WS` object to `setWS`, and `WS.send` writes `{action, args}` to the socket. This model gives the message cache the `Socket` itself, which keeps the module graph acyclic. The frames written are the same.
- **Ghost state.** The folder manager keeps, as ghost state, every folder in creation order. `WS` keeps a ghost log of the entries it hands to `resolveFolder`.

## Behaviour of the code that the model follows

In each of these cases the model does what the code does.

- **Fetches always go out.** `fetchMessages` tests `s?.expires || 0 < now` (`src/logic/message.ts:42`). A partition's expiry date is always truthy, so a request goes out whenever the folder has a partition or the clock is positive. A cached partition is never served without a request. When there is no partition and `now` is 0, the promise resolves at once with no messages.
- **Same-millisecond fetches clash.** The token of a request is the clock reading. Two fetches in the same millisecond share one token, and the second replaces the first in `fetchCalls`. The first promise then never resolves (`Message.MessageManager.FetchSameToken`).
- **Replies to unknown tokens are ignored.** A reply to a token with no pending request changes nothing.
- **An existing partition is merged into.** Messages are set under their sequence numbers: keys already present keep their place, and new ones go to the end. The promise receives every message of the partition in key order.
- **A child listed before its parent is not dropped.** The walk in `resolveFolder` looks for a child named like the current slice. When there is none it widens the slice, so such an entry is attached higher up with a multi-segment local name. For `INBOX/sub/folder` when `INBOX/sub` is absent or `\Noselect`, the child is `sub/folder` directly under Inbox. `Scenario.UnsortedReply` works this case through.
- **No duplicate check.** `resolveFolder` checks nothing for duplicates. The same entry listed twice is attached twice (`Scenario.DuplicateReply`).
- **An entry can still be dropped.** That happens only when it has no delimiter, or when its first segment is not a registered root name.
- **The `pObj == undefined` test after the walk is dead code.** The walk starts at a registered root and only moves to existing children. `Folder.FolderManager.FileNested` records this.
- **The Inbox starts with no attributes.** `new Set("")` iterates the characters of the empty string.
- **Special-use markers are tried in a fixed order.** The order is Drafts, Sent, Archive, Junk, Trash, the declaration order that `Object.entries` follows. The first marker present wins.
- **Sorting is stable.** `Array.prototype.sort` is stable, so entries of equal depth keep the server's order. `Ws.StableSortUnique` shows that this fixes the order uniquely.
- **Depth counts whole characters.** `countChar` (`src/utils/count-char` is not part of this model) is taken to count the positions whose character equals the delimiter. A delimiter that is not one character long therefore gives depth 0.
- **A longer delimiter leaves part of itself in the child's name.** `resolveFolder` starts the scan at `n + 1`, one character past the position where `indexOf` found the delimiter (`src/logic/folder.ts:78-113`). A delimiter of two or more characters is therefore not fully skipped. With delimiter `::`, `INBOX::sub` gives a child of Inbox named `:sub`. `Folder.FolderManager.Walk` follows the code for any delimiter. The lemmas that rebuild the name from the walk (`WalkJoin`, `AppendedName`) are stated for one-character delimiters, the case IMAP servers use.
- **`list` and `fetch` are exclusive.** `handleMessage` tests `type` twice, and a frame cannot be both, so the model uses one `if … else if`.

## Model

| member | source | states |
|---|---|---|
| Js.IndexFrom | src/logic/folder.ts:77 | `indexOf` from a start position: the first occurrence of the delimiter at or after it, or -1 when there is none from there on. |
| Js.IndexOf | src/logic/folder.ts:77 | The result is the first position where the delimiter occurs, or -1 exactly when it occurs nowhere. |
| Js.SliceFrom | src/logic/folder.ts:113 | `slice(k)`: the suffix that completes the first `k` characters to the whole string, or `""` when `k` is past the end. |
| Js.CharIs | src/logic/folder.ts:92 | `x.Name[i] == x.Delimiter`: true exactly when the delimiter is one character and equals the character at `i`. |
| Js.ToSetMembers | src/logic/folder.ts:113 | `new Set(a)` holds exactly the elements of `a`, and no more elements than `a` has positions. |
| Js.ToSetSnoc | src/logic/message.ts:20 | Adding the elements one at a time (`forEach(add)`) gives the same set: each step adds exactly the next element. |
| Js.EmptyMap | src/logic/message.ts:78 | `new Map()` is well formed and has no entries. |
| Js.CountChar | src/logic/ws.ts:57 | The depth is at most the name's length, is 0 for a delimiter that is not one character, and is 0 exactly when no character of the name equals the delimiter. |
| Js.OrderedMap.Set | src/logic/message.ts:81 | `Map.set`: the entry is replaced. A new key goes to the end of the key order and an existing key keeps its place. The keys stay distinct and match the entries. |
| Js.OrderedMap.Values | src/logic/message.ts:72 | `[...map.values()]` has one value per key, in key order. |
| Js.KeyCount | src/logic/message.ts:72 | An insertion-ordered map has as many keys in its order as entries. |
| Folder.MailFolder.constructor | src/logic/folder.ts:9-14 | A folder starts with the given local name, path and attributes, no children and no role. |
| Folder.MailFolder.Root | src/logic/folder.ts:28-31 | A root folder is the same, and carries its role. |
| Folder.MailFolder.AddAttrs | src/logic/folder.ts:16-18 | The attribute set becomes the old set plus every given attribute. |
| Folder.MailFolder.AddChild | src/logic/folder.ts:20-22 | The child is appended to the children. |
| Folder.CharSetMembers | src/logic/folder.ts:35 | `new Set(s)` of a string holds exactly the one-character strings of its characters, so the Inbox's `new Set("")` is empty. |
| Folder.NewRoots | src/logic/folder.ts:35-40 | Six distinct new roots, each with its role, local name, path (`INBOX` or `~`) and attribute set: empty for Inbox, the role's marker for the others. |
| Folder.FolderManager.constructor | src/logic/folder.ts:35-53 | The manager starts valid: the six roots are in ROOT order, they are the only folders, each has its initial state, and no root path is registered. |
| Folder.FirstSpecial | src/logic/folder.ts:63-65 | The position, in ROOT_SPECIAL order, of the first role whose marker the entry carries, or 5 when it carries none. No earlier role's marker is present. |
| Folder.FirstNamed | src/logic/folder.ts:94-97 | `children.find` by local name: the index of the first child with that name, or -1 when none has it. |
| Folder.FolderManager.Walk | src/logic/folder.ts:89-104 | The greedy descent ends at a folder of the tree, and the new child's local name starts no earlier than the scan did. |
| Folder.FolderManager.Step | src/logic/folder.ts:91-104 | One iteration of the scan moves into the first child named like the current slice exactly when a delimiter stands at `i`, and leaves the final outcome of the walk unchanged. |
| Folder.FolderManager.WalkChain | src/logic/folder.ts:89-104 | The descended folders form a parent-to-child chain in the tree starting at the root. The walk ends at the last of them, or at the root when there are none. |
| Folder.FolderManager.WalkJoin | src/logic/folder.ts:89-113 | The part of the name after the root segment is the descended folders' local names, each followed by the delimiter, then the new folder's local name. |
| Folder.FolderManager.ResolveFolder | src/logic/folder.ts:55-114 | The tree stays valid, every folder it adds is new, and the change is exactly `Filed`. INBOX: the Inbox gains the attributes and INBOX is registered. Special-use marker: that root is renamed and re-pathed to the entry's name, gains its attributes, and the name is registered. Otherwise: one new folder is appended to the children of the folder the walk reaches. No delimiter, or an unregistered first segment: nothing changes. No other folder of the tree changes. |
| Folder.FolderManager.AppendedName | src/logic/folder.ts:82-113 | For a nested entry, the name is the root segment, the delimiter, the descended folders' local names each followed by the delimiter, then the appended folder's local name. The descended folders form a chain from the root, and the appended folder's parent is the last of them. |
| Folder.FolderManager.ResolveInboxTwice | src/logic/folder.ts:57-61 | Resolving the INBOX entry twice has exactly the effect of resolving it once (`Filed`): the attribute union is idempotent and INBOX is registered again for the same root. |
| Folder.FolderManager.ResolveSpecialTwice | src/logic/folder.ts:63-75 | Resolving a special-use entry twice has exactly the effect of resolving it once (`Filed`): the root keeps the entry's name and path and the same attributes. |
| Folder.FolderManager.ResolveInbox | src/logic/folder.ts:57-61 | The INBOX entry merges its attributes into the Inbox and registers INBOX for it. No folder is added and every other root is unchanged. |
| Folder.FolderManager.ResolveSpecial | src/logic/folder.ts:63-75 | A special-use entry renames and re-paths the root whose role its first marker names, merges its attributes and registers the name for that root. No folder is added and every other root is unchanged. |
| Folder.FolderManager.ResolveTwoSpecial | src/logic/folder.ts:63-75 | Two special-use entries for different roots: each root ends with its own entry's name, path and attributes, whichever order they arrive in. The other roots are unchanged, and both names are registered, the later one winning when the two names are equal. |
| Folder.FolderManager.ResolveInboxThenSpecial | src/logic/folder.ts:57-75 | INBOX followed by a special-use entry: the Inbox gains INBOX's attributes, the special root takes the other entry's name, path and attributes, and both names are registered. |
| Folder.FolderManager.ResolveSpecialThenInbox | src/logic/folder.ts:57-75 | The same two entries in the other order give the same roots and the same registered names: root discovery does not depend on the order of the root entries. |
| Folder.FolderManager.MergeInbox | src/logic/folder.ts:57-61 | The INBOX case of `Filed`. |
| Folder.FolderManager.Rename | src/logic/folder.ts:63-75 | The special-use case of `Filed`: local name and path become the entry's name, the attributes are merged, and the name maps to the root. |
| Folder.FolderManager.FileNested | src/logic/folder.ts:89-113 | The nested case of `Filed`: one new folder, named by the rest of the name after the walk, with the entry's full name as path and its attributes. |
| Folder.FolderManager.Locate | src/logic/folder.ts:89-104 | The loop ends with the parent and slice start that `Walk` defines. |
| Folder.FolderManager.Attach | src/logic/folder.ts:113 | A new folder is pushed onto the parent's children and recorded, and the tree stays closed under children. |
| Scenario.ArchiveIsSpecial | src/logic/folder.ts:64-65 | `\Archive` is the first ROOT_SPECIAL marker that the Archive entry carries. |
| Scenario.FileArchive | src/logic/folder.ts:63-75 | The Archive entry renames and re-paths the Archive root to `Archive` and registers the name. The Inbox's children are untouched. |
| Scenario.FileInbox | src/logic/folder.ts:57-61 | The INBOX entry registers INBOX for the Inbox root. Archive's name and path and the Inbox's children are untouched. |
| Scenario.FileSub | src/logic/folder.ts:77-113 | Whatever the Inbox already holds, `INBOX/sub` appends a newly created child `sub` with path `INBOX/sub` to the Inbox's children and leaves the existing children's names and paths alone. |
| Scenario.FileLeaf | src/logic/folder.ts:89-113 | With `sub` already below the Inbox, the walk descends into it, and `leaf` with path `INBOX/sub/leaf` becomes the only child of `sub`. |
| Scenario.FileOrphanLeaf | src/logic/folder.ts:91-113 | With no `sub` below the Inbox, the slice widens and `sub/leaf` becomes a direct child of the Inbox. |
| Scenario.SortedReply | src/logic/folder.ts:55-114 | Archive, INBOX, INBOX/sub, INBOX/sub/leaf give Inbox → `sub` → `leaf`, and the Archive root is named `Archive`. |
| Scenario.UnsortedReply | src/logic/folder.ts:55-114 | INBOX, INBOX/sub/leaf, INBOX/sub give the Inbox two children, `sub/leaf` and then an empty `sub`. |
| Scenario.DuplicateReply | src/logic/folder.ts:89-113 | INBOX, INBOX/sub, INBOX/sub gives the Inbox two distinct children, both named `sub` with path `INBOX/sub`: nothing checks for duplicates. |
| Message.NewMailMessage | src/logic/message.ts:16-26 | The MailMessage equals `Mail(m, now)`: it expires two minutes after `now`, its flags are the set of the raw flags, and the other fields are copied. |
| Message.SaveAll | src/logic/message.ts:80-82 | After the save, the keys are the old keys plus the sequence numbers saved. The old keys keep their order, and the map stays well formed. |
| Message.SaveAllKeeps | src/logic/message.ts:80-82 | A key that no saved message carries keeps its message: the save merges. |
| Message.SaveAllLast | src/logic/message.ts:80-82 | A sequence number holds the last message that carries it. |
| Message.FolderMessageManager.constructor | src/logic/message.ts:76-78 | A partition expires two minutes after its creation and starts empty. |
| Message.FolderMessageManager.SaveIncomingMessages | src/logic/message.ts:80-82 | The loop leaves the partition equal to `SaveAll` of the old partition and the messages. |
| Message.MessageManager.constructor | src/logic/message.ts:29-32 | No socket, no pending requests, no partitions. |
| Message.MessageManager.SetWS | src/logic/message.ts:34-37 | The socket is set and the cache stays valid. |
| Message.MessageManager.FetchMessages | src/logic/message.ts:39-56 | As `Fetched`. With a partition or a positive clock, the request is recorded under token `now`, written to the socket as `fetch` with `{sync, path, start, end, limit}`, and a new promise waits. Otherwise the promise is resolved with no messages and nothing changes. The partitions are never touched. |
| Message.MessageManager.FetchFolder | src/logic/message.ts:58-60 | `Fetched` for the window 1, 100, limit 100. |
| Message.MessageManager.FetchSameToken | src/logic/message.ts:42-51 | Two fetches at the same positive `now`: the second request replaces the first under token `now`, and the first promise is left with no request that could resolve it. |
| Message.MessageManager.UpdateMessage | src/logic/message.ts:62-73 | As `Updated`. An unknown token changes nothing. Otherwise the request is removed and the partition is found or created. The messages are merged into it (`SaveAll`) and the request's promise gets every message of the partition. Other partitions, the socket and the promise counter are unchanged. |
| Message.MessageManager.Answer | src/logic/message.ts:65-72 | The known-token case of `Updated`. |
| Message.MessageManager.Settle | src/logic/message.ts:65-72 | The answered request is removed from `fetchCalls` and its promise is resolved with the given messages; the promise bookkeeping stays sound. |
| Message.MessageManager.Store | src/logic/message.ts:66-71 | The path's partition, existing or new (expiring two minutes after `now`), holds `SaveAll` of its old contents and the messages. The other partitions keep their contents. |
| Message.MessageManager.PartitionFor | src/logic/message.ts:66-70 | An existing partition is returned unchanged. A new empty one is created and registered when the path has none. |
| Message.MessageManager.SaveInto | src/logic/message.ts:71 | Only the chosen partition changes, to `SaveAll` of its contents. |
| Message.PromisesAfterFetch | src/logic/message.ts:43-52 | Recording a request keeps the promise bookkeeping sound: pending promises are distinct and counted, and delivered promises are never pending and never delivered twice. |
| Message.PromisesAfterAnswer | src/logic/message.ts:63-72 | Answering a request keeps the same bookkeeping sound. Each promise is resolved at most once. |
| Message.DeliveryCount | src/logic/message.ts:71-72 | The promise receives exactly one message per distinct key: the old keys plus the new sequence numbers. |
| Wire.Socket.constructor | src/logic/ws.ts:12 | A new socket has sent nothing. |
| Wire.Socket.Send | src/logic/ws.ts:25 | `ws.send` appends the frame to the log. |
| Ws.Selectable | src/logic/ws.ts:55 | The filter keeps exactly the entries that do not carry `\Noselect`, and is no longer than its input. |
| Ws.SelectableAppend | src/logic/ws.ts:55 | The filter distributes over concatenation, and one entry is kept exactly when it does not carry `\Noselect`. So the kept entries stay in the server's order, each as often as it was listed. |
| Ws.AtDepthAppend | src/logic/ws.ts:57 | The entries of one depth in a concatenation are those of the first part, then those of the second. |
| Ws.SwapKeepsAtDepth | src/logic/ws.ts:57 | Swapping neighbours of different depths keeps each depth's entries in order. |
| Ws.CountAtDepth | src/logic/ws.ts:57 | An entry occurs as often in the list as among the entries of its depth. |
| Ws.SameAtDepthPermutation | src/logic/ws.ts:57 | Orders agreeing at every depth are permutations of each other. |
| Ws.StableSortUnique | src/logic/ws.ts:57 | Two depth-sorted orders that agree at every depth are equal, so the stable sort has exactly one outcome. |
| Ws.SortByDepth | src/logic/ws.ts:57 | The array ends sorted by depth, and the entries of each depth keep their original relative order. |
| Ws.InsertAt | src/logic/ws.ts:57 | One insertion step extends the sorted prefix by one and keeps each depth's order. |
| Ws.SortSelectable | src/logic/ws.ts:52-57 | A new array holding a permutation of the selectable entries, sorted by depth and stable. |
| Ws.Mails | src/logic/ws.ts:96 | One MailMessage per raw message, `Mail(m[i], now)` at position `i`. |
| Ws.ToMailMessages | src/logic/ws.ts:96 | The constructor is run on each raw message in order, giving `Mails`. |
| Ws.WS.constructor | src/logic/ws.ts:11-22 | The new socket has sent nothing and the message cache writes to it. Both managers stay valid and disjoint. |
| Ws.WS.Send | src/logic/ws.ts:24-26 | One `{action, args}` frame is appended to the socket's log. |
| Ws.WS.HandleMessage | src/logic/ws.ts:28-99 | The socket gets the LIST request `["", "*"]` exactly when `auth` is `ok`. A `list` frame resolves every selectable entry exactly once, shallowest first and server order within a depth (`ResolvedInOrder`). It registers exactly the root names of those entries, keeps every earlier folder in place and adds at most one folder per entry (`Grew`). Any other frame leaves the tree unchanged. A `fetch` frame performs `Updated` with the converted messages; otherwise the cache is unchanged. |
| Ws.WS.Dispatch | src/logic/ws.ts:33-98 | The `type` tests of `handleMessage`. A `list` frame gives `ResolvedInOrder` and `Grew`, a `fetch` frame gives `Updated`, and anything else changes neither. |
| Ws.WS.Deliver | src/logic/ws.ts:93-97 | `updateMessage(sync, messages.map(new MailMessage))`, as `Updated`. |
| Ws.WS.ResolveAll | src/logic/ws.ts:52-61 | The LIST entries reach `resolveFolder` in the order `ResolvedInOrder` states. The tree grows as `Grew` allows for the selectable entries: their root names are registered, earlier folders keep their places, and at most one folder is added per entry. |
| Ws.GrownTrans | src/logic/ws.ts:59-61 | Growth for one run of entries followed by growth for another is growth for the two runs together. |
| Ws.GrownReordered | src/logic/ws.ts:57-61 | The growth allowed for a run of entries does not depend on their order, so it holds for the sorted entries and the server's list alike. |
| Folder.RootNamesAppend | src/logic/folder.ts:57-75 | The root names of two runs of entries are the root names of each run, and one entry contributes its name exactly when it is INBOX or carries a special-use marker. |
| Ws.WS.ResolveEach | src/logic/ws.ts:59-61 | `forEach` calls `resolveFolder` once per entry, first to last, and the tree grows as `Grew` allows for those entries. |
| Ws.WS.Resolve | src/logic/ws.ts:60 | One `resolveFolder` call keeps the tree valid, changes it exactly as `Filed` states, and is logged. |

## Left out

- JSON encoding and decoding: frames are values. `JSON.parse` of a malformed frame, and frames whose fields have other types, are not modelled.
- The WebSocket's lifecycle: opening the connection, registering the event listeners, and the `{token}` frame sent when the connection opens (`src/logic/ws.ts:12-18`). `Socket` only logs the frames written to it.
- `console.error` and `console.log`: they have no effect on state.
- `window.__mm_store` (`src/logic/message.ts:36`): exposing the cache to the page is not modelled.
- `new Date(m.InternalDate)`: date parsing is left out, and the internal date is kept as a string. The message body and envelope are opaque payloads passed through unchanged.
- Resolving a promise is modelled as a log entry. The callbacks that run later, and the `console.log` in the trigger, are left out.
- The `then` of a promise resolved at once (`Promise.resolve([...])`) is modelled as `Resolved(messages)`; scheduling is left out.
- Strings: JavaScript strings are sequences of UTF-16 code units, and the model's strings are sequences of Unicode scalar values. The two differ only outside the Basic Multilingual Plane. In the source, a delimiter outside that plane is two code units long, so `x.Name[i] != x.Delimiter` (`src/logic/folder.ts:92`) never finds it, while `Js.CharIs` does. Names holding unpaired surrogates cannot be represented at all. Indices count scalar values, not code units.
- Number width: tokens, sequence numbers and clock readings are unbounded integers, and JavaScript's floating-point numbers are not modelled.
- The test server (`test-server/main.go`) and the UI are not part of this model.
- Ws.WS.HandleMessage: for a `list` frame it states the log of `resolveFolder` calls (`ResolvedInOrder`) and the growth `Grew`. It does not state each folder's final name, attributes and children. That state is the composition of the `Filed` of every call, and the model does not write it as one formula.
- Ws.WS.Dispatch: for a `list` frame it states `ResolvedInOrder` and `Grew` only. The folder-by-folder state of the tree after the whole list is not stated, for the reason given for `HandleMessage`.
- Ws.WS.ResolveAll: it states the order of the `resolveFolder` calls and `Grew`, not the composed folder-by-folder effect of all the calls.
- Ws.WS.ResolveEach: it states that the calls are logged in order and `Grew`, not the composed folder-by-folder effect. Each single call's effect is stated by `Ws.WS.Resolve` as `Filed`.
- Folder.FolderManager.Valid: it states that the tree is closed under children. It does not state that the tree is acyclic or that each folder has one parent. The code never creates a cycle, since it only appends new folders.
