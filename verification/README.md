# Role-panel bot: a Dafny model

This project models the logic of a small Discord community bot (`index.js`).
The bot does three things:

- It posts a **role panel** when an administrator types `!create_panel`. The panel is an embed plus one button per configured role. The buttons sit in action rows of at most five.
- It **toggles a role** when a member clicks a panel button. The role id is recovered from the button's custom id `role_<roleId>`. An unknown role gets a private "role not found" reply. A held role is removed, a missing role is added, and each case gets a private reply naming the role.
- It **syncs channel visibility** when an administrator types `!update_permissions`. Every text-capable channel gets two overwrites:
  - `@everyone` may view the channel exactly when its id is on a fixed allow-list;
  - a fixed view role may always view it.

  Each channel's edits are wrapped in a try/catch, so one channel's failure does not stop the loop.

Discord state is abstracted as values:
- the guild's roles are a map from role id to name;
- a member's roles are a set of role ids;
- permission overwrites are a map from (channel, subject) to the ViewChannel flag;
- the platform's rejections are parameters: a set of failing (channel, edit) points, and whether deleting the command message fails.

Modules (one file each):

- `Wrappers` (`wrappers.dfy`): `Option`.
- `Ids` (`ids.dfy`): role and channel ids.
- `CustomId` (`custom_id.dfy`): the `role_` encoding, plus JavaScript's `String.prototype.replace` with a string pattern and a replacement free of `$` patterns, such as the empty one at index.js:131. That call replaces only the first occurrence.
- `Panel` (`panel.dfy`): role options, buttons, the embed, and the row layout. The layout is given three ways: a predicate saying what a layout is, a recursive function, and a method that mirrors the source's `i += 5` loop.
- `RoleToggle` (`role_toggle.dfy`): the `interactionCreate` handler.
- `PermissionSync` (`permission_sync.dfy`): `updateChannelPermissions`, as a fold over channels and as a loop. A pointwise description of its outcome comes with it.
- `Commands` (`commands.dfy`): the `messageCreate` handler, with its two guarded commands.

Three behaviours of the code are easy to misread; the model follows the code:

- **Non-prefixed buttons.** The click handler only checks that the interaction is a button (index.js:129). It does not check that the custom id starts with `role_`. Any button click is therefore decoded. `Decode` leaves an id without `role_` unchanged, and it cuts out the first `role_` wherever that occurs (`CustomId.DecodeCutsFirstOccurrence`).
- **Deleting the command message.** The delete is awaited without a catch (index.js:89), so it is not best-effort. A rejected delete stops the handling of that message before the panel is sent. The rejection is caught nowhere in index.js, so it also ends the bot's process (see "## Left out").
- **Completion reply.** Every edit in the sync is inside the per-channel try/catch. The sync therefore never fails as a whole, and the completion reply always follows the sync.

## Model

| member | source | states |
|---|---|---|
| CustomId.Encode | index.js:106 | The custom id of role `id` is `role_` followed by `id`. It starts with the prefix, and what follows the prefix is exactly `id`. |
| CustomId.IndexOfFrom | index.js:131 | Any position found holds an occurrence of the pattern, and no earlier position from the start point does. "Not found" means the pattern occurs nowhere from the start point on. |
| CustomId.ReplaceFirst | index.js:131 | With no occurrence, the string is returned unchanged. With an occurrence, one pattern's length is swapped for the replacement's length. |
| CustomId.ReplaceFirstAt | index.js:131 | The replacement happens at the first occurrence of the pattern and only there. |
| CustomId.Decode | index.js:131 | An id without `role_` is returned as is. Otherwise exactly one `role_` is removed. |
| CustomId.DecodeEncode | index.js:131 | Decoding a button's id gives back its role id, for every role id. This holds even when the role id itself contains `role_`. |
| CustomId.EncodeDecode | index.js:131 | An id that starts with `role_` is the encoding of what it decodes to. |
| CustomId.DecodeCutsFirstOccurrence | index.js:129-131 | The prefix is not required at the front. The first `role_` is cut out wherever it sits, and the rest of the id is left as it was. |
| Panel.ToButton | index.js:105-108 | An option's button decodes back to the option's role id and carries the option's label. |
| Panel.Layout | index.js:97-113 | The panel's rows are a layout of the configured options (see `IsLayoutOf`): the rows read back the buttons in order, each row holds 1 to 5 buttons, and every row but the last holds exactly 5. N options give ceil(N/5) rows. |
| Panel.RenderRows | index.js:97-113 | The source's loop steps by five and slices with a clamped end. It produces a layout of the options with ceil(N/5) rows, and none when N = 0. |
| Panel.LayoutCarriesOptions | index.js:102-109 | In any layout, the k-th button read row by row has custom id `role_` + the k-th role id and the k-th label, and it decodes to that role id. |
| Panel.LayoutRowCount | index.js:100-102 | Any arrangement satisfying the row rules has ceil(N/5) rows. |
| Panel.LayoutUnique | index.js:100-113 | The row rules allow exactly one arrangement, and it is the panel's layout. |
| RoleToggle.HandleInteraction | index.js:128-156 | A non-button interaction does nothing. For a button click:<br>- an unknown decoded role gets only a "not found" reply and makes no call;<br>- a held role is removed, with a "removed" reply naming it;<br>- a missing role is added, with an "added" reply naming it;<br>- no other role of the member changes;<br>- the member's new roles are the old ones with the single call applied. |
| RoleToggle.ToggleTwice | index.js:143-155 | Handling the same click twice restores the member's original roles. |
| RoleToggle.PanelButtonTogglesItsRole | index.js:131-155 | A click on the panel button of an option toggles exactly that option's role when the guild has it. Otherwise the member's roles stay the same and the reply is "not found". |
| PermissionSync.SyncChannelAt | index.js:64-80 | One channel's step writes only that channel's two overwrites, and only while no edit has been rejected. It skips non-text channels. |
| PermissionSync.SyncMeetsSpec | index.js:63-81 | After the fold over the channels, every overwrite the sync writes has the written value. Every other overwrite, present or absent, is as before. |
| PermissionSync.UpdateChannelPermissions | index.js:50-82 | The loop over the guild's channels (skip non-text, then two edits under one try/catch) leaves exactly the overwrites described by `SyncSpec`. |
| PermissionSync.SyncWithoutFailures | index.js:63-75 | With no rejections, every text channel gets `@everyone` view = (id on the allow-list) and view-role view = true. Overwrites of other channels and of other subjects are untouched. |
| PermissionSync.SyncRerun | index.js:63-81 | Re-running the sync with no more rejections than before gives what the re-run alone gives. An earlier partial run leaves no trace. |
| PermissionSync.SyncIdempotent | index.js:63-75 | Two syncs in a row leave the same overwrites as one. |
| PermissionSync.SyncFailureIsolated | index.js:68-80 | Rejections on other channels do not change a channel's overwrites: they equal those of a sync with no rejections. |
| PermissionSync.SyncPartialFailure | index.js:68-80 | If the first edit is rejected, the channel's overwrites are unchanged. If only the second edit is rejected, the `@everyone` edit stays applied and the view role's overwrite is unchanged. |
| Commands.HandleMessage | index.js:84-126 | The panel is posted iff the content is exactly `!create_panel`, the author is an administrator, and the delete succeeded. The completion reply comes iff the content is exactly `!update_permissions` and the author is an administrator. Any other message gets no call at all, and only the permission command changes the overwrites. A posted panel carries the configured title and description, colour 0x00bfff, and a layout of the configured roles. |
| Commands.UpdatePermissionsRuns | index.js:118-125 | The permission command replies "updating" and then "done". The overwrites end as `SyncSpec` describes, whatever edits were rejected. |
| Commands.CreatePanelRuns | index.js:85-115 | The panel command deletes the command message and then sends one panel with ceil(N/5) rows. It leaves the overwrites untouched. |
| Commands.CommandsExclusive | index.js:84-126 | A message runs at most one command: an outcome that posts the panel carries no reply and leaves the overwrites untouched. |

## Left out

- The Express status server (index.js:15-34): HTTP plumbing whose uptime and timestamp come from the clock.
- Client construction, gateway intents, the `ready` log, `dotenv`, reading `config.json`, and `client.login` (index.js:1-14, 36-48, 158): configuration and network setup. The panel configuration is a parameter.
- Embed and button rendering: the embed is a tag holding title, description and colour. The button style (always secondary) is not represented.
- Message sending, deleting and replying: these are output tags (`Action`, `Reply`). The reply texts are represented by their kind plus the role name.
- `console.log` and `console.error` output.
- Concurrency: two clicks in flight at once can both read "role absent". The source does no coordination, and the model handles one event at a time.
- The Administrator check (`permissions.has(Administrator)`) is modelled as one boolean on the author. A guild message without a member (e.g. from a webhook) whose content is exactly one of the two commands makes the source throw a TypeError, which, like a rejected call, is caught nowhere and ends the process (see below); that case is not modelled.
- Process exit on an uncaught rejection: index.js has no try/catch around the two event handlers (index.js:84-126, 128-156) and registers no `error` or `unhandledRejection` listener (index.js:36-48). A rejected delete, role add/remove, send or reply therefore makes the async listener's promise reject unhandled. Under Node's default since version 15 (the discord.js v14 API used here needs Node 16.11 or later), that ends the whole process, and every later message and click goes unhandled until the bot is restarted. The model describes one event at a time: it shows where that event's processing stops (`Commands.HandleMessage` after a rejected delete), not that the bot stops.
- Platform rejections are given up front, as a fixed set of (channel, edit) points. Rate limits and the timing of rejections are not modelled.
- `$` replacement patterns of `String.prototype.replace` (`$$`, `$&`, `` $` ``, `$'`) are not modelled: `CustomId.ReplaceFirst` copies the replacement literally, which is exact for the empty replacement at index.js:131.
- Threads are text-based and sit in the guild's channel collection, but have no permission overwrites of their own, so the first edit on a thread always throws and is absorbed by the catch. Such a thread belongs in the fail set as `FailPoint(<thread id>, EditEveryone)`; "every text-capable channel gets two overwrites" holds for channels that can carry overwrites.
- RoleToggle.HandleInteraction: the role add/remove call and the reply are assumed to succeed. In the source, a rejected call is caught nowhere: handling of the click stops there without a reply, and the process then exits, as described above.
- Commands.HandleMessage: a rejected send of the panel or of a reply is not modelled; only a rejected delete of the command message is. One such rejection is certain: with more than 25 configured roles the panel needs more than five action rows, which the platform refuses. The source then deletes the command message, posts nothing, and the process exits (see above), while the model shows the panel as sent.
- The model does not need channel ids to be unique: every text channel with a given id writes the same values.
- `@everyone` is a subject of its own (`Everyone`). On the platform it is the role whose id is the guild's id, so `Role(<guild id>)` has no counterpart there. The "other subjects are untouched" clause of `PermissionSync.SyncWithoutFailures` is meant for real roles only.
