/**
 The message handler. Two independent checks run on every message: the text
 `!create_panel` from an administrator deletes the command message and posts
 the role panel; the text `!update_permissions` from an administrator replies
 that the update is under way, runs the permission sync and replies that it is
 done. Any other message, and either command from a non-administrator, is
 ignored without a reply.

 The output is the sequence of calls made on the platform, by kind, together
 with the permission overwrites after the handler.
 */
module Commands {
  import Panel
  import PermissionSync

  datatype Message = Message(content: string, authorIsAdministrator: bool)

  const CreatePanelCommand: string := "!create_panel"
  const UpdatePermissionsCommand: string := "!update_permissions"

  /** The two public replies of the permission command: under way, and done. */
  datatype Notice = UpdatingNotice | CompletedNotice

  datatype Action =
    | DeleteTrigger
    | SendPanel(embed: Panel.Embed, rows: seq<Panel.Row>)
    | Reply(notice: Notice)

  /** The platform's rejections: of the command message's deletion, and of overwrite edits. */
  datatype Faults = Faults(deleteFails: bool, editFailures: set<PermissionSync.FailPoint>)

  datatype Outcome = Outcome(actions: seq<Action>, overwrites: PermissionSync.Overwrites)

  /** The shared guard: the exact command text, sent by a member holding Administrator. */
  predicate Invokes(msg: Message, command: string) {
    msg.content == command && msg.authorIsAdministrator
  }

  /**
   Handling one message. A rejected deletion of the command message is caught
   nowhere, so the handling of this message stops before the panel is sent;
   that the rejection then ends the whole process is outside this model.
   */
  function HandleMessage(
    msg: Message,
    cfg: Panel.PanelConfig,
    channels: seq<PermissionSync.Channel>,
    ow: PermissionSync.Overwrites,
    faults: Faults
  ): (r: Outcome)
    ensures (exists a :: a in r.actions && a.SendPanel?) <==>
      msg.content == CreatePanelCommand && msg.authorIsAdministrator && !faults.deleteFails
    ensures (DeleteTrigger in r.actions) <==>
      msg.content == CreatePanelCommand && msg.authorIsAdministrator
    ensures (Reply(CompletedNotice) in r.actions) <==>
      msg.content == UpdatePermissionsCommand && msg.authorIsAdministrator
    ensures r.actions == [] <==>
      !((msg.content == CreatePanelCommand || msg.content == UpdatePermissionsCommand) && msg.authorIsAdministrator)
    ensures r.overwrites != ow ==> msg.content == UpdatePermissionsCommand && msg.authorIsAdministrator
    ensures forall a :: a in r.actions && a.SendPanel? ==>
      a.embed == Panel.Embed(cfg.title, cfg.description, Panel.AccentColor) && Panel.IsLayoutOf(cfg.roles, a.rows)
  {
    if Invokes(msg, CreatePanelCommand) && faults.deleteFails then
      Outcome([DeleteTrigger], ow)
    else
      var send := SendPanel(Panel.PanelEmbed(cfg), Panel.Layout(cfg.roles));
      var panel := if Invokes(msg, CreatePanelCommand) then [DeleteTrigger, send] else [];
      assert Invokes(msg, CreatePanelCommand) ==> send in panel;
      if Invokes(msg, UpdatePermissionsCommand)
      then
        Outcome(panel + [Reply(UpdatingNotice), Reply(CompletedNotice)],
                PermissionSync.Sync(ow, channels, faults.editFailures))
      else
        Outcome(panel, ow)
  }

  /**
   The permission command from an administrator replies twice and leaves the
   overwrites a sync of the guild's channels leaves; every per-channel
   rejection is absorbed, so the completion reply always follows.
   */
  lemma UpdatePermissionsRuns(
    msg: Message,
    cfg: Panel.PanelConfig,
    channels: seq<PermissionSync.Channel>,
    ow: PermissionSync.Overwrites,
    faults: Faults
  )
    requires msg.content == UpdatePermissionsCommand && msg.authorIsAdministrator
    ensures HandleMessage(msg, cfg, channels, ow, faults).actions == [Reply(UpdatingNotice), Reply(CompletedNotice)]
    ensures PermissionSync.SyncSpec(ow, channels, faults.editFailures, HandleMessage(msg, cfg, channels, ow, faults).overwrites)
  {
    PermissionSync.SyncMeetsSpec(ow, channels, faults.editFailures);
  }

  /**
   The panel command from an administrator deletes the command message and,
   when that succeeds, posts the panel: ceil(N / 5) rows for N configured roles.
   */
  lemma CreatePanelRuns(
    msg: Message,
    cfg: Panel.PanelConfig,
    channels: seq<PermissionSync.Channel>,
    ow: PermissionSync.Overwrites,
    faults: Faults
  )
    requires msg.content == CreatePanelCommand && msg.authorIsAdministrator && !faults.deleteFails
    ensures var r := HandleMessage(msg, cfg, channels, ow, faults);
      && |r.actions| == 2
      && r.actions[0] == DeleteTrigger
      && r.actions[1].SendPanel?
      && |r.actions[1].rows| == (|cfg.roles| + Panel.ButtonsPerRow - 1) / Panel.ButtonsPerRow
      && r.overwrites == ow
  {
  }

  /**
   A message runs at most one command: an outcome that posts the panel sends
   no reply and leaves the overwrites untouched, and one that replies posts
   no panel.
   */
  lemma CommandsExclusive(
    msg: Message,
    cfg: Panel.PanelConfig,
    channels: seq<PermissionSync.Channel>,
    ow: PermissionSync.Overwrites,
    faults: Faults
  )
    ensures var r := HandleMessage(msg, cfg, channels, ow, faults);
      (exists a :: a in r.actions && a.SendPanel?) ==>
        && r.overwrites == ow
        && forall a :: a in r.actions ==> !a.Reply?
  {
  }
}
