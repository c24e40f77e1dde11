/**
 The button-click handler. A click on any button is decoded to a role id; a
 role the guild does not have earns a private "role not found" reply and
 nothing else, a role the member holds is removed, and a role the member lacks
 is added, each with a private reply naming the role.

 The guild's roles are a map from role id to role name, and the member's roles
 are a set of role ids. Every reply is ephemeral (visible to the clicker only).
 */
module RoleToggle {
  import opened Wrappers
  import CustomId
  import Panel
  import opened Ids

  datatype Interaction = ButtonClick(customId: string) | OtherInteraction

  /** The private reply, by kind and role name. */
  datatype Reply = RoleNotFound | RoleRemoved(roleName: string) | RoleAdded(roleName: string)

  /** The one call the handler makes on the member's roles, if any. */
  datatype Mutation = RemoveRole(roleId: RoleId) | AddRole(roleId: RoleId)

  datatype Outcome = Outcome(held: set<RoleId>, mutation: Option<Mutation>, reply: Option<Reply>)

  /** The member's roles after the platform has carried out `m`. */
  function Apply(held: set<RoleId>, m: Option<Mutation>): (after: set<RoleId>) {
    match m
    case None => held
    case Some(RemoveRole(id)) => held - {id}
    case Some(AddRole(id)) => held + {id}
  }

  /** Handling one interaction from a member holding `held` in a guild whose roles are `guildRoles`. */
  function HandleInteraction(ia: Interaction, guildRoles: map<RoleId, string>, held: set<RoleId>): (r: Outcome)
    ensures r.held == Apply(held, r.mutation)
    ensures ia.OtherInteraction? ==> r.mutation.None? && r.reply.None?
    ensures ia.ButtonClick? ==> r.reply.Some?
    ensures ia.ButtonClick? ==>
      var id := CustomId.Decode(ia.customId);
      && (id !in guildRoles <==> r.mutation.None?)
      && (id !in guildRoles ==> r.held == held && r.reply == Some(RoleNotFound))
      && (id in guildRoles ==> (id in r.held <==> id !in held))
      && (id in guildRoles && id in held ==> r.reply == Some(RoleRemoved(guildRoles[id])))
      && (id in guildRoles && id !in held ==> r.reply == Some(RoleAdded(guildRoles[id])))
      && (forall other :: other != id ==> (other in r.held <==> other in held))
  {
    match ia
    case OtherInteraction => Outcome(held, None, None)
    case ButtonClick(customId) =>
      var id := CustomId.Decode(customId);
      if id !in guildRoles then Outcome(held, None, Some(RoleNotFound))
      else if id in held then Outcome(held - {id}, Some(RemoveRole(id)), Some(RoleRemoved(guildRoles[id])))
      else Outcome(held + {id}, Some(AddRole(id)), Some(RoleAdded(guildRoles[id])))
  }

  /** Clicking the same button twice gives the member back the roles they started with. */
  lemma ToggleTwice(ia: Interaction, guildRoles: map<RoleId, string>, held: set<RoleId>)
    ensures HandleInteraction(ia, guildRoles, HandleInteraction(ia, guildRoles, held).held).held == held
  {
  }

  /**
   A click on the panel button of option `opt` acts on `opt.roleId`: it toggles
   that role alone when the guild has it, and otherwise only replies.
   */
  lemma PanelButtonTogglesItsRole(opt: Panel.RoleOption, guildRoles: map<RoleId, string>, held: set<RoleId>)
    ensures
      var r := HandleInteraction(ButtonClick(Panel.ToButton(opt).customId), guildRoles, held);
      && (opt.roleId in guildRoles ==> (opt.roleId in r.held <==> opt.roleId !in held))
      && (opt.roleId in guildRoles ==> forall other :: other != opt.roleId ==> (other in r.held <==> other in held))
      && (opt.roleId !in guildRoles ==> r.held == held && r.reply == Some(RoleNotFound))
  {
  }
}
