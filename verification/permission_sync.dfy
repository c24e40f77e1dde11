/**
 The permission sync run by `!update_permissions`.

 For every channel of the guild, in the guild's order, a text-capable channel
 gets two permission-overwrite edits: the @everyone role may view it exactly
 when its id is on the allow-list, and the privileged view role may always
 view it. Other channels are skipped. Each channel's two edits sit in one
 try/catch, so a rejected edit ends that channel's work (a rejection at the
 second edit leaves the first one applied) and the loop goes on with the next
 channel.

 The overwrites are a map from (channel, subject) to the ViewChannel flag; a
 missing key means no overwrite. Which edits the platform rejects is given as
 a set of failure points, since that depends on the platform, not on the bot.
 */
module PermissionSync {
  import opened Wrappers
  import opened Ids

  /** The channels that stay visible to @everyone. */
  const AllowedChannelIds: seq<ChannelId> := [
    "1397039034437599243",
    "1365650307249606666",
    "1381607109204119704",
    "1396875452441952319",
    "1396874181878087821",
    "1381601112951357475"
  ]

  /** The role that is shown every channel. */
  const ViewRoleId: RoleId := "1396874755763732651"

  datatype Channel = Channel(id: ChannelId, name: string, textBased: bool)

  /**
   Whom an overwrite is for: the guild's @everyone role or a role by id. On
   the platform @everyone is the role whose id is the guild's id; here it is a
   subject of its own, and `Role(<guild id>)` stands for nothing.
   */
  datatype Subject = Everyone | Role(roleId: RoleId)

  datatype Target = Target(channel: ChannelId, subject: Subject)

  /** The ViewChannel flag of every permission overwrite there is. */
  type Overwrites = map<Target, bool>

  /** The first (@everyone) or the second (view role) edit made on a channel. */
  datatype Edit = EditEveryone | EditViewRole

  /** The platform rejects edit `edit` on channel `channel`. */
  datatype FailPoint = FailPoint(channel: ChannelId, edit: Edit)

  function Lookup(ow: Overwrites, t: Target): (v: Option<bool>) {
    if t in ow then Some(ow[t]) else None
  }

  /** The work done on one channel inside its try/catch. */
  function SyncChannel(ow: Overwrites, ch: Channel, fails: set<FailPoint>): (r: Overwrites) {
    if !ch.textBased then ow
    else if FailPoint(ch.id, EditEveryone) in fails then ow
    else
      var ow' := ow[Target(ch.id, Everyone) := ch.id in AllowedChannelIds];
      if FailPoint(ch.id, EditViewRole) in fails then ow'
      else ow'[Target(ch.id, Role(ViewRoleId)) := true]
  }

  /** The channels handled in order, first to last. */
  function Sync(ow: Overwrites, chans: seq<Channel>, fails: set<FailPoint>): (r: Overwrites)
    decreases |chans|
  {
    if |chans| == 0 then ow
    else SyncChannel(Sync(ow, chans[..|chans| - 1], fails), chans[|chans| - 1], fails)
  }

  // Pointwise description of the outcome of a sync, independent of the order of the channels.

  function TextIds(chans: seq<Channel>): (ids: set<ChannelId>) {
    set c | c in chans && c.textBased :: c.id
  }

  /** The edit that writes `t` goes through (and, for the view role, so does the one before it). */
  predicate EditSucceeds(fails: set<FailPoint>, t: Target) {
    && FailPoint(t.channel, EditEveryone) !in fails
    && (t.subject == Everyone || (t.subject == Role(ViewRoleId) && FailPoint(t.channel, EditViewRole) !in fails))
  }

  /** A sync writes `t`. */
  predicate Written(chans: seq<Channel>, fails: set<FailPoint>, t: Target) {
    t.channel in TextIds(chans) && EditSucceeds(fails, t)
  }

  /** The flag a sync writes at `t`. */
  function WrittenValue(t: Target): (allow: bool) {
    if t.subject == Everyone then t.channel in AllowedChannelIds else true
  }

  function ExpectedAt(ow: Overwrites, chans: seq<Channel>, fails: set<FailPoint>, t: Target): (v: Option<bool>) {
    if Written(chans, fails, t) then Some(WrittenValue(t)) else Lookup(ow, t)
  }

  /**
   `r` is what a sync of `chans` leaves behind: every overwrite it writes has
   the value it writes, and every other overwrite, present or absent, is as it
   was in `ow`.
   */
  ghost predicate SyncSpec(ow: Overwrites, chans: seq<Channel>, fails: set<FailPoint>, r: Overwrites) {
    forall t :: Lookup(r, t) == ExpectedAt(ow, chans, fails, t)
  }

  lemma LookupExtensional(a: Overwrites, b: Overwrites)
    requires forall t :: Lookup(a, t) == Lookup(b, t)
    ensures a == b
  {
    forall t ensures t in a <==> t in b {
      assert Lookup(a, t) == Lookup(b, t);
    }
    forall t | t in a ensures a[t] == b[t] {
      assert Lookup(a, t) == Lookup(b, t);
    }
  }

  lemma TextIdsSnoc(init: seq<Channel>, last: Channel)
    ensures TextIds(init + [last]) == TextIds(init) + TextIds([last])
  {
  }

  lemma SyncChannelAt(ow: Overwrites, ch: Channel, fails: set<FailPoint>, t: Target)
    ensures Lookup(SyncChannel(ow, ch, fails), t) == ExpectedAt(ow, [ch], fails, t)
  {
  }

  /** The fold over the channels meets the pointwise description. */
  lemma {:induction false} SyncMeetsSpec(ow: Overwrites, chans: seq<Channel>, fails: set<FailPoint>)
    ensures SyncSpec(ow, chans, fails, Sync(ow, chans, fails))
    decreases |chans|
  {
    if |chans| == 0 {
      assert TextIds(chans) == {};
    } else {
      var init := chans[..|chans| - 1];
      var last := chans[|chans| - 1];
      var before := Sync(ow, init, fails);
      SyncMeetsSpec(ow, init, fails);
      assert init + [last] == chans;
      TextIdsSnoc(init, last);
      forall t ensures Lookup(SyncChannel(before, last, fails), t) == ExpectedAt(ow, chans, fails, t) {
        SyncChannelAt(before, last, fails, t);
      }
    }
  }

  /**
   updateChannelPermissions: the loop over the guild's channels, skipping
   channels that are not text-based and giving up on a channel at its first
   rejected edit.
   */
  method UpdateChannelPermissions(ow: Overwrites, channels: seq<Channel>, fails: set<FailPoint>)
    returns (r: Overwrites)
    ensures SyncSpec(ow, channels, fails, r)
  {
    r := ow;
    for i := 0 to |channels|
      invariant r == Sync(ow, channels[..i], fails)
    {
      var ch := channels[i];
      assert channels[..i + 1][..i] == channels[..i];
      if !ch.textBased {
        continue;
      }
      var isAllowed := ch.id in AllowedChannelIds;
      if FailPoint(ch.id, EditEveryone) in fails {
        continue;
      }
      r := r[Target(ch.id, Everyone) := isAllowed];
      if FailPoint(ch.id, EditViewRole) in fails {
        continue;
      }
      r := r[Target(ch.id, Role(ViewRoleId)) := true];
    }
    assert channels[..|channels|] == channels;
    SyncMeetsSpec(ow, channels, fails);
  }

  /**
   With no rejected edit, every text channel ends up visible to @everyone
   exactly when it is allowed and always visible to the view role, and every
   overwrite of any other channel, or for any other subject, is untouched.
   */
  lemma SyncWithoutFailures(ow: Overwrites, chans: seq<Channel>)
    ensures forall c :: c in chans && c.textBased ==>
      && Lookup(Sync(ow, chans, {}), Target(c.id, Everyone)) == Some(c.id in AllowedChannelIds)
      && Lookup(Sync(ow, chans, {}), Target(c.id, Role(ViewRoleId))) == Some(true)
    ensures forall t: Target :: t.channel !in TextIds(chans) ==> Lookup(Sync(ow, chans, {}), t) == Lookup(ow, t)
    ensures forall t: Target :: t.subject != Everyone && t.subject != Role(ViewRoleId) ==>
      Lookup(Sync(ow, chans, {}), t) == Lookup(ow, t)
  {
  }

  /**
   Re-running the sync with at most the same rejections leaves the overwrites
   the re-run alone would leave: an earlier, partly failed run leaves no trace.
   */
  lemma SyncRerun(ow: Overwrites, chans: seq<Channel>, fails: set<FailPoint>, retryFails: set<FailPoint>)
    requires retryFails <= fails
    ensures Sync(Sync(ow, chans, fails), chans, retryFails) == Sync(ow, chans, retryFails)
  {
    var first := Sync(ow, chans, fails);
    SyncMeetsSpec(ow, chans, fails);
    SyncMeetsSpec(first, chans, retryFails);
    SyncMeetsSpec(ow, chans, retryFails);
    forall t ensures Lookup(Sync(first, chans, retryFails), t) == Lookup(Sync(ow, chans, retryFails), t) {
      assert Lookup(first, t) == ExpectedAt(ow, chans, fails, t);
    }
    LookupExtensional(Sync(first, chans, retryFails), Sync(ow, chans, retryFails));
  }

  /** Two syncs in a row leave what one leaves. */
  lemma SyncIdempotent(ow: Overwrites, chans: seq<Channel>, fails: set<FailPoint>)
    ensures Sync(Sync(ow, chans, fails), chans, fails) == Sync(ow, chans, fails)
  {
    SyncRerun(ow, chans, fails, fails);
  }

  /**
   Rejections on other channels do not affect a channel: its overwrites are
   those of a sync without any rejection.
   */
  lemma SyncFailureIsolated(ow: Overwrites, chans: seq<Channel>, fails: set<FailPoint>, id: ChannelId)
    requires FailPoint(id, EditEveryone) !in fails && FailPoint(id, EditViewRole) !in fails
    ensures forall s :: Lookup(Sync(ow, chans, fails), Target(id, s)) == Lookup(Sync(ow, chans, {}), Target(id, s))
  {
  }

  /**
   A rejected first edit leaves the channel's overwrites as they were; a
   rejected second edit keeps the first edit and leaves the view role's
   overwrite as it was.
   */
  lemma SyncPartialFailure(ow: Overwrites, chans: seq<Channel>, fails: set<FailPoint>, ch: Channel)
    requires ch in chans && ch.textBased
    ensures FailPoint(ch.id, EditEveryone) in fails ==>
      forall s :: Lookup(Sync(ow, chans, fails), Target(ch.id, s)) == Lookup(ow, Target(ch.id, s))
    ensures FailPoint(ch.id, EditEveryone) !in fails && FailPoint(ch.id, EditViewRole) in fails ==>
      && Lookup(Sync(ow, chans, fails), Target(ch.id, Everyone)) == Some(ch.id in AllowedChannelIds)
      && Lookup(Sync(ow, chans, fails), Target(ch.id, Role(ViewRoleId))) == Lookup(ow, Target(ch.id, Role(ViewRoleId)))
  {
    SyncMeetsSpec(ow, chans, fails);
    assert ch.id in TextIds(chans);
  }
}
