/** Platform identifiers: role and channel ids are snowflake strings. */
module Ids {

  type RoleId = string

  type ChannelId = string

}
