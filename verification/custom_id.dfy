/**
 The custom id carried by every role button of the panel.

 A button for role `id` carries `"role_" + id`. When the button is clicked the
 handler recovers the role id with `String.prototype.replace("role_", "")`.
 With a string pattern (and this `$`-free replacement) that call replaces
 only the FIRST occurrence of the pattern, wherever it is, and leaves the
 string alone when there is none; it does not check that the id starts with
 the prefix.
 */
module CustomId {
  import opened Wrappers

  /** The prefix of every role button's custom id. */
  const Prefix: string := "role_"

  /** The custom id of the button for `roleId`. */
  function Encode(roleId: string): (customId: string)
    ensures |customId| == |Prefix| + |roleId|
    ensures OccursAt(customId, Prefix, 0)
    ensures customId[|Prefix|..] == roleId
  {
    Prefix + roleId
  }

  /** `pat` occurs in `s` starting at position `i`. */
  predicate OccursAt(s: string, pat: string, i: nat) {
    i + |pat| <= |s| && s[i..i + |pat|] == pat
  }

  predicate Contains(s: string, pat: string) {
    exists i: nat | i <= |s| :: OccursAt(s, pat, i)
  }

  /** The first position at or after `from` where `pat` occurs in `s`. */
  function IndexOfFrom(s: string, pat: string, from: nat): (r: Option<nat>)
    ensures r.Some? ==> from <= r.value && OccursAt(s, pat, r.value)
    ensures r.Some? ==> forall j: nat :: from <= j < r.value ==> !OccursAt(s, pat, j)
    ensures r.None? ==> forall j: nat :: from <= j ==> !OccursAt(s, pat, j)
    decreases |s| - from
  {
    if |s| < from + |pat| then None
    else if s[from..from + |pat|] == pat then Some(from)
    else IndexOfFrom(s, pat, from + 1)
  }

  /** String.prototype.indexOf: the first position where `pat` occurs in `s`, if any. */
  function IndexOf(s: string, pat: string): (r: Option<nat>)
    ensures r.Some? <==> Contains(s, pat)
  {
    IndexOfFrom(s, pat, 0)
  }

  /**
   String.prototype.replace with a string pattern and a replacement free of
   `$` patterns (such as the empty one used to decode): only the first
   occurrence is replaced, and the replacement is copied literally.
   */
  function ReplaceFirst(s: string, pat: string, rep: string): (r: string)
    ensures !Contains(s, pat) ==> r == s
    ensures Contains(s, pat) ==> |r| == |s| - |pat| + |rep|
  {
    match IndexOf(s, pat)
    case None => s
    case Some(i) => s[..i] + rep + s[i + |pat|..]
  }

  /** The role id a clicked button designates: its custom id with the first "role_" removed. */
  function Decode(customId: string): (roleId: string)
    ensures !Contains(customId, Prefix) ==> roleId == customId
    ensures Contains(customId, Prefix) ==> |roleId| == |customId| - |Prefix|
  {
    ReplaceFirst(customId, Prefix, "")
  }

  /** The replacement happens at the first occurrence of the pattern and nowhere else. */
  lemma ReplaceFirstAt(s: string, pat: string, rep: string, i: nat)
    requires OccursAt(s, pat, i)
    requires forall j: nat :: j < i ==> !OccursAt(s, pat, j)
    ensures ReplaceFirst(s, pat, rep) == s[..i] + rep + s[i + |pat|..]
  {
  }

  /** Decoding the id of the button for `roleId` gives back `roleId`, whatever `roleId` contains. */
  lemma DecodeEncode(roleId: string)
    ensures Decode(Encode(roleId)) == roleId
  {
    ReplaceFirstAt(Encode(roleId), Prefix, "", 0);
  }

  /** A custom id that starts with the prefix is the encoding of what it decodes to. */
  lemma EncodeDecode(customId: string)
    requires OccursAt(customId, Prefix, 0)
    ensures Encode(Decode(customId)) == customId
  {
    ReplaceFirstAt(customId, Prefix, "", 0);
    assert Prefix + customId[|Prefix|..] == customId;
  }

  /** The prefix need not lead: the first "role_" is cut out wherever it sits. */
  lemma DecodeCutsFirstOccurrence(lead: string, rest: string)
    requires forall j: nat :: j < |lead| ==> !OccursAt(lead + Prefix + rest, Prefix, j)
    ensures Decode(lead + Prefix + rest) == lead + rest
  {
    var s := lead + Prefix + rest;
    assert s[|lead|..|lead| + |Prefix|] == Prefix;
    ReplaceFirstAt(s, Prefix, "", |lead|);
    assert s[..|lead|] == lead;
    assert s[|lead| + |Prefix|..] == rest;
  }
}
