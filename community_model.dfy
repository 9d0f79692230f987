/** The community document of `Community.js`: its fields, the embedded message sub-documents, and
    what the schema does when a document is built and saved (defaults, `trim`, `required`,
    `maxlength`). */
module CommunityModel {
  import opened Common
  import opened JsString

  /** Identifiers of users and of communities, compared as their string forms. */
  type UserId = string
  type CommunityId = string

  /** A chat message; it exists only inside its community's `messages` sequence. */
  datatype Message = Message(sender: UserId, senderName: string, text: string, createdAt: int)

  datatype Community = Community(
    id: CommunityId,
    name: string,
    description: string,
    code: string,
    creator: UserId,
    members: seq<UserId>,
    messages: seq<Message>,
    createdAt: int)

  /** `maxlength` of the community name. */
  const MaxNameLength: nat := 100

  /** What the message schema accepts: a sender, and a text that is trimmed and not empty. */
  predicate MessageValid(m: Message) {
    m.sender != "" && m.text != "" && m.text == Trim(m.text)
  }

  /** What the community schema accepts on save. */
  predicate CommunityValid(c: Community) {
    && c.name != "" && c.name == Trim(c.name) && |c.name| <= MaxNameLength
    && c.description == Trim(c.description)
    && c.code != ""
    && c.creator != ""
    && forall k :: 0 <= k < |c.messages| ==> MessageValid(c.messages[k])
  }

  /** A message sub-document built from a request and saved: `text` is trimmed by the schema, and a
      save fails (None) when the sender is missing or the trimmed text is empty. */
  function NewMessage(sender: UserId, senderName: string, text: string, now: int): (r: Option<Message>)
    ensures r.Some? <==> sender != "" && !AllWhitespace(text)
    ensures r.Some? ==> MessageValid(r.value) && r.value.sender == sender
                        && r.value.senderName == senderName && r.value.createdAt == now
    ensures r.Some? ==> r.value.text == Trim(text)
  {
    var t := Trim(text);
    TrimIdempotent(text);
    if sender == "" || t == "" then None else Some(Message(sender, senderName, t, now))
  }

  /** A community document built from a request and saved: `description` defaults to the empty
      string, `name` and `description` are trimmed, and the save fails (None) when the trimmed name
      is empty or longer than 100 characters, or the code or the creator is missing. */
  function NewCommunity(id: CommunityId, name: string, description: Option<string>, code: string,
                        creator: UserId, members: seq<UserId>, now: int): (r: Option<Community>)
    ensures r.Some? <==> !AllWhitespace(name) && |Trim(name)| <= MaxNameLength
                         && code != "" && creator != ""
    ensures r.Some? ==> CommunityValid(r.value) && r.value.messages == []
                        && r.value.id == id && r.value.code == code && r.value.creator == creator
                        && r.value.members == members && r.value.createdAt == now
    ensures r.Some? ==> r.value.name == Trim(name)
    ensures r.Some? && description.None? ==> r.value.description == ""
    ensures r.Some? && description.Some? ==> r.value.description == Trim(description.value)
  {
    var n := Trim(name);
    var given := if description.Some? then description.value else "";
    var d := Trim(given);
    TrimIdempotent(name);
    TrimIdempotent(given);
    if n == "" || |n| > MaxNameLength || code == "" || creator == "" then None
    else Some(Community(id, n, d, code, creator, members, [], now))
  }
}
