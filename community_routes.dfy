/** The community router (`/api/communities`) over an in-memory Community collection: create with
    a unique join code, join by code, post a message, read one community or its message log, and
    list communities newest first. Each handler is a function from the collection and the request
    to the reply and the collection it leaves behind; the `Store` class runs the same handlers as
    methods that update its `communities` field in place. */
module CommunityRoutes {
  import opened Common
  import opened JsString
  import opened CommunityModel
  import opened CodeGenerator
  import opened UserModel

  /** A handler's reply together with the community collection it leaves behind. */
  datatype Step<T> = Step(reply: Response<T>, after: seq<Community>)

  /** The body of a successful join: the community and, for a user already in it, a note. */
  datatype Joined = Joined(community: Community, note: Option<string>)

  /** A community as listed: every field except the message log (`select('-messages')`). */
  datatype Summary = Summary(id: CommunityId, name: string, description: string, code: string,
                             creator: UserId, members: seq<UserId>, createdAt: int)

  const MissingCreateInput: string := "Missing name or creatorId"
  const CreatorNotFound: string := "Creator not found"
  const NoUniqueCode: string := "Unable to generate unique code"
  const ServerError: string := "Server error"
  const MissingJoinInput: string := "Missing userId or code"
  const CommunityNotFound: string := "Community not found"
  const AlreadyMember: string := "Already a member"
  const MissingPostInput: string := "Missing senderId or text"
  const NotAMember: string := "You are not a member of this community"

  /** Create gives up once `tries` exceeds this many collisions. */
  const MaxRetries: nat := 10
  /** Codes drawn before create gives up: the first one and ten retries. */
  const Attempts: nat := MaxRetries + 1
  /** Draws of the random source that create may consume. */
  const DrawsNeeded: nat := 66

  // ---------------------------------------------------------------------------------------------
  // Lookups

  /** `Community.findById(id)`: the position of the community with that id, if any. */
  function FindById(cs: seq<Community>, id: CommunityId): (r: Option<nat>)
    ensures r.Some? ==> r.value < |cs| && cs[r.value].id == id
    ensures r.None? <==> forall k :: 0 <= k < |cs| ==> cs[k].id != id
  {
    if cs == [] then None
    else if cs[0].id == id then Some(0)
    else match FindById(cs[1..], id)
      case None => None
      case Some(k) => Some(k + 1)
  }

  /** Some community holds `code`. */
  predicate CodeTaken(cs: seq<Community>, code: string) {
    exists k :: 0 <= k < |cs| && cs[k].code == code
  }

  /** `Community.findOne({ code })`: the position of the first community with that code, if any. */
  function FindByCode(cs: seq<Community>, code: string): (r: Option<nat>)
    ensures r.Some? ==> r.value < |cs| && cs[r.value].code == code
    ensures r.None? <==> !CodeTaken(cs, code)
  {
    if cs == [] then None
    else if cs[0].code == code then Some(0)
    else match FindByCode(cs[1..], code)
      case None =>
        assert forall k :: 1 <= k < |cs| ==> cs[k] == cs[1..][k - 1];
        None
      case Some(k) => Some(k + 1)
  }

  /** `members.some(m => m.toString() === u)`. */
  predicate IsMember(c: Community, u: UserId) {
    u in c.members
  }

  /** Two collections that agree on every id and every code at every position. */
  predicate SameKeys(cs: seq<Community>, cs': seq<Community>) {
    |cs| == |cs'| && forall k :: 0 <= k < |cs| ==> cs[k].id == cs'[k].id && cs[k].code == cs'[k].code
  }

  /** Lookups by id and by code only look at ids and codes. */
  lemma {:induction false} LookupsOnlySeeKeys(cs: seq<Community>, cs': seq<Community>, id: CommunityId, code: string)
    requires SameKeys(cs, cs')
    ensures FindById(cs', id) == FindById(cs, id)
    ensures FindByCode(cs', code) == FindByCode(cs, code)
  {
    if cs != [] {
      LookupsOnlySeeKeys(cs[1..], cs'[1..], id, code);
    }
  }

  // ---------------------------------------------------------------------------------------------
  // The invariant of the collection

  predicate NoDuplicates(s: seq<UserId>) {
    forall i, j :: 0 <= i < j < |s| ==> s[i] != s[j]
  }

  /** What holds of every stored community when no timestamp later than `clock` has been handed
      out: the schema's constraints, a six-character code from the alphabet, the creator among
      the members, no member twice, every sender a member, and a log in time order. */
  predicate CommunityInvariant(c: Community, clock: int) {
    && CommunityValid(c)
    && IsCodeOfLength(c.code, DefaultLength)
    && IsMember(c, c.creator)
    && NoDuplicates(c.members)
    && (forall k :: 0 <= k < |c.messages| ==> IsMember(c, c.messages[k].sender))
    && c.createdAt <= clock
    && (forall k :: 0 <= k < |c.messages| ==> c.messages[k].createdAt <= clock)
    && (forall k, l :: 0 <= k < l < |c.messages| ==> c.messages[k].createdAt <= c.messages[l].createdAt)
  }

  /** Every community keeps its invariant, and no two share an id or a join code. */
  predicate StoreInvariant(cs: seq<Community>, clock: int) {
    && (forall i :: 0 <= i < |cs| ==> CommunityInvariant(cs[i], clock))
    && (forall i, j :: 0 <= i < j < |cs| ==> cs[i].id != cs[j].id && cs[i].code != cs[j].code)
  }

  /** Replacing one community by another with the same id and code that keeps its own
      invariant keeps the collection's invariant. */
  lemma UpdatePreservesStore(cs: seq<Community>, clock: int, i: nat, c: Community)
    requires StoreInvariant(cs, clock) && i < |cs|
    requires CommunityInvariant(c, clock) && c.id == cs[i].id && c.code == cs[i].code
    ensures StoreInvariant(cs[i := c], clock)
  {
    var r := cs[i := c];
    forall k | 0 <= k < |r|
      ensures CommunityInvariant(r[k], clock)
    {
      if k != i { assert r[k] == cs[k]; }
    }
    forall k, l | 0 <= k < l < |r|
      ensures r[k].id != r[l].id && r[k].code != r[l].code
    {
      assert cs[k].id != cs[l].id && cs[k].code != cs[l].code;
    }
  }

  /** Appending a community that keeps its own invariant, with an id and a code no community
      has, keeps the collection's invariant. */
  lemma AppendPreservesStore(cs: seq<Community>, clock: int, c: Community)
    requires StoreInvariant(cs, clock) && CommunityInvariant(c, clock)
    requires !CodeTaken(cs, c.code) && forall k :: 0 <= k < |cs| ==> cs[k].id != c.id
    ensures StoreInvariant(cs + [c], clock)
  {
    var r := cs + [c];
    forall k | 0 <= k < |r|
      ensures CommunityInvariant(r[k], clock)
    {
      if k < |cs| { assert r[k] == cs[k]; }
    }
    forall k, l | 0 <= k < l < |r|
      ensures r[k].id != r[l].id && r[k].code != r[l].code
    {
      assert r[k] == cs[k];
      if l < |cs| {
        assert r[l] == cs[l];
      } else {
        assert r[l] == c && cs[k].code != c.code;
      }
    }
  }

  /** Adding a user who is not yet a member keeps a community's invariant. */
  lemma AddMemberKeepsInvariant(c: Community, clock: int, u: UserId)
    requires CommunityInvariant(c, clock) && !IsMember(c, u)
    ensures CommunityInvariant(c.(members := c.members + [u]), clock)
  {
    var c' := c.(members := c.members + [u]);
    assert forall k :: 0 <= k < |c.messages| ==> IsMember(c', c.messages[k].sender);
  }

  /** Appending a valid message from a member, stamped with the latest time, keeps a community's
      invariant. */
  lemma AppendMessageKeepsInvariant(c: Community, clock: int, m: Message)
    requires CommunityInvariant(c, clock)
    requires MessageValid(m) && IsMember(c, m.sender) && m.createdAt == clock
    ensures CommunityInvariant(c.(messages := c.messages + [m]), clock)
  {
    var c' := c.(messages := c.messages + [m]);
    var n := |c.messages|;
    assert forall k :: 0 <= k < n ==> c'.messages[k] == c.messages[k];
    assert c'.messages[n] == m;
    assert CommunityValid(c') by {
      forall k | 0 <= k < |c'.messages|
        ensures MessageValid(c'.messages[k])
      {
        if k < n { assert MessageValid(c.messages[k]); }
      }
    }
    forall k, l | 0 <= k < l < |c'.messages|
      ensures c'.messages[k].createdAt <= c'.messages[l].createdAt
    {
      if l < n {
        assert c.messages[k].createdAt <= c.messages[l].createdAt;
      } else {
        assert c.messages[k].createdAt <= clock;
      }
    }
    forall k | 0 <= k < |c'.messages|
      ensures IsMember(c', c'.messages[k].sender) && c'.messages[k].createdAt <= clock
    {
      if k < n {
        assert IsMember(c, c.messages[k].sender) && c.messages[k].createdAt <= clock;
      }
    }
  }

  /** A later clock keeps the invariant. */
  lemma InvariantLaterClock(cs: seq<Community>, clock: int, later: int)
    requires StoreInvariant(cs, clock) && clock <= later
    ensures StoreInvariant(cs, later)
  {
    forall i | 0 <= i < |cs|
      ensures CommunityInvariant(cs[i], later)
    {
      assert CommunityInvariant(cs[i], clock);
    }
  }

  // ---------------------------------------------------------------------------------------------
  // POST / : create

  /** The code drawn on attempt `k`, counting from 0: `generateCode()` on six fresh draws. */
  function AttemptCode(draws: seq<Draw>, k: nat): (code: string)
    requires k < Attempts && |draws| >= DrawsNeeded
  {
    CodeOf(draws[6 * k..6 * k + 6])
  }

  /** Attempt `k`'s code is already held by some community. */
  predicate AttemptTaken(cs: seq<Community>, draws: seq<Draw>, k: nat)
    requires k < Attempts && |draws| >= DrawsNeeded
  {
    CodeTaken(cs, AttemptCode(draws, k))
  }

  /** The first attempt from `k` on whose code no community holds, if one comes before the
      retry budget runs out. */
  function FirstFreeAttempt(cs: seq<Community>, draws: seq<Draw>, k: nat): (r: Option<nat>)
    requires k <= Attempts && |draws| >= DrawsNeeded
    ensures r.Some? ==> && k <= r.value < Attempts
                        && !AttemptTaken(cs, draws, r.value)
                        && forall j :: k <= j < r.value ==> AttemptTaken(cs, draws, j)
    ensures r.None? <==> forall j :: k <= j < Attempts ==> AttemptTaken(cs, draws, j)
    decreases Attempts - k
  {
    if k == Attempts then None
    else if !AttemptTaken(cs, draws, k) then Some(k)
    else FirstFreeAttempt(cs, draws, k + 1)
  }

  /** An attempt whose code is free after a run of taken ones is the first free attempt. */
  lemma FirstFreeAttemptIs(cs: seq<Community>, draws: seq<Draw>, k: nat)
    requires k < Attempts && |draws| >= DrawsNeeded
    requires forall j :: 0 <= j < k ==> AttemptTaken(cs, draws, j)
    requires !AttemptTaken(cs, draws, k)
    ensures FirstFreeAttempt(cs, draws, 0) == Some(k)
  {
  }

  /** The retry loop of POST /: draws a code per attempt until one is free, giving up after
      the first try and `MaxRetries` retries. */
  method PickCode(cs: seq<Community>, draws: seq<Draw>) returns (code: Option<string>)
    requires |draws| >= DrawsNeeded
    ensures code.None? <==> forall k :: 0 <= k < Attempts ==> AttemptTaken(cs, draws, k)
    ensures code.Some? ==> && FirstFreeAttempt(cs, draws, 0).Some?
                           && code.value == AttemptCode(draws, FirstFreeAttempt(cs, draws, 0).value)
                           && !CodeTaken(cs, code.value)
  {
    var tries := 0;
    while true
      invariant 0 <= tries <= MaxRetries
      invariant forall j :: 0 <= j < tries ==> AttemptTaken(cs, draws, j)
      decreases Attempts - tries
    {
      var attempt := draws[6 * tries..6 * tries + 6];
      var c := GenerateCode(attempt, DefaultLength);
      assert attempt[..DefaultLength] == attempt;
      var holder := FindByCode(cs, c);
      if holder.None? {
        FirstFreeAttemptIs(cs, draws, tries);
        return Some(c);
      }
      assert AttemptTaken(cs, draws, tries);
      forall j | 0 <= j < tries + 1
        ensures AttemptTaken(cs, draws, j)
      {
        if j < tries {
          assert AttemptTaken(cs, draws, j);
        }
      }
      tries := tries + 1;
      if tries > MaxRetries {
        return None;
      }
    }
  }

  /** POST /: checks run in order (missing name or creator 400, unknown creator 404, eleven
      colliding codes 500, a name the schema refuses 500), every failure leaves the collection
      as it was, and a request that passes every check succeeds: it appends one community whose
      code is the first free attempt's, with the trimmed name and description, the creator as its
      only member and an empty log. */
  function CreateStep(cs: seq<Community>, users: seq<User>, name: Option<string>,
                      description: Option<string>, creatorId: Option<UserId>,
                      draws: seq<Draw>, newId: CommunityId, now: int): (s: Step<Community>)
    requires |draws| >= DrawsNeeded
    ensures s.reply.Failure? ==> s.after == cs
    ensures s.reply.Success? ==> s.after == cs + [s.reply.body]
    ensures !Truthy(name) || !Truthy(creatorId) ==> s.reply == Failure(400, MissingCreateInput)
    ensures Truthy(name) && Truthy(creatorId) && !HasUser(users, creatorId.value)
            ==> s.reply == Failure(404, CreatorNotFound)
    ensures Truthy(name) && Truthy(creatorId) && HasUser(users, creatorId.value)
            ==> (s.reply == Failure(500, NoUniqueCode)
                 <==> forall k :: 0 <= k < Attempts ==> AttemptTaken(cs, draws, k))
    ensures s.reply == Failure(500, ServerError)
            <==> && Truthy(name) && Truthy(creatorId) && HasUser(users, creatorId.value)
                 && FirstFreeAttempt(cs, draws, 0).Some?
                 && (AllWhitespace(name.value) || |Trim(name.value)| > MaxNameLength)
    ensures && Truthy(name) && Truthy(creatorId) && HasUser(users, creatorId.value)
            && FirstFreeAttempt(cs, draws, 0).Some?
            && !AllWhitespace(name.value) && |Trim(name.value)| <= MaxNameLength
            ==> s.reply.Success?
    ensures s.reply.Success? ==>
              var c := s.reply.body;
              && s.reply.status == 200
              && FirstFreeAttempt(cs, draws, 0).Some?
              && c.code == AttemptCode(draws, FirstFreeAttempt(cs, draws, 0).value)
              && !CodeTaken(cs, c.code) && IsCodeOfLength(c.code, DefaultLength)
              && c.id == newId && c.name == Trim(name.value)
              && c.description == (if description.Some? then Trim(description.value) else "")
              && c.creator == creatorId.value && c.members == [creatorId.value]
              && c.messages == [] && c.createdAt == now
  {
    if !Truthy(name) || !Truthy(creatorId) then Step(Failure(400, MissingCreateInput), cs)
    else if !HasUser(users, creatorId.value) then Step(Failure(404, CreatorNotFound), cs)
    else match FirstFreeAttempt(cs, draws, 0)
      case None => Step(Failure(500, NoUniqueCode), cs)
      case Some(k) =>
        var u := creatorId.value;
        match NewCommunity(newId, name.value, description, AttemptCode(draws, k), u, [u], now)
        case None => Step(Failure(500, ServerError), cs)
        case Some(c) => Step(Success(200, c), cs + [c])
  }

  /** Create keeps the collection's invariant, given an id no community has yet and a clock that
      has not gone back. */
  lemma CreatePreservesInvariant(cs: seq<Community>, clock: int, users: seq<User>, name: Option<string>,
                                 description: Option<string>, creatorId: Option<UserId>,
                                 draws: seq<Draw>, newId: CommunityId, now: int)
    requires StoreInvariant(cs, clock) && clock <= now
    requires |draws| >= DrawsNeeded
    requires forall k :: 0 <= k < |cs| ==> cs[k].id != newId
    ensures StoreInvariant(CreateStep(cs, users, name, description, creatorId, draws, newId, now).after, now)
  {
    InvariantLaterClock(cs, clock, now);
    var s := CreateStep(cs, users, name, description, creatorId, draws, newId, now);
    if s.reply.Success? {
      var c := s.reply.body;
      assert CommunityInvariant(c, now);
      AppendPreservesStore(cs, now, c);
    }
  }

  // ---------------------------------------------------------------------------------------------
  // POST /join

  /** POST /join: missing input 400, unknown code 404, and a held code always succeeds: a user
      already in the community gets a success marked "Already a member" and nothing changes;
      anyone else is appended once to that community's members and every other community stays
      as it was. */
  function JoinStep(cs: seq<Community>, userId: Option<UserId>, code: Option<string>): (s: Step<Joined>)
    ensures |s.after| == |cs|
    ensures s.reply.Failure? ==> s.after == cs
    ensures !Truthy(userId) || !Truthy(code) ==> s.reply == Failure(400, MissingJoinInput)
    ensures Truthy(userId) && Truthy(code)
            ==> (s.reply == Failure(404, CommunityNotFound) <==> !CodeTaken(cs, code.value))
    ensures Truthy(userId) && Truthy(code) && CodeTaken(cs, code.value) ==> s.reply.Success?
    ensures s.reply.Success? ==>
              && Truthy(userId) && Truthy(code) && FindByCode(cs, code.value).Some?
              && var i := FindByCode(cs, code.value).value;
              && var u := userId.value;
              && s.reply.status == 200
              && s.reply.body.community == s.after[i]
              && IsMember(s.after[i], u)
              && (s.reply.body.note == Some(AlreadyMember) <==> IsMember(cs[i], u))
              && (!IsMember(cs[i], u) ==> s.reply.body.note == None)
              && (IsMember(cs[i], u) ==> s.after == cs)
              && (!IsMember(cs[i], u) ==> s.after == cs[i := cs[i].(members := cs[i].members + [u])])
  {
    if !Truthy(userId) || !Truthy(code) then Step(Failure(400, MissingJoinInput), cs)
    else match FindByCode(cs, code.value)
      case None => Step(Failure(404, CommunityNotFound), cs)
      case Some(i) =>
        var u := userId.value;
        if IsMember(cs[i], u) then Step(Success(200, Joined(cs[i], Some(AlreadyMember))), cs)
        else
          var c := cs[i].(members := cs[i].members + [u]);
          Step(Success(200, Joined(c, None)), cs[i := c])
  }

  /** Joining twice is joining once: the second join succeeds as "Already a member" and changes
      nothing, so the member list keeps its length. */
  lemma {:induction false} JoinIdempotent(cs: seq<Community>, userId: Option<UserId>, code: Option<string>)
    ensures var s1 := JoinStep(cs, userId, code);
            var s2 := JoinStep(s1.after, userId, code);
            s1.reply.Success? ==>
              && s2.reply.Success? && s2.reply.body.note == Some(AlreadyMember)
              && s2.after == s1.after
              && |s2.reply.body.community.members| == |s1.reply.body.community.members|
  {
    var s1 := JoinStep(cs, userId, code);
    if s1.reply.Success? {
      assert SameKeys(cs, s1.after);
      LookupsOnlySeeKeys(cs, s1.after, "", code.value);
    }
  }

  /** Join keeps the collection's invariant; in particular a member list without duplicates
      stays without duplicates. */
  lemma JoinPreservesInvariant(cs: seq<Community>, clock: int, userId: Option<UserId>, code: Option<string>)
    requires StoreInvariant(cs, clock)
    ensures StoreInvariant(JoinStep(cs, userId, code).after, clock)
  {
    var s := JoinStep(cs, userId, code);
    if s.reply.Success? {
      var i := FindByCode(cs, code.value).value;
      if !IsMember(cs[i], userId.value) {
        AddMemberKeepsInvariant(cs[i], clock, userId.value);
        UpdatePreservesStore(cs, clock, i, s.after[i]);
      }
    }
  }

  // ---------------------------------------------------------------------------------------------
  // GET /:id and GET /:id/messages

  /** GET /:id: the community with that id, or 404. */
  function CommunityById(cs: seq<Community>, id: CommunityId): (r: Response<Community>)
    ensures r.Success? <==> exists k :: 0 <= k < |cs| && cs[k].id == id
    ensures r.Failure? ==> r == Failure(404, CommunityNotFound)
    ensures r.Success? ==> r.status == 200 && r.body.id == id && r.body in cs
  {
    match FindById(cs, id)
    case None => Failure(404, CommunityNotFound)
    case Some(i) => Success(200, cs[i])
  }

  /** GET /:id/messages: the whole stored log of that community, in stored order, or 404. */
  function MessagesOf(cs: seq<Community>, id: CommunityId): (r: Response<seq<Message>>)
    ensures r.Success? <==> exists k :: 0 <= k < |cs| && cs[k].id == id
    ensures r.Failure? ==> r == Failure(404, CommunityNotFound)
    ensures r.Success? ==> r.status == 200 && r.body == cs[FindById(cs, id).value].messages
  {
    match FindById(cs, id)
    case None => Failure(404, CommunityNotFound)
    case Some(i) => Success(200, cs[i].messages)
  }

  // ---------------------------------------------------------------------------------------------
  // POST /:id/messages

  /** The `senderName || ''` of the handler. */
  function DisplayName(senderName: Option<string>): string {
    if Truthy(senderName) then senderName.value else ""
  }

  /** POST /:id/messages: missing sender or text 400, unknown community 404, a sender who is not a
      member 403, a blank text the schema refuses 500; every failure leaves the collection as it
      was. A success appends exactly one message to that community's log, keeps the earlier
      messages and every other community, and replies with that appended last message. */
  function PostStep(cs: seq<Community>, id: CommunityId, senderId: Option<UserId>, text: Option<string>,
                    senderName: Option<string>, now: int): (s: Step<Message>)
    ensures s.reply.Failure? ==> s.after == cs
    ensures !Truthy(senderId) || !Truthy(text) ==> s.reply == Failure(400, MissingPostInput)
    ensures Truthy(senderId) && Truthy(text) && FindById(cs, id).None?
            ==> s.reply == Failure(404, CommunityNotFound)
    ensures Truthy(senderId) && Truthy(text) && FindById(cs, id).Some?
            && !IsMember(cs[FindById(cs, id).value], senderId.value)
            ==> s.reply == Failure(403, NotAMember)
    ensures Truthy(senderId) && Truthy(text) && FindById(cs, id).Some?
            && IsMember(cs[FindById(cs, id).value], senderId.value)
            ==> (s.reply.Failure? <==> AllWhitespace(text.value))
                && (s.reply.Failure? ==> s.reply == Failure(500, ServerError))
    ensures s.reply.Success? ==>
              && FindById(cs, id).Some?
              && var i := FindById(cs, id).value;
              && var m := s.reply.body;
              && s.reply.status == 200
              && s.after == cs[i := cs[i].(messages := cs[i].messages + [m])]
              && m == s.after[i].messages[|s.after[i].messages| - 1]
              && m == Message(senderId.value, DisplayName(senderName), Trim(text.value), now)
  {
    if !Truthy(senderId) || !Truthy(text) then Step(Failure(400, MissingPostInput), cs)
    else match FindById(cs, id)
      case None => Step(Failure(404, CommunityNotFound), cs)
      case Some(i) =>
        if !IsMember(cs[i], senderId.value) then Step(Failure(403, NotAMember), cs)
        else match NewMessage(senderId.value, DisplayName(senderName), text.value, now)
          case None => Step(Failure(500, ServerError), cs)
          case Some(m) => Step(Success(200, m), cs[i := cs[i].(messages := cs[i].messages + [m])])
  }

  /** Posting keeps the collection's invariant, given a clock that has not gone back. */
  lemma PostPreservesInvariant(cs: seq<Community>, clock: int, id: CommunityId, senderId: Option<UserId>,
                               text: Option<string>, senderName: Option<string>, now: int)
    requires StoreInvariant(cs, clock) && clock <= now
    ensures StoreInvariant(PostStep(cs, id, senderId, text, senderName, now).after, now)
  {
    InvariantLaterClock(cs, clock, now);
    var s := PostStep(cs, id, senderId, text, senderName, now);
    if s.reply.Success? {
      var i := FindById(cs, id).value;
      AppendMessageKeepsInvariant(cs[i], now, s.reply.body);
      UpdatePreservesStore(cs, now, i, s.after[i]);
    }
  }

  /** Posting `texts` one after the other, at times `times`, from the same sender. */
  function PostAll(cs: seq<Community>, id: CommunityId, sender: UserId, senderName: Option<string>,
                   texts: seq<string>, times: seq<int>): seq<Community>
    requires |times| == |texts|
    decreases |texts|
  {
    if texts == [] then cs
    else PostAll(PostStep(cs, id, Some(sender), Some(texts[0]), senderName, times[0]).after,
                 id, sender, senderName, texts[1..], times[1..])
  }

  /** The messages posting `texts` at `times` adds, in posting order. */
  function Posted(sender: UserId, senderName: Option<string>, texts: seq<string>, times: seq<int>): (ms: seq<Message>)
    requires |times| == |texts|
    ensures |ms| == |texts|
  {
    seq(|texts|, k requires 0 <= k < |texts| => Message(sender, DisplayName(senderName), Trim(texts[k]), times[k]))
  }

  /** One post by a member of a non-blank text appends exactly that message to the log and
      leaves every id and code where it was. */
  lemma PostOneAppends(cs: seq<Community>, id: CommunityId, sender: UserId, senderName: Option<string>,
                       text: string, now: int)
    requires FindById(cs, id).Some? && IsMember(cs[FindById(cs, id).value], sender) && sender != ""
    requires !AllWhitespace(text)
    ensures var after := PostStep(cs, id, Some(sender), Some(text), senderName, now).after;
            && SameKeys(cs, after)
            && FindById(after, id) == FindById(cs, id)
            && IsMember(after[FindById(cs, id).value], sender)
            && MessagesOf(after, id).body
               == MessagesOf(cs, id).body + [Message(sender, DisplayName(senderName), Trim(text), now)]
  {
    assert text != "";
    var s := PostStep(cs, id, Some(sender), Some(text), senderName, now);
    assert s.reply.Success?;
    assert SameKeys(cs, s.after);
    LookupsOnlySeeKeys(cs, s.after, id, "");
  }

  /** A member posting N non-blank texts in sequence finds N more messages in the log, in the
      order they were posted, after the ones that were there. */
  lemma {:induction false} PostAllAppends(cs: seq<Community>, id: CommunityId, sender: UserId,
                                          senderName: Option<string>, texts: seq<string>, times: seq<int>)
    requires |times| == |texts|
    requires FindById(cs, id).Some? && IsMember(cs[FindById(cs, id).value], sender) && sender != ""
    requires forall k :: 0 <= k < |texts| ==> !AllWhitespace(texts[k])
    decreases |texts|
    ensures MessagesOf(PostAll(cs, id, sender, senderName, texts, times), id)
            == Success(200, MessagesOf(cs, id).body + Posted(sender, senderName, texts, times))
  {
    if texts == [] {
      assert Posted(sender, senderName, texts, times) == [];
      assert PostAll(cs, id, sender, senderName, texts, times) == cs;
      assert MessagesOf(cs, id).body + [] == MessagesOf(cs, id).body;
    } else {
      var after := PostStep(cs, id, Some(sender), Some(texts[0]), senderName, times[0]).after;
      PostOneAppends(cs, id, sender, senderName, texts[0], times[0]);
      var m := Message(sender, DisplayName(senderName), Trim(texts[0]), times[0]);
      assert forall k :: 0 <= k < |texts[1..]| ==> !AllWhitespace(texts[1..][k]) by {
        forall k | 0 <= k < |texts[1..]|
          ensures !AllWhitespace(texts[1..][k])
        {
          assert texts[1..][k] == texts[k + 1];
        }
      }
      PostAllAppends(after, id, sender, senderName, texts[1..], times[1..]);
      PostedCons(sender, senderName, texts, times);
      var before, rest := MessagesOf(cs, id).body, Posted(sender, senderName, texts[1..], times[1..]);
      AppendAssociates(before, [m], rest);
      assert PostAll(cs, id, sender, senderName, texts, times)
             == PostAll(after, id, sender, senderName, texts[1..], times[1..]);
    }
  }

  lemma AppendAssociates<T>(a: seq<T>, b: seq<T>, c: seq<T>)
    ensures (a + b) + c == a + (b + c)
  {
  }

  lemma PostedCons(sender: UserId, senderName: Option<string>, texts: seq<string>, times: seq<int>)
    requires |times| == |texts| > 0
    ensures Posted(sender, senderName, texts, times)
            == [Message(sender, DisplayName(senderName), Trim(texts[0]), times[0])]
               + Posted(sender, senderName, texts[1..], times[1..])
  {
  }

  // ---------------------------------------------------------------------------------------------
  // GET / : list

  predicate NewestFirst(cs: seq<Community>) {
    forall i, j :: 0 <= i < j < |cs| ==> cs[i].createdAt >= cs[j].createdAt
  }

  /** A community at least as new as every community of a newest-first sequence can go in front. */
  lemma ConsNewestFirst(h: Community, rest: seq<Community>)
    requires NewestFirst(rest)
    requires forall x :: x in rest ==> x.createdAt <= h.createdAt
    ensures NewestFirst([h] + rest)
  {
    forall i, j | 0 <= i < j < |[h] + rest|
      ensures ([h] + rest)[i].createdAt >= ([h] + rest)[j].createdAt
    {
      if i > 0 {
        assert ([h] + rest)[i] == rest[i - 1];
      }
      assert ([h] + rest)[j] == rest[j - 1];
    }
  }

  /** Puts `c` into a newest-first sequence, after every community at least as new. */
  function InsertByDate(c: Community, sorted: seq<Community>): (r: seq<Community>)
    ensures |r| == |sorted| + 1
  {
    if sorted == [] then [c]
    else if sorted[0].createdAt >= c.createdAt then [sorted[0]] + InsertByDate(c, sorted[1..])
    else [c] + sorted
  }

  /** Inserting adds exactly `c` and loses nothing. */
  lemma {:induction false} InsertByDatePermutes(c: Community, sorted: seq<Community>)
    ensures multiset(InsertByDate(c, sorted)) == multiset(sorted) + multiset{c}
  {
    if sorted != [] && sorted[0].createdAt >= c.createdAt {
      InsertByDatePermutes(c, sorted[1..]);
      assert sorted == [sorted[0]] + sorted[1..];
    }
  }

  /** Inserting into a newest-first sequence gives a newest-first sequence. */
  lemma {:induction false} InsertByDateSorted(c: Community, sorted: seq<Community>)
    requires NewestFirst(sorted)
    ensures NewestFirst(InsertByDate(c, sorted))
  {
    if sorted == [] {
    } else if sorted[0].createdAt >= c.createdAt {
      var h, tail := sorted[0], sorted[1..];
      var rest := InsertByDate(c, tail);
      InsertByDateSorted(c, tail);
      InsertByDatePermutes(c, tail);
      forall x | x in rest
        ensures x.createdAt <= h.createdAt
      {
        assert x in multiset(rest);
        if x != c {
          assert x in multiset(tail);
          var j :| 0 <= j < |tail| && tail[j] == x;
          assert sorted[j + 1] == x;
        }
      }
      ConsNewestFirst(h, rest);
    } else {
      ConsNewestFirst(c, sorted);
    }
  }

  /** `sort({ createdAt: -1 })`: the same communities, newest first. */
  function SortNewestFirst(cs: seq<Community>): (r: seq<Community>)
    ensures NewestFirst(r)
    ensures multiset(r) == multiset(cs)
  {
    if cs == [] then []
    else
      var rest := SortNewestFirst(cs[1..]);
      InsertByDateSorted(cs[0], rest);
      InsertByDatePermutes(cs[0], rest);
      assert cs == [cs[0]] + cs[1..];
      InsertByDate(cs[0], rest)
  }

  /** `find({ members: u })`: the communities that have `u` among their members, in stored order. */
  function MemberOf(cs: seq<Community>, u: UserId): (r: seq<Community>)
    ensures forall c :: multiset(r)[c] == if IsMember(c, u) then multiset(cs)[c] else 0
  {
    if cs == [] then []
    else
      assert cs == [cs[0]] + cs[1..];
      (if IsMember(cs[0], u) then [cs[0]] else []) + MemberOf(cs[1..], u)
  }

  /** GET /: with a `userId`, exactly the communities that have that user as a member; without
      one, every community; either way newest first. */
  function Listed(cs: seq<Community>, userId: Option<UserId>): (r: seq<Community>)
    ensures NewestFirst(r)
    ensures Truthy(userId) ==> forall c :: multiset(r)[c] == if IsMember(c, userId.value) then multiset(cs)[c] else 0
    ensures !Truthy(userId) ==> multiset(r) == multiset(cs)
  {
    if Truthy(userId) then SortNewestFirst(MemberOf(cs, userId.value)) else SortNewestFirst(cs)
  }

  function Summarize(c: Community): Summary {
    Summary(c.id, c.name, c.description, c.code, c.creator, c.members, c.createdAt)
  }

  // ---------------------------------------------------------------------------------------------
  // The store

  /** The Community collection behind the router. `clock` is the latest timestamp handed out;
      the clock the handlers read is injected as a `now` argument that never goes back. */
  class Store {
    var communities: seq<Community>
    ghost var clock: int

    ghost predicate Valid()
      reads this
    {
      StoreInvariant(communities, clock)
    }

    constructor ()
      ensures Valid() && communities == [] && clock == 0
    {
      communities := [];
      clock := 0;
    }

    /** POST /. `users` is the User collection; `draws` is what `Math.random` yields. */
    method Create(name: Option<string>, description: Option<string>, creatorId: Option<UserId>,
                  users: seq<User>, draws: seq<Draw>, newId: CommunityId, now: int)
      returns (reply: Response<Community>)
      requires Valid() && clock <= now
      requires |draws| >= DrawsNeeded
      requires forall k :: 0 <= k < |communities| ==> communities[k].id != newId
      modifies this
      ensures Valid() && clock == now
      ensures reply == CreateStep(old(communities), users, name, description, creatorId, draws, newId, now).reply
      ensures communities == CreateStep(old(communities), users, name, description, creatorId, draws, newId, now).after
    {
      CreatePreservesInvariant(communities, clock, users, name, description, creatorId, draws, newId, now);
      clock := now;
      if !Truthy(name) || !Truthy(creatorId) {
        return Failure(400, MissingCreateInput);
      }
      if !HasUser(users, creatorId.value) {
        return Failure(404, CreatorNotFound);
      }
      var code := PickCode(communities, draws);
      if code.None? {
        return Failure(500, NoUniqueCode);
      }
      var u := creatorId.value;
      var created := NewCommunity(newId, name.value, description, code.value, u, [u], now);
      if created.None? {
        return Failure(500, ServerError);
      }
      communities := communities + [created.value];
      reply := Success(200, created.value);
    }

    /** POST /join. */
    method Join(userId: Option<UserId>, code: Option<string>) returns (reply: Response<Joined>)
      requires Valid()
      modifies this
      ensures Valid() && clock == old(clock)
      ensures reply == JoinStep(old(communities), userId, code).reply
      ensures communities == JoinStep(old(communities), userId, code).after
    {
      JoinPreservesInvariant(communities, clock, userId, code);
      if !Truthy(userId) || !Truthy(code) {
        return Failure(400, MissingJoinInput);
      }
      var found := FindByCode(communities, code.value);
      if found.None? {
        return Failure(404, CommunityNotFound);
      }
      var i := found.value;
      var community := communities[i];
      if IsMember(community, userId.value) {
        return Success(200, Joined(community, Some(AlreadyMember)));
      }
      community := community.(members := community.members + [userId.value]);
      communities := communities[i := community];
      reply := Success(200, Joined(community, None));
    }

    /** GET /. */
    method List(userId: Option<UserId>) returns (r: seq<Summary>)
      ensures |r| == |Listed(communities, userId)|
      ensures forall k :: 0 <= k < |r| ==> r[k] == Summarize(Listed(communities, userId)[k])
    {
      var listed := Listed(communities, userId);
      r := seq(|listed|, k requires 0 <= k < |listed| => Summarize(listed[k]));
    }

    /** GET /:id. */
    method Get(id: CommunityId) returns (reply: Response<Community>)
      ensures reply == CommunityById(communities, id)
    {
      reply := CommunityById(communities, id);
    }

    /** GET /:id/messages. */
    method GetMessages(id: CommunityId) returns (reply: Response<seq<Message>>)
      ensures reply == MessagesOf(communities, id)
    {
      reply := MessagesOf(communities, id);
    }

    /** POST /:id/messages. */
    method PostMessage(id: CommunityId, senderId: Option<UserId>, text: Option<string>,
                       senderName: Option<string>, now: int) returns (reply: Response<Message>)
      requires Valid() && clock <= now
      modifies this
      ensures Valid() && clock == now
      ensures reply == PostStep(old(communities), id, senderId, text, senderName, now).reply
      ensures communities == PostStep(old(communities), id, senderId, text, senderName, now).after
    {
      PostPreservesInvariant(communities, clock, id, senderId, text, senderName, now);
      clock := now;
      if !Truthy(senderId) || !Truthy(text) {
        return Failure(400, MissingPostInput);
      }
      var found := FindById(communities, id);
      if found.None? {
        return Failure(404, CommunityNotFound);
      }
      var i := found.value;
      var community := communities[i];
      if !IsMember(community, senderId.value) {
        return Failure(403, NotAMember);
      }
      var message := NewMessage(senderId.value, DisplayName(senderName), text.value, now);
      if message.None? {
        return Failure(500, ServerError);
      }
      community := community.(messages := community.messages + [message.value]);
      communities := communities[i := community];
      reply := Success(200, community.messages[|community.messages| - 1]);
    }
  }
}
