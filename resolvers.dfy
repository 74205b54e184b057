/**
 * The GraphQL mutations and the `myGroups` query of graphql/resolvers.js.
 * Each resolver is an ordered chain of early-throw checks (a pure function
 * here, over the facts the checks read), followed by writes to the stores:
 * the user collection, the balance table, the graph of user nodes and
 * connections, the group collection, and the group membership and invite
 * relations kept by the graph helpers that are called but not shown.
 */
module Resolvers {
  import opened Wrappers
  import opened UserModel
  import opened GroupModel
  import opened ConnectionGraph

  /** Every error a resolver in this model throws, one per message. */
  datatype ApiError =
    | NotAuthenticated
    | UsernameClash | ContactClash | UsernameTaken | EmailTaken | MobileTaken
    | UserInvalid(userFields: set<UserField>)
    | GroupInvalid(groupFields: set<GroupField>)
    | TargetNotFound | SelfConnection | NoPendingRequest | NoConnection
    | ConnectionFailed(cause: GraphError)
    | DeleteRequestUndefined
    | NotOwnerInvite | GroupNotFound | InviteToStarted | AlreadyMember | InvitePending
    | JoinStarted
    | NotOwnerStart | AlreadyStarted | InsufficientParticipants
    | NotOwnerRecord | NotStarted
    | NotMember | OwnerCannotLeave | LeaveStarted
    | NotAuthorized

  /** The message each error carries to the client. */
  function Message(e: ApiError): string
  {
    match e
    case NotAuthenticated => "Not authenticated"
    case UsernameClash => "Username cannot be the same as another user's email or mobile number"
    case ContactClash => "Email or mobile number cannot be the same as another user's username"
    case UsernameTaken => "Username already taken"
    case EmailTaken => "Email already registered"
    case MobileTaken => "Mobile number already registered"
    case UserInvalid(_) => "User validation failed"
    case GroupInvalid(_) => "Group validation failed"
    case TargetNotFound => "Target user not found"
    case SelfConnection => "Cannot connect with yourself"
    case NoPendingRequest => "No pending request from this user"
    case NoConnection => "No connection exists with this user"
    case ConnectionFailed(UserMissing) => "Cannot read properties of undefined (reading 'get')"
    case ConnectionFailed(EdgeExists) => "Connection or request already exists"
    case DeleteRequestUndefined => "deleteConnectionRequest is not defined"
    case NotOwnerInvite => "Only group owner can invite participants"
    case GroupNotFound => "Group not found"
    case InviteToStarted => "Cannot invite to a started group"
    case AlreadyMember => "User is already a participant in this group"
    case InvitePending => "User already has a pending invitation to this group"
    case JoinStarted => "Cannot join a started group"
    case NotOwnerStart => "Only group owner can start the group"
    case AlreadyStarted => "Group is already started"
    case InsufficientParticipants => "Cannot start group: insufficient participants"
    case NotOwnerRecord => "Only group owner can record winners"
    case NotStarted => "Group is not started"
    case NotMember => "You are not a participant in this group"
    case OwnerCannotLeave => "Group owner cannot leave the group"
    case LeaveStarted => "Cannot leave a group that has already started"
    case NotAuthorized => "Not authorized to view these groups"
  }

  // ---------------------------------------------------------------------
  // register: identity conflicts

  /** The third query's filter: the user shares the username, the email or the mobile. */
  predicate Shares(u: UserDoc, username: string, email: string, mobile: string)
  {
    u.email == email || u.mobile == mobile || u.username == username
  }

  /** No identifier of `u` collides with the new user's identifiers, in any of the three queries. */
  predicate NoClash(u: UserDoc, username: string, email: string, mobile: string)
  {
    u.email != username && u.mobile != username &&
    u.username != email && u.username != mobile &&
    !Shares(u, username, email, mobile)
  }

  /** The user `findOne` returns for the third query: the first match in insertion order. */
  function FirstSharing(users: seq<UserDoc>, username: string, email: string, mobile: string): (k: Option<nat>)
    ensures k.Some? ==> k.value < |users| && Shares(users[k.value], username, email, mobile)
    ensures k.Some? ==> forall j :: 0 <= j < k.value ==> !Shares(users[j], username, email, mobile)
    ensures k.None? <==> forall j :: 0 <= j < |users| ==> !Shares(users[j], username, email, mobile)
  {
    if users == [] then None
    else if Shares(users[0], username, email, mobile) then Some(0)
    else match FirstSharing(users[1..], username, email, mobile)
      case None => None
      case Some(k) => Some(k + 1)
  }

  /**
   * The conflict checks of `register`, in order: the username against
   * other users' emails and mobiles, the email and mobile against other
   * usernames, then the first user sharing any identifier, whose matching
   * field picks the message.
   */
  function RegisterCheck(users: seq<UserDoc>, username: string, email: string, mobile: string): (r: Outcome<ApiError>)
    ensures r == Fail(UsernameClash) <==> exists i :: 0 <= i < |users| && (users[i].email == username || users[i].mobile == username)
    ensures r == Fail(ContactClash) <==>
      (forall i :: 0 <= i < |users| ==> users[i].email != username && users[i].mobile != username) &&
      exists i :: 0 <= i < |users| && (users[i].username == email || users[i].username == mobile)
    ensures r == Pass <==> forall i :: 0 <= i < |users| ==> NoClash(users[i], username, email, mobile)
    ensures r.Fail? && r.error in {UsernameTaken, EmailTaken, MobileTaken} ==>
      var k := FirstSharing(users, username, email, mobile);
      && k.Some?
      && (r.error == UsernameTaken <==> users[k.value].username == username)
      && (r.error == EmailTaken <==> users[k.value].username != username && users[k.value].email == email)
    ensures r.Fail? ==> r.error in {UsernameClash, ContactClash, UsernameTaken, EmailTaken, MobileTaken}
  {
    if exists i :: 0 <= i < |users| && (users[i].email == username || users[i].mobile == username) then Fail(UsernameClash)
    else if exists i :: 0 <= i < |users| && (users[i].username == email || users[i].username == mobile) then Fail(ContactClash)
    else match FirstSharing(users, username, email, mobile)
      case None => Pass
      case Some(k) =>
        if users[k].username == username then Fail(UsernameTaken)
        else if users[k].email == email then Fail(EmailTaken)
        else Fail(MobileTaken)
  }

  /** Two stored users: no identifier of one equals an identifier of the other. */
  predicate Apart(a: UserDoc, b: UserDoc)
  {
    NoClash(a, b.username, b.email, b.mobile)
  }

  /** The invariant the conflict checks keep over the user collection. */
  predicate IdentitiesDistinct(users: seq<UserDoc>)
  {
    forall i, j :: 0 <= i < |users| && 0 <= j < |users| && i != j ==> Apart(users[i], users[j])
  }

  /** A user that passes the conflict checks can be appended without breaking the invariant. */
  lemma RegisterKeepsDistinct(users: seq<UserDoc>, u: UserDoc)
    requires IdentitiesDistinct(users)
    requires RegisterCheck(users, u.username, u.email, u.mobile) == Pass
    ensures IdentitiesDistinct(users + [u])
  {
    var after := users + [u];
    forall i, j | 0 <= i < |after| && 0 <= j < |after| && i != j
      ensures Apart(after[i], after[j])
    {
      if i == |users| {
        assert NoClash(users[j], u.username, u.email, u.mobile);
      } else if j == |users| {
        assert NoClash(users[i], u.username, u.email, u.mobile);
      } else {
        assert Apart(users[i], users[j]);
      }
    }
  }

  /** `x` is one of the identifiers login accepts for `u`. */
  predicate Identifies(u: UserDoc, x: string)
  {
    u.username == x || u.email == x || u.mobile == x
  }

  /**
   * With distinct identities and valid stored users, any login identifier
   * names at most one user: an email never equals a mobile number.
   */
  lemma LoginIdentifierUnique(users: seq<UserDoc>, x: string, i: nat, j: nat)
    requires IdentitiesDistinct(users)
    requires forall k :: 0 <= k < |users| ==> ValidationErrors(users[k]) == {}
    requires i < |users| && j < |users|
    requires Identifies(users[i], x) && Identifies(users[j], x)
    ensures i == j
  {
    if i != j {
      assert Apart(users[i], users[j]);
      assert ValidationErrors(users[i]) == {} && ValidationErrors(users[j]) == {};
      if users[i].email == x && users[j].mobile == x {
        EmailIsNotMobile(x);
      } else if users[i].mobile == x && users[j].email == x {
        EmailIsNotMobile(x);
      }
    }
  }

  // ---------------------------------------------------------------------
  // Group mutations: the guard chains

  /** `inviteToGroup`: owner, group exists, not started, not a participant, no pending invite. */
  function InviteCheck(isOwner: bool, group: Option<GroupRecord>, isMember: bool, hasInvite: bool): (r: Outcome<ApiError>)
    ensures r == Fail(NotOwnerInvite) <==> !isOwner
    ensures r == Fail(GroupNotFound) <==> isOwner && group.None?
    ensures r == Fail(InviteToStarted) <==> isOwner && group.Some? && group.value.status == Started
    ensures r == Fail(AlreadyMember) <==> isOwner && group.Some? && group.value.status != Started && isMember
    ensures r == Fail(InvitePending) <==> isOwner && group.Some? && group.value.status != Started && !isMember && hasInvite
    ensures r == Pass <==> isOwner && group.Some? && group.value.status != Started && !isMember && !hasInvite
  {
    if !isOwner then Fail(NotOwnerInvite)
    else if group.None? then Fail(GroupNotFound)
    else if group.value.status == Started then Fail(InviteToStarted)
    else if isMember then Fail(AlreadyMember)
    else if hasInvite then Fail(InvitePending)
    else Pass
  }

  /**
   * `acceptGroupInvite`: a missing or started group is an error; a missing
   * invitation is caught and answered with `false`.
   */
  function AcceptInviteCheck(group: Option<GroupRecord>, hasInvite: bool): (r: Result<bool, ApiError>)
    ensures r == Err(GroupNotFound) <==> group.None?
    ensures r == Err(JoinStarted) <==> group.Some? && group.value.status == Started
    ensures r == Ok(false) <==> group.Some? && group.value.status != Started && !hasInvite
    ensures r == Ok(true) <==> group.Some? && group.value.status != Started && hasInvite
  {
    if group.None? then Err(GroupNotFound)
    else if group.value.status == Started then Err(JoinStarted)
    else Ok(hasInvite)
  }

  /** `startGroup`: owner, group exists, not already started, `canStart`. A completed group passes. */
  function StartCheck(isOwner: bool, group: Option<GroupRecord>, participantCount: nat): (r: Outcome<ApiError>)
    ensures r == Fail(NotOwnerStart) <==> !isOwner
    ensures r == Fail(GroupNotFound) <==> isOwner && group.None?
    ensures r == Fail(AlreadyStarted) <==> isOwner && group.Some? && group.value.status == Started
    ensures r == Fail(InsufficientParticipants) <==>
      isOwner && group.Some? && group.value.status != Started && participantCount != group.value.totalMonths
    ensures r == Pass <==> isOwner && group.Some? && group.value.status != Started && participantCount == group.value.totalMonths
  {
    if !isOwner then Fail(NotOwnerStart)
    else if group.None? then Fail(GroupNotFound)
    else if group.value.status == Started then Fail(AlreadyStarted)
    else if !CanStart(group.value, participantCount) then Fail(InsufficientParticipants)
    else Pass
  }

  /** `recordWinner`: owner, group exists, status exactly started. Winner and month are not checked. */
  function RecordWinnerCheck(isOwner: bool, group: Option<GroupRecord>): (r: Outcome<ApiError>)
    ensures r == Fail(NotOwnerRecord) <==> !isOwner
    ensures r == Fail(GroupNotFound) <==> isOwner && group.None?
    ensures r == Fail(NotStarted) <==> isOwner && group.Some? && group.value.status != Started
    ensures r == Pass <==> isOwner && group.Some? && group.value.status == Started
  {
    if !isOwner then Fail(NotOwnerRecord)
    else if group.None? then Fail(GroupNotFound)
    else if group.value.status != Started then Fail(NotStarted)
    else Pass
  }

  /** `leaveGroup`: group exists, caller participates, caller is not the owner, not started. */
  function LeaveCheck(group: Option<GroupRecord>, isMember: bool, isOwner: bool): (r: Outcome<ApiError>)
    ensures r == Fail(GroupNotFound) <==> group.None?
    ensures r == Fail(NotMember) <==> group.Some? && !isMember
    ensures r == Fail(OwnerCannotLeave) <==> group.Some? && isMember && isOwner
    ensures r == Fail(LeaveStarted) <==> group.Some? && isMember && !isOwner && group.value.status == Started
    ensures r == Pass <==> group.Some? && isMember && !isOwner && group.value.status != Started
  {
    if group.None? then Fail(GroupNotFound)
    else if !isMember then Fail(NotMember)
    else if isOwner then Fail(OwnerCannotLeave)
    else if group.value.status == Started then Fail(LeaveStarted)
    else Pass
  }

  // ---------------------------------------------------------------------
  // Connection mutations: the guard chains

  /** `sendConnectionRequest`: the target must be a user, and not the caller. */
  function SendRequestCheck(targetExists: bool, caller: string, target: string): (r: Outcome<ApiError>)
    ensures r == Fail(TargetNotFound) <==> !targetExists
    ensures r == Fail(SelfConnection) <==> targetExists && caller == target
    ensures r == Pass <==> targetExists && caller != target
  {
    if !targetExists then Fail(TargetNotFound)
    else if caller == target then Fail(SelfConnection)
    else Pass
  }

  /** `acceptConnectionRequest` and `rejectConnectionRequest`: the sender must be among the pending requesters. */
  function PendingCheck(pending: set<string>, from: string): (r: Outcome<ApiError>)
    ensures r == Pass <==> from in pending
    ensures r.Fail? ==> r.error == NoPendingRequest
  {
    if from in pending then Pass else Fail(NoPendingRequest)
  }

  /** `removeConnection`: the target must be a user and one of the caller's connections. */
  function RemoveConnectionCheck(targetExists: bool, connections: set<string>, target: string): (r: Outcome<ApiError>)
    ensures r == Fail(TargetNotFound) <==> !targetExists
    ensures r == Fail(NoConnection) <==> targetExists && target !in connections
    ensures r == Pass <==> targetExists && target in connections
  {
    if !targetExists then Fail(TargetNotFound)
    else if target !in connections then Fail(NoConnection)
    else Pass
  }

  // ---------------------------------------------------------------------
  // The stores

  /** An invitation to a group, as `createGroupInvite` records it. */
  datatype Invite = Invite(groupId: string, invitedBy: string, invitee: string)

  /** A winner as `recordWinner` passes it to the graph; nothing is checked about it. */
  datatype WinRecord = WinRecord(groupId: string, username: string, month: int, amount: int)

  /** Everything the resolvers write apart from the connection graph. */
  datatype StoreState = StoreState(
    users: seq<UserDoc>,
    balances: map<string, int>,
    groups: map<string, GroupRecord>,
    owners: map<string, string>,
    members: map<string, set<string>>,
    invites: set<Invite>,
    wins: seq<WinRecord>)

  function Lookup(groups: map<string, GroupRecord>, groupId: string): (r: Option<GroupRecord>)
    ensures r.Some? <==> groupId in groups
    ensures r.Some? ==> r.value == groups[groupId]
  {
    if groupId in groups then Some(groups[groupId]) else None
  }

  /** `isGroupOwner`. */
  predicate IsOwner(owners: map<string, string>, groupId: string, u: string)
  {
    groupId in owners && owners[groupId] == u
  }

  /** `isGroupParticipant`. */
  predicate IsMember(members: map<string, set<string>>, groupId: string, u: string)
  {
    groupId in members && u in members[groupId]
  }

  /** `getGroupParticipants(groupId).length`. */
  function MemberCount(members: map<string, set<string>>, groupId: string): nat
  {
    if groupId in members then |members[groupId]| else 0
  }

  /** `getPendingGroupInvites(u).some(invite => invite.groupId === groupId)`. */
  predicate HasInvite(invites: set<Invite>, groupId: string, u: string)
  {
    exists inv :: inv in invites && inv.groupId == groupId && inv.invitee == u
  }

  /** `User.findOne({ username })` finds someone. */
  predicate UserExists(users: seq<UserDoc>, username: string)
  {
    exists i :: 0 <= i < |users| && users[i].username == username
  }

  /** Distinct and valid users, each with a balance row and a graph node. */
  predicate UsersConsistent(users: seq<UserDoc>, balances: map<string, int>, nodes: set<string>)
  {
    && IdentitiesDistinct(users)
    && (forall i :: 0 <= i < |users| ==> ValidationErrors(users[i]) == {})
    && (forall i :: 0 <= i < |users| ==> users[i].username in balances && users[i].username in nodes)
  }

  /** Registering a user who passes the checks and validates keeps the user stores consistent. */
  lemma RegisterKeepsConsistent(users: seq<UserDoc>, balances: map<string, int>, nodes: set<string>, u: UserDoc)
    requires UsersConsistent(users, balances, nodes)
    requires RegisterCheck(users, u.username, u.email, u.mobile) == Pass && ValidationErrors(u) == {}
    ensures UsersConsistent(users + [u], balances[u.username := 0], nodes + {u.username})
  {
    RegisterKeepsDistinct(users, u);
  }

  /**
   * The group stores agree: one owner per group, who participates in it; a
   * started group holds exactly `totalMonths` participants; invitations only
   * to existing groups and only for non-participants.
   */
  predicate GroupsConsistent(groups: map<string, GroupRecord>, owners: map<string, string>, members: map<string, set<string>>, invites: set<Invite>)
  {
    && owners.Keys == groups.Keys && members.Keys == groups.Keys
    && (forall g :: g in groups ==> owners[g] == groups[g].owner && owners[g] in members[g])
    && (forall g :: g in groups && groups[g].status == Started ==> |members[g]| == groups[g].totalMonths)
    && (forall inv :: inv in invites ==> inv.groupId in groups && inv.invitee !in members[inv.groupId])
  }

  /** At most one invitation per group and invitee. */
  predicate InvitesUnique(invites: set<Invite>)
  {
    forall a, b :: a in invites && b in invites && a.groupId == b.groupId && a.invitee == b.invitee ==> a == b
  }

  /** Storing a new waiting group under an unused id, owned and joined by its owner, keeps the stores consistent. */
  lemma NewGroupKeepsConsistent(groups: map<string, GroupRecord>, owners: map<string, string>, members: map<string, set<string>>,
                                invites: set<Invite>, groupId: string, g: GroupRecord, owner: string)
    requires GroupsConsistent(groups, owners, members, invites)
    requires groupId !in groups && g.status == Waiting && g.owner == owner
    ensures GroupsConsistent(groups[groupId := g], owners[groupId := owner], members[groupId := {owner}], invites)
  {
  }

  class Backend {
    var users: seq<UserDoc>
    var balances: map<string, int>
    const graph: Graph
    var groups: map<string, GroupRecord>
    var owners: map<string, string>
    var members: map<string, set<string>>
    var invites: set<Invite>
    var wins: seq<WinRecord>

    function State(): StoreState
      reads this
    {
      StoreState(users, balances, groups, owners, members, invites, wins)
    }

    /**
     * What the resolvers maintain: distinct and valid users, each with a
     * balance row and a graph node; one owner per group, who participates
     * in it; a started group holds exactly `totalMonths` participants;
     * invitations only to existing groups, only for non-participants, and
     * at most one per group and invitee.
     */
    ghost predicate Valid()
      reads this, graph
    {
      && graph.Valid()
      && UsersConsistent(users, balances, graph.nodes)
      && GroupsConsistent(groups, owners, members, invites)
      && InvitesUnique(invites)
    }

    constructor ()
      ensures Valid() && fresh(graph)
      ensures State() == StoreState([], map[], map[], map[], map[], {}, [])
      ensures graph.nodes == {} && graph.edges == multiset{}
    {
      users := [];
      balances := map[];
      graph := new Graph();
      groups := map[];
      owners := map[];
      members := map[];
      invites := {};
      wins := [];
    }

    /**
     * `register`: the conflict checks, then schema validation on save, then
     * the user document, the graph node and a balance row of 0.
     */
    method Register(u: UserDoc) returns (r: Result<UserDoc, ApiError>)
      requires Valid()
      modifies this, graph
      ensures Valid()
      ensures var check := RegisterCheck(old(users), u.username, u.email, u.mobile);
        && (check.Fail? ==> r == Err(check.error))
        && (check == Pass && ValidationErrors(u) != {} ==> r == Err(UserInvalid(ValidationErrors(u))))
        && (check == Pass && ValidationErrors(u) == {} ==> r == Ok(u))
      ensures r.Ok? ==> State() == old(State()).(users := old(users) + [u], balances := old(balances)[u.username := 0])
      ensures r.Ok? ==> graph.nodes == old(graph.nodes) + {u.username} && graph.edges == old(graph.edges)
      ensures r.Err? ==> State() == old(State()) && graph.nodes == old(graph.nodes) && graph.edges == old(graph.edges)
    {
      var check := RegisterCheck(users, u.username, u.email, u.mobile);
      if check.Fail? {
        return Err(check.error);
      }
      var errors := ValidationErrors(u);
      if errors != {} {
        return Err(UserInvalid(errors));
      }
      RegisterKeepsConsistent(users, balances, graph.nodes, u);
      users := users + [u];
      graph.CreateUserNode(u.username);
      balances := balances[u.username := 0];
      r := Ok(u);
    }

    /**
     * `createGroup`: the schema decides; on success the group is stored
     * under the fresh id and its owner becomes its first participant.
     */
    method CreateGroup(caller: Option<string>, groupId: string, name: string, totalPoolAmount: int, totalMonths: int, now: int)
      returns (r: Result<GroupRecord, ApiError>)
      requires Valid()
      requires groupId !in groups
      modifies this
      ensures Valid()
      ensures caller.None? ==> r == Err(NotAuthenticated)
      ensures caller.Some? ==> var made := NewGroup(name, caller.value, totalPoolAmount, totalMonths, now);
        && (made.Err? ==> r == Err(GroupInvalid(made.error)))
        && (made.Ok? ==> r == Ok(made.value))
      ensures r.Ok? ==> State() == old(State()).(
        groups := old(groups)[groupId := r.value],
        owners := old(owners)[groupId := caller.value],
        members := old(members)[groupId := {caller.value}])
      ensures r.Err? ==> State() == old(State())
    {
      if caller.None? {
        return Err(NotAuthenticated);
      }
      var made := NewGroup(name, caller.value, totalPoolAmount, totalMonths, now);
      if made.Err? {
        return Err(GroupInvalid(made.error));
      }
      StoreGroup(groupId, made.value);
      r := Ok(made.value);
    }

    /** The writes of `createGroup`: the group document, its owner, and the owner as first participant. */
    method StoreGroup(groupId: string, g: GroupRecord)
      requires Valid()
      requires groupId !in groups && g.status == Waiting
      modifies this
      ensures Valid()
      ensures State() == old(State()).(groups := old(groups)[groupId := g], owners := old(owners)[groupId := g.owner], members := old(members)[groupId := {g.owner}])
    {
      NewGroupKeepsConsistent(groups, owners, members, invites, groupId, g, g.owner);
      groups := groups[groupId := g];
      owners := owners[groupId := g.owner];
      members := members[groupId := {g.owner}];
    }

    /** `inviteToGroup`: the guard chain, then one new invitation. */
    method InviteToGroup(caller: Option<string>, groupId: string, username: string) returns (r: Outcome<ApiError>)
      requires Valid()
      modifies this
      ensures Valid()
      ensures caller.None? ==> r == Fail(NotAuthenticated)
      ensures caller.Some? ==> r == InviteCheck(IsOwner(old(owners), groupId, caller.value), Lookup(old(groups), groupId),
        IsMember(old(members), groupId, username), HasInvite(old(invites), groupId, username))
      ensures r == Pass ==> State() == old(State()).(invites := old(invites) + {Invite(groupId, caller.value, username)})
      ensures r.Fail? ==> State() == old(State())
    {
      if caller.None? {
        return Fail(NotAuthenticated);
      }
      r := InviteCheck(IsOwner(owners, groupId, caller.value), Lookup(groups, groupId),
        IsMember(members, groupId, username), HasInvite(invites, groupId, username));
      if r == Pass {
        invites := invites + {Invite(groupId, caller.value, username)};
      }
    }

    /**
     * `acceptGroupInvite`: checks the group, then the invitation; accepting
     * drops the caller's invitation to the group and makes them a participant.
     * The group's capacity is not checked.
     */
    method AcceptGroupInvite(caller: Option<string>, groupId: string) returns (r: Result<bool, ApiError>)
      requires Valid()
      modifies this
      ensures Valid()
      ensures caller.None? ==> r == Err(NotAuthenticated)
      ensures caller.Some? ==> r == AcceptInviteCheck(Lookup(old(groups), groupId), HasInvite(old(invites), groupId, caller.value))
      ensures r == Ok(true) ==> State() == old(State()).(
        invites := (set inv | inv in old(invites) && !(inv.groupId == groupId && inv.invitee == caller.value)),
        members := old(members)[groupId := old(members)[groupId] + {caller.value}])
      ensures r != Ok(true) ==> State() == old(State())
    {
      if caller.None? {
        return Err(NotAuthenticated);
      }
      var u := caller.value;
      r := AcceptInviteCheck(Lookup(groups, groupId), HasInvite(invites, groupId, u));
      if r == Ok(true) {
        invites := set inv | inv in invites && !(inv.groupId == groupId && inv.invitee == u);
        members := members[groupId := members[groupId] + {u}];
      }
    }

    /** `startGroup`: the guard chain, then status started and the shuffle date set to now. */
    method StartGroup(caller: Option<string>, groupId: string, now: int) returns (r: Outcome<ApiError>)
      requires Valid()
      modifies this
      ensures Valid()
      ensures caller.None? ==> r == Fail(NotAuthenticated)
      ensures caller.Some? ==> r == StartCheck(IsOwner(old(owners), groupId, caller.value), Lookup(old(groups), groupId),
        MemberCount(old(members), groupId))
      ensures r == Pass ==> State() == old(State()).(
        groups := old(groups)[groupId := old(groups)[groupId].(status := Started, shuffleDate := Some(now))])
      ensures r.Fail? ==> State() == old(State())
    {
      if caller.None? {
        return Fail(NotAuthenticated);
      }
      r := StartCheck(IsOwner(owners, groupId, caller.value), Lookup(groups, groupId), MemberCount(members, groupId));
      if r == Pass {
        groups := groups[groupId := groups[groupId].(status := Started, shuffleDate := Some(now))];
      }
    }

    /** `recordWinner`: the guard chain, then the winner is handed to the graph as given. */
    method RecordWinner(caller: Option<string>, groupId: string, username: string, month: int, amount: int)
      returns (r: Outcome<ApiError>)
      requires Valid()
      modifies this
      ensures Valid()
      ensures caller.None? ==> r == Fail(NotAuthenticated)
      ensures caller.Some? ==> r == RecordWinnerCheck(IsOwner(old(owners), groupId, caller.value), Lookup(old(groups), groupId))
      ensures r == Pass ==> State() == old(State()).(wins := old(wins) + [WinRecord(groupId, username, month, amount)])
      ensures r.Fail? ==> State() == old(State())
    {
      if caller.None? {
        return Fail(NotAuthenticated);
      }
      r := RecordWinnerCheck(IsOwner(owners, groupId, caller.value), Lookup(groups, groupId));
      if r == Pass {
        wins := wins + [WinRecord(groupId, username, month, amount)];
      }
    }

    /** `leaveGroup`: the guard chain, then the caller stops participating. */
    method LeaveGroup(caller: Option<string>, groupId: string) returns (r: Outcome<ApiError>)
      requires Valid()
      modifies this
      ensures Valid()
      ensures caller.None? ==> r == Fail(NotAuthenticated)
      ensures caller.Some? ==> r == LeaveCheck(Lookup(old(groups), groupId), IsMember(old(members), groupId, caller.value),
        IsOwner(old(owners), groupId, caller.value))
      ensures r == Pass ==> State() == old(State()).(members := old(members)[groupId := old(members)[groupId] - {caller.value}])
      ensures r.Fail? ==> State() == old(State())
    {
      if caller.None? {
        return Fail(NotAuthenticated);
      }
      var u := caller.value;
      r := LeaveCheck(Lookup(groups, groupId), IsMember(members, groupId, u), IsOwner(owners, groupId, u));
      if r == Pass {
        members := members[groupId := members[groupId] - {u}];
      }
    }

    /** `sendConnectionRequest`: the guard chain, then `createConnectionRequest`, whose failure is passed on. */
    method SendConnectionRequest(caller: Option<string>, target: string) returns (r: Outcome<ApiError>)
      requires Valid()
      modifies graph
      ensures Valid()
      ensures caller.None? ==> r == Fail(NotAuthenticated)
      ensures caller.Some? ==> var check := SendRequestCheck(UserExists(users, target), caller.value, target);
        var step := RequestStep(old(graph.nodes), old(graph.edges), caller.value, target);
        && (check.Fail? ==> r == check)
        && (check == Pass && step.Err? ==> r == Fail(ConnectionFailed(step.error)))
        && (check == Pass && step.Ok? ==> r == Pass && graph.edges == step.value)
      ensures r.Fail? ==> graph.edges == old(graph.edges)
      ensures graph.nodes == old(graph.nodes)
    {
      if caller.None? {
        return Fail(NotAuthenticated);
      }
      r := SendRequestCheck(UserExists(users, target), caller.value, target);
      if r == Pass {
        var created := graph.CreateConnectionRequest(caller.value, target);
        if created.Fail? {
          r := Fail(ConnectionFailed(created.error));
        }
      }
    }

    /** `acceptConnectionRequest`: only a pending sender; then the graph accept. */
    method AcceptConnectionRequest(caller: Option<string>, from: string) returns (r: Outcome<ApiError>)
      requires Valid()
      modifies graph
      ensures Valid()
      ensures caller.None? ==> r == Fail(NotAuthenticated)
      ensures caller.Some? ==> r == PendingCheck(old(graph.GetPendingRequests(caller.value)), from)
      ensures graph.edges == (if r == Pass then AcceptStep(old(graph.edges), from, caller.value) else old(graph.edges))
      ensures graph.nodes == old(graph.nodes)
    {
      if caller.None? {
        return Fail(NotAuthenticated);
      }
      r := PendingCheck(graph.GetPendingRequests(caller.value), from);
      if r == Pass {
        graph.AcceptConnectionRequest(from, caller.value);
      }
    }

    /**
     * `rejectConnectionRequest`: the same check, after which the call of the
     * undefined `deleteConnectionRequest` throws; nothing is ever deleted.
     */
    method RejectConnectionRequest(caller: Option<string>, from: string) returns (r: Outcome<ApiError>)
      requires Valid()
      ensures caller.None? ==> r == Fail(NotAuthenticated)
      ensures caller.Some? && from !in graph.GetPendingRequests(caller.value) ==> r == Fail(NoPendingRequest)
      ensures caller.Some? && from in graph.GetPendingRequests(caller.value) ==> r == Fail(DeleteRequestUndefined)
    {
      if caller.None? {
        return Fail(NotAuthenticated);
      }
      r := PendingCheck(graph.GetPendingRequests(caller.value), from);
      if r == Pass {
        r := Fail(DeleteRequestUndefined);
      }
    }

    /** `removeConnection`: the guard chain, then the graph removal of both directions. */
    method RemoveConnection(caller: Option<string>, target: string) returns (r: Outcome<ApiError>)
      requires Valid()
      modifies graph
      ensures Valid()
      ensures caller.None? ==> r == Fail(NotAuthenticated)
      ensures caller.Some? ==> r == RemoveConnectionCheck(UserExists(users, target), old(graph.GetUserConnections(caller.value)), target)
      ensures graph.edges == (if r == Pass then RemoveStep(old(graph.edges), caller.value, target) else old(graph.edges))
      ensures graph.nodes == old(graph.nodes)
    {
      if caller.None? {
        return Fail(NotAuthenticated);
      }
      r := RemoveConnectionCheck(UserExists(users, target), graph.GetUserConnections(caller.value), target);
      if r == Pass {
        graph.RemoveConnection(caller.value, target);
      }
    }
  }

  // ---------------------------------------------------------------------
  // What the guards add up to

  /** Under the store invariant the owner of a group is never invited to it. */
  lemma OwnerIsNeverInvited(b: Backend, groupId: string, caller: string)
    requires b.Valid() && groupId in b.groups
    ensures var owner := b.groups[groupId].owner;
      InviteCheck(IsOwner(b.owners, groupId, caller), Lookup(b.groups, groupId), IsMember(b.members, groupId, owner),
        HasInvite(b.invites, groupId, owner)) != Pass
  {
  }

  /** Only the stored owner passes the owner checks: invitations, starts and winners come from the owner. */
  lemma OwnerChecksMeanOwner(b: Backend, groupId: string, u: string)
    requires b.Valid()
    ensures InviteCheck(IsOwner(b.owners, groupId, u), Lookup(b.groups, groupId), false, false) == Pass ==>
      groupId in b.groups && b.groups[groupId].owner == u
    ensures StartCheck(IsOwner(b.owners, groupId, u), Lookup(b.groups, groupId), MemberCount(b.members, groupId)) == Pass ==>
      groupId in b.groups && b.groups[groupId].owner == u && |b.members[groupId]| == b.groups[groupId].totalMonths
  {
  }

  /** Under the invariant a group that exists has an owner, so `inviteToGroup` never reports a missing group. */
  lemma InviteNeverReportsMissingGroup(b: Backend, groupId: string, u: string, isMember: bool, hasInvite: bool)
    requires b.Valid()
    ensures InviteCheck(IsOwner(b.owners, groupId, u), Lookup(b.groups, groupId), isMember, hasInvite) != Fail(GroupNotFound)
  {
    if IsOwner(b.owners, groupId, u) {
      assert groupId in b.owners.Keys;
    }
  }

  // ---------------------------------------------------------------------
  // myGroups

  /** A row of `getUserGroups`: the group and what the membership relation stores about the user. */
  datatype GroupRow = GroupRow(groupId: string, groupName: Option<string>, role: Option<string>)

  /** A group document as read back; `status` is absent on a document stored without one. */
  datatype GroupDoc = GroupDoc(id: string, name: string, owner: string, totalMonths: int, status: Option<Status>)

  /** The fields of an enriched group this model keeps. */
  datatype GroupView = GroupView(id: string, name: string, totalMonths: int, status: string, owner: string, role: string)

  /** `new Map(rows.map(g => [g.groupId, g])).get(groupId)`: the last row for the group wins. */
  function LastRow(rows: seq<GroupRow>, groupId: string): (r: Option<GroupRow>)
    ensures r.Some? ==> r.value in rows && r.value.groupId == groupId
    ensures r.None? <==> forall k :: 0 <= k < |rows| ==> rows[k].groupId != groupId
  {
    if rows == [] then None
    else if rows[|rows| - 1].groupId == groupId then Some(rows[|rows| - 1])
    else LastRow(rows[..|rows| - 1], groupId)
  }

  /** No row after position `k` belongs to the group. */
  predicate NoLaterRow(rows: seq<GroupRow>, groupId: string, k: nat)
  {
    forall j :: k < j < |rows| ==> rows[j].groupId != groupId
  }

  /** The row the map keeps is the last row of its group: no later row has the same id. */
  lemma {:induction false} LastRowIsLast(rows: seq<GroupRow>, groupId: string)
    requires LastRow(rows, groupId).Some?
    ensures exists k :: 0 <= k < |rows| && rows[k] == LastRow(rows, groupId).value && NoLaterRow(rows, groupId, k)
  {
    var n := |rows| - 1;
    if rows[n].groupId == groupId {
      assert rows[n] == LastRow(rows, groupId).value && NoLaterRow(rows, groupId, n);
    } else {
      var front := rows[..n];
      assert LastRow(rows, groupId) == LastRow(front, groupId);
      LastRowIsLast(front, groupId);
      var k :| 0 <= k < |front| && front[k] == LastRow(front, groupId).value && NoLaterRow(front, groupId, k);
      assert rows[k] == front[k];
      assert NoLaterRow(rows, groupId, k) by {
        forall j | k < j < |rows|
          ensures rows[j].groupId != groupId
        {
          if j < n {
            assert rows[j] == front[j];
          }
        }
      }
    }
  }

  /** `status || 'pending'`. */
  function StatusLabel(s: Option<Status>): (text: string)
    ensures text == "pending" <==> s.None?
  {
    match s
    case None => "pending"
    case Some(st) => StatusName(st)
  }

  /** `isOwner ? 'owner' : (neo4jData.role || 'participant')`. */
  function RoleFor(username: string, d: GroupDoc, row: GroupRow): (role: string)
    ensures d.owner == username ==> role == "owner"
    ensures d.owner != username && row.role.Some? && row.role.value != "" ==> role == row.role.value
    ensures d.owner != username && (row.role.None? || row.role.value == "") ==> role == "participant"
  {
    if d.owner == username then "owner"
    else if row.role.Some? && row.role.value != "" then row.role.value
    else "participant"
  }

  /** The enriched group for a document and its membership row. */
  function ViewOf(username: string, d: GroupDoc, row: GroupRow): (v: GroupView)
    ensures v.id == d.id && v.owner == d.owner && v.totalMonths == d.totalMonths
    ensures v.status == StatusLabel(d.status) && v.role == RoleFor(username, d, row)
    ensures d.name != "" ==> v.name == d.name
  {
    var name := if d.name != "" then d.name else if row.groupName.Some? then row.groupName.value else "";
    GroupView(d.id, name, d.totalMonths, StatusLabel(d.status), d.owner, RoleFor(username, d, row))
  }

  /** A document survives the `$in` query and the owner lookup. */
  predicate Selected(rows: seq<GroupRow>, knownOwners: set<string>, d: GroupDoc)
  {
    LastRow(rows, d.id).Some? && d.owner in knownOwners
  }

  /** The enriched group of a selected document, with the row the lookup map holds for it. */
  function ViewFor(username: string, rows: seq<GroupRow>, d: GroupDoc): GroupView
    requires LastRow(rows, d.id).Some?
  {
    ViewOf(username, d, LastRow(rows, d.id).value)
  }

  /** The listing of one document: its enriched group when it is selected, nothing otherwise. */
  function FirstView(username: string, rows: seq<GroupRow>, d: GroupDoc, knownOwners: set<string>): seq<GroupView>
  {
    if Selected(rows, knownOwners, d) then [ViewFor(username, rows, d)] else []
  }

  /** The `map`/`filter` over the documents, in the order the collection returns them. */
  function Views(username: string, rows: seq<GroupRow>, docs: seq<GroupDoc>, knownOwners: set<string>): (out: seq<GroupView>)
    ensures |out| <= |docs|
  {
    if docs == [] then [] else FirstView(username, rows, docs[0], knownOwners) + Views(username, rows, docs[1..], knownOwners)
  }

  /** Every listed group comes from a selected document. */
  lemma {:induction false} ViewsSound(username: string, rows: seq<GroupRow>, docs: seq<GroupDoc>, knownOwners: set<string>)
    ensures forall v :: v in Views(username, rows, docs, knownOwners) ==>
      exists d :: d in docs && Selected(rows, knownOwners, d) && v == ViewFor(username, rows, d)
  {
    if docs != [] {
      ViewsSound(username, rows, docs[1..], knownOwners);
      assert forall d :: d in docs[1..] ==> d in docs;
    }
  }

  /** Every selected document is listed. */
  lemma {:induction false} ViewsComplete(username: string, rows: seq<GroupRow>, docs: seq<GroupDoc>, knownOwners: set<string>)
    ensures forall d :: d in docs && Selected(rows, knownOwners, d) ==> ViewFor(username, rows, d) in Views(username, rows, docs, knownOwners)
  {
    if docs != [] {
      ViewsComplete(username, rows, docs[1..], knownOwners);
      assert forall d :: d in docs ==> d == docs[0] || d in docs[1..];
    }
  }

  /** The listing keeps the collection's order: the groups of two runs of documents come out one run after the other. */
  lemma {:induction false} ViewsConcat(username: string, rows: seq<GroupRow>, a: seq<GroupDoc>, b: seq<GroupDoc>, knownOwners: set<string>)
    ensures Views(username, rows, a + b, knownOwners) == Views(username, rows, a, knownOwners) + Views(username, rows, b, knownOwners)
  {
    if a == [] {
      assert a + b == b;
    } else {
      var ab := a + b;
      assert ab[0] == a[0] && ab[1..] == a[1..] + b;
      ViewsConcat(username, rows, a[1..], b, knownOwners);
    }
  }

  /** Without membership rows no document is selected, so the listing is empty. */
  lemma {:induction false} ViewsWithoutRows(username: string, docs: seq<GroupDoc>, knownOwners: set<string>)
    ensures Views(username, [], docs, knownOwners) == []
  {
    if docs != [] {
      ViewsWithoutRows(username, docs[1..], knownOwners);
    }
  }

  /**
   * `myGroups(username)`: only for the authenticated user themself; the
   * groups with a membership row, a stored document and a known owner.
   */
  function MyGroups(caller: Option<string>, username: string, rows: seq<GroupRow>, docs: seq<GroupDoc>, knownOwners: set<string>)
    : (r: Result<seq<GroupView>, ApiError>)
    ensures r == Err(NotAuthenticated) <==> caller.None?
    ensures r == Err(NotAuthorized) <==> caller.Some? && caller.value != username
    ensures caller == Some(username) ==> r.Ok?
    ensures r.Ok? ==> r.value == Views(username, rows, docs, knownOwners)
    ensures r.Ok? ==> forall v :: v in r.value ==>
      exists d :: d in docs && Selected(rows, knownOwners, d) && v == ViewFor(username, rows, d)
    ensures r.Ok? ==> forall d :: d in docs && Selected(rows, knownOwners, d) ==> ViewFor(username, rows, d) in r.value
  {
    if caller.None? then Err(NotAuthenticated)
    else if caller.value != username then Err(NotAuthorized)
    else if rows == [] then
      ViewsWithoutRows(username, docs, knownOwners);
      Ok([])
    else
      ViewsSound(username, rows, docs, knownOwners);
      ViewsComplete(username, rows, docs, knownOwners);
      Ok(Views(username, rows, docs, knownOwners))
  }

  /** The caller's own groups are listed with role `owner`, whatever the membership row says. */
  lemma OwnGroupsShowOwner(username: string, rows: seq<GroupRow>, docs: seq<GroupDoc>, knownOwners: set<string>, v: GroupView)
    requires v in MyGroups(Some(username), username, rows, docs, knownOwners).value
    requires forall d :: d in docs && d.id == v.id ==> d.owner == username
    ensures v.role == "owner"
  {
  }
}
