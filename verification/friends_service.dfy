/**
 The friend-relationship engine of the user service. The database holds the
 known usernames, the pending friend requests (ordered sender -> receiver) and
 the friendship rows; every operation is a pure function from that database to
 either the new database or the rejection the service answers with.
 */
module FriendsService {
  import opened Wrappers
  import opened FriendshipsRepository

  /** A pending friend request from `sender` to `receiver`. */
  datatype Request = Request(sender: string, receiver: string)

  datatype State = State(users: set<string>, requests: set<Request>, friendships: seq<Friendship>)

  /** Why a relationship operation was refused (answered with status 400). */
  datatype Refusal =
    | ToOneself        // a request whose sender is its receiver
    | AlreadyFriends   // a request between friends
    | AlreadyReceived  // a request answering one still pending the other way
    | SentTwice        // a request repeating one still pending
    | AcceptOwn        // the sender accepting their own request
    | AcceptMissing    // accepting a request that does not exist
    | CancelOthers     // the receiver canceling a request
    | CancelMissing    // canceling a request that does not exist
    | DeclineOwn       // the sender declining their own request
    | DeclineMissing   // declining a request that does not exist
    | UnfriendMissing  // unfriending someone who is not a friend

  /**
   A rejection carries the two usernames in the order its message prints them:
   for the four kinds about a request that runs the other way, that is the real
   direction of the request, not the order of the call.
   */
  datatype Rejection =
    | UserNotFound(username: string)
    | Refused(kind: Refusal, first: string, second: string)

  /** How `subject` stands towards `other`. */
  datatype Relation = Strangers | Sent | Received | Friends

  function Converse(r: Relation): Relation {
    match r
    case Sent => Received
    case Received => Sent
    case _ => r
  }

  /** The relationship state derived from the stored requests and friendship rows. */
  function RelationOf(s: State, subject: string, other: string): Relation {
    if ExistsByUsers(s.friendships, subject, other) then Friends
    else if Request(subject, other) in s.requests then Sent
    else if Request(other, subject) in s.requests then Received
    else Strangers
  }

  /**
   What the database keeps true: every stored user is known, nobody relates to
   themself, a pair is never pending in both directions, never pending and
   friends at once, and has at most one friendship row.
   */
  ghost predicate Valid(s: State) {
    && (forall q :: q in s.requests ==> q.sender in s.users && q.receiver in s.users)
    && (forall q :: q in s.requests ==> q.sender != q.receiver)
    && (forall q :: q in s.requests ==> Request(q.receiver, q.sender) !in s.requests)
    && (forall q :: q in s.requests ==> !ExistsByUsers(s.friendships, q.sender, q.receiver))
    && (forall f :: f in s.friendships ==> f.user1 in s.users && f.user2 in s.users)
    && (forall f :: f in s.friendships ==> f.user1 != f.user2)
    && Unique(s.friendships)
  }

  /** Both usernames of a call are resolved, the first one first, before any other check. */
  function Resolve(s: State, first: string, second: string): Result<(), Rejection> {
    if first !in s.users then Failure(UserNotFound(first))
    else if second !in s.users then Failure(UserNotFound(second))
    else Success(())
  }

  function SendFriendRequest(s: State, sender: string, receiver: string): (r: Result<State, Rejection>)
    ensures r.Success? <==>
              sender in s.users && receiver in s.users && sender != receiver
              && RelationOf(s, sender, receiver) == Strangers
    ensures r.Success? ==> RelationOf(r.value, sender, receiver) == Sent
  {
    var _ :- Resolve(s, sender, receiver);
    if sender == receiver then Failure(Refused(ToOneself, sender, sender))
    else if ExistsByUsers(s.friendships, sender, receiver) then Failure(Refused(AlreadyFriends, sender, receiver))
    else if Request(receiver, sender) in s.requests then Failure(Refused(AlreadyReceived, receiver, sender))
    else if Request(sender, receiver) in s.requests then Failure(Refused(SentTwice, sender, receiver))
    else Success(s.(requests := s.requests + {Request(sender, receiver)}))
  }

  /** Whether a request runs from `sender` to `receiver`; the other direction does not count. */
  function CheckFriendRequest(s: State, sender: string, receiver: string): (r: Result<bool, Rejection>)
    ensures r.Success? <==> sender in s.users && receiver in s.users
    ensures Valid(s) && r.Success? ==> (r.value <==> RelationOf(s, sender, receiver) == Sent)
  {
    var _ :- Resolve(s, sender, receiver);
    Success(Request(sender, receiver) in s.requests)
  }

  /** Whether the two users are friends, whichever order their row was stored in. */
  function CheckFriendship(s: State, user1: string, user2: string): (r: Result<bool, Rejection>)
    ensures r.Success? <==> user1 in s.users && user2 in s.users
    ensures r.Success? ==> (r.value <==> RelationOf(s, user1, user2) == Friends)
    ensures r.Success? ==> (r.value <==> RelationOf(s, user2, user1) == Friends)
  {
    var _ :- Resolve(s, user1, user2);
    Success(ExistsByUsers(s.friendships, user1, user2))
  }

  /** The other user of a row that mentions `u`. */
  function Partner(f: Friendship, u: string): string {
    if f.user1 == u then f.user2 else f.user1
  }

  /** The partners of `u` in the given rows, one per row, in row order. */
  function Partners(rows: seq<Friendship>, u: string): (names: seq<string>)
    requires forall f :: f in rows ==> Mentions(f, u)
    ensures |names| == |rows|
    ensures forall v :: v in names <==> Friendship(u, v) in rows || Friendship(v, u) in rows
  {
    if rows == [] then []
    else
      assert rows == [rows[0]] + rows[1..];
      assert Mentions(rows[0], u);
      assert forall v :: Partner(rows[0], u) == v <==> rows[0] == Friendship(u, v) || rows[0] == Friendship(v, u);
      [Partner(rows[0], u)] + Partners(rows[1..], u)
  }

  /** The usernames of all friends of `username`, one per friendship row mentioning them. */
  function GetAllFriends(s: State, username: string): (r: Result<seq<string>, Rejection>)
    ensures r.Success? <==> username in s.users
    ensures r.Success? ==> forall v :: v in r.value <==> RelationOf(s, username, v) == Friends
  {
    var _ :- Resolve(s, username, username);
    Success(Partners(FindAllByUser(s.friendships, username), username))
  }

  /** The receiver accepts: the request becomes a friendship row in one step. */
  function AcceptFriendRequest(s: State, sender: string, receiver: string): (r: Result<State, Rejection>)
    ensures r.Success? <==> sender in s.users && receiver in s.users && Request(sender, receiver) in s.requests
    ensures r.Success? ==> RelationOf(r.value, sender, receiver) == Friends
    ensures r.Success? ==> Request(sender, receiver) !in r.value.requests
  {
    var _ :- Resolve(s, sender, receiver);
    if Request(sender, receiver) in s.requests then
      Success(s.(requests := s.requests - {Request(sender, receiver)},
                 friendships := s.friendships + [Friendship(sender, receiver)]))
    else if Request(receiver, sender) in s.requests then Failure(Refused(AcceptOwn, receiver, sender))
    else Failure(Refused(AcceptMissing, sender, receiver))
  }

  /** The sender withdraws their request. */
  function CancelFriendRequest(s: State, sender: string, receiver: string): (r: Result<State, Rejection>)
    ensures r.Success? <==> sender in s.users && receiver in s.users && Request(sender, receiver) in s.requests
    ensures Valid(s) && r.Success? ==> RelationOf(r.value, sender, receiver) == Strangers
  {
    var _ :- Resolve(s, sender, receiver);
    if Request(sender, receiver) in s.requests then
      Success(s.(requests := s.requests - {Request(sender, receiver)}))
    else if Request(receiver, sender) in s.requests then Failure(Refused(CancelOthers, receiver, sender))
    else Failure(Refused(CancelMissing, sender, receiver))
  }

  /** The receiver turns the request down. */
  function DeclineFriendRequest(s: State, sender: string, receiver: string): (r: Result<State, Rejection>)
    ensures r.Success? <==> sender in s.users && receiver in s.users && Request(sender, receiver) in s.requests
    ensures Valid(s) && r.Success? ==> RelationOf(r.value, sender, receiver) == Strangers
  {
    var _ :- Resolve(s, sender, receiver);
    if Request(sender, receiver) in s.requests then
      Success(s.(requests := s.requests - {Request(sender, receiver)}))
    else if Request(receiver, sender) in s.requests then Failure(Refused(DeclineOwn, receiver, sender))
    else Failure(Refused(DeclineMissing, sender, receiver))
  }

  /** Either friend ends the friendship; every row of the pair goes. */
  function Unfriend(s: State, unfriender: string, unfriended: string): (r: Result<State, Rejection>)
    ensures r.Success? <==>
              unfriender in s.users && unfriended in s.users
              && RelationOf(s, unfriender, unfriended) == Friends
    ensures Valid(s) && r.Success? ==> RelationOf(r.value, unfriender, unfriended) == Strangers
  {
    var _ :- Resolve(s, unfriender, unfriended);
    if ExistsByUsers(s.friendships, unfriender, unfriended) then
      DeleteRemovesPair(s.friendships, unfriender, unfriended);
      Success(s.(friendships := DeleteByUsers(s.friendships, unfriender, unfriended)))
    else Failure(Refused(UnfriendMissing, unfriender, unfriended))
  }
}
