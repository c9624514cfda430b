/**
 What the friends endpoints answer: a status and a fixed message text built
 from the usernames of the call. The status is the one carried in the body.
 */
module FriendsResponses {
  import opened Wrappers
  import opened FriendshipsRepository
  import opened FriendsService
  import opened FriendsStateMachine

  datatype Payload = Payload(status: int, message: string)

  /** The text of a refusal up to its first username. */
  function Lead(k: Refusal): string {
    match k
    case ToOneself => "Cannot send a friend request to oneself ("
    case AlreadyFriends => "Cannot send a friend request when already friends (from "
    case AlreadyReceived => "Cannot send a friend request when having one already received (from "
    case SentTwice => "Cannot send a friend request twice (from "
    case AcceptOwn => "Cannot accept one's own friend request (from "
    case AcceptMissing => "Cannot accept friend request when no friend request found (from "
    case CancelOthers => "Cannot cancel someone else's friend request (from "
    case CancelMissing => "Cannot cancel friend request when no friend request found (from "
    case DeclineOwn => "Cannot decline one's own friend request (from "
    case DeclineMissing => "Cannot decline friend request when no friend request found (from "
    case UnfriendMissing => "Cannot unfriend when no friendship found (between "
  }

  /** The text between the two usernames of a refusal. */
  function Link(k: Refusal): string {
    if k == UnfriendMissing then " and " else " to "
  }

  function RefusalText(k: Refusal, first: string, second: string): string {
    if k == ToOneself then Lead(k) + first + ")"
    else Lead(k) + first + Link(k) + second + ")"
  }

  /** Unknown users answer 404, every refused transition 400. */
  function Describe(e: Rejection): (p: Payload)
    ensures p.status == 404 <==> e.UserNotFound?
    ensures p.status == 400 <==> e.Refused?
  {
    match e
    case UserNotFound(u) => Payload(404, "User with username " + u + " not found")
    case Refused(k, first, second) => Payload(400, RefusalText(k, first, second))
  }

  /** The 200 answer of a successful operation. */
  function Confirm(op: Operation, first: string, second: string): Payload {
    match op
    case Sending => Payload(200, "Friend request sent successfully (from " + first + " to " + second + ")")
    case Accepting => Payload(200, "Friend request accepted successfully (from " + first + " accepted by " + second + ")")
    case Canceling => Payload(200, "Friend request canceled successfully (from " + first + " to " + second + ")")
    case Declining => Payload(200, "Friend request declined successfully (from " + first + " to " + second + ")")
    case Unfriending => Payload(200, "Unfriend successfully done (" + first + " unfriended " + second + ")")
  }

  /**
   A mutating endpoint: the new database and its confirmation, or the database
   untouched and the rejection.
   */
  function Respond(s: State, op: Operation, first: string, second: string): (r: (State, Payload))
    ensures r.1.status == 200 <==> Apply(s, op, first, second).Success?
    ensures r.1.status == 404 <==> first !in s.users || second !in s.users
    ensures r.1.status == 400 <==> first in s.users && second in s.users && Apply(s, op, first, second).Failure?
    ensures r.1.status != 200 ==> r.0 == s
    ensures r.1.status == 200 ==> r.0 == Apply(s, op, first, second).value
  {
    UnknownUserRejectedFirst(s, op, first, second);
    match Apply(s, op, first, second)
    case Success(s') => (s', Confirm(op, first, second))
    case Failure(e) => (s, Describe(e))
  }

  /** checkRequest: 200 when the request runs from sender to receiver, 404 otherwise. */
  function CheckRequestReply(s: State, sender: string, receiver: string): (p: Payload)
    ensures p.status == 200 <==> CheckFriendRequest(s, sender, receiver) == Success(true)
    ensures p.status == 404 <==> !(CheckFriendRequest(s, sender, receiver) == Success(true))
  {
    match CheckFriendRequest(s, sender, receiver)
    case Failure(e) => Describe(e)
    case Success(true) => Payload(200, "Friend request found (from " + sender + " to " + receiver + ")")
    case Success(false) => Payload(404, "No friend request found (from " + sender + " to " + receiver + ")")
  }

  /** checkFriendship: 200 when the two are friends, 404 otherwise. */
  function CheckFriendshipReply(s: State, user1: string, user2: string): (p: Payload)
    ensures p.status == 200 <==> CheckFriendship(s, user1, user2) == Success(true)
    ensures p.status == 404 <==> !(CheckFriendship(s, user1, user2) == Success(true))
  {
    match CheckFriendship(s, user1, user2)
    case Failure(e) => Describe(e)
    case Success(true) => Payload(200, "Friendship found (between " + user1 + " and " + user2 + ")")
    case Success(false) => Payload(404, "No friendship found (between " + user1 + " and " + user2 + ")")
  }

  /** getAllFriendsUsernames: the list, or the 404 answer for an unknown user. */
  function FriendsListReply(s: State, username: string): (r: Result<seq<string>, Payload>)
    ensures r.Failure? <==> username !in s.users
    ensures r.Failure? ==> r.error.status == 404
    ensures r.Success? ==> forall v :: v in r.value <==> RelationOf(s, username, v) == Friends
    ensures r.Success? ==> r.value == GetAllFriends(s, username).value
  {
    match GetAllFriends(s, username)
    case Success(names) => Success(names)
    case Failure(e) => Failure(Describe(e))
  }
}
