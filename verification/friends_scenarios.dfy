/**
 The friends controller integration tests, each as a lemma: the database the
 test sets up, the call it makes, and the status and message it expects.
 */
module FriendsScenarios {
  import opened Wrappers
  import opened FriendshipsRepository
  import opened FriendsService
  import opened FriendsStateMachine
  import opened FriendsResponses
  import opened FriendsProperties

  const Andrew := "andrew_username123"
  const Bobby := "bobby_username123"
  const Joe := "blob_joe_username123"
  const Missing := "doesntexist"

  /** The database every test starts from: two users and no relation. */
  function Fresh(): (s: State)
    ensures Valid(s)
  {
    State({Andrew, Bobby}, {}, [])
  }

  function WithRequest(sender: string, receiver: string): State {
    Fresh().(requests := {Request(sender, receiver)})
  }

  function WithFriendship(user1: string, user2: string): State {
    Fresh().(friendships := [Friendship(user1, user2)])
  }

  lemma SendFriendRequestSucceeds()
    ensures Respond(Fresh(), Sending, Andrew, Bobby).1
            == Payload(200, "Friend request sent successfully (from " + Andrew + " to " + Bobby + ")")
    ensures RelationOf(Respond(Fresh(), Sending, Andrew, Bobby).0, Andrew, Bobby) == Sent
  {
  }

  lemma CheckFriendRequestFound()
    ensures CheckRequestReply(WithRequest(Andrew, Bobby), Andrew, Bobby)
            == Payload(200, "Friend request found (from " + Andrew + " to " + Bobby + ")")
  {
  }

  lemma CheckFriendRequestNotFound()
    ensures CheckRequestReply(Fresh(), Andrew, Bobby)
            == Payload(404, "No friend request found (from " + Andrew + " to " + Bobby + ")")
  {
  }

  lemma CheckFriendshipFound()
    ensures CheckFriendshipReply(WithFriendship(Andrew, Bobby), Andrew, Bobby)
            == Payload(200, "Friendship found (between " + Andrew + " and " + Bobby + ")")
  {
  }

  lemma CheckFriendshipNotFound()
    ensures CheckFriendshipReply(Fresh(), Andrew, Bobby)
            == Payload(404, "No friendship found (between " + Andrew + " and " + Bobby + ")")
  {
  }

  /** Joe is stored in the second column of both rows and still gets both friends. */
  lemma GetAllFriendsUsernames()
    ensures var s := State({Andrew, Bobby, Joe}, {}, [Friendship(Andrew, Joe), Friendship(Bobby, Joe)]);
            && FriendsListReply(s, Joe).Success?
            && |FriendsListReply(s, Joe).value| == 2
            && Andrew in FriendsListReply(s, Joe).value
            && Bobby in FriendsListReply(s, Joe).value
  {
    var s := State({Andrew, Bobby, Joe}, {}, [Friendship(Andrew, Joe), Friendship(Bobby, Joe)]);
    assert Friendship(Andrew, Joe) in s.friendships && Friendship(Bobby, Joe) in s.friendships;
  }

  lemma GetAllFriendsUsernamesNoFriends()
    ensures FriendsListReply(Fresh(), Andrew) == Success([])
  {
    GetAllFriendsExact(Fresh(), Andrew);
  }

  lemma AcceptFriendRequestSucceeds()
    ensures Respond(WithRequest(Andrew, Bobby), Accepting, Andrew, Bobby).1
            == Payload(200, "Friend request accepted successfully (from " + Andrew + " accepted by " + Bobby + ")")
    ensures RelationOf(Respond(WithRequest(Andrew, Bobby), Accepting, Andrew, Bobby).0, Andrew, Bobby) == Friends
  {
  }

  lemma CancelFriendRequestSucceeds()
    ensures Respond(WithRequest(Andrew, Bobby), Canceling, Andrew, Bobby)
            == (Fresh(), Payload(200, "Friend request canceled successfully (from " + Andrew + " to " + Bobby + ")"))
  {
    assert {Request(Andrew, Bobby)} - {Request(Andrew, Bobby)} == {};
  }

  lemma DeclineFriendRequestSucceeds()
    ensures Respond(WithRequest(Andrew, Bobby), Declining, Andrew, Bobby)
            == (Fresh(), Payload(200, "Friend request declined successfully (from " + Andrew + " to " + Bobby + ")"))
  {
    assert {Request(Andrew, Bobby)} - {Request(Andrew, Bobby)} == {};
  }

  lemma UnfriendSucceeds()
    ensures Respond(WithFriendship(Andrew, Bobby), Unfriending, Andrew, Bobby)
            == (Fresh(), Payload(200, "Unfriend successfully done (" + Andrew + " unfriended " + Bobby + ")"))
  {
    assert DeleteByUsers([Friendship(Andrew, Bobby)], Andrew, Bobby) == [];
  }

  /** Every endpoint answers 404 for an unknown username in either argument position. */
  lemma UnknownUserEverywhere(op: Operation)
    ensures Respond(Fresh(), op, Missing, Bobby) == (Fresh(), Payload(404, "User with username " + Missing + " not found"))
    ensures Respond(Fresh(), op, Andrew, Missing) == (Fresh(), Payload(404, "User with username " + Missing + " not found"))
    ensures CheckRequestReply(Fresh(), Missing, Bobby) == Payload(404, "User with username " + Missing + " not found")
    ensures CheckRequestReply(Fresh(), Andrew, Missing) == Payload(404, "User with username " + Missing + " not found")
    ensures CheckFriendshipReply(Fresh(), Missing, Bobby) == Payload(404, "User with username " + Missing + " not found")
    ensures CheckFriendshipReply(Fresh(), Andrew, Missing) == Payload(404, "User with username " + Missing + " not found")
    ensures FriendsListReply(Fresh(), Missing) == Failure(Payload(404, "User with username " + Missing + " not found"))
  {
    UnknownUserRejectedFirst(Fresh(), op, Missing, Bobby);
    UnknownUserRejectedFirst(Fresh(), op, Andrew, Missing);
  }

  lemma SendFriendRequestToSelf()
    ensures Respond(Fresh(), Sending, Andrew, Andrew).1
            == Payload(400, "Cannot send a friend request to oneself (" + Andrew + ")")
  {
  }

  /** The row is stored as (andrew, bobby) and still blocks a request from bobby. */
  lemma SendFriendRequestAlreadyFriends()
    ensures Respond(WithFriendship(Andrew, Bobby), Sending, Bobby, Andrew).1
            == Payload(400, "Cannot send a friend request when already friends (from " + Bobby + " to " + Andrew + ")")
  {
    assert Friendship(Andrew, Bobby) in WithFriendship(Andrew, Bobby).friendships;
  }

  lemma SendFriendRequestAlreadyReceivingOne()
    ensures Respond(WithRequest(Bobby, Andrew), Sending, Andrew, Bobby).1
            == Payload(400, "Cannot send a friend request when having one already received (from " + Bobby + " to " + Andrew + ")")
  {
  }

  lemma SendFriendRequestAlreadySentOne()
    ensures Respond(WithRequest(Andrew, Bobby), Sending, Andrew, Bobby).1
            == Payload(400, "Cannot send a friend request twice (from " + Andrew + " to " + Bobby + ")")
  {
  }

  lemma AcceptingOnesOwnRequest()
    ensures Respond(WithRequest(Andrew, Bobby), Accepting, Bobby, Andrew).1
            == Payload(400, "Cannot accept one's own friend request (from " + Andrew + " to " + Bobby + ")")
  {
  }

  lemma AcceptFriendRequestDoesntExist()
    ensures Respond(Fresh(), Accepting, Andrew, Bobby).1
            == Payload(400, "Cannot accept friend request when no friend request found (from " + Andrew + " to " + Bobby + ")")
  {
  }

  lemma CancelingSomeoneElsesRequest()
    ensures Respond(WithRequest(Andrew, Bobby), Canceling, Bobby, Andrew).1
            == Payload(400, "Cannot cancel someone else's friend request (from " + Andrew + " to " + Bobby + ")")
  {
  }

  lemma CancelFriendRequestDoesntExist()
    ensures Respond(Fresh(), Canceling, Andrew, Bobby).1
            == Payload(400, "Cannot cancel friend request when no friend request found (from " + Andrew + " to " + Bobby + ")")
  {
  }

  lemma DecliningOnesOwnRequest()
    ensures Respond(WithRequest(Andrew, Bobby), Declining, Bobby, Andrew).1
            == Payload(400, "Cannot decline one's own friend request (from " + Andrew + " to " + Bobby + ")")
  {
  }

  lemma DeclineFriendRequestDoesntExist()
    ensures Respond(Fresh(), Declining, Andrew, Bobby).1
            == Payload(400, "Cannot decline friend request when no friend request found (from " + Andrew + " to " + Bobby + ")")
  {
  }

  lemma UnfriendFriendshipDoesntExist()
    ensures Respond(Fresh(), Unfriending, Andrew, Bobby).1
            == Payload(400, "Cannot unfriend when no friendship found (between " + Andrew + " and " + Bobby + ")")
  {
  }
}
