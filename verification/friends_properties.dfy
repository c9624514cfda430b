/**
 Properties of sequences of relationship calls: what a query answers after a
 transition, how a second call is rejected, and which round trips bring the
 database back to where it started.
 */
module FriendsProperties {
  import opened Wrappers
  import opened FriendshipsRepository
  import opened FriendsService

  /** No username occurs twice. */
  ghost predicate Distinct(names: seq<string>) {
    forall i, j :: 0 <= i < j < |names| ==> names[i] != names[j]
  }

  /** After a request is sent it can be seen in its own direction only, and nobody is friends yet. */
  lemma SendThenCheck(s: State, a: string, b: string)
    requires SendFriendRequest(s, a, b).Success?
    ensures var s' := SendFriendRequest(s, a, b).value;
            && CheckFriendRequest(s', a, b) == Success(true)
            && CheckFriendRequest(s', b, a) == Success(false)
            && CheckFriendship(s', a, b) == Success(false)
  {
  }

  /** Sending the same request twice: the second call is refused as a repeat. */
  lemma SendTwice(s: State, a: string, b: string)
    requires SendFriendRequest(s, a, b).Success?
    ensures var s' := SendFriendRequest(s, a, b).value;
            SendFriendRequest(s', a, b) == Failure(Refused(SentTwice, a, b))
  {
  }

  /** Answering a pending request with one of one's own is refused, naming the pending one. */
  lemma SendThenReverse(s: State, a: string, b: string)
    requires SendFriendRequest(s, a, b).Success?
    ensures var s' := SendFriendRequest(s, a, b).value;
            SendFriendRequest(s', b, a) == Failure(Refused(AlreadyReceived, a, b))
  {
  }

  /** A request to oneself is refused whatever the database holds. */
  lemma SelfRequestRefused(s: State, a: string)
    requires a in s.users
    ensures SendFriendRequest(s, a, a) == Failure(Refused(ToOneself, a, a))
  {
  }

  /** Accepting a sent request makes the pair friends and consumes the request. */
  lemma SendThenAccept(s: State, a: string, b: string)
    requires SendFriendRequest(s, a, b).Success?
    ensures var s' := SendFriendRequest(s, a, b).value;
            && AcceptFriendRequest(s', a, b).Success?
            && CheckFriendship(AcceptFriendRequest(s', a, b).value, a, b) == Success(true)
            && CheckFriendRequest(AcceptFriendRequest(s', a, b).value, a, b) == Success(false)
  {
  }

  /**
   With a request pending from a to b, calls that give b the sender's role are
   refused with the role error naming the request as it really runs.
   */
  lemma RolesSwapped(s: State, a: string, b: string)
    requires SendFriendRequest(s, a, b).Success?
    ensures var s' := SendFriendRequest(s, a, b).value;
            && AcceptFriendRequest(s', b, a) == Failure(Refused(AcceptOwn, a, b))
            && CancelFriendRequest(s', b, a) == Failure(Refused(CancelOthers, a, b))
            && DeclineFriendRequest(s', b, a) == Failure(Refused(DeclineOwn, a, b))
  {
  }

  /** With no request either way, accept, cancel and decline are refused as missing. */
  lemma NoRequestEitherWay(s: State, a: string, b: string)
    requires a in s.users && b in s.users
    requires Request(a, b) !in s.requests && Request(b, a) !in s.requests
    ensures AcceptFriendRequest(s, a, b) == Failure(Refused(AcceptMissing, a, b))
    ensures CancelFriendRequest(s, a, b) == Failure(Refused(CancelMissing, a, b))
    ensures DeclineFriendRequest(s, a, b) == Failure(Refused(DeclineMissing, a, b))
  {
  }

  /** Canceling or declining a request just sent restores the database exactly. */
  lemma WithdrawUndoesSend(s: State, a: string, b: string)
    requires SendFriendRequest(s, a, b).Success?
    ensures var s' := SendFriendRequest(s, a, b).value;
            && CancelFriendRequest(s', a, b) == Success(s)
            && DeclineFriendRequest(s', a, b) == Success(s)
  {
    var s' := SendFriendRequest(s, a, b).value;
    assert s'.requests - {Request(a, b)} == s.requests;
  }

  /**
   Request, accept, unfriend: the pair goes through every state and the
   database comes back exactly as it was, so the same request can be sent again.
   */
  lemma FriendshipLifecycle(s: State, a: string, b: string)
    requires SendFriendRequest(s, a, b).Success?
    ensures var sent := SendFriendRequest(s, a, b).value;
            var friends := AcceptFriendRequest(sent, a, b).value;
            && RelationOf(sent, a, b) == Sent
            && RelationOf(friends, a, b) == Friends
            && Unfriend(friends, a, b) == Success(s)
            && Unfriend(friends, b, a) == Success(s)
  {
    var sent := SendFriendRequest(s, a, b).value;
    assert sent.requests - {Request(a, b)} == s.requests;
    var row := Friendship(a, b);
    DeleteAppend(s.friendships, [row], a, b);
    DeleteAppend(s.friendships, [row], b, a);
    DeleteAbsentPair(s.friendships, a, b);
    DeleteAbsentPair(s.friendships, b, a);
    assert DeleteByUsers([row], a, b) == [];
    assert DeleteByUsers([row], b, a) == [];
    assert s.friendships + [] == s.friendships;
  }

  /** Unfriending between friends succeeds; between non-friends it is refused. */
  lemma UnfriendNeedsFriendship(s: State, a: string, b: string)
    requires a in s.users && b in s.users
    ensures Unfriend(s, a, b).Success? <==> CheckFriendship(s, a, b) == Success(true)
    ensures CheckFriendship(s, a, b) == Success(false) ==>
              Unfriend(s, a, b) == Failure(Refused(UnfriendMissing, a, b))
  {
  }

  /** Unfriending names an unordered pair: either friend gets the same answer and the same database. */
  lemma UnfriendSymmetric(s: State, a: string, b: string)
    ensures Unfriend(s, a, b).Success? == Unfriend(s, b, a).Success?
    ensures Unfriend(s, a, b).Success? ==> Unfriend(s, a, b).value == Unfriend(s, b, a).value
  {
    ExistsByUsersSymmetric(s.friendships, a, b);
    DeleteByUsersSymmetric(s.friendships, a, b);
  }

  /** The friendship query does not care which user is named first. */
  lemma CheckFriendshipSymmetric(s: State, a: string, b: string)
    requires a in s.users && b in s.users
    ensures CheckFriendship(s, a, b) == CheckFriendship(s, b, a)
  {
    ExistsByUsersSymmetric(s.friendships, a, b);
  }

  /** In a table with one row per pair, the partners of a user are all different. */
  lemma {:induction false} PartnersDistinct(rows: seq<Friendship>, u: string)
    requires forall f :: f in rows ==> Mentions(f, u)
    requires Unique(rows)
    ensures Distinct(Partners(rows, u))
  {
    if rows != [] {
      var head, rest := rows[0], rows[1..];
      assert Unique(rest) by {
        forall i, j | 0 <= i < j < |rest|
          ensures !Involves(rest[j], rest[i].user1, rest[i].user2)
        {
          assert rest[i] == rows[i + 1] && rest[j] == rows[j + 1];
        }
      }
      PartnersDistinct(rest, u);
      var tail := Partners(rest, u);
      var v := Partner(head, u);
      assert head in rows && Mentions(head, u);
      assert head == Friendship(u, v) || head == Friendship(v, u);
      forall w | w in tail ensures w != v {
        var g := if Friendship(u, w) in rest then Friendship(u, w) else Friendship(w, u);
        assert g in rest;
        var k :| 0 <= k < |rest| && rest[k] == g;
        assert rows[k + 1] == g;
      }
      var names := [v] + tail;
      forall i, j | 0 <= i < j < |names| ensures names[i] != names[j] {
        if i == 0 {
          assert names[j] == tail[j - 1];
        } else {
          assert names[i] == tail[i - 1] && names[j] == tail[j - 1];
        }
      }
    }
  }

  /**
   The friends list of a user in a valid database names each friend exactly
   once, whichever column the user was stored in, and is empty when the user
   has no friends.
   */
  lemma GetAllFriendsExact(s: State, u: string)
    requires Valid(s)
    requires u in s.users
    ensures GetAllFriends(s, u).Success?
    ensures Distinct(GetAllFriends(s, u).value)
    ensures forall v :: v in GetAllFriends(s, u).value <==> CheckFriendship(s, u, v) == Success(true)
    ensures GetAllFriends(s, u).value == [] <==> forall v :: RelationOf(s, u, v) != Friends
  {
    var found := FindAllByUser(s.friendships, u);
    FilterUnique(s.friendships, f => Mentions(f, u));
    PartnersDistinct(found, u);
    var names := GetAllFriends(s, u).value;
    if names != [] {
      assert names[0] in names;
    }
  }
}
