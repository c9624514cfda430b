/**
 The relationship engine seen per pair of users: a reference transition table
 over the derived relation, and the lemmas that tie each mutating operation of
 the service to it, keep the database invariant, and leave every other pair
 untouched.
 */
module FriendsStateMachine {
  import opened Wrappers
  import opened FriendshipsRepository
  import opened FriendsService

  /** The five operations that change relationships, named by what the caller does. */
  datatype Operation = Sending | Accepting | Canceling | Declining | Unfriending

  /** The service call for `op`, with its two arguments in their declared order. */
  function Apply(s: State, op: Operation, first: string, second: string): Result<State, Rejection> {
    match op
    case Sending => SendFriendRequest(s, first, second)
    case Accepting => AcceptFriendRequest(s, first, second)
    case Canceling => CancelFriendRequest(s, first, second)
    case Declining => DeclineFriendRequest(s, first, second)
    case Unfriending => Unfriend(s, first, second)
  }

  /**
   The transition table of the pair: given how `first` stands towards `second`,
   the relation after the call, or the rejection it gets. The request-based
   operations read `first` as the sender and `second` as the receiver.
   */
  function Expected(op: Operation, first: string, second: string, rel: Relation): Result<Relation, Rejection> {
    match op
    case Sending =>
      if first == second then Failure(Refused(ToOneself, first, first))
      else (
        match rel
        case Strangers => Success(Sent)
        case Friends => Failure(Refused(AlreadyFriends, first, second))
        case Received => Failure(Refused(AlreadyReceived, second, first))
        case Sent => Failure(Refused(SentTwice, first, second)))
    case Accepting =>
      (match rel
       case Sent => Success(Friends)
       case Received => Failure(Refused(AcceptOwn, second, first))
       case _ => Failure(Refused(AcceptMissing, first, second)))
    case Canceling =>
      (match rel
       case Sent => Success(Strangers)
       case Received => Failure(Refused(CancelOthers, second, first))
       case _ => Failure(Refused(CancelMissing, first, second)))
    case Declining =>
      (match rel
       case Sent => Success(Strangers)
       case Received => Failure(Refused(DeclineOwn, second, first))
       case _ => Failure(Refused(DeclineMissing, first, second)))
    case Unfriending =>
      (match rel
       case Friends => Success(Strangers)
       case _ => Failure(Refused(UnfriendMissing, first, second)))
  }

  /** {x, y} and {a, b} are the same unordered pair. */
  predicate SamePair(x: string, y: string, a: string, b: string) {
    (x == a && y == b) || (x == b && y == a)
  }

  /** In a valid database the relation read from the other side is the converse one. */
  lemma RelationConverse(s: State, a: string, b: string)
    requires Valid(s)
    ensures RelationOf(s, b, a) == Converse(RelationOf(s, a, b))
  {
    ExistsByUsersSymmetric(s.friendships, a, b);
  }

  /** Every call names its unknown user, the first argument first, before anything else is checked. */
  lemma UnknownUserRejectedFirst(s: State, op: Operation, first: string, second: string)
    ensures first !in s.users ==> Apply(s, op, first, second) == Failure(UserNotFound(first))
    ensures first in s.users && second !in s.users ==>
              Apply(s, op, first, second) == Failure(UserNotFound(second))
    ensures first in s.users && second in s.users && Apply(s, op, first, second).Failure? ==>
              Apply(s, op, first, second).error.Refused?
  {
  }

  /** Between known users of a valid database every operation does what the table says. */
  lemma ApplyFollowsTable(s: State, op: Operation, first: string, second: string)
    requires Valid(s)
    requires first in s.users && second in s.users
    ensures var r := Apply(s, op, first, second);
            var e := Expected(op, first, second, RelationOf(s, first, second));
            && r.Success? == e.Success?
            && (r.Success? ==> r.value.users == s.users && RelationOf(r.value, first, second) == e.value)
            && (r.Failure? ==> r.error == e.error)
  {
    var rel := RelationOf(s, first, second);
    if first == second {
      assert Request(first, first) !in s.requests;
      assert !ExistsByUsers(s.friendships, first, first);
      assert rel == Strangers;
    }
    match op
    case Sending =>
    case Accepting =>
    case Canceling =>
    case Declining =>
    case Unfriending =>
  }

  /** An operation on {a, b} leaves the relation of every other pair as it was. */
  lemma ApplyIsLocal(s: State, op: Operation, a: string, b: string, x: string, y: string)
    requires Apply(s, op, a, b).Success?
    requires !SamePair(x, y, a, b)
    ensures RelationOf(Apply(s, op, a, b).value, x, y) == RelationOf(s, x, y)
  {
    var s' := Apply(s, op, a, b).value;
    if op == Unfriending {
      assert ExistsByUsers(s'.friendships, x, y) == ExistsByUsers(s.friendships, x, y) by {
        assert !Involves(Friendship(x, y), a, b) && !Involves(Friendship(y, x), a, b);
      }
    }
  }

  /** Only unfriending removes a friendship: every other successful operation keeps them all. */
  lemma OnlyUnfriendRemovesFriendships(s: State, op: Operation, a: string, b: string, x: string, y: string)
    requires op != Unfriending
    requires Apply(s, op, a, b).Success?
    requires ExistsByUsers(s.friendships, x, y)
    ensures ExistsByUsers(Apply(s, op, a, b).value.friendships, x, y)
  {
  }

  lemma SendPreservesValid(s: State, sender: string, receiver: string)
    requires Valid(s)
    requires SendFriendRequest(s, sender, receiver).Success?
    ensures Valid(SendFriendRequest(s, sender, receiver).value)
  {
  }

  lemma AcceptPreservesValid(s: State, sender: string, receiver: string)
    requires Valid(s)
    requires AcceptFriendRequest(s, sender, receiver).Success?
    ensures Valid(AcceptFriendRequest(s, sender, receiver).value)
  {
    var row := Friendship(sender, receiver);
    AppendUnique(s.friendships, row);
    var s' := AcceptFriendRequest(s, sender, receiver).value;
    forall q | q in s'.requests
      ensures !ExistsByUsers(s'.friendships, q.sender, q.receiver)
    {
      assert !Involves(row, q.sender, q.receiver);
    }
  }

  lemma CancelPreservesValid(s: State, sender: string, receiver: string)
    requires Valid(s)
    requires CancelFriendRequest(s, sender, receiver).Success?
    ensures Valid(CancelFriendRequest(s, sender, receiver).value)
  {
  }

  lemma DeclinePreservesValid(s: State, sender: string, receiver: string)
    requires Valid(s)
    requires DeclineFriendRequest(s, sender, receiver).Success?
    ensures Valid(DeclineFriendRequest(s, sender, receiver).value)
  {
  }

  lemma UnfriendPreservesValid(s: State, unfriender: string, unfriended: string)
    requires Valid(s)
    requires Unfriend(s, unfriender, unfriended).Success?
    ensures Valid(Unfriend(s, unfriender, unfriended).value)
  {
    var rows := DeleteByUsers(s.friendships, unfriender, unfriended);
    FilterUnique(s.friendships, f => !Involves(f, unfriender, unfriended));
    assert Unique(rows);
    forall q | q in s.requests
      ensures !ExistsByUsers(rows, q.sender, q.receiver)
    {
      assert !ExistsByUsers(s.friendships, q.sender, q.receiver);
    }
  }

  /** Every reachable database is valid: each successful operation keeps the invariant. */
  lemma ApplyPreservesValid(s: State, op: Operation, first: string, second: string)
    requires Valid(s)
    requires Apply(s, op, first, second).Success?
    ensures Valid(Apply(s, op, first, second).value)
  {
    match op
    case Sending => SendPreservesValid(s, first, second);
    case Accepting => AcceptPreservesValid(s, first, second);
    case Canceling => CancelPreservesValid(s, first, second);
    case Declining => DeclinePreservesValid(s, first, second);
    case Unfriending => UnfriendPreservesValid(s, first, second);
  }
}
