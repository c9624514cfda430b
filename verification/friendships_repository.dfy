/**
 The friendship table of the user service and the three queries its repository
 adds to plain row storage. A row names two users in two columns; every query
 treats the row as the unordered pair of those users.
 */
module FriendshipsRepository {

  /** One stored row: the users in the `user1` and `user2` columns. */
  datatype Friendship = Friendship(user1: string, user2: string)

  /** The row relates the unordered pair {a, b}, in whichever column order it was stored. */
  predicate Involves(f: Friendship, a: string, b: string) {
    (f.user1 == a && f.user2 == b) || (f.user1 == b && f.user2 == a)
  }

  /** The row has `u` in one of its two columns. */
  predicate Mentions(f: Friendship, u: string) {
    f.user1 == u || f.user2 == u
  }

  /** The rows satisfying `keep`, in table order; the shape of a WHERE clause. */
  function Filter(rows: seq<Friendship>, keep: Friendship -> bool): (kept: seq<Friendship>)
    ensures |kept| <= |rows|
    ensures forall f :: f in kept <==> f in rows && keep(f)
  {
    if rows == [] then []
    else
      assert rows == [rows[0]] + rows[1..];
      (if keep(rows[0]) then [rows[0]] else []) + Filter(rows[1..], keep)
  }

  /** Filtering keeps every kept row as many times as the table holds it. */
  lemma {:induction false} FilterKeepsCounts(rows: seq<Friendship>, keep: Friendship -> bool, f: Friendship)
    requires keep(f)
    ensures multiset(Filter(rows, keep))[f] == multiset(rows)[f]
  {
    if rows != [] {
      assert rows == [rows[0]] + rows[1..];
      FilterKeepsCounts(rows[1..], keep, f);
    }
  }

  /** The number of rows relating {a, b}: the COUNT of the existence query. */
  function CountByUsers(rows: seq<Friendship>, a: string, b: string): (n: nat)
    ensures n <= |rows|
    ensures n > 0 <==> Friendship(a, b) in rows || Friendship(b, a) in rows
  {
    if rows == [] then 0
    else
      assert rows == [rows[0]] + rows[1..];
      (if Involves(rows[0], a, b) then 1 else 0) + CountByUsers(rows[1..], a, b)
  }

  /** existsByUsers: some row is (a, b) or (b, a). */
  function ExistsByUsers(rows: seq<Friendship>, a: string, b: string): (found: bool)
    ensures found <==> Friendship(a, b) in rows || Friendship(b, a) in rows
  {
    CountByUsers(rows, a, b) > 0
  }

  /** deleteByUsers: drop every row relating {a, b}, whichever column order it has. */
  function DeleteByUsers(rows: seq<Friendship>, a: string, b: string): (kept: seq<Friendship>)
    ensures |kept| == |rows| - CountByUsers(rows, a, b)
    ensures forall f :: f in kept <==> f in rows && !Involves(f, a, b)
    ensures forall f :: !Involves(f, a, b) ==> multiset(kept)[f] == multiset(rows)[f]
  {
    DeleteCount(rows, a, b);
    forall f | !Involves(f, a, b) {
      FilterKeepsCounts(rows, f => !Involves(f, a, b), f);
    }
    Filter(rows, f => !Involves(f, a, b))
  }

  /** findAllByUser: the rows with `u` in either column. */
  function FindAllByUser(rows: seq<Friendship>, u: string): (found: seq<Friendship>)
    ensures forall f :: f in found <==> f in rows && Mentions(f, u)
    ensures forall f :: Mentions(f, u) ==> multiset(found)[f] == multiset(rows)[f]
  {
    forall f | Mentions(f, u) {
      FilterKeepsCounts(rows, f => Mentions(f, u), f);
    }
    Filter(rows, f => Mentions(f, u))
  }

  lemma {:induction false} DeleteCount(rows: seq<Friendship>, a: string, b: string)
    ensures |Filter(rows, f => !Involves(f, a, b))| == |rows| - CountByUsers(rows, a, b)
  {
    if rows != [] {
      DeleteCount(rows[1..], a, b);
    }
  }

  /** At most one row per unordered pair of users. */
  ghost predicate Unique(rows: seq<Friendship>) {
    forall i, j :: 0 <= i < j < |rows| ==> !Involves(rows[j], rows[i].user1, rows[i].user2)
  }

  lemma ExistsByUsersSymmetric(rows: seq<Friendship>, a: string, b: string)
    ensures ExistsByUsers(rows, a, b) == ExistsByUsers(rows, b, a)
  {
  }

  /** After deleteByUsers(a, b) no row relates the pair, asked in either order. */
  lemma DeleteRemovesPair(rows: seq<Friendship>, a: string, b: string)
    ensures !ExistsByUsers(DeleteByUsers(rows, a, b), a, b)
    ensures !ExistsByUsers(DeleteByUsers(rows, a, b), b, a)
  {
  }

  /** Deleting a pair that has no row leaves the table as it was. */
  lemma {:induction false} DeleteAbsentPair(rows: seq<Friendship>, a: string, b: string)
    requires !ExistsByUsers(rows, a, b)
    ensures DeleteByUsers(rows, a, b) == rows
  {
    if rows != [] {
      assert rows == [rows[0]] + rows[1..];
      DeleteAbsentPair(rows[1..], a, b);
    }
  }

  lemma DeleteIdempotent(rows: seq<Friendship>, a: string, b: string)
    ensures DeleteByUsers(DeleteByUsers(rows, a, b), a, b) == DeleteByUsers(rows, a, b)
  {
    DeleteRemovesPair(rows, a, b);
    DeleteAbsentPair(DeleteByUsers(rows, a, b), a, b);
  }

  lemma {:induction false} FilterAppend(xs: seq<Friendship>, ys: seq<Friendship>, keep: Friendship -> bool)
    ensures Filter(xs + ys, keep) == Filter(xs, keep) + Filter(ys, keep)
  {
    if xs == [] {
      assert xs + ys == ys;
    } else {
      var joined := xs + ys;
      assert joined != [] && joined[0] == xs[0];
      assert joined[1..] == xs[1..] + ys;
      FilterAppend(xs[1..], ys, keep);
      var head := if keep(xs[0]) then [xs[0]] else [];
      calc {
        Filter(joined, keep);
        head + Filter(xs[1..] + ys, keep);
        head + (Filter(xs[1..], keep) + Filter(ys, keep));
        (head + Filter(xs[1..], keep)) + Filter(ys, keep);
        Filter(xs, keep) + Filter(ys, keep);
      }
    }
  }

  /** Two conditions that agree on every row keep the same rows. */
  lemma {:induction false} FilterExt(rows: seq<Friendship>, keep: Friendship -> bool, keep': Friendship -> bool)
    requires forall f :: keep(f) == keep'(f)
    ensures Filter(rows, keep) == Filter(rows, keep')
  {
    if rows != [] {
      FilterExt(rows[1..], keep, keep');
    }
  }

  /** deleteByUsers(a, b) and deleteByUsers(b, a) leave the same table. */
  lemma DeleteByUsersSymmetric(rows: seq<Friendship>, a: string, b: string)
    ensures DeleteByUsers(rows, a, b) == DeleteByUsers(rows, b, a)
  {
    FilterExt(rows, f => !Involves(f, a, b), f => !Involves(f, b, a));
  }

  /** Deleting from a table split in two deletes from each part. */
  lemma DeleteAppend(xs: seq<Friendship>, ys: seq<Friendship>, a: string, b: string)
    ensures DeleteByUsers(xs + ys, a, b) == DeleteByUsers(xs, a, b) + DeleteByUsers(ys, a, b)
  {
    FilterAppend(xs, ys, f => !Involves(f, a, b));
  }

  /** Keeping a subset of the rows keeps at most one row per pair. */
  lemma {:induction false} FilterUnique(rows: seq<Friendship>, keep: Friendship -> bool)
    requires Unique(rows)
    ensures Unique(Filter(rows, keep))
  {
    if rows != [] {
      var head, rest := rows[0], rows[1..];
      assert Unique(rest) by {
        forall i, j | 0 <= i < j < |rest|
          ensures !Involves(rest[j], rest[i].user1, rest[i].user2)
        {
          assert rest[i] == rows[i + 1] && rest[j] == rows[j + 1];
        }
      }
      FilterUnique(rest, keep);
      var tail := Filter(rest, keep);
      assert Fresh: forall g :: g in rest ==> !Involves(g, head.user1, head.user2) by {
        forall g | g in rest ensures !Involves(g, head.user1, head.user2) {
          var k :| 0 <= k < |rest| && rest[k] == g;
          assert rows[k + 1] == g;
        }
      }
      if keep(head) {
        var kept := [head] + tail;
        forall i, j | 0 <= i < j < |kept|
          ensures !Involves(kept[j], kept[i].user1, kept[i].user2)
        {
          if i > 0 {
            assert kept[i] == tail[i - 1] && kept[j] == tail[j - 1];
          } else {
            assert kept[j] == tail[j - 1];
            assert kept[j] in rest;
          }
        }
      }
    }
  }

  /** Appending a row for a pair with no row keeps the table unique. */
  lemma AppendUnique(rows: seq<Friendship>, f: Friendship)
    requires Unique(rows)
    requires !ExistsByUsers(rows, f.user1, f.user2)
    ensures Unique(rows + [f])
  {
    var grown := rows + [f];
    forall i, j | 0 <= i < j < |grown|
      ensures !Involves(grown[j], grown[i].user1, grown[i].user2)
    {
      if j == |rows| {
        assert grown[i] in rows;
      }
    }
  }
}
