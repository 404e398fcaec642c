/** The users app's tables: `User` (an AbstractUser with unique username and
    email) and the directed `Follow` edge with its two database constraints. */
module UserModels {
  import opened Common

  type UserId = nat

  const UsernameMaxLength := 150
  const EmailMaxLength := 254
  const NameMaxLength := 150

  datatype User = User(
    username: string,
    email: string,
    firstName: string,
    lastName: string,
    isSuperuser: bool)

  /** The `is_admin` property. */
  function IsAdmin(u: User): bool {
    u.isSuperuser
  }

  /** `is_admin` is the superuser flag; the second clause is an example
      showing that setting the flag alone makes a user an administrator. */
  lemma IsAdminIsSuperuser(u: User)
    ensures IsAdmin(u) <==> u.isSuperuser
    ensures IsAdmin(u.(isSuperuser := true)) && !IsAdmin(u.(isSuperuser := false))
  {
  }

  predicate FieldLengthsOk(u: User) {
    && |u.username| <= UsernameMaxLength
    && |u.email| <= EmailMaxLength
    && |u.firstName| <= NameMaxLength
    && |u.lastName| <= NameMaxLength
  }

  /** The user table: column lengths, and `unique=True` on username and email. */
  predicate ValidUsers(users: map<UserId, User>) {
    && (forall id :: id in users ==> FieldLengthsOk(users[id]))
    && (forall a, b :: a in users && b in users && a != b ==>
          users[a].username != users[b].username && users[a].email != users[b].email)
  }

  datatype Follow = Follow(follower: UserId, author: UserId)

  /** The follow table: both ends exist (foreign keys), no edge from a user to
      themself (`restrict_self_follow`) and no pair twice (`unique_following`). */
  predicate ValidFollows(users: map<UserId, User>, follows: seq<Follow>) {
    && NoDuplicates(follows)
    && (forall i :: 0 <= i < |follows| ==> follows[i].follower != follows[i].author)
    && (forall i :: 0 <= i < |follows| ==> follows[i].follower in users && follows[i].author in users)
  }

  /** A follow edge can be added exactly when it is neither a self-edge nor
      already present (between existing users). */
  lemma {:induction false} AppendFollowKeepsValid(users: map<UserId, User>, follows: seq<Follow>, e: Follow)
    requires ValidFollows(users, follows)
    requires e.follower in users && e.author in users
    ensures ValidFollows(users, follows + [e]) <==> e.follower != e.author && e !in follows
  {
    var f := follows + [e];
    if e.follower != e.author && e !in follows {
      forall i, j | 0 <= i < j < |f| ensures f[i] != f[j] {
        if j == |follows| {
          assert f[i] == follows[i];
        } else {
          assert f[i] == follows[i] && f[j] == follows[j];
        }
      }
    }
    if e in follows {
      var k :| 0 <= k < |follows| && follows[k] == e;
      assert f[k] == f[|follows|];
    }
    assert f[|follows|] == e;
  }

  /** An example, kept as documentation: Follow is directed, so a valid
      table may hold (a, b) without (b, a). */
  lemma FollowIsDirected(u1: User, u2: User)
    requires u1.username != u2.username && u1.email != u2.email
    ensures var users := map[1 := u1, 2 := u2];
            ValidFollows(users, [Follow(1, 2)]) && Follow(2, 1) !in [Follow(1, 2)]
  {
  }

  /** `on_delete=CASCADE` on both foreign keys: deleting a user deletes every
      edge in which they are follower or author. */
  function FollowsWithout(follows: seq<Follow>, u: UserId): (r: seq<Follow>)
    ensures forall e :: e in r <==> e in follows && e.follower != u && e.author != u
  {
    Filter(follows, (e: Follow) => e.follower != u && e.author != u)
  }

  lemma FollowsWithoutKeepsValid(users: map<UserId, User>, follows: seq<Follow>, u: UserId)
    requires ValidFollows(users, follows)
    ensures ValidFollows(users - {u}, FollowsWithout(follows, u))
  {
    var r := FollowsWithout(follows, u);
    FilterNoDuplicates(follows, (e: Follow) => e.follower != u && e.author != u);
    forall i | 0 <= i < |r| ensures r[i].follower != r[i].author && r[i].follower in users - {u} && r[i].author in users - {u} {
      assert r[i] in r;
      var k :| 0 <= k < |follows| && follows[k] == r[i];
    }
  }

  /** Deleting a user keeps every other user's row and the table's uniqueness. */
  lemma DeleteUserKeepsValid(users: map<UserId, User>, u: UserId)
    requires ValidUsers(users)
    ensures ValidUsers(users - {u})
  {
  }

  /** Deleting the row of edge `e` (an unsubscribe). */
  function RemoveFollow(follows: seq<Follow>, e: Follow): (r: seq<Follow>)
    ensures forall f :: f in r <==> f in follows && f != e
  {
    Filter(follows, (f: Follow) => f != e)
  }

  lemma {:induction false} RemoveFollowAbsent(follows: seq<Follow>, e: Follow)
    requires e !in follows
    ensures RemoveFollow(follows, e) == follows
  {
    if follows != [] {
      RemoveFollowAbsent(follows[1..], e);
    }
  }

  /** Because edges are unique, deleting a present edge removes exactly one row. */
  lemma {:induction false} RemoveFollowOfPresent(follows: seq<Follow>, e: Follow)
    requires NoDuplicates(follows) && e in follows
    ensures |RemoveFollow(follows, e)| == |follows| - 1
  {
    var rest := follows[1..];
    assert NoDuplicates(rest);
    if follows[0] == e {
      assert e !in rest by {
        forall j | 0 <= j < |rest| ensures rest[j] != e {
          assert rest[j] == follows[j + 1];
        }
      }
      RemoveFollowAbsent(rest, e);
    } else {
      assert e in rest;
      RemoveFollowOfPresent(rest, e);
    }
  }

  lemma RemoveFollowKeepsValid(users: map<UserId, User>, follows: seq<Follow>, e: Follow)
    requires ValidFollows(users, follows)
    ensures ValidFollows(users, RemoveFollow(follows, e))
  {
    var r := RemoveFollow(follows, e);
    FilterNoDuplicates(follows, (f: Follow) => f != e);
    forall i | 0 <= i < |r| ensures r[i].follower != r[i].author && r[i].follower in users && r[i].author in users {
      assert r[i] in r;
      var k :| 0 <= k < |follows| && follows[k] == r[i];
    }
  }
}
