/** The api app's serializers that carry logic: the user representation with
    its computed `is_subscribed` field, and the tag representation. */
module Serializers {
  import opened Common
  import opened UserModels
  import opened RecipeModels

  /** `get_is_subscribed`: false for an anonymous requester, otherwise whether
      the query for edges from the requester to `obj` finds a row. */
  function IsSubscribed(follows: seq<Follow>, viewer: Option<UserId>, obj: UserId): (b: bool)
    ensures viewer.None? ==> !b
    ensures viewer.Some? ==> (b <==> Follow(viewer.value, obj) in follows)
  {
    if viewer.None? then false
    else
      var matching := Filter(follows, (e: Follow) => e.follower == viewer.value && e.author == obj);
      assert |matching| > 0 <==> Follow(viewer.value, obj) in follows by {
        if |matching| > 0 {
          assert matching[0] in matching;
        }
      }
      |matching| > 0
  }

  /** An edge in the other direction does not count: with only `obj`
      following the requester, the requester is not subscribed to `obj`. */
  lemma ReverseEdgeDoesNotCount(v: UserId, obj: UserId)
    requires v != obj
    ensures IsSubscribed([Follow(obj, v)], Some(obj), v)
    ensures !IsSubscribed([Follow(obj, v)], Some(v), obj)
  {
  }

  /** In a valid table nobody is subscribed to themself. */
  lemma NotSubscribedToSelf(users: map<UserId, User>, follows: seq<Follow>, u: UserId)
    requires ValidFollows(users, follows)
    ensures !IsSubscribed(follows, Some(u), u)
  {
  }

  /** Adding the edge makes the requester subscribed; deleting it makes
      them unsubscribed; other requesters and authors are unaffected. */
  lemma SubscribedAfterEdits(follows: seq<Follow>, v: UserId, a: UserId, w: UserId, b: UserId)
    requires (w, b) != (v, a)
    ensures IsSubscribed(follows + [Follow(v, a)], Some(v), a)
    ensures !IsSubscribed(RemoveFollow(follows, Follow(v, a)), Some(v), a)
    ensures IsSubscribed(follows + [Follow(v, a)], Some(w), b) == IsSubscribed(follows, Some(w), b)
    ensures IsSubscribed(RemoveFollow(follows, Follow(v, a)), Some(w), b) == IsSubscribed(follows, Some(w), b)
  {
    assert Follow(v, a) == (follows + [Follow(v, a)])[|follows|];
  }

  /** JSON values of the fields. */
  datatype JsonValue = JString(s: string) | JInt(i: int) | JBool(b: bool)

  const UserFields: seq<string> := ["email", "id", "username", "first_name", "last_name", "is_subscribed"]

  const TagFields: seq<string> := ["name", "slug", "color"]

  /** The names of a representation's fields, in order. */
  function FieldNames(rep: seq<(string, JsonValue)>): (names: seq<string>)
    ensures |names| == |rep|
    ensures forall i :: 0 <= i < |rep| ==> names[i] == rep[i].0
  {
    if rep == [] then [] else [rep[0].0] + FieldNames(rep[1..])
  }

  /** The representation of user `obj` shown to `viewer`. */
  function UserRepresentation(follows: seq<Follow>, viewer: Option<UserId>, obj: UserId, u: User): (rep: seq<(string, JsonValue)>)
    ensures FieldNames(rep) == UserFields
  {
    [("email", JString(u.email)), ("id", JInt(obj)), ("username", JString(u.username)),
     ("first_name", JString(u.firstName)), ("last_name", JString(u.lastName)),
     ("is_subscribed", JBool(IsSubscribed(follows, viewer, obj)))]
  }

  /** The representation of a tag. */
  function TagRepresentation(t: Tag): (rep: seq<(string, JsonValue)>)
    ensures FieldNames(rep) == TagFields
  {
    [("name", JString(t.name)), ("slug", JString(t.slug)), ("color", JString(t.color))]
  }

  /** The tag representation loses nothing: distinct tags look different. */
  lemma TagRepresentationInjective(t1: Tag, t2: Tag)
    requires TagRepresentation(t1) == TagRepresentation(t2)
    ensures t1 == t2
  {
    assert TagRepresentation(t1)[0] == TagRepresentation(t2)[0];
    assert TagRepresentation(t1)[1] == TagRepresentation(t2)[1];
    assert TagRepresentation(t1)[2] == TagRepresentation(t2)[2];
  }

  /** The user representation carries the id and every profile column, so
      two users it shows alike agree on all of them; the superuser flag is
      not shown. */
  lemma UserRepresentationDetermines(follows: seq<Follow>, viewer: Option<UserId>, a: UserId, u: User, b: UserId, w: User)
    requires UserRepresentation(follows, viewer, a, u) == UserRepresentation(follows, viewer, b, w)
    ensures a == b && u.email == w.email && u.username == w.username
    ensures u.firstName == w.firstName && u.lastName == w.lastName
    ensures UserRepresentation(follows, viewer, a, u.(isSuperuser := !u.isSuperuser)) == UserRepresentation(follows, viewer, a, u)
  {
    var r1, r2 := UserRepresentation(follows, viewer, a, u), UserRepresentation(follows, viewer, b, w);
    assert r1[0] == r2[0] && r1[1] == r2[1] && r1[2] == r2[2] && r1[3] == r2[3] && r1[4] == r2[4];
  }
}
