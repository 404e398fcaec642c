/** The REST views of the api app: the ingredient search, the recipe list
    filters, the permission choice of the recipe view set, the favourite and
    shopping-cart actions, the shopping-list download and the subscription
    views. An anonymous requester is `None`; an HTTP answer is a `Status`. */
module ApiViews {
  import opened Common
  import opened Strings
  import opened SortedItems
  import opened UserModels
  import opened RecipeModels
  import opened CartModels
  import opened Database
  import opened ShoppingList
  import opened Serializers

  datatype Status =
    | Ok200
    | Created201
    | NoContent204
    | BadRequest400
    | Unauthorized401
    | NotFound404
    | MethodNotAllowed405
    | ServerError500

  /** The request methods the two membership actions distinguish. */
  datatype Method = Post | Delete | OtherMethod

  // ---------------------------------------------------------------------
  // Ingredient search
  // ---------------------------------------------------------------------

  /** The row test of the ingredient search: the name starts with the keyword
      ignoring case (`istartswith`, with `fold` the database's case folding),
      or contains it exactly (`contains`). */
  function SearchTest(keyword: string, fold: string -> string): (test: Ingredient -> bool)
  {
    (x: Ingredient) => StartsWith(fold(x.name), fold(keyword)) || Contains(x.name, keyword)
  }

  /** The ingredients the search returns, in catalog order. */
  function IngredientSearch(ingredients: seq<Ingredient>, keyword: string, fold: string -> string): (r: seq<Ingredient>)
    ensures forall x :: x in r <==> x in ingredients && (StartsWith(fold(x.name), fold(keyword)) || Contains(x.name, keyword))
  {
    Filter(ingredients, SearchTest(keyword, fold))
  }

  /** The `name` query parameter defaults to the empty keyword. */
  function IngredientList(ingredients: seq<Ingredient>, name: Option<string>, fold: string -> string): (r: seq<Ingredient>)
    ensures name.Some? ==> r == IngredientSearch(ingredients, name.value, fold)
  {
    IngredientSearch(ingredients, if name.Some? then name.value else "", fold)
  }

  /** Without a keyword every ingredient is listed, in order. */
  lemma {:induction false} NoKeywordListsAll(ingredients: seq<Ingredient>, fold: string -> string)
    ensures IngredientList(ingredients, None, fold) == ingredients
  {
    if ingredients != [] {
      NoKeywordListsAll(ingredients[1..], fold);
      ContainsEmptyAndPrefix(ingredients[0].name, "");
    }
  }

  /** A name that starts with the keyword exactly as typed is always found,
      whatever the case folding. */
  lemma ExactPrefixFound(ingredients: seq<Ingredient>, keyword: string, fold: string -> string, x: Ingredient)
    requires x in ingredients && StartsWith(x.name, keyword)
    ensures x in IngredientSearch(ingredients, keyword, fold)
  {
    ContainsEmptyAndPrefix(x.name, keyword);
  }

  /** The results keep the catalog's order by name. */
  lemma SearchKeepsNameOrder(cat: Catalog, keyword: string, fold: string -> string)
    requires cat.Valid()
    ensures var r := IngredientSearch(cat.ingredients, keyword, fold);
            forall i, j :: 0 <= i < j < |r| ==> Less(r[i].name, r[j].name)
  {
    FilterKeepsOrder(cat.ingredients, SearchTest(keyword, fold), (a: Ingredient, b: Ingredient) => Less(a.name, b.name));
  }

  // ---------------------------------------------------------------------
  // Permissions of the recipe view set
  // ---------------------------------------------------------------------

  /** Just enough of Python's values to compare an action name with a tuple. */
  datatype PyValue = Str(s: string) | Tuple(items: seq<PyValue>)

  datatype Permission = IsAuthenticated | IsAuthorAdminOrReadOnly

  const ReadCreateActions := Tuple([Str("list"), Str("retrieve"), Str("create")])

  /** `get_permissions` as written: the action name is compared for equality
      with a tuple, which no string equals. */
  function GetPermissions(action: string): (p: seq<Permission>)
    ensures p == [IsAuthorAdminOrReadOnly]
  {
    if Str(action) == ReadCreateActions then [IsAuthenticated] else [IsAuthorAdminOrReadOnly]
  }

  /** `get_permissions` with the evident membership test. */
  function GetPermissionsIntended(action: string): (p: seq<Permission>)
    ensures p == [IsAuthenticated] <==> action in ["list", "retrieve", "create"]
    ensures p == [IsAuthorAdminOrReadOnly] <==> action !in ["list", "retrieve", "create"]
  {
    if Str(action) in ReadCreateActions.items then [IsAuthenticated] else [IsAuthorAdminOrReadOnly]
  }

  /** The two differ exactly on the three named actions. */
  lemma PermissionsDiffer(action: string)
    ensures GetPermissions(action) != GetPermissionsIntended(action) <==> action in ["list", "retrieve", "create"]
  {
  }

  // ---------------------------------------------------------------------
  // The recipe list filters
  // ---------------------------------------------------------------------

  /** The query parameters: `author` (an id), `is_favorited`,
      `is_in_shopping_cart` (arbitrary strings) and the repeated `tags`. */
  datatype QueryParams = QueryParams(
    author: Option<int>,
    isFavorited: Option<string>,
    isInShoppingCart: Option<string>,
    tags: seq<string>)

  /** A flag parameter is on when present and non-empty: Python truthiness of
      a string, so "0" and "false" turn it on too. */
  predicate Truthy(v: Option<string>) {
    v.Some? && v.value != ""
  }

  /** How the view fails: 404 for an unknown author; an AttributeError when an
      anonymous requester asks for favourites or cart; a FieldError when tags
      are filtered on the empty cart queryset (both become a 500). */
  datatype QueryError = AuthorNotFound | AnonymousAttribute | CartTagsField

  /** The recipe carries a tag whose slug is among `slugs`. */
  predicate HasTag(tags: map<TagId, Tag>, x: Recipe, slugs: seq<string>) {
    exists t :: t in x.tags && t in tags && tags[t].slug in slugs
  }

  predicate UnknownAuthor(users: map<UserId, User>, author: Option<int>) {
    author.Some? && (author.value < 0 || author.value !in users)
  }

  /** `get_queryset` as written: each active filter REPLACES the queryset
      built so far, and the tags filter narrows whatever queryset is left. */
  function RecipeQuery(db: Db, viewer: Option<UserId>, p: QueryParams): (r: Result<seq<Recipe>, QueryError>)
    reads db
    ensures r.Ok? ==> forall x :: x in r.value ==> x in db.recipes
  {
    if UnknownAuthor(db.users, p.author) then Err(AuthorNotFound)
    else
      var all := db.recipes;
      var byAuthor := if p.author.Some? then Filter(all, (x: Recipe) => x.author == p.author.value) else all;
      if Truthy(p.isFavorited) && viewer.None? then Err(AnonymousAttribute)
      else
        var favorites := db.favorites;
        var byFavorite := if Truthy(p.isFavorited) then Filter(all, (x: Recipe) => (viewer.value, x.id) in favorites) else byAuthor;
        if Truthy(p.isInShoppingCart) && viewer.None? then Err(AnonymousAttribute)
        else
          var noCart := Truthy(p.isInShoppingCart) && viewer.value !in db.carts;
          var byCart :=
            if !Truthy(p.isInShoppingCart) then byFavorite
            else if noCart then []
            else CartJoin(all, db.cartLinks, db.carts[viewer.value]);
          if p.tags != [] && noCart then Err(CartTagsField)
          else
            var tags := db.tags;
            Ok(if p.tags == [] then byCart else Dedup(Filter(byCart, (x: Recipe) => HasTag(tags, x, p.tags))))
  }

  /** The recipe is in the viewer's cart. */
  predicate InCartOf(db: Db, viewer: Option<UserId>, x: Recipe)
    reads db
  {
    viewer.Some? && viewer.value in db.carts && x.id in Contents(db.cartLinks, db.carts[viewer.value])
  }

  /** What `RecipeQuery` selects before the tags filter: only the LAST active
      filter counts. */
  predicate LastFilterSelects(db: Db, viewer: Option<UserId>, p: QueryParams, x: Recipe)
    reads db
  {
    if Truthy(p.isInShoppingCart) then InCartOf(db, viewer, x)
    else if Truthy(p.isFavorited) then viewer.Some? && (viewer.value, x.id) in db.favorites
    else if p.author.Some? then x.author == p.author.value
    else true
  }

  /** When each error happens. */
  lemma RecipeQueryErrors(db: Db, viewer: Option<UserId>, p: QueryParams)
    ensures RecipeQuery(db, viewer, p) == Err(AuthorNotFound) <==> UnknownAuthor(db.users, p.author)
    ensures RecipeQuery(db, viewer, p) == Err(AnonymousAttribute) <==>
              !UnknownAuthor(db.users, p.author) && viewer.None? && (Truthy(p.isFavorited) || Truthy(p.isInShoppingCart))
    ensures RecipeQuery(db, viewer, p) == Err(CartTagsField) <==>
              && !UnknownAuthor(db.users, p.author) && viewer.Some?
              && Truthy(p.isInShoppingCart) && viewer.value !in db.carts && p.tags != []
  {
  }

  /** What a successful `RecipeQuery` lists: exactly the recipes the last
      active filter selects that carry a wanted tag (when tags are given, each
      once). */
  lemma RecipeQueryMembers(db: Db, viewer: Option<UserId>, p: QueryParams, x: Recipe)
    requires RecipeQuery(db, viewer, p).Ok?
    ensures x in RecipeQuery(db, viewer, p).value <==>
              x in db.recipes && LastFilterSelects(db, viewer, p, x) && (p.tags != [] ==> HasTag(db.tags, x, p.tags))
    ensures p.tags != [] ==> NoDuplicates(RecipeQuery(db, viewer, p).value)
  {
  }

  /** Whichever filter wins, the list as written keeps the Meta ordering:
      newest first (a recipe linked twice to the cart stands twice, side by
      side). */
  lemma RecipeQueryKeepsOrder(db: Db, viewer: Option<UserId>, p: QueryParams)
    requires db.Valid() && RecipeQuery(db, viewer, p).Ok?
    ensures NewestFirst(RecipeQuery(db, viewer, p).value)
  {
    var newer := (a: Recipe, b: Recipe) => a.pubDate >= b.pubDate;
    var all := db.recipes;
    // The queryset the tags filter starts from, and why it is newest first.
    var byCart: seq<Recipe>;
    if Truthy(p.isInShoppingCart) {
      if viewer.value in db.carts {
        byCart := CartJoin(all, db.cartLinks, db.carts[viewer.value]);
        JoinNewestFirst(all, db.cartLinks, db.carts[viewer.value]);
      } else {
        byCart := [];
      }
    } else if Truthy(p.isFavorited) {
      var favorites := db.favorites;
      byCart := Filter(all, (x: Recipe) => (viewer.value, x.id) in favorites);
      FilterKeepsOrder(all, (x: Recipe) => (viewer.value, x.id) in favorites, newer);
    } else if p.author.Some? {
      byCart := Filter(all, (x: Recipe) => x.author == p.author.value);
      FilterKeepsOrder(all, (x: Recipe) => x.author == p.author.value, newer);
    } else {
      byCart := all;
    }
    if p.tags != [] {
      var tags := db.tags;
      var tagged := Filter(byCart, (x: Recipe) => HasTag(tags, x, p.tags));
      FilterKeepsOrder(byCart, (x: Recipe) => HasTag(tags, x, p.tags), newer);
      DedupKeepsOrder(tagged, newer);
    }
  }

  /** A user without a cart who asks for cart recipes (and no tags) gets an
      empty list rather than an error. */
  lemma NoCartListsNothing(db: Db, viewer: UserId, p: QueryParams)
    requires !UnknownAuthor(db.users, p.author) && Truthy(p.isInShoppingCart) && p.tags == []
    requires viewer !in db.carts
    ensures RecipeQuery(db, Some(viewer), p) == Ok([])
  {
  }

  /** "0" switches the favourites filter on: it restricts to favourites. */
  lemma ZeroSwitchesFilterOn(db: Db, viewer: UserId, x: Recipe)
    requires x in db.recipes && (viewer, x.id) !in db.favorites
    ensures var q := RecipeQuery(db, Some(viewer), QueryParams(None, Some("0"), None, []));
            q.Ok? && x !in q.value
  {
    RecipeQueryMembers(db, Some(viewer), QueryParams(None, Some("0"), None, []), x);
  }

  /** The recipe every active filter selects (the intended conjunction). */
  predicate AllFiltersSelect(p: QueryParams, viewer: Option<UserId>, favorites: set<(UserId, RecipeId)>,
                             inCart: set<RecipeId>, tags: map<TagId, Tag>, x: Recipe)
  {
    && (p.author.Some? ==> x.author == p.author.value)
    && (Truthy(p.isFavorited) ==> viewer.Some? && (viewer.value, x.id) in favorites)
    && (Truthy(p.isInShoppingCart) ==> x.id in inCart)
    && (p.tags != [] ==> HasTag(tags, x, p.tags))
  }

  /** The ids in the viewer's cart, empty when there is none. */
  function CartSet(db: Db, viewer: Option<UserId>): (s: set<RecipeId>)
    reads db
    ensures forall x: Recipe :: x.id in s <==> InCartOf(db, viewer, x)
  {
    if viewer.Some? && viewer.value in db.carts then Contents(db.cartLinks, db.carts[viewer.value]) else {}
  }

  /** `get_queryset` with the filters narrowing each other: the same errors
      for an unknown author and an anonymous requester, otherwise a single
      pass over the recipe table. */
  function RecipeQueryNarrowed(db: Db, viewer: Option<UserId>, p: QueryParams): (r: Result<seq<Recipe>, QueryError>)
    reads db
    ensures r == Err(AuthorNotFound) <==> UnknownAuthor(db.users, p.author)
    ensures r == Err(AnonymousAttribute) <==>
              !UnknownAuthor(db.users, p.author) && viewer.None? && (Truthy(p.isFavorited) || Truthy(p.isInShoppingCart))
    ensures r != Err(CartTagsField)
    ensures r.Ok? ==> forall x :: x in r.value <==>
              x in db.recipes && AllFiltersSelect(p, viewer, db.favorites, CartSet(db, viewer), db.tags, x)
  {
    if UnknownAuthor(db.users, p.author) then Err(AuthorNotFound)
    else if viewer.None? && (Truthy(p.isFavorited) || Truthy(p.isInShoppingCart)) then Err(AnonymousAttribute)
    else
      var favorites, inCart, tags := db.favorites, CartSet(db, viewer), db.tags;
      Ok(Filter(db.recipes, (x: Recipe) => AllFiltersSelect(p, viewer, favorites, inCart, tags, x)))
  }

  /** The narrowed list keeps the table's newest-first order and lists each
      recipe once. */
  lemma NarrowedKeepsOrder(db: Db, viewer: Option<UserId>, p: QueryParams)
    requires db.Valid() && RecipeQueryNarrowed(db, viewer, p).Ok?
    ensures NewestFirst(RecipeQueryNarrowed(db, viewer, p).value)
    ensures NoDuplicates(RecipeQueryNarrowed(db, viewer, p).value)
  {
    var favorites, inCart, tags := db.favorites, CartSet(db, viewer), db.tags;
    var keep := (x: Recipe) => AllFiltersSelect(p, viewer, favorites, inCart, tags, x);
    FilterKeepsOrder(db.recipes, keep, (a: Recipe, b: Recipe) => a.pubDate >= b.pubDate);
    FilterKeepsOrder(db.recipes, keep, (a: Recipe, b: Recipe) => a.id != b.id);
  }

  /** As written, `author` together with `is_favorited` lists favourites by
      ANY author: here the viewer's favourite by user 2 is listed for
      `?author=1&is_favorited=1`, while the narrowed query lists nothing. */
  lemma FilterReplacesNotNarrows(db: Db)
    requires db.users.Keys == {1, 2}
    requires db.recipes == [Recipe(5, "soup", "", 2, "", {}, None, 0)]
    requires db.favorites == {(1, 5)}
    ensures var p := QueryParams(Some(1), Some("1"), None, []);
            && RecipeQuery(db, Some(1), p) == Ok([Recipe(5, "soup", "", 2, "", {}, None, 0)])
            && RecipeQueryNarrowed(db, Some(1), p) == Ok([])
  {
    var r := Recipe(5, "soup", "", 2, "", {}, None, 0);
    var p := QueryParams(Some(1), Some("1"), None, []);
    RecipeQueryMembers(db, Some(1), p, r);
    var q := RecipeQuery(db, Some(1), p).value;
    assert r in q && |q| <= 1;
    assert q[0] in q;
    assert q == [r];
    var n := RecipeQueryNarrowed(db, Some(1), p).value;
    assert r !in n;
    assert |n| <= 1;
  }

  // ---------------------------------------------------------------------
  // Favourite and shopping-cart actions
  // ---------------------------------------------------------------------

  /** The answer of `edit_cart_or_favorite`: 404 for an unknown recipe, then
      201 after POST, 200 after DELETE, and a validation error (400) for any
      other method. */
  function EditStatus(recipeExists: bool, m: Method): (s: Status)
    ensures s == NotFound404 <==> !recipeExists
    ensures recipeExists ==> (s == Created201 <==> m == Post) && (s == Ok200 <==> m == Delete)
    ensures s == BadRequest400 <==> recipeExists && m == OtherMethod
  {
    if !recipeExists then NotFound404
    else
      match m
      case Post => Created201
      case Delete => Ok200
      case OtherMethod => BadRequest400
  }

  /** The `favorite` action: authentication first, then the action's method
      list, then `edit_cart_or_favorite` on the viewer's favourite relation. */
  method Favorite(db: Db, viewer: Option<UserId>, m: Method, recipeId: RecipeId) returns (status: Status)
    requires db.Valid() && (viewer.Some? ==> viewer.value in db.users)
    modifies db`favorites
    ensures db.Valid()
    ensures viewer.None? ==> status == Unauthorized401
    ensures viewer.Some? && m == OtherMethod ==> status == MethodNotAllowed405
    ensures viewer.Some? && m != OtherMethod ==> status == EditStatus(recipeId in RecipeIds(db.recipes), m)
    ensures status == Created201 ==> db.favorites == old(db.favorites) + {(viewer.value, recipeId)}
    ensures status == Ok200 ==> db.favorites == old(db.favorites) - {(viewer.value, recipeId)}
    ensures status != Created201 && status != Ok200 ==> db.favorites == old(db.favorites)
  {
    if viewer.None? {
      return Unauthorized401;
    }
    if m == OtherMethod {
      return MethodNotAllowed405;
    }
    var u := viewer.value;
    status := EditStatus(recipeId in RecipeIds(db.recipes), m);
    if status == Created201 {
      db.favorites := db.favorites + {(u, recipeId)};
    } else if status == Ok200 {
      db.favorites := db.favorites - {(u, recipeId)};
    }
  }

  /** The `shopping_cart` action: after authentication and the method check,
      the viewer's cart is fetched or created (even when the recipe then
      turns out not to exist), and the recipe is linked or unlinked. */
  method ShoppingCart(db: Db, viewer: Option<UserId>, m: Method, recipeId: RecipeId) returns (status: Status)
    requires db.Valid() && (viewer.Some? ==> viewer.value in db.users)
    modifies db`carts, db`nextCartId, db`cartLinks
    ensures db.Valid()
    ensures viewer.None? || m == OtherMethod ==>
              && status == (if viewer.None? then Unauthorized401 else MethodNotAllowed405)
              && db.carts == old(db.carts) && db.nextCartId == old(db.nextCartId) && db.cartLinks == old(db.cartLinks)
    ensures viewer.Some? && m != OtherMethod ==>
              && status == EditStatus(recipeId in RecipeIds(db.recipes), m)
              && (viewer.value in old(db.carts) ==> db.carts == old(db.carts) && db.nextCartId == old(db.nextCartId))
              && (viewer.value !in old(db.carts) ==>
                    db.carts == old(db.carts)[viewer.value := old(db.nextCartId)] && db.nextCartId == old(db.nextCartId) + 1)
    ensures viewer.Some? && m != OtherMethod ==> viewer.value in db.carts
    ensures status == Created201 ==> db.cartLinks == AddRecipe(old(db.cartLinks), db.carts[viewer.value], recipeId)
    ensures status == Ok200 ==> db.cartLinks == RemoveRecipe(old(db.cartLinks), db.carts[viewer.value], recipeId)
    ensures status != Created201 && status != Ok200 ==> db.cartLinks == old(db.cartLinks)
  {
    if viewer.None? {
      return Unauthorized401;
    }
    if m == OtherMethod {
      return MethodNotAllowed405;
    }
    var u := viewer.value;
    if u !in db.carts {
      CreateCartKeepsValid(db.users, db.carts, db.nextCartId, db.recipes, db.cartLinks, u);
      db.carts := db.carts[u := db.nextCartId];
      db.nextCartId := db.nextCartId + 1;
    }
    var c := db.carts[u];
    status := EditStatus(recipeId in RecipeIds(db.recipes), m);
    if status == Created201 {
      AddRecipeKeepsValid(db.carts, db.recipes, db.cartLinks, u, recipeId);
      db.cartLinks := AddRecipe(db.cartLinks, c, recipeId);
    } else if status == Ok200 {
      RemoveRecipeKeepsValid(db.carts, db.recipes, db.cartLinks, c, recipeId);
      db.cartLinks := RemoveRecipe(db.cartLinks, c, recipeId);
    }
  }

  /** Adding twice leaves the cart as adding once; removing twice likewise;
      adding then removing empties the recipe out of the cart. */
  lemma CartEditsSettle(links: seq<CartRecipes>, c: CartId, r: RecipeId)
    ensures AddRecipe(AddRecipe(links, c, r), c, r) == AddRecipe(links, c, r)
    ensures RemoveRecipe(RemoveRecipe(links, c, r), c, r) == RemoveRecipe(links, c, r)
    ensures r !in Contents(RemoveRecipe(AddRecipe(links, c, r), c, r), c)
    ensures Contents(RemoveRecipe(AddRecipe(links, c, r), c, r), c) == Contents(links, c) - {r}
  {
    ContentsAfterAdd(links, c, r, c);
    ContentsAfterRemove(links, c, r, c);
    ContentsAfterRemove(AddRecipe(links, c, r), c, r, c);
  }

  /** The `download_shopping_cart` action: 401 for an anonymous requester
      (the permission check and the view's own test agree), a server error
      when the user has no cart, otherwise the checklist document of the
      user's aggregated cart. */
  method DownloadShoppingCart(db: Db, viewer: Option<UserId>) returns (r: Result<Document, Status>)
    requires db.Valid() && (viewer.Some? ==> viewer.value in db.users)
    ensures viewer.None? ==> r == Err(Unauthorized401)
    ensures viewer.Some? ==> (r == Err(ServerError500) <==> viewer.value !in db.carts)
    ensures viewer.Some? ==> (r.Ok? <==> viewer.value in db.carts)
    ensures r.Ok? ==> viewer.Some? && viewer.value in db.carts && IsCartDocument(db, viewer.value, r.value)
  {
    if viewer.None? {
      return Err(Unauthorized401);
    }
    var pdf := ShoppingCartPdf(db, viewer.value);
    if pdf.Err? {
      return Err(ServerError500);
    }
    return Ok(pdf.value);
  }

  // ---------------------------------------------------------------------
  // Subscriptions
  // ---------------------------------------------------------------------

  /** The authors `v` follows (`followers__follower=user`). */
  function Subscriptions(follows: seq<Follow>, v: UserId): (authors: set<UserId>)
    ensures forall a :: a in authors <==> Follow(v, a) in follows
  {
    var s := set i | 0 <= i < |follows| && follows[i].follower == v :: follows[i].author;
    assert forall a :: Follow(v, a) in follows ==> a in s by {
      forall a | Follow(v, a) in follows ensures a in s {
        var k :| 0 <= k < |follows| && follows[k] == Follow(v, a);
      }
    }
    s
  }

  /** The subscription list view: authentication required. */
  function SubscriptionList(db: Db, viewer: Option<UserId>): (r: Result<set<UserId>, Status>)
    reads db
    ensures r.Err? <==> viewer.None?
    ensures r.Err? ==> r.error == Unauthorized401
    ensures r.Ok? ==> forall a :: a in r.value <==> Follow(viewer.value, a) in db.follows
  {
    if viewer.None? then Err(Unauthorized401) else Ok(Subscriptions(db.follows, viewer.value))
  }

  /** The `is_subscribed` field of a user representation agrees with the
      requester's subscription list. */
  lemma IsSubscribedMatchesList(db: Db, viewer: UserId, a: UserId)
    ensures IsSubscribed(db.follows, Some(viewer), a) <==> a in SubscriptionList(db, Some(viewer)).value
  {
  }

  /** Following is not symmetric: following an author does not put the
      follower among the author's subscriptions. */
  lemma SubscriptionsAreDirected(v: UserId, a: UserId)
    requires v != a
    ensures a in Subscriptions([Follow(v, a)], v) && v !in Subscriptions([Follow(v, a)], a)
  {
  }

  /** The subscribe view: 401 for an anonymous requester; the edge is created
      (201) when the author exists, is not the requester and is not followed
      yet; otherwise the request is rejected (400) and nothing changes. */
  method Subscribe(db: Db, viewer: Option<UserId>, authorId: int) returns (status: Status)
    requires db.Valid() && (viewer.Some? ==> viewer.value in db.users)
    modifies db`follows
    ensures db.Valid()
    ensures viewer.None? ==> status == Unauthorized401
    ensures viewer.Some? ==> (status == Created201 <==>
              && authorId >= 0 && authorId in db.users && authorId != viewer.value
              && Follow(viewer.value, authorId) !in old(db.follows))
    ensures viewer.Some? && status != Created201 ==> status == BadRequest400
    ensures status == Created201 ==> db.follows == old(db.follows) + [Follow(viewer.value, authorId)]
    ensures status != Created201 ==> db.follows == old(db.follows)
  {
    if viewer.None? {
      return Unauthorized401;
    }
    var u := viewer.value;
    if authorId < 0 || authorId !in db.users {
      return BadRequest400;
    }
    var e := Follow(u, authorId);
    AppendFollowKeepsValid(db.users, db.follows, e);
    if authorId == u || e in db.follows {
      return BadRequest400;
    }
    db.follows := db.follows + [e];
    status := Created201;
  }

  /** `get_object`: the requester's edge to the author, if any. */
  function FindSubscription(follows: seq<Follow>, viewer: UserId, authorId: int): (r: Option<Follow>)
    ensures r.Some? <==> authorId >= 0 && Follow(viewer, authorId) in follows
    ensures r.Some? ==> r.value == Follow(viewer, authorId as nat)
  {
    if authorId >= 0 && Follow(viewer, authorId) in follows then Some(Follow(viewer, authorId)) else None
  }

  /** The unsubscribe view: 401 for an anonymous requester; 404 when there is
      no such edge; otherwise exactly that edge's row is deleted (204). */
  method Unsubscribe(db: Db, viewer: Option<UserId>, authorId: int) returns (status: Status)
    requires db.Valid()
    modifies db`follows
    ensures db.Valid()
    ensures viewer.None? ==> status == Unauthorized401 && db.follows == old(db.follows)
    ensures viewer.Some? ==> (status == NoContent204 <==> FindSubscription(old(db.follows), viewer.value, authorId).Some?)
    ensures viewer.Some? && status != NoContent204 ==> status == NotFound404 && db.follows == old(db.follows)
    ensures status == NoContent204 ==>
              && db.follows == RemoveFollow(old(db.follows), Follow(viewer.value, authorId as nat))
              && |db.follows| == |old(db.follows)| - 1
              && Follow(viewer.value, authorId as nat) !in db.follows
  {
    if viewer.None? {
      return Unauthorized401;
    }
    var found := FindSubscription(db.follows, viewer.value, authorId);
    if found.None? {
      return NotFound404;
    }
    var e := found.value;
    RemoveFollowOfPresent(db.follows, e);
    RemoveFollowKeepsValid(db.users, db.follows, e);
    db.follows := RemoveFollow(db.follows, e);
    status := NoContent204;
  }
}
