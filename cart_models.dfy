/** The cart app's tables: a `Cart` per user (a one-to-one relation on the
    user column) and the `CartRecipes` link rows of its `recipes`
    many-to-many relation, which declare no uniqueness. */
module CartModels {
  import opened Common
  import opened UserModels
  import opened RecipeModels

  type CartId = nat

  /** The cart table keyed by its unique `user` column: `carts[u]` is the id of
      the cart whose owner is `u`, so a user has at most one cart.
      `nextId` is the id the table's sequence hands out next. */
  predicate ValidCarts(users: map<UserId, User>, carts: map<UserId, CartId>, nextId: nat) {
    && carts.Keys <= users.Keys
    && (forall a, b :: a in carts && b in carts && a != b ==> carts[a] != carts[b])
    && (forall u :: u in carts ==> carts[u] < nextId)
  }

  datatype CartRecipes = CartRecipes(cart: CartId, recipe: RecipeId)

  /** Link rows point at existing carts and recipes. */
  predicate ValidLinks(carts: map<UserId, CartId>, recipes: seq<Recipe>, links: seq<CartRecipes>) {
    forall i :: 0 <= i < |links| ==> links[i].cart in carts.Values && links[i].recipe in RecipeIds(recipes)
  }

  /** The recipes a cart holds: those linked to it by at least one row. */
  function Contents(links: seq<CartRecipes>, c: CartId): set<RecipeId> {
    set i | 0 <= i < |links| && links[i].cart == c :: links[i].recipe
  }

  /** The first link row adds its recipe to its own cart's contents. */
  lemma ContentsCons(links: seq<CartRecipes>, c: CartId)
    requires links != []
    ensures Contents(links, c) == Contents(links[1..], c) + (if links[0].cart == c then {links[0].recipe} else {})
  {
    var rest := links[1..];
    forall x | x in Contents(links, c) ensures x in Contents(rest, c) || (links[0].cart == c && x == links[0].recipe) {
      var k :| 0 <= k < |links| && links[k].cart == c && links[k].recipe == x;
      if k > 0 { assert rest[k - 1] == links[k]; }
    }
    forall x | x in Contents(rest, c) ensures x in Contents(links, c) {
      var k :| 0 <= k < |rest| && rest[k].cart == c && rest[k].recipe == x;
      assert links[k + 1] == rest[k];
    }
  }

  /** How many link rows join cart `c` to recipe `r`. */
  function LinkCount(links: seq<CartRecipes>, c: CartId, r: RecipeId): (n: nat)
    ensures n > 0 <==> r in Contents(links, c)
    ensures n <= |links|
  {
    if links == [] then 0
    else
      var rest := links[1..];
      ContentsCons(links, c);
      (if links[0] == CartRecipes(c, r) then 1 else 0) + LinkCount(rest, c, r)
  }

  /** The rows of the cart's link table that belong to cart `c`. */
  function CartRows(links: seq<CartRecipes>, c: CartId): seq<CartRecipes> {
    Filter(links, (k: CartRecipes) => k.cart == c)
  }

  /** `recipes_in_cart_count`: `self.recipes.count()` counts the rows of the
      join, one per link row. It is 0 exactly for an empty cart and never
      less than the number of recipes in the cart (a recipe linked twice is
      counted twice). */
  function RecipesInCartCount(links: seq<CartRecipes>, c: CartId): (n: nat)
    ensures n == 0 <==> Contents(links, c) == {}
    ensures |Contents(links, c)| <= n
  {
    RowsCoverContents(links, c);
    |CartRows(links, c)|
  }

  /** Each recipe of the cart owes its place to at least one of the cart's
      rows. */
  lemma {:induction false} RowsCoverContents(links: seq<CartRecipes>, c: CartId)
    ensures Contents(links, c) == {} <==> CartRows(links, c) == []
    ensures |Contents(links, c)| <= |CartRows(links, c)|
  {
    if links != [] {
      var rest := links[1..];
      RowsCoverContents(rest, c);
      ContentsCons(links, c);
      assert CartRows(links, c) == (if links[0].cart == c then [links[0]] else []) + CartRows(rest, c);
      if links[0].cart == c {
        assert links[0].recipe in Contents(links, c);
      }
    }
  }

  /** With no repeated link row the count is the number of recipes in the
      cart. */
  lemma {:induction false} CountIsContentsSize(links: seq<CartRecipes>, c: CartId)
    requires NoDuplicates(links)
    ensures RecipesInCartCount(links, c) == |Contents(links, c)|
  {
    var rows := CartRows(links, c);
    FilterNoDuplicates(links, (k: CartRecipes) => k.cart == c);
    assert Contents(links, c) == set i | 0 <= i < |rows| :: rows[i].recipe by {
      forall x | x in Contents(links, c) ensures x in set i | 0 <= i < |rows| :: rows[i].recipe {
        var k :| 0 <= k < |links| && links[k].cart == c && links[k].recipe == x;
        assert links[k] in rows;
        var m :| 0 <= m < |rows| && rows[m] == links[k];
      }
      forall x | x in (set i | 0 <= i < |rows| :: rows[i].recipe) ensures x in Contents(links, c) {
        var m :| 0 <= m < |rows| && rows[m].recipe == x;
        assert rows[m] in rows;
        var k :| 0 <= k < |links| && links[k] == rows[m];
      }
    }
    assert forall i :: 0 <= i < |rows| ==> rows[i].cart == c by {
      forall i | 0 <= i < |rows| ensures rows[i].cart == c {
        assert rows[i] in rows;
      }
    }
    DistinctRowsDistinctRecipes(rows, c);
  }

  /** Helper: distinct rows of one cart carry distinct recipes, so the set of
      their recipes is as large as the sequence. */
  lemma {:induction false} DistinctRowsDistinctRecipes(rows: seq<CartRecipes>, c: CartId)
    requires NoDuplicates(rows) && forall i :: 0 <= i < |rows| ==> rows[i].cart == c
    ensures |set i | 0 <= i < |rows| :: rows[i].recipe| == |rows|
  {
    if rows != [] {
      var rest := rows[1..];
      assert NoDuplicates(rest);
      DistinctRowsDistinctRecipes(rest, c);
      var s := set i | 0 <= i < |rows| :: rows[i].recipe;
      var t := set i | 0 <= i < |rest| :: rest[i].recipe;
      assert s == t + {rows[0].recipe} by {
        forall x | x in s ensures x in t || x == rows[0].recipe {
          var k :| 0 <= k < |rows| && rows[k].recipe == x;
          if k > 0 { assert rest[k - 1] == rows[k]; }
        }
        forall x | x in t ensures x in s {
          var k :| 0 <= k < |rest| && rest[k].recipe == x;
          assert rows[k + 1] == rest[k];
        }
      }
      assert rows[0].recipe !in t by {
        forall k | 0 <= k < |rest| ensures rest[k].recipe != rows[0].recipe {
          assert rest[k] == rows[k + 1] && rows[k + 1] != rows[0];
        }
      }
    }
  }

  /** `cart.recipes.add(recipe)`: Django inserts a link row only for a recipe
      not linked yet. */
  function AddRecipe(links: seq<CartRecipes>, c: CartId, r: RecipeId): (added: seq<CartRecipes>)
    ensures forall k :: k in added <==> k in links || k == CartRecipes(c, r)
  {
    if r in Contents(links, c) then
      var i :| 0 <= i < |links| && links[i].cart == c && links[i].recipe == r;
      assert links[i] == CartRecipes(c, r);
      links
    else links + [CartRecipes(c, r)]
  }

  /** `cart.recipes.remove(recipe)`: every link row between the two goes. */
  function RemoveRecipe(links: seq<CartRecipes>, c: CartId, r: RecipeId): (rest: seq<CartRecipes>)
    ensures forall k :: k in rest <==> k in links && k != CartRecipes(c, r)
  {
    if links == [] then []
    else (if links[0] == CartRecipes(c, r) then [] else [links[0]]) + RemoveRecipe(links[1..], c, r)
  }

  /** Adding puts the recipe in this cart and changes no other cart; adding
      twice is adding once. */
  lemma ContentsAfterAdd(links: seq<CartRecipes>, c: CartId, r: RecipeId, other: CartId)
    ensures Contents(AddRecipe(links, c, r), c) == Contents(links, c) + {r}
    ensures other != c ==> Contents(AddRecipe(links, c, r), other) == Contents(links, other)
    ensures AddRecipe(AddRecipe(links, c, r), c, r) == AddRecipe(links, c, r)
  {
    if r !in Contents(links, c) {
      var n := links + [CartRecipes(c, r)];
      forall d ensures Contents(n, d) == Contents(links, d) + (if d == c then {r} else {}) {
        forall x | x in Contents(n, d) ensures x in Contents(links, d) || (d == c && x == r) {
          var k :| 0 <= k < |n| && n[k].cart == d && n[k].recipe == x;
          if k < |links| { assert links[k] == n[k]; }
        }
        forall x | x in Contents(links, d) ensures x in Contents(n, d) {
          var k :| 0 <= k < |links| && links[k].cart == d && links[k].recipe == x;
          assert n[k] == links[k];
        }
        if d == c {
          assert n[|links|] == CartRecipes(c, r);
        }
      }
    }
  }

  /** Removing takes the recipe out of this cart only; removing twice is
      removing once. */
  lemma ContentsAfterRemove(links: seq<CartRecipes>, c: CartId, r: RecipeId, other: CartId)
    ensures Contents(RemoveRecipe(links, c, r), c) == Contents(links, c) - {r}
    ensures other != c ==> Contents(RemoveRecipe(links, c, r), other) == Contents(links, other)
    ensures RemoveRecipe(RemoveRecipe(links, c, r), c, r) == RemoveRecipe(links, c, r)
  {
    var n := RemoveRecipe(links, c, r);
    forall d ensures Contents(n, d) == Contents(links, d) - (if d == c then {r} else {}) {
      forall x | x in Contents(n, d) ensures x in Contents(links, d) && !(d == c && x == r) {
        var k :| 0 <= k < |n| && n[k].cart == d && n[k].recipe == x;
        assert n[k] in n;
        var m :| 0 <= m < |links| && links[m] == n[k];
      }
      forall x | x in Contents(links, d) && !(d == c && x == r) ensures x in Contents(n, d) {
        var k :| 0 <= k < |links| && links[k].cart == d && links[k].recipe == x;
        assert links[k] in n;
        var m :| 0 <= m < |n| && n[m] == links[k];
      }
    }
    RemoveTwice(links, c, r);
  }

  lemma {:induction false} RemoveTwice(links: seq<CartRecipes>, c: CartId, r: RecipeId)
    ensures RemoveRecipe(RemoveRecipe(links, c, r), c, r) == RemoveRecipe(links, c, r)
  {
    if links != [] {
      RemoveTwice(links[1..], c, r);
      var once := RemoveRecipe(links, c, r);
      if links[0] != CartRecipes(c, r) {
        assert once[0] == links[0] && once[1..] == RemoveRecipe(links[1..], c, r);
      } else {
        assert once == RemoveRecipe(links[1..], c, r);
      }
    }
  }

  /** `user.cart.recipes.all()`: the recipe table (newest first) joined with
      the link rows of cart `c`; a recipe linked by n rows appears n times. */
  function CartJoin(recipes: seq<Recipe>, links: seq<CartRecipes>, c: CartId): (r: seq<Recipe>)
    ensures forall x :: x in r <==> x in recipes && x.id in Contents(links, c)
  {
    if recipes == [] then []
    else
      var rest := CartJoin(recipes[1..], links, c);
      var head := Repeat(recipes[0], LinkCount(links, c, recipes[0].id));
      assert forall x :: x in head <==> x == recipes[0] && recipes[0].id in Contents(links, c) by {
        if LinkCount(links, c, recipes[0].id) > 0 {
          assert head[0] == recipes[0];
        }
      }
      head + rest
  }

  /** No two recipe rows share an id (the primary key). */
  predicate DistinctIds(recipes: seq<Recipe>) {
    forall i, j :: 0 <= i < j < |recipes| ==> recipes[i].id != recipes[j].id
  }

  /** A recipe appears in the join once per link row joining it to the cart,
      and a recipe outside the table not at all. */
  lemma {:induction false} JoinMultiplicity(recipes: seq<Recipe>, links: seq<CartRecipes>, c: CartId, x: Recipe)
    requires DistinctIds(recipes)
    ensures multiset(CartJoin(recipes, links, c))[x] == if x in recipes then LinkCount(links, c, x.id) else 0
  {
    if recipes != [] {
      var rest := recipes[1..];
      assert DistinctIds(rest) by {
        forall i, j | 0 <= i < j < |rest| ensures rest[i].id != rest[j].id {
          assert rest[i] == recipes[i + 1] && rest[j] == recipes[j + 1];
        }
      }
      JoinMultiplicity(rest, links, c, x);
      RepeatCount(recipes[0], LinkCount(links, c, recipes[0].id), x);
      assert CartJoin(recipes, links, c) == Repeat(recipes[0], LinkCount(links, c, recipes[0].id)) + CartJoin(rest, links, c);
      if x == recipes[0] {
        assert x !in rest by {
          forall k | 0 <= k < |rest| ensures rest[k] != x {
            assert rest[k] == recipes[k + 1];
          }
        }
      } else {
        assert x in recipes <==> x in rest by {
          assert recipes == [recipes[0]] + rest;
        }
      }
    }
  }

  /** The first link row adds one recipe to the join exactly when it belongs
      to the cart and names a recipe of the table. */
  lemma {:induction false} JoinConsLink(recipes: seq<Recipe>, links: seq<CartRecipes>, c: CartId)
    requires DistinctIds(recipes) && links != []
    ensures |CartJoin(recipes, links, c)|
         == |CartJoin(recipes, links[1..], c)| + (if links[0].cart == c && links[0].recipe in RecipeIds(recipes) then 1 else 0)
  {
    if recipes != [] {
      var rest := recipes[1..];
      assert DistinctIds(rest) by {
        forall i, j | 0 <= i < j < |rest| ensures rest[i].id != rest[j].id {
          assert rest[i] == recipes[i + 1] && rest[j] == recipes[j + 1];
        }
      }
      JoinConsLink(rest, links, c);
      assert RecipeIds(recipes) == {recipes[0].id} + RecipeIds(rest) by {
        forall y | y in RecipeIds(recipes) ensures y in {recipes[0].id} + RecipeIds(rest) {
          var k :| 0 <= k < |recipes| && recipes[k].id == y;
          if k > 0 { assert rest[k - 1] == recipes[k]; }
        }
        forall y | y in RecipeIds(rest) ensures y in RecipeIds(recipes) {
          var k :| 0 <= k < |rest| && rest[k].id == y;
          assert recipes[k + 1] == rest[k];
        }
      }
      assert recipes[0].id !in RecipeIds(rest) by {
        forall k | 0 <= k < |rest| ensures rest[k].id != recipes[0].id {
          assert rest[k] == recipes[k + 1];
        }
      }
    }
  }

  /** Without link rows the join is empty. */
  lemma {:induction false} JoinWithoutLinks(recipes: seq<Recipe>, c: CartId)
    ensures CartJoin(recipes, [], c) == []
  {
    if recipes != [] {
      JoinWithoutLinks(recipes[1..], c);
    }
  }

  /** `cart.recipes.all()` and `recipes_in_cart_count` are the same join:
      when every link row names a recipe of the table, the join lists as many
      rows as the count says. */
  lemma {:induction false} JoinSizeIsCount(recipes: seq<Recipe>, links: seq<CartRecipes>, c: CartId)
    requires DistinctIds(recipes)
    requires forall i :: 0 <= i < |links| ==> links[i].recipe in RecipeIds(recipes)
    ensures |CartJoin(recipes, links, c)| == RecipesInCartCount(links, c)
  {
    if links == [] {
      JoinWithoutLinks(recipes, c);
    } else {
      var rest := links[1..];
      assert forall i :: 0 <= i < |rest| ==> rest[i] == links[i + 1];
      JoinSizeIsCount(recipes, rest, c);
      JoinConsLink(recipes, links, c);
      assert CartRows(links, c) == (if links[0].cart == c then [links[0]] else []) + CartRows(rest, c);
    }
  }

  /** The join keeps the table's newest-first order, repeated rows standing
      next to each other. */
  lemma {:induction false} JoinNewestFirst(recipes: seq<Recipe>, links: seq<CartRecipes>, c: CartId)
    requires NewestFirst(recipes)
    ensures NewestFirst(CartJoin(recipes, links, c))
  {
    if recipes != [] {
      var rest := recipes[1..];
      JoinNewestFirst(rest, links, c);
      var head := Repeat(recipes[0], LinkCount(links, c, recipes[0].id));
      var tail := CartJoin(rest, links, c);
      assert CartJoin(recipes, links, c) == head + tail;
      forall j | 0 <= j < |tail| ensures tail[j].pubDate <= recipes[0].pubDate {
        assert tail[j] in rest;
        var k :| 0 <= k < |rest| && rest[k] == tail[j];
        assert rest[k] == recipes[k + 1];
      }
    }
  }

  /** The ids of the carts owned by `u`: none or one. */
  function CartOf(carts: map<UserId, CartId>, u: UserId): (r: set<CartId>)
    ensures |r| <= 1 && (r == {} <==> u !in carts)
  {
    if u in carts then {carts[u]} else {}
  }

  /** Cascades when users or recipes are deleted: the deleted user's cart
      row goes, and with it its link rows; link rows of deleted recipes go. */
  function LinksWithout(links: seq<CartRecipes>, goneCarts: set<CartId>, goneRecipes: set<RecipeId>): (r: seq<CartRecipes>)
    ensures forall k :: k in r <==> k in links && k.cart !in goneCarts && k.recipe !in goneRecipes
  {
    Filter(links, (k: CartRecipes) => k.cart !in goneCarts && k.recipe !in goneRecipes)
  }

  lemma LinksWithoutKeepsValid(users: map<UserId, User>, carts: map<UserId, CartId>, nextId: nat, recipes: seq<Recipe>,
                               links: seq<CartRecipes>, u: Option<UserId>, goneRecipes: set<RecipeId>)
    requires ValidCarts(users, carts, nextId) && ValidLinks(carts, recipes, links)
    ensures var carts' := if u.Some? then carts - {u.value} else carts;
            var goneCarts := if u.Some? then CartOf(carts, u.value) else {};
            && ValidCarts(if u.Some? then users - {u.value} else users, carts', nextId)
            && ValidLinks(carts', RecipesWithout(recipes, goneRecipes), LinksWithout(links, goneCarts, goneRecipes))
  {
    var carts' := if u.Some? then carts - {u.value} else carts;
    var goneCarts := if u.Some? then CartOf(carts, u.value) else {};
    var r := LinksWithout(links, goneCarts, goneRecipes);
    RecipeIdsWithout(recipes, goneRecipes);
    forall i | 0 <= i < |r| ensures r[i].cart in carts'.Values && r[i].recipe in RecipeIds(recipes) - goneRecipes {
      assert r[i] in r;
      var k :| 0 <= k < |links| && links[k] == r[i];
      var owner :| owner in carts && carts[owner] == r[i].cart;
      assert owner in carts';
    }
  }

  /** `Cart.objects.get_or_create(user=u)` for a user without a cart inserts a
      row with the next id; the tables stay valid. */
  lemma CreateCartKeepsValid(users: map<UserId, User>, carts: map<UserId, CartId>, nextId: nat, recipes: seq<Recipe>,
                             links: seq<CartRecipes>, u: UserId)
    requires ValidCarts(users, carts, nextId) && ValidLinks(carts, recipes, links)
    requires u in users && u !in carts
    ensures ValidCarts(users, carts[u := nextId], nextId + 1) && ValidLinks(carts[u := nextId], recipes, links)
    ensures Contents(links, nextId) == {}
  {
    var carts' := carts[u := nextId];
    forall i | 0 <= i < |links| ensures links[i].cart in carts'.Values && links[i].cart != nextId {
      assert links[i].cart in carts.Values;
      var owner :| owner in carts && carts[owner] == links[i].cart;
      assert carts'[owner] == links[i].cart;
    }
  }

  /** Linking an existing recipe to an existing cart keeps the rows valid. */
  lemma AddRecipeKeepsValid(carts: map<UserId, CartId>, recipes: seq<Recipe>, links: seq<CartRecipes>, u: UserId, r: RecipeId)
    requires ValidLinks(carts, recipes, links) && u in carts && r in RecipeIds(recipes)
    ensures ValidLinks(carts, recipes, AddRecipe(links, carts[u], r))
  {
  }

  /** Unlinking keeps the rows valid. */
  lemma RemoveRecipeKeepsValid(carts: map<UserId, CartId>, recipes: seq<Recipe>, links: seq<CartRecipes>, c: CartId, r: RecipeId)
    requires ValidLinks(carts, recipes, links)
    ensures ValidLinks(carts, recipes, RemoveRecipe(links, c, r))
  {
    var rest := RemoveRecipe(links, c, r);
    forall i | 0 <= i < |rest| ensures rest[i].cart in carts.Values && rest[i].recipe in RecipeIds(recipes) {
      assert rest[i] in rest;
      var k :| 0 <= k < |links| && links[k] == rest[i];
    }
  }
}
