/** The store the views read and write: one field per table of the three
    apps, with the constraints the model declarations put on them, and the
    cascades that `on_delete=models.CASCADE` performs when a row goes. */
module Database {
  import opened Common
  import opened UserModels
  import opened RecipeModels
  import opened CartModels

  /** Every table satisfies its declared constraints and every foreign key
      points at an existing row. */
  predicate ValidTables(users: map<UserId, User>, follows: seq<Follow>, tags: map<TagId, Tag>, recipes: seq<Recipe>,
                        favorites: set<(UserId, RecipeId)>, catalog: Catalog, lines: seq<RecipeIngredients>,
                        carts: map<UserId, CartId>, nextCartId: nat, cartLinks: seq<CartRecipes>)
  {
    && ValidUsers(users)
    && ValidFollows(users, follows)
    && ValidTags(tags)
    && ValidRecipes(users, tags, recipes)
    && ValidFavorites(users, recipes, favorites)
    && catalog.Valid()
    && ValidLines(catalog, recipes, lines)
    && ValidCarts(users, carts, nextCartId)
    && ValidLinks(carts, recipes, cartLinks)
  }

  /** The cascade of deleting user `u` leads from valid tables to valid tables. */
  lemma DeleteUserCascadeValid(users: map<UserId, User>, follows: seq<Follow>, tags: map<TagId, Tag>, recipes: seq<Recipe>,
                               favorites: set<(UserId, RecipeId)>, catalog: Catalog, lines: seq<RecipeIngredients>,
                               carts: map<UserId, CartId>, nextCartId: nat, cartLinks: seq<CartRecipes>, u: UserId)
    requires ValidTables(users, follows, tags, recipes, favorites, catalog, lines, carts, nextCartId, cartLinks)
    ensures var gone := RecipesBy(recipes, u);
            ValidTables(users - {u}, FollowsWithout(follows, u), tags, RecipesWithout(recipes, gone),
                        FavoritesWithout(favorites, gone, Some(u)), catalog, LinesWithout(lines, gone),
                        carts - {u}, nextCartId, LinksWithout(cartLinks, CartOf(carts, u), gone))
  {
    var gone := RecipesBy(recipes, u);
    DeleteUserKeepsValid(users, u);
    FollowsWithoutKeepsValid(users, follows, u);
    RecipesWithoutKeepsValid(users, tags, recipes, gone, Some(u));
    FavoritesWithoutKeepsValid(users, recipes, favorites, gone, Some(u));
    LinesWithoutKeepsValid(catalog, recipes, lines, gone);
    LinksWithoutKeepsValid(users, carts, nextCartId, recipes, cartLinks, Some(u), gone);
  }

  /** The cascade of deleting recipe `r` leads from valid tables to valid tables. */
  lemma DeleteRecipeCascadeValid(users: map<UserId, User>, follows: seq<Follow>, tags: map<TagId, Tag>, recipes: seq<Recipe>,
                                 favorites: set<(UserId, RecipeId)>, catalog: Catalog, lines: seq<RecipeIngredients>,
                                 carts: map<UserId, CartId>, nextCartId: nat, cartLinks: seq<CartRecipes>, r: RecipeId)
    requires ValidTables(users, follows, tags, recipes, favorites, catalog, lines, carts, nextCartId, cartLinks)
    ensures ValidTables(users, follows, tags, RecipesWithout(recipes, {r}), FavoritesWithout(favorites, {r}, None),
                        catalog, LinesWithout(lines, {r}), carts, nextCartId, LinksWithout(cartLinks, {}, {r}))
  {
    RecipesWithoutKeepsValid(users, tags, recipes, {r}, None);
    FavoritesWithoutKeepsValid(users, recipes, favorites, {r}, None);
    LinesWithoutKeepsValid(catalog, recipes, lines, {r});
    LinksWithoutKeepsValid(users, carts, nextCartId, recipes, cartLinks, None, {r});
  }

  /** The cascade of deleting the cart of user `u` leads from valid tables to
      valid tables. */
  lemma DeleteCartCascadeValid(users: map<UserId, User>, follows: seq<Follow>, tags: map<TagId, Tag>, recipes: seq<Recipe>,
                               favorites: set<(UserId, RecipeId)>, catalog: Catalog, lines: seq<RecipeIngredients>,
                               carts: map<UserId, CartId>, nextCartId: nat, cartLinks: seq<CartRecipes>, u: UserId)
    requires ValidTables(users, follows, tags, recipes, favorites, catalog, lines, carts, nextCartId, cartLinks)
    ensures ValidTables(users, follows, tags, recipes, favorites, catalog, lines,
                        carts - {u}, nextCartId, LinksWithout(cartLinks, CartOf(carts, u), {}))
  {
    LinksWithoutKeepsValid(users, carts, nextCartId, recipes, cartLinks, Some(u), {});
    RecipeIdsWithout(recipes, {});
  }

  class Db {
    var users: map<UserId, User>
    var follows: seq<Follow>
    var tags: map<TagId, Tag>
    /** The recipe table in its Meta ordering, newest first. */
    var recipes: seq<Recipe>
    var favorites: set<(UserId, RecipeId)>
    var catalog: Catalog
    var lines: seq<RecipeIngredients>
    /** The cart table, keyed by its unique owner column. */
    var carts: map<UserId, CartId>
    /** The next id the cart table's sequence hands out. */
    var nextCartId: nat
    var cartLinks: seq<CartRecipes>

    predicate Valid()
      reads this
    {
      ValidTables(users, follows, tags, recipes, favorites, catalog, lines, carts, nextCartId, cartLinks)
    }

    /** An empty database. */
    constructor ()
      ensures Valid()
      ensures users == map[] && follows == [] && tags == map[] && recipes == [] && favorites == {}
      ensures catalog == Catalog(map[], [], map[]) && lines == [] && carts == map[] && nextCartId == 0 && cartLinks == []
    {
      users := map[];
      follows := [];
      tags := map[];
      recipes := [];
      favorites := {};
      catalog := Catalog(map[], [], map[]);
      lines := [];
      carts := map[];
      nextCartId := 0;
      cartLinks := [];
    }

    /** Deleting a user cascades to their follow edges (either end), their
        recipes and everything hanging off those recipes, their favourites,
        and their cart with its link rows. */
    method DeleteUser(u: UserId)
      requires Valid()
      modifies this
      ensures Valid()
      ensures users == old(users) - {u} && follows == FollowsWithout(old(follows), u)
      ensures recipes == RecipesWithout(old(recipes), RecipesBy(old(recipes), u))
      ensures favorites == FavoritesWithout(old(favorites), RecipesBy(old(recipes), u), Some(u))
      ensures lines == LinesWithout(old(lines), RecipesBy(old(recipes), u))
      ensures carts == old(carts) - {u}
      ensures cartLinks == LinksWithout(old(cartLinks), CartOf(old(carts), u), RecipesBy(old(recipes), u))
      ensures tags == old(tags) && catalog == old(catalog) && nextCartId == old(nextCartId)
    {
      var gone := RecipesBy(recipes, u);
      var goneCarts := CartOf(carts, u);
      var users', follows', recipes', favorites' := users - {u}, FollowsWithout(follows, u), RecipesWithout(recipes, gone), FavoritesWithout(favorites, gone, Some(u));
      var lines', carts', cartLinks' := LinesWithout(lines, gone), carts - {u}, LinksWithout(cartLinks, goneCarts, gone);
      DeleteUserCascadeValid(users, follows, tags, recipes, favorites, catalog, lines, carts, nextCartId, cartLinks, u);
      assert ValidTables(users', follows', tags, recipes', favorites', catalog, lines', carts', nextCartId, cartLinks');
      users, follows, recipes, favorites, lines, carts, cartLinks := users', follows', recipes', favorites', lines', carts', cartLinks';
    }

    /** Deleting a recipe cascades to its ingredient lines, its favourite rows
        and the cart link rows that hold it. */
    method DeleteRecipe(r: RecipeId)
      requires Valid()
      modifies this
      ensures Valid()
      ensures && users == old(users) && follows == old(follows) && tags == old(tags)
              && recipes == RecipesWithout(old(recipes), {r})
              && favorites == FavoritesWithout(old(favorites), {r}, None)
              && catalog == old(catalog)
              && lines == LinesWithout(old(lines), {r})
              && carts == old(carts) && nextCartId == old(nextCartId)
              && cartLinks == LinksWithout(old(cartLinks), {}, {r})
    {
      DeleteRecipeCascadeValid(users, follows, tags, recipes, favorites, catalog, lines, carts, nextCartId, cartLinks, r);
      favorites := FavoritesWithout(favorites, {r}, None);
      lines := LinesWithout(lines, {r});
      cartLinks := LinksWithout(cartLinks, {}, {r});
      recipes := RecipesWithout(recipes, {r});
    }

    /** Deleting an ingredient-with-unit row cascades to the recipe lines
        that use it. */
    method DeletePair(p: PairId)
      requires Valid()
      modifies this
      ensures Valid()
      ensures && users == old(users) && follows == old(follows) && tags == old(tags)
              && recipes == old(recipes) && favorites == old(favorites)
              && catalog == old(catalog).(pairs := old(catalog).pairs - {p})
              && lines == LinesWithoutPair(old(lines), p)
              && carts == old(carts) && nextCartId == old(nextCartId) && cartLinks == old(cartLinks)
    {
      LinesWithoutPairKeepsValid(catalog, recipes, lines, p);
      catalog := catalog.(pairs := catalog.pairs - {p});
      lines := LinesWithoutPair(lines, p);
    }
  
    /** Deleting user `u`'s cart row cascades to its link rows. */
    method DeleteCart(u: UserId)
      requires Valid()
      modifies this
      ensures Valid()
      ensures && users == old(users) && follows == old(follows) && tags == old(tags)
              && recipes == old(recipes) && favorites == old(favorites) && catalog == old(catalog)
              && lines == old(lines) && nextCartId == old(nextCartId)
              && carts == old(carts) - {u}
              && cartLinks == LinksWithout(old(cartLinks), CartOf(old(carts), u), {})
    {
      DeleteCartCascadeValid(users, follows, tags, recipes, favorites, catalog, lines, carts, nextCartId, cartLinks, u);
      carts, cartLinks := carts - {u}, LinksWithout(cartLinks, CartOf(carts, u), {});
    }
}
}
