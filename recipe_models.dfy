/** The recipes app's tables: tags, recipes with their favourite relation, the
    ingredient catalog (ingredients, measurement units and the
    ingredient-with-unit rows), and the ingredient lines of a recipe. */
module RecipeModels {
  import opened Common
  import opened Strings
  import opened UserModels

  type TagId = nat
  type RecipeId = nat
  type UnitId = nat
  type IngredientId = nat
  type PairId = nat

  const TagNameMaxLength := 32
  const TagSlugMaxLength := 16
  const TagColorMaxLength := 16
  const RecipeNameMaxLength := 250
  const UnitNameMaxLength := 16
  const IngredientNameMaxLength := 150

  datatype Tag = Tag(name: string, slug: string, color: string)

  /** The tag table: column lengths, and name, slug and colour each unique. */
  predicate ValidTags(tags: map<TagId, Tag>) {
    && (forall t :: t in tags ==>
          |tags[t].name| <= TagNameMaxLength && |tags[t].slug| <= TagSlugMaxLength && |tags[t].color| <= TagColorMaxLength)
    && (forall a, b :: a in tags && b in tags && a != b ==>
          tags[a].name != tags[b].name && tags[a].slug != tags[b].slug && tags[a].color != tags[b].color)
  }

  /** A recipe row; `tags` is its `tag` many-to-many relation, `pubDate` the
      `auto_now_add` timestamp, `cookingTime` the nullable integer column. */
  datatype Recipe = Recipe(
    id: RecipeId,
    name: string,
    text: string,
    author: UserId,
    image: string,
    tags: set<TagId>,
    cookingTime: Option<int>,
    pubDate: int)

  function RecipeIds(recipes: seq<Recipe>): set<RecipeId> {
    set i | 0 <= i < |recipes| :: recipes[i].id
  }

  /** `ordering = ('-pub_date',)`: the table is kept newest first. */
  predicate NewestFirst(recipes: seq<Recipe>) {
    forall i, j :: 0 <= i < j < |recipes| ==> recipes[i].pubDate >= recipes[j].pubDate
  }

  /** The recipe table: unique ids, existing authors and tags, the name
      length, and the Meta ordering. */
  predicate ValidRecipes(users: map<UserId, User>, tags: map<TagId, Tag>, recipes: seq<Recipe>) {
    && (forall i, j :: 0 <= i < j < |recipes| ==> recipes[i].id != recipes[j].id)
    && (forall i :: 0 <= i < |recipes| ==>
          recipes[i].author in users && recipes[i].tags <= tags.Keys && |recipes[i].name| <= RecipeNameMaxLength)
    && NewestFirst(recipes)
  }

  /** The favourite relation: its rows name existing users and recipes (the
      automatic through table is unique per pair, hence a set). */
  predicate ValidFavorites(users: map<UserId, User>, recipes: seq<Recipe>, favorites: set<(UserId, RecipeId)>) {
    forall p :: p in favorites ==> p.0 in users && p.1 in RecipeIds(recipes)
  }

  /** The users who favourited recipe `r`. */
  function FavoritedBy(favorites: set<(UserId, RecipeId)>, r: RecipeId): set<UserId> {
    set p | p in favorites && p.1 == r :: p.0
  }

  /** `favorite_count`: the number of users in the recipe's favourite set. */
  function FavoriteCount(favorites: set<(UserId, RecipeId)>, r: RecipeId): (n: nat)
    ensures n == |FavoritedBy(favorites, r)|
    ensures n == 0 <==> forall p :: p in favorites ==> p.1 != r
  {
    var users := FavoritedBy(favorites, r);
    assert (exists p :: p in favorites && p.1 == r) ==> users != {} by {
      if p :| p in favorites && p.1 == r {
        assert p.0 in users;
      }
    }
    |users|
  }

  /** Adding a favourite raises the count by one exactly when it was not yet
      a favourite; removing one lowers it by one exactly when it was. */
  lemma FavoriteCountAfterEdit(favorites: set<(UserId, RecipeId)>, u: UserId, r: RecipeId)
    ensures FavoriteCount(favorites + {(u, r)}, r) ==
            FavoriteCount(favorites, r) + (if (u, r) in favorites then 0 else 1)
    ensures FavoriteCount(favorites - {(u, r)}, r) ==
            FavoriteCount(favorites, r) - (if (u, r) in favorites then 1 else 0)
  {
    var before := FavoritedBy(favorites, r);
    assert FavoritedBy(favorites + {(u, r)}, r) == before + {u};
    if u !in before {
      assert |before + {u}| == |before| + 1;
    } else {
      assert before + {u} == before;
    }
    assert FavoritedBy(favorites - {(u, r)}, r) == before - {u};
    assert u in before <==> (u, r) in favorites;
  }

  datatype IngredientUnit = IngredientUnit(name: string)

  datatype Ingredient = Ingredient(id: IngredientId, name: string)

  /** An ingredient-with-unit row of the `IngredientsUnits` through table. */
  datatype IngredientsUnits = IngredientsUnits(ingredient: IngredientId, unit: UnitId)

  function IngredientIds(ingredients: seq<Ingredient>): set<IngredientId> {
    set i | 0 <= i < |ingredients| :: ingredients[i].id
  }

  /** The name of the ingredient row with id `id` (the foreign-key lookup). */
  function IngredientName(ingredients: seq<Ingredient>, id: IngredientId): (name: string)
    requires id in IngredientIds(ingredients)
    ensures exists i :: 0 <= i < |ingredients| && ingredients[i].id == id && ingredients[i].name == name
  {
    if ingredients[0].id == id then ingredients[0].name
    else
      assert id in IngredientIds(ingredients[1..]) by {
        var k :| 0 <= k < |ingredients| && ingredients[k].id == id;
        assert ingredients[1..][k - 1] == ingredients[k];
      }
      var name := IngredientName(ingredients[1..], id);
      assert exists i :: 0 <= i < |ingredients| && ingredients[i].id == id && ingredients[i].name == name by {
        var k :| 0 <= k < |ingredients[1..]| && ingredients[1..][k].id == id && ingredients[1..][k].name == name;
        assert ingredients[k + 1] == ingredients[1..][k];
      }
      name
  }

  /** `IngredientsUnits.__str__`: the ingredient name, " (", the unit name, ")". */
  function IngredientLabel(name: string, unit: string): (text: string)
    ensures |text| == |name| + |unit| + 3
    ensures text[..|name|] == name && text[|name|..|name| + 2] == " ("
    ensures text[|name| + 2..|text| - 1] == unit && text[|text| - 1] == ')'
  {
    name + " (" + unit + ")"
  }

  /** The label does not identify its parts in general: two different
      (name, unit) pairs can print the same. */
  lemma LabelNotInjective()
    ensures IngredientLabel("a (b", "c") == IngredientLabel("a", "b (c")
  {
  }

  predicate NoOpenParen(s: string) {
    forall i :: 0 <= i < |s| ==> s[i] != '('
  }

  /** When ingredient names contain no '(', equal labels mean equal name and
      equal unit, so merging by label is merging by (name, unit). */
  lemma LabelInjectiveWithoutParens(n1: string, u1: string, n2: string, u2: string)
    requires NoOpenParen(n1) && NoOpenParen(n2)
    requires IngredientLabel(n1, u1) == IngredientLabel(n2, u2)
    ensures n1 == n2 && u1 == u2
  {
    var l := IngredientLabel(n1, u1);
    FirstParenAfterName(n1, u1);
    FirstParenAfterName(n2, u2);
    assert n1 == l[..|n1|] == n2;
    assert u1 == l[|n1| + 2..|l| - 1] == u2;
  }

  /** Position of the first occurrence of `c` in `s` (|s| when absent). */
  function FirstIndex(s: string, c: char): (k: nat)
    ensures k <= |s|
  {
    if s == [] then 0 else if s[0] == c then 0 else 1 + FirstIndex(s[1..], c)
  }

  lemma {:induction false} FirstIndexAt(s: string, c: char, k: nat)
    requires k < |s| && s[k] == c
    requires forall i :: 0 <= i < k ==> s[i] != c
    ensures FirstIndex(s, c) == k
  {
    if k > 0 {
      FirstIndexAt(s[1..], c, k - 1);
    }
  }

  /** In a label whose name holds no '(', the first '(' follows the name and
      its separating space. */
  lemma FirstParenAfterName(n: string, u: string)
    requires NoOpenParen(n)
    ensures FirstIndex(IngredientLabel(n, u), '(') == |n| + 1
  {
    var l := IngredientLabel(n, u);
    assert l[|n|] == ' ' && l[|n| + 1] == '(';
    forall i | 0 <= i < |n| + 1 ensures l[i] != '(' {
      if i < |n| {
        assert l[i] == l[..|n|][i] == n[i];
      }
    }
    FirstIndexAt(l, '(', |n| + 1);
  }

  /** The reference tables of the ingredient catalog. */
  datatype Catalog = Catalog(
    units: map<UnitId, IngredientUnit>,
    ingredients: seq<Ingredient>,
    pairs: map<PairId, IngredientsUnits>)
  {
    /** Unit names unique and at most 16 characters; ingredient names at most
        150 characters; ingredients kept in their `ordering = ('name',)` with
        `unique=True`, i.e. strictly increasing by name; every
        ingredient-with-unit row points at an existing ingredient and unit. */
    predicate Valid() {
      && (forall a :: a in units ==> |units[a].name| <= UnitNameMaxLength)
      && (forall a, b :: a in units && b in units && a != b ==> units[a].name != units[b].name)
      && (forall i :: 0 <= i < |ingredients| ==> |ingredients[i].name| <= IngredientNameMaxLength)
      && (forall i, j :: 0 <= i < j < |ingredients| ==>
            Less(ingredients[i].name, ingredients[j].name) && ingredients[i].id != ingredients[j].id)
      && (forall p :: p in pairs ==> pairs[p].ingredient in IngredientIds(ingredients) && pairs[p].unit in units)
    }

    /** `str()` of an ingredient-with-unit row. */
    function Label(p: PairId): string
      requires Valid() && p in pairs
    {
      IngredientLabel(IngredientName(ingredients, pairs[p].ingredient), units[pairs[p].unit].name)
    }
  }

  /** Distinct ingredients have distinct names (a consequence of the
      strictly increasing name order). */
  lemma IngredientNamesUnique(cat: Catalog, i: nat, j: nat)
    requires cat.Valid() && i < |cat.ingredients| && j < |cat.ingredients| && i != j
    ensures cat.ingredients[i].name != cat.ingredients[j].name
  {
    if i < j {
      LessIrreflexive(cat.ingredients[i].name);
    } else {
      LessIrreflexive(cat.ingredients[j].name);
    }
  }

  /** A line of `RecipeIngredients`: an ingredient-with-unit row, a recipe and
      an integer amount. */
  datatype RecipeIngredients = RecipeIngredients(ingredient: PairId, recipe: RecipeId, amount: int)

  /** Every line points at an existing ingredient-with-unit row and recipe.
      There is no uniqueness constraint on lines. */
  predicate ValidLines(cat: Catalog, recipes: seq<Recipe>, lines: seq<RecipeIngredients>) {
    forall i :: 0 <= i < |lines| ==> lines[i].ingredient in cat.pairs && lines[i].recipe in RecipeIds(recipes)
  }

  /** A recipe may list the same ingredient-with-unit twice. */
  lemma RepeatedLinesAllowed(cat: Catalog, recipes: seq<Recipe>, line: RecipeIngredients)
    requires line.ingredient in cat.pairs && line.recipe in RecipeIds(recipes)
    ensures ValidLines(cat, recipes, [line, line])
  {
  }

  /** The ids of the recipes written by `author`. */
  function RecipesBy(recipes: seq<Recipe>, author: UserId): set<RecipeId> {
    set i | 0 <= i < |recipes| && recipes[i].author == author :: recipes[i].id
  }

  /** Cascade of deleting the recipes with ids `gone`. */
  function RecipesWithout(recipes: seq<Recipe>, gone: set<RecipeId>): (r: seq<Recipe>)
    ensures forall x :: x in r <==> x in recipes && x.id !in gone
  {
    Filter(recipes, (x: Recipe) => x.id !in gone)
  }

  lemma RecipeIdsWithout(recipes: seq<Recipe>, gone: set<RecipeId>)
    ensures RecipeIds(RecipesWithout(recipes, gone)) == RecipeIds(recipes) - gone
  {
    var r := RecipesWithout(recipes, gone);
    forall id | id in RecipeIds(recipes) - gone ensures id in RecipeIds(r) {
      var k :| 0 <= k < |recipes| && recipes[k].id == id;
      assert recipes[k] in r;
      var m :| 0 <= m < |r| && r[m] == recipes[k];
    }
    forall id | id in RecipeIds(r) ensures id in RecipeIds(recipes) - gone {
      var k :| 0 <= k < |r| && r[k].id == id;
      assert r[k] in r;
      var m :| 0 <= m < |recipes| && recipes[m] == r[k];
    }
  }

  /** Deleting recipes keeps the recipe table valid; deleting their author as
      well keeps it valid against the smaller user table. */
  lemma RecipesWithoutKeepsValid(users: map<UserId, User>, tags: map<TagId, Tag>, recipes: seq<Recipe>, gone: set<RecipeId>, u: Option<UserId>)
    requires ValidRecipes(users, tags, recipes)
    requires u.Some? ==> RecipesBy(recipes, u.value) <= gone
    ensures ValidRecipes(if u.Some? then users - {u.value} else users, tags, RecipesWithout(recipes, gone))
  {
    var keep := (x: Recipe) => x.id !in gone;
    var r := RecipesWithout(recipes, gone);
    var distinctIds := (a: Recipe, b: Recipe) => a.id != b.id;
    var newer := (a: Recipe, b: Recipe) => a.pubDate >= b.pubDate;
    FilterKeepsOrder(recipes, keep, distinctIds);
    FilterKeepsOrder(recipes, keep, newer);
    forall i | 0 <= i < |r|
      ensures r[i].author in (if u.Some? then users - {u.value} else users)
    {
      assert r[i] in r;
      var k :| 0 <= k < |recipes| && recipes[k] == r[i];
    }
  }

  /** Cascade on the favourite relation: rows of deleted recipes or of a
      deleted user go. */
  function FavoritesWithout(favorites: set<(UserId, RecipeId)>, gone: set<RecipeId>, u: Option<UserId>): (r: set<(UserId, RecipeId)>)
    ensures forall p :: p in r <==> p in favorites && p.1 !in gone && (u.Some? ==> p.0 != u.value)
  {
    set p | p in favorites && p.1 !in gone && (u.Some? ==> p.0 != u.value)
  }

  lemma FavoritesWithoutKeepsValid(users: map<UserId, User>, recipes: seq<Recipe>, favorites: set<(UserId, RecipeId)>,
                                   gone: set<RecipeId>, u: Option<UserId>)
    requires ValidFavorites(users, recipes, favorites)
    ensures ValidFavorites(if u.Some? then users - {u.value} else users, RecipesWithout(recipes, gone),
                           FavoritesWithout(favorites, gone, u))
  {
    RecipeIdsWithout(recipes, gone);
  }

  /** Cascade on `RecipeIngredients.recipe`: lines of deleted recipes go. */
  function LinesWithout(lines: seq<RecipeIngredients>, gone: set<RecipeId>): (r: seq<RecipeIngredients>)
    ensures forall l :: l in r <==> l in lines && l.recipe !in gone
  {
    Filter(lines, (l: RecipeIngredients) => l.recipe !in gone)
  }

  /** Cascade on `RecipeIngredients.ingredient`: deleting an
      ingredient-with-unit row deletes the lines that use it. */
  function LinesWithoutPair(lines: seq<RecipeIngredients>, p: PairId): (r: seq<RecipeIngredients>)
    ensures forall l :: l in r <==> l in lines && l.ingredient != p
  {
    Filter(lines, (l: RecipeIngredients) => l.ingredient != p)
  }

  lemma LinesWithoutKeepsValid(cat: Catalog, recipes: seq<Recipe>, lines: seq<RecipeIngredients>, gone: set<RecipeId>)
    requires ValidLines(cat, recipes, lines)
    ensures ValidLines(cat, RecipesWithout(recipes, gone), LinesWithout(lines, gone))
  {
    RecipeIdsWithout(recipes, gone);
    var r := LinesWithout(lines, gone);
    forall i | 0 <= i < |r| ensures r[i].ingredient in cat.pairs && r[i].recipe in RecipeIds(recipes) - gone {
      assert r[i] in r;
      var k :| 0 <= k < |lines| && lines[k] == r[i];
    }
  }

  lemma LinesWithoutPairKeepsValid(cat: Catalog, recipes: seq<Recipe>, lines: seq<RecipeIngredients>, p: PairId)
    requires cat.Valid() && ValidLines(cat, recipes, lines)
    ensures cat.(pairs := cat.pairs - {p}).Valid()
    ensures ValidLines(cat.(pairs := cat.pairs - {p}), recipes, LinesWithoutPair(lines, p))
  {
    var r := LinesWithoutPair(lines, p);
    forall i | 0 <= i < |r| ensures r[i].ingredient in cat.pairs - {p} && r[i].recipe in RecipeIds(recipes) {
      assert r[i] in r;
      var k :| 0 <= k < |lines| && lines[k] == r[i];
    }
  }
}
