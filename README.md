# foodgram backend core in Dafny

A model of the recipe backend's core: the tables of the users, recipes and
cart apps with the constraints their model declarations put on them, the
cascades `on_delete=CASCADE` performs, the REST views of the api app (the
ingredient search, the permission choice, the recipe list filters, the
favourite and shopping-cart actions, the shopping-list download,
subscriptions), the serializers' computed field and field lists, the
validators, and the `import_ingredients` management command.

The modules follow the program:

- `Common`, `Strings` and `SortedItems` are shared building blocks. They cover
  Python's string order and `str()` of an integer, and `sorted(d.items())`.
- `UserModels`, `RecipeModels` and `CartModels` hold the rows of each app as
  datatypes. Each table's constraints are a predicate, and each cascade is a
  function with a lemma saying it keeps the constraints.
- `Database` is the store as a class, `Db`, with one field per table. Its
  delete methods carry out the cascades.
- `ShoppingList` is the cart app's views:
  - the shopping list, summed per label with nested loops;
  - the two layout loops of the PDF;
  - the document handed to the PDF writer.
- `ApiViews` is the api app's views. Actions that change the store are
  methods over `Db`, and lookups are functions.
- `Serializers`, `Validators` and `RegexValidators` are the serializers, the
  two hand-written validators and the regex validators of the migrations.
- `IngredientImport` is the management command's de-duplication loop.

Where the code refers to relations under names the model files do not
declare, the model reads them as the declared relations:

- `recipe.ingredients` is a recipe's `RecipeIngredients` lines.
- The `tags` relation is the recipe's `tag` many-to-many.
- `Cart` imported from `recipes.models` is the cart app's `Cart`.
- `Ingredient(name=…, measurement_unit=…)` is the (name, unit) pair.

An ingredient line's key is the `IngredientsUnits` label `name (unit)`. That
label is also the key of the import queue.

The requester, the request method, the query parameters and the CSV rows are
parameters. So are two things the Python library defines:

- Unicode case folding, the parameter `fold`.
- Unicode `\w`, the parameter `isWord`. It is constrained only on the
  characters the lemmas need.

## Model

| member | source | states |
|---|---|---|
| Common.Filter | backend/api/views.py:45-48 | a queryset filter keeps exactly the rows that pass its test, never more rows than it had |
| Common.FilterKeepsOrder | backend/recipes/models.py:79-80 | filtering keeps any order the table's rows were in (the Meta ordering) |
| Common.Dedup | backend/api/views.py:104 | `distinct()` lists each row once and exactly the rows it was given |
| Common.DedupOfDistinct | backend/api/views.py:104 | `distinct()` leaves a duplicate-free list unchanged |
| Common.DedupKeepsOrder | backend/api/views.py:104 | `distinct()` keeps any order the rows were in |
| Strings.LessIrreflexive | backend/cart/views.py:52 | Python's string order, used by `sorted`, is irreflexive |
| Strings.LessAsymmetric | backend/cart/views.py:52 | the string order is asymmetric |
| Strings.LessTransitive | backend/cart/views.py:52 | the string order is transitive |
| Strings.LessTotal | backend/cart/views.py:52 | any two distinct strings are ordered, so sorting by label is total |
| Strings.ContainsEmptyAndPrefix | backend/api/views.py:44-47 | every name contains the empty keyword, and a prefix is an occurrence |
| Strings.NatToStringRoundTrip | backend/cart/views.py:26 | the decimal digits of a natural number read back as that number |
| Strings.IntToStringRoundTrip | backend/cart/views.py:29-31 | `str()` of a total reads back as the total, with a minus sign exactly for negatives |
| Strings.Underscores | backend/cart/views.py:31 | `"_" * n` is n underscores |
| SortedItems.Insert | backend/cart/views.py:52 | inserting a new label keeps the pairs strictly sorted and adds exactly that pair |
| SortedItems.SortedUnique | backend/cart/views.py:52 | two strictly sorted sequences of the same pairs are equal, so the sorted list is determined |
| SortedItems.HeadIsLeast | backend/cart/views.py:52 | the first pair of a sorted list has the least label |
| SortedItems.TailElements | backend/cart/views.py:52 | dropping the head drops exactly that pair |
| UserModels.IsAdminIsSuperuser | backend/users/models.py:32-34 | `is_admin` is true exactly when `is_superuser` is |
| UserModels.IsAdmin | backend/users/models.py:32-34 | the `is_admin` property: the superuser flag, as IsAdminIsSuperuser states |
| UserModels.AppendFollowKeepsValid | backend/users/models.py:55-65 | an edge between existing users may be added exactly when it is no self-edge and no duplicate |
| UserModels.FollowIsDirected | backend/users/models.py:41-53 | an example: a valid follow table may hold (1, 2) without (2, 1) |
| UserModels.FollowsWithout | backend/users/models.py:42-53 | deleting a user deletes exactly the edges with that user at either end |
| UserModels.FollowsWithoutKeepsValid | backend/users/models.py:42-65 | the follow table stays valid after that cascade |
| UserModels.DeleteUserKeepsValid | backend/users/models.py:5-27 | the user table keeps its lengths and unique username and email after a deletion |
| UserModels.RemoveFollow | backend/users/models.py:41-53 | deleting an edge row keeps exactly the other edges |
| UserModels.RemoveFollowAbsent | backend/users/models.py:41-53 | deleting an absent edge changes nothing |
| UserModels.RemoveFollowOfPresent | backend/users/models.py:57-60 | since edges are unique, deleting a present edge removes exactly one row |
| UserModels.RemoveFollowKeepsValid | backend/users/models.py:55-65 | deleting an edge keeps the follow table valid |
| RecipeModels.FavoriteCount | backend/recipes/models.py:76-77 | `favorite_count` is the number of users who favourited the recipe, and 0 exactly when nobody did |
| RecipeModels.FavoriteCountAfterEdit | backend/recipes/models.py:63-67 | adding a favourite raises the count by one exactly when it was absent; removing lowers it by one exactly when present |
| RecipeModels.IngredientName | backend/recipes/models.py:119-126 | the foreign-key lookup finds the name of the ingredient row with that id |
| RecipeModels.IngredientLabel | backend/recipes/models.py:135-136 | the label is the name, " (", the unit, then ")" |
| RecipeModels.Catalog.Label | backend/recipes/models.py:135-136 | `str()` of an ingredient-with-unit row: the label of its ingredient's name and its unit's name |
| RecipeModels.LabelNotInjective | backend/recipes/models.py:135-136 | ("a (b", "c") and ("a", "b (c") print the same label |
| RecipeModels.LabelInjectiveWithoutParens | backend/recipes/models.py:135-136 | when names contain no '(', equal labels mean equal name and unit |
| RecipeModels.FirstParenAfterName | backend/recipes/models.py:135-136 | in such a label the first '(' comes right after the name and the space |
| RecipeModels.IngredientNamesUnique | backend/recipes/models.py:98-116 | in the catalog kept in its name ordering, distinct ingredient rows have distinct names |
| RecipeModels.RepeatedLinesAllowed | backend/recipes/models.py:142-155 | a recipe may list the same ingredient-with-unit twice |
| RecipeModels.RecipesWithout | backend/recipes/models.py:42-48 | deleting recipes keeps exactly the other recipe rows |
| RecipeModels.RecipeIdsWithout | backend/recipes/models.py:42-48 | the ids left are the old ids minus the deleted ones |
| RecipeModels.RecipesWithoutKeepsValid | backend/recipes/models.py:31-80 | deleting an author's recipes together with the author keeps the recipe table valid |
| RecipeModels.FavoritesWithout | backend/recipes/models.py:63-67 | the favourite rows of deleted recipes and of a deleted user go, and only they |
| RecipeModels.FavoritesWithoutKeepsValid | backend/recipes/models.py:63-67 | the favourite relation stays valid after that cascade |
| RecipeModels.LinesWithout | backend/recipes/models.py:149-154 | deleting recipes deletes exactly their ingredient lines |
| RecipeModels.LinesWithoutPair | backend/recipes/models.py:143-148 | deleting an ingredient-with-unit row deletes exactly the lines that use it |
| RecipeModels.LinesWithoutKeepsValid | backend/recipes/models.py:142-155 | the lines stay valid after a recipe cascade |
| RecipeModels.LinesWithoutPairKeepsValid | backend/recipes/models.py:119-155 | the catalog and the lines stay valid after an ingredient-with-unit row goes |
| CartModels.LinkCount | backend/cart/models.py:24-35 | a cart and a recipe share a link row exactly when the recipe is in the cart |
| CartModels.RecipesInCartCount | backend/cart/models.py:20-21 | `recipes_in_cart_count` is 0 exactly for an empty cart and never less than the number of recipes in it |
| CartModels.CountIsContentsSize | backend/cart/models.py:20-21 | with no repeated link row the count is the number of recipes in the cart |
| CartModels.RemoveRecipe | backend/cart/models.py:14-18 | `remove` deletes every link row between the cart and the recipe, and nothing else |
| CartModels.AddRecipe | backend/cart/models.py:14-18 | `add` leaves exactly the old link rows plus the (cart, recipe) row, inserting it only when missing |
| CartModels.ContentsAfterAdd | backend/cart/models.py:14-18 | `add` puts the recipe in this cart only, and adding twice equals adding once |
| CartModels.ContentsAfterRemove | backend/cart/models.py:14-18 | `remove` takes the recipe out of this cart only, and removing twice equals removing once |
| CartModels.CartJoin | backend/cart/models.py:14-18 | `cart.recipes.all()` lists exactly the table's recipes linked to the cart; how often each appears is JoinMultiplicity |
| CartModels.JoinMultiplicity | backend/cart/models.py:14-18 | `cart.recipes.all()` lists a recipe once per link row joining it to the cart, and a recipe outside the table not at all |
| CartModels.JoinSizeIsCount | backend/cart/models.py:20-21 | when every link row names a stored recipe, `recipes.all()` has exactly `recipes_in_cart_count` rows |
| CartModels.JoinNewestFirst | backend/recipes/models.py:79-80 | the cart's recipes come in the table's newest-first order |
| CartModels.CartOf | backend/cart/models.py:8-13 | a user owns at most one cart, none exactly when absent from the cart table |
| CartModels.LinksWithout | backend/cart/models.py:24-35 | deleting carts or recipes deletes exactly their link rows |
| CartModels.LinksWithoutKeepsValid | backend/cart/models.py:8-35 | deleting a user's cart with its links keeps the cart tables valid |
| CartModels.CreateCartKeepsValid | backend/cart/models.py:8-13 | creating a missing cart under a fresh id keeps one cart per user, and the new cart is empty |
| CartModels.AddRecipeKeepsValid | backend/cart/models.py:24-35 | linking an existing recipe to an existing cart keeps the links valid |
| CartModels.RemoveRecipeKeepsValid | backend/cart/models.py:24-35 | unlinking keeps the links valid |
| Database.DeleteUserCascadeValid | backend/users/models.py:42-53 | the user deletion cascade over every table leads from valid tables to valid tables |
| Database.DeleteRecipeCascadeValid | backend/recipes/models.py:149-154 | the recipe deletion cascade leads from valid tables to valid tables |
| Database.DeleteCartCascadeValid | backend/cart/models.py:24-35 | the cart deletion cascade leads from valid tables to valid tables |
| Database.Db.DeleteUser | backend/users/models.py:42-53 | deleting a user removes their edges, recipes (with favourites, lines and cart links), favourites and cart; nothing else changes and the store stays valid |
| Database.Db.DeleteRecipe | backend/recipes/models.py:42-48 | deleting a recipe removes its lines, favourite rows and cart links; the store stays valid |
| Database.Db.DeletePair | backend/recipes/models.py:143-148 | deleting an ingredient-with-unit row removes the lines using it; the store stays valid |
| Database.Db.DeleteCart | backend/cart/models.py:24-35 | deleting a cart removes its link rows; the store stays valid |
| ShoppingList.LinesOf | backend/cart/views.py:47 | a recipe's lines are exactly the line rows that point at it |
| ShoppingList.SumForAbsent | backend/cart/views.py:49 | a label no entry carries sums to 0, the `get` default |
| ShoppingList.AppendEntry | backend/cart/views.py:48-50 | one more line adds its label and adds its amount to that label's sum only |
| ShoppingList.AddStep | backend/cart/views.py:48-50 | one step of the inner loop keeps the dictionary equal to the sums of the lines seen |
| ShoppingList.Aggregate | backend/cart/views.py:46-50 | the dictionary maps exactly the labels of all visited lines, each to the sum of its amounts |
| ShoppingList.AddLines | backend/cart/views.py:47-50 | the inner loop adds one recipe's lines to the sums |
| ShoppingList.MaxLineLength | backend/cart/views.py:22-27 | the first loop's width: 0 for no pairs, and at least every row's width plus 3 |
| ShoppingList.GenerateIngredientList | backend/cart/views.py:42-52 | fails exactly without a cart; otherwise the list is strictly increasing by label, has exactly the cart's line labels, and gives each its total |
| ShoppingList.SortedMapItems | backend/cart/views.py:52 | the dictionary's pairs, every one of them, in strictly increasing label order |
| ShoppingList.ListIsDetermined | backend/cart/views.py:45-52 | two lists meeting that contract are equal |
| ShoppingList.NoLinesNoEntries | backend/cart/views.py:43-52 | an empty cart, or recipes without lines, contribute nothing |
| ShoppingList.SameLabelLinesAreSummed | backend/cart/views.py:48 | two lines of one recipe with the same label are summed under that label |
| ShoppingList.MaxLineLengthIsMax | backend/cart/views.py:22-27 | the width is 0 for no pairs, otherwise the largest row length plus 3, attained by some row |
| ShoppingList.ChecklistLines | backend/cart/views.py:22-33 | the two loops give the width of the widest row plus 3 and one row per pair at that width |
| ShoppingList.FillAtLeastThree | backend/cart/views.py:10 | every row gets at least three underscores |
| ShoppingList.Row | backend/cart/views.py:28-33 | one checklist row, always three characters longer than the width |
| ShoppingList.RowLayout | backend/cart/views.py:28-33 | a row is `chr(2610)`, space, label, colon, fill, total, and every row has the same length, so totals line up |
| ShoppingList.LayoutExample | backend/cart/views.py:22-33 | an example: rows for ("egg (pcs)", 3) and ("flour (g)", 200) are padded to width 15 |
| ShoppingList.Title | backend/cart/views.py:57 | the title: the first name, then "'s shopping cart"; TitleRoundTrip reads the name back |
| ShoppingList.TitleRoundTrip | backend/cart/views.py:57 | the owner's first name reads back from the title "'s shopping cart" |
| ShoppingList.TitleOwner | backend/cart/views.py:57 | no counterpart in the source; it reads a name back from a title, showing the title determines the first name |
| ShoppingList.ShoppingCartPdf | backend/cart/views.py:55-60 | fails exactly without a cart; otherwise the owner's title, the aggregated sorted list, its rows and the fixed file name |
| ApiViews.IngredientSearch | backend/api/views.py:43-49 | keeps a name that starts with the keyword ignoring case or contains it as typed |
| ApiViews.IngredientList | backend/api/views.py:44 | the missing `name` parameter means the empty keyword |
| ApiViews.NoKeywordListsAll | backend/api/views.py:44-48 | without a keyword every ingredient is listed |
| ApiViews.ExactPrefixFound | backend/api/views.py:46 | a name that starts with the keyword as typed is always found |
| ApiViews.SearchKeepsNameOrder | backend/recipes/models.py:115-116 | the results stay ordered by name, each once |
| ApiViews.GetPermissions | backend/api/views.py:57-60 | as written, every action gets `IsAuthorAdminOrReadOnly` |
| ApiViews.GetPermissionsIntended | backend/api/views.py:57-60 | with a membership test, `IsAuthenticated` exactly for list, retrieve and create |
| ApiViews.RecipeQuery | backend/api/views.py:67-106 | `get_queryset` as written, each active filter replacing the last; a successful list holds only stored recipes, and RecipeQueryErrors and RecipeQueryMembers say which |
| ApiViews.PermissionsDiffer | backend/api/views.py:58 | the two differ exactly on the three named actions |
| ApiViews.RecipeQueryErrors | backend/api/views.py:74-104 | 404 exactly for an unknown author; an attribute error exactly for anonymous favourite or cart requests; a field error exactly for tags on a missing cart |
| ApiViews.RecipeQueryMembers | backend/api/views.py:67-106 | a successful list has exactly the recipes the last active filter selects that carry a wanted tag, each once when tags are given |
| ApiViews.RecipeQueryKeepsOrder | backend/recipes/models.py:79-80 | whichever filter wins, the list as written is newest first |
| ApiViews.NoCartListsNothing | backend/api/views.py:93-100 | cart recipes of a user without a cart are an empty list, not an error |
| ApiViews.ZeroSwitchesFilterOn | backend/api/views.py:82-83 | "0" switches the favourites filter on |
| ApiViews.CartSet | backend/api/views.py:96 | the viewer's cart contents, empty without a cart |
| ApiViews.RecipeQueryNarrowed | backend/api/views.py:67-106 | the same author and anonymous errors; otherwise exactly the recipes every active filter selects |
| ApiViews.NarrowedKeepsOrder | backend/recipes/models.py:79-80 | the narrowed list is newest first and lists each recipe once |
| ApiViews.FilterReplacesNotNarrows | backend/api/views.py:74-87 | as written, `author` with `is_favorited` lists a favourite by another author |
| ApiViews.EditStatus | backend/api/views.py:148-168 | 404 exactly for a missing recipe, otherwise 201 for POST, 200 for DELETE and 400 for anything else |
| ApiViews.Favorite | backend/api/views.py:183-194 | 401/405 first; then the favourite is added on 201, removed on 200, and otherwise nothing changes |
| ApiViews.ShoppingCart | backend/api/views.py:170-181 | after 401/405, the cart is reused or created under the next id, then the recipe is linked on 201 or unlinked on 200 |
| ApiViews.CartEditsSettle | backend/api/views.py:152-161 | adding twice is adding once, removing twice is removing once, adding then removing leaves the recipe out |
| ApiViews.DownloadShoppingCart | backend/api/views.py:196-209 | 401 for anonymous, a server error exactly without a cart, otherwise the user's cart document |
| ApiViews.Subscriptions | backend/api/views.py:218-223 | the authors the viewer follows |
| ApiViews.SubscriptionList | backend/api/views.py:212-223 | 401 exactly for anonymous, otherwise exactly the authors the viewer follows |
| ApiViews.IsSubscribedMatchesList | backend/api/serializers.py:29-37 | `is_subscribed` agrees with membership in the subscription list |
| ApiViews.SubscriptionsAreDirected | backend/api/views.py:221 | following an author does not put the follower in the author's list |
| ApiViews.Subscribe | backend/api/views.py:243-259 | 401 for anonymous; 201 exactly for an existing other author not yet followed, appending that edge; otherwise 400 and no change |
| ApiViews.FindSubscription | backend/api/views.py:233-238 | finds the (viewer, user_id) edge exactly when it exists |
| ApiViews.Unsubscribe | backend/api/views.py:261-262 | 401 for anonymous; 204 exactly when the edge exists, removing that one row; otherwise 404 and no change |
| Serializers.IsSubscribed | backend/api/serializers.py:29-37 | false for anonymous, otherwise true exactly when the viewer-to-obj edge exists |
| Serializers.ReverseEdgeDoesNotCount | backend/api/serializers.py:33-36 | an edge from obj to the viewer does not count |
| Serializers.NotSubscribedToSelf | backend/users/models.py:61-64 | in a valid table no user is subscribed to themself |
| Serializers.SubscribedAfterEdits | backend/api/serializers.py:33-36 | adding the edge makes it true and deleting it makes it false; other pairs are unaffected |
| Serializers.FieldNames | backend/api/serializers.py:20-27 | a representation's field names in order |
| Serializers.UserRepresentation | backend/api/serializers.py:20-27 | the user fields are email, id, username, first_name, last_name, is_subscribed |
| Serializers.TagRepresentation | backend/api/serializers.py:9-12 | the tag fields are name, slug, color |
| Serializers.TagRepresentationInjective | backend/api/serializers.py:9-12 | distinct tags are represented differently |
| Serializers.UserRepresentationDetermines | backend/api/serializers.py:20-27 | equal representations mean the same id and profile columns; the superuser flag is not shown |
| Validators.SelectedValues | backend/api/validators.py:10 | the selected fields' values in order, or the first missing field |
| Validators.DistinctCount | backend/api/validators.py:11 | the set of values is as large as the list exactly when no value repeats |
| Validators.DoubleValidator.Message | backend/api/validators.py:5-7 | the configured message, or the default one when none is given |
| Validators.DoubleValidator.Call | backend/api/validators.py:9-13 | `__call__`: a lookup failure exactly when a selected field is missing, naming a missing selected field; an error always carries the configured message |
| Validators.CallRaisesIffRepeat | backend/api/validators.py:9-13 | with every field present, it raises exactly when two selected fields hold equal values, and passes otherwise |
| Validators.MissingFieldFirst | backend/api/validators.py:10 | a missing field fails the lookup before any comparison, naming the first such field |
| Validators.FewFieldsPass | backend/api/validators.py:10-11 | with at most one selected field it never raises |
| Validators.OnlySelectedFieldsMatter | backend/api/validators.py:10 | only the selected fields are looked at |
| Validators.CallOnlySeesSelectedFields | backend/api/validators.py:9-13 | values agreeing on the selected fields get the same outcome |
| Validators.OrderDoesNotMatter | backend/api/validators.py:10-11 | the order of the selected fields does not change the outcome |
| Validators.ValidateUsernameInReservedList | backend/users/validators.py:6-8 | "This username is reserved." exactly when the value is in the list, otherwise nothing |
| Validators.CaseVariantPasses | backend/users/validators.py:7 | an example: "Admin" passes a list holding "admin" |
| Validators.ReservedListMonotone | backend/users/validators.py:7 | a longer list rejects every name a shorter one rejects |
| RegexValidators.RunLength | backend/users/migrations/0003_auto_20230201_0838.py:17 | the greedy run of class characters from a position ends at the first character outside the class |
| RegexValidators.MatchesZIff | backend/users/migrations/0003_auto_20230201_0838.py:17 | the pattern matches exactly the non-empty strings wholly in the class |
| RegexValidators.TrailingNewlineRejected | backend/users/migrations/0003_auto_20230201_0838.py:17 | `\Z` rejects a valid name followed by a line feed, which `$` would accept |
| RegexValidators.Validate | backend/users/migrations/0003_auto_20230201_0838.py:17 | the message exactly when the value is not wholly in the class |
| RegexValidators.ValidateUsername | backend/users/migrations/0003_auto_20230201_0838.py:17 | the username check, with its message |
| RegexValidators.UsernameExamples | backend/users/migrations/0003_auto_20230201_0838.py:17 | examples: "a.b@c+1-d_" passes; "" and "a b" fail with the message |
| RegexValidators.ValidateColor | backend/recipes/migrations/0004_auto_20230201_0836.py:17 | as written, the colour check is the same class test with the colour message |
| RegexValidators.ColorRejectsHexFormat | backend/recipes/migrations/0004_auto_20230201_0836.py:17 | "#123456" is rejected and "123456" accepted |
| RegexValidators.ValidateHexColor | backend/recipes/migrations/0004_auto_20230201_0836.py:17 | the colour check as its message describes it: '#' and six hexadecimal digits |
| RegexValidators.HexColorAcceptsItsFormat | backend/recipes/models.py:20-25 | it accepts "#123456", rejects "123456", and what it accepts fits the 16-character column |
| IngredientImport.ReportMessage | backend/recipes/management/commands/import_ingredients.py:40-48 | the success line with the count, the warning line, or the error text |
| IngredientImport.UploadList | backend/recipes/management/commands/import_ingredients.py:21-34 | the queue after the rows, each checked against the catalog before the run; UploadListFacts and LastRowWins state its contents |
| IngredientImport.ImportIngredients | backend/recipes/management/commands/import_ingredients.py:9-48 | on an open error nothing is inserted; otherwise the batch is the queue of the rows, the queue goes into the catalog, and the count is reported, the warning exactly when it is 0 |
| IngredientImport.UploadListFacts | backend/recipes/management/commands/import_ingredients.py:21-34 | queued rows are new rows of the file under their own labels, and every new row's label is queued |
| IngredientImport.LastRowWins | backend/recipes/management/commands/import_ingredients.py:26-34 | the row queued under a label is the last new row of the file with that label |
| IngredientImport.RepeatedRowQueuedOnce | backend/recipes/management/commands/import_ingredients.py:21-39 | existence is checked against the catalog before the run, so a new row listed twice is queued once |
| IngredientImport.NothingNewQueuesNothing | backend/recipes/management/commands/import_ingredients.py:22-25 | a file with no new row queues nothing |
| IngredientImport.NoParensEveryRowInserted | backend/recipes/management/commands/import_ingredients.py:21-39 | without '(' in names, every new row of the file reaches the catalog |
| IngredientImport.LabelCollisionDropsRow | backend/recipes/management/commands/import_ingredients.py:26-34 | two rows that print alike share one queue entry, so the earlier one is never inserted |

## Left out

- PDF rendering is not modelled: the canvas, the font, the drawing calls, the buffer and the file response. The model stops at the title, the text rows and the file name. The leading character `chr(2610)` is a constant; its argument is decimal, so it is U+0A32 (Gurmukhi letter LA), not the ballot box U+2610.
- HTTP and REST framework plumbing is not modelled: responses, headers, serializer instances, routers and djoser. Outcomes are a `Status` datatype.
- The order of the permission check and the method check is a modelling choice: for a request that is anonymous and uses a method the action does not allow, the model answers 401, not 405.
- The recipe create and update views, `RecipeViewSerializer`, `RecipeEditSerializer` and the image field are not modelled. Their source is not part of this model.
- `api.permissions` is not modelled; `IsAuthorAdminOrReadOnly` is only a name.
- `api.utils` is not modelled. The helpers `api/views.py` imports from it and calls at lines 265-270 are modelled by the visible `cart/views.py` versions.
- ApiViews.Subscribe: `SubscriptionSerializer` is not part of this model, so its rejections are one 400 outcome for an unknown author, a self-follow or a duplicate. None of them changes anything, by the table constraints.
- ApiViews.RecipeQuery: takes `author` as an integer, so a non-numeric value (a lookup error in the ORM) is not modelled.
- ApiViews.Favorite: takes the recipe id from the URL as an integer. A non-numeric id makes the `pk` lookup raise a ValueError (a server error), which is not modelled.
- ApiViews.ShoppingCart: takes the recipe id as an integer. A non-numeric id fails the `pk` lookup with a server error after the cart has been created, which is not modelled.
- ApiViews.Subscribe: takes `user_id` as an integer. A non-numeric id makes `int(user_id)` raise a ValueError (a server error), which is not modelled.
- ApiViews.Unsubscribe: takes `user_id` as an integer. A non-numeric id makes the `author_id` lookup raise a ValueError (a server error), which is not modelled.
- ORM mechanics are not modelled: `select_related`/`prefetch_related`, the prefetch cache and transactions. The tables are sequences, maps and sets that satisfy the declared constraints.
- IngredientImport.ImportIngredients: `bulk_create(…, ignore_conflicts=True)` is modelled as adding the queued pairs to the catalog. A conflict on the unique ingredient name, which the database would skip, is not modelled.
- Unicode case folding (`istartswith`) and Unicode `\w` are not implemented. They are the function parameters `fold` and `isWord`.
- `settings.RESERVED_USERNAMES` is the parameter `reserved`.
- Opening and parsing the CSV file is not modelled. The file is its rows, or the error text of opening it.
- The styling of the command's output is not modelled, only the text of the line.
- RecipeModels.Catalog.Valid: the ingredients' `ordering = ('name',)` is taken as Python's code-point order of strings. The database sorts under its collation, which need not be code-point order.
- RecipeModels.IngredientNamesUnique: derives unique names from that code-point order; the `unique=True` column itself does not depend on it.
- ApiViews.SearchKeepsNameOrder: the name order it keeps is the code-point order above, not the database collation's.
- IngredientImport.NoParensEveryRowInserted: shares the gap of ImportIngredients: a queued row whose name is already in the catalog under another unit would be skipped by the database as a conflict, which the model does not capture.
- The units' name ordering is not modelled, because units are a map keyed by id and nothing in the core lists them.
- The deletion cascades of an ingredient row or a unit row are not modelled. Only the deletion of an ingredient-with-unit row is.
- The length validators' messages are not modelled; the column lengths are constraints of the tables.
- The admin files and the cart app's migration are not modelled. They declare admin screens and schema, with no logic.

## Findings

| source | as written | input that shows it | evidently intended | confidence | as-written member | corrected member |
|---|---|---|---|---|---|---|
| backend/api/views.py:58 | the action name is compared for equality with a tuple of three names, which a string never equals | action "list" gets `IsAuthorAdminOrReadOnly` | `IsAuthenticated` for list, retrieve and create (a membership test) | medium, not executed | ApiViews.GetPermissions, ApiViews.PermissionsDiffer | ApiViews.GetPermissionsIntended |
| backend/api/views.py:74-100 | each active filter replaces the queryset built so far | `?author=1&is_favorited=1` by user 1, who favourited recipe 5 by user 2, lists recipe 5 | the filters narrow each other, so only user 1's own favourites are listed | medium, not executed | ApiViews.RecipeQuery, ApiViews.FilterReplacesNotNarrows | ApiViews.RecipeQueryNarrowed, ApiViews.NarrowedKeepsOrder |
| backend/recipes/migrations/0004_auto_20230201_0836.py:17 | the colour column reuses the username pattern, whose class has no '#' | "#123456", the format the message names, is rejected and "123456" is accepted | '#' followed by six hexadecimal digits | high, not executed | RegexValidators.ValidateColor, RegexValidators.ColorRejectsHexFormat | RegexValidators.ValidateHexColor, RegexValidators.HexColorAcceptsItsFormat |
