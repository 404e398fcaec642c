/** The cart app's views: the shopping list of a user's cart (every
    ingredient line of every recipe in the cart, summed per label, sorted by
    label) and the text rows of the PDF it is printed into. */
module ShoppingList {
  import opened Common
  import opened Strings
  import opened SortedItems
  import opened UserModels
  import opened RecipeModels
  import opened CartModels
  import opened Database

  /** The lines of recipe `r`, in table order (the recipe's reverse relation
      to `RecipeIngredients`). */
  function LinesOf(lines: seq<RecipeIngredients>, r: RecipeId): (ls: seq<RecipeIngredients>)
    ensures forall l :: l in ls <==> l in lines && l.recipe == r
  {
    Filter(lines, (l: RecipeIngredients) => l.recipe == r)
  }

  predicate InCatalog(cat: Catalog, ls: seq<RecipeIngredients>) {
    forall l :: l in ls ==> l.ingredient in cat.pairs
  }

  /** The (label, amount) entry of each line, in order. */
  function LineEntries(cat: Catalog, ls: seq<RecipeIngredients>): (es: seq<Item>)
    requires cat.Valid() && InCatalog(cat, ls)
    ensures |es| == |ls|
  {
    seq(|ls|, i requires 0 <= i < |ls| => (cat.Label(ls[i].ingredient), ls[i].amount))
  }

  /** The entries the aggregation visits for the recipe sequence `rs`: the
      lines of the first recipe, then those of the second, and so on. */
  function CartEntries(cat: Catalog, lines: seq<RecipeIngredients>, rs: seq<Recipe>): seq<Item>
    requires cat.Valid() && InCatalog(cat, lines)
  {
    if rs == [] then []
    else CartEntries(cat, lines, rs[..|rs| - 1]) + LineEntries(cat, LinesOf(lines, rs[|rs| - 1].id))
  }

  /** The sum of the amounts of the entries labelled `key`. */
  function SumFor(es: seq<Item>, key: string): int {
    if es == [] then 0
    else SumFor(es[..|es| - 1], key) + (if es[|es| - 1].0 == key then es[|es| - 1].1 else 0)
  }

  /** A label that labels no entry sums to 0 (the `get(..., 0)` default). */
  lemma {:induction false} SumForAbsent(es: seq<Item>, key: string)
    requires key !in Labels(es)
    ensures SumFor(es, key) == 0
  {
    if es != [] {
      var p := es[..|es| - 1];
      SumForAbsent(p, key);
      assert es[|es| - 1].0 in Labels(es);
    }
  }

  /** One more entry: its label joins the labels and its amount joins that
      label's sum and no other. */
  lemma AppendEntry(es: seq<Item>, e: Item)
    ensures Labels(es + [e]) == Labels(es) + {e.0}
    ensures forall l :: SumFor(es + [e], l) == SumFor(es, l) + (if e.0 == l then e.1 else 0)
  {
    var n := es + [e];
    assert n[..|n| - 1] == es;
    forall l | l in Labels(n) ensures l in Labels(es) || l == e.0 {
      var k :| 0 <= k < |n| && n[k].0 == l;
      if k < |es| { assert es[k] == n[k]; }
    }
    forall l | l in Labels(es) ensures l in Labels(n) {
      var k :| 0 <= k < |es| && es[k].0 == l;
      assert n[k] == es[k];
    }
    assert n[|es|] == e;
  }

  /** One step of the inner loop keeps the dictionary equal to the sums of
      the entries visited so far. */
  lemma AddStep(done: seq<Item>, d: map<string, int>, key: string, amount: int)
    requires Sums(d, done)
    ensures Sums(d[key := (if key in d then d[key] else 0) + amount], done + [(key, amount)])
  {
    if key !in d {
      SumForAbsent(done, key);
    }
    AppendEntry(done, (key, amount));
  }

  lemma LineEntriesStep(cat: Catalog, ls: seq<RecipeIngredients>, j: nat, before: seq<Item>)
    requires cat.Valid() && InCatalog(cat, ls) && j < |ls|
    ensures InCatalog(cat, ls[..j]) && InCatalog(cat, ls[..j + 1])
    ensures before + LineEntries(cat, ls[..j + 1])
         == (before + LineEntries(cat, ls[..j])) + [(cat.Label(ls[j].ingredient), ls[j].amount)]
  {
    assert forall l :: l in ls[..j + 1] ==> l in ls;
    assert forall l :: l in ls[..j] ==> l in ls;
    var longer, shorter := LineEntries(cat, ls[..j + 1]), LineEntries(cat, ls[..j]);
    forall k | 0 <= k < j ensures longer[k] == shorter[k] {
      assert ls[..j + 1][k] == ls[..j][k];
    }
    assert longer[j] == (cat.Label(ls[j].ingredient), ls[j].amount);
    assert longer == shorter + [longer[j]];
  }

  lemma CartEntriesStep(cat: Catalog, lines: seq<RecipeIngredients>, recipes: seq<Recipe>, i: nat)
    requires cat.Valid() && InCatalog(cat, lines) && i < |recipes|
    ensures CartEntries(cat, lines, recipes[..i + 1])
         == CartEntries(cat, lines, recipes[..i]) + LineEntries(cat, LinesOf(lines, recipes[i].id))
  {
    assert recipes[..i + 1][..i] == recipes[..i];
  }

  /** The recipes of `user`'s cart as the join `user.cart.recipes.all()`
      returns them. */
  function CartRecipesOf(db: Db, user: UserId): seq<Recipe>
    reads db
    requires user in db.carts
  {
    CartJoin(db.recipes, db.cartLinks, db.carts[user])
  }

  lemma LinesInCatalog(db: Db)
    requires db.Valid()
    ensures InCatalog(db.catalog, db.lines)
  {
    forall l | l in db.lines ensures l.ingredient in db.catalog.pairs {
      var k :| 0 <= k < |db.lines| && db.lines[k] == l;
    }
  }

  /** The entries `generate_ingredient_list` visits for `user`. */
  function Entries(db: Db, user: UserId): seq<Item>
    reads db
    requires db.Valid() && user in db.carts
  {
    LinesInCatalog(db);
    CartEntries(db.catalog, db.lines, CartRecipesOf(db, user))
  }

  /** The failure of `user.cart` when the user has no cart. */
  datatype NoCart = RelatedObjectDoesNotExist

  /** `d` maps exactly the labels of `es`, each to the sum of its amounts. */
  ghost predicate Sums(d: map<string, int>, es: seq<Item>) {
    && (forall l :: l in d <==> l in Labels(es))
    && (forall l :: l in d ==> d[l] == SumFor(es, l))
  }

  /** The outer loop of `generate_ingredient_list`: for every recipe of the
      cart, the inner loop over its lines. Starting from the empty
      dictionary, it ends holding exactly the labels of the visited lines,
      each with the sum of its lines' amounts. */
  method Aggregate(cat: Catalog, lines: seq<RecipeIngredients>, recipes: seq<Recipe>) returns (d: map<string, int>)
    requires cat.Valid() && InCatalog(cat, lines)
    ensures Sums(d, CartEntries(cat, lines, recipes))
  {
    d := map[];
    var i := 0;
    while i < |recipes|
      invariant 0 <= i <= |recipes|
      invariant Sums(d, CartEntries(cat, lines, recipes[..i]))
    {
      d := AddLines(cat, LinesOf(lines, recipes[i].id), d, CartEntries(cat, lines, recipes[..i]));
      CartEntriesStep(cat, lines, recipes, i);
      i := i + 1;
    }
    assert recipes[..i] == recipes;
  }

  /** The inner loop of `generate_ingredient_list`: for every line of one
      recipe, `ingredient_list[label] = ingredient_list.get(label, 0) +
      amount`. */
  method AddLines(cat: Catalog, ls: seq<RecipeIngredients>, d0: map<string, int>, ghost before: seq<Item>)
    returns (d: map<string, int>)
    requires cat.Valid() && InCatalog(cat, ls)
    requires Sums(d0, before)
    ensures Sums(d, before + LineEntries(cat, ls))
  {
    d := d0;
    var j := 0;
    assert before + LineEntries(cat, ls[..0]) == before;
    while j < |ls|
      invariant 0 <= j <= |ls|
      invariant Sums(d, before + LineEntries(cat, ls[..j]))
    {
      var key := cat.Label(ls[j].ingredient);
      AddStep(before + LineEntries(cat, ls[..j]), d, key, ls[j].amount);
      LineEntriesStep(cat, ls, j, before);
      d := d[key := (if key in d then d[key] else 0) + ls[j].amount];
      j := j + 1;
    }
    assert ls[..j] == ls;
  }

  /** `generate_ingredient_list`: the dictionary of sums over the cart's
      recipes, then `sorted(ingredient_list.items())`. The result is strictly
      increasing by label, holds exactly the labels of the visited lines, and
      gives each label the sum of its lines' amounts; a user without a cart
      fails at `user.cart`. */
  method GenerateIngredientList(db: Db, user: UserId) returns (r: Result<seq<Item>, NoCart>)
    requires db.Valid()
    ensures r.Err? <==> user !in db.carts
    ensures r.Ok? ==> && StrictlySorted(r.value)
                      && Labels(r.value) == Labels(Entries(db, user))
                      && forall i :: 0 <= i < |r.value| ==> r.value[i].1 == SumFor(Entries(db, user), r.value[i].0)
  {
    if user !in db.carts {
      return Err(RelatedObjectDoesNotExist);
    }
    LinesInCatalog(db);
    var d := Aggregate(db.catalog, db.lines, CartRecipesOf(db, user));
    var items := SortedMapItems(d);
    return Ok(items);
  }

  /** `sorted(d.items())`: the pairs of `d` in strictly increasing key order. */
  method SortedMapItems(d: map<string, int>) returns (items: seq<Item>)
    ensures StrictlySorted(items)
    ensures Labels(items) == d.Keys
    ensures forall i :: 0 <= i < |items| ==> items[i].0 in d && items[i].1 == d[items[i].0]
  {
    items := [];
    var rest := d.Keys;
    while rest != {}
      invariant rest <= d.Keys
      invariant StrictlySorted(items)
      invariant Labels(items) == d.Keys - rest
      invariant forall x :: x in Elements(items) ==> x.0 in d && x.1 == d[x.0]
      decreases |rest|
    {
      var k :| k in rest;
      items := Insert((k, d[k]), items);
      rest := rest - {k};
    }
    assert forall i :: 0 <= i < |items| ==> items[i] in Elements(items);
  }

  /** The list is determined: any two lists meeting the contract of
      `GenerateIngredientList` for the same entries are equal. */
  lemma ListIsDetermined(es: seq<Item>, a: seq<Item>, b: seq<Item>)
    requires StrictlySorted(a) && Labels(a) == Labels(es) && forall i :: 0 <= i < |a| ==> a[i].1 == SumFor(es, a[i].0)
    requires StrictlySorted(b) && Labels(b) == Labels(es) && forall i :: 0 <= i < |b| ==> b[i].1 == SumFor(es, b[i].0)
    ensures a == b
  {
    assert Elements(a) == Elements(b) by {
      forall x | x in Elements(a) ensures x in Elements(b) {
        var k :| 0 <= k < |a| && a[k] == x;
        assert x.0 in Labels(b);
        var m :| 0 <= m < |b| && b[m].0 == x.0;
        assert b[m] == x;
      }
      forall x | x in Elements(b) ensures x in Elements(a) {
        var k :| 0 <= k < |b| && b[k] == x;
        assert x.0 in Labels(a);
        var m :| 0 <= m < |a| && a[m].0 == x.0;
        assert a[m] == x;
      }
    }
    SortedUnique(a, b);
  }

  /** An empty cart, or one whose recipes have no lines, yields no entries. */
  lemma {:induction false} NoLinesNoEntries(cat: Catalog, lines: seq<RecipeIngredients>, rs: seq<Recipe>)
    requires cat.Valid() && InCatalog(cat, lines)
    requires forall i :: 0 <= i < |rs| ==> LinesOf(lines, rs[i].id) == []
    ensures CartEntries(cat, lines, rs) == []
  {
    if rs != [] {
      NoLinesNoEntries(cat, lines, rs[..|rs| - 1]);
    }
  }

  /** Lines merge by label, not by row: two lines on one recipe whose
      ingredient-with-unit rows print the same label add up into one total. */
  lemma SameLabelLinesAreSummed(cat: Catalog, a: RecipeIngredients, b: RecipeIngredients)
    requires cat.Valid() && a.ingredient in cat.pairs && b.ingredient in cat.pairs
    requires cat.Label(a.ingredient) == cat.Label(b.ingredient)
    ensures var es := LineEntries(cat, [a, b]);
            Labels(es) == {cat.Label(a.ingredient)} && SumFor(es, cat.Label(a.ingredient)) == a.amount + b.amount
  {
    var es := LineEntries(cat, [a, b]);
    var l := cat.Label(a.ingredient);
    assert es == [(l, a.amount)] + [(l, b.amount)];
    AppendEntry([(l, a.amount)], (l, b.amount));
    AppendEntry([], (l, a.amount));
    assert [] + [(l, a.amount)] == [(l, a.amount)];
  }

  // ----- The text rows of `generate_pdf`. -----

  const MinAdditionSpaces := 3

  /** The character every row begins with, `chr(2610)`. The argument is
      decimal, so this is U+0A32 (GURMUKHI LETTER LA), not the ballot box
      U+2610. */
  const Glyph: char := 2610 as char

  /** `len(f'{name}{volume}')`. */
  function RowWidth(x: Item): nat {
    |x.0| + |IntToString(x.1)|
  }

  /** `max_line_length` after the first loop: 0 for no pairs, and never
      below any row's width plus three. */
  function MaxLineLength(items: seq<Item>): (m: nat)
    ensures items == [] ==> m == 0
    ensures forall i :: 0 <= i < |items| ==> RowWidth(items[i]) + MinAdditionSpaces <= m
  {
    if items == [] then 0
    else
      var front := items[..|items| - 1];
      var p := MaxLineLength(front);
      var last := RowWidth(items[|items| - 1]) + MinAdditionSpaces;
      assert forall i :: 0 <= i < |front| ==> items[i] == front[i];
      if p >= last then p else last
  }

  /** `max_line_length` is 0 for no pairs; otherwise it is the largest
      `len(name) + len(str(volume)) + 3`: no row exceeds it and some row
      attains it. */
  lemma MaxLineLengthIsMax(items: seq<Item>)
    ensures items == [] ==> MaxLineLength(items) == 0
    ensures forall i :: 0 <= i < |items| ==> RowWidth(items[i]) + MinAdditionSpaces <= MaxLineLength(items)
    ensures items != [] ==> exists i :: 0 <= i < |items| && MaxLineLength(items) == RowWidth(items[i]) + MinAdditionSpaces
  {
    if items != [] {
      var k := MaxLineLengthWitness(items);
    }
  }

  /** The index of a row that attains the maximum. */
  lemma {:induction false} MaxLineLengthWitness(items: seq<Item>) returns (k: nat)
    requires items != []
    ensures k < |items| && MaxLineLength(items) == RowWidth(items[k]) + MinAdditionSpaces
  {
    var front := items[..|items| - 1];
    if front != [] && MaxLineLength(front) >= RowWidth(items[|items| - 1]) + MinAdditionSpaces {
      k := MaxLineLengthWitness(front);
      assert items[k] == front[k];
    } else {
      k := |items| - 1;
    }
  }

  /** The text of one row: the glyph, a space, the label, a colon, the
      underscore fill and the total. */
  function Row(x: Item, width: nat): (row: string)
    requires RowWidth(x) <= width
    ensures |row| == width + 3
  {
    [Glyph] + " " + x.0 + ":" + Underscores(width - RowWidth(x)) + IntToString(x.1)
  }

  /** The two loops of `generate_pdf`: the longest row plus three, then one
      padded row per pair. */
  method ChecklistLines(items: seq<Item>) returns (width: nat, rows: seq<string>)
    ensures width == MaxLineLength(items)
    ensures |rows| == |items|
    ensures forall i :: 0 <= i < |items| ==> RowWidth(items[i]) <= width && rows[i] == Row(items[i], width)
  {
    width := 0;
    var i := 0;
    while i < |items|
      invariant 0 <= i <= |items|
      invariant width == MaxLineLength(items[..i])
    {
      var w := RowWidth(items[i]) + MinAdditionSpaces;
      MaxLineLengthStep(items, i);
      width := if width >= w then width else w;
      i := i + 1;
    }
    assert items[..i] == items;
    MaxLineLengthIsMax(items);
    rows := [];
    i := 0;
    while i < |items|
      invariant 0 <= i <= |items|
      invariant |rows| == i
      invariant forall k :: 0 <= k < i ==> RowWidth(items[k]) <= width && rows[k] == Row(items[k], width)
    {
      var additionalSpaces := width - RowWidth(items[i]);
      var line := [Glyph] + " " + items[i].0 + ":" + Underscores(additionalSpaces) + IntToString(items[i].1);
      RowsStep(items, rows, width, line);
      rows := rows + [line];
      i := i + 1;
    }
  }

  lemma MaxLineLengthStep(items: seq<Item>, i: nat)
    requires i < |items|
    ensures var w := RowWidth(items[i]) + MinAdditionSpaces;
            MaxLineLength(items[..i + 1]) == if MaxLineLength(items[..i]) >= w then MaxLineLength(items[..i]) else w
  {
    assert items[..i + 1][..i] == items[..i];
  }

  lemma RowsStep(items: seq<Item>, rows: seq<string>, width: nat, line: string)
    requires |rows| < |items| && RowWidth(items[|rows|]) <= width
    requires forall k :: 0 <= k < |rows| ==> RowWidth(items[k]) <= width && rows[k] == Row(items[k], width)
    requires line == [Glyph] + " " + items[|rows|].0 + ":" + Underscores(width - RowWidth(items[|rows|])) + IntToString(items[|rows|].1)
    ensures forall k :: 0 <= k < |rows| + 1 ==> RowWidth(items[k]) <= width && (rows + [line])[k] == Row(items[k], width)
  {
  }

  /** The widest row sets the width, so every row gets at least three
      underscores. */
  lemma FillAtLeastThree(items: seq<Item>, i: nat)
    requires i < |items|
    ensures RowWidth(items[i]) + MinAdditionSpaces <= MaxLineLength(items)
  {
    MaxLineLengthIsMax(items);
  }

  /** A row is laid out column by column: the glyph and a space, the label
      from column 2, the colon after it, the underscores, and the total
      right-aligned at the end. Its length is the width plus three whatever
      the pair, so totals line up. */
  lemma RowLayout(x: Item, w: nat)
    requires RowWidth(x) + MinAdditionSpaces <= w
    ensures |Row(x, w)| == w + 3
    ensures Row(x, w)[0] == Glyph && Row(x, w)[1] == ' '
    ensures Row(x, w)[2..2 + |x.0|] == x.0
    ensures Row(x, w)[2 + |x.0|] == ':'
    ensures forall k :: 3 + |x.0| <= k < 3 + |x.0| + (w - RowWidth(x)) ==> Row(x, w)[k] == '_'
    ensures w - RowWidth(x) >= MinAdditionSpaces
    ensures Row(x, w)[w + 3 - |IntToString(x.1)|..] == IntToString(x.1)
  {
    var name := x.0;
    var vol := IntToString(x.1);
    var fill := Underscores(w - RowWidth(x));
    var pre := [Glyph] + " " + name + ":";
    var row := Row(x, w);
    assert row == pre + fill + vol;
    assert |pre| == |name| + 3;
    assert pre[2..2 + |name|] == name;
    assert row[..|pre|] == pre;
    assert row[2..2 + |name|] == pre[2..2 + |name|];
    forall k | |pre| <= k < |pre| + |fill| ensures row[k] == '_' {
      assert row[k] == fill[k - |pre|];
    }
    assert row[|pre| + |fill|..] == vol;
  }

  /** A worked example, kept as documentation of the padding: "flour (g)"
      with 200 sets the width (9 + 3 + 3 = 15); "egg (pcs)" with 3 is padded
      with five underscores. */
  lemma LayoutExample()
    ensures MaxLineLength([("egg (pcs)", 3), ("flour (g)", 200)]) == 15
    ensures Row(("egg (pcs)", 3), 15) == [Glyph] + " egg (pcs):_____3"
    ensures Row(("flour (g)", 200), 15) == [Glyph] + " flour (g):___200"
  {
    var egg := ("egg (pcs)", 3);
    var flour := ("flour (g)", 200);
    assert IntToString(3) == "3";
    assert IntToString(200) == "200" by {
      assert NatToString(200) == NatToString(20) + [DigitChar(0)];
      assert NatToString(20) == NatToString(2) + [DigitChar(0)];
    }
    assert [egg, flour][..1] == [egg];
    var none: seq<Item> := [];
    assert [egg][..0] == none;
    assert Underscores(5) == "_____";
    assert Underscores(3) == "___";
  }

  /** The document title: the owner's first name, then "'s shopping cart". */
  const TitleSuffix := "'s shopping cart"

  function Title(firstName: string): string {
    firstName + TitleSuffix
  }

  /** Reading the owner's name back from a title. The source has no such
      function: it is stated here only to show that the title determines the
      first name it was built from. */
  function TitleOwner(title: string): (owner: Option<string>)
    ensures owner.Some? ==> Title(owner.value) == title
  {
    if |title| >= |TitleSuffix| && title[|title| - |TitleSuffix|..] == TitleSuffix
    then
      assert title[..|title| - |TitleSuffix|] + TitleSuffix == title;
      Some(title[..|title| - |TitleSuffix|])
    else None
  }

  lemma TitleRoundTrip(firstName: string)
    ensures TitleOwner(Title(firstName)) == Some(firstName)
    ensures |Title(firstName)| == |firstName| + 16
  {
    var t := Title(firstName);
    assert t[|t| - |TitleSuffix|..] == TitleSuffix;
    assert t[..|t| - |TitleSuffix|] == firstName;
  }

  const PdfFilename := "shopping_cart.pdf"

  /** What `generate_shopping_cart_pdf` hands to the PDF writer: the title,
      the rows of text under it, and the attachment's file name. */
  datatype Document = Document(title: string, items: seq<Item>, width: nat, rows: seq<string>, filename: string)

  /** `doc` is the shopping-cart document of `user`: titled after the user's
      first name, holding the user's aggregated shopping list sorted by label,
      laid out as checklist rows of one common width, under the fixed file
      name. */
  predicate IsCartDocument(db: Db, user: UserId, doc: Document)
    reads db
    requires db.Valid() && user in db.users && user in db.carts
  {
    && doc.title == Title(db.users[user].firstName)
    && doc.filename == PdfFilename
    && StrictlySorted(doc.items)
    && Labels(doc.items) == Labels(Entries(db, user))
    && (forall i :: 0 <= i < |doc.items| ==> doc.items[i].1 == SumFor(Entries(db, user), doc.items[i].0))
    && doc.width == MaxLineLength(doc.items)
    && |doc.rows| == |doc.items|
    && forall i :: 0 <= i < |doc.items| ==> RowWidth(doc.items[i]) <= doc.width && doc.rows[i] == Row(doc.items[i], doc.width)
  }

  /** `generate_shopping_cart_pdf`. */
  method ShoppingCartPdf(db: Db, user: UserId) returns (r: Result<Document, NoCart>)
    requires db.Valid() && user in db.users
    ensures r.Err? <==> user !in db.carts
    ensures r.Ok? ==> user in db.carts && IsCartDocument(db, user, r.value)
  {
    var list := GenerateIngredientList(db, user);
    if list.Err? {
      return Err(list.error);
    }
    var width, rows := ChecklistLines(list.value);
    return Ok(Document(Title(db.users[user].firstName), list.value, width, rows, PdfFilename));
  }
}
