/**
 * `RecipeViewSet.get_queryset`: the requester's recipes, optionally filtered
 * by the `tags` and `ingredients` query parameters, newest id first.
 *
 * A parameter counts only when present and non-empty (Python truthiness); it
 * is then parsed by `_params_to_ints`, whose `ValueError` escapes the view.
 * Each filter is a separate join over a many-to-many relation, and the query
 * has no `distinct()`: a recipe comes back once per pair of matching tag and
 * matching ingredient. The same queryset backs `get_object`, used by the
 * image upload.
 */
module RecipeQuery {
  import opened Base
  import opened IntParse
  import opened Entities

  /** The two filter parameters as they arrive in the query string. */
  datatype RecipeParams = RecipeParams(tags: Option<string>, ingredients: Option<string>)

  /** `if tags:` — present and not the empty string. */
  predicate Given(p: Option<string>)
  {
    p.Some? && p.value != ""
  }

  /** The id list a parameter filters by: `None` applies no filter; a failure carries the piece
      `int()` rejected. */
  function ParseFilter(p: Option<string>): (r: Result<Option<seq<int>>, string>)
    ensures !Given(p) ==> r == Success(None)
    ensures Given(p) ==> (r.Failure? <==> ParamsToInts(p.value).Failure?)
    ensures Given(p) && ParamsToInts(p.value).Success? ==> r == Success(Some(ParamsToInts(p.value).value))
    ensures Given(p) && ParamsToInts(p.value).Failure? ==> r == Failure(ParamsToInts(p.value).error)
  {
    if !Given(p) then Success(None)
    else match ParamsToInts(p.value)
      case Failure(e) => Failure(e)
      case Success(ids) => Success(Some(ids))
  }

  function SetOf(ids: seq<int>): set<int>
  {
    set i | i in ids
  }

  /** The recipe passes one filter: off, or some listed id is related to it. */
  predicate Passes(related: set<int>, filter: Option<seq<int>>)
  {
    filter.None? || exists i :: i in filter.value && i in related
  }

  lemma Meets(related: set<int>, ids: seq<int>)
    ensures |related * SetOf(ids)| > 0 <==> exists i :: i in ids && i in related
  {
    var both := related * SetOf(ids);
    if exists i :: i in ids && i in related {
      var i :| i in ids && i in related;
      assert i in both;
    } else {
      assert forall i :: i !in both;
      assert both == {};
    }
  }

  /** Rows one join contributes for a recipe: one per related id that is listed (`id__in` is a set
      test, so a repeated id in the list adds nothing), or one row when the filter is off. */
  function JoinFactor(related: set<int>, filter: Option<seq<int>>): (n: nat)
    ensures n > 0 <==> Passes(related, filter)
  {
    match filter
    case None => 1
    case Some(ids) =>
      var both := related * SetOf(ids);
      Meets(related, ids);
      |both|
  }

  /** Rows the two chained joins yield for one recipe. */
  function RowCount(r: Recipe, tagFilter: Option<seq<int>>, ingredientFilter: Option<seq<int>>): (n: nat)
    ensures n > 0 <==> Passes(r.tags, tagFilter) && Passes(r.ingredients, ingredientFilter)
  {
    var byTags := JoinFactor(r.tags, tagFilter);
    var byIngredients := JoinFactor(r.ingredients, ingredientFilter);
    MulPositive(byTags, byIngredients);
    byTags * byIngredients
  }

  /** Each recipe of `s`, in place, repeated as often as the joins yield it. */
  function Expand(s: seq<Recipe>, tagFilter: Option<seq<int>>, ingredientFilter: Option<seq<int>>): seq<Recipe>
  {
    if s == [] then []
    else Repeat(s[0], RowCount(s[0], tagFilter, ingredientFilter)) + Expand(s[1..], tagFilter, ingredientFilter)
  }

  /** `filter(user=request.user)`. */
  function OwnedRecipes(recipes: seq<Recipe>, user: UserId): (r: seq<Recipe>)
    ensures forall x :: x in r <==> x in recipes && x.owner == user
  {
    if recipes == [] then []
    else (if recipes[0].owner == user then [recipes[0]] else []) + OwnedRecipes(recipes[1..], user)
  }

  /** Ids never increase along the sequence. */
  predicate SortedByIdDesc(s: seq<Recipe>)
  {
    forall i, j :: 0 <= i < j < |s| ==> s[i].id >= s[j].id
  }

  /** A row whose id is at least every id of a sorted sequence can go in front of it. */
  lemma PrependDesc(h: Recipe, t: seq<Recipe>)
    requires SortedByIdDesc(t)
    requires forall j :: 0 <= j < |t| ==> h.id >= t[j].id
    ensures SortedByIdDesc([h] + t)
  {
    var r := [h] + t;
    forall i, j | 0 <= i < j < |r| ensures r[i].id >= r[j].id {
      assert r[j] == t[j - 1];
      if i > 0 {
        assert r[i] == t[i - 1];
      }
    }
  }

  /** In a sequence sorted by id descending, the head's id is the largest. */
  lemma HeadIdLargest(s: seq<Recipe>, y: Recipe)
    requires SortedByIdDesc(s) && s != [] && y in s
    ensures s[0].id >= y.id
  {
    var k :| 0 <= k < |s| && s[k] == y;
    if k > 0 {
      assert s[0].id >= s[k].id;
    }
  }

  function InsertByIdDesc(x: Recipe, s: seq<Recipe>): (r: seq<Recipe>)
    requires SortedByIdDesc(s)
    ensures multiset(r) == multiset(s) + multiset{x}
    ensures SortedByIdDesc(r)
  {
    if s == [] || x.id >= s[0].id then
      forall j | 0 <= j < |s| ensures x.id >= s[j].id {
        HeadIdLargest(s, s[j]);
      }
      PrependDesc(x, s);
      [x] + s
    else
      var rest := InsertByIdDesc(x, s[1..]);
      MultisetCons(s);
      forall j | 0 <= j < |rest|
        ensures s[0].id >= rest[j].id
      {
        assert rest[j] in multiset(rest);
        if rest[j] != x {
          assert rest[j] in s;
          HeadIdLargest(s, rest[j]);
        }
      }
      PrependDesc(s[0], rest);
      [s[0]] + rest
  }

  /** `order_by('-id')`: a permutation of the rows, largest id first. */
  function SortByIdDesc(s: seq<Recipe>): (r: seq<Recipe>)
    ensures multiset(r) == multiset(s)
    ensures SortedByIdDesc(r)
  {
    if s == [] then []
    else
      assert s == [s[0]] + s[1..];
      InsertByIdDesc(s[0], SortByIdDesc(s[1..]))
  }

  /** The recipe list the requester receives, or the piece of a parameter `int()` rejected (the tags
      parameter is parsed first). */
  function ListRecipes(recipes: seq<Recipe>, user: UserId, params: RecipeParams): (r: Result<seq<Recipe>, string>)
    ensures r.Failure? <==>
      || (Given(params.tags) && ParamsToInts(params.tags.value).Failure?)
      || (Given(params.ingredients) && ParamsToInts(params.ingredients.value).Failure?)
    ensures Given(params.tags) && ParamsToInts(params.tags.value).Failure? ==>
      r == Failure(ParamsToInts(params.tags.value).error)
    ensures (ParseFilter(params.tags).Success? && Given(params.ingredients)
             && ParamsToInts(params.ingredients.value).Failure?) ==>
      r == Failure(ParamsToInts(params.ingredients.value).error)
    ensures r.Success? ==> forall x :: x in r.value <==>
      && x in recipes && x.owner == user
      && Passes(x.tags, ParseFilter(params.tags).value)
      && Passes(x.ingredients, ParseFilter(params.ingredients).value)
    ensures r.Success? ==> SortedByIdDesc(r.value)
  {
    match ParseFilter(params.tags)
    case Failure(e) => Failure(e)
    case Success(tagFilter) =>
      match ParseFilter(params.ingredients)
      case Failure(e) => Failure(e)
      case Success(ingredientFilter) =>
        var sorted := SortByIdDesc(OwnedRecipes(recipes, user));
        assert forall x :: x in sorted <==> x in multiset(sorted);
        ExpandMembers(sorted, tagFilter, ingredientFilter);
        ExpandSorted(sorted, tagFilter, ingredientFilter);
        Success(Expand(sorted, tagFilter, ingredientFilter))
  }

  // ---------------------------------------------------------------- the joins

  lemma {:induction false} ExpandMembers(s: seq<Recipe>, tagFilter: Option<seq<int>>, ingredientFilter: Option<seq<int>>)
    ensures forall x :: x in Expand(s, tagFilter, ingredientFilter) <==>
      x in s && Passes(x.tags, tagFilter) && Passes(x.ingredients, ingredientFilter)
  {
    if s != [] {
      ExpandMembers(s[1..], tagFilter, ingredientFilter);
      var here := Repeat(s[0], RowCount(s[0], tagFilter, ingredientFilter));
      assert forall x :: x in here <==> x == s[0] && |here| > 0;
      assert s == [s[0]] + s[1..];
    }
  }

  /** The joins yield a recipe as many times as it occurs times its row count. */
  lemma {:induction false} ExpandCount(s: seq<Recipe>, tagFilter: Option<seq<int>>, ingredientFilter: Option<seq<int>>,
                                       x: Recipe)
    ensures multiset(Expand(s, tagFilter, ingredientFilter))[x] == multiset(s)[x] * RowCount(x, tagFilter, ingredientFilter)
  {
    if s != [] {
      var c := RowCount(x, tagFilter, ingredientFilter);
      var m := multiset(s[1..])[x];
      ExpandCount(s[1..], tagFilter, ingredientFilter, x);
      MultisetCons(s);
      var here := Repeat(s[0], RowCount(s[0], tagFilter, ingredientFilter));
      var rest := Expand(s[1..], tagFilter, ingredientFilter);
      assert Expand(s, tagFilter, ingredientFilter) == here + rest;
      assert multiset(here + rest)[x] == multiset(here)[x] + multiset(rest)[x];
      RepeatCount(s[0], RowCount(s[0], tagFilter, ingredientFilter), x);
      CountStep(x == s[0], multiset(s)[x], m, c, multiset(here)[x], multiset(rest)[x]);
    }
  }

  /** Two id-descending runs, the first never below the second, concatenate to one. */
  lemma SortedDescAppend(a: seq<Recipe>, b: seq<Recipe>)
    requires SortedByIdDesc(a) && SortedByIdDesc(b)
    requires forall i, j :: 0 <= i < |a| && 0 <= j < |b| ==> a[i].id >= b[j].id
    ensures SortedByIdDesc(a + b)
  {
    var e := a + b;
    forall i, j | 0 <= i < j < |e|
      ensures e[i].id >= e[j].id
    {
      if j < |a| {
        assert e[i] == a[i] && e[j] == a[j];
      } else if i < |a| {
        assert e[i] == a[i] && e[j] == b[j - |a|];
      } else {
        assert e[i] == b[i - |a|] && e[j] == b[j - |a|];
      }
    }
  }

  /** Repeating rows in place keeps the id order. */
  lemma {:induction false} ExpandSorted(s: seq<Recipe>, tagFilter: Option<seq<int>>, ingredientFilter: Option<seq<int>>)
    requires SortedByIdDesc(s)
    ensures SortedByIdDesc(Expand(s, tagFilter, ingredientFilter))
  {
    if s != [] {
      var here := Repeat(s[0], RowCount(s[0], tagFilter, ingredientFilter));
      var rest := Expand(s[1..], tagFilter, ingredientFilter);
      ExpandSorted(s[1..], tagFilter, ingredientFilter);
      ExpandMembers(s[1..], tagFilter, ingredientFilter);
      forall i, j | 0 <= i < |here| && 0 <= j < |rest|
        ensures here[i].id >= rest[j].id
      {
        assert rest[j] in rest;
        HeadIdLargest(s, rest[j]);
      }
      SortedDescAppend(here, rest);
    }
  }

  /** With both filters off every row appears once, in place. */
  lemma {:induction false} ExpandUnfiltered(s: seq<Recipe>)
    ensures Expand(s, None, None) == s
  {
    if s != [] {
      ExpandUnfiltered(s[1..]);
      assert Repeat(s[0], RowCount(s[0], None, None)) == [s[0]];
      assert s == [s[0]] + s[1..];
    }
  }

  lemma {:induction false} OwnedRecipesCount(recipes: seq<Recipe>, user: UserId, x: Recipe)
    ensures multiset(OwnedRecipes(recipes, user))[x] == if x.owner == user then multiset(recipes)[x] else 0
  {
    if recipes != [] {
      OwnedRecipesCount(recipes[1..], user, x);
      assert recipes == [recipes[0]] + recipes[1..];
    }
  }

  // ---------------------------------------------------------------- properties of the listing

  lemma ListRecipesRows(recipes: seq<Recipe>, user: UserId, params: RecipeParams,
                        tagFilter: Option<seq<int>>, ingredientFilter: Option<seq<int>>)
    requires ParseFilter(params.tags) == Success(tagFilter)
    requires ParseFilter(params.ingredients) == Success(ingredientFilter)
    ensures ListRecipes(recipes, user, params)
         == Success(Expand(SortByIdDesc(OwnedRecipes(recipes, user)), tagFilter, ingredientFilter))
  {
  }

  /** No `distinct()`: a recipe of the requester appears once per matching (tag, ingredient) pair of
      the active filters; another user's recipe never appears. */
  lemma ListRecipesCount(recipes: seq<Recipe>, user: UserId, params: RecipeParams, x: Recipe)
    requires ListRecipes(recipes, user, params).Success?
    ensures multiset(ListRecipes(recipes, user, params).value)[x] ==
      if x.owner == user
      then multiset(recipes)[x] * RowCount(x, ParseFilter(params.tags).value, ParseFilter(params.ingredients).value)
      else 0
  {
    var tf := ParseFilter(params.tags).value;
    var inf := ParseFilter(params.ingredients).value;
    var owned := OwnedRecipes(recipes, user);
    var sorted := SortByIdDesc(owned);
    ExpandCount(sorted, tf, inf, x);
    OwnedRecipesCount(recipes, user, x);
  }

  /** Both parameters together keep exactly the recipes each one alone keeps. */
  lemma FiltersCombineWithAnd(recipes: seq<Recipe>, user: UserId, tags: string, ingredients: string)
    requires ListRecipes(recipes, user, RecipeParams(Some(tags), Some(ingredients))).Success?
    ensures var both := ListRecipes(recipes, user, RecipeParams(Some(tags), Some(ingredients))).value;
      var byTags := ListRecipes(recipes, user, RecipeParams(Some(tags), None)).value;
      var byIngredients := ListRecipes(recipes, user, RecipeParams(None, Some(ingredients))).value;
      forall x :: x in both <==> x in byTags && x in byIngredients
  {
  }

  /** An empty parameter is the same as an absent one. */
  lemma EmptyParameterIgnored(recipes: seq<Recipe>, user: UserId, ingredients: Option<string>)
    ensures ListRecipes(recipes, user, RecipeParams(Some(""), ingredients))
         == ListRecipes(recipes, user, RecipeParams(None, ingredients))
  {
  }

  /** With no filter the list is the requester's recipes, each once, newest id first. */
  lemma UnfilteredList(recipes: seq<Recipe>, user: UserId, params: RecipeParams)
    requires !Given(params.tags) && !Given(params.ingredients)
    ensures ListRecipes(recipes, user, params) == Success(SortByIdDesc(OwnedRecipes(recipes, user)))
  {
    ExpandUnfiltered(SortByIdDesc(OwnedRecipes(recipes, user)));
  }

  /** Two pieces that parse convert to their two values. */
  lemma ParseAllPair(a: string, b: string, x: int, y: int)
    requires ParseInt(a) == Some(x) && ParseInt(b) == Some(y)
    ensures ParseAll([a, b]) == Success([x, y])
  {
    var r := ParseAll([a, b]);
    assert [a, b][0] == a && [a, b][1] == b;
    assert r.Success?;
    assert r.value[0] == x && r.value[1] == y;
    assert r.value == [x, y];
  }

  /** The parameter `1,2` splits into the pieces `1` and `2`. */
  lemma SplitOneTwo()
    ensures Text.Split("1,2") == ["1", "2"]
  {
    Text.SplitNoComma("2");
    Text.SplitAppend("1", "2");
    assert "1" + "," + "2" == "1,2";
  }

  lemma ParseOneTwo()
    ensures ParseFilter(Some("1,2")) == Success(Some([1, 2]))
  {
    SplitOneTwo();
    ParseShow(1);
    ParseShow(2);
    assert Show(1) == "1" && Show(2) == "2";
    ParseAllPair("1", "2", 1, 2);
    assert ParamsToInts("1,2") == Success([1, 2]);
  }

  lemma TwoMatchingTags(r: Recipe)
    requires r.tags == {1, 2}
    ensures RowCount(r, Some([1, 2]), None) == 2
  {
    assert SetOf([1, 2]) == {1, 2};
    assert r.tags * SetOf([1, 2]) == {1, 2};
    assert JoinFactor(r.tags, Some([1, 2])) == 2;
  }

  /** A lone recipe whose tags include two listed ids comes back twice. */
  lemma TwoMatchesTwoRows(r: Recipe, params: RecipeParams)
    requires ParseFilter(params.tags) == Success(Some([1, 2])) && params.ingredients == None
    requires r.tags == {1, 2}
    ensures ListRecipes([r], r.owner, params) == Success([r, r])
  {
    var rows := SortByIdDesc(OwnedRecipes([r], r.owner));
    SingleOwnRecipe(r);
    ExpandSingle(r, Some([1, 2]), None);
    TwoMatchingTags(r);
    RepeatTwice(r);
    assert Expand(rows, Some([1, 2]), None) == [r, r];
    ListRecipesRows([r], r.owner, params, Some([1, 2]), None);
  }

  lemma RepeatTwice(r: Recipe)
    ensures Repeat(r, 2) == [r, r]
  {
    assert Repeat(r, 1) == [r] + Repeat(r, 0);
  }

  /** A table holding one recipe lists it for its owner. */
  lemma SingleOwnRecipe(r: Recipe)
    ensures SortByIdDesc(OwnedRecipes([r], r.owner)) == [r]
  {
    assert [r][1..] == [];
    assert OwnedRecipes([r], r.owner) == [r] + OwnedRecipes([], r.owner);
    assert SortByIdDesc([r]) == InsertByIdDesc(r, SortByIdDesc([]));
  }

  /** One recipe expands to its own rows. */
  lemma ExpandSingle(r: Recipe, tagFilter: Option<seq<int>>, ingredientFilter: Option<seq<int>>)
    ensures Expand([r], tagFilter, ingredientFilter) == Repeat(r, RowCount(r, tagFilter, ingredientFilter))
  {
    assert [r][1..] == [];
    AppendEmpty(Repeat(r, RowCount(r, tagFilter, ingredientFilter)));
  }

  /** A recipe tagged 1 and 2, listed with `tags=1,2`, comes back twice. */
  lemma RepeatedRow()
    ensures var r := Recipe(1, 10, "A recipe", {1, 2}, {}, None);
      ListRecipes([r], 10, RecipeParams(Some("1,2"), None)) == Success([r, r])
  {
    ParseOneTwo();
    TwoMatchesTwoRows(Recipe(1, 10, "A recipe", {1, 2}, {}, None), RecipeParams(Some("1,2"), None));
  }

  // ---------------------------------------------------------------- get_object

  /** What `get_object()` makes of a primary key over this queryset: `get()` raises 404 when no row
      has the key and `MultipleObjectsReturned` (a server error) when several rows do. */
  datatype Lookup = Found(recipe: Recipe) | NotFound | MultipleFound | BadParameter(token: string)

  /** `filter(pk=pk)` over the rows. */
  function WithId(rows: seq<Recipe>, pk: int): (r: seq<Recipe>)
    ensures forall x :: x in r <==> x in rows && x.id == pk
  {
    if rows == [] then []
    else (if rows[0].id == pk then [rows[0]] else []) + WithId(rows[1..], pk)
  }

  /** The recipe `upload_image` acts on: looked up in the scoped, filtered listing. */
  function GetObject(recipes: seq<Recipe>, user: UserId, params: RecipeParams, pk: int): (l: Lookup)
    ensures l.BadParameter? <==> ListRecipes(recipes, user, params).Failure?
    ensures l.BadParameter? ==> l.token == ListRecipes(recipes, user, params).error
    ensures l.Found? ==> l.recipe in recipes && l.recipe.owner == user && l.recipe.id == pk
    ensures l.NotFound? ==> forall x :: x in recipes && x.owner == user && x.id == pk ==>
      x !in ListRecipes(recipes, user, params).value
  {
    match ListRecipes(recipes, user, params)
    case Failure(e) => BadParameter(e)
    case Success(rows) =>
      var hits := WithId(rows, pk);
      if |hits| == 0 then NotFound
      else if |hits| == 1 then
        assert hits[0] in hits;
        assert hits == [hits[0]];
        Found(hits[0])
      else MultipleFound
  }

  /** `get()` over the listed rows with the key: none is "not found", exactly one is the object,
      and two or more (the same recipe repeated by the joins) is `MultipleObjectsReturned`. */
  lemma GetObjectCases(recipes: seq<Recipe>, user: UserId, params: RecipeParams, pk: int)
    requires ListRecipes(recipes, user, params).Success?
    ensures var hits := WithId(ListRecipes(recipes, user, params).value, pk);
      var l := GetObject(recipes, user, params, pk);
      && (l == NotFound <==> hits == [])
      && (l.Found? <==> |hits| == 1)
      && (l.Found? ==> hits == [l.recipe] && l.recipe in ListRecipes(recipes, user, params).value)
      && (l == MultipleFound <==> |hits| >= 2)
  {
    var hits := WithId(ListRecipes(recipes, user, params).value, pk);
    if |hits| == 1 {
      assert hits == [hits[0]];
    }
  }

  lemma {:induction false} OwnedRecipesUnique(recipes: seq<Recipe>, user: UserId)
    requires UniqueRecipeIds(recipes)
    ensures UniqueRecipeIds(OwnedRecipes(recipes, user))
  {
    if recipes != [] {
      OwnedRecipesUnique(recipes[1..], user);
      var rest := OwnedRecipes(recipes[1..], user);
      forall y | y in rest
        ensures y.id != recipes[0].id
      {
        var k :| 0 <= k < |recipes[1..]| && recipes[1..][k] == y;
        assert recipes[k + 1] == y;
      }
    }
  }

  lemma {:induction false} UniqueIdsCountAtMostOne(s: seq<Recipe>, x: Recipe)
    requires UniqueRecipeIds(s)
    ensures multiset(s)[x] <= 1
  {
    if s != [] {
      assert s == [s[0]] + s[1..];
      UniqueIdsCountAtMostOne(s[1..], x);
      if s[0] == x {
        assert forall k :: 0 <= k < |s[1..]| ==> s[1..][k].id != x.id;
        assert x !in s[1..];
      }
    }
  }

  /** A permutation of rows with distinct ids has distinct ids. */
  lemma PermutationUnique(s: seq<Recipe>, t: seq<Recipe>)
    requires UniqueRecipeIds(s) && multiset(t) == multiset(s)
    ensures UniqueRecipeIds(t)
  {
    forall i, j | 0 <= i < j < |t|
      ensures t[i].id != t[j].id
    {
      var x, y := t[i], t[j];
      assert x in multiset(s) && y in multiset(s);
      if x == y {
        assert multiset(t)[x] >= 2 by {
          assert t == t[..i] + [x] + t[i + 1..j] + [x] + t[j + 1..];
        }
        UniqueIdsCountAtMostOne(s, x);
        assert false;
      } else {
        var p :| 0 <= p < |s| && s[p] == x;
        var q :| 0 <= q < |s| && s[q] == y;
        assert p != q;
      }
    }
  }

  lemma {:induction false} WithIdUnique(rows: seq<Recipe>, x: Recipe)
    requires UniqueRecipeIds(rows) && x in rows
    ensures WithId(rows, x.id) == [x]
  {
    if rows[0] == x {
      WithIdNone(rows[1..], x.id);
    } else {
      assert x in rows[1..];
      WithIdUnique(rows[1..], x);
    }
  }

  lemma {:induction false} WithIdNone(rows: seq<Recipe>, pk: int)
    requires forall x :: x in rows ==> x.id != pk
    ensures WithId(rows, pk) == []
  {
    if rows != [] {
      assert rows[0] in rows;
      assert forall x :: x in rows[1..] ==> x in rows;
      WithIdNone(rows[1..], pk);
    }
  }

  /** Without filter parameters, a recipe is found by its id exactly when the requester owns it;
      another user's recipe is "not found". */
  lemma GetObjectUnfiltered(recipes: seq<Recipe>, user: UserId, params: RecipeParams, pk: int)
    requires UniqueRecipeIds(recipes)
    requires !Given(params.tags) && !Given(params.ingredients)
    ensures forall x :: x in recipes && x.id == pk && x.owner == user ==> GetObject(recipes, user, params, pk) == Found(x)
    ensures (forall x :: x in recipes && x.id == pk ==> x.owner != user) ==> GetObject(recipes, user, params, pk) == NotFound
  {
    UnfilteredList(recipes, user, params);
    var owned := OwnedRecipes(recipes, user);
    var rows := SortByIdDesc(owned);
    OwnedRecipesUnique(recipes, user);
    PermutationUnique(owned, rows);
    assert forall x :: x in rows <==> x in multiset(owned);
    forall x | x in recipes && x.id == pk && x.owner == user
      ensures GetObject(recipes, user, params, pk) == Found(x)
    {
      WithIdUnique(rows, x);
    }
    if forall x :: x in recipes && x.id == pk ==> x.owner != user {
      WithIdNone(rows, pk);
    }
  }

  /** Rows of a lookup by id that all hold the same recipe are as many as its copies. */
  lemma {:induction false} WithIdCount(rows: seq<Recipe>, x: Recipe)
    requires forall y :: y in rows && y.id == x.id ==> y == x
    ensures |WithId(rows, x.id)| == multiset(rows)[x]
  {
    if rows != [] {
      MultisetCons(rows);
      assert forall y :: y in rows[1..] ==> y in rows;
      WithIdCount(rows[1..], x);
    }
  }

  /** With unique ids, two rows of the table with the same id are the same row. */
  lemma SameIdSameRecipe(recipes: seq<Recipe>, x: Recipe, y: Recipe)
    requires UniqueRecipeIds(recipes) && x in recipes && y in recipes && x.id == y.id
    ensures x == y
  {
    var p :| 0 <= p < |recipes| && recipes[p] == x;
    var q :| 0 <= q < |recipes| && recipes[q] == y;
    assert !(p < q) && !(q < p);
  }

  /** Every listed row with the id of a stored recipe is that recipe. */
  lemma ListedSameId(recipes: seq<Recipe>, user: UserId, params: RecipeParams, x: Recipe)
    requires UniqueRecipeIds(recipes) && x in recipes
    requires ListRecipes(recipes, user, params).Success?
    ensures forall y :: y in ListRecipes(recipes, user, params).value && y.id == x.id ==> y == x
  {
    forall y | y in ListRecipes(recipes, user, params).value && y.id == x.id
      ensures y == x
    {
      assert y in recipes;
      SameIdSameRecipe(recipes, x, y);
    }
  }

  /** A stored recipe of the requester is listed once per row the joins yield for it. */
  lemma ListedOnceCount(recipes: seq<Recipe>, user: UserId, params: RecipeParams, x: Recipe)
    requires UniqueRecipeIds(recipes) && x in recipes && x.owner == user
    requires ListRecipes(recipes, user, params).Success?
    ensures multiset(ListRecipes(recipes, user, params).value)[x]
         == RowCount(x, ParseFilter(params.tags).value, ParseFilter(params.ingredients).value)
  {
    var n := RowCount(x, ParseFilter(params.tags).value, ParseFilter(params.ingredients).value);
    var m := multiset(recipes)[x];
    assert x in multiset(recipes);
    UniqueIdsCountAtMostOne(recipes, x);
    assert m == 1;
    assert m * n == n;
    ListRecipesCount(recipes, user, params, x);
  }

  /** There are as many listed rows with a stored recipe's id as the joins yield for it. */
  lemma ListedWithIdCount(recipes: seq<Recipe>, user: UserId, params: RecipeParams, x: Recipe)
    requires UniqueRecipeIds(recipes) && x in recipes && x.owner == user
    requires ListRecipes(recipes, user, params).Success?
    ensures |WithId(ListRecipes(recipes, user, params).value, x.id)|
         == RowCount(x, ParseFilter(params.tags).value, ParseFilter(params.ingredients).value)
  {
    ListedSameId(recipes, user, params, x);
    WithIdCount(ListRecipes(recipes, user, params).value, x);
    ListedOnceCount(recipes, user, params, x);
  }

  /** Over a table with unique ids, the lookup of an owned recipe through a filtered listing depends
      only on how many rows the joins yield for it: none is "not found", one finds it, and two or
      more (a recipe matching several listed tags or ingredients) is `MultipleObjectsReturned`. */
  lemma GetObjectByRowCount(recipes: seq<Recipe>, user: UserId, params: RecipeParams, x: Recipe)
    requires UniqueRecipeIds(recipes) && x in recipes && x.owner == user
    requires ListRecipes(recipes, user, params).Success?
    ensures var n := RowCount(x, ParseFilter(params.tags).value, ParseFilter(params.ingredients).value);
      && (GetObject(recipes, user, params, x.id) == NotFound <==> n == 0)
      && (GetObject(recipes, user, params, x.id) == Found(x) <==> n == 1)
      && (GetObject(recipes, user, params, x.id) == MultipleFound <==> n >= 2)
  {
    var hits := WithId(ListRecipes(recipes, user, params).value, x.id);
    GetObjectCases(recipes, user, params, x.id);
    ListedWithIdCount(recipes, user, params, x);
    var l := GetObject(recipes, user, params, x.id);
    if |hits| == 1 {
      assert hits[0] in hits;
      SameIdSameRecipe(recipes, x, hits[0]);
    }
  }

  /** With `tags=1,2` on the upload request, a recipe tagged 1 and 2 matches twice and the lookup fails
      with `MultipleObjectsReturned`. */
  lemma RepeatedRowBreaksLookup()
    ensures var r := Recipe(1, 10, "A recipe", {1, 2}, {}, None);
      GetObject([r], 10, RecipeParams(Some("1,2"), None), 1) == MultipleFound
  {
    var r := Recipe(1, 10, "A recipe", {1, 2}, {}, None);
    RepeatedRow();
    assert WithId([r, r], 1) == [r, r];
  }
}
