/**
 * The writes of the views: `perform_create` on the tag, ingredient and recipe
 * endpoints, and the `upload_image` action. The three tables live in one store
 * object whose methods change them in place, with the database's
 * auto-increment counters as fields.
 */
module Store {
  import opened Base
  import opened Text
  import opened Entities
  import RecipeQuery

  /** The body of a request that creates a tag or an ingredient. An owner sent by the client is not
      a serializer field and is carried only to show that it has no effect. */
  datatype AttrPayload = AttrPayload(name: Option<string>, claimedOwner: Option<UserId>)

  /** How the request body was encoded. In form data a list field that is absent reads as an empty
      list; in JSON an absent key stays absent. */
  datatype Encoding = Form | Json

  /** The body of a request that creates a recipe: a title and two lists of primary keys. */
  datatype RecipePayload = RecipePayload(
    encoding: Encoding,
    title: Option<string>,
    tags: Option<seq<int>>,
    ingredients: Option<seq<int>>,
    claimedOwner: Option<UserId>)

  /** A validation error of one field, as the serializer reports it. */
  datatype FieldError =
    | Required(field: string)
    | Blank(field: string)
    | NullCharacter(field: string)
    | DoesNotExist(field: string, pk: int)

  /** The response of the image upload action. */
  datatype UploadResponse = Ok200(id: int, image: ImageFile) | BadRequest400 | NotFound404 | ServerError500

  /** A required text field that does not allow blanks: surrounding whitespace is trimmed first, and
      the trimmed value is then refused if it holds a NUL character, as every text field of the
      serializers is. */
  function CleanText(field: string, value: Option<string>): (r: Result<string, FieldError>)
    ensures r.Success? <==> value.Some? && Strip(value.value) != [] && '\0' !in value.value
    ensures r.Success? ==> r.value == Strip(value.value)
    ensures value.None? ==> r == Failure(Required(field))
    ensures value.Some? && Strip(value.value) == [] ==> r == Failure(Blank(field))
    ensures value.Some? && Strip(value.value) != [] && '\0' in value.value ==> r == Failure(NullCharacter(field))
  {
    match value
    case None => Failure(Required(field))
    case Some(s) =>
      var t := Strip(s);
      TrimKeeps(s, IsSpace, '\0');
      if t == [] then Failure(Blank(field))
      else if '\0' in t then Failure(NullCharacter(field))
      else Success(t)
  }

  /** The first primary key in the list that names no existing row, if any. */
  function FirstMissing(ids: seq<int>, existing: set<int>): (r: Option<int>)
    ensures r.None? <==> forall k :: 0 <= k < |ids| ==> ids[k] in existing
    ensures r.Some? ==> exists k ::
      && 0 <= k < |ids|
      && ids[k] == r.value
      && r.value !in existing
      && forall j :: 0 <= j < k ==> ids[j] in existing
  {
    if ids == [] then None
    else if ids[0] !in existing then
      Some(ids[0])
    else
      var rest := FirstMissing(ids[1..], existing);
      if rest.Some? then
        ghost var k :| 0 <= k < |ids[1..]| && ids[1..][k] == rest.value && rest.value !in existing
          && forall j :: 0 <= j < k ==> ids[1..][j] in existing;
        assert ids[k + 1] == rest.value;
        rest
      else
        assert forall k :: 1 <= k < |ids| ==> ids[k] == ids[1..][k - 1];
        rest
  }

  /** Every member of the list is in the set exactly when every entry is. */
  lemma MembersByIndex(s: seq<int>, existing: set<int>)
    ensures (forall i :: i in s ==> i in existing) <==> (forall k :: 0 <= k < |s| ==> s[k] in existing)
  {
    if forall k :: 0 <= k < |s| ==> s[k] in existing {
      forall i | i in s ensures i in existing {
        var k :| 0 <= k < |s| && s[k] == i;
      }
    } else {
      var k :| 0 <= k < |s| && s[k] !in existing;
      var x := s[k];
      assert x in s && x !in existing;
      assert !(forall i :: i in s ==> i in existing);
    }
  }

  /** The value a list field reads as. */
  function ListValue(enc: Encoding, ids: Option<seq<int>>): (r: Option<seq<int>>)
    ensures ids.Some? ==> r == ids
    ensures ids.None? ==> (r.None? <==> enc.Json?)
    ensures r.Some? && ids.None? ==> r.value == []
  {
    if ids.None? && enc.Form? then Some([]) else ids
  }

  /** The errors of a list of primary keys: it is required, and the first key with no row fails it. */
  function RelationErrors(field: string, ids: Option<seq<int>>, existing: set<int>): (r: seq<FieldError>)
    ensures |r| <= 1
    ensures r == [] <==> ids.Some? && forall i :: i in ids.value ==> i in existing
    ensures ids.None? ==> r == [Required(field)]
  {
    match ids
    case None => [Required(field)]
    case Some(s) =>
      MembersByIndex(s, existing);
      match FirstMissing(s, existing)
      case None => []
      case Some(pk) => [DoesNotExist(field, pk)]
  }

  /** All field errors of a recipe payload, in field order. */
  function RecipeErrors(p: RecipePayload, tagIds: set<int>, ingredientIds: set<int>): (errs: seq<FieldError>)
    ensures errs == [] <==>
      && CleanText("title", p.title).Success?
      && ListValue(p.encoding, p.tags).Some?
      && (forall i :: i in ListValue(p.encoding, p.tags).value ==> i in tagIds)
      && ListValue(p.encoding, p.ingredients).Some?
      && (forall i :: i in ListValue(p.encoding, p.ingredients).value ==> i in ingredientIds)
  {
    (if CleanText("title", p.title).Failure? then [CleanText("title", p.title).error] else [])
    + RelationErrors("tags", ListValue(p.encoding, p.tags), tagIds)
    + RelationErrors("ingredients", ListValue(p.encoding, p.ingredients), ingredientIds)
  }

  /** A form that names only a title creates a recipe with no tags and no ingredients, while the same
      JSON body fails with both lists required. */
  lemma TitleOnlyPayload(title: string, tagIds: set<int>, ingredientIds: set<int>)
    requires Strip(title) != [] && '\0' !in title
    ensures RecipeErrors(RecipePayload(Form, Some(title), None, None, None), tagIds, ingredientIds) == []
    ensures RecipeErrors(RecipePayload(Json, Some(title), None, None, None), tagIds, ingredientIds)
      == [Required("tags"), Required("ingredients")]
  {
  }

  /** Every id in the table is positive and below the next id the counter hands out, and no two
      rows share one. */
  predicate AttrTableValid(attrs: seq<Attr>, nextId: int)
  {
    UniqueAttrIds(attrs) && 1 <= nextId && forall a :: a in attrs ==> 1 <= a.id < nextId
  }

  /** The same for the recipe table. */
  predicate RecipeTableValid(recipes: seq<Recipe>, nextId: int)
  {
    UniqueRecipeIds(recipes) && 1 <= nextId && forall r :: r in recipes ==> 1 <= r.id < nextId
  }

  /** Every relation of every recipe points at an existing tag or ingredient. */
  predicate RefsExist(recipes: seq<Recipe>, tagIds: set<int>, ingredientIds: set<int>)
  {
    forall r :: r in recipes ==> r.tags <= tagIds && r.ingredients <= ingredientIds
  }

  /** Appending a row with the counter's id keeps the table valid once the counter moves on. */
  lemma AttrAppendValid(attrs: seq<Attr>, nextId: int, a: Attr)
    requires AttrTableValid(attrs, nextId) && a.id == nextId
    ensures AttrTableValid(attrs + [a], nextId + 1)
    ensures AttrIds(attrs + [a]) == AttrIds(attrs) + {a.id}
    ensures a.id !in AttrIds(attrs)
  {
    var s := attrs + [a];
    forall i, j | 0 <= i < j < |s| ensures s[i].id != s[j].id {
      if j == |attrs| {
        assert s[i] in attrs;
      } else {
        assert s[i] == attrs[i] && s[j] == attrs[j];
      }
    }
    assert forall x :: x in s <==> x in attrs || x == a;
  }

  /** The same for the recipe table. */
  lemma RecipeAppendValid(recipes: seq<Recipe>, nextId: int, r: Recipe)
    requires RecipeTableValid(recipes, nextId) && r.id == nextId
    ensures RecipeTableValid(recipes + [r], nextId + 1)
    ensures r.id !in RecipeIds(recipes)
  {
    var s := recipes + [r];
    forall i, j | 0 <= i < j < |s| ensures s[i].id != s[j].id {
      if j == |recipes| {
        assert s[i] in recipes;
      } else {
        assert s[i] == recipes[i] && s[j] == recipes[j];
      }
    }
    assert forall x :: x in s <==> x in recipes || x == r;
  }

  /** Adding tags or ingredients, or a recipe whose relations exist, keeps every relation pointing
      at a row. */
  lemma RefsGrow(recipes: seq<Recipe>, tagIds: set<int>, ingredientIds: set<int>,
                 tagIds': set<int>, ingredientIds': set<int>, added: seq<Recipe>)
    requires RefsExist(recipes, tagIds, ingredientIds)
    requires tagIds <= tagIds' && ingredientIds <= ingredientIds'
    requires RefsExist(added, tagIds', ingredientIds')
    ensures RefsExist(recipes + added, tagIds', ingredientIds')
  {
    assert forall x :: x in recipes + added ==> x in recipes || x in added;
  }

  /** Saving the image of the recipe with the given id: every other row is untouched. */
  function SetImage(recipes: seq<Recipe>, pk: int, image: ImageFile): (r: seq<Recipe>)
    ensures |r| == |recipes|
    ensures forall i :: 0 <= i < |r| ==>
      && r[i].id == recipes[i].id
      && r[i].owner == recipes[i].owner
      && r[i].tags == recipes[i].tags
      && r[i].ingredients == recipes[i].ingredients
  {
    seq(|recipes|, i requires 0 <= i < |recipes| =>
      if recipes[i].id == pk then recipes[i].(image := Some(image)) else recipes[i])
  }

  /** With unique ids, the recipe found by the lookup gets the new image, and it is the only row that
      changes. */
  lemma SetImageUpdatesOne(recipes: seq<Recipe>, x: Recipe, image: ImageFile)
    requires UniqueRecipeIds(recipes) && x in recipes
    ensures UniqueRecipeIds(SetImage(recipes, x.id, image))
    ensures x.(image := Some(image)) in SetImage(recipes, x.id, image)
    ensures forall y :: y in recipes && y.id != x.id ==> y in SetImage(recipes, x.id, image)
    ensures forall y :: y in SetImage(recipes, x.id, image) ==>
      (y.id == x.id && y == x.(image := Some(image))) || (y.id != x.id && y in recipes)
  {
    var r := SetImage(recipes, x.id, image);
    var k :| 0 <= k < |recipes| && recipes[k] == x;
    assert r[k] == x.(image := Some(image));
    forall y | y in recipes && y.id != x.id ensures y in r {
      var i :| 0 <= i < |recipes| && recipes[i] == y;
      assert r[i] == y;
    }
    forall y | y in r ensures (y.id == x.id && y == x.(image := Some(image))) || (y.id != x.id && y in recipes) {
      var i :| 0 <= i < |r| && r[i] == y;
      if recipes[i].id == x.id {
        assert i == k;
      }
    }
  }

  /** After an upload, the owner finds the recipe by its id with the new image and its relations
      unchanged. */
  lemma UploadThenLookup(recipes: seq<Recipe>, user: UserId, x: Recipe, image: ImageFile)
    requires UniqueRecipeIds(recipes) && x in recipes && x.owner == user
    ensures RecipeQuery.GetObject(SetImage(recipes, x.id, image), user, RecipeQuery.RecipeParams(None, None), x.id)
      == RecipeQuery.Found(x.(image := Some(image)))
  {
    SetImageUpdatesOne(recipes, x, image);
    RecipeQuery.GetObjectUnfiltered(SetImage(recipes, x.id, image), user, RecipeQuery.RecipeParams(None, None), x.id);
  }

  /** The database invariant over the three tables and their id counters. */
  predicate Consistent(tags: seq<Attr>, ingredients: seq<Attr>, recipes: seq<Recipe>,
                       nextTagId: int, nextIngredientId: int, nextRecipeId: int)
  {
    && AttrTableValid(tags, nextTagId)
    && AttrTableValid(ingredients, nextIngredientId)
    && RecipeTableValid(recipes, nextRecipeId)
    && RefsExist(recipes, AttrIds(tags), AttrIds(ingredients))
  }

  /** Adding a tag with the counter's id keeps the database consistent. */
  lemma AddTagConsistent(tags: seq<Attr>, ingredients: seq<Attr>, recipes: seq<Recipe>,
                         nt: int, ni: int, nr: int, a: Attr)
    requires Consistent(tags, ingredients, recipes, nt, ni, nr) && a.id == nt
    ensures Consistent(tags + [a], ingredients, recipes, nt + 1, ni, nr)
    ensures a.id !in AttrIds(tags)
  {
    AttrAppendValid(tags, nt, a);
    RefsGrow(recipes, AttrIds(tags), AttrIds(ingredients), AttrIds(tags + [a]), AttrIds(ingredients), []);
    AppendEmpty(recipes);
  }

  /** Adding an ingredient with the counter's id keeps the database consistent. */
  lemma AddIngredientConsistent(tags: seq<Attr>, ingredients: seq<Attr>, recipes: seq<Recipe>,
                                nt: int, ni: int, nr: int, a: Attr)
    requires Consistent(tags, ingredients, recipes, nt, ni, nr) && a.id == ni
    ensures Consistent(tags, ingredients + [a], recipes, nt, ni + 1, nr)
    ensures a.id !in AttrIds(ingredients)
  {
    AttrAppendValid(ingredients, ni, a);
    RefsGrow(recipes, AttrIds(tags), AttrIds(ingredients), AttrIds(tags), AttrIds(ingredients + [a]), []);
    AppendEmpty(recipes);
  }

  /** Adding a recipe with the counter's id whose relations exist keeps the database consistent. */
  lemma AddRecipeConsistent(tags: seq<Attr>, ingredients: seq<Attr>, recipes: seq<Recipe>,
                            nt: int, ni: int, nr: int, r: Recipe)
    requires Consistent(tags, ingredients, recipes, nt, ni, nr) && r.id == nr
    requires r.tags <= AttrIds(tags) && r.ingredients <= AttrIds(ingredients)
    ensures Consistent(tags, ingredients, recipes + [r], nt, ni, nr + 1)
    ensures r.id !in RecipeIds(recipes)
  {
    RecipeAppendValid(recipes, nr, r);
    RefsGrow(recipes, AttrIds(tags), AttrIds(ingredients), AttrIds(tags), AttrIds(ingredients), [r]);
  }

  /** Saving an image on a stored recipe keeps the database consistent. */
  lemma SetImageConsistent(tags: seq<Attr>, ingredients: seq<Attr>, recipes: seq<Recipe>,
                           nt: int, ni: int, nr: int, x: Recipe, image: ImageFile)
    requires Consistent(tags, ingredients, recipes, nt, ni, nr) && x in recipes
    ensures Consistent(tags, ingredients, SetImage(recipes, x.id, image), nt, ni, nr)
  {
    SetImageUpdatesOne(recipes, x, image);
  }

  /** The tag, ingredient and recipe tables of the database. */
  class RecipeStore {
    var tags: seq<Attr>
    var ingredients: seq<Attr>
    var recipes: seq<Recipe>
    var nextTagId: int
    var nextIngredientId: int
    var nextRecipeId: int

    /** Primary keys are unique and issued by the counters; every relation points at an existing row. */
    ghost predicate Valid()
      reads this
    {
      Consistent(tags, ingredients, recipes, nextTagId, nextIngredientId, nextRecipeId)
    }

    /** The table of the given kind. */
    function Attrs(kind: AttrKind): seq<Attr>
      reads this
    {
      match kind
      case TagKind => tags
      case IngredientKind => ingredients
    }

    /** The id counter of the table of the given kind. */
    function NextId(kind: AttrKind): int
      reads this
    {
      match kind
      case TagKind => nextTagId
      case IngredientKind => nextIngredientId
    }

    /** An empty database. */
    constructor()
      ensures Valid()
      ensures tags == [] && ingredients == [] && recipes == []
    {
      tags, ingredients, recipes := [], [], [];
      nextTagId, nextIngredientId, nextRecipeId := 1, 1, 1;
    }

    /** `perform_create` for tags and ingredients: the new row belongs to the requester, whatever owner
        the body names, and gets a fresh id; a blank or missing name changes nothing. */
    method CreateAttr(kind: AttrKind, user: UserId, payload: AttrPayload) returns (res: Result<Attr, FieldError>)
      requires Valid()
      modifies this
      ensures Valid()
      ensures recipes == old(recipes)
      ensures kind.TagKind? ==> ingredients == old(ingredients)
      ensures kind.IngredientKind? ==> tags == old(tags)
      ensures res.Failure? <==> CleanText("name", payload.name).Failure?
      ensures res.Failure? ==> res.error == CleanText("name", payload.name).error && Attrs(kind) == old(Attrs(kind))
      ensures nextRecipeId == old(nextRecipeId)
      ensures kind.TagKind? ==> nextIngredientId == old(nextIngredientId)
      ensures kind.IngredientKind? ==> nextTagId == old(nextTagId)
      ensures res.Failure? ==> NextId(kind) == old(NextId(kind))
      ensures res.Success? ==>
        && res.value.id == old(NextId(kind)) && NextId(kind) == old(NextId(kind)) + 1
        && forall a :: a in old(Attrs(kind)) ==> a.id < res.value.id
      ensures res.Success? ==>
        && res.value.owner == user
        && res.value.name == Strip(payload.name.value)
        && res.value.id !in old(AttrIds(Attrs(kind)))
        && Attrs(kind) == old(Attrs(kind)) + [res.value]
    {
      var name := CleanText("name", payload.name);
      if name.Failure? {
        return Failure(name.error);
      }
      var a := AppendAttr(kind, user, name.value);
      res := Success(a);
    }

    /** Saves a row of the given kind under the next id of its counter. */
    method AppendAttr(kind: AttrKind, user: UserId, name: string) returns (a: Attr)
      requires Valid()
      modifies this
      ensures Valid()
      ensures recipes == old(recipes)
      ensures kind.TagKind? ==> ingredients == old(ingredients)
      ensures kind.IngredientKind? ==> tags == old(tags)
      ensures a.owner == user && a.name == name && a.id !in old(AttrIds(Attrs(kind)))
      ensures Attrs(kind) == old(Attrs(kind)) + [a]
      ensures nextRecipeId == old(nextRecipeId)
      ensures kind.TagKind? ==> nextIngredientId == old(nextIngredientId)
      ensures kind.IngredientKind? ==> nextTagId == old(nextTagId)
      ensures a.id == old(NextId(kind)) && NextId(kind) == old(NextId(kind)) + 1
      ensures forall b :: b in old(Attrs(kind)) ==> b.id < a.id
    {
      match kind
      case TagKind =>
        a := Attr(nextTagId, user, name);
        AddTagConsistent(tags, ingredients, recipes, nextTagId, nextIngredientId, nextRecipeId, a);
        tags := tags + [a];
        nextTagId := nextTagId + 1;
      case IngredientKind =>
        a := Attr(nextIngredientId, user, name);
        AddIngredientConsistent(tags, ingredients, recipes, nextTagId, nextIngredientId, nextRecipeId, a);
        ingredients := ingredients + [a];
        nextIngredientId := nextIngredientId + 1;
    }

    /** `perform_create` for recipes: the new recipe belongs to the requester, refers to exactly the
        listed tags and ingredients, has no image and gets a fresh id; any field error changes nothing. */
    method CreateRecipe(user: UserId, payload: RecipePayload) returns (res: Result<Recipe, seq<FieldError>>)
      requires Valid()
      modifies this
      ensures Valid()
      ensures tags == old(tags) && ingredients == old(ingredients)
      ensures nextTagId == old(nextTagId) && nextIngredientId == old(nextIngredientId)
      ensures res.Failure? ==> nextRecipeId == old(nextRecipeId)
      ensures res.Success? ==>
        && res.value.id == old(nextRecipeId) && nextRecipeId == old(nextRecipeId) + 1
        && forall r :: r in old(recipes) ==> r.id < res.value.id
      ensures res.Failure? <==> RecipeErrors(payload, AttrIds(tags), AttrIds(ingredients)) != []
      ensures res.Failure? ==>
        res.error == RecipeErrors(payload, AttrIds(tags), AttrIds(ingredients)) && recipes == old(recipes)
      ensures res.Success? ==>
        && res.value.owner == user
        && res.value.title == Strip(payload.title.value)
        && res.value.tags == RecipeQuery.SetOf(ListValue(payload.encoding, payload.tags).value)
        && res.value.ingredients == RecipeQuery.SetOf(ListValue(payload.encoding, payload.ingredients).value)
        && res.value.image.None?
        && res.value.id !in old(RecipeIds(recipes))
        && recipes == old(recipes) + [res.value]
    {
      var errs := RecipeErrors(payload, AttrIds(tags), AttrIds(ingredients));
      if errs != [] {
        return Failure(errs);
      }
      var tagList := ListValue(payload.encoding, payload.tags).value;
      var ingredientList := ListValue(payload.encoding, payload.ingredients).value;
      var r := Recipe(nextRecipeId, user, CleanText("title", payload.title).value,
        RecipeQuery.SetOf(tagList), RecipeQuery.SetOf(ingredientList), None);
      assert errs == [];
      assert forall i :: i in tagList ==> i in AttrIds(tags);
      assert forall i :: i in ingredientList ==> i in AttrIds(ingredients);
      assert r.tags <= AttrIds(tags) && r.ingredients <= AttrIds(ingredients);
      AddRecipeConsistent(tags, ingredients, recipes, nextTagId, nextIngredientId, nextRecipeId, r);
      recipes := recipes + [r];
      nextRecipeId := nextRecipeId + 1;
      res := Success(r);
    }

    /** The `upload_image` action: the recipe is looked up as `get_object()` does, through the
        requester's filtered listing; a found recipe gets the image when the file validates as one. */
    method UploadImage(user: UserId, pk: int, params: RecipeQuery.RecipeParams, upload: ImageFile,
                       isImage: ImageFile -> bool) returns (resp: UploadResponse)
      requires Valid()
      modifies this
      ensures Valid()
      ensures tags == old(tags) && ingredients == old(ingredients)
      ensures nextTagId == old(nextTagId) && nextIngredientId == old(nextIngredientId)
      ensures nextRecipeId == old(nextRecipeId)
      ensures var l := RecipeQuery.GetObject(old(recipes), user, params, pk);
        && (l.BadParameter? || l.MultipleFound? <==> resp == ServerError500)
        && (l.NotFound? <==> resp == NotFound404)
        && (l.Found? && !isImage(upload) <==> resp == BadRequest400)
        && (l.Found? && isImage(upload) <==> resp == Ok200(pk, upload))
      ensures recipes == if resp.Ok200? then SetImage(old(recipes), pk, upload) else old(recipes)
    {
      var l := RecipeQuery.GetObject(recipes, user, params, pk);
      match l
      case BadParameter(_) => resp := ServerError500;
      case MultipleFound => resp := ServerError500;
      case NotFound => resp := NotFound404;
      case Found(x) =>
        if !isImage(upload) {
          resp := BadRequest400;
        } else {
          SetImageConsistent(tags, ingredients, recipes, nextTagId, nextIngredientId, nextRecipeId, x, upload);
          recipes := SetImage(recipes, pk, upload);
          resp := Ok200(pk, upload);
        }
    }
  }

  /** Creating a tag over a client-supplied owner still stamps the requester: the claimed owner never
      reaches the row. */
  method CreateIgnoresClaimedOwner(store: RecipeStore, user: UserId, other: UserId)
    requires store.Valid() && user != other
    modifies store
    ensures store.Valid()
    ensures |store.tags| == |old(store.tags)| + 1
    ensures store.tags[|store.tags| - 1].owner == user && store.tags[|store.tags| - 1].name == "Vegan"
  {
    TrimNoOp("Vegan", IsSpace);
    var res := store.CreateAttr(TagKind, user, AttrPayload(Some("Vegan"), Some(other)));
    assert res == Success(res.value) && res.value.owner == user && res.value.name == "Vegan";
  }
}
