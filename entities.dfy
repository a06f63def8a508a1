/**
 * The rows the views read and write. Tags and ingredients share one shape
 * (an "attribute"); a recipe refers to attributes by id through two
 * many-to-many relations, which are sets.
 */
module Entities {
  import opened Base

  /** The primary key of a user; the authenticated requester is passed explicitly. */
  type UserId = int

  /** The bytes of an uploaded image file. */
  type ImageFile = seq<bv8>

  /** A tag or an ingredient row. */
  datatype Attr = Attr(id: int, owner: UserId, name: string)

  /** Which of the two attribute tables, and so which relation of a recipe, is meant. */
  datatype AttrKind = TagKind | IngredientKind

  /** A recipe row with its two many-to-many relations. Time, price and link are not modelled. */
  datatype Recipe = Recipe(
    id: int,
    owner: UserId,
    title: string,
    tags: set<int>,
    ingredients: set<int>,
    image: Option<ImageFile>)

  /** The ids of the attributes of the given kind that the recipe refers to. */
  function Refs(r: Recipe, kind: AttrKind): set<int>
  {
    match kind
    case TagKind => r.tags
    case IngredientKind => r.ingredients
  }

  /** No two attribute rows share an id (a table's primary key). */
  predicate UniqueAttrIds(attrs: seq<Attr>)
  {
    forall i, j :: 0 <= i < j < |attrs| ==> attrs[i].id != attrs[j].id
  }

  /** No two recipe rows share an id. */
  predicate UniqueRecipeIds(recipes: seq<Recipe>)
  {
    forall i, j :: 0 <= i < j < |recipes| ==> recipes[i].id != recipes[j].id
  }

  /** The ids present in an attribute table. */
  function AttrIds(attrs: seq<Attr>): set<int>
  {
    set a | a in attrs :: a.id
  }

  /** The ids present in the recipe table. */
  function RecipeIds(recipes: seq<Recipe>): set<int>
  {
    set r | r in recipes :: r.id
  }
}
