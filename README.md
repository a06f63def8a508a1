# recipe-app-api views, modelled in Dafny

This project models the REST views of the recipe application's `recipe` app
(`app/recipe/views.py`): the tag and ingredient endpoints (`BaseRecipeAttrViewSet`)
and the recipe endpoint (`RecipeViewSet`). Each view is modelled over an explicit
database of three tables (tags, ingredients, recipes). The authenticated
requester is passed as a user id.

- **Attribute listing** (`AttrQuery`). `get_queryset` of the tag and ingredient
  views works in three steps:
  - With `assigned_only=true`, it joins each attribute to the recipes that refer
    to it. This gives one row per referring recipe.
  - It keeps the requester's rows.
  - It orders them by name ascending and removes duplicate rows.

  The model builds those join rows explicitly. It then proves that the final
  listing names every qualifying attribute exactly once, in name order.
  `retrieve` looks up by primary key in the unscoped table.
- **Parameter parsing** (`Text`, `IntParse`). `_params_to_ints` splits the query
  string on commas and applies Python's `int()` to each piece. `int()` accepts
  surrounding whitespace, an optional sign, and ASCII digits with single
  underscores between digits. Any other piece makes the call fail. The
  whitespace `int()` skips is Unicode whitespace except the four information
  separators U+001C to U+001F; those count as whitespace for `str.strip()`, but
  `int()` rejects them. That failure
  is an uncaught `ValueError`: a server error.
- **Recipe listing and lookup** (`RecipeQuery`). `get_queryset` filters the
  recipes in three steps:
  - by `tags=` and `ingredients=` id lists; each filter is its own join, so a
    recipe appears once per matching tag times once per matching ingredient;
  - to the requester;
  - ordered by id descending, with no `distinct()`.

  `get_object()` runs over the same queryset. A recipe that several filter rows
  match therefore makes `upload_image` fail with `MultipleObjectsReturned`.
- **Serializer choice** (`SerializerSelect`). `get_serializer_class` picks a
  serializer by action name. The module also records which fields each recipe
  serializer accepts.
- **Writes** (`Store`). A `RecipeStore` class holds the three tables and their
  id counters. It has three methods:
  - `CreateAttr` is `perform_create` for tags and ingredients;
  - `CreateRecipe` is `perform_create` for recipes;
  - `UploadImage` is the `upload_image` action.

  Each method keeps the store's invariant: unique ids issued by the counters, and
  every recipe relation pointing at an existing row.

The attribute listing follows the code: `order_by('name')`, ascending. The
tests (`app/recipe/tests/test_tags_api.py:42`,
`app/recipe/tests/test_ingredients_api.py:42`) compare the response with a
descending `-name` order. `AttrQuery.NamesAscending` shows the order the code
actually produces for the tests' two names.

Where the request's encoding matters, the model says which one it follows.
The tests post multipart form data, where an absent list field reads as an
empty list. In a JSON body, an absent list field stays absent and is reported
as required. `Store.Encoding` distinguishes the two.

## Model

| member | source | states |
|---|---|---|
| Text.TrimLeft | app/recipe/views.py:70 | the result is a suffix of the input, no longer than it; every dropped character is of the given whitespace class and the result does not start with one |
| Text.TrimRight | app/recipe/views.py:70 | the result is a prefix of the input; every dropped character is of the class and the result does not end with one |
| Text.TrimEnds | app/recipe/views.py:70 | a trimmed token is empty or starts and ends with a character outside the class |
| Text.TrimIdempotent | app/recipe/views.py:70 | trimming twice is trimming once |
| Text.TrimNoOp | app/recipe/views.py:70 | a token whose ends are outside the class is left unchanged |
| Text.TrimAround | app/recipe/views.py:70 | trimming a token padded with characters of the class gives the token back |
| Text.TrimKeeps | app/recipe/views.py:70 | a character outside the class is in the trimmed token iff it is in the token |
| Text.LexLeReflexive | app/recipe/views.py:26 | the name order is reflexive |
| Text.LexLeTotal | app/recipe/views.py:26 | any two names are comparable |
| Text.LexLeAntisymmetric | app/recipe/views.py:26 | two names ordered both ways are equal |
| Text.LexLeTransitive | app/recipe/views.py:26 | the name order is transitive |
| Text.Split | app/recipe/views.py:70 | splitting on commas always yields at least one piece, even for the empty string |
| Text.SplitShape | app/recipe/views.py:70 | splitting yields one more piece than there are commas, and no piece contains a comma |
| Text.JoinSplit | app/recipe/views.py:70 | joining the pieces with commas gives back the original string |
| Text.SplitJoin | app/recipe/views.py:70 | splitting the comma-join of comma-free pieces gives back the pieces |
| Text.SplitAppend | app/recipe/views.py:70 | a comma-free prefix followed by a comma becomes the first piece |
| Text.SplitNoComma | app/recipe/views.py:70 | a string without commas is a single piece |
| IntParse.DigitChar | app/recipe/views.py:70 | a digit value below ten maps to a digit character with that value |
| IntParse.ParseStripped | app/recipe/views.py:70 | an empty token never parses |
| IntParse.ParseInt | app/recipe/views.py:70 | a token that is empty or all skippable whitespace never parses |
| IntParse.ParseIntSkipsSpace | app/recipe/views.py:70 | whitespace other than U+001C to U+001F around a token is skipped: the token parses as it would bare |
| IntParse.LeadingSeparatorFails | app/recipe/views.py:70 | a piece starting with U+001C to U+001F fails, although `str.isspace()` holds for that character |
| IntParse.TrailingSeparatorFails | app/recipe/views.py:70 | the same for a piece ending with one |
| IntParse.BadStartFails | app/recipe/views.py:70 | a piece starting with neither sign nor digit fails |
| IntParse.BadEndFails | app/recipe/views.py:70 | a piece not ending with a digit fails |
| IntParse.ShowNat | app/recipe/views.py:70 | the decimal form of a natural number is non-empty and all digits |
| IntParse.ShowAll | app/recipe/views.py:70 | one decimal string per id |
| IntParse.ShowNatValue | app/recipe/views.py:70 | the decimal form of n is well-formed and has value n |
| IntParse.ShowIsStripped | app/recipe/views.py:70 | the decimal form of an integer has no surrounding whitespace |
| IntParse.ParseShow | app/recipe/views.py:70 | `int(str(n)) == n` for every integer, and `str(n)` has no comma |
| IntParse.BlankIsNotInt | app/recipe/views.py:70 | a blank piece makes `int()` fail |
| IntParse.ParseAll | app/recipe/views.py:70 | converting the pieces succeeds exactly when every piece parses, giving one value per piece in order |
| IntParse.ParseAllFirstFailure | app/recipe/views.py:70 | a failing conversion reports the first piece that does not parse; every piece before it parses |
| IntParse.ParamsToInts | app/recipe/views.py:69-70 | `_params_to_ints`: split on commas, then `int()` on each piece; its shape is stated by ParamsToIntsShape, its round trip by ParamsToIntsRoundTrip, and a blank piece's failure by EmptyPieceFails |
| IntParse.ParamsToIntsShape | app/recipe/views.py:69-70 | on success, one integer per comma-separated piece, each that piece's value; on failure, the reported piece is one of them and does not parse |
| IntParse.EmptyPieceFails | app/recipe/views.py:69-70 | an empty piece (a leading, trailing or doubled comma) makes the conversion fail |
| IntParse.DoubleCommaFails | app/recipe/views.py:69-70 | `"1,,2"` fails on the empty piece |
| IntParse.ParamsToIntsRoundTrip | app/recipe/views.py:69-70 | any non-empty id list written with commas converts back to itself |
| AttrQuery.RefCount | app/recipe/views.py:24 | an attribute has join rows exactly when some recipe refers to it |
| AttrQuery.AssignedOnly | app/recipe/views.py:20 | the flag is on only for the exact value `true`; OtherFlagValuesIgnored states the consequence for the listing |
| AttrQuery.JoinRows | app/recipe/views.py:24 | the inner join: one copy of an attribute per referring recipe; its members and counts are JoinRowsMembers and JoinRowsCount |
| AttrQuery.JoinRowsMembers | app/recipe/views.py:24 | the join keeps exactly the attributes some recipe refers to |
| AttrQuery.JoinRowsCount | app/recipe/views.py:24 | the join repeats an attribute once per referring recipe |
| AttrQuery.OwnedBy | app/recipe/views.py:26 | the user filter keeps exactly the requester's rows |
| AttrQuery.Distinct | app/recipe/views.py:26 | `distinct()` keeps every row value once and drops repeats |
| AttrQuery.ScopedRows | app/recipe/views.py:22-26 | the rows before ordering and `distinct()`: the join when the flag is on, then the requester's rows; ScopedRowsOtherOwner and ListAttributes state what they keep |
| AttrQuery.InsertByName | app/recipe/views.py:26 | inserting into a name-sorted list keeps it sorted and adds exactly that row |
| AttrQuery.SortByName | app/recipe/views.py:26 | `order_by('name')` is a permutation sorted by name ascending |
| AttrQuery.ListAttributes | app/recipe/views.py:19-26 | an attribute is listed iff it is the requester's and, when assigned-only, some recipe refers to it; no repeats; sorted by name |
| AttrQuery.AssignedOnlyRestricts | app/recipe/views.py:20-24 | with `assigned_only=true`, exactly the requester's referenced attributes are listed |
| AttrQuery.OtherFlagValuesIgnored | app/recipe/views.py:20 | any value of `assigned_only` other than `true` lists as if the flag were absent |
| AttrQuery.ListedOnce | app/recipe/views.py:24-26 | an attribute referred to by several recipes has that many join rows but is listed once |
| AttrQuery.AssignedTagListedOnce | app/recipe/tests/test_tags_api.py:100-121 | one tag on two recipes and one unused tag: the assigned-only listing is exactly the used tag, once |
| AttrQuery.NamesAscending | app/recipe/views.py:26 | tags named Vegan and Dessert are listed Dessert first, the reverse of what the tests expect |
| AttrQuery.CreateVisibleOnlyToOwner | app/recipe/views.py:26-29 | a created attribute is listed for its owner and changes no other user's listing |
| AttrQuery.ScopedRowsOtherOwner | app/recipe/views.py:26 | adding another user's attribute leaves the requester's scoped rows unchanged |
| AttrQuery.RetrieveAttr | app/recipe/views.py:31-34 | `retrieve` finds a row iff its id exists, in any user's rows, and returns that row |
| AttrQuery.RetrieveIgnoresOwner | app/recipe/views.py:31-32 | another user's attribute is returned by `retrieve` although it is absent from the requester's listing |
| RecipeQuery.ParseFilter | app/recipe/views.py:73-81 | an absent or empty parameter means no filter; otherwise the filter is the converted id list, or the conversion's error |
| RecipeQuery.Given | app/recipe/views.py:76-79 | `if tags:` and `if ingredients:`: a parameter counts only when present and non-empty; EmptyParameterIgnored states the consequence |
| RecipeQuery.Passes | app/recipe/views.py:78-81 | a recipe passes a filter when it is off or some listed id is related; Meets and JoinFactor connect it to the join |
| RecipeQuery.Meets | app/recipe/views.py:78 | the `__id__in` filter passes when some listed id is related to the recipe |
| RecipeQuery.JoinFactor | app/recipe/views.py:78 | a filter yields a row for a recipe iff it passes |
| RecipeQuery.RowCount | app/recipe/views.py:76-81 | a recipe yields rows iff it passes both filters |
| RecipeQuery.Expand | app/recipe/views.py:76-81 | the chained joins, each recipe repeated in place by its row count; ExpandMembers, ExpandCount and ExpandSorted state what it keeps |
| RecipeQuery.OwnedRecipes | app/recipe/views.py:83 | keeps exactly the requester's recipes |
| RecipeQuery.SortByIdDesc | app/recipe/views.py:83 | `order_by('-id')` is a permutation sorted by id descending |
| RecipeQuery.ListRecipes | app/recipe/views.py:72-83 | fails iff a given parameter does not convert, with the tags error if tags fails and else the ingredients error; otherwise lists exactly the requester's recipes passing both filters, by id descending |
| RecipeQuery.ExpandMembers | app/recipe/views.py:76-81 | the joined rows are exactly the recipes passing both filters |
| RecipeQuery.ExpandCount | app/recipe/views.py:76-81 | each recipe occurs once per matching tag times once per matching ingredient |
| RecipeQuery.ExpandSorted | app/recipe/views.py:76-83 | the joins keep the id-descending order |
| RecipeQuery.ExpandUnfiltered | app/recipe/views.py:76-81 | without filters the join is the identity |
| RecipeQuery.ListRecipesCount | app/recipe/views.py:72-83 | a recipe's multiplicity in the listing is its multiplicity in the table times its row count, for the requester's recipes, else zero |
| RecipeQuery.FiltersCombineWithAnd | app/recipe/views.py:76-81 | with both parameters a recipe is listed iff it passes the tag filter and the ingredient filter |
| RecipeQuery.EmptyParameterIgnored | app/recipe/views.py:76 | `tags=` with an empty value filters nothing |
| RecipeQuery.UnfilteredList | app/recipe/views.py:83 | without parameters the listing is the requester's recipes ordered by id descending |
| RecipeQuery.ParseOneTwo | app/recipe/views.py:76-78 | the parameter `1,2` filters on ids 1 and 2 |
| RecipeQuery.RepeatedRow | app/recipe/views.py:76-83 | a recipe tagged 1 and 2 is listed twice for `tags=1,2` |
| RecipeQuery.WithId | app/recipe/views.py:97 | `filter(pk=pk)` keeps exactly the rows with that id |
| RecipeQuery.GetObject | app/recipe/views.py:97 | a parameter error surfaces with its piece; a found recipe is in the table, the requester's, with that id; "not found" means no owned row with that id survives the filters |
| RecipeQuery.GetObjectCases | app/recipe/views.py:97 | over the listed rows with the key: none is "not found", exactly one is found (and is that row), two or more is several objects returned |
| RecipeQuery.ListedWithIdCount | app/recipe/views.py:72-83 | with unique ids, the listed rows with an owned recipe's id number exactly its join row count |
| RecipeQuery.GetObjectByRowCount | app/recipe/views.py:72-97 | with unique ids, an owned recipe is "not found" iff it yields no join row, found iff it yields one, and several objects are returned iff it yields two or more |
| RecipeQuery.PermutationUnique | app/recipe/views.py:83 | ordering keeps ids unique |
| RecipeQuery.GetObjectUnfiltered | app/recipe/views.py:97 | without parameters the requester's recipe is found by id, and a recipe of another user is "not found" |
| RecipeQuery.RepeatedRowBreaksLookup | app/recipe/views.py:97 | with `tags=1,2`, the lookup of a recipe tagged 1 and 2 fails with several objects returned |
| SerializerSelect.SerializerFor | app/recipe/views.py:88-93 | the detail serializer iff the action is `retrieve`, the image serializer iff it is `upload_image`, otherwise the recipe serializer |
| SerializerSelect.WritableFields | app/recipe/serializers.py:20-52 | a serializer accepts only fields it renders, never `id` |
| SerializerSelect.UploadWritesOnlyImage | app/recipe/serializers.py:48-52 | the upload action can write the image and nothing else; other writes accept every recipe field but `id` |
| SerializerSelect.DetailNestsRelations | app/recipe/serializers.py:43-45 | only the detail serializer renders tags as read-only nested objects |
| Store.CleanText | app/recipe/tests/test_tags_api.py:73-77 | a name is accepted iff it is present, not blank after trimming and free of NUL characters; it is stored trimmed; missing, blank and NUL are distinct errors, in that order |
| Store.FirstMissing | app/recipe/serializers.py:21-28 | none iff every key names an existing row; otherwise the first key that names none |
| Store.ListValue | app/recipe/serializers.py:21-28 | an absent list reads as empty in form data and stays absent in JSON |
| Store.RelationErrors | app/recipe/serializers.py:21-28 | at most one error per list; none iff the list is present and every key exists in any user's rows |
| Store.RecipeErrors | app/recipe/serializers.py:20-40 | no errors iff the title cleans (present, non-blank after trimming, free of NUL) and both key lists are present with every key existing |
| Store.TitleOnlyPayload | app/recipe/tests/test_recipe_api.py:107-116 | a form with no tag or ingredient list validates; the same JSON body is rejected with both lists required |
| Store.AttrAppendValid | app/recipe/views.py:28-29 | appending a row with the counter's id keeps ids unique and below the counter |
| Store.RecipeAppendValid | app/recipe/views.py:85-86 | the same for the recipe table |
| Store.RefsGrow | app/recipe/views.py:85-86 | new rows never leave a recipe relation dangling |
| Store.AddTagConsistent | app/recipe/views.py:28-29 | saving a tag under the counter's id keeps the database invariant and the id is new |
| Store.AddIngredientConsistent | app/recipe/views.py:28-29 | the same for an ingredient |
| Store.AddRecipeConsistent | app/recipe/views.py:85-86 | saving a recipe whose relations exist keeps the database invariant and its id is new |
| Store.SetImageConsistent | app/recipe/views.py:104 | saving an image on a stored recipe keeps the database invariant |
| Store.RecipeStore.Valid | app/recipe/views.py:28-29 | the database invariant every method keeps: unique ids issued by the counters and no dangling relation (Store.Consistent) |
| Store.SetImage | app/recipe/views.py:104 | saving an image keeps every row's id, owner and relations |
| Store.SetImageUpdatesOne | app/recipe/views.py:104 | with unique ids, the found recipe gets the image and no other row changes |
| Store.UploadThenLookup | app/recipe/views.py:96-108 | after an upload, the owner's lookup finds the recipe with the new image |
| Store.RecipeStore.CreateAttr | app/recipe/views.py:28-29 | a valid name appends one row owned by the requester with the trimmed name and the counter's id, larger than every earlier id, and advances that counter; an invalid one changes nothing; other tables and counters unchanged |
| Store.RecipeStore.AppendAttr | app/recipe/views.py:28-29 | the new row carries the requester and the name, takes the counter's id (unused and above every earlier id) and is appended to that table only; only that counter advances |
| Store.RecipeStore.CreateRecipe | app/recipe/views.py:85-86 | a valid payload appends one recipe owned by the requester, with exactly the listed relations, no image and the counter's id, larger than every earlier recipe id, and advances the counter; otherwise all field errors and no change |
| Store.RecipeStore.UploadImage | app/recipe/views.py:96-113 | bad parameter or several matches: server error; not found: 404; invalid file: 400; else 200 and only that recipe's image changes |
| Store.CreateIgnoresClaimedOwner | app/recipe/views.py:28-29 | a body naming another owner still creates the row for the requester |

## Left out

- Authentication and permissions are left out. These are the token authentication and the 401 for anonymous requests. The requester is a parameter.
- The `update` methods of the tag and ingredient views (`app/recipe/views.py:41-58`) are left out. They call `update_or_create` on an unscoped, unvalidated serializer and `print` the result.
- The destroy action of the attribute views and the update and destroy actions of the recipe view are left out. They come from framework mixins whose code is not part of this model.
- `app/recipe/urls.py` registers only the tag and ingredient views. The recipe view's routes are therefore not reachable through it. The model treats the recipe actions as reachable, as the recipe tests expect.
- Time, price and link of a recipe are not modelled. Neither are their validation errors, because the recipe model (`core/models.py`) is not part of this model. For the same reason, name and title length limits are not modelled.
- Store.RecipeStore.CreateRecipe: an image sent with the create request is not modelled. The new recipe has none.
- Store.RecipeStore.UploadImage: it does not model a request without an image part. Whether that validates depends on the model field, which is not part of this model.
- Store.RecipeStore.UploadImage: image validation (Pillow) is a function parameter. The file is stored as its bytes, where the source stores it under a random file name.
- IntParse.ParseInt: it does not accept non-ASCII decimal digits, which Python's `int()` accepts.
- IntParse.ParseInt: it accepts a piece of any length. Python releases since 3.11 (and the 2022 security releases of older ones) reject a decimal string of more than 4300 digits by default, a limit the process can configure; the Python version is not pinned in the source.
- The database integer column's overflow on huge ids is not modelled.
- AttrQuery.RetrieveAttr: the key is an integer. In the source, `retrieve` uses `get_object_or_404`, which does not catch the `ValueError` a non-numeric key raises, so such a request is a server error, while the recipe lookup of `upload_image` (the framework's `get_object`) answers the same key with 404.
- AttrQuery.SortByName: names compare by code point, not by the database collation. The relative order of equal names is not fixed by the source, and the model fixes one.
- A repeated query key (`?tags=1&tags=2`) is not modelled. The framework keeps the last value.
- Store.RecipeStore.CreateRecipe: keys of the wrong type in the lists are not modelled. The lists are integers, so that error of the framework cannot arise.
- Deleting rows is not modelled, so cascades on the many-to-many relations do not arise.
