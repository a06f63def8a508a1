/**
 * `RecipeViewSet.get_serializer_class`: which recipe serializer an action
 * uses, and the fields each of the three serializers reads and writes.
 */
module SerializerSelect {

  /** The recipe serializers: the list/create shape, the detail shape with nested tags and
      ingredients, and the image-only shape. */
  datatype Shape = RecipeShape | DetailsShape | ImageShape

  /** The serializer for the viewset's current action name. */
  function SerializerFor(action: string): (s: Shape)
    ensures s == DetailsShape <==> action == "retrieve"
    ensures s == ImageShape <==> action == "upload_image"
  {
    if action == "retrieve" then DetailsShape
    else if action == "upload_image" then ImageShape
    else RecipeShape
  }

  /** The fields a shape renders. */
  function Fields(s: Shape): set<string>
  {
    match s
    case ImageShape => {"id", "image"}
    case _ => {"id", "title", "tags", "ingredients", "time_in_minutes", "price", "link", "image"}
  }

  /** The fields a shape accepts from a request: everything but the read-only ones. */
  function WritableFields(s: Shape): (w: set<string>)
    ensures w <= Fields(s) && "id" !in w
  {
    match s
    case RecipeShape => Fields(s) - {"id"}
    case DetailsShape => Fields(s) - {"id", "tags", "ingredients"}
    case ImageShape => {"image"}
  }

  /** The image upload can change the image of a recipe and nothing else; every other action that
      writes goes through the full recipe shape, which never takes the id from the request. */
  lemma UploadWritesOnlyImage(action: string)
    ensures action == "upload_image" ==> WritableFields(SerializerFor(action)) == {"image"}
    ensures action != "upload_image" && action != "retrieve" ==>
      WritableFields(SerializerFor(action)) == Fields(RecipeShape) - {"id"}
  {
  }

  /** Only the detail view nests tags and ingredients as read-only objects; every other shape that
      lists them takes and renders them as plain ids. */
  lemma DetailNestsRelations(action: string)
    ensures ("tags" in Fields(SerializerFor(action)) && "tags" !in WritableFields(SerializerFor(action)))
        <==> action == "retrieve"
  {
  }
}
