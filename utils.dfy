/** The column-type mapping and the file-value test of `src/utils.ts`. */
module Utils {
  import opened Wrappers
  import opened Errors
  import opened Budibase
  import JS = Json

  /** The Xata column types. */
  datatype ColumnType =
    | Bool | Datetime | Email | File | FileArray | Float | Int | Json | Link | Multiple | Object | String | Text | Vector

  /** The tag Xata uses for each column type (stored as `externalType`). */
  function Tag(t: ColumnType): string
  {
    match t
    case Bool => "bool"
    case Datetime => "datetime"
    case Email => "email"
    case File => "file"
    case FileArray => "file[]"
    case Float => "float"
    case Int => "int"
    case Json => "json"
    case Link => "link"
    case Multiple => "multiple"
    case Object => "object"
    case String => "string"
    case Text => "text"
    case Vector => "vector"
  }

  /** `xataToBudibaseType`: every tag but `link` maps to one Budibase type. */
  function XataToBudibaseType(t: ColumnType): (r: Result<FieldType, Error>)
    ensures r.Failure? <==> t == Link
    ensures r.Failure? ==> r.error == InvalidColumnType("link")
    ensures r == Success(BooleanField) <==> t == Bool
    ensures r == Success(DatetimeField) <==> t == Datetime
    ensures r == Success(AttachmentField) <==> t == File || t == FileArray
    ensures r == Success(NumberField) <==> t == Float || t == Int
    ensures r == Success(StringField) <==> t == Email || t == String || t == Text
    ensures r == Success(JsonField) <==> t == Json || t == Multiple || t == Object || t == Vector
    ensures r != Success(LinkField)
  {
    match t
    case Bool => Success(BooleanField)
    case Datetime => Success(DatetimeField)
    case Email => Success(StringField)
    case File => Success(AttachmentField)
    case FileArray => Success(AttachmentField)
    case Float => Success(NumberField)
    case Int => Success(NumberField)
    case Json => Success(JsonField)
    case Link => Failure(InvalidColumnType("link"))
    case Multiple => Success(JsonField)
    case Object => Success(JsonField)
    case String => Success(StringField)
    case Text => Success(StringField)
    case Vector => Success(JsonField)
  }

  /** `isXataFileField`: every element of `[v].flat()` is a file. */
  predicate IsXataFileField(v: JS.Value)
  {
    var flat := JS.Flat1([v]);
    forall i :: 0 <= i < |flat| ==> flat[i].File?
  }

  /** A single file, an array of files (the empty one included) and nothing else. */
  lemma IsXataFileFieldExactly(v: JS.Value)
    ensures IsXataFileField(v) <==> v.File? || (v.Arr? && forall i :: 0 <= i < |v.items| ==> v.items[i].File?)
  {
    var flat := JS.Flat1([v]);
    assert JS.Flat1([v][1..]) == [];
    if v.Arr? {
      assert flat == v.items;
    } else {
      assert flat == [v];
    }
  }
}
