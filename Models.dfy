/**
 * The `Ingrediente` entity (Models/Ingrediente.cs) and the validity its data
 * annotations declare. `DateTime` values are modelled as UTC ticks.
 */
module Models {
  import opened Wrappers

  type Timestamp = int

  /** `default(DateTime)`, i.e. `DateTime.MinValue`, zero ticks. */
  const DateTimeDefault: Timestamp := 0

  datatype Ingrediente = Ingrediente(
    id: int,
    nombre: string,
    unidadMedida: string,
    descripcion: Option<string>,
    creadoUtc: Timestamp,
    creadoPorUsuarioId: Option<string>)

  /** `char.IsWhiteSpace` on the ASCII range: space and tab through carriage return. */
  predicate IsWhiteSpace(c: char)
  {
    c == ' ' || '\t' <= c <= '\r'
  }

  /** `[Required]` on a string: present and not made only of white space. */
  predicate Required(s: string)
  {
    exists i :: 0 <= i < |s| && !IsWhiteSpace(s[i])
  }

  /** `[StringLength(max, MinimumLength = min)]`. */
  predicate StringLength(s: string, max: nat, min: nat)
  {
    min <= |s| <= max
  }

  /** Everything the attributes on `Ingrediente` declare. */
  predicate IsValid(e: Ingrediente)
  {
    && Required(e.nombre) && StringLength(e.nombre, 100, 2)
    && Required(e.unidadMedida) && StringLength(e.unidadMedida, 15, 0)
    && (e.descripcion.Some? ==> StringLength(e.descripcion.value, 100, 0))
  }

  /**
   * A fresh `new Ingrediente()`: id not yet assigned, creation time taken from the clock
   * at construction, no creator.
   */
  function NewIngrediente(nombre: string, unidadMedida: string, descripcion: Option<string>, now: Timestamp): Ingrediente
  {
    Ingrediente(0, nombre, unidadMedida, descripcion, now, None)
  }

  /** A name with only white space is refused by `[Required]` even when it meets the length bounds. */
  lemma BlankNombreIsInvalid(e: Ingrediente)
    requires forall i :: 0 <= i < |e.nombre| ==> IsWhiteSpace(e.nombre[i])
    ensures !IsValid(e)
  {
  }

  /** The description limit is 100 characters, as the attribute says. */
  lemma DescripcionLimit(e: Ingrediente)
    requires e.descripcion.Some? && |e.descripcion.value| > 100
    ensures !IsValid(e)
  {
  }
}
