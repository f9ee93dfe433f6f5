/**
 * The transfer objects of DTOs/Ingredientes/IngredienteDtos.cs and the field-by-field
 * mappings the controller asks the mapper for.
 */
module Dtos {
  import opened Wrappers
  import opened Models

  /** The view returned by the read and write endpoints. */
  datatype IngredienteDto = IngredienteDto(
    id: int,
    nombre: string,
    unidadMedida: string,
    descripcion: Option<string>,
    creadoUtc: Timestamp)

  datatype IngredienteCreacionDto = IngredienteCreacionDto(
    nombre: string,
    unidadMedida: string,
    descripcion: Option<string>)

  datatype IngredienteModificacionDto = IngredienteModificacionDto(
    nombre: string,
    unidadMedida: string,
    descripcion: Option<string>)

  /** `mapper.Map<IngredienteDto>(e)`. */
  function ToDto(e: Ingrediente): IngredienteDto
  {
    IngredienteDto(e.id, e.nombre, e.unidadMedida, e.descripcion, e.creadoUtc)
  }

  /** `mapper.Map<Ingrediente>(dto)`: a new entity with the three fields copied. */
  function FromCreacion(dto: IngredienteCreacionDto, now: Timestamp): Ingrediente
  {
    NewIngrediente(dto.nombre, dto.unidadMedida, dto.descripcion, now)
  }

  /**
   * `mapper.Map(dto, e)`: the modification DTO carries only three fields, so only
   * those three are overwritten.
   */
  function ApplyModificacion(dto: IngredienteModificacionDto, e: Ingrediente): (r: Ingrediente)
    ensures r.(nombre := e.nombre, unidadMedida := e.unidadMedida, descripcion := e.descripcion) == e
    ensures ToDto(r) == IngredienteDto(e.id, dto.nombre, dto.unidadMedida, dto.descripcion, e.creadoUtc)
  {
    e.(nombre := dto.nombre, unidadMedida := dto.unidadMedida, descripcion := dto.descripcion)
  }
}
