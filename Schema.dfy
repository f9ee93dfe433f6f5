/**
 * The storage schema that `ApplicationDbContext.OnModelCreating` declares for
 * `Categoria` and `Ingrediente` (Context/ApplicationDbContext.cs): primary keys,
 * column lengths, unique name indexes, and the set-null rule on the creator
 * reference when a user is deleted. The context owns both tables.
 */
module Schema {
  import opened Wrappers
  import opened Text
  import opened Models

  /** Rows of the `Ingredientes` table, by primary key. */
  type IngredienteTable = map<int, Ingrediente>

  datatype Categoria = Categoria(
    id: int,
    nombre: string,
    descripcion: Option<string>,
    creadoUtc: Timestamp,
    creadoPorUsuarioId: Option<string>)

  type CategoriaTable = map<int, Categoria>

  // ---- column constraints (IsRequired / HasMaxLength) ----

  predicate IngredienteFitsColumns(e: Ingrediente)
  {
    |e.nombre| <= 100 && |e.unidadMedida| <= 15
    && (e.descripcion.Some? ==> |e.descripcion.value| <= 100)
  }

  predicate CategoriaFitsColumns(c: Categoria)
  {
    |c.nombre| <= 100 && (c.descripcion.Some? ==> |c.descripcion.value| <= 500)
  }

  // ---- keys and indexes ----

  /** `HasKey(e => e.Id)`: every row is stored under its own id. */
  predicate IngredienteKeys(t: IngredienteTable)
  {
    forall k | k in t :: t[k].id == k
  }

  predicate CategoriaKeys(t: CategoriaTable)
  {
    forall k | k in t :: t[k].id == k
  }

  /** `HasIndex(e => e.Nombre).IsUnique()` on `Ingredientes`. */
  predicate IngredienteNombreIndex(t: IngredienteTable)
  {
    forall a, b | a in t && b in t && a != b :: t[a].nombre != t[b].nombre
  }

  /** `HasIndex(e => e.Nombre).IsUnique()` on `Categorias`. */
  predicate CategoriaNombreIndex(t: CategoriaTable)
  {
    forall a, b | a in t && b in t && a != b :: t[a].nombre != t[b].nombre
  }

  /** The stronger, case-insensitive uniqueness the ingredient controller keeps. */
  predicate NombresUnicosSinMayusculas(t: IngredienteTable)
  {
    forall a, b | a in t && b in t && a != b :: ToLower(t[a].nombre) != ToLower(t[b].nombre)
  }

  /** What every reachable `Ingredientes` table satisfies. */
  predicate IngredientesInvariant(t: IngredienteTable)
  {
    IngredienteKeys(t) && NombresUnicosSinMayusculas(t)
  }

  /** Names distinct under case folding are distinct, so the unique index never fires. */
  lemma InvariantImpliesNombreIndex(t: IngredienteTable)
    requires NombresUnicosSinMayusculas(t)
    ensures IngredienteNombreIndex(t)
  {
  }

  /** The validity the model's attributes declare fits the columns the context declares. */
  lemma ValidFitsColumns(e: Ingrediente)
    requires IsValid(e)
    ensures IngredienteFitsColumns(e)
  {
  }

  // ---- Categoria.CreadoUtc: IsRequired().HasDefaultValueSql("CURRENT_TIMESTAMP") ----

  /**
   * The row as the database stores it: a creation time left at `default(DateTime)` is
   * not sent in the INSERT, and the column default, the current timestamp, fills it.
   */
  function InsertedCategoria(c: Categoria, now: Timestamp): (r: Categoria)
    ensures r.(creadoUtc := c.creadoUtc) == c
    ensures c.creadoUtc == DateTimeDefault ==> r.creadoUtc == now
    ensures c.creadoUtc != DateTimeDefault ==> r == c
  {
    if c.creadoUtc == DateTimeDefault then c.(creadoUtc := now) else c
  }

  // ---- OnDelete(DeleteBehavior.SetNull) on the creator reference ----

  /** Deleting user `usuarioId` clears the creator of every ingredient that referenced it. */
  function SetNullIngredientes(t: IngredienteTable, usuarioId: string): (r: IngredienteTable)
    ensures r.Keys == t.Keys
    ensures forall k | k in r :: r[k].creadoPorUsuarioId != Some(usuarioId)
    ensures forall k | k in t :: r[k].(creadoPorUsuarioId := t[k].creadoPorUsuarioId) == t[k]
    ensures forall k | k in t && t[k].creadoPorUsuarioId == Some(usuarioId) :: r[k].creadoPorUsuarioId == None
    ensures forall k | k in t && t[k].creadoPorUsuarioId != Some(usuarioId) :: r[k] == t[k]
  {
    map k | k in t :: if t[k].creadoPorUsuarioId == Some(usuarioId) then t[k].(creadoPorUsuarioId := None) else t[k]
  }

  /** The same rule on `Categorias`. */
  function SetNullCategorias(t: CategoriaTable, usuarioId: string): (r: CategoriaTable)
    ensures r.Keys == t.Keys
    ensures forall k | k in r :: r[k].creadoPorUsuarioId != Some(usuarioId)
    ensures forall k | k in t :: r[k].(creadoPorUsuarioId := t[k].creadoPorUsuarioId) == t[k]
    ensures forall k | k in t && t[k].creadoPorUsuarioId == Some(usuarioId) :: r[k].creadoPorUsuarioId == None
    ensures forall k | k in t && t[k].creadoPorUsuarioId != Some(usuarioId) :: r[k] == t[k]
  {
    map k | k in t :: if t[k].creadoPorUsuarioId == Some(usuarioId) then t[k].(creadoPorUsuarioId := None) else t[k]
  }

  lemma SetNullIngredientesPreserves(t: IngredienteTable, usuarioId: string)
    requires IngredientesInvariant(t)
    ensures IngredientesInvariant(SetNullIngredientes(t, usuarioId))
    ensures (forall k | k in t :: IngredienteFitsColumns(t[k])) ==>
              forall k | k in t :: IngredienteFitsColumns(SetNullIngredientes(t, usuarioId)[k])
  {
  }

  lemma SetNullCategoriasPreserves(t: CategoriaTable, usuarioId: string)
    requires CategoriaKeys(t) && CategoriaNombreIndex(t)
    ensures CategoriaKeys(SetNullCategorias(t, usuarioId)) && CategoriaNombreIndex(SetNullCategorias(t, usuarioId))
    ensures (forall k | k in t :: CategoriaFitsColumns(t[k])) ==>
      forall k | k in SetNullCategorias(t, usuarioId) :: CategoriaFitsColumns(SetNullCategorias(t, usuarioId)[k])
  {
  }

  /** The database context: the two tables, updated in place. */
  class ApplicationDbContext {
    var ingredientes: IngredienteTable
    var categorias: CategoriaTable

    ghost predicate Valid()
      reads this
    {
      IngredientesInvariant(ingredientes) && CategoriaKeys(categorias) && CategoriaNombreIndex(categorias)
    }

    constructor ()
      ensures Valid()
      ensures ingredientes == map[] && categorias == map[]
    {
      ingredientes := map[];
      categorias := map[];
    }

    /** Deleting a user from the identity store: no row is removed, creators are cleared. */
    method DeleteUser(usuarioId: string)
      requires Valid()
      modifies this
      ensures Valid()
      ensures ingredientes == SetNullIngredientes(old(ingredientes), usuarioId)
      ensures categorias == SetNullCategorias(old(categorias), usuarioId)
    {
      SetNullIngredientesPreserves(ingredientes, usuarioId);
      SetNullCategoriasPreserves(categorias, usuarioId);
      ingredientes := SetNullIngredientes(ingredientes, usuarioId);
      categorias := SetNullCategorias(categorias, usuarioId);
    }
  }
}
