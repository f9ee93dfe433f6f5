# RecetArreAPI2 ingredient catalogue, modelled in Dafny

RecetArreAPI2 is an ASP.NET Core API for recipe reference data. This project models its
ingredient endpoints (`IngredientesController`), the `Ingrediente` entity with the
validity its data annotations declare, and the storage schema the database context
declares for `Ingrediente` and `Categoria`.

The database context (`Schema.ApplicationDbContext`) is a class that owns two tables.
Each table is a map from primary key to row. The controller
(`Controllers.IngredientesController`) holds the context and has one method per
endpoint:

- create, update and delete update the `Ingredientes` table in place. Each is proved to
  agree with a pure function of module `IngredienteRules`, which gives the response and
  the table afterwards;
- get is proved to agree with the pure function `IngredienteRules.Get` and changes
  nothing;
- list changes nothing. Its loop is proved to produce a result satisfying the predicate
  `IngredienteRules.IsListing`.

The lemmas about these functions prove the rules that matter:

- names stay pairwise distinct ignoring case across every create, update and delete;
- the duplicate-name check runs before the user check;
- an update touches only name, unit and description;
- the list returns every row exactly once, newest first.

The framework's services are parameters:

- the clock (`DateTime.UtcNow`) is `now`, a `Timestamp` in ticks;
- the caller (`userManager.GetUserId(User)`) is `usuarioId: Option<string>`;
- the identity column's next value is `freshId`, any id that no row has.

Case mapping (`ToLower`, `OrdinalIgnoreCase`) covers ASCII letters only. Every other
character maps to itself. Lemma `Text.EqualsIgnoreCaseIffSameLower` proves that, in this
model, the comparison that decides whether an update renames (line 97) agrees with the
comparison in the uniqueness query (line 100).

Files: `Wrappers.dfy` (Option), `Text.dfy`, `Models.dfy` (Models/Ingrediente.cs),
`Dtos.dfy` (DTOs/Ingredientes/IngredienteDtos.cs), `Schema.dfy`
(Context/ApplicationDbContext.cs), `Rules.dfy` and `Controllers.dfy`
(Controllers/IngredientesController.cs), `Examples.dfy` (sessions of requests).

Order of the checks on create: `CreateIngrediente` looks for a duplicate name
(Controllers/IngredientesController.cs:62-67) before it resolves the user (lines 69-73).
A duplicate name therefore gets BadRequest even when the user id is empty.

### Where the source disagrees with itself

- The comment on `Descripcion` (Models/Ingrediente.cs:19) says 500 characters. The
  attribute on the same line, and the column (Context/ApplicationDbContext.cs:67), both say
  100. The model uses 100.

## Model

| member | source | states |
|---|---|---|
| Text.EqualsIgnoreCaseIffSameLower | Controllers/IngredientesController.cs:97-100 | OrdinalIgnoreCase equality of two names holds exactly when their `ToLower` forms are equal |
| Models.BlankNombreIsInvalid | Models/Ingrediente.cs:10-12 | `[Required]` refuses a name made only of white space, whatever its length |
| Models.DescripcionLimit | Models/Ingrediente.cs:19-20 | a description longer than 100 characters makes the entity invalid (the attribute's 100, not the comment's 500) |
| Dtos.ApplyModificacion | Controllers/IngredientesController.cs:106 | mapping the modification DTO onto an entity overwrites only `Nombre`, `UnidadMedida` and `Descripcion`; id, creation time and creator stay, and the view shows the new three fields |
| Schema.InvariantImpliesNombreIndex | Context/ApplicationDbContext.cs:78 | names distinct ignoring case are exactly distinct, so the unique index on `Nombre` holds on every table the controller produces |
| Schema.ValidFitsColumns | Context/ApplicationDbContext.cs:57-68 | an entity valid under its attributes fits the column limits: name at most 100, unit at most 15, description absent or at most 100 |
| Schema.InsertedCategoria | Context/ApplicationDbContext.cs:36-38 | a `Categoria` whose creation time is left at `default(DateTime)` is stored with the current timestamp; any other row is stored as given; only `CreadoUtc` can change |
| Schema.SetNullIngredientes | Context/ApplicationDbContext.cs:71-75 | deleting a user removes no ingredient, leaves no ingredient referencing that user, and changes no field other than `CreadoPorUsuarioId`; rows of other creators are untouched |
| Schema.SetNullCategorias | Context/ApplicationDbContext.cs:40-45 | the same set-null rule for categories |
| Schema.SetNullIngredientesPreserves | Context/ApplicationDbContext.cs:71-79 | set-null keeps the primary keys, the case-insensitive name uniqueness and the column limits |
| Schema.SetNullCategoriasPreserves | Context/ApplicationDbContext.cs:26-48 | set-null keeps the category primary keys and the unique name index, and keeps every row within its column lengths |
| Schema.ApplicationDbContext.DeleteUser | Context/ApplicationDbContext.cs:71-75 | the context applies set-null to both tables and keeps its invariant |
| IngredienteRules.Get | Controllers/IngredientesController.cs:48-53 | get answers Ok exactly when some row has that id, and then returns that row's view; otherwise NotFound |
| IngredienteRules.InsertByDate | Controllers/IngredientesController.cs:39 | inserting a view into a newest-first list keeps it newest first and adds exactly that view |
| IngredienteRules.Create | Controllers/IngredientesController.cs:62-82 | BadRequest exactly when a stored name equals the new one ignoring case; otherwise Unauthorized exactly when the user id is null or empty; both leave the table as it was; otherwise Created, the table gains one row under the fresh id with the DTO's three fields, the clock and the caller, every old row is kept, and the view is that row's |
| IngredienteRules.Update | Controllers/IngredientesController.cs:91-110 | NotFound exactly when the id is absent; BadRequest exactly when the name changes other than in case and another row holds it ignoring case; both leave the table as it was; otherwise Ok, only that row changes, and only in name, unit and description |
| IngredienteRules.Delete | Controllers/IngredientesController.cs:118-126 | NotFound with the table unchanged exactly when the id is absent; otherwise Ok and exactly that row is removed, the others untouched |
| IngredienteRules.CreatePreservesInvariant | Controllers/IngredientesController.cs:62-79 | a create keeps primary keys consistent and names distinct ignoring case |
| IngredienteRules.UpdatePreservesInvariant | Controllers/IngredientesController.cs:96-108 | an update keeps names distinct ignoring case, including when it skips the uniqueness query because the name is unchanged up to case |
| IngredienteRules.DeletePreservesInvariant | Controllers/IngredientesController.cs:124 | a delete keeps the invariant |
| IngredienteRules.CreateDuplicateIsBadRequest | Controllers/IngredientesController.cs:62-73 | a name equal in any casing to a stored one gets BadRequest with the table unchanged, whatever the user id, even a missing one |
| IngredienteRules.CreateThenGet | Controllers/IngredientesController.cs:75-82 | after a successful create, get on the new id returns the DTO's fields with that id and the clock's time |
| IngredienteRules.UpdateSucceedsUnlessNameTaken | Controllers/IngredientesController.cs:97-105 | on a valid table, an update of a stored id succeeds exactly when no other row holds the new name ignoring case; keeping the name, in any casing, always succeeds |
| IngredienteRules.UpdateIsNarrow | Controllers/IngredientesController.cs:106-107 | whatever the outcome, update keeps the set of ids and every row's id, creation time and creator |
| IngredienteRules.DeleteThenGet | Controllers/IngredientesController.cs:124-126 | after deleting an id, get on it is NotFound and get on any other id answers as before |
| IngredienteRules.ActionsPreserveValidity | Models/Ingrediente.cs:10-20 | if every row is valid and the DTO's fields are valid, every row is still valid after a create or an update |
| Controllers.IngredientesController.AnyNombre | Controllers/IngredientesController.cs:62-63 | the uniqueness query is true exactly when some row, other than the excluded id, has the name ignoring case |
| Controllers.IngredientesController.GetIngredientes | Controllers/IngredientesController.cs:36-42 | the list holds views of stored rows only, each stored row exactly once, ordered by creation time newest first; the table is only read |
| Controllers.IngredientesController.GetIngrediente | Controllers/IngredientesController.cs:46-54 | the action answers as `Get`, and an Ok view carries the requested id |
| Controllers.IngredientesController.CreateIngrediente | Controllers/IngredientesController.cs:59-84 | the action returns what `Create` returns, leaves the table as `Create` leaves it, keeps the context invariant and leaves categories alone |
| Controllers.IngredientesController.UpdateIngrediente | Controllers/IngredientesController.cs:89-111 | the action agrees with `Update`, keeps the invariant and leaves categories alone |
| Controllers.IngredientesController.DeleteIngrediente | Controllers/IngredientesController.cs:116-127 | the action agrees with `Delete`, keeps the invariant and leaves categories alone |
| IngredienteExamples.NewestListedFirst | Controllers/IngredientesController.cs:38-41 | the only listing of a two-row table puts the newer row first |
| IngredienteExamples.CreateTwiceThenList | Controllers/IngredientesController.cs:38-82 | after creating A, then B later under a different name, the list is exactly [B, A] |
| IngredienteExamples.TomatoSession | Controllers/IngredientesController.cs:48-126 | create "Tomato" in kg succeeds. "tomato" and "TOMATO" are then refused, the latter even without a user. A fresh name with an empty user id is Unauthorized. Update to grams keeps id, time and creator. Delete succeeds, and a later get is NotFound |
| Text.ToLower | Controllers/IngredientesController.cs:63 | definition: `ToLower`, with A-Z mapped to a-z and every other character kept |
| Text.EqualsIgnoreCase | Controllers/IngredientesController.cs:97 | definition: OrdinalIgnoreCase equality, as equal length and equal upper-cased characters at every index |
| Text.IsNullOrEmpty | Controllers/IngredientesController.cs:70 | definition: `string.IsNullOrEmpty`, with null as `None` |
| Models.Required | Models/Ingrediente.cs:10 | definition: `[Required]` on a string, meaning some character is not white space |
| Models.StringLength | Models/Ingrediente.cs:11 | definition: `[StringLength(max, MinimumLength = min)]` on the length |
| Models.IsValid | Models/Ingrediente.cs:10-20 | definition: the name is required with 2 to 100 characters; the unit is required with at most 15; the description is absent or at most 100 |
| Models.NewIngrediente | Models/Ingrediente.cs:8-26 | definition: `new Ingrediente()` with id 0, `CreadoUtc` from the clock at construction, and no creator |
| Dtos.ToDto | Controllers/IngredientesController.cs:53 | definition: the field-by-field view, meaning id, name, unit, description and creation time |
| Dtos.FromCreacion | Controllers/IngredientesController.cs:75 | definition: `mapper.Map<Ingrediente>(dto)`, a new entity carrying the DTO's three fields |
| Schema.IngredienteFitsColumns | Context/ApplicationDbContext.cs:57-68 | definition: the column limits on ingredient rows, 100, 15 and 100 |
| Schema.CategoriaFitsColumns | Context/ApplicationDbContext.cs:26-34 | definition: the column limits on category rows, 100 for the name and 500 for the description |
| Schema.IngredienteKeys | Context/ApplicationDbContext.cs:55 | definition: every ingredient row is stored under its own id |
| Schema.CategoriaKeys | Context/ApplicationDbContext.cs:24 | definition: every category row is stored under its own id |
| Schema.IngredienteNombreIndex | Context/ApplicationDbContext.cs:78 | definition: the unique index, meaning no two ingredient rows share exactly the same name |
| Schema.CategoriaNombreIndex | Context/ApplicationDbContext.cs:48 | definition: the unique index, meaning no two category rows share exactly the same name |
| Schema.NombresUnicosSinMayusculas | Controllers/IngredientesController.cs:62-67 | definition: no two ingredient rows have names equal ignoring case |
| Schema.IngredientesInvariant | Context/ApplicationDbContext.cs:55-78 | definition: keys consistent and names distinct ignoring case |
| IngredienteRules.Coincide | Controllers/IngredientesController.cs:100 | definition: the filter of the uniqueness query, meaning same name ignoring case and not the excluded id |
| IngredienteRules.NombreTomado | Controllers/IngredientesController.cs:62-63 | definition: `AnyAsync` with that filter over the table |
| IngredienteRules.NewRow | Controllers/IngredientesController.cs:75-79 | definition: the mapped entity with the clock, the caller and the fresh id |
| IngredienteRules.IsListing | Controllers/IngredientesController.cs:38-41 | definition: views of stored rows only, each stored row exactly once (multiplicity 1), ordered newest first |
| Controllers.PickKey | Controllers/IngredientesController.cs:38 | returns some element of a non-empty key set, the order in which the query visits rows |

## Left out

- HTTP and ASP.NET plumbing: routing, `[Authorize]` and JWT validation, status-code bodies and their messages, and the location header of `CreatedAtAction`. Authentication appears only as the `Option<string>` user id that create checks. Update and delete take no user, because only `[Authorize]` guards them.
- EF Core and async: change tracking, `SaveChangesAsync`, `ToListAsync`. The methods update the in-memory table directly, and a write is never refused by the database. In particular, an over-long value is assumed to be stored, where PostgreSQL would refuse it with a server error. The length rules are therefore the separate predicates `Models.IsValid` and `Schema.IngredienteFitsColumns`. They are preserved only conditionally (`IngredienteRules.ActionsPreserveValidity`) and are not part of the context invariant.
- Concurrency: two concurrent creates racing between the pre-check and the insert. The requests are sequential in the model, so the unique index is never violated.
- The AutoMapper profile is not part of this model. Mappings are taken to be field-by-field copies (`Dtos.ToDto`, `Dtos.FromCreacion`, `Dtos.ApplyModificacion`).
- Culture-specific case mapping: `ToLower` in .NET and `lower()` in the database, and `OrdinalIgnoreCase` outside ASCII. Both are one ASCII mapping here. `[Required]` treats only ASCII white space as blank.
- Controllers.IngredientesController.GetIngrediente: the lookup is by map key, not a scan for `i.Id == id`. The context invariant `Schema.IngredienteKeys` makes the two the same; `IngredienteRules.Get` states the equivalence.
- Controllers.IngredientesController.UpdateIngrediente and Controllers.IngredientesController.DeleteIngrediente (with `IngredienteRules.Update` and `IngredienteRules.Delete`): these also look up `FirstOrDefaultAsync(i => i.Id == id)` by map key. This is the same as a scan on every table the context invariant admits.
- IngredienteRules.CreateThenGet: this assumes the stored creation time equals the clock's value. PostgreSQL's `timestamp with time zone` keeps microseconds, while `DateTime.UtcNow` has 100 ns ticks. A later GET reads the stored row, so it can return a time truncated to the microsecond, where the POST view (line 82) carries the full value. Storage precision is not modelled.
- IngredienteExamples.CreateTwiceThenList: for the same reason, two creates less than a microsecond apart tie in the database's ORDER BY. The model orders them by their full tick values.
- Models.IsValid: `[StringLength]` counts UTF-16 code units. The model counts characters of `seq<char>`, which are Unicode scalar values. A name of characters outside the Basic Multilingual Plane, such as emoji, can therefore pass the model's bound and still fail the attribute. The PostgreSQL `varchar(n)` columns of `Schema.IngredienteFitsColumns` count characters, as the model does, so that bound is exact.
- The 32-bit width of `int` ids, and the identity column's counter. Ids are unbounded integers, and a fresh id is any id no row has.
- Migrations: the model follows the context's model configuration, not the migration files. Migrations/20260220170038_AddCreadoUtcToIngrediente.cs:14-19 gives the `Ingredientes.CreadoUtc` column a `CURRENT_TIMESTAMP` default that the context does not declare for `Ingrediente` (it declares one only for `Categoria`). That default has no effect through the context, because Entity Framework always sends `CreadoUtc` on insert, so the model does not include it.
- Categoria CRUD: no controller or model for it is part of this model. Only its schema, its set-null rule and its timestamp default are modelled.
- Null `Nombre`/`UnidadMedida` in a request: strings are never null in the model. The `IsRequired()` checks on those columns therefore hold by construction.
