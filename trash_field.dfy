/**
 * Which column marks a row as trashed: the configured `field`, otherwise the
 * first of the schema columns `deleted` and `trashed` that exists, otherwise
 * the application-wide `Muffin/Trash.field` setting; with none of these the
 * behaviour cannot work and raises an error. The aliased form prefixes the
 * table alias the way `Table::aliasField()` does.
 */
module TrashField {
  import opened Wrappers

  /** The exception raised when no field can be found. */
  datatype FieldError = FieldNotConfigured

  const DeletedColumn: string := "deleted"
  const TrashedColumn: string := "trashed"

  /** The schema columns looked for, in order of preference. */
  const Candidates: seq<string> := [DeletedColumn, TrashedColumn]

  /** `empty()` on a field name: null (modelled as ""), "" and "0". */
  predicate EmptyName(s: string) {
    s == "" || s == "0"
  }

  /**
   * The resolved field name for the configured name `configured`, the
   * table's schema `columns` and the global setting `global`.
   */
  function Resolve(configured: string, columns: seq<string>, global: string): (r: Result<string, FieldError>)
    ensures r.Ok? ==> !EmptyName(r.value)
    ensures r.Ok? ==> r.value in {configured, DeletedColumn, TrashedColumn, global}
  {
    if !EmptyName(configured) then Ok(configured)
    else if DeletedColumn in columns then Ok(DeletedColumn)
    else if TrashedColumn in columns then Ok(TrashedColumn)
    else if !EmptyName(global) then Ok(global)
    else Err(FieldNotConfigured)
  }

  /** `Table::aliasField()`: a name that already has a dot is kept, any other is prefixed. */
  function AliasField(alias: string, field: string): (r: string)
    ensures |r| >= |field| && r[|r| - |field|..] == field
    ensures '.' in r
    ensures '.' in field ==> r == field
  {
    if '.' in field then field
    else
      var r := alias + "." + field;
      assert r[|alias|] == '.';
      r
  }

  /** A non-empty configured name is used as it is, whatever the schema holds. */
  lemma ConfiguredFieldWins(configured: string, columns: seq<string>, global: string)
    requires !EmptyName(configured)
    ensures Resolve(configured, columns, global) == Ok(configured)
  {
  }

  /** Without a configured name `deleted` is preferred to `trashed` when both columns exist. */
  lemma DeletedBeatsTrashed(configured: string, columns: seq<string>, global: string)
    requires EmptyName(configured)
    requires DeletedColumn in columns
    ensures Resolve(configured, columns, global) == Ok(DeletedColumn)
  {
  }

  /** The global setting is consulted only when neither schema column exists, and it is the last resort. */
  lemma GlobalIsLastResort(configured: string, columns: seq<string>, global: string)
    requires EmptyName(configured)
    requires forall c :: c in Candidates ==> c !in columns
    ensures Resolve(configured, columns, global).Ok? <==> !EmptyName(global)
    ensures !EmptyName(global) ==> Resolve(configured, columns, global) == Ok(global)
  {
    assert DeletedColumn in Candidates && TrashedColumn in Candidates;
  }

  /**
   * Caching: once the resolved name is written back as the configured name,
   * resolving again yields the same name, whatever the schema or the global
   * setting have become.
   */
  lemma ResolvedNameIsStable(configured: string, columns: seq<string>, global: string,
                             columns': seq<string>, global': string)
    requires Resolve(configured, columns, global).Ok?
    ensures Resolve(Resolve(configured, columns, global).value, columns', global') ==
            Resolve(configured, columns, global)
  {
  }

  /** Aliasing an aliased name changes nothing, so a name is never prefixed twice. */
  lemma AliasFieldIdempotent(alias: string, field: string)
    ensures AliasField(alias, AliasField(alias, field)) == AliasField(alias, field)
  {
  }
}
