/**
 * A database table as the ORM presents it: rows in creation order, where a
 * row's position is its primary key. Services read `rows`, create rows and
 * save a changed row back in place.
 */
module Tables
{
  class Table<T>
  {
    var rows: seq<T>

    constructor ()
      ensures rows == []
    {
      rows := [];
    }

    /** `Model.objects.create(...)`: appends the row and returns its key. */
    method Create(row: T) returns (pk: nat)
      modifies this
      ensures rows == old(rows) + [row]
      ensures pk == |old(rows)| && rows[pk] == row
    {
      pk := |rows|;
      rows := rows + [row];
    }

    /** `instance.save()` on a row that already exists. */
    method Save(pk: nat, row: T)
      requires pk < |rows|
      modifies this
      ensures rows == old(rows)[pk := row]
    {
      rows := rows[pk := row];
    }

    /** A bulk `queryset.update(...)`: the whole table is replaced by `updated`. */
    method Replace(updated: seq<T>)
      modifies this
      ensures rows == updated
    {
      rows := updated;
    }
  }
}
