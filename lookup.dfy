/** Reading one row of a table by id, by slug, or by the id-or-slug rule the
    public detail endpoints share. */
module Lookup {

  import opened Wrappers

  /** `findUnique({ where: { id } })`. */
  function ById<V>(table: map<string, V>, id: string): (r: Option<V>)
    ensures r.Some? <==> id in table
    ensures r.Some? ==> r.value == table[id]
  {
    if id in table then Some(table[id]) else None
  }

  predicate SlugTaken<V>(table: map<string, V>, key: string, slugOf: V -> string) {
    exists k :: k in table && slugOf(table[k]) == key
  }

  /** `findFirst({ where: { slug } })`: some row carrying the slug; which one
      the store returns when several do is not specified. */
  method BySlug<V(==)>(table: map<string, V>, key: string, slugOf: V -> string) returns (found: Option<V>)
    ensures found.None? <==> !SlugTaken(table, key, slugOf)
    ensures found.Some? ==> found.value in table.Values && slugOf(found.value) == key
  {
    if k :| k in table && slugOf(table[k]) == key {
      found := Some(table[k]);
    } else {
      found := None;
    }
  }

  /** The id-or-slug dispatch: a key that contains a dash and is longer than
      20 characters is looked up as an id only; any other key is tried as a
      slug first and, when no row carries it, as an id. */
  method ByIdOrSlug<V(==)>(table: map<string, V>, key: string, slugOf: V -> string) returns (found: Option<V>)
    ensures IdLike(key) ==> found == ById(table, key)
    ensures !IdLike(key) && !SlugTaken(table, key, slugOf) ==> found == ById(table, key)
    ensures !IdLike(key) && SlugTaken(table, key, slugOf) ==>
      found.Some? && found.value in table.Values && slugOf(found.value) == key
    ensures !IdLike(key) && SlugTaken(table, key, slugOf) ==>
      exists k :: k in table && slugOf(table[k]) == key && found == Some(table[k])
  {
    if IdLike(key) {
      found := ById(table, key);
    } else {
      found := BySlug(table, key, slugOf);
      if found.None? {
        found := ById(table, key);
      }
    }
  }
}
