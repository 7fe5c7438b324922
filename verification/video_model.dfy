/**
 The persisted side of the service: one row of the videos table and the
 table itself, keyed by its primary key.
 */
module VideoModel {
  import opened Options

  /** One row of the table: the primary key and three non-null columns. */
  datatype Video = Video(id: int, name: string, views: int, likes: int)

  /** The whole table, as a finite map from primary key to row. */
  type Store = map<int, Video>

  /** Every row is filed under its own primary key. */
  ghost predicate WellFormed(s: Store) {
    forall k | k in s :: s[k].id == k
  }

  /** The row a query filtering on `id` returns first, if any. */
  function Lookup(s: Store, id: int): (r: Option<Video>)
    ensures r.Some? <==> id in s
    ensures r.Some? ==> r.value == s[id]
  {
    if id in s then Some(s[id]) else None
  }

  /**
   Keying the table by `id` loses nothing: on a well-formed store the keyed
   lookup finds exactly the rows a filter on the `id` column would find.
   */
  lemma LookupIsFilter(s: Store, id: int, v: Video)
    requires WellFormed(s)
    ensures Lookup(s, id) == Some(v) <==> exists k | k in s :: s[k] == v && v.id == id
  {
  }
}
