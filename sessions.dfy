/**
  The per-user maps the bot keeps on its client object (recommendData,
  browseData, watchpartyData, activityData). Each is created on first use
  (`if (!client.x) client.x = new Map()`) and read with optional chaining,
  so reading a map that was never created finds nothing.
*/
module Sessions {
  import opened Js

  class Store<V> {
    /** Whether the Map has been created. */
    var created: bool
    var entries: map<string, V>

    /** A map that was never created holds nothing. */
    ghost predicate Valid()
      reads this
    {
      created || entries == map[]
    }

    constructor ()
      ensures Valid() && !created && entries == map[]
    {
      created := false;
      entries := map[];
    }

    /** client.x?.get(key) */
    function Get(key: string): (v: Option<V>)
      reads this
      ensures v.Some? <==> key in entries
      ensures v.Some? ==> v.value == entries[key]
    {
      if key in entries then Some(entries[key]) else None
    }

    /** if (!client.x) client.x = new Map() */
    method Create()
      requires Valid()
      modifies this
      ensures Valid() && created && entries == old(entries)
    {
      created := true;
    }

    /** client.x.set(key, v) on a map that exists. */
    method Set(key: string, v: V)
      requires Valid() && created
      modifies this
      ensures Valid() && created && entries == old(entries)[key := v]
    {
      entries := entries[key := v];
    }

    /** client.x.delete(key) on a map that exists. */
    method Delete(key: string)
      requires Valid() && created
      modifies this
      ensures Valid() && created && entries == old(entries) - {key}
    {
      entries := entries - {key};
    }

    /** Creates the map when absent, then sets key: what every writer of a
        session does. */
    method Put(key: string, v: V)
      requires Valid()
      modifies this
      ensures Valid() && created && entries == old(entries)[key := v]
    {
      if !created {
        Create();
      }
      Set(key, v);
    }
  }
}
