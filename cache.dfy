/// The module-level catalogue slot of the query layer
/// (app/actions/restaurants.ts, `cachedRestaurants` and `getRestaurants`).
/// Loading the archive is outside the model: what the loader would return
/// is a parameter (`None` when it throws, as on an archive without
/// `doc.kml`), and a counter records each time it is called.
module Cache {
  import opened Strings
  import opened Types

  /** One `getRestaurants` call on a slot: the list it resolves to (`None`
      when the call rejects), the slot afterwards, and whether the loader
      ran. A filled slot, even one holding an empty list (an array is
      truthy), is returned as is; an empty slot takes the loader's list, and
      stays empty when the loader throws. */
  datatype Served = Served(result: Option<seq<Restaurant>>, slot: Option<seq<Restaurant>>, loaded: bool)

  function Serve(slot: Option<seq<Restaurant>>, loaded: Option<seq<Restaurant>>): (s: Served)
  {
    match slot
    case Some(rs) => Served(Some(rs), slot, false)
    case None => Served(loaded, loaded, true)
  }

  /** Once a call has filled the slot, every later call returns the same list
      and does not load again, whatever the loader would now return. */
  lemma ServeOnce(slot: Option<seq<Restaurant>>, first: Option<seq<Restaurant>>, later: Option<seq<Restaurant>>)
    requires slot.Some? || first.Some?
    ensures var s := Serve(slot, first);
      var t := Serve(s.slot, later);
      s.result.Some? && t.result == s.result && t.slot == s.slot && !t.loaded
  {
  }

  /** A failed load caches nothing: the call rejects, and the next call
      runs the loader again. */
  lemma ServeRetriesAfterFailure(later: Option<seq<Restaurant>>)
    ensures var s := Serve(None, None);
      s.result.None? && s.slot.None? && s.loaded && Serve(s.slot, later).loaded
  {
  }

  /** The loader runs exactly when the slot is empty. */
  lemma ServeLoadsIffEmpty(slot: Option<seq<Restaurant>>, loaded: Option<seq<Restaurant>>)
    ensures Serve(slot, loaded).loaded <==> slot.None?
    ensures slot.Some? ==> Serve(slot, loaded).result == slot
    ensures slot.None? ==> Serve(slot, loaded).result == loaded
  {
  }

  class RestaurantCache {
    /** `cachedRestaurants`: `None` is the initial `null`. */
    var cached: Option<seq<Restaurant>>
    /** The number of calls to `loadRestaurantsFromKMZ` so far. */
    var loads: nat

    constructor ()
      ensures cached.None? && loads == 0
    {
      cached := None;
      loads := 0;
    }

    /** `getRestaurants`, with `loaded` what the loader would return: `None`
        when it throws, and then the call rejects (`rs` is `None`). */
    method GetRestaurants(loaded: Option<seq<Restaurant>>) returns (rs: Option<seq<Restaurant>>)
      modifies this
      ensures rs == Serve(old(cached), loaded).result
      ensures cached == Serve(old(cached), loaded).slot
      ensures loads == old(loads) + if Serve(old(cached), loaded).loaded then 1 else 0
      ensures old(cached).Some? ==> rs == old(cached) && cached == old(cached) && loads == old(loads)
      ensures old(cached).None? && loaded.None? ==> rs.None? && cached.None?
    {
      if cached.Some? {
        return cached;
      }
      cached := loaded;
      loads := loads + 1;
      rs := loaded;
    }
  }
}
