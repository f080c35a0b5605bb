/** The dictionary logic of `update_json_and_save`: the ids found in a run are
    reconciled with the persisted catalog. Reading the old catalog and writing the
    two blobs and the warehouse table are outside the model; the values written are
    `newRestaurants` (the timestamped snapshot) and `combined` (the full catalog). */
module CatalogMerge {
  import opened Common

  /** A known entry after the seven in-place assignments; `displayName` and
      `first_seen` keep their old values. */
  function Refreshed(known: Entry, seen: Entry): Entry {
    known.(rating := seen.rating, address := seen.address, priceLevel := seen.priceLevel,
           lastSeen := seen.lastSeen, primaryType := seen.primaryType,
           userRatingCount := seen.userRatingCount, types := seen.types)
  }

  /** A new entry after `first_seen = last_seen`. */
  function FirstSighting(seen: Entry): Entry {
    seen.(firstSeen := seen.lastSeen)
  }

  /** `json_old` after the loop. */
  function UpdatedOld(newData: Catalog, stored: Catalog): Catalog {
    map id | id in stored :: if id in newData then Refreshed(stored[id], newData[id]) else stored[id]
  }

  /** `new_restaurants` after the loop. */
  function NewRestaurants(newData: Catalog, stored: Catalog): Catalog {
    map id | id in newData && id !in stored :: FirstSighting(newData[id])
  }

  /** `new_data` after the loop: the dictionaries stored in `new_restaurants` are the
      very ones of `new_data`, so the new ids gain `first_seen` there too. */
  function AliasedNewData(newData: Catalog, stored: Catalog): Catalog {
    map id | id in newData :: if id in stored then newData[id] else FirstSighting(newData[id])
  }

  datatype MergeOutcome = MergeOutcome(combined: Catalog, newRestaurants: Catalog, newData: Catalog)

  /** `concatenated_dict = json_old.copy(); concatenated_dict.update(new_restaurants)`. */
  function Merge(newData: Catalog, stored: Catalog): MergeOutcome {
    MergeOutcome(UpdatedOld(newData, stored) + NewRestaurants(newData, stored),
                 NewRestaurants(newData, stored),
                 AliasedNewData(newData, stored))
  }

  /** Every observed entry has a `last_seen`, which the loop reads for each id. */
  predicate Stamped(newData: Catalog) {
    forall id | id in newData :: newData[id].lastSeen.Some?
  }

  /** The loop of `update_json_and_save` over `new_data.items()`, then the copy and
      `update`; the old catalog is a parameter instead of a blob read. Reading
      `last_seen` of an observed entry that lacks it is a KeyError, for a new id and
      for a known one alike. */
  method UpdateCatalog(newData: Catalog, stored: Catalog) returns (outcome: Result<MergeOutcome>)
    ensures !Stamped(newData) ==> outcome == Err(KeyError)
    ensures Stamped(newData) ==> outcome == Ok(Merge(newData, stored))
  {
    var jsonOld := stored;
    var newOnes: Catalog := map[];
    var todo := newData.Keys;
    while todo != {}
      invariant todo <= newData.Keys
      invariant forall id | id in newData && id !in todo :: newData[id].lastSeen.Some?
      invariant jsonOld.Keys == stored.Keys
      invariant forall id | id in stored :: jsonOld[id] == if id in newData && id !in todo then Refreshed(stored[id], newData[id]) else stored[id]
      invariant newOnes.Keys == newData.Keys - todo - stored.Keys
      invariant forall id | id in newOnes :: newOnes[id] == FirstSighting(newData[id])
      decreases todo
    {
      var id :| id in todo;
      var seen := newData[id];
      if seen.lastSeen.None? {
        return Err(KeyError);
      }
      if id !in jsonOld {
        newOnes := newOnes[id := FirstSighting(seen)];
      } else {
        jsonOld := jsonOld[id := Refreshed(jsonOld[id], seen)];
      }
      todo := todo - {id};
    }
    // `new_restaurants` holds the very dictionaries of `new_data`, so the caller's
    // dictionary now shows the new entries with their `first_seen`.
    var observed := newData + newOnes;
    MergeFromParts(newData, stored, jsonOld, newOnes, observed);
    var combined := jsonOld + newOnes;
    outcome := Ok(MergeOutcome(combined, newOnes, observed));
  }

  /** The three dictionaries the loop leaves, described key by key, are the merge. */
  lemma MergeFromParts(newData: Catalog, stored: Catalog, jsonOld: Catalog, newOnes: Catalog, observed: Catalog)
    requires jsonOld.Keys == stored.Keys && observed.Keys == newData.Keys
    requires forall id | id in stored :: jsonOld[id] == if id in newData then Refreshed(stored[id], newData[id]) else stored[id]
    requires newOnes.Keys == newData.Keys - stored.Keys
    requires forall id | id in newOnes :: newOnes[id] == FirstSighting(newData[id])
    requires forall id | id in newData :: observed[id] == if id !in stored then FirstSighting(newData[id]) else newData[id]
    ensures MergeOutcome(jsonOld + newOnes, newOnes, observed) == Merge(newData, stored)
  {
    assert newOnes == NewRestaurants(newData, stored);
    assert jsonOld == UpdatedOld(newData, stored);
    assert observed == AliasedNewData(newData, stored);
  }

  // ----- Properties of the merge -----

  /** The combined catalog holds the old ids and the observed ones; the snapshot
      holds exactly the observed ids the old catalog lacked. */
  lemma MergeKeys(newData: Catalog, stored: Catalog)
    ensures Merge(newData, stored).combined.Keys == stored.Keys + newData.Keys
    ensures Merge(newData, stored).newRestaurants.Keys == newData.Keys - stored.Keys
    ensures Merge(newData, stored).newData.Keys == newData.Keys
  {
  }

  /** A new id enters with `first_seen == last_seen` and otherwise as observed. */
  lemma NewEntriesFirstSighting(newData: Catalog, stored: Catalog, id: string)
    requires id in newData && id !in stored
    ensures var m := Merge(newData, stored);
            && id in m.newRestaurants && m.combined[id] == m.newRestaurants[id]
            && m.combined[id].firstSeen == m.combined[id].lastSeen == newData[id].lastSeen
            && m.combined[id] == newData[id].(firstSeen := newData[id].lastSeen)
  {
  }

  /** A known id takes the seven observed fields and keeps its `first_seen` and
      `displayName`; it is not reported as new. */
  lemma KnownEntriesRefreshed(newData: Catalog, stored: Catalog, id: string)
    requires id in newData && id in stored
    ensures var e, seen, was := Merge(newData, stored).combined[id], newData[id], stored[id];
            && id !in Merge(newData, stored).newRestaurants
            && e.rating == seen.rating && e.address == seen.address && e.priceLevel == seen.priceLevel
            && e.lastSeen == seen.lastSeen && e.primaryType == seen.primaryType
            && e.userRatingCount == seen.userRatingCount && e.types == seen.types
            && e.firstSeen == was.firstSeen && e.displayName == was.displayName
  {
  }

  /** Old entries that were not observed are carried over unchanged, and the final
      `update` never replaces an old entry, because the snapshot's ids are all new. */
  lemma OldEntriesSurvive(newData: Catalog, stored: Catalog, id: string)
    requires id in stored
    ensures Merge(newData, stored).newRestaurants.Keys !! stored.Keys
    ensures Merge(newData, stored).combined[id] == UpdatedOld(newData, stored)[id]
    ensures id !in newData ==> Merge(newData, stored).combined[id] == stored[id]
    ensures Merge(newData, stored).combined[id].firstSeen == stored[id].firstSeen
  {
  }

  /** Merging the same observations a second time changes nothing and reports no
      new id: `first_seen` never moves once set. */
  lemma MergeIdempotent(newData: Catalog, stored: Catalog)
    ensures var once := Merge(newData, stored).combined;
            Merge(newData, once).combined == once && Merge(newData, once).newRestaurants == map[]
  {
    var once := Merge(newData, stored).combined;
    var twice := Merge(newData, once).combined;
    assert twice.Keys == once.Keys;
    forall id | id in once ensures twice[id] == once[id] {
      if id in newData && id !in stored {
        assert once[id] == FirstSighting(newData[id]);
      }
    }
    assert Merge(newData, once).newRestaurants.Keys == {};
  }
}
