/** The retention job (`delete_old_entries`): every catalog entry whose `last_seen`
    date falls before a cutoff date is dropped. Downloading and uploading the blob
    are outside the model; the catalog and the cutoff text are parameters. */
module Retention {
  import opened Common
  import opened Dates

  /** `strptime(restaurant_data['last_seen'], "%Y-%m-%d").date()`: a KeyError when the
      entry has no `last_seen`, a ValueError when it is not a date. */
  function StampOf(e: Entry): Result<CalendarDate> {
    match e.lastSeen
    case None => Err(KeyError)
    case Some(text) =>
      match ParseDate(text)
      case None => Err(ValueError)
      case Some(d) => Ok(d)
  }

  predicate Readable(e: Entry) {
    StampOf(e).Ok?
  }

  predicate AllReadable(data: Catalog) {
    forall id | id in data :: Readable(data[id])
  }

  /** `updated_data`: the entries last seen on or after the cutoff, unchanged. */
  function Retained(data: Catalog, cutoff: CalendarDate): Catalog
    requires AllReadable(data)
  {
    map id | id in data && NotAfter(cutoff, StampOf(data[id]).value) :: data[id]
  }

  /** `delete_old_entries` on the downloaded catalog. A cutoff that is not a date is
      a ValueError; an entry whose stamp cannot be read stops the run with that
      entry's error; otherwise the result keeps exactly the entries last seen on or
      after the cutoff. */
  method DeleteOldEntries(data: Catalog, cutoffText: string) returns (r: Result<Catalog>)
    ensures ParseDate(cutoffText).None? ==> r == Err(ValueError)
    ensures ParseDate(cutoffText).Some? && AllReadable(data) ==>
              r.Ok?
              && (forall id :: id in r.value <==> id in data && NotAfter(ParseDate(cutoffText).value, StampOf(data[id]).value))
              && (forall id | id in r.value :: r.value[id] == data[id])
    ensures ParseDate(cutoffText).Some? && AllReadable(data) ==> r == Ok(Retained(data, ParseDate(cutoffText).value))
    ensures ParseDate(cutoffText).Some? && !AllReadable(data) ==>
              r.Err? && exists id | id in data :: StampOf(data[id]) == Err(r.error)
  {
    var parsed := ParseDate(cutoffText);
    if parsed.None? {
      return Err(ValueError);
    }
    var dateCutoff := parsed.value;
    var updatedData: Catalog := map[];
    var todo := data.Keys;
    while todo != {}
      invariant todo <= data.Keys
      invariant forall id | id in data && id !in todo :: Readable(data[id])
      invariant updatedData.Keys <= data.Keys - todo
      invariant forall id | id in data && id !in todo :: id in updatedData <==> NotAfter(dateCutoff, StampOf(data[id]).value)
      invariant forall id | id in updatedData :: updatedData[id] == data[id]
      decreases todo
    {
      var id :| id in todo;
      var restaurantData := data[id];
      if restaurantData.lastSeen.None? {
        return Err(KeyError);
      }
      var lastSeenDate := ParseDate(restaurantData.lastSeen.value);
      if lastSeenDate.None? {
        return Err(ValueError);
      }
      if NotAfter(dateCutoff, lastSeenDate.value) {
        updatedData := updatedData[id := restaurantData];
      }
      todo := todo - {id};
    }
    assert updatedData == Retained(data, dateCutoff);
    return Ok(updatedData);
  }

  /** Running the job twice with one cutoff removes nothing the second time. */
  lemma RetainedIdempotent(data: Catalog, cutoff: CalendarDate)
    requires AllReadable(data)
    ensures AllReadable(Retained(data, cutoff))
    ensures Retained(Retained(data, cutoff), cutoff) == Retained(data, cutoff)
  {
    var once := Retained(data, cutoff);
    assert AllReadable(once) by {
      forall id | id in once ensures Readable(once[id]) {
        assert once[id] == data[id];
      }
    }
    var twice := Retained(once, cutoff);
    forall id ensures id in twice <==> id in once {
      if id in once {
        assert once[id] == data[id];
      }
    }
  }

  /** A later cutoff keeps a subset of what an earlier one keeps. */
  lemma LaterCutoffKeepsLess(data: Catalog, early: CalendarDate, late: CalendarDate)
    requires AllReadable(data)
    requires NotAfter(early, late)
    ensures Retained(data, late).Keys <= Retained(data, early).Keys
  {
    forall id | id in Retained(data, late) ensures id in Retained(data, early) {
      var d := StampOf(data[id]).value;
      assert NotAfter(late, d);
    }
  }

  /** For a cutoff and a stamp both written as `strftime("%Y-%m-%d")` writes them,
      comparing the texts with Python's `>=` on `str` decides retention exactly as
      comparing the parsed dates does; so an entry stamped on a run day survives
      every cutoff on or before that day. */
  lemma RetainByText(e: Entry, stamp: CalendarDate, cutoff: CalendarDate)
    requires e.lastSeen == Some(FormatDate(stamp))
    ensures Readable(e) && StampOf(e).value == stamp
    ensures NotAfter(cutoff, StampOf(e).value) <==> LexAtMost(FormatDate(cutoff), FormatDate(stamp))
  {
    ParseFormatted(stamp);
    FormattedOrder(cutoff, stamp);
  }
}
