/** The application shell: the active tab, the history panel and the saved-measurement list
    with its ten-record limit (App.tsx). */
module App {
  import opened Types

  /** The most records the history holds. */
  const Capacity: nat := 10

  datatype Tab = SatelliteTab | PhotoTab

  /** A saved record: the workspace's draft plus the fresh id and the time stamp it is given. */
  function Stamp(d: MeasurementDraft, id: string, timestamp: int): (r: SavedMeasurement)
    ensures r.id == id && r.timestamp == timestamp && r.kind == d.kind
  {
    SavedMeasurement(id, d.name, timestamp, d.kind, d.area, d.perimeter, d.unit,
                     d.thumbnail, d.geoPoints, d.shapeMode)
  }

  /** A record with its id and time stamp dropped. */
  function DraftOf(r: SavedMeasurement): (d: MeasurementDraft)
    ensures Stamp(d, r.id, r.timestamp) == r
  {
    MeasurementDraft(r.name, r.kind, r.area, r.perimeter, r.unit, r.thumbnail, r.geoPoints, r.shapeMode)
  }

  /** Stamping keeps everything the workspace saved. */
  lemma DraftOfStamp(d: MeasurementDraft, id: string, timestamp: int)
    ensures DraftOf(Stamp(d, id, timestamp)) == d
  {
  }

  /** The list after a save: the new record in front of the others, or the list unchanged once it is full. */
  function AfterSave(saved: seq<SavedMeasurement>, r: SavedMeasurement): (next: seq<SavedMeasurement>)
    ensures |saved| >= Capacity ==> next == saved
    ensures |saved| < Capacity ==> |next| == |saved| + 1 && next[0] == r && next[1..] == saved
    ensures |saved| <= Capacity ==> |next| <= Capacity
  {
    if |saved| >= Capacity then saved else [r] + saved
  }

  /** `filter(m => m.id !== id)`: every record whose id differs, in their original order. */
  function WithoutId(saved: seq<SavedMeasurement>, id: string): (r: seq<SavedMeasurement>)
    ensures |r| <= |saved|
    ensures forall k :: 0 <= k < |r| ==> r[k].id != id
    ensures forall x :: x in r <==> x in saved && x.id != id
  {
    if |saved| == 0 then []
    else if saved[0].id == id then WithoutId(saved[1..], id)
    else [saved[0]] + WithoutId(saved[1..], id)
  }

  /** Filtering distributes over concatenation, so the kept records stay in their original order. */
  lemma {:induction false} WithoutIdKeepsOrder(s1: seq<SavedMeasurement>, s2: seq<SavedMeasurement>, id: string)
    ensures WithoutId(s1 + s2, id) == WithoutId(s1, id) + WithoutId(s2, id)
  {
    if |s1| > 0 {
      assert (s1 + s2)[0] == s1[0];
      assert (s1 + s2)[1..] == s1[1..] + s2;
      WithoutIdKeepsOrder(s1[1..], s2, id);
    } else {
      assert s1 + s2 == s2;
    }
  }

  /** Deleting an id no record carries leaves the list as it was. */
  lemma {:induction false} WithoutIdUnknown(saved: seq<SavedMeasurement>, id: string)
    requires forall k :: 0 <= k < |saved| ==> saved[k].id != id
    ensures WithoutId(saved, id) == saved
  {
    if |saved| > 0 {
      WithoutIdUnknown(saved[1..], id);
      assert [saved[0]] + saved[1..] == saved;
    }
  }

  /** Deleting is idempotent. */
  lemma WithoutIdIdempotent(saved: seq<SavedMeasurement>, id: string)
    ensures WithoutId(WithoutId(saved, id), id) == WithoutId(saved, id)
  {
    WithoutIdUnknown(WithoutId(saved, id), id);
  }

  /** Saving a record under a fresh id and then deleting that id gives back the list before the save. */
  lemma SaveThenDelete(saved: seq<SavedMeasurement>, d: MeasurementDraft, id: string, timestamp: int)
    requires forall k :: 0 <= k < |saved| ==> saved[k].id != id
    ensures WithoutId(AfterSave(saved, Stamp(d, id, timestamp)), id) == saved
  {
    WithoutIdUnknown(saved, id);
    if |saved| < Capacity {
      var r := Stamp(d, id, timestamp);
      assert [r] + saved == AfterSave(saved, r);
      assert ([r] + saved)[1..] == saved;
    }
  }

  /** One user action on the history. */
  datatype HistoryEdit =
    | SaveEdit(draft: MeasurementDraft, id: string, timestamp: int)
    | DeleteEdit(id: string, confirmed: bool)

  /** The list after a run of saves and deletes, in order. */
  function Replay(saved: seq<SavedMeasurement>, edits: seq<HistoryEdit>): seq<SavedMeasurement>
    decreases |edits|
  {
    if |edits| == 0 then saved
    else
      var next := match edits[0]
        case SaveEdit(d, id, ts) => AfterSave(saved, Stamp(d, id, ts))
        case DeleteEdit(id, confirmed) => if confirmed then WithoutId(saved, id) else saved;
      Replay(next, edits[1..])
  }

  /** No run of saves and deletes takes a history of at most ten records past ten. */
  lemma {:induction false} ReplayBounded(saved: seq<SavedMeasurement>, edits: seq<HistoryEdit>)
    requires |saved| <= Capacity
    ensures |Replay(saved, edits)| <= Capacity
    decreases |edits|
  {
    if |edits| > 0 {
      var next := match edits[0]
        case SaveEdit(d, id, ts) => AfterSave(saved, Stamp(d, id, ts))
        case DeleteEdit(id, confirmed) => if confirmed then WithoutId(saved, id) else saved;
      ReplayBounded(next, edits[1..]);
    }
  }

  /** The application state: which workspace is shown, whether the history is open, the saved
      records (newest first) and the record handed to the satellite workspace to load. */
  class AppState {
    var activeTab: Tab
    var isHistoryOpen: bool
    var saved: seq<SavedMeasurement>
    var toLoad: Option<SavedMeasurement>

    /** The history is never longer than the limit. */
    ghost predicate Valid()
      reads this
    {
      |saved| <= Capacity
    }

    /** Starts on the satellite tab with the history closed and the stored list read back
        (an empty list when nothing was stored). */
    constructor (stored: seq<SavedMeasurement>)
      ensures activeTab == SatelliteTab && !isHistoryOpen && toLoad == None
      ensures saved == stored
    {
      activeTab := SatelliteTab;
      isHistoryOpen := false;
      saved := stored;
      toLoad := None;
    }

    /** handleSaveMeasurement: with ten or more records the save is refused and the history
        opened; otherwise the stamped record goes in front of the others. */
    method SaveMeasurement(d: MeasurementDraft, id: string, timestamp: int)
      modifies this`saved, this`isHistoryOpen
      ensures saved == AfterSave(old(saved), Stamp(d, id, timestamp))
      ensures isHistoryOpen == (old(isHistoryOpen) || |old(saved)| >= Capacity)
      ensures old(Valid()) ==> Valid()
    {
      if |saved| >= Capacity {
        isHistoryOpen := true;
        return;
      }
      var r := Stamp(d, id, timestamp);
      saved := [r] + saved;
    }

    /** handleDeleteMeasurement: once confirmed, every record with the id goes; otherwise nothing changes. */
    method DeleteMeasurement(id: string, confirmed: bool)
      modifies this`saved
      ensures saved == if confirmed then WithoutId(old(saved), id) else old(saved)
      ensures old(Valid()) ==> Valid()
    {
      if confirmed {
        saved := WithoutId(saved, id);
      }
    }

    /** handleLoadMeasurement: a satellite record selects the satellite tab and is handed over;
        a photo record changes neither. */
    method LoadMeasurement(r: SavedMeasurement)
      modifies this`activeTab, this`toLoad
      ensures r.kind == Satellite ==> activeTab == SatelliteTab && toLoad == Some(r)
      ensures r.kind == Photo ==> activeTab == old(activeTab) && toLoad == old(toLoad)
    {
      if r.kind == Satellite {
        activeTab := SatelliteTab;
        toLoad := Some(r);
      }
    }
  }
}
