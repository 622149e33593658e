/** The weekly timetable page: entries kept in browser storage under `schedule`,
    the add/edit form's save with its conflict check, deletion, the grid's cell
    lookup and the id-to-name display of subjects and classes. */
module Schedule {
  import opened Wrappers
  import Seqs
  import JsText
  import Catalog

  /** The six school days shown as grid columns. */
  const Days: seq<string> := ["Дүйсенбі", "Сейсенбі", "Сәрсенбі", "Бейсенбі", "Жұма", "Сенбі"]
  /** The eight lesson periods shown as grid rows. */
  const Periods: seq<int> := [1, 2, 3, 4, 5, 6, 7, 8]

  /** One lesson; an absent `id` is the empty string. */
  datatype ScheduleItem = ScheduleItem(id: string, day: string, period: int, subject: string, cls: string, room: string)

  /** Two entries occupy the same slot: same day, period and class. */
  predicate SameSlot(a: ScheduleItem, b: ScheduleItem)
  {
    a.day == b.day && a.period == b.period && a.cls == b.cls
  }

  /** The timetable invariant: no two entries share a slot. */
  predicate UniqueSlots(s: seq<ScheduleItem>)
  {
    forall i, j :: 0 <= i < j < |s| ==> !SameSlot(s[i], s[j])
  }

  /** The entry `handleSave` stores: the edited item with its own id, or a fresh
      `Date.now()` id when it has none. */
  function NewItem(editing: ScheduleItem, now: nat): (r: ScheduleItem)
    ensures r.id != ""
    ensures editing.id != "" ==> r == editing
    ensures editing.id == "" ==> r == editing.(id := JsText.NatToString(now))
  {
    editing.(id := if editing.id != "" then editing.id else JsText.NatToString(now))
  }

  /** `!(s.id === editingItem.id && s.id)`: an entry survives the pre-save
      filter unless it carries the edited item's (non-empty) id. */
  predicate Survives(editing: ScheduleItem, s: ScheduleItem)
  {
    !(s.id == editing.id && s.id != "")
  }

  function Surviving(schedule: seq<ScheduleItem>, editing: ScheduleItem): seq<ScheduleItem>
  {
    Seqs.Filter(schedule, (s: ScheduleItem) => Survives(editing, s))
  }

  /** An entry that blocks the save: it survives the filter, occupies the new
      item's slot and has a different id. */
  predicate Clashes(s: ScheduleItem, editing: ScheduleItem, now: nat)
  {
    Survives(editing, s) && SameSlot(s, NewItem(editing, now)) && s.id != NewItem(editing, now).id
  }

  /** What submitting the form does: nothing without an item being edited, a
      fixed alert with the schedule unchanged (`clash` is the entry that
      caused it), or the new schedule. */
  datatype SaveOutcome = NoEdit | Rejected(clash: ScheduleItem) | Saved(items: seq<ScheduleItem>)

  /** `handleSave`. */
  function HandleSave(schedule: seq<ScheduleItem>, editing: Option<ScheduleItem>, now: nat): (r: SaveOutcome)
    ensures editing.None? <==> r.NoEdit?
    ensures r.Rejected? <==>
      editing.Some? && exists j :: 0 <= j < |schedule| && Clashes(schedule[j], editing.value, now)
    ensures r.Rejected? ==> r.clash in schedule && Clashes(r.clash, editing.value, now)
    ensures r.Saved? ==>
      && |r.items| >= 1
      && r.items[|r.items| - 1] == NewItem(editing.value, now)
      && r.items[..|r.items| - 1] == Surviving(schedule, editing.value)
  {
    match editing
    case None => NoEdit
    case Some(e) =>
      var item := NewItem(e, now);
      var filtered := Surviving(schedule, e);
      var conflict := Seqs.Find(filtered, (s: ScheduleItem) => SameSlot(s, item) && s.id != item.id);
      if conflict.Some? then
        Rejected(conflict.value)
      else
        assert forall j :: 0 <= j < |schedule| ==> !Clashes(schedule[j], e, now) by {
          forall j | 0 <= j < |schedule| && Clashes(schedule[j], e, now)
            ensures false
          {
            assert schedule[j] in filtered;
          }
        }
        var r := filtered + [item];
        assert r[..|r| - 1] == filtered;
        Saved(r)
  }

  /** The pre-save filter removes the edited entry (every entry with its id)
      and nothing else; for a new item (no id) it removes nothing. */
  lemma SurvivingKeepsOthers(schedule: seq<ScheduleItem>, editing: ScheduleItem)
    ensures editing.id == "" ==> Surviving(schedule, editing) == schedule
    ensures forall j :: 0 <= j < |Surviving(schedule, editing)| ==>
      Surviving(schedule, editing)[j].id != editing.id || editing.id == ""
    ensures forall j :: 0 <= j < |schedule| && schedule[j].id != editing.id ==>
      schedule[j] in Surviving(schedule, editing)
  {
    if editing.id == "" {
      Seqs.FilterKeepsAll(schedule, (s: ScheduleItem) => Survives(editing, s));
    }
  }

  /** Filtering keeps the slots unique. */
  lemma {:induction false} FilterKeepsUnique(s: seq<ScheduleItem>, p: ScheduleItem -> bool)
    requires UniqueSlots(s)
    ensures UniqueSlots(Seqs.Filter(s, p))
    decreases |s|
  {
    if |s| > 0 {
      TailUnique(s);
      FilterKeepsUnique(s[1..], p);
      var rest := Seqs.Filter(s[1..], p);
      HeadApartFromFiltered(s, p);
      if p(s[0]) {
        ConsUnique(s[0], rest);
        assert Seqs.Filter(s, p) == [s[0]] + rest;
      } else {
        assert Seqs.Filter(s, p) == rest;
      }
    }
  }

  /** The entries after the first keep one entry per slot. */
  lemma TailUnique(s: seq<ScheduleItem>)
    requires UniqueSlots(s) && |s| > 0
    ensures UniqueSlots(s[1..])
  {
    forall i, j | 0 <= i < j < |s[1..]| ensures !SameSlot(s[1..][i], s[1..][j]) {
      assert s[1..][i] == s[i + 1] && s[1..][j] == s[j + 1];
    }
  }

  /** No later entry that survives a filter shares the first entry's slot. */
  lemma HeadApartFromFiltered(s: seq<ScheduleItem>, p: ScheduleItem -> bool)
    requires UniqueSlots(s) && |s| > 0
    ensures var rest := Seqs.Filter(s[1..], p); forall k :: 0 <= k < |rest| ==> !SameSlot(s[0], rest[k])
  {
    var rest := Seqs.Filter(s[1..], p);
    forall k | 0 <= k < |rest| ensures !SameSlot(s[0], rest[k]) {
      var m :| 0 <= m < |s[1..]| && s[1..][m] == rest[k];
      assert s[m + 1] == rest[k];
    }
  }

  /** An entry in front of entries in other slots keeps one entry per slot. */
  lemma ConsUnique(x: ScheduleItem, rest: seq<ScheduleItem>)
    requires UniqueSlots(rest)
    requires forall k :: 0 <= k < |rest| ==> !SameSlot(x, rest[k])
    ensures UniqueSlots([x] + rest)
  {
    var r := [x] + rest;
    forall i, j | 0 <= i < j < |r| ensures !SameSlot(r[i], r[j]) {
      assert r[j] == rest[j - 1];
      if i > 0 { assert r[i] == rest[i - 1]; }
    }
  }

  /** A successful save keeps the one-entry-per-slot invariant, provided the
      fresh id of a new item is not already in use. */
  lemma SaveKeepsUniqueSlots(schedule: seq<ScheduleItem>, editing: ScheduleItem, now: nat)
    requires UniqueSlots(schedule)
    requires editing.id == "" ==> forall j :: 0 <= j < |schedule| ==> schedule[j].id != JsText.NatToString(now)
    requires HandleSave(schedule, Some(editing), now).Saved?
    ensures UniqueSlots(HandleSave(schedule, Some(editing), now).items)
  {
    var item := NewItem(editing, now);
    var filtered := Surviving(schedule, editing);
    var r := HandleSave(schedule, Some(editing), now).items;
    FilterKeepsUnique(schedule, (s: ScheduleItem) => Survives(editing, s));
    assert r == filtered + [item];
    forall k | 0 <= k < |filtered| ensures !SameSlot(filtered[k], item) {
      var m :| 0 <= m < |schedule| && schedule[m] == filtered[k];
      assert !Clashes(schedule[m], editing, now);
      assert Survives(editing, filtered[k]);
    }
  }

  /** `handleDelete`: once confirmed, every entry in the deleted entry's slot is
      removed and the others keep their order; unconfirmed, nothing changes. */
  function HandleDelete(schedule: seq<ScheduleItem>, item: ScheduleItem, confirmed: bool): (r: seq<ScheduleItem>)
    ensures !confirmed ==> r == schedule
    ensures confirmed ==> forall j :: 0 <= j < |r| ==> !SameSlot(r[j], item) && r[j] in schedule
    ensures confirmed ==> forall j :: 0 <= j < |schedule| && !SameSlot(schedule[j], item) ==> schedule[j] in r
    ensures Seqs.SubsequenceOf(r, schedule)
    ensures confirmed ==> forall x :: multiset(r)[x] == if SameSlot(x, item) then 0 else multiset(schedule)[x]
  {
    if confirmed then Seqs.Filter(schedule, (s: ScheduleItem) => !SameSlot(s, item))
    else Seqs.SubsequenceOfSelf(schedule); schedule
  }

  /** Deleting an entry that was just saved as a new item (no id) gives back
      the previous schedule, when the slot was free before. */
  lemma {:induction false} DeleteUndoesSave(schedule: seq<ScheduleItem>, editing: ScheduleItem, now: nat)
    requires editing.id == ""
    requires forall j :: 0 <= j < |schedule| ==> !SameSlot(schedule[j], editing)
    ensures HandleSave(schedule, Some(editing), now).Saved?
    ensures HandleDelete(HandleSave(schedule, Some(editing), now).items, editing, true) == schedule
  {
    var p := (s: ScheduleItem) => !SameSlot(s, editing);
    SurvivingKeepsOthers(schedule, editing);
    var r := HandleSave(schedule, Some(editing), now);
    assert r.Saved? by {
      forall j | 0 <= j < |schedule| ensures !Clashes(schedule[j], editing, now) {
      }
    }
    assert r.items == schedule + [NewItem(editing, now)];
    Seqs.FilterConcat(schedule, [NewItem(editing, now)], p);
    Seqs.FilterKeepsAll(schedule, p);
    assert Seqs.Filter([NewItem(editing, now)], p) == [];
  }

  /** `getScheduleForCell`: the first entry on that day and period, whatever its
      class. */
  function CellLookup(schedule: seq<ScheduleItem>, day: string, period: int): (r: Option<ScheduleItem>)
    ensures r.None? <==> forall j :: 0 <= j < |schedule| ==> !(schedule[j].day == day && schedule[j].period == period)
    ensures r.Some? ==> r.value.day == day && r.value.period == period
    ensures r.Some? ==>
      exists k :: 0 <= k < |schedule| && schedule[k] == r.value &&
        forall j :: 0 <= j < k ==> !(schedule[j].day == day && schedule[j].period == period)
  {
    var k := Seqs.FindIndex(schedule, (s: ScheduleItem) => s.day == day && s.period == period);
    if k < 0 then None else Some(schedule[k])
  }

  /** Because the lookup ignores the class, two classes' lessons in the same
      day and period are both kept (they are different slots) but the grid
      cell shows only the earlier one. */
  lemma CellShowsOneClassOnly(a: ScheduleItem, b: ScheduleItem)
    requires a.day == b.day && a.period == b.period && a.cls != b.cls
    ensures UniqueSlots([a, b])
    ensures CellLookup([a, b], a.day, a.period) == Some(a)
  {
  }

  /** `getSubjectName` / `getClassName`: `nameKz || name` of the item with that
      id, or the id itself when no item has it. */
  function DisplayName(items: seq<Catalog.NamedItem>, id: string): (r: string)
    ensures (forall j :: 0 <= j < |items| ==> items[j].id != id) ==> r == id
    ensures (exists j :: 0 <= j < |items| && items[j].id == id) ==>
      exists k :: 0 <= k < |items| && items[k].id == id &&
        r == (if items[k].nameKz != "" then items[k].nameKz else items[k].name) &&
        forall j :: 0 <= j < k ==> items[j].id != id
  {
    match Catalog.FindById(items, id)
    case Some(x) => if x.nameKz != "" then x.nameKz else x.name
    case None => id
  }

  /** What `localStorage.getItem('schedule')` holds, as `JSON.parse` reads it:
      nothing, text that is not JSON, a JSON array of entries, a JSON string,
      or another JSON value with its `length` field when that is a number
      (`null`, numbers, booleans and most objects have none). */
  datatype Stored = Absent | Malformed | ListValue(entries: seq<ScheduleItem>) | TextValue(text: string) | OtherJson(length: Option<int>)

  /** What the page's timetable becomes: a list of entries, or a stored value
      that is not a list but passed the `parsed.length > 0` test. */
  datatype Loaded = Entries(items: seq<ScheduleItem>) | NotAList(value: Stored)

  /** `parsed && parsed.length > 0`. */
  predicate Accepted(stored: Stored)
  {
    match stored
    case ListValue(entries) => |entries| > 0
    case TextValue(text) => |text| > 0
    case OtherJson(length) => length.Some? && length.value > 0
    case _ => false
  }

  /** `loadSchedule`: a stored non-empty array replaces the timetable; a
      non-empty JSON string, or a value whose `length` is positive, is taken as
      the timetable as well; anything else leaves the current one. */
  function LoadSchedule(current: seq<ScheduleItem>, stored: Stored): (r: Loaded)
    ensures stored.ListValue? && |stored.entries| > 0 ==> r == Entries(stored.entries)
    ensures stored.TextValue? && stored.text != "" ==> r == NotAList(stored)
    ensures stored.OtherJson? && stored.length.Some? && stored.length.value > 0 ==> r == NotAList(stored)
    ensures stored.Absent? || stored.Malformed? || stored == ListValue([]) || stored == TextValue("") ==> r == Entries(current)
    ensures stored.OtherJson? && (stored.length.None? || stored.length.value <= 0) ==> r == Entries(current)
  {
    if !Accepted(stored) then Entries(current)
    else if stored.ListValue? then Entries(stored.entries)
    else NotAList(stored)
  }

  /** A timetable written by a successful save is never empty, so a reload
      shows exactly it, whatever was on screen before. */
  lemma SavedScheduleReloads(schedule: seq<ScheduleItem>, editing: ScheduleItem, now: nat, current: seq<ScheduleItem>)
    requires HandleSave(schedule, Some(editing), now).Saved?
    ensures var saved := HandleSave(schedule, Some(editing), now).items;
      |saved| > 0 && LoadSchedule(current, ListValue(saved)) == Entries(saved)
  {
  }

  /** `getSubjectName` / `getClassName` agree with the option captions of the
      document builder (`nameKz || name || id`) whenever the found item has a
      name; for an item with neither name they show the empty string where the
      builder falls back to the id. */
  lemma DisplayNameMatchesLabel(items: seq<Catalog.NamedItem>, id: string)
    ensures Catalog.FindById(items, id).None? ==> DisplayName(items, id) == id
    ensures var f := Catalog.FindById(items, id);
      f.Some? && (f.value.nameKz != "" || f.value.name != "") ==> DisplayName(items, id) == Catalog.Label(f.value)
    ensures var f := Catalog.FindById(items, id);
      f.Some? && f.value.nameKz == "" && f.value.name == "" ==> DisplayName(items, id) == ""
  {
  }
}
