/** The saved-documents page: search, delete, view and download on top of the
    document store, and the history panel of the selected document. */
module MyDocuments {
  import opened Wrappers
  import Seqs
  import JsText
  import Storage

  type PdfDocument = Storage.PdfDocument
  type HistoryEntry = Storage.HistoryEntry

  // ---------------------------------------------------------------- search

  /** The type matches the query when it contains it, ignoring case. */
  predicate Matches(query: string, doc: PdfDocument)
  {
    JsText.Contains(JsText.ToLower(doc.docType), JsText.ToLower(query))
  }

  /** The documents listed for a search query: those whose type contains the
      query, ignoring case, in their stored order. */
  function Search(docs: seq<PdfDocument>, query: string): (r: seq<PdfDocument>)
    ensures |r| <= |docs|
    ensures forall i :: 0 <= i < |r| ==> r[i] in docs && Matches(query, r[i])
    ensures forall i :: 0 <= i < |docs| && Matches(query, docs[i]) ==> docs[i] in r
    ensures Seqs.SubsequenceOf(r, docs)
    ensures forall d :: multiset(r)[d] == if Matches(query, d) then multiset(docs)[d] else 0
  {
    Seqs.Filter(docs, (d: PdfDocument) => Matches(query, d))
  }

  /** An empty query lists every document, in order. */
  lemma EmptySearchKeepsAll(docs: seq<PdfDocument>)
    ensures Search(docs, "") == docs
  {
    forall i | 0 <= i < |docs| ensures Matches("", docs[i]) {
      JsText.ContainsEmpty(JsText.ToLower(docs[i].docType));
    }
    Seqs.FilterKeepsAll(docs, (d: PdfDocument) => Matches("", d));
  }

  /** Searching for a type's own text, in any case, finds that document. */
  lemma SearchFindsOwnType(docs: seq<PdfDocument>, i: nat, query: string)
    requires i < |docs| && JsText.ToLower(query) == JsText.ToLower(docs[i].docType)
    ensures docs[i] in Search(docs, query)
  {
    var t := JsText.ToLower(docs[i].docType);
    JsText.ContainsAt(t, 0, t);
  }

  // ---------------------------------------------------------------- action labels

  /** The action name stored in a history entry. */
  function ActionName(a: Storage.Action): string
  {
    match a
    case Created => "created"
    case Viewed => "viewed"
    case Downloaded => "downloaded"
    case Updated => "updated"
    case Deleted => "deleted"
  }

  /** `getActionLabel`: the five known actions get their Kazakh label, any other
      name is shown as it is. */
  function GetActionLabel(action: string): (r: string)
    ensures action == "created" ==> r == "Жасалды"
    ensures action == "viewed" ==> r == "Қаралды"
    ensures action == "downloaded" ==> r == "Жүктелді"
    ensures action == "updated" ==> r == "Жаңартылды"
    ensures action == "deleted" ==> r == "Жойылды"
    ensures action !in {"created", "viewed", "downloaded", "updated", "deleted"} ==> r == action
  {
    if action == "created" then "Жасалды"
    else if action == "viewed" then "Қаралды"
    else if action == "downloaded" then "Жүктелді"
    else if action == "updated" then "Жаңартылды"
    else if action == "deleted" then "Жойылды"
    else action
  }

  /** Every stored action is translated, and no two actions share a label, so
      the history panel tells them apart. */
  lemma StoredActionsLabelled(a: Storage.Action, b: Storage.Action)
    ensures GetActionLabel(ActionName(a)) != ActionName(a)
    ensures a != b ==> GetActionLabel(ActionName(a)) != GetActionLabel(ActionName(b))
  {
  }

  // ---------------------------------------------------------------- page actions

  /** The page: the listed documents and the selected one. */
  datatype Page = Page(documents: seq<PdfDocument>, selected: Option<PdfDocument>)

  /** The store and the page after an action. */
  datatype Step = Step(store: Storage.Store, page: Page)

  /** `handleDelete`: after confirmation the document is deleted, the list is
      re-read from the store, and the selection is cleared exactly when it was
      the deleted document. */
  function HandleDelete(s: Storage.Store, p: Page, id: string, confirmed: bool): (r: Step)
    ensures !confirmed ==> r == Step(s, p)
    ensures confirmed ==> r.store == Storage.DeletePdf(s, id) && r.page.documents == Storage.GetPdfs(r.store)
    ensures confirmed ==> (r.page.selected.None? <==> p.selected.None? || p.selected.value.id == id)
    ensures confirmed && r.page.selected.Some? ==> r.page.selected == p.selected
  {
    if !confirmed then Step(s, p)
    else
      var s' := Storage.DeletePdf(s, id);
      var sel := if p.selected.Some? && p.selected.value.id == id then None else p.selected;
      Step(s', Page(Storage.GetPdfs(s'), sel))
  }

  /** After a confirmed delete the document is neither listed nor selected. */
  lemma DeletedIsGone(s: Storage.Store, p: Page, id: string)
    ensures var r := HandleDelete(s, p, id, true);
      (forall j :: 0 <= j < |r.page.documents| ==> r.page.documents[j].id != id) &&
      (r.page.selected.Some? ==> r.page.selected.value.id != id)
  {
  }

  /** `handleView`: the document becomes the selection as it was passed in, one
      `viewed` entry is added to its stored history, and the list is re-read. */
  function HandleView(s: Storage.Store, p: Page, doc: PdfDocument, clock: Storage.Clock): (r: Step)
    ensures r.store == Storage.AddHistory(s, doc.id, Storage.Viewed, None, clock)
    ensures r.page.documents == Storage.GetPdfs(r.store)
    ensures r.page.selected == Some(doc)
  {
    var s' := Storage.AddHistory(s, doc.id, Storage.Viewed, None, clock);
    Step(s', Page(Storage.GetPdfs(s'), Some(doc)))
  }

  /** Viewing a stored document lengthens its listed history by exactly one
      `viewed` entry at the end. */
  lemma ViewAddsOneEntry(s: Storage.Store, p: Page, doc: PdfDocument, clock: Storage.Clock)
    requires Storage.IndexOfId(Storage.GetPdfs(s), doc.id) >= 0
    ensures var k := Storage.IndexOfId(Storage.GetPdfs(s), doc.id);
      var after := HandleView(s, p, doc, clock).page.documents;
      k < |after| &&
      Storage.HistoryOf(after[k]) == Storage.HistoryOf(Storage.GetPdfs(s)[k]) + [Storage.HistoryEntry(clock.nowId, Storage.Viewed, clock.nowIso, None)]
  {
  }

  /** `handleDownload` once the file has been fetched (`fetched`): one
      `downloaded` entry is added, the list re-read, and a selected copy of the
      document replaced by its stored version (or cleared if it is gone).
      Without a blob URL, or when the fetch fails, nothing changes. */
  function HandleDownload(s: Storage.Store, p: Page, doc: PdfDocument, fetched: bool, clock: Storage.Clock): (r: Step)
    ensures !(doc.blobUrl.Some? && doc.blobUrl.value != "" && fetched) ==> r == Step(s, p)
    ensures doc.blobUrl.Some? && doc.blobUrl.value != "" && fetched ==>
      r.store == Storage.AddHistory(s, doc.id, Storage.Downloaded, None, clock) &&
      r.page.documents == Storage.GetPdfs(r.store)
    ensures doc.blobUrl.Some? && doc.blobUrl.value != "" && fetched && p.selected.Some? && p.selected.value.id == doc.id ==>
      r.page.selected == Seqs.Find(r.page.documents, (d: PdfDocument) => d.id == doc.id)
    ensures !(p.selected.Some? && p.selected.value.id == doc.id) ==> r.page.selected == p.selected
  {
    if doc.blobUrl.Some? && doc.blobUrl.value != "" && fetched then
      var s' := Storage.AddHistory(s, doc.id, Storage.Downloaded, None, clock);
      var docs := Storage.GetPdfs(s');
      var sel := if p.selected.Some? && p.selected.value.id == doc.id
        then Seqs.Find(docs, (d: PdfDocument) => d.id == doc.id)
        else p.selected;
      Step(s', Page(docs, sel))
    else Step(s, p)
  }

  // ---------------------------------------------------------------- history panel

  /** Newest first by the timestamp's time value (`time`). */
  predicate NewestFirst(h: seq<HistoryEntry>, time: string -> int)
  {
    forall i, j :: 0 <= i < j < |h| ==> time(h[i].timestamp) >= time(h[j].timestamp)
  }

  /** Puts one entry in front of the first entry that is not newer. */
  function Insert(e: HistoryEntry, h: seq<HistoryEntry>, time: string -> int): (r: seq<HistoryEntry>)
    ensures multiset(r) == multiset(h) + multiset{e}
    decreases |h|
  {
    if |h| == 0 || time(h[0].timestamp) <= time(e.timestamp) then [e] + h
    else
      assert h == [h[0]] + h[1..];
      [h[0]] + Insert(e, h[1..], time)
  }

  /** No entry is newer than `t`. */
  predicate NoneNewer(h: seq<HistoryEntry>, time: string -> int, t: int)
  {
    forall i :: 0 <= i < |h| ==> time(h[i].timestamp) <= t
  }

  /** An entry no newer than a bound, inserted among entries no newer than
      the bound, leaves every entry no newer than the bound. */
  lemma {:induction false} InsertBelow(e: HistoryEntry, h: seq<HistoryEntry>, time: string -> int, t: int)
    requires time(e.timestamp) <= t && NoneNewer(h, time, t)
    ensures NoneNewer(Insert(e, h, time), time, t)
    decreases |h|
  {
    var r := Insert(e, h, time);
    if |h| > 0 && time(h[0].timestamp) > time(e.timestamp) {
      var rest := Insert(e, h[1..], time);
      InsertBelow(e, h[1..], time, t);
      assert r == [h[0]] + rest;
      forall k | 0 <= k < |r| ensures time(r[k].timestamp) <= t {
        if k > 0 { assert r[k] == rest[k - 1]; }
      }
    } else {
      assert r == [e] + h;
      forall k | 0 <= k < |r| ensures time(r[k].timestamp) <= t {
        if k > 0 { assert r[k] == h[k - 1]; }
      }
    }
  }

  /** Inserting into an ordered history keeps it ordered. */
  lemma {:induction false} InsertKeepsOrder(e: HistoryEntry, h: seq<HistoryEntry>, time: string -> int)
    requires NewestFirst(h, time)
    ensures NewestFirst(Insert(e, h, time), time)
    decreases |h|
  {
    if |h| > 0 && time(h[0].timestamp) > time(e.timestamp) {
      var rest := Insert(e, h[1..], time);
      var top := time(h[0].timestamp);
      InsertKeepsOrder(e, h[1..], time);
      assert NoneNewer(h[1..], time, top) by {
        forall i | 0 <= i < |h[1..]| ensures time(h[1..][i].timestamp) <= top {
          assert h[1..][i] == h[i + 1];
        }
      }
      InsertBelow(e, h[1..], time, top);
      var r := [h[0]] + rest;
      assert Insert(e, h, time) == r;
      forall i, j | 0 <= i < j < |r| ensures time(r[i].timestamp) >= time(r[j].timestamp) {
        assert r[j] == rest[j - 1];
        if i > 0 {
          assert r[i] == rest[i - 1];
        }
      }
    }
  }

  /** The history as the panel lists it: every entry once, newest first. */
  function SortNewestFirst(h: seq<HistoryEntry>, time: string -> int): (r: seq<HistoryEntry>)
    ensures NewestFirst(r, time)
    ensures multiset(r) == multiset(h)
    decreases |h|
  {
    if |h| == 0 then []
    else
      assert h == [h[0]] + h[1..];
      InsertKeepsOrder(h[0], SortNewestFirst(h[1..], time), time);
      Insert(h[0], SortNewestFirst(h[1..], time), time)
  }

  /** Sorting an already ordered history changes nothing, so re-opening the
      panel shows the same list. */
  lemma {:induction false} SortIdempotent(h: seq<HistoryEntry>, time: string -> int)
    requires NewestFirst(h, time)
    ensures SortNewestFirst(h, time) == h
    decreases |h|
  {
    if |h| > 0 {
      SortIdempotent(h[1..], time);
      assert SortNewestFirst(h[1..], time) == h[1..];
      assert h == [h[0]] + h[1..];
    }
  }
}
