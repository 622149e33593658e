/** The browser-storage document store: the list of saved PDFs under
    `ustaz_pdfs`, each with its action history, and the cached user under
    `ustaz_user`. The clock (`Date.now()` and the ISO timestamp) is a parameter. */
module Storage {
  import opened Wrappers
  import Seqs

  datatype Action = Created | Viewed | Downloaded | Deleted | Updated

  /** One history entry; `details` is optional. */
  datatype HistoryEntry = HistoryEntry(id: string, action: Action, timestamp: string, details: Option<string>)

  /** A saved document; `history` may be missing in stored data. */
  datatype PdfDocument = PdfDocument(id: string, docType: string, text: string, createdAt: string,
                                     blobUrl: Option<string>, history: Option<seq<HistoryEntry>>)

  datatype UserRecord = UserRecord(email: string, name: string)

  /** The two storage keys; `None` is an absent (or empty) key. */
  datatype Store = Store(pdfs: Option<seq<PdfDocument>>, user: Option<UserRecord>)

  /** `Date.now().toString()` and `new Date().toISOString()` at the moment of the call. */
  datatype Clock = Clock(nowId: string, nowIso: string)

  /** `getPDFs`: the stored list, or the empty list when nothing is stored. */
  function GetPdfs(s: Store): (r: seq<PdfDocument>)
    ensures s.pdfs.Some? ==> r == s.pdfs.value
    ensures s.pdfs.None? ==> r == []
  {
    s.pdfs.GetOr([])
  }

  /** A document's history, with a missing one read as empty. */
  function HistoryOf(d: PdfDocument): seq<HistoryEntry>
  {
    d.history.GetOr([])
  }

  /** The position of the first document with the given id, or -1. */
  function IndexOfId(pdfs: seq<PdfDocument>, id: string): (k: int)
    ensures -1 <= k < |pdfs|
    ensures 0 <= k ==> pdfs[k].id == id && forall j :: 0 <= j < k ==> pdfs[j].id != id
    ensures k == -1 <==> forall j :: 0 <= j < |pdfs| ==> pdfs[j].id != id
  {
    Seqs.FindIndex(pdfs, (p: PdfDocument) => p.id == id)
  }

  /** `savePDF`: a document with a new id goes to the front with a single
      `created` entry stamped with its own `createdAt`; a document whose id is
      already stored replaces the first such document in place, inheriting its
      history plus an `updated` entry stamped now. The incoming history is
      ignored in both cases. */
  function SavePdf(s: Store, pdf: PdfDocument, clock: Clock): (r: Store)
    ensures r.user == s.user && r.pdfs.Some?
    ensures IndexOfId(GetPdfs(s), pdf.id) < 0 ==>
      GetPdfs(r) == [pdf.(history := Some([HistoryEntry(clock.nowId, Created, pdf.createdAt, None)]))] + GetPdfs(s)
    ensures var k := IndexOfId(GetPdfs(s), pdf.id);
      0 <= k ==>
        && |GetPdfs(r)| == |GetPdfs(s)|
        && GetPdfs(r)[k] == pdf.(history := Some(HistoryOf(GetPdfs(s)[k]) + [HistoryEntry(clock.nowId, Updated, clock.nowIso, None)]))
        && forall j :: 0 <= j < |GetPdfs(s)| && j != k ==> GetPdfs(r)[j] == GetPdfs(s)[j]
  {
    var pdfs := GetPdfs(s);
    var k := IndexOfId(pdfs, pdf.id);
    if k >= 0 then
      var entry := HistoryEntry(clock.nowId, Updated, clock.nowIso, None);
      s.(pdfs := Some(pdfs[k := pdf.(history := Some(HistoryOf(pdfs[k]) + [entry]))]))
    else
      var entry := HistoryEntry(clock.nowId, Created, pdf.createdAt, None);
      s.(pdfs := Some([pdf.(history := Some([entry]))] + pdfs))
  }

  /** `addHistory`: append an entry, stamped now, to the first document with the
      id; when no document has it nothing is written. */
  function AddHistory(s: Store, pdfId: string, action: Action, details: Option<string>, clock: Clock): (r: Store)
    ensures r.user == s.user
    ensures IndexOfId(GetPdfs(s), pdfId) < 0 ==> r == s
    ensures var k := IndexOfId(GetPdfs(s), pdfId);
      0 <= k ==>
        && |GetPdfs(r)| == |GetPdfs(s)|
        && GetPdfs(r)[k] == GetPdfs(s)[k].(history := Some(HistoryOf(GetPdfs(s)[k]) + [HistoryEntry(clock.nowId, action, clock.nowIso, details)]))
        && forall j :: 0 <= j < |GetPdfs(s)| && j != k ==> GetPdfs(r)[j] == GetPdfs(s)[j]
  {
    var pdfs := GetPdfs(s);
    var k := IndexOfId(pdfs, pdfId);
    if k < 0 then s
    else
      var entry := HistoryEntry(clock.nowId, action, clock.nowIso, details);
      s.(pdfs := Some(pdfs[k := pdfs[k].(history := Some(HistoryOf(pdfs[k]) + [entry]))]))
  }

  /** `deletePDF`: every document with the id is dropped, the rest keep their order. */
  function DeletePdf(s: Store, id: string): (r: Store)
    ensures r.user == s.user && r.pdfs.Some?
    ensures forall j :: 0 <= j < |GetPdfs(r)| ==> GetPdfs(r)[j].id != id && GetPdfs(r)[j] in GetPdfs(s)
    ensures forall j :: 0 <= j < |GetPdfs(s)| && GetPdfs(s)[j].id != id ==> GetPdfs(s)[j] in GetPdfs(r)
    ensures Seqs.SubsequenceOf(GetPdfs(r), GetPdfs(s))
    ensures forall d :: multiset(GetPdfs(r))[d] == if d.id != id then multiset(GetPdfs(s))[d] else 0
  {
    s.(pdfs := Some(Seqs.Filter(GetPdfs(s), (p: PdfDocument) => p.id != id)))
  }

  function GetUser(s: Store): Option<UserRecord>
  {
    s.user
  }

  function SaveUser(s: Store, u: UserRecord): (r: Store)
    ensures r.pdfs == s.pdfs
    ensures GetUser(r) == Some(u)
  {
    s.(user := Some(u))
  }

  function ClearUser(s: Store): (r: Store)
    ensures r.pdfs == s.pdfs
    ensures GetUser(r) == None
  {
    s.(user := None)
  }

  /** After saving, the document is the first one found under its id, with the
      saved content, and its history is the previous history extended by exactly
      one entry (`created` for a new id, `updated` otherwise). */
  lemma SaveThenFind(s: Store, pdf: PdfDocument, clock: Clock)
    ensures var before := IndexOfId(GetPdfs(s), pdf.id);
      var after := IndexOfId(GetPdfs(SavePdf(s, pdf, clock)), pdf.id);
      && after == (if before < 0 then 0 else before)
      && GetPdfs(SavePdf(s, pdf, clock))[after].text == pdf.text
      && GetPdfs(SavePdf(s, pdf, clock))[after].docType == pdf.docType
      && var h := HistoryOf(GetPdfs(SavePdf(s, pdf, clock))[after]);
         && |h| >= 1
         && h[..|h| - 1] == (if before < 0 then [] else HistoryOf(GetPdfs(s)[before]))
         && h[|h| - 1].action == (if before < 0 then Created else Updated)
  {
    var r := SavePdf(s, pdf, clock);
    var before := IndexOfId(GetPdfs(s), pdf.id);
    var after := IndexOfId(GetPdfs(r), pdf.id);
    if before < 0 {
      assert GetPdfs(r)[0].id == pdf.id;
    } else {
      assert GetPdfs(r)[before].id == pdf.id;
      assert forall j :: 0 <= j < before ==> GetPdfs(r)[j].id != pdf.id;
    }
  }

  /** Saving a document under a new id and then deleting that id gives back the
      previous list. */
  lemma {:induction false} DeleteUndoesNewSave(s: Store, pdf: PdfDocument, clock: Clock)
    requires IndexOfId(GetPdfs(s), pdf.id) < 0
    ensures GetPdfs(DeletePdf(SavePdf(s, pdf, clock), pdf.id)) == GetPdfs(s)
  {
    var p := (d: PdfDocument) => d.id != pdf.id;
    var saved := GetPdfs(SavePdf(s, pdf, clock));
    assert saved == [saved[0]] + GetPdfs(s);
    Seqs.FilterConcat([saved[0]], GetPdfs(s), p);
    Seqs.FilterKeepsAll(GetPdfs(s), p);
  }

  /** History entries are only ever appended: neither saving nor recording an
      action removes or rewrites an earlier entry of any document. */
  lemma HistoryOnlyGrows(s: Store, pdf: PdfDocument, id: string, action: Action, details: Option<string>, clock: Clock, j: nat)
    requires j < |GetPdfs(s)|
    ensures var saved := GetPdfs(SavePdf(s, pdf, clock));
      var shift := if IndexOfId(GetPdfs(s), pdf.id) < 0 then 1 else 0;
      j + shift < |saved| && HistoryOf(GetPdfs(s)[j]) <= HistoryOf(saved[j + shift])
    ensures var added := GetPdfs(AddHistory(s, id, action, details, clock));
      j < |added| && HistoryOf(GetPdfs(s)[j]) <= HistoryOf(added[j])
  {
  }
}
