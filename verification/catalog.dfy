/** Reference-data items (schools, classes, teachers, subjects, students) as the
    pages receive them from the API: an id and two display names. */
module Catalog {
  import opened Wrappers
  import Seqs

  /** `{ id, name, nameKz? }`; an absent `nameKz` is the empty string, which is
      falsy exactly like `undefined`. */
  datatype NamedItem = NamedItem(id: string, name: string, nameKz: string)

  /** `items.find(x => x.id === id)`. */
  function FindById(items: seq<NamedItem>, id: string): (r: Option<NamedItem>)
    ensures r.Some? ==> r.value in items && r.value.id == id
    ensures r.Some? ==> exists k :: 0 <= k < |items| && items[k] == r.value && forall j :: 0 <= j < k ==> items[j].id != id
    ensures r.None? <==> forall j :: 0 <= j < |items| ==> items[j].id != id
  {
    Seqs.Find(items, (x: NamedItem) => x.id == id)
  }

  /** `item.nameKz || item.name || item.id`: the first non-empty name. */
  function Label(item: NamedItem): (r: string)
    ensures r != "" || item.id == ""
    ensures r in {item.nameKz, item.name, item.id}
    ensures item.nameKz != "" ==> r == item.nameKz
    ensures item.nameKz == "" && item.name != "" ==> r == item.name
    ensures item.nameKz == "" && item.name == "" ==> r == item.id
  {
    if item.nameKz != "" then item.nameKz
    else if item.name != "" then item.name
    else item.id
  }
}
