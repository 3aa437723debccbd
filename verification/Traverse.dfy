/**
 dir/traverse.rs: which tags of a log survive a compaction, and what is
 emitted for them. `Filter` is one call of lfs_dir_traverse_filter; `Emission`
 is the nested traversal written as a recursion.
 */
module Traverse {
  import opened Tags
  import opened MetadataLog

  // One call of the filter: None says that `tag` makes `ft` redundant,
  // otherwise `ft` with its id moved around a splice.
  function Filter(ft: Tag, tag: Tag): Option<Tag>
  {
    if (tag.Key() == ft.Key() && tag.id == ft.id)
       || ft.IsRemoval()
       || (tag.IsDelete() && tag.id == ft.id) then None
    else if tag.type1 == SPLICE && tag.id <= ft.id then Some(ft.Moved(tag.Splice()))
    else Some(ft)
  }

  // The filter pass over everything that follows a tag.
  function Survivor(t: Tag, rest: seq<Item>): (r: Option<Tag>)
    ensures r.Some? ==> r.value == t.(id := r.value.id)
    decreases |rest|
  {
    if rest == [] then Some(t)
    else if Silent(rest[0].tag) then Survivor(t, rest[1..])
    else match Filter(t, rest[0].tag)
      case None => None
      case Some(t') => Survivor(t', rest[1..])
  }

  // `tmask`/`ttag`: every tag and no filtering (append), the tags of entries
  // (compaction), or structures and attributes only (move).
  datatype Select = All | Entries | Movable {
    predicate Matches(t: Tag) {
      match this
      case All => true
      case Entries => t.type1 < SPLICE
      case Movable => t.type1 == STRUCT || t.type1 == USERATTR
    }
  }

  datatype Window = Window(sel: Select, begin: int, end: int, diff: int) {
    predicate Contains(id: int) { sel == All || begin <= id < end }
  }

  function MoveWindow(t: Tag, diff: int): Window {
    Window(Movable, t.size, t.size + 1, t.id - t.size + diff)
  }

  // The tag handed to ProcessTag for the first of `items`: what the filter pass
  // leaves of it, LFS_FROM_NOOP if nothing.
  function Filtered(items: seq<Item>, sel: Select): Tag
    requires items != []
  {
    if sel == All then items[0].tag
    else match Survivor(items[0].tag, items[1..])
      case None => Tag(NAME, 0, 0, 0)
      case Some(t) => t
  }

  // ProcessTag for a tag that came from a log.
  function ProcessRec(t: Tag, data: Bytes, w: Window): seq<Rec>
  {
    if !w.Contains(t.id) || Silent(t) then [] else [Rec(t.Moved(w.diff), data)]
  }

  function EmitLog(log: seq<Rec>, w: Window): seq<Rec>
  {
    if log == [] then []
    else
      var items := Lift(log);
      (if w.sel.Matches(log[0].tag) then ProcessRec(Filtered(items, w.sel), log[0].data, w) else [])
      + EmitLog(log[1..], w)
  }

  // ProcessTag for any item: a move traverses its source log instead.
  function Process(t: Tag, x: Payload, w: Window): seq<Rec>
  {
    if !w.Contains(t.id) || t.IsNoop() then []
    else if IsMove(t) then EmitLog(x.Log(), MoveWindow(t, w.diff))
    else [Rec(t.Moved(w.diff), x.Bytes())]
  }

  // The whole traversal.
  function Emission(items: seq<Item>, w: Window): seq<Rec>
  {
    if items == [] then []
    else
      (if w.sel.Matches(items[0].tag) then Process(Filtered(items, w.sel), items[0].payload, w) else [])
      + Emission(items[1..], w)
  }
}
