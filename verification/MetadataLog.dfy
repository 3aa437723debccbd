/**
 The meaning of a metadata log: a forward replay that builds, entry by entry,
 the slots a directory holds. CREATE opens an empty entry and moves the later
 ones up, DELETE takes one out and moves the later ones down, a slot tag sets
 or clears one slot. This is the reference every fast algorithm over the log
 is compared with.
 */
module MetadataLog {
  import opened Tags

  type Bytes = seq<bv8>

  // one tag on disk with its payload
  datatype Rec = Rec(tag: Tag, data: Bytes)

  // one attribute of a commit: payload in memory, or "everything entry
  // `tag.size` of that log owns" (LFS_FROM_MOVE)
  datatype Payload = Data(bytes: Bytes) | Source(log: seq<Rec>) {
    function Bytes(): Bytes { if Data? then bytes else [] }
    function Log(): seq<Rec> { if Source? then log else [] }
  }
  datatype Item = Item(tag: Tag, payload: Payload)

  datatype Option<+T> = None | Some(value: T)

  datatype Value = Value(chunk: nat, data: Bytes)
  type Entry = map<nat, Value>

  predicate IsMove(t: Tag) { t.type1 == FROM && t.chunk == 1 }

  // LFS_FROM_NOOP and LFS_FROM_MOVE never reach a callback that filters
  predicate Silent(t: Tag) { t.IsNoop() || IsMove(t) }

  predicate RecOk(r: Rec) {
    && r.tag.id >= 0 && r.tag.type1 < 8 && r.tag.chunk < 0x100
    && r.tag.type1 != FROM
    && (r.tag.type1 == SPLICE ==> (r.tag.IsCreate() || r.tag.IsDelete()) && r.tag.size == 0)
  }

  predicate LogOk(log: seq<Rec>) { forall i :: 0 <= i < |log| ==> RecOk(log[i]) }

  predicate ItemOk(x: Item) {
    match x.payload
    case Data(bytes) => RecOk(Rec(x.tag, bytes)) && !IsMove(x.tag)
    case Source(log) => IsMove(x.tag) && x.tag.id >= 0 && x.tag.size < REMOVED && LogOk(log)
  }

  predicate ItemsOk(xs: seq<Item>) { forall i :: 0 <= i < |xs| ==> ItemOk(xs[i]) }

  function Lift(log: seq<Rec>): (xs: seq<Item>)
    ensures |xs| == |log|
    ensures forall i :: 0 <= i < |log| ==> xs[i] == Item(log[i].tag, Data(log[i].data))
  {
    seq(|log|, i requires 0 <= i < |log| => Item(log[i].tag, Data(log[i].data)))
  }

  function Pad(s: seq<Entry>, n: nat): (p: seq<Entry>)
    ensures |p| >= n && |p| >= |s|
    ensures forall i :: 0 <= i < |p| ==> p[i] == if i < |s| then s[i] else map[]
  {
    if |s| >= n then s else s + seq(n - |s|, i => map[])
  }

  function Slot(s: seq<Entry>, id: int, key: nat): Option<Value> {
    if 0 <= id < |s| && key in s[id] then Some(s[id][key]) else None
  }

  function Apply(s: seq<Entry>, r: Rec): seq<Entry> {
    var t := r.tag;
    if t.id < 0 then s
    else if t.IsCreate() then
      var p := Pad(s, t.id);
      p[..t.id] + [map[]] + p[t.id..]
    else if t.IsDelete() then
      if t.id < |s| then s[..t.id] + s[t.id + 1..] else s
    else if t.IsSlot() then
      var p := Pad(s, t.id + 1);
      p[t.id := if t.IsRemoval() then p[t.id] - {t.Key()}
                else p[t.id][t.Key() := Value(t.chunk, r.data)]]
    else s
  }

  function Replay(log: seq<Rec>): seq<Entry> {
    if log == [] then [] else Apply(Replay(log[..|log| - 1]), log[|log| - 1])
  }

  // `tempcount` of a fetch: how many entries the directory says it has
  function CountAfter(n: int, t: Tag): int {
    if t.type1 == NAME then if t.id >= n then t.id + 1 else n
    else if t.type1 == SPLICE then n + t.Splice()
    else n
  }

  function Count(log: seq<Rec>): int {
    if log == [] then 0 else CountAfter(Count(log[..|log| - 1]), log[|log| - 1].tag)
  }

  // what a move carries over: the structure and the attributes, not the name
  predicate Carried(key: nat) { key / 0x100 == STRUCT || key / 0x100 == USERATTR }

  function CarriedSlots(log: seq<Rec>, from: nat): Entry {
    var s := Replay(log);
    if from < |s| then map key | key in s[from] && Carried(key) :: s[from][key] else map[]
  }

  function ApplyItem(s: seq<Entry>, x: Item): seq<Entry> {
    match x.payload
    case Data(bytes) => Apply(s, Rec(x.tag, bytes))
    case Source(log) =>
      if x.tag.id < 0 then s else
      var p := Pad(s, x.tag.id + 1);
      p[x.tag.id := p[x.tag.id] + CarriedSlots(log, x.tag.size)]
  }

  function ReplayItems(xs: seq<Item>): seq<Entry> {
    if xs == [] then [] else ApplyItem(ReplayItems(xs[..|xs| - 1]), xs[|xs| - 1])
  }

  // ----- the replay, slot by slot -----

  predicate Writes(x: Item, id: int, key: nat) {
    x.tag.id == id
    && match x.payload
       case Data(_) => x.tag.IsSlot() && x.tag.Key() == key
       case Source(log) => key in CarriedSlots(log, x.tag.size)
  }

  function Written(x: Item, key: nat): Option<Value>
    requires Writes(x, x.tag.id, key)
  {
    match x.payload
    case Data(bytes) => if x.tag.IsRemoval() then None else Some(Value(x.tag.chunk, bytes))
    case Source(log) => Some(CarriedSlots(log, x.tag.size)[key])
  }

  // The id that entry `id` had before tag `t`; None if `t` created it.
  function Before(t: Tag, id: int): Option<int> {
    if t.IsCreate() then
      if id < t.id then Some(id) else if id == t.id then None else Some(id - 1)
    else if t.IsDelete() then
      if id < t.id then Some(id) else Some(id + 1)
    else Some(id)
  }

  // One step of the replay as seen from a single slot.
  lemma ApplySlot(s: seq<Entry>, r: Rec, id: int, key: nat)
    requires RecOk(r) && id >= 0
    ensures Slot(Apply(s, r), id, key) ==
            if r.tag.IsSlot() && r.tag.id == id && r.tag.Key() == key then
              if r.tag.IsRemoval() then None else Some(Value(r.tag.chunk, r.data))
            else match Before(r.tag, id)
              case None => None
              case Some(j) => Slot(s, j, key)
  {}

  lemma ApplyItemSlot(s: seq<Entry>, x: Item, id: int, key: nat)
    requires ItemOk(x) && id >= 0
    ensures Slot(ApplyItem(s, x), id, key) ==
            if Writes(x, id, key) then Written(x, key)
            else match Before(x.tag, id)
              case None => None
              case Some(j) => Slot(s, j, key)
  {
    if x.payload.Data? {
      hide Apply, Slot;
      ApplySlot(s, Rec(x.tag, x.payload.bytes), id, key);
    }
  }

  lemma LiftReplay(log: seq<Rec>)
    ensures ReplayItems(Lift(log)) == Replay(log)
  {
    if log != [] {
      var n := |log| - 1;
      LiftReplay(log[..n]);
      assert Lift(log)[..n] == Lift(log[..n]);
    }
  }
}
